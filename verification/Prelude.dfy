/** Result types and facts about built-in collections that several components use. */
module Prelude {

  datatype Option<+T> = None | Some(value: T)

  datatype Result<+T, +E> = Ok(value: T) | Err(error: E)

  /** A subset is no larger than the set it comes from. */
  lemma SubsetSize<T>(small: set<T>, large: set<T>)
    requires small <= large
    ensures |small| <= |large|
  {
    if small != {} {
      var x :| x in small;
      SubsetSize(small - {x}, large - {x});
    }
  }

  /** A map whose keys all come from another map is no larger than it. */
  lemma SubmapSize<K, V>(small: map<K, V>, large: map<K, V>)
    requires small.Keys <= large.Keys
    ensures |small| <= |large|
  {
    assert |small| == |small.Keys| && |large| == |large.Keys|;
    SubsetSize(small.Keys, large.Keys);
  }

  ghost predicate Distinct<T>(s: seq<T>) {
    forall i, j :: 0 <= i < j < |s| ==> s[i] != s[j]
  }

  lemma {:induction false} DistinctIsMultiset<T>(s: seq<T>)
    ensures Distinct(s) <==> forall x :: multiset(s)[x] <= 1
  {
    if s != [] {
      var rest := s[1..];
      DistinctIsMultiset(rest);
      assert s == [s[0]] + rest;
      assert forall x :: multiset(s)[x] == multiset(rest)[x] + if x == s[0] then 1 else 0;
      assert s[0] in rest <==> multiset(rest)[s[0]] > 0;
      assert forall i :: 0 <= i < |rest| ==> rest[i] == s[i + 1];
    }
  }
}

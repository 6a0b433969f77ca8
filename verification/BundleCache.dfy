/** The in-memory cache of certificate bundles: a byte-bounded list in order of
    use. Main results: it answers as if every bundle were built anew, and it
    holds exactly the longest run of most recently used bundles that fits. */
module BundleCaches {
  import opened Prelude

  const LIMIT := 8 * 1024 * 1024

  type Bytes = seq<bv8>

  type Built = Result<Bytes, string>

  datatype Entry = Entry(key: string, data: Bytes)

  datatype Cache = Cache(entries: seq<Entry>, size: int)

  const EMPTY := Cache([], 0)

  function Total(entries: seq<Entry>): nat {
    if entries == [] then 0 else |entries[0].data| + Total(entries[1..])
  }

  function Find(entries: seq<Entry>, key: string): (r: Option<nat>)
    ensures r.None? ==> forall i :: 0 <= i < |entries| ==> entries[i].key != key
    ensures r.Some? ==>
      && r.value < |entries| && entries[r.value].key == key
      && forall i :: 0 <= i < r.value ==> entries[i].key != key
  {
    if entries == [] then None
    else if entries[0].key == key then Some(0)
    else
      var r := Find(entries[1..], key);
      if r.Some? then Some(r.value + 1) else None
  }

  /** Drops the least recently used entries until `n` more bytes fit. */
  function Evict(entries: seq<Entry>, n: nat): seq<Entry> {
    if entries == [] || Total(entries) + n <= LIMIT then entries else Evict(entries[1..], n)
  }

  function Lookup(c: Cache, key: string, built: Built): (Cache, Built) {
    var found := Find(c.entries, key);
    if found.Some? then
      var i := found.value;
      (c.(entries := c.entries[..i] + c.entries[i + 1..] + [c.entries[i]]), Ok(c.entries[i].data))
    else if built.Err? || |built.value| > LIMIT then (c, built)
    else
      var entries := Evict(c.entries, |built.value|) + [Entry(key, built.value)];
      (Cache(entries, Total(entries)), built)
  }

  class BundleCache {
    var entries: seq<Entry>
    var size: int

    ghost predicate Valid()
      reads this
    {
      size == Total(entries)
    }

    ghost function Abstract(): Cache
      reads this
    {
      Cache(entries, size)
    }

    constructor ()
      ensures Valid() && Abstract() == EMPTY
    {
      entries, size := [], 0;
    }

    method Get(key: string, build: () -> Built) returns (data: Built)
      requires Valid()
      modifies this
      ensures Valid()
      ensures (Abstract(), data) == Lookup(old(Abstract()), key, build())
    {
      var i := 0;
      while i < |entries|
        invariant 0 <= i <= |entries| && Valid() && Abstract() == old(Abstract())
        invariant forall k :: 0 <= k < i ==> entries[k].key != key
      {
        if entries[i].key == key {
          assert Find(entries, key) == Some(i);
          MoveKeepsTotal(entries, i);
          var entry := entries[i];
          entries := entries[..i] + entries[i + 1..] + [entry];
          return Ok(entry.data);
        }
        i := i + 1;
      }
      data := build();
      if data.Err? || |data.value| > LIMIT {
        return;
      }
      while size + |data.value| > LIMIT
        invariant Valid()
        invariant Evict(entries, |data.value|) == Evict(old(entries), |data.value|)
        decreases |entries|
      {
        size := size - |entries[0].data|;
        entries := entries[1..];
      }
      TotalOfConcat(entries, [Entry(key, data.value)]);
      entries := entries + [Entry(key, data.value)];
      size := size + |data.value|;
    }
  }

  lemma {:induction false} TotalOfConcat(a: seq<Entry>, b: seq<Entry>)
    ensures Total(a + b) == Total(a) + Total(b)
  {
    if a == [] {
      assert a + b == b;
    } else {
      assert (a + b)[1..] == a[1..] + b;
      TotalOfConcat(a[1..], b);
    }
  }

  lemma MovedTotal(a: seq<Entry>, e: Entry, b: seq<Entry>)
    ensures Total(a + b + [e]) == Total(a + ([e] + b))
  {
    TotalOfConcat(a, [e] + b);
    TotalOfConcat([e], b);
    TotalOfConcat(a, b);
    TotalOfConcat(a + b, [e]);
  }

  lemma MoveKeepsTotal(entries: seq<Entry>, i: nat)
    requires i < |entries|
    ensures Total(entries[..i] + entries[i + 1..] + [entries[i]]) == Total(entries)
  {
    SplitAt(entries, i);
    MovedTotal(entries[..i], entries[i], entries[i + 1..]);
  }

  lemma SplitAt(entries: seq<Entry>, i: nat)
    requires i < |entries|
    ensures entries == entries[..i] + ([entries[i]] + entries[i + 1..])
  {
  }

  lemma MoveKeepsMembers(entries: seq<Entry>, i: nat)
    requires i < |entries|
    ensures forall e :: e in entries[..i] + entries[i + 1..] + [entries[i]] ==> e in entries
  {
  }

  // ---------------------------------------------------------------------
  // Requests for bundles that depend on the key alone
  // ---------------------------------------------------------------------

  type Builder = string -> Built

  /** The cache after a sequence of requests. */
  function Serve(c: Cache, build: Builder, requests: seq<string>): Cache {
    if requests == [] then c else
      var last := |requests| - 1;
      Lookup(Serve(c, build, requests[..last]), requests[last], build(requests[last])).0
  }

  predicate Cacheable(build: Builder, key: string) {
    build(key).Ok? && |build(key).value| <= LIMIT
  }

  /** What a cacheable key weighs. */
  function Weight(build: Builder, key: string): nat {
    if build(key).Ok? then |build(key).value| else 0
  }

  function Weights(build: Builder, keys: seq<string>): nat {
    if keys == [] then 0 else Weight(build, keys[0]) + Weights(build, keys[1..])
  }

  function Without(keys: seq<string>, key: string): seq<string> {
    if keys == [] then []
    else if keys[0] == key then Without(keys[1..], key)
    else [keys[0]] + Without(keys[1..], key)
  }

  /** The cacheable keys ever requested, least recently used first. */
  function Recency(build: Builder, requests: seq<string>): seq<string> {
    if requests == [] then [] else
      var last := |requests| - 1;
      var before := Recency(build, requests[..last]);
      if Cacheable(build, requests[last]) then Without(before, requests[last]) + [requests[last]] else before
  }

  /** The longest suffix that fits into the cache. */
  function LongestFit(build: Builder, keys: seq<string>): seq<string> {
    if keys == [] || Weights(build, keys) <= LIMIT then keys else LongestFit(build, keys[1..])
  }

  function Keys(entries: seq<Entry>): seq<string> {
    seq(|entries|, i requires 0 <= i < |entries| => entries[i].key)
  }

  /** Every entry holds what building its key yields, and the size is right. */
  ghost predicate Faithful(c: Cache, build: Builder) {
    && c.size == Total(c.entries)
    && forall e :: e in c.entries ==> build(e.key) == Ok(e.data)
  }

  lemma {:induction false} WeightsOfConcat(build: Builder, a: seq<string>, b: seq<string>)
    ensures Weights(build, a + b) == Weights(build, a) + Weights(build, b)
  {
    if a == [] {
      assert a + b == b;
    } else {
      assert (a + b)[1..] == a[1..] + b;
      WeightsOfConcat(build, a[1..], b);
    }
  }

  lemma {:induction false} TotalIsWeights(entries: seq<Entry>, build: Builder)
    requires forall e :: e in entries ==> build(e.key) == Ok(e.data)
    ensures Total(entries) == Weights(build, Keys(entries))
  {
    if entries != [] {
      assert Keys(entries)[1..] == Keys(entries[1..]);
      TotalIsWeights(entries[1..], build);
    }
  }

  lemma {:induction false} WithoutAbsent(keys: seq<string>, key: string)
    requires key !in keys
    ensures Without(keys, key) == keys
  {
    if keys != [] {
      WithoutAbsent(keys[1..], key);
    }
  }

  lemma {:induction false} WithoutOfConcat(a: seq<string>, b: seq<string>, key: string)
    ensures Without(a + b, key) == Without(a, key) + Without(b, key)
  {
    if a == [] {
      assert a + b == b;
    } else {
      assert (a + b)[1..] == a[1..] + b;
      WithoutOfConcat(a[1..], b, key);
    }
  }

  lemma {:induction false} WithoutRemoves(keys: seq<string>, key: string)
    ensures forall k :: k in Without(keys, key) <==> k in keys && k != key
  {
    if keys != [] {
      WithoutRemoves(keys[1..], key);
      assert forall k :: k in keys <==> k == keys[0] || k in keys[1..];
    }
  }

  lemma {:induction false} WithoutIsDistinct(keys: seq<string>, key: string)
    requires Distinct(keys)
    ensures Distinct(Without(keys, key))
  {
    if keys != [] {
      WithoutIsDistinct(keys[1..], key);
      WithoutRemoves(keys[1..], key);
      assert keys[0] !in Without(keys[1..], key);
    }
  }

  /** The position of the last request for a key. */
  function LastUse(requests: seq<string>, key: string): int {
    if requests == [] then -1
    else if requests[|requests| - 1] == key then |requests| - 1
    else LastUse(requests[..|requests| - 1], key)
  }

  /** The recency order has every requested key whose bundle can be built and
      is at most 8 MiB large, in the order of their last requests. */
  lemma {:induction false} RecencyIff(build: Builder, requests: seq<string>)
    ensures forall k :: k in Recency(build, requests) <==>
      k in requests && build(k).Ok? && |build(k).value| <= 8 * 1024 * 1024
    ensures forall i, j :: 0 <= i < j < |Recency(build, requests)| ==>
      LastUse(requests, Recency(build, requests)[i]) < LastUse(requests, Recency(build, requests)[j])
  {
    if requests != [] {
      var last := |requests| - 1;
      var before, key := requests[..last], requests[last];
      var older := Recency(build, before);
      assert requests == before + [key];
      RecencyIff(build, before);
      LastUseBounds(before);
      WithoutRemoves(older, key);
      WithoutKeepsOrder(older, before, key);
    }
  }

  lemma {:induction false} LastUseBounds(requests: seq<string>)
    ensures forall k :: -1 <= LastUse(requests, k) < |requests|
    decreases |requests|
  {
    if requests != [] {
      LastUseBounds(requests[..|requests| - 1]);
    }
  }

  lemma {:induction false} WithoutKeepsOrder(keys: seq<string>, requests: seq<string>, key: string)
    requires forall i, j :: 0 <= i < j < |keys| ==> LastUse(requests, keys[i]) < LastUse(requests, keys[j])
    ensures forall i, j :: 0 <= i < j < |Without(keys, key)| ==>
      LastUse(requests, Without(keys, key)[i]) < LastUse(requests, Without(keys, key)[j])
    decreases |keys|
  {
    if keys != [] {
      var rest := Without(keys[1..], key);
      WithoutKeepsOrder(keys[1..], requests, key);
      WithoutRemoves(keys[1..], key);
      forall j | 0 <= j < |rest| ensures LastUse(requests, keys[0]) < LastUse(requests, rest[j]) {
        assert rest[j] in rest && rest[j] in keys[1..];
      }
    }
  }

  lemma {:induction false} RecencyIsDistinct(build: Builder, requests: seq<string>)
    ensures Distinct(Recency(build, requests))
  {
    if requests != [] {
      var last := |requests| - 1;
      var older := Recency(build, requests[..last]);
      RecencyIsDistinct(build, requests[..last]);
      WithoutIsDistinct(older, requests[last]);
      WithoutRemoves(older, requests[last]);
      var kept := Without(older, requests[last]);
      assert forall i :: 0 <= i < |kept| ==> kept[i] in kept;
      assert Distinct(kept + [requests[last]]);
    }
  }

  /** A prefix whose last key no longer fits in front of `keys` plays no part. */
  lemma {:induction false} FitIgnoresPrefix(build: Builder, prefix: seq<string>, keys: seq<string>)
    requires prefix == [] || Weights(build, [prefix[|prefix| - 1]] + keys) > LIMIT
    ensures LongestFit(build, prefix + keys) == LongestFit(build, keys)
  {
    if prefix == [] {
      assert prefix + keys == keys;
    } else {
      assert prefix + keys == prefix[..|prefix| - 1] + ([prefix[|prefix| - 1]] + keys);
      WeightsOfConcat(build, prefix[..|prefix| - 1], [prefix[|prefix| - 1]] + keys);
      assert (prefix + keys)[1..] == prefix[1..] + keys;
      FitIgnoresPrefix(build, prefix[1..], keys);
    }
  }

  /** The longest fit is a suffix, it fits, and nothing can be put in front of it. */
  lemma {:induction false} FitIsLongest(build: Builder, keys: seq<string>)
    ensures var fit := LongestFit(build, keys);
      && |fit| <= |keys| && fit == keys[|keys| - |fit|..]
      && Weights(build, fit) <= LIMIT
      && (|fit| < |keys| ==> Weights(build, [keys[|keys| - |fit| - 1]] + fit) > LIMIT)
  {
    if keys != [] && Weights(build, keys) > LIMIT {
      var rest, fit := keys[1..], LongestFit(build, keys[1..]);
      FitIsLongest(build, rest);
      assert LongestFit(build, keys) == fit && fit == keys[|keys| - |fit|..];
      if |fit| == |rest| {
        assert [keys[0]] + fit == keys;
      } else {
        assert keys[|keys| - |fit| - 1] == rest[|rest| - |fit| - 1];
      }
    }
  }

  /** Evicting for a new key leaves the longest suffix that fits together with it. */
  lemma {:induction false} EvictIsFit(entries: seq<Entry>, build: Builder, key: string)
    requires forall e :: e in entries ==> build(e.key) == Ok(e.data)
    requires Cacheable(build, key)
    ensures var kept := Evict(entries, Weight(build, key));
      && Keys(kept) + [key] == LongestFit(build, Keys(entries) + [key])
      && |kept| <= |entries| && kept == entries[|entries| - |kept|..]
      && Total(kept) + Weight(build, key) <= LIMIT
  {
    WeightsOfConcat(build, Keys(entries), [key]);
    assert Weights(build, [key]) == Weight(build, key);
    TotalIsWeights(entries, build);
    if entries == [] {
      assert Keys(entries) + [key] == [key];
    } else if Total(entries) + Weight(build, key) > LIMIT {
      assert (Keys(entries) + [key])[1..] == Keys(entries[1..]) + [key];
      EvictIsFit(entries[1..], build, key);
    }
  }

  /** One request: the answer is what building yields, and the cache stays faithful. */
  lemma GetIsTransparent(c: Cache, build: Builder, key: string)
    requires Faithful(c, build)
    ensures Lookup(c, key, build(key)).1 == build(key)
    ensures Faithful(Lookup(c, key, build(key)).0, build)
  {
    var found := Find(c.entries, key);
    if found.Some? {
      MoveKeepsTotal(c.entries, found.value);
      MoveKeepsMembers(c.entries, found.value);
      assert c.entries[found.value] in c.entries;
    } else if Cacheable(build, key) {
      EvictIsFit(c.entries, build, key);
    }
  }

  lemma MovedWeights(build: Builder, a: seq<string>, k: string, b: seq<string>)
    ensures Weights(build, a + b + [k]) == Weights(build, a + ([k] + b))
  {
    WeightsOfConcat(build, a, [k] + b);
    WeightsOfConcat(build, [k], b);
    WeightsOfConcat(build, a, b);
    WeightsOfConcat(build, a + b, [k]);
  }

  /** Two suffixes of the same weight exclude the same older keys. */
  lemma FitOfSameWeight(build: Builder, older: seq<string>, held: seq<string>, moved: seq<string>)
    requires Weights(build, moved) == Weights(build, held) <= LIMIT
    requires older == [] || Weights(build, [older[|older| - 1]] + held) > LIMIT
    ensures LongestFit(build, older + moved) == moved
  {
    if older != [] {
      WeightsOfConcat(build, [older[|older| - 1]], held);
      WeightsOfConcat(build, [older[|older| - 1]], moved);
    }
    FitIgnoresPrefix(build, older, moved);
  }

  lemma WithoutMiddle(a: seq<string>, k: string, b: seq<string>)
    requires k !in a && k !in b
    ensures Without(a + ([k] + b), k) == a + b
  {
    WithoutOfConcat(a, [k] + b, k);
    WithoutOfConcat([k], b, k);
    WithoutAbsent(a, k);
    WithoutAbsent(b, k);
    assert Without([k], k) == [];
  }

  lemma UseMoves(older: seq<string>, a: seq<string>, k: string, b: seq<string>)
    requires k !in older && k !in a && k !in b
    ensures Without(older + (a + ([k] + b)), k) + [k] == older + (a + b + [k])
  {
    WithoutOfConcat(older, a + ([k] + b), k);
    WithoutAbsent(older, k);
    WithoutMiddle(a, k, b);
  }

  /** Using a key that is held moves it to the end and evicts nothing. */
  lemma FitAfterHit(build: Builder, older: seq<string>, a: seq<string>, k: string, b: seq<string>)
    requires k !in older && k !in a && k !in b
    requires Weights(build, a + ([k] + b)) <= LIMIT
    requires older == [] || Weights(build, [older[|older| - 1]] + (a + ([k] + b))) > LIMIT
    ensures LongestFit(build, Without(older + (a + ([k] + b)), k) + [k]) == a + b + [k]
  {
    UseMoves(older, a, k, b);
    MovedWeights(build, a, k, b);
    FitOfSameWeight(build, older, a + ([k] + b), a + b + [k]);
  }

  /** Using a key that is not held leaves what fits of the held keys together
      with it, also when the key had been held before. */
  lemma FitAfterMiss(build: Builder, older: seq<string>, held: seq<string>, key: string)
    requires key !in held
    requires older == [] || Weights(build, [older[|older| - 1]] + held) > LIMIT
    ensures LongestFit(build, Without(older + held, key) + [key]) == LongestFit(build, held + [key])
  {
    WithoutOfConcat(older, held, key);
    WithoutAbsent(held, key);
    var prefix := Without(older, key);
    assert (prefix + held) + [key] == prefix + (held + [key]);
    if prefix != [] {
      NothingFitsInFront(build, older, held, key);
    }
    FitIgnoresPrefix(build, prefix, held + [key]);
  }

  lemma LastOfWithout(older: seq<string>, key: string)
    requires older != [] && older[|older| - 1] != key
    ensures var prefix := Without(older, key); prefix != [] && prefix[|prefix| - 1] == older[|older| - 1]
  {
    var last := older[|older| - 1];
    assert older == older[..|older| - 1] + [last];
    WithoutOfConcat(older[..|older| - 1], [last], key);
    assert Without([last], key) == [last];
  }

  lemma NothingFitsInFront(build: Builder, older: seq<string>, held: seq<string>, key: string)
    requires older != [] && Weights(build, [older[|older| - 1]] + held) > LIMIT
    requires Without(older, key) != []
    ensures var prefix := Without(older, key);
      Weights(build, [prefix[|prefix| - 1]] + (held + [key])) > LIMIT
  {
    var last, prefix := older[|older| - 1], Without(older, key);
    if last != key {
      LastOfWithout(older, key);
    }
    WeightsOfConcat(build, [last], held);
    WeightsOfConcat(build, held, [key]);
    WeightsOfConcat(build, [prefix[|prefix| - 1]], held + [key]);
  }

  lemma DistinctMiddle(older: seq<string>, held: seq<string>, i: nat)
    requires Distinct(older + held) && i < |held|
    ensures held[i] !in older && held[i] !in held[..i] && held[i] !in held[i + 1..]
  {
    var all := older + held;
    assert forall j :: 0 <= j < |held| ==> all[|older| + j] == held[j];
    assert forall j :: 0 <= j < |older| ==> all[j] == older[j];
  }

  /** Cuts the recency order in front of what the cache holds. */
  lemma CutRecency(build: Builder, recency: seq<string>) returns (older: seq<string>)
    ensures recency == older + LongestFit(build, recency)
    ensures Weights(build, LongestFit(build, recency)) <= LIMIT
    ensures older == [] || Weights(build, [older[|older| - 1]] + LongestFit(build, recency)) > LIMIT
  {
    FitIsLongest(build, recency);
    older := recency[..|recency| - |LongestFit(build, recency)|];
  }

  lemma KeysOfHit(entries: seq<Entry>, i: nat)
    requires i < |entries|
    ensures Keys(entries[..i] + entries[i + 1..] + [entries[i]])
         == Keys(entries)[..i] + Keys(entries)[i + 1..] + [entries[i].key]
  {
  }

  lemma FitAfterUse(build: Builder, recency: seq<string>, i: nat)
    requires Distinct(recency) && i < |LongestFit(build, recency)|
    ensures var held := LongestFit(build, recency);
      LongestFit(build, Without(recency, held[i]) + [held[i]]) == held[..i] + held[i + 1..] + [held[i]]
  {
    var held := LongestFit(build, recency);
    var older := CutRecency(build, recency);
    DistinctMiddle(older, held, i);
    var a, key, b := held[..i], held[i], held[i + 1..];
    assert held == a + ([key] + b);
    FitAfterHit(build, older, a, key, b);
  }

  /** The cache keeps to the longest fit: a hit. */
  lemma HitKeepsFit(c: Cache, build: Builder, recency: seq<string>, key: string)
    requires Distinct(recency) && Keys(c.entries) == LongestFit(build, recency)
    requires Find(c.entries, key).Some?
    ensures Keys(Lookup(c, key, build(key)).0.entries) == LongestFit(build, Without(recency, key) + [key])
  {
    var i := Find(c.entries, key).value;
    FitAfterUse(build, recency, i);
    KeysOfHit(c.entries, i);
  }

  /** The cache keeps to the longest fit: a miss. */
  lemma MissKeepsFit(c: Cache, build: Builder, recency: seq<string>, key: string)
    requires Faithful(c, build) && Cacheable(build, key)
    requires Keys(c.entries) == LongestFit(build, recency)
    requires Find(c.entries, key).None?
    ensures Keys(Lookup(c, key, build(key)).0.entries) == LongestFit(build, Without(recency, key) + [key])
  {
    assert Keys(Lookup(c, key, build(key)).0.entries) == Keys(Evict(c.entries, Weight(build, key))) + [key];
    EvictIsFit(c.entries, build, key);
    var older := CutRecency(build, recency);
    FitAfterMiss(build, older, Keys(c.entries), key);
  }

  lemma {:induction false} ServeKeepsFit(build: Builder, requests: seq<string>)
    ensures Faithful(Serve(EMPTY, build, requests), build)
    ensures Keys(Serve(EMPTY, build, requests).entries) == LongestFit(build, Recency(build, requests))
  {
    if requests != [] {
      var last := |requests| - 1;
      var c, key := Serve(EMPTY, build, requests[..last]), requests[last];
      var recency := Recency(build, requests[..last]);
      ServeKeepsFit(build, requests[..last]);
      RecencyIsDistinct(build, requests[..last]);
      GetIsTransparent(c, build, key);
      if Find(c.entries, key).Some? {
        HitIsCacheable(c, build, recency, key);
        HitKeepsFit(c, build, recency, key);
      } else if Cacheable(build, key) {
        MissKeepsFit(c, build, recency, key);
      }
    }
  }

  lemma HitIsCacheable(c: Cache, build: Builder, recency: seq<string>, key: string)
    requires Faithful(c, build) && Keys(c.entries) == LongestFit(build, recency)
    requires Find(c.entries, key).Some?
    ensures Cacheable(build, key)
  {
    FitIsLongest(build, recency);
    MemberWeighsLess(build, Keys(c.entries), Find(c.entries, key).value);
  }

  lemma {:induction false} MemberWeighsLess(build: Builder, keys: seq<string>, i: nat)
    requires i < |keys|
    ensures Weight(build, keys[i]) <= Weights(build, keys)
  {
    if i > 0 {
      MemberWeighsLess(build, keys[1..], i - 1);
    }
  }

  /** Main result: whatever was requested before, a request gets what building its key would yield. */
  lemma CacheIsTransparent(build: Builder, requests: seq<string>, key: string)
    ensures Lookup(Serve(EMPTY, build, requests), key, build(key)).1 == build(key)
  {
    ServeKeepsFit(build, requests);
    GetIsTransparent(Serve(EMPTY, build, requests), build, key);
  }

  /** Main result: the cache holds exactly the longest run of most recently
      used bundles that fits into 8 MiB; keys are distinct and the size is
      the sum of the lengths. */
  lemma CacheHoldsLongestFit(build: Builder, requests: seq<string>)
    ensures var c, recency := Serve(EMPTY, build, requests), Recency(build, requests);
      var n := |c.entries|;
      && n <= |recency| && Keys(c.entries) == recency[|recency| - n..]
      && (n < |recency| ==> Weight(build, recency[|recency| - n - 1]) + c.size > 8 * 1024 * 1024)
      && Distinct(Keys(c.entries))
      && c.size == Total(c.entries) <= 8 * 1024 * 1024
  {
    var c, recency := Serve(EMPTY, build, requests), Recency(build, requests);
    ServeKeepsFit(build, requests);
    FitIsLongest(build, recency);
    RecencyIsDistinct(build, requests);
    TotalIsWeights(c.entries, build);
    var n := |Keys(c.entries)|;
    if n < |recency| {
      WeightsOfConcat(build, [recency[|recency| - n - 1]], Keys(c.entries));
    }
  }
}

/** Text search over the audit log: the pattern made from the search text, and
    SQLite's LIKE, which it is matched with. Main result: escaping keeps the
    search a plain search for the text. */
module AuditSearch {
  import opened Text

  /** Each character with a meaning in patterns gets the escape character in front. */
  function Escape(value: string): string {
    if value == "" then ""
    else
      (if value[0] in ['\\', '%', '_'] then ['\\', value[0]] else [value[0]]) + Escape(value[1..])
  }

  function LikeValue(value: string): string {
    var text := TrimSpace(value);
    if text == "" then "" else "%" + Escape(text) + "%"
  }

  /** LIKE with the escape character `\`: `%` stands for any text, `_` for one
      character, an escaped character for itself, and letters match in either
      ASCII case. A pattern that ends in the escape character matches nothing. */
  predicate Like(pattern: string, s: string)
    decreases |pattern| + |s|
  {
    if pattern == "" then s == ""
    else if pattern[0] == '%' then Like(pattern[1..], s) || (s != "" && Like(pattern, s[1..]))
    else if pattern[0] == '_' then s != "" && Like(pattern[1..], s[1..])
    else if pattern[0] == '\\' then
      |pattern| > 1 && s != "" && LowerChar(pattern[1]) == LowerChar(s[0]) && Like(pattern[2..], s[1..])
    else s != "" && LowerChar(pattern[0]) == LowerChar(s[0]) && Like(pattern[1..], s[1..])
  }

  ghost predicate OccursAt(text: string, s: string, i: int) {
    0 <= i <= |s| - |text| && ToLower(s[i..i + |text|]) == ToLower(text)
  }

  /** `text` occurs in `s` up to ASCII case. */
  ghost predicate Occurs(text: string, s: string) {
    exists i :: OccursAt(text, s, i)
  }

  ghost predicate StartsWith(text: string, s: string) {
    |text| <= |s| && ToLower(s[..|text|]) == ToLower(text)
  }

  lemma LowerTail(a: string, b: string)
    requires a != "" && b != ""
    ensures ToLower(a) == ToLower(b) <==> LowerChar(a[0]) == LowerChar(b[0]) && ToLower(a[1..]) == ToLower(b[1..])
  {
  }

  /** `%` alone matches everything. */
  lemma {:induction false} AnyTail(s: string)
    ensures Like("%", s)
    decreases |s|
  {
    assert "%"[1..] == "";
    if s != "" {
      AnyTail(s[1..]);
    }
  }

  /** An escaped text followed by `%` matches exactly what starts with the text. */
  lemma {:induction false} EscapedMatchesStart(text: string, s: string)
    ensures Like(Escape(text) + "%", s) <==> StartsWith(text, s)
    decreases |text|
  {
    if text == "" {
      assert Escape(text) + "%" == "%";
      AnyTail(s);
      assert ToLower(s[..0]) == ToLower(text);
    } else {
      var head := if text[0] in ['\\', '%', '_'] then ['\\', text[0]] else [text[0]];
      var pattern := Escape(text) + "%";
      assert pattern == head + (Escape(text[1..]) + "%");
      assert pattern[|head|..] == Escape(text[1..]) + "%";
      if s != "" {
        EscapedMatchesStart(text[1..], s[1..]);
        if |text| <= |s| {
          LowerTail(s[..|text|], text);
          assert s[..|text|][1..] == s[1..][..|text| - 1];
        }
      }
    }
  }

  /** `%` in front lets the match start anywhere. */
  lemma {:induction false} PercentMatchesAnywhere(text: string, s: string)
    ensures Like("%" + (Escape(text) + "%"), s) <==> Occurs(text, s)
    decreases |s|
  {
    var rest := Escape(text) + "%";
    assert ("%" + rest)[1..] == rest;
    EscapedMatchesStart(text, s);
    assert StartsWith(text, s) <==> OccursAt(text, s, 0) by {
      if |text| <= |s| {
        assert s[0..0 + |text|] == s[..|text|];
      }
    }
    if s != "" {
      PercentMatchesAnywhere(text, s[1..]);
      OccursInTail(text, s);
    }
  }

  lemma OccursInTail(text: string, s: string)
    requires s != ""
    ensures Occurs(text, s) <==> OccursAt(text, s, 0) || Occurs(text, s[1..])
  {
    forall i ensures i >= 1 ==> (OccursAt(text, s, i) <==> OccursAt(text, s[1..], i - 1)) {
      if 1 <= i <= |s| - |text| {
        assert s[1..][i - 1..i - 1 + |text|] == s[i..i + |text|];
      }
    }
    if Occurs(text, s[1..]) {
      var i :| OccursAt(text, s[1..], i);
      assert OccursAt(text, s, i + 1);
    }
  }

  /** Main result: for a search text that is not blank, the pattern matches
      exactly the texts in which the trimmed search text occurs. */
  lemma EscapingPreservesMeaning(value: string, s: string)
    requires TrimSpace(value) != ""
    ensures Like(LikeValue(value), s) <==> Occurs(TrimSpace(value), s)
  {
    var text := TrimSpace(value);
    assert LikeValue(value) == "%" + (Escape(text) + "%");
    PercentMatchesAnywhere(text, s);
  }

  // ---------------------------------------------------------------------
  // The search
  // ---------------------------------------------------------------------

  datatype AuditRow = AuditRow(actor: string, action: string, resource: string, detail: string, ip: string)

  datatype Filter = Filter(query: string, actors: seq<string>, actions: seq<string>, resources: seq<string>)

  /** The rows a condition of the query keeps, in order. */
  function Where(rows: seq<AuditRow>, p: AuditRow -> bool): (r: seq<AuditRow>)
    ensures forall row :: row in r <==> row in rows && p(row)
    ensures forall row :: multiset(r)[row] == if p(row) then multiset(rows)[row] else 0
  {
    if rows == [] then [] else
      var kept := Where(rows[..|rows| - 1], p);
      assert rows == rows[..|rows| - 1] + [rows[|rows| - 1]];
      if p(rows[|rows| - 1]) then kept + [rows[|rows| - 1]] else kept
  }

  /** A row is found when the text, unless blank, occurs in one of its five
      fields and each of the lists, unless empty, has its value. */
  ghost predicate Wanted(f: Filter, row: AuditRow) {
    var text := TrimSpace(f.query);
    && (text != "" ==> Occurs(text, row.actor) || Occurs(text, row.action) || Occurs(text, row.resource)
                       || Occurs(text, row.detail) || Occurs(text, row.ip))
    && (f.actors != [] ==> row.actor in f.actors)
    && (f.actions != [] ==> row.action in f.actions)
    && (f.resources != [] ==> row.resource in f.resources)
  }

  lemma TextCondition(f: Filter, row: AuditRow)
    requires TrimSpace(f.query) != ""
    ensures var value, text := LikeValue(f.query), TrimSpace(f.query);
      (Like(value, row.actor) || Like(value, row.action) || Like(value, row.resource)
       || Like(value, row.detail) || Like(value, row.ip))
      <==> (Occurs(text, row.actor) || Occurs(text, row.action) || Occurs(text, row.resource)
            || Occurs(text, row.detail) || Occurs(text, row.ip))
  {
    EscapingPreservesMeaning(f.query, row.actor);
    EscapingPreservesMeaning(f.query, row.action);
    EscapingPreservesMeaning(f.query, row.resource);
    EscapingPreservesMeaning(f.query, row.detail);
    EscapingPreservesMeaning(f.query, row.ip);
  }

  /** Narrows the query condition by condition; paging is left to the caller. */
  method Search(rows: seq<AuditRow>, f: Filter) returns (found: seq<AuditRow>)
    ensures forall row :: row in found <==> row in rows && Wanted(f, row)
    ensures forall row :: multiset(found)[row] == if Wanted(f, row) then multiset(rows)[row] else 0
  {
    found := rows;
    var value := LikeValue(f.query);
    if value != "" {
      found := Where(found, (row: AuditRow) =>
        Like(value, row.actor) || Like(value, row.action) || Like(value, row.resource)
        || Like(value, row.detail) || Like(value, row.ip));
      forall row { TextCondition(f, row); }
    }
    if f.actors != [] {
      found := Where(found, (row: AuditRow) => row.actor in f.actors);
    }
    if f.actions != [] {
      found := Where(found, (row: AuditRow) => row.action in f.actions);
    }
    if f.resources != [] {
      found := Where(found, (row: AuditRow) => row.resource in f.resources);
    }
  }
}

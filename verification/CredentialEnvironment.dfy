/** Credentials of DNS providers reach their constructors through the process
    environment, which is set up and restored around the call. Main results:
    the environment is restored on every exit, and what the constructor sees
    has a closed form. */
module CredentialEnvironment {
  import opened Prelude
  import opened Text

  const FILE_SUFFIX := "_FILE"

  type Variables = map<string, string>

  /** Names and values that the operating system accepts. */
  predicate ValidName(name: string) {
    name != "" && '=' !in name && '\0' !in name
  }

  predicate ValidValue(value: string) {
    '\0' !in value
  }

  ghost predicate WellFormed(vars: Variables) {
    forall name :: name in vars ==> ValidName(name) && ValidValue(vars[name])
  }

  function Lookup(vars: Variables, name: string): Option<string> {
    if name in vars then Some(vars[name]) else None
  }

  class Process {
    var vars: Variables

    constructor (vars: Variables)
      ensures this.vars == vars
    {
      this.vars := vars;
    }

    method Setenv(name: string, value: string) returns (ok: bool)
      modifies this
      ensures ok <==> ValidName(name) && ValidValue(value)
      ensures vars == if ok then old(vars)[name := value] else old(vars)
    {
      ok := ValidName(name) && ValidValue(value);
      if ok {
        vars := vars[name := value];
      }
    }

    method Unsetenv(name: string)
      modifies this
      ensures vars == old(vars) - {name}
    {
      vars := vars - {name};
    }
  }

  datatype Failure =
    | Missing(key: string) | Unreadable(key: string) | Unsettable(key: string) | Constructor(error: string)

  /** The configured variables of a credential and the files they may name. */
  datatype Credential = Credential(environment: map<string, string>, readFile: string -> Option<string>)

  // ---------------------------------------------------------------------
  // What is promised
  // ---------------------------------------------------------------------

  /** What is wrong with a key, judged by the initial environment alone. */
  function Verdict(c: Credential, initial: Variables, key: string): Option<Failure>
    requires key in c.environment
  {
    var value := c.environment[key];
    if value == "" then
      if key in initial then None else Some(Missing(key))
    else if HasSuffix(key, FILE_SUFFIX) then
      var contents := c.readFile(value);
      if contents.None? then Some(Unreadable(key))
      else if ValidName(TrimSuffix(key, FILE_SUFFIX)) && ValidValue(TrimSpace(contents.value)) then None
      else Some(Unsettable(TrimSuffix(key, FILE_SUFFIX)))
    else if ValidName(key) && ValidValue(value) then None
    else Some(Unsettable(key))
  }

  /** `key` is among `keys` and given a value. */
  predicate Given(c: Credential, keys: set<string>, key: string) {
    key in keys && key in c.environment && c.environment[key] != ""
  }

  /** The value the keys give to variable `name`: the trimmed contents of the
      file if `name_FILE` is given, else the literal if `name` is given and is
      not itself the name of a file variable. */
  function Assigned(c: Credential, keys: set<string>, name: string): Option<string> {
    if Given(c, keys, name + FILE_SUFFIX) && c.readFile(c.environment[name + FILE_SUFFIX]).Some? then
      Some(TrimSpace(c.readFile(c.environment[name + FILE_SUFFIX]).value))
    else if Given(c, keys, name) && !HasSuffix(name, FILE_SUFFIX) then Some(c.environment[name])
    else None
  }

  /** What the constructor finds in variable `name`. */
  function Expected(c: Credential, initial: Variables, keys: set<string>, name: string): Option<string> {
    var given := Assigned(c, keys, name);
    if given.Some? then given else Lookup(initial, name)
  }

  /** `key` is the first key in sorted order that anything is wrong with, and `failure` says what. */
  ghost predicate FirstFails(c: Credential, initial: Variables, key: string, failure: Failure) {
    && key in c.environment && Verdict(c, initial, key) == Some(failure)
    && forall k :: k in c.environment && k != key && Leq(k, key) ==> Verdict(c, initial, k).None?
  }

  function Target(key: string): string {
    TrimSuffix(key, FILE_SUFFIX)
  }

  /** The whole environment the constructor runs in. */
  function SeenBy(c: Credential, initial: Variables): Variables {
    map name | name in initial.Keys + (set key | key in c.environment :: Target(key))
      && Expected(c, initial, c.environment.Keys, name).Some? ::
      Expected(c, initial, c.environment.Keys, name).value
  }

  // ---------------------------------------------------------------------
  // The code
  // ---------------------------------------------------------------------

  /** The keys of the credential, sorted. */
  method SortedKeys(c: Credential) returns (keys: seq<string>)
    ensures KeysOf(c, keys)
  {
    keys := [];
    var rest := c.environment.Keys;
    while rest != {}
      invariant rest <= c.environment.Keys
      invariant multiset(keys) == multiset(c.environment.Keys - rest)
      decreases rest
    {
      var key :| key in rest;
      keys := keys + [key];
      rest := rest - {key};
    }
    SortSorts(keys);
    DistinctIsMultiset(Sort(keys));
    assert forall k :: k in Sort(keys) <==> k in multiset(Sort(keys));
    keys := Sort(keys);
  }

  /** Every variable not saved has its initial value; every saved one is saved with it. */
  ghost predicate Restorable(vars: Variables, initial: Variables, saved: map<string, Option<string>>) {
    && (forall name :: name in saved ==> saved[name] == Lookup(initial, name))
    && (forall name :: name !in saved ==> Lookup(vars, name) == Lookup(initial, name))
  }

  ghost function Members(keys: seq<string>, n: nat): set<string>
    requires n <= |keys|
  {
    set k | k in keys[..n]
  }

  /** A key's file variable comes after it, so when a key is reached neither it
      nor its file variable has been written yet. */
  lemma NotYetAssigned(c: Credential, keys: seq<string>, n: nat)
    requires Sorted(keys) && Distinct(keys) && n < |keys|
    ensures Assigned(c, Members(keys, n), keys[n]).None?
  {
    ExtensionIsLater(keys[n], FILE_SUFFIX);
    assert keys[n] !in keys[..n];
  }

  lemma SuffixRoundTrip(name: string)
    ensures HasSuffix(name + FILE_SUFFIX, FILE_SUFFIX) && TrimSuffix(name + FILE_SUFFIX, FILE_SUFFIX) == name
  {
  }

  lemma TargetRoundTrip(key: string)
    requires HasSuffix(key, FILE_SUFFIX)
    ensures Target(key) + FILE_SUFFIX == key
  {
  }

  /** What a key that is given sets its target to. */
  function NewValue(c: Credential, key: string): string
    requires key in c.environment
    requires HasSuffix(key, FILE_SUFFIX) ==> c.readFile(c.environment[key]).Some?
  {
    if HasSuffix(key, FILE_SUFFIX) then TrimSpace(c.readFile(c.environment[key]).value) else c.environment[key]
  }

  /** The environment after one key that nothing is wrong with. */
  function Applied(c: Credential, initial: Variables, vars: Variables, key: string): Variables
    requires key in c.environment && Verdict(c, initial, key).None?
  {
    if c.environment[key] == "" then vars else vars[Target(key) := NewValue(c, key)]
  }

  /** Processing one key changes the assignment of its target only. */
  lemma AssignNext(c: Credential, initial: Variables, keys: seq<string>, n: nat, name: string)
    requires Sorted(keys) && Distinct(keys) && n < |keys| && keys[n] in c.environment
    requires Verdict(c, initial, keys[n]).None?
    ensures Assigned(c, Members(keys, n + 1), name) ==
      if c.environment[keys[n]] == "" || name != Target(keys[n]) then Assigned(c, Members(keys, n), name)
      else Some(NewValue(c, keys[n]))
  {
    var key := keys[n];
    assert keys[..n + 1] == keys[..n] + [key];
    assert Members(keys, n + 1) == Members(keys, n) + {key};
    SuffixRoundTrip(name);
    if HasSuffix(key, FILE_SUFFIX) {
      TargetRoundTrip(key);
    } else {
      NotYetAssigned(c, keys, n);
      ExtensionIsLater(key, FILE_SUFFIX);
      NotYetGiven(keys, n);
    }
  }

  /** `keys` lists the keys of the credential in order. */
  ghost predicate KeysOf(c: Credential, keys: seq<string>) {
    Sorted(keys) && Distinct(keys) && forall k :: k in keys <==> k in c.environment
  }

  /** Nothing is wrong with any key. */
  ghost predicate AllPass(c: Credential, initial: Variables) {
    forall key :: key in c.environment ==> Verdict(c, initial, key).None?
  }

  /** The first `n` keys passed, and the environment is as they leave it. */
  ghost predicate SetUpTo(c: Credential, initial: Variables, keys: seq<string>, n: nat, vars: Variables) {
    && KeysOf(c, keys) && n <= |keys|
    && (forall m :: 0 <= m < n ==> keys[m] in keys && Verdict(c, initial, keys[m]).None?)
    && (forall name :: Lookup(vars, name) == Expected(c, initial, Members(keys, n), name))
  }

  lemma TargetsAreCovered(c: Credential, initial: Variables, name: string)
    requires Expected(c, initial, c.environment.Keys, name).Some?
    ensures name in initial.Keys + (set key | key in c.environment :: Target(key))
  {
  }

  /** Main result: what the constructor finds in a variable is the trimmed
      contents of the file given for it, else the literal given for it, else
      the inherited value. */
  lemma ClosedForm(c: Credential, initial: Variables, name: string)
    requires AllPass(c, initial)
    ensures var file, given := name + FILE_SUFFIX, c.environment;
      Lookup(SeenBy(c, initial), name) ==
        if file in given && given[file] != "" then
          if c.readFile(given[file]).Some? then Some(TrimSpace(c.readFile(given[file]).value)) else None
        else if name in given && given[name] != "" && !HasSuffix(name, FILE_SUFFIX) then Some(given[name])
        else Lookup(initial, name)
  {
    SuffixRoundTrip(name);
    if Expected(c, initial, c.environment.Keys, name).Some? {
      TargetsAreCovered(c, initial, name);
    }
    assert name + FILE_SUFFIX in c.environment ==> Verdict(c, initial, name + FILE_SUFFIX).None?;
  }

  /** Main result: nothing is wrong with any key if and only if every key with
      an empty value is in the initial environment, every other file key names
      a readable file whose trimmed contents and target the system accepts, and
      every other key and its value are accepted. */
  lemma AllPassIff(c: Credential, initial: Variables)
    ensures AllPass(c, initial) <==> forall key :: key in c.environment ==>
      var value := c.environment[key];
      if value == "" then key in initial
      else if HasSuffix(key, "_FILE") then
        && c.readFile(value).Some?
        && ValidName(key[..|key| - 5]) && ValidValue(TrimSpace(c.readFile(value).value))
      else ValidName(key) && ValidValue(value)
  {
    assert FILE_SUFFIX == "_FILE";
  }

  /** Main result: which failure a key has, and when it has none. */
  lemma FailureIff(c: Credential, initial: Variables, key: string)
    requires key in c.environment
    ensures var value, file := c.environment[key], HasSuffix(key, "_FILE");
      var target := if file then key[..|key| - 5] else key;
      var contents := if file then c.readFile(value) else Some(value);
      && (Verdict(c, initial, key) == Some(Missing(key)) <==> value == "" && key !in initial)
      && (Verdict(c, initial, key) == Some(Unreadable(key)) <==> value != "" && contents.None?)
      && (Verdict(c, initial, key) == Some(Unsettable(target)) <==>
            && value != "" && contents.Some?
            && !(ValidName(target) && ValidValue(if file then TrimSpace(contents.value) else value)))
      && (Verdict(c, initial, key).None?
          || Verdict(c, initial, key).value in {Missing(key), Unreadable(key), Unsettable(target)})
  {
    assert FILE_SUFFIX == "_FILE";
  }

  lemma SetUpNone(c: Credential, initial: Variables, keys: seq<string>)
    requires KeysOf(c, keys)
    ensures SetUpTo(c, initial, keys, 0, initial)
  {
  }

  lemma SetUpNext(c: Credential, initial: Variables, keys: seq<string>, n: nat, vars: Variables, after: Variables)
    requires SetUpTo(c, initial, keys, n, vars) && n < |keys| && keys[n] in c.environment
    requires Verdict(c, initial, keys[n]).None? && after == Applied(c, initial, vars, keys[n])
    ensures SetUpTo(c, initial, keys, n + 1, after)
  {
    forall name ensures Lookup(after, name) == Expected(c, initial, Members(keys, n + 1), name) {
      assert Lookup(vars, name) == Expected(c, initial, Members(keys, n), name);
      AssignNext(c, initial, keys, n, name);
    }
  }

  /** The key reached next still has its initial value. */
  lemma NextIsInitial(c: Credential, initial: Variables, keys: seq<string>, n: nat, vars: Variables)
    requires SetUpTo(c, initial, keys, n, vars) && n < |keys|
    ensures keys[n] in c.environment && Lookup(vars, keys[n]) == Lookup(initial, keys[n])
  {
    assert keys[n] in keys;
    NotYetAssigned(c, keys, n);
    assert Lookup(vars, keys[n]) == Expected(c, initial, Members(keys, n), keys[n]);
  }

  lemma NextFailsFirst(c: Credential, initial: Variables, keys: seq<string>, n: nat, vars: Variables, failure: Failure)
    requires SetUpTo(c, initial, keys, n, vars) && n < |keys| && keys[n] in c.environment
    requires Verdict(c, initial, keys[n]) == Some(failure)
    ensures FirstFails(c, initial, keys[n], failure) && !AllPass(c, initial)
  {
    forall k | k in c.environment && k != keys[n] && Leq(k, keys[n]) ensures Verdict(c, initial, k).None? {
      var m :| 0 <= m < |keys| && keys[m] == k;
      if m > n {
        LeqAntisymmetric(k, keys[n]);
      }
    }
  }

  lemma SetUpAll(c: Credential, initial: Variables, keys: seq<string>, vars: Variables)
    requires SetUpTo(c, initial, keys, |keys|, vars)
    ensures AllPass(c, initial) && vars == SeenBy(c, initial)
  {
    forall key | key in c.environment ensures Verdict(c, initial, key).None? {
      assert key in keys;
    }
    assert keys[..|keys|] == keys;
    assert Members(keys, |keys|) == c.environment.Keys;
    SeenByIsExpected(c, initial, vars);
  }

  lemma SeenByIsExpected(c: Credential, initial: Variables, vars: Variables)
    requires forall name :: Lookup(vars, name) == Expected(c, initial, c.environment.Keys, name)
    ensures vars == SeenBy(c, initial)
  {
    forall name | Expected(c, initial, c.environment.Keys, name).Some?
      ensures name in initial.Keys + (set key | key in c.environment :: Target(key))
    {
      TargetsAreCovered(c, initial, name);
    }
    assert forall name :: name in vars <==> Lookup(vars, name).Some?;
    assert forall name :: name in vars <==> name in SeenBy(c, initial);
  }

  lemma NotYetGiven(keys: seq<string>, n: nat)
    requires Sorted(keys) && Distinct(keys) && n < |keys|
    ensures keys[n] + FILE_SUFFIX !in Members(keys, n + 1)
  {
    ExtensionIsLater(keys[n], FILE_SUFFIX);
  }

  /** The body of the loop over the keys: save the target, unless it is saved already, and set it. */
  method Apply(
    process: Process, c: Credential, key: string, before: map<string, Option<string>>, ghost initial: Variables)
    returns (failure: Option<Failure>, saved: map<string, Option<string>>)
    requires key in c.environment
    requires WellFormed(process.vars) && Restorable(process.vars, initial, before)
    requires Lookup(process.vars, key) == Lookup(initial, key)
    modifies process
    ensures failure == Verdict(c, initial, key)
    ensures WellFormed(process.vars) && Restorable(process.vars, initial, saved)
    ensures failure.None? ==> process.vars == Applied(c, initial, old(process.vars), key)
  {
    failure, saved := None, before;
    var target, value := key, c.environment[key];
    if value == "" {
      return if key !in process.vars then Some(Missing(key)) else None, saved;
    }
    if HasSuffix(key, FILE_SUFFIX) {
      var contents := c.readFile(value);
      if contents.None? {
        return Some(Unreadable(key)), saved;
      }
      target, value := TrimSuffix(key, FILE_SUFFIX), TrimSpace(contents.value);
    }
    if target !in saved {
      saved := saved[target := Lookup(process.vars, target)];
    }
    var ok := process.Setenv(target, value);
    if !ok {
      failure := Some(Unsettable(target));
    }
  }

  /** Sets up the environment key by key, saving each target before it is first written. */
  method SetUp(process: Process, c: Credential) returns (failure: Option<Failure>, saved: map<string, Option<string>>)
    requires WellFormed(process.vars)
    modifies process
    ensures WellFormed(process.vars) && Restorable(process.vars, old(process.vars), saved)
    ensures failure.None? <==> AllPass(c, old(process.vars))
    ensures failure.None? ==> process.vars == SeenBy(c, old(process.vars))
    ensures failure.Some? ==> exists key :: FirstFails(c, old(process.vars), key, failure.value)
  {
    ghost var initial := process.vars;
    failure, saved := None, map[];
    var keys := SortedKeys(c);
    SetUpNone(c, initial, keys);
    var i := 0;
    while i < |keys|
      invariant 0 <= i <= |keys| && failure.None?
      invariant WellFormed(process.vars) && Restorable(process.vars, initial, saved)
      invariant SetUpTo(c, initial, keys, i, process.vars)
    {
      ghost var vars := process.vars;
      NextIsInitial(c, initial, keys, i, vars);
      failure, saved := Apply(process, c, keys[i], saved, initial);
      if failure.Some? {
        NextFailsFirst(c, initial, keys, i, vars, failure.value);
        return;
      }
      SetUpNext(c, initial, keys, i, vars, process.vars);
      i := i + 1;
    }
    SetUpAll(c, initial, keys, process.vars);
  }

  /** The deferred restoration; the saved variables are visited in any order. */
  method Restore(process: Process, saved: map<string, Option<string>>, ghost initial: Variables) returns (ok: bool)
    requires WellFormed(initial) && Restorable(process.vars, initial, saved)
    modifies process
    ensures ok && process.vars == initial
  {
    ok := true;
    var names := saved.Keys;
    while names != {}
      invariant ok && names <= saved.Keys
      invariant forall name :: name !in names ==> Lookup(process.vars, name) == Lookup(initial, name)
      decreases names
    {
      var name :| name in names;
      assert saved[name] == Lookup(initial, name);
      if saved[name].None? {
        process.Unsetenv(name);
      } else {
        var done := process.Setenv(name, saved[name].value);
        ok := ok && done;
      }
      names := names - {name};
    }
    assert forall name :: name in process.vars <==> Lookup(process.vars, name).Some?;
    assert forall name :: name in initial <==> Lookup(initial, name).Some?;
    assert forall name :: name in initial ==> Lookup(process.vars, name) == Some(initial[name]);
  }

  /** Main result: on every exit the environment is what it was. The
      constructor runs exactly when no key fails against the initial
      environment, and then runs in the environment of the closed form;
      otherwise the failure is that of the first failing key in sorted order. */
  method WithCredentialEnvironment<P>(process: Process, c: Credential, create: Variables -> Result<P, string>)
    returns (r: Result<P, Failure>)
    requires WellFormed(process.vars)
    modifies process
    ensures process.vars == old(process.vars)
    ensures var initial := old(process.vars);
      if AllPass(c, initial) then
        var made := create(SeenBy(c, initial));
        r == if made.Ok? then Ok(made.value) else Err(Constructor(made.error))
      else r.Err? && exists key :: FirstFails(c, initial, key, r.error)
    ensures r.Ok? || r.error.Constructor? <==> forall key :: key in c.environment ==>
      var value := c.environment[key];
      if value == "" then key in old(process.vars)
      else if HasSuffix(key, "_FILE") then
        && c.readFile(value).Some?
        && ValidName(key[..|key| - 5]) && ValidValue(TrimSpace(c.readFile(value).value))
      else ValidName(key) && ValidValue(value)
  {
    ghost var initial := process.vars;
    AllPassIff(c, initial);
    var failure, saved := SetUp(process, c);
    if failure.Some? {
      r := Err(failure.value);
    } else {
      var made := create(process.vars);
      r := if made.Ok? then Ok(made.value) else Err(Constructor(made.error));
    }
    var _ := Restore(process, saved, initial);
  }
}

/** The updater's own commands, run without interruption by one process: the
    staging loop, and the switch followed by the pruning loop. Each method
    is proved to be a run of the protocol. */
module ClientDirectories {
  import opened Prelude
  import opened ClientUpdater
  import opened ClientUpdateSafety

  class ClientDirectory {
    var versions: map<string, Version>
    var current: string
    var previous: Option<string>

    /** The directory with one process at the given position. */
    ghost function With(pid: nat, p: Position): Client
      reads this
    {
      Client(versions, current, previous, 0, map[pid := p], [])
    }

    constructor (versions: map<string, Version>, current: string, previous: Option<string>)
      ensures this.versions == versions && this.current == current && this.previous == previous
    {
      this.versions, this.current, this.previous := versions, current, previous;
    }

    /** Creates the candidate and fills it script by script, then records the revision. */
    method Stage(pid: nat, now: int, revision: string, candidate: string) returns (ghost events: seq<Event>)
      requires candidate !in versions && IsVersionName(candidate)
      modifies `versions
      ensures versions == old(versions)[candidate := Version(ALL, revision)]
      ensures Run(old(With(pid, Verified(now, revision))), events) == With(pid, Staged(now, candidate))
    {
      ghost var start := With(pid, Verified(now, revision));
      ghost var created := Created(start, pid, candidate);
      versions := versions[candidate := Version({}, "")];
      ghost var extracted := ExtractAll(pid, now, revision, candidate);
      RunBoth(start, created, extracted);
      ghost var before := With(pid, Staging(now, revision, candidate, |ORDER|));
      versions := versions[candidate := versions[candidate].(revision := revision)];
      events := Recorded(start, created + extracted, before, pid);
    }

    /** The loop over the scripts of the archive. */
    method ExtractAll(pid: nat, now: int, revision: string, candidate: string) returns (ghost events: seq<Event>)
      requires candidate in versions && versions[candidate] == Version({}, "")
      modifies `versions
      ensures versions == old(versions)[candidate := Version(ALL, "")]
      ensures Run(old(With(pid, Staging(now, revision, candidate, 0))), events)
           == With(pid, Staging(now, revision, candidate, |ORDER|))
    {
      ghost var start := With(pid, Staging(now, revision, candidate, 0));
      assert versions == versions[candidate := Version(First(0), "")];
      events := [];
      var done := 0;
      while done < |ORDER|
        invariant done <= |ORDER|
        invariant versions == old(versions)[candidate := Version(First(done), "")]
        invariant Run(start, events) == With(pid, Staging(now, revision, candidate, done))
      {
        events := ExtractOne(pid, now, revision, candidate, done, start, events);
        done := done + 1;
      }
    }

    /** One turn of that loop. */
    method ExtractOne(
      pid: nat, now: int, revision: string, candidate: string, done: nat, ghost start: Client, ghost events: seq<Event>)
      returns (ghost more: seq<Event>)
      requires done < |ORDER| && candidate in versions && versions[candidate] == Version(First(done), "")
      requires Run(start, events) == With(pid, Staging(now, revision, candidate, done))
      modifies `versions
      ensures versions == old(versions)[candidate := Version(First(done + 1), "")]
      ensures Run(start, more) == With(pid, Staging(now, revision, candidate, done + 1))
    {
      var v := versions[candidate];
      versions := versions[candidate := v.(scripts := v.scripts + {ORDER[done]})];
      ghost var before := old(With(pid, Staging(now, revision, candidate, done)));
      more := Extracted(start, events, before, pid, now, revision, candidate, done);
      assert versions[candidate] == Version(First(done + 1), "");
    }

    /** Switches `current` and `previous`, then removes every other version directory. */
    method Activate(pid: nat, now: int, candidate: string) returns (ghost events: seq<Event>)
      modifies this
      ensures current == candidate && previous == Some(old(current))
      ensures versions == Only(old(versions), {candidate, old(current)})
      ensures Run(old(With(pid, Linked(now, candidate, current))), events) == With(pid, Finishing(now, true))
    {
      ghost var start := With(pid, Linked(now, candidate, current));
      var former := current;
      current := candidate;
      previous := Some(former);
      ghost var switching := [SwitchCurrent(pid), ClearCandidate(pid), SwitchPrevious(pid)];
      SwitchingRun(start, pid, now, candidate, former);
      ghost var pruning := Prune(pid, now, former);
      RunBoth(start, switching, pruning);
      events := switching + pruning;
    }

    /** The loop over the version directories, which are visited in any order. */
    method Prune(pid: nat, now: int, former: string) returns (ghost events: seq<Event>)
      modifies `versions
      ensures versions == Only(old(versions), {current, former})
      ensures Run(old(With(pid, Pruning(now, current, former, versions.Keys))), events)
           == With(pid, Finishing(now, true))
    {
      ghost var start := With(pid, Pruning(now, current, former, versions.Keys));
      var names := versions.Keys;
      events := [];
      while names != {}
        invariant names <= old(versions).Keys
        invariant versions == Only(old(versions), names + {current, former})
        invariant Run(start, events) == With(pid, Pruning(now, current, former, names))
        decreases names
      {
        ghost var before := With(pid, Pruning(now, current, former, names));
        var name :| name in names;
        if name != current && name != former {
          versions := versions - {name};
        }
        names := names - {name};
        events := Pruned(start, events, before, pid, name);
      }
      events := Ended(start, events, With(pid, Pruning(now, current, former, names)), pid);
    }
  }

  function Only(versions: map<string, Version>, names: set<string>): map<string, Version> {
    map name | name in versions && name in names :: versions[name]
  }

  lemma {:induction false} RunBoth(c: Client, a: seq<Event>, b: seq<Event>)
    ensures Run(c, a + b) == Run(Run(c, a), b)
    decreases |a|
  {
    if a == [] {
      assert a + b == b;
    } else {
      assert (a + b)[1..] == a[1..] + b;
      RunBoth(Step(c, a[0]), a[1..], b);
    }
  }

  /** The first scripts to be extracted. */
  function First(n: nat): (r: set<Script>)
    requires n <= |ORDER|
    ensures n == 0 ==> r == {}
    ensures n == |ORDER| ==> r == ALL
  {
    assert ORDER[0] == Launcher && ORDER[1] == Sync && ORDER[2] == Update;
    set s | s in ORDER[..n]
  }

  /** The process alone in the directory, at position `p`. */
  ghost predicate Alone(c: Client, pid: nat, p: Position) {
    c.processes == map[pid := p]
  }

  lemma Created(c: Client, pid: nat, name: string) returns (events: seq<Event>)
    requires pid in c.processes && c.processes[pid].Verified? && Alone(c, pid, c.processes[pid])
    requires name !in c.versions && IsVersionName(name)
    ensures var p := c.processes[pid];
      Run(c, events) == c.(versions := c.versions[name := Version(First(0), "")],
                           processes := map[pid := Staging(p.now, p.revision, name, 0)])
  {
    events := [] + [Event.Stage(pid, name)];
    RunOne(c, [], Event.Stage(pid, name));
    assert First(0) == {};
  }

  lemma Extracted(
    start: Client, events: seq<Event>, c: Client, pid: nat, now: int, revision: string, candidate: string, done: nat)
    returns (more: seq<Event>)
    requires Run(start, events) == c && c.processes == map[pid := Staging(now, revision, candidate, done)]
    requires done < |ORDER| && candidate in c.versions && c.versions[candidate] == Version(First(done), "")
    ensures Run(start, more) == c.(versions := c.versions[candidate := Version(First(done + 1), "")],
                                   processes := map[pid := Staging(now, revision, candidate, done + 1)])
    ensures First(done + 1) == First(done) + {ORDER[done]}
  {
    assert ORDER[..done + 1] == ORDER[..done] + [ORDER[done]];
    assert First(done + 1) == First(done) + {ORDER[done]};
    more := events + [Extract(pid)];
    RunOne(start, events, Extract(pid));
  }

  lemma Recorded(start: Client, events: seq<Event>, c: Client, pid: nat) returns (more: seq<Event>)
    requires Run(start, events) == c
    requires pid in c.processes && c.processes[pid].Staging? && Alone(c, pid, c.processes[pid])
    requires c.processes[pid].done == |ORDER| && c.processes[pid].candidate in c.versions
    ensures var p := c.processes[pid];
      Run(start, more) == c.(versions := c.versions[p.candidate := c.versions[p.candidate].(revision := p.revision)],
                             processes := map[pid := Staged(p.now, p.candidate)])
  {
    more := events + [RecordRevision(pid)];
    RunOne(start, events, RecordRevision(pid));
  }

  lemma Pruned(start: Client, events: seq<Event>, c: Client, pid: nat, name: string) returns (more: seq<Event>)
    requires Run(start, events) == c
    requires pid in c.processes && c.processes[pid].Pruning? && Alone(c, pid, c.processes[pid])
    requires name in c.processes[pid].todo
    ensures var p := c.processes[pid];
      var kept := name == p.current || name == p.former;
      Run(start, more) == c.(versions := if kept then c.versions else c.versions - {name},
                             processes := map[pid := p.(todo := p.todo - {name})])
  {
    more := events + [PruneOne(pid, name)];
    RunOne(start, events, PruneOne(pid, name));
  }

  lemma Ended(start: Client, events: seq<Event>, c: Client, pid: nat) returns (more: seq<Event>)
    requires Run(start, events) == c
    requires pid in c.processes && c.processes[pid].Pruning? && Alone(c, pid, c.processes[pid])
    requires c.processes[pid].todo == {}
    ensures Run(start, more) == c.(processes := map[pid := Finishing(c.processes[pid].now, true)])
  {
    more := events + [EndPrune(pid)];
    RunOne(start, events, EndPrune(pid));
  }

  lemma SwitchingRun(c: Client, pid: nat, now: int, candidate: string, former: string)
    requires c.processes == map[pid := Linked(now, candidate, former)]
    ensures Run(c, [SwitchCurrent(pid), ClearCandidate(pid), SwitchPrevious(pid)]) ==
      c.(current := candidate, previous := Some(former),
         processes := map[pid := Pruning(now, candidate, former, c.versions.Keys)])
  {
    var e := [SwitchCurrent(pid), ClearCandidate(pid), SwitchPrevious(pid)];
    RunOne(c, [], e[0]);
    RunOne(c, [e[0]], e[1]);
    RunOne(c, [e[0], e[1]], e[2]);
    assert [] + [e[0]] == [e[0]] && [e[0]] + [e[1]] == [e[0], e[1]] && [e[0], e[1]] + [e[2]] == e;
  }
}

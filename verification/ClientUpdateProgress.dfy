/** What an update check achieves when it is not disturbed: a new revision gets
    installed, an installed one is left alone, and the next check is due when it
    should be. The runs are those of one process without failing commands. */
module ClientUpdateProgress {
  import opened Prelude
  import opened ClientUpdater
  import opened ClientUpdateSafety
  import opened ClientDirectories

  const PID: nat := 0

  /** The updater's own commands, none of which fails, in a check that begins at `now` and finds `revision`. */
  predicate Straight(events: seq<Event>, now: int, revision: string) {
    forall e :: e in events ==>
      && e.pid == PID && !e.Fail? && !e.Kill? && (e.Start? ==> !e.sync)
      && (e.BeginCheck? ==> e.now == now) && (e.Verify? ==> e.revision == revision)
  }

  /** No process is at work. */
  predicate AtRest(c: Client) {
    c.processes == map[]
  }

  lemma Then(c: Client, events: seq<Event>, e: Event, now: int, revision: string) returns (more: seq<Event>)
    requires Straight(events, now, revision) && Straight([e], now, revision)
    ensures more == events + [e] && Straight(more, now, revision) && Run(c, more) == Step(Run(c, events), e)
  {
    more := events + [e];
    assert e in [e];
    RunOne(c, events, e);
  }

  /** A check that is due begins, and is put off for an hour in case it fails. */
  lemma UpToFetching(c: Client, now: int, revision: string) returns (events: seq<Event>)
    requires AtRest(c) && now >= c.nextCheck
    ensures Straight(events, now, revision)
    ensures Run(c, events) == c.(processes := map[PID := Fetching(now)], nextCheck := now + 3600,
                                 checks := c.checks + [CheckRecord(now, false)])
  {
    events := Then(c, [], Event.Start(PID, false), now, revision);
    assert Run(c, events) == c.(processes := map[PID := Waiting]);
    events := Then(c, events, LockUpdate(PID), now, revision);
    assert Run(c, events) == c.(processes := map[PID := Locked]);
    events := Then(c, events, BeginCheck(PID, now), now, revision);
  }

  /** Main result: before its time a check ends without a change. */
  lemma EarlyCheckDoesNothing(c: Client, now: int, revision: string) returns (events: seq<Event>)
    requires AtRest(c) && now < c.nextCheck
    ensures Straight(events, now, revision) && Run(c, events) == c && BeginCheck(PID, now) in events
  {
    events := Then(c, [], Event.Start(PID, false), now, revision);
    assert Run(c, events) == c.(processes := map[PID := Waiting]);
    events := Then(c, events, LockUpdate(PID), now, revision);
    assert Run(c, events) == c.(processes := map[PID := Locked]);
    events := Then(c, events, BeginCheck(PID, now), now, revision);
    assert Run(c, events).processes == map[];
  }

  /** Main result: a check that finds the installed revision installs nothing
      and removes nothing; the next one is due a day after it began. */
  lemma InstalledRevisionStays(c: Client, now: int) returns (events: seq<Event>)
    requires AtRest(c) && now >= c.nextCheck && c.current in c.versions
    ensures Straight(events, now, c.versions[c.current].revision)
    ensures Run(c, events) == c.(nextCheck := now + 86400, checks := c.checks + [CheckRecord(now, true)])
  {
    var revision := c.versions[c.current].revision;
    events := UpToFetching(c, now, revision);
    events := Then(c, events, Verify(PID, revision), now, revision);
    events := Then(c, events, EndCheck(PID), now, revision);
    assert Run(c, events).processes == map[];
  }

  /** Main result: a check that fails while it fetches changes nothing, and the next one is due after an hour. */
  lemma FailedCheckIsRetried(c: Client, now: int, revision: string) returns (events: seq<Event>)
    requires AtRest(c) && now >= c.nextCheck
    ensures Straight(events, now, revision)
    ensures Run(c, events + [Fail(PID, None)])
         == c.(nextCheck := now + 3600, checks := c.checks + [CheckRecord(now, false)])
  {
    events := UpToFetching(c, now, revision);
    RunOne(c, events, Fail(PID, None));
    assert Run(c, events + [Fail(PID, None)]).processes == map[];
  }

  /** Another revision that is verified, to be staged under a fresh name. */
  predicate Installable(c: Client, now: int, revision: string, name: string) {
    && AtRest(c) && now >= c.nextCheck && c.current in c.versions && IsVersionName(c.current)
    && c.versions[c.current].revision != revision
    && name !in c.versions && IsVersionName(name)
  }

  /** The client during the check, with its updater at position `p`. */
  function During(c: Client, versions: map<string, Version>, now: int, p: Position): Client {
    c.(versions := versions, processes := map[PID := p], nextCheck := now + 3600,
       checks := c.checks + [CheckRecord(now, false)])
  }

  lemma UpToStaging(c: Client, now: int, revision: string, name: string) returns (events: seq<Event>)
    requires Installable(c, now, revision, name)
    ensures Straight(events, now, revision)
    ensures Run(c, events)
         == During(c, c.versions[name := Version({}, "")], now, Staging(now, revision, name, 0))
  {
    events := UpToFetching(c, now, revision);
    events := Then(c, events, Verify(PID, revision), now, revision);
    assert Run(c, events) == During(c, c.versions, now, Verified(now, revision));
    events := Then(c, events, Event.Stage(PID, name), now, revision);
  }

  lemma ExtractNext(c: Client, events: seq<Event>, now: int, revision: string, name: string, done: nat)
    returns (more: seq<Event>)
    requires Straight(events, now, revision) && done < |ORDER|
    requires Run(c, events)
          == During(c, c.versions[name := Version(First(done), "")], now, Staging(now, revision, name, done))
    ensures Straight(more, now, revision)
    ensures Run(c, more)
         == During(c, c.versions[name := Version(First(done + 1), "")], now, Staging(now, revision, name, done + 1))
  {
    var before := c.versions[name := Version(First(done), "")];
    more := Then(c, events, Extract(PID), now, revision);
    StepExtracts(Run(c, events), now, revision, name, done);
    assert before[name := Version(First(done + 1), "")] == c.versions[name := Version(First(done + 1), "")];
  }

  lemma StepExtracts(c: Client, now: int, revision: string, name: string, done: nat)
    requires c.processes == map[PID := Staging(now, revision, name, done)] && done < |ORDER|
    requires name in c.versions && c.versions[name] == Version(First(done), "")
    ensures Step(c, Extract(PID)) == c.(versions := c.versions[name := Version(First(done + 1), "")],
                                        processes := map[PID := Staging(now, revision, name, done + 1)])
  {
    assert ORDER[..done + 1] == ORDER[..done] + [ORDER[done]];
    assert First(done + 1) == First(done) + {ORDER[done]};
  }

  /** It stages the new version completely. */
  lemma UpToStaged(c: Client, now: int, revision: string, name: string) returns (events: seq<Event>)
    requires Installable(c, now, revision, name)
    ensures Straight(events, now, revision)
    ensures Run(c, events)
         == During(c, c.versions[name := Version({Launcher, Sync, Update}, revision)], now, Staged(now, name))
  {
    events := UpToStaging(c, now, revision, name);
    assert First(0) == {};
    var done: nat := 0;
    while done < |ORDER|
      invariant done <= |ORDER| && Straight(events, now, revision)
      invariant Run(c, events)
             == During(c, c.versions[name := Version(First(done), "")], now, Staging(now, revision, name, done))
    {
      events := ExtractNext(c, events, now, revision, name, done);
      done := done + 1;
    }
    events := Then(c, events, RecordRevision(PID), now, revision);
  }

  /** It takes the run lock and reads what is current. */
  lemma UpToLinked(c: Client, now: int, revision: string, name: string) returns (events: seq<Event>)
    requires Installable(c, now, revision, name)
    ensures Straight(events, now, revision)
    ensures Run(c, events)
         == During(c, c.versions[name := Version({Launcher, Sync, Update}, revision)], now,
                   Linked(now, name, c.current))
  {
    var versions := c.versions[name := Version({Launcher, Sync, Update}, revision)];
    events := UpToStaged(c, now, revision, name);
    events := Then(c, events, LockRun(PID), now, revision);
    assert Run(c, events) == During(c, versions, now, RunLocked(now, name));
    events := Then(c, events, ReadCurrent(PID), now, revision);
  }

  /** The client once both links are switched. */
  function AfterSwitch(c: Client, versions: map<string, Version>, now: int, name: string, p: Position): Client {
    During(c, versions, now, p).(current := name, previous := Some(c.current))
  }

  lemma UpToPruning(c: Client, now: int, revision: string, name: string) returns (events: seq<Event>)
    requires Installable(c, now, revision, name)
    ensures Straight(events, now, revision)
    ensures var versions := c.versions[name := Version({Launcher, Sync, Update}, revision)];
      Run(c, events) == AfterSwitch(c, versions, now, name, Pruning(now, name, c.current, versions.Keys))
  {
    var versions := c.versions[name := Version({Launcher, Sync, Update}, revision)];
    events := UpToLinked(c, now, revision, name);
    SwitchingRun(Run(c, events), PID, now, name, c.current);
    var switching := [SwitchCurrent(PID), ClearCandidate(PID), SwitchPrevious(PID)];
    RunBoth(c, events, switching);
    assert Straight(switching, now, revision);
    events := events + switching;
  }

  lemma PruneNext(
    c: Client, events: seq<Event>, versions: map<string, Version>, now: int, revision: string, name: string,
    names: set<string>, next: string) returns (more: seq<Event>)
    requires Straight(events, now, revision) && next in names
    requires Run(c, events)
          == AfterSwitch(c, Only(versions, names + {name, c.current}), now, name, Pruning(now, name, c.current, names))
    ensures Straight(more, now, revision)
    ensures var rest := names - {next};
      Run(c, more)
      == AfterSwitch(c, Only(versions, rest + {name, c.current}), now, name, Pruning(now, name, c.current, rest))
  {
    PrunedOne(versions, names, {name, c.current}, next);
    more := Then(c, events, PruneOne(PID, next), now, revision);
  }

  lemma UpToFinishing(c: Client, now: int, revision: string, name: string) returns (events: seq<Event>)
    requires Installable(c, now, revision, name)
    ensures Straight(events, now, revision)
    ensures var versions := c.versions[name := Version({Launcher, Sync, Update}, revision)];
      Run(c, events) == AfterSwitch(c, Only(versions, {name, c.current}), now, name, Finishing(now, true))
  {
    var versions := c.versions[name := Version({Launcher, Sync, Update}, revision)];
    events := UpToPruning(c, now, revision, name);
    var names := versions.Keys;
    assert Only(versions, names + {name, c.current}) == versions;
    while names != {}
      invariant names <= versions.Keys && Straight(events, now, revision)
      invariant Run(c, events)
             == AfterSwitch(c, Only(versions, names + {name, c.current}), now, name,
                            Pruning(now, name, c.current, names))
      decreases names
    {
      var next :| next in names;
      events := PruneNext(c, events, versions, now, revision, name, names, next);
      names := names - {next};
    }
    assert {} + {name, c.current} == {name, c.current};
    events := Then(c, events, EndPrune(PID), now, revision);
  }

  lemma PrunedOne(versions: map<string, Version>, names: set<string>, kept: set<string>, name: string)
    requires name in names
    ensures Only(versions, names - {name} + kept)
         == if name in kept then Only(versions, names + kept) else Remove(Only(versions, names + kept), name, None)
  {
    if name in kept {
      assert names - {name} + kept == names + kept;
    }
  }

  /** Main result: a check that is due and finds another revision installs it:
      `current` names a new directory with all three scripts and the revision,
      `previous` names the former one, which is as it was, no other directory
      is left, and the next check is due a day after this one began. */
  lemma NewRevisionGetsInstalled(c: Client, now: int, revision: string, name: string) returns (events: seq<Event>)
    requires AtRest(c) && now >= c.nextCheck && c.current in c.versions && IsVersionName(c.current)
    requires c.versions[c.current].revision != revision && name !in c.versions && IsVersionName(name)
    ensures Straight(events, now, revision)
    ensures Run(c, events) == Client(
      map[c.current := c.versions[c.current], name := Version({Launcher, Sync, Update}, revision)],
      name, Some(c.current), now + 86400, map[], c.checks + [CheckRecord(now, true)])
  {
    events := UpToFinishing(c, now, revision, name);
    events := Then(c, events, EndCheck(PID), now, revision);
    var s := Run(c, events);
    assert s.processes == map[];
    assert s.versions.Keys == {c.current, name};
    assert s.versions == map[c.current := c.versions[c.current], name := Version({Launcher, Sync, Update}, revision)];
  }

  lemma UpToSyncLocked(c: Client) returns (events: seq<Event>)
    requires AtRest(c)
    ensures events == [Event.Start(PID, true)] + [LockSync(PID)]
    ensures Run(c, events) == c.(processes := map[PID := SyncLocked])
  {
    RunOne(c, [], Event.Start(PID, true));
    assert [] + [Event.Start(PID, true)] == [Event.Start(PID, true)];
    assert Run(c, [Event.Start(PID, true)]) == c.(processes := map[PID := SyncWaiting]);
    RunOne(c, [Event.Start(PID, true)], LockSync(PID));
    events := [Event.Start(PID, true)] + [LockSync(PID)];
  }

  /** Main result: a synchronization that is not held up runs from the current
      version, and leaves everything as it was. */
  lemma SynchronizationRuns(c: Client)
    requires AtRest(c) && c.current in c.versions && Sync in c.versions[c.current].scripts
    ensures var running := Run(c, [Event.Start(PID, true)] + [LockSync(PID)] + [ExecSync(PID)]);
      running == c.(processes := map[PID := Syncing(c.current)]) && Step(running, Exit(PID)) == c
  {
    var locked := UpToSyncLocked(c);
    RunOne(c, locked, ExecSync(PID));
    var running := c.(processes := map[PID := Syncing(c.current)]);
    assert Step(running, Exit(PID)).processes == map[];
  }
}

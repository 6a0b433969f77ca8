/** What the self-update keeps over every run, and exactly which event breaks it. */
module ClientUpdateSafety {
  import opened Prelude
  import opened ClientUpdater

  /** The new position of `pid` asks for no lock that another process has. */
  ghost predicate LocksAllow(c: Client, pid: nat, p: Position) {
    forall q :: q in c.processes && q != pid ==>
      && !(HoldsUpdate(p) && HoldsUpdate(c.processes[q]))
      && !(HoldsRun(p) && SharesRun(c.processes[q]))
      && !(SharesRun(p) && HoldsRun(c.processes[q]))
  }

  /** Steps that change no file: only the position of the process matters. */
  lemma MoveKeepsInv(c: Client, pid: nat, p: Position)
    requires Inv(c) && PositionInv(c, p) && LocksAllow(c, pid, p)
    ensures Inv(Move(c, pid, p))
  {
    var c' := Move(c, pid, p);
    forall q | q in c'.processes ensures PositionInv(c', c'.processes[q]) {
      if q != pid {
        assert PositionInv(c, c.processes[q]);
      }
    }
  }

  lemma LeaveKeepsInv(c: Client, pid: nat)
    requires Inv(c)
    ensures Inv(Leave(c, pid))
  {
  }

  /** A process that already has its locks keeps them. */
  lemma KeptLocksAllow(c: Client, pid: nat, p: Position)
    requires Inv(c) && pid in c.processes
    requires HoldsUpdate(p) ==> HoldsUpdate(c.processes[pid])
    requires HoldsRun(p) ==> HoldsRun(c.processes[pid])
    requires SharesRun(p) ==> SharesRun(c.processes[pid])
    ensures LocksAllow(c, pid, p)
  {
  }

  /** While a process holds the update lock all others wait or synchronize,
      so files may change under them as long as `current` stays, or as no
      synchronization is in progress. */
  lemma FilesKeepOthers(c: Client, pid: nat, versions: map<string, Version>, current: string, previous: Option<string>)
    requires Inv(c) && pid in c.processes && HoldsUpdate(c.processes[pid])
    requires current == c.current || HoldsRun(c.processes[pid])
    ensures var c' := c.(versions := versions, current := current, previous := previous);
      forall q :: q in c.processes && q != pid ==> PositionInv(c', c.processes[q])
  {
  }

  /** Steps of a process with the update lock that change files and keep its locks. */
  lemma WriteKeepsInv(
    c: Client, pid: nat, versions: map<string, Version>, current: string, previous: Option<string>, p: Position)
    requires Inv(c) && pid in c.processes && HoldsUpdate(c.processes[pid])
    requires current == c.current || HoldsRun(c.processes[pid])
    requires HoldsUpdate(p) && (HoldsRun(p) ==> HoldsRun(c.processes[pid]))
    requires var c' := c.(versions := versions, current := current, previous := previous);
      FilesInv(c') && PositionInv(c', p)
    ensures Inv(Move(c.(versions := versions, current := current, previous := previous), pid, p))
  {
    var c' := c.(versions := versions, current := current, previous := previous);
    var c'' := Move(c', pid, p);
    FilesKeepOthers(c, pid, versions, current, previous);
    KeptLocksAllow(c, pid, p);
    forall q | q in c''.processes ensures PositionInv(c'', c''.processes[q]) {
      assert PositionInv(c', c''.processes[q]);
    }
  }

  /** Removing a directory that is neither current nor previous, by a process that then ends. */
  lemma RemoveKeepsInv(c: Client, pid: nat, name: string, left: Option<set<Script>>)
    requires Inv(c) && pid in c.processes && HoldsUpdate(c.processes[pid])
    requires name != c.current && c.previous != Some(name)
    ensures Inv(Leave(c, pid).(versions := Remove(c.versions, name, left)))
  {
  }

  // ---------------------------------------------------------------------
  // The steps
  // ---------------------------------------------------------------------

  lemma OrderHasAll()
    ensures ORDER[..|ORDER|] == ORDER && (set s | s in ORDER) == ALL
  {
    assert ORDER[0] == Launcher && ORDER[1] == Sync && ORDER[2] == Update;
  }

  lemma ExtractKeepsInv(c: Client, pid: nat)
    requires Inv(c)
    ensures Inv(Step(c, Extract(pid)))
  {
    var c' := Step(c, Extract(pid));
    if c' != c {
      var p := c.processes[pid];
      assert PositionInv(c, p);
      assert ORDER[..p.done + 1] == ORDER[..p.done] + [ORDER[p.done]];
      WriteKeepsInv(c, pid, c'.versions, c.current, c.previous, c'.processes[pid]);
    }
  }

  lemma StageKeepsInv(c: Client, e: Event)
    requires Inv(c) && (e.Stage? || e.Extract? || e.RecordRevision?)
    ensures Inv(Step(c, e))
  {
    if e.Extract? {
      ExtractKeepsInv(c, e.pid);
    } else if Step(c, e) != c {
      var c' := Step(c, e);
      assert PositionInv(c, c.processes[e.pid]);
      OrderHasAll();
      WriteKeepsInv(c, e.pid, c'.versions, c.current, c.previous, c'.processes[e.pid]);
    }
  }

  lemma SwitchKeepsInv(c: Client, e: Event)
    requires Inv(c) && (e.SwitchCurrent? || e.SwitchPrevious? || e.PruneOne?)
    ensures Inv(Step(c, e))
  {
    var c' := Step(c, e);
    if c' != c {
      assert PositionInv(c, c.processes[e.pid]);
      WriteKeepsInv(c, e.pid, c'.versions, c'.current, c'.previous, c'.processes[e.pid]);
    }
  }

  lemma WaitKeepsInv(c: Client, e: Event)
    requires Inv(c)
    requires e.Start? || e.LockUpdate? || e.LockRun? || e.LockSync? || e.ExecSync? || e.Exit?
    ensures Inv(Step(c, e))
  {
    var c' := Step(c, e);
    if c' != c {
      if e.pid in c.processes {
        assert PositionInv(c, c.processes[e.pid]);
      }
      if e.pid in c'.processes {
        MoveKeepsInv(c, e.pid, c'.processes[e.pid]);
      } else {
        LeaveKeepsInv(c, e.pid);
      }
    }
  }

  /** The record of checks plays no part in the invariant. */
  lemma RecordsDoNotMatter(c: Client, nextCheck: int, checks: seq<CheckRecord>)
    requires Inv(c)
    ensures Inv(c.(nextCheck := nextCheck, checks := checks))
  {
  }

  lemma CheckKeepsInv(c: Client, e: Event)
    requires Inv(c)
    requires e.BeginCheck? || e.Verify? || e.ReadCurrent? || e.ClearCandidate? || e.EndPrune? || e.EndCheck?
    ensures Inv(Step(c, e))
  {
    var c' := Step(c, e);
    if c' != c {
      assert PositionInv(c, c.processes[e.pid]);
      RecordsDoNotMatter(c, c'.nextCheck, c'.checks);
      var c1 := c.(nextCheck := c'.nextCheck, checks := c'.checks);
      if e.pid in c'.processes {
        KeptLocksAllow(c1, e.pid, c'.processes[e.pid]);
        MoveKeepsInv(c1, e.pid, c'.processes[e.pid]);
      } else {
        LeaveKeepsInv(c1, e.pid);
      }
    }
  }

  lemma StopKeepsInv(c: Client, e: Event)
    requires Inv(c) && (e.Fail? || e.Kill?) && !(e.Fail? && e.pid in c.processes && c.processes[e.pid].Switched?)
    ensures Inv(Step(c, e))
  {
    if e.pid in c.processes {
      var p := c.processes[e.pid];
      assert PositionInv(c, p);
      if e.Fail? && Candidate(p).Some? {
        RemoveKeepsInv(c, e.pid, Candidate(p).value, e.left);
      } else if e.Kill? && p.Pruning? && e.name in p.todo && e.name != p.current && e.name != p.former {
        RemoveKeepsInv(c, e.pid, e.name, Some(e.part));
      } else {
        LeaveKeepsInv(c, e.pid);
      }
    }
  }

  /** In the window the clean-up spares the directory only if it is stopped before it removes anything. */
  lemma SparedKeepsInv(c: Client, e: Event)
    requires Inv(c) && e.Fail? && e.pid in c.processes && c.processes[e.pid].Switched? && !Hazard(c, e)
    ensures Inv(Step(c, e))
  {
    var p := c.processes[e.pid];
    assert PositionInv(c, p);
    var v := c.versions[c.current];
    assert v.scripts * e.left.value == v.scripts;
    assert Remove(c.versions, p.candidate, e.left) == c.versions;
    LeaveKeepsInv(c, e.pid);
  }

  /** Every event but the hazard keeps the invariant. */
  lemma StepKeepsInv(c: Client, e: Event)
    requires Inv(c) && !Hazard(c, e)
    ensures Inv(Step(c, e))
  {
    if e.Stage? || e.Extract? || e.RecordRevision? {
      StageKeepsInv(c, e);
    } else if e.SwitchCurrent? || e.SwitchPrevious? || e.PruneOne? {
      SwitchKeepsInv(c, e);
    } else if e.Start? || e.LockUpdate? || e.LockRun? || e.LockSync? || e.ExecSync? || e.Exit? {
      WaitKeepsInv(c, e);
    } else if e.Fail? && e.pid in c.processes && c.processes[e.pid].Switched? {
      SparedKeepsInv(c, e);
    } else if e.Fail? || e.Kill? {
      StopKeepsInv(c, e);
    } else {
      CheckKeepsInv(c, e);
    }
  }

  /** The hazard leaves `current` naming a directory that is gone or incomplete. */
  lemma HazardBreaksCurrent(c: Client, e: Event)
    requires Inv(c) && Hazard(c, e)
    ensures var c' := Step(c, e); !Complete(c'.versions, c'.current)
  {
  }

  // ---------------------------------------------------------------------
  // Main results
  // ---------------------------------------------------------------------

  /** `current` names a complete version at every moment of the run. */
  predicate AlwaysComplete(c: Client, events: seq<Event>)
    decreases |events|
  {
    Complete(c.versions, c.current) && (events == [] || AlwaysComplete(Step(c, events[0]), events[1..]))
  }

  /** No signal is handled in the window between switching and clearing. */
  predicate HazardFree(c: Client, events: seq<Event>)
    decreases |events|
  {
    events == [] || (!Hazard(c, events[0]) && HazardFree(Step(c, events[0]), events[1..]))
  }

  lemma {:induction false} CompleteIffHazardFree(c: Client, events: seq<Event>)
    requires Inv(c)
    ensures AlwaysComplete(c, events) <==> HazardFree(c, events)
    decreases |events|
  {
    if events != [] {
      var c' := Step(c, events[0]);
      if Hazard(c, events[0]) {
        HazardBreaksCurrent(c, events[0]);
      } else {
        StepKeepsInv(c, events[0]);
        CompleteIffHazardFree(c', events[1..]);
      }
    }
  }

  lemma InstalledIsSafe(c: Client)
    requires Installed(c)
    ensures Inv(c)
  {
  }

  /** Main result: with any number of updaters and synchronizations, failing
      commands and hard stops anywhere, `current` names an existing directory
      with all three complete scripts at every moment, if and only if no
      trapped signal is handled between lines 92 and 93 of the updater. */
  lemma CurrentAlwaysComplete(c: Client, events: seq<Event>)
    requires Installed(c)
    ensures AlwaysComplete(c, events) <==> HazardFree(c, events)
  {
    InstalledIsSafe(c);
    CompleteIffHazardFree(c, events);
  }

  lemma {:induction false} RunKeepsInv(c: Client, events: seq<Event>)
    requires Inv(c) && HazardFree(c, events)
    ensures Inv(Run(c, events))
    decreases |events|
  {
    if events != [] {
      StepKeepsInv(c, events[0]);
      RunKeepsInv(Step(c, events[0]), events[1..]);
    }
  }

  /** A step of any process leaves a synchronization where it is, unless it ends it. */
  lemma StepLeavesSync(c: Client, e: Event, pid: nat)
    requires At(c, pid).Some? && At(c, pid).value.Syncing?
    ensures At(Step(c, e), pid) == At(c, pid) || (At(Step(c, e), pid).None? && e.pid == pid)
  {
  }

  lemma SyncIsInCurrent(c: Client, pid: nat)
    requires Inv(c) && At(c, pid).Some? && At(c, pid).value.Syncing?
    ensures At(c, pid).value.directory == c.current && Complete(c.versions, c.current)
  {
  }

  /** Main result: whatever happens next, a synchronization in progress stays
      in the directory it entered, which is still current and complete, until it ends itself or is stopped. */
  lemma SyncKeepsItsDirectory(c: Client, events: seq<Event>, e: Event, pid: nat)
    requires Installed(c) && HazardFree(c, events + [e])
    requires At(Run(c, events), pid).Some? && At(Run(c, events), pid).value.Syncing?
    ensures var before, after := Run(c, events), Run(c, events + [e]);
      var directory := At(before, pid).value.directory;
      && Complete(before.versions, directory)
      && (At(after, pid) == At(before, pid) || (At(after, pid).None? && e.pid == pid))
      && (At(after, pid).Some? ==> after.current == directory && Complete(after.versions, directory))
  {
    InstalledIsSafe(c);
    HazardFreePrefix(c, events, e);
    RunKeepsInv(c, events);
    RunKeepsInv(c, events + [e]);
    RunOne(c, events, e);
    StepLeavesSync(Run(c, events), e, pid);
    SyncIsInCurrent(Run(c, events), pid);
    if At(Run(c, events + [e]), pid).Some? {
      SyncIsInCurrent(Run(c, events + [e]), pid);
    }
  }

  lemma {:induction false} RunOne(c: Client, events: seq<Event>, e: Event)
    ensures Run(c, events + [e]) == Step(Run(c, events), e)
    decreases |events|
  {
    if events == [] {
      assert events + [e] == [e] && [e][1..] == [];
      assert Run(c, [e]) == Run(Step(c, e), []);
    } else {
      assert (events + [e])[1..] == events[1..] + [e];
      RunOne(Step(c, events[0]), events[1..], e);
    }
  }

  lemma {:induction false} HazardFreePrefix(c: Client, events: seq<Event>, e: Event)
    requires HazardFree(c, events + [e])
    ensures HazardFree(c, events)
    decreases |events|
  {
    if events != [] {
      assert (events + [e])[1..] == events[1..] + [e];
      HazardFreePrefix(Step(c, events[0]), events[1..], e);
    }
  }

  /** Main result: a synchronization that has the lock finds its script, and an
      updater that has the lock finds a version name behind `current`. */
  lemma LockHoldersProceed(c: Client, events: seq<Event>, pid: nat)
    requires Installed(c) && HazardFree(c, events)
    requires pid in Run(c, events).processes
    ensures var s := Run(c, events);
      && (s.processes[pid].SyncLocked? ==> At(Step(s, ExecSync(pid)), pid) == Some(Syncing(s.current)))
      && (s.processes[pid].RunLocked? ==>
            At(Step(s, ReadCurrent(pid)), pid).Some? && At(Step(s, ReadCurrent(pid)), pid).value.Linked?)
  {
    InstalledIsSafe(c);
    RunKeepsInv(c, events);
  }

  /** What `current` named before it last changed. */
  function LastReplaced(c: Client, events: seq<Event>, replaced: Option<string>): Option<string>
    decreases |events|
  {
    if events == [] then replaced
    else LastReplaced(Step(c, events[0]), events[1..], Replaced(c, events[0], replaced))
  }

  function Replaced(c: Client, e: Event, replaced: Option<string>): Option<string> {
    if Step(c, e).current != c.current then Some(c.current) else replaced
  }

  /** An updater remembers what it replaced, and `previous` names it when it is done. */
  ghost predicate Remembers(c: Client, p: Position, replaced: Option<string>) {
    match p
    case Switched(_, _, former) => replaced == Some(former)
    case Cleared(_, former) => replaced == Some(former)
    case Pruning(_, _, former, _) => replaced == Some(former)
    case Finishing(_, updated) => updated ==> c.previous == replaced
    case _ => true
  }

  ghost predicate AllRemember(c: Client, replaced: Option<string>) {
    forall q :: q in c.processes ==> Remembers(c, c.processes[q], replaced)
  }

  /** Steps that change neither link keep the memory of the other processes. */
  lemma MoveRemembers(c: Client, c': Client, pid: nat, replaced: Option<string>)
    requires AllRemember(c, replaced) && c'.previous == c.previous
    requires forall q :: q in c'.processes && q != pid ==> q in c.processes && c'.processes[q] == c.processes[q]
    requires pid in c'.processes ==> Remembers(c', c'.processes[pid], replaced)
    ensures AllRemember(c', replaced)
  {
  }

  lemma SwitchRemembers(c: Client, e: Event, replaced: Option<string>)
    requires Inv(c) && AllRemember(c, replaced) && (e.SwitchCurrent? || e.SwitchPrevious? || e.EndPrune?)
    ensures AllRemember(Step(c, e), Replaced(c, e, replaced))
  {
    if Step(c, e) != c {
      assert PositionInv(c, c.processes[e.pid]);
    }
  }

  lemma CheckRemembers(c: Client, e: Event, replaced: Option<string>)
    requires AllRemember(c, replaced)
    requires e.LockUpdate? || e.BeginCheck? || e.Verify? || e.ReadCurrent? || e.ClearCandidate? || e.EndCheck?
    ensures AllRemember(Step(c, e), Replaced(c, e, replaced))
  {
    MoveRemembers(c, Step(c, e), e.pid, replaced);
  }

  lemma FilesRemember(c: Client, e: Event, replaced: Option<string>)
    requires AllRemember(c, replaced)
    requires e.Stage? || e.Extract? || e.RecordRevision? || e.PruneOne? || e.Fail? || e.Kill?
    ensures AllRemember(Step(c, e), Replaced(c, e, replaced))
  {
    MoveRemembers(c, Step(c, e), e.pid, replaced);
  }

  lemma WaitRemembers(c: Client, e: Event, replaced: Option<string>)
    requires AllRemember(c, replaced)
    requires e.Start? || e.LockRun? || e.LockSync? || e.ExecSync? || e.Exit?
    ensures AllRemember(Step(c, e), Replaced(c, e, replaced))
  {
    MoveRemembers(c, Step(c, e), e.pid, replaced);
  }

  lemma StepRemembers(c: Client, e: Event, replaced: Option<string>)
    requires Inv(c) && AllRemember(c, replaced)
    ensures AllRemember(Step(c, e), Replaced(c, e, replaced))
  {
    if e.SwitchCurrent? || e.SwitchPrevious? || e.EndPrune? {
      SwitchRemembers(c, e, replaced);
    } else if e.Stage? || e.Extract? || e.RecordRevision? || e.PruneOne? || e.Fail? || e.Kill? {
      FilesRemember(c, e, replaced);
    } else if e.Start? || e.LockRun? || e.LockSync? || e.ExecSync? || e.Exit? {
      WaitRemembers(c, e, replaced);
    } else {
      CheckRemembers(c, e, replaced);
    }
  }

  lemma {:induction false} RunRemembers(c: Client, events: seq<Event>, replaced: Option<string>)
    requires Inv(c) && HazardFree(c, events) && AllRemember(c, replaced)
    ensures AllRemember(Run(c, events), LastReplaced(c, events, replaced))
    decreases |events|
  {
    if events != [] {
      StepKeepsInv(c, events[0]);
      StepRemembers(c, events[0], replaced);
      RunRemembers(Step(c, events[0]), events[1..], Replaced(c, events[0], replaced));
    }
  }

  /** Main result: a completed update leaves exactly two version directories,
      both complete: the current one, and the one that `current` named until it last changed. */
  lemma CompletedUpdateLeavesTwo(c: Client, events: seq<Event>, pid: nat)
    requires Installed(c) && HazardFree(c, events)
    requires var p := At(Run(c, events), pid); p.Some? && p.value.Finishing? && p.value.updated
    ensures var s := Run(c, events);
      && s.previous.Some? && s.previous.value != s.current && s.previous == LastReplaced(c, events, None)
      && s.versions.Keys == {s.current, s.previous.value}
      && Complete(s.versions, s.current) && Complete(s.versions, s.previous.value)
  {
    InstalledIsSafe(c);
    RunKeepsInv(c, events);
    RunRemembers(c, events, None);
    assert PositionInv(Run(c, events), Run(c, events).processes[pid]);
  }

  // ---------------------------------------------------------------------
  // How often the server is asked
  // ---------------------------------------------------------------------

  function Backoff(r: CheckRecord): int {
    if r.completed then SUCCESS_BACKOFF else FAILURE_BACKOFF
  }

  /** When the check of a process began. */
  function CheckTime(p: Position): Option<int> {
    match p
    case Fetching(now) => Some(now)
    case Verified(now, _) => Some(now)
    case Staging(now, _, _, _) => Some(now)
    case Staged(now, _) => Some(now)
    case RunLocked(now, _) => Some(now)
    case Linked(now, _, _) => Some(now)
    case Switched(now, _, _) => Some(now)
    case Cleared(now, _) => Some(now)
    case Pruning(now, _, _, _) => Some(now)
    case Finishing(now, _) => Some(now)
    case _ => None
  }

  /** Each check kept its distance from all before it; the next one is not due
      earlier; a check under way is the last recorded one. */
  ghost predicate Spaced(c: Client) {
    && (forall i, j :: 0 <= i < j < |c.checks| ==> c.checks[j].at >= c.checks[i].at + Backoff(c.checks[i]))
    && (forall i :: 0 <= i < |c.checks| ==> c.nextCheck >= c.checks[i].at + Backoff(c.checks[i]))
    && (forall q :: q in c.processes && CheckTime(c.processes[q]).Some? ==>
          c.checks != [] && c.checks[|c.checks| - 1] == CheckRecord(CheckTime(c.processes[q]).value, false))
  }

  /** Only one process holds the update lock, with no assumption about hazards. */
  ghost predicate OneUpdater(c: Client) {
    forall p, q :: p in c.processes && q in c.processes && p != q ==>
      !(HoldsUpdate(c.processes[p]) && HoldsUpdate(c.processes[q]))
  }

  lemma BeginKeepsSpacing(c: Client, pid: nat, now: int)
    requires Spaced(c) && OneUpdater(c) && At(c, pid) == Some(Locked)
    ensures Spaced(Step(c, BeginCheck(pid, now))) && OneUpdater(Step(c, BeginCheck(pid, now)))
  {
  }

  lemma EndKeepsSpacing(c: Client, pid: nat)
    requires Spaced(c) && OneUpdater(c)
    ensures Spaced(Step(c, EndCheck(pid))) && OneUpdater(Step(c, EndCheck(pid)))
  {
  }

  lemma StepKeepsSpacing(c: Client, e: Event)
    requires Spaced(c) && OneUpdater(c)
    ensures Spaced(Step(c, e)) && OneUpdater(Step(c, e))
  {
    if e.BeginCheck? {
      if At(c, e.pid) == Some(Locked) {
        BeginKeepsSpacing(c, e.pid, e.now);
      }
    } else if e.EndCheck? {
      EndKeepsSpacing(c, e.pid);
    } else {
      OtherKeepsSpacing(c, e);
    }
  }

  /** A step that records nothing, moves only its own process, and lets it
      keep its check or lose it. */
  ghost predicate Framed(c: Client, c': Client, pid: nat) {
    && c'.checks == c.checks && c'.nextCheck == c.nextCheck
    && (forall q :: q in c'.processes && q != pid ==> q in c.processes && c'.processes[q] == c.processes[q])
    && (pid in c'.processes ==> FramedMove(c, pid, c'.processes[pid]))
  }

  ghost predicate FramedMove(c: Client, pid: nat, p: Position) {
    if pid !in c.processes then CheckTime(p).None? && !HoldsUpdate(p)
    else
      && (CheckTime(p).None? || CheckTime(p) == CheckTime(c.processes[pid]))
      && (HoldsUpdate(p) ==> HoldsUpdate(c.processes[pid]) || UpdateFree(c))
  }

  lemma WaitIsFramed(c: Client, e: Event)
    requires e.Start? || e.LockUpdate? || e.LockRun? || e.LockSync? || e.ExecSync? || e.Exit? || e.Verify?
    ensures Framed(c, Step(c, e), e.pid)
  {
  }

  lemma StageIsFramed(c: Client, e: Event)
    requires e.Stage? || e.Extract? || e.RecordRevision?
    ensures Framed(c, Step(c, e), e.pid)
  {
  }

  lemma SwitchIsFramed(c: Client, e: Event)
    requires e.ReadCurrent? || e.SwitchCurrent? || e.ClearCandidate? || e.SwitchPrevious? || e.PruneOne? || e.EndPrune?
    ensures Framed(c, Step(c, e), e.pid)
  {
  }

  lemma StopIsFramed(c: Client, e: Event)
    requires e.Fail? || e.Kill?
    ensures Framed(c, Step(c, e), e.pid)
  {
  }

  lemma FrameKeepsSpacing(c: Client, c': Client, pid: nat)
    requires Spaced(c) && OneUpdater(c) && Framed(c, c', pid)
    ensures Spaced(c') && OneUpdater(c')
  {
  }

  lemma OtherKeepsSpacing(c: Client, e: Event)
    requires Spaced(c) && OneUpdater(c) && !e.BeginCheck? && !e.EndCheck?
    ensures Spaced(Step(c, e)) && OneUpdater(Step(c, e))
  {
    if e.Fail? || e.Kill? {
      StopIsFramed(c, e);
    } else if e.Stage? || e.Extract? || e.RecordRevision? {
      StageIsFramed(c, e);
    } else if e.Start? || e.LockUpdate? || e.LockRun? || e.LockSync? || e.ExecSync? || e.Exit? || e.Verify? {
      WaitIsFramed(c, e);
    } else {
      SwitchIsFramed(c, e);
    }
    FrameKeepsSpacing(c, Step(c, e), e.pid);
  }

  /** Main result: over every run, hazards included, two checks of the server
      are at least an hour apart, and a day if the earlier one completed. */
  lemma ChecksAreSpaced(c: Client, events: seq<Event>)
    requires Installed(c)
    ensures var checks := Run(c, events).checks;
      forall i, j :: 0 <= i < j < |checks| ==> checks[j].at >= checks[i].at + Backoff(checks[i])
  {
    RunKeepsSpacing(c, events);
  }

  lemma {:induction false} RunKeepsSpacing(c: Client, events: seq<Event>)
    requires Spaced(c) && OneUpdater(c)
    ensures Spaced(Run(c, events))
    decreases |events|
  {
    if events != [] {
      StepKeepsSpacing(c, events[0]);
      RunKeepsSpacing(Step(c, events[0]), events[1..]);
    }
  }
}

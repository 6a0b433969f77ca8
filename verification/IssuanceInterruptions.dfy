/** What becomes of a job whose worker stopped: over every run it is marked as
    interrupted, and nothing is done for it again. */
module IssuanceInterruptions {
  import opened Prelude
  import opened IssuanceTables
  import opened IssuanceProtocol
  import opened IssuanceSafety
  import opened IssuanceSteps
  import opened IssuanceResults

  // ---------------------------------------------------------------------
  // Jobs the worker let go of
  // ---------------------------------------------------------------------

  /** The job is running and the worker is not at work on it: the process
      stopped, or the outcome could not be written. */
  predicate Abandoned(s: System, i: nat) {
    i < |s.tables.jobs| && s.tables.jobs[i].status.Running? && ActiveJob(s.worker) != Some(i)
  }

  predicate Marked(s: System, i: nat) {
    i < |s.tables.jobs| && s.tables.jobs[i].status.Failed? && s.tables.jobs[i].error == INTERRUPTED
  }

  /** From `s` to `s'` job `i` was not claimed, no ACME order was started for it and no version added by it. */
  ghost predicate NothingDone(s: System, s': System, i: nat) {
    && s.claimed <= s'.claimed && s.obtained <= s'.obtained && s.added <= s'.added
    && (forall k :: |s.claimed| <= k < |s'.claimed| ==> s'.claimed[k] != i)
    && (forall k :: |s.obtained| <= k < |s'.obtained| ==> s'.obtained[k] != i)
    && (forall k :: |s.added| <= k < |s'.added| ==> s'.added[k] != i)
  }

  lemma StepAbandons(s: System, e: Event, i: nat)
    requires SystemInv(s) && (Abandoned(s, i) || Marked(s, i))
    ensures var s' := Step(s, e);
      && (Abandoned(s', i) || Marked(s', i))
      && (Unrecovered(s) && !Unrecovered(s') ==> Marked(s', i))
      && (Marked(s, i) ==> Marked(s', i))
      && NothingDone(s, s', i)
  {
    StepMoves(s, e);
    MovesAbandon(s, Step(s, e), i);
  }

  lemma MovesAbandon(s: System, s': System, i: nat)
    requires SystemInv(s) && (Abandoned(s, i) || Marked(s, i)) && Moves(s, s')
    ensures (Abandoned(s', i) || Marked(s', i)) && (Marked(s, i) ==> Marked(s', i))
    ensures Unrecovered(s) && !Unrecovered(s') ==> Marked(s', i)
    ensures NothingDone(s, s', i)
  {
    assert RowMoves(s, s', i);
  }

  lemma {:induction false} RunAbandons(s: System, events: seq<Event>, i: nat)
    requires SystemInv(s) && (Abandoned(s, i) || Marked(s, i))
    ensures var s' := Run(s, events);
      && (Abandoned(s', i) || Marked(s', i))
      && (Marked(s, i) || (Unrecovered(s) && !Unrecovered(s')) ==> Marked(s', i))
      && NothingDone(s, s', i)
    decreases |events|
  {
    if events != [] {
      StepKeepsSystem(s, events[0]);
      StepAbandons(s, events[0], i);
      RunAbandons(Step(s, events[0]), events[1..], i);
    }
  }

  /** Main result: a job that runs when the process crashes is never claimed
      again, no ACME order is started and no version added for it, and from
      the first recovery on it is failed and marked as interrupted, whatever
      further crashes, restarts and requests there are. */
  lemma CrashedJobIsInterrupted(before: seq<Event>, after: seq<Event>, i: nat)
    requires i < |Run(FRESH, before).tables.jobs| && Run(FRESH, before).tables.jobs[i].status.Running?
    ensures var s, s' := Run(FRESH, before), Run(FRESH, before + [Crash] + after);
      && NothingDone(s, s', i)
      && (if Unrecovered(s') then Abandoned(s', i) || Marked(s', i) else Marked(s', i))
  {
    var s := Run(FRESH, before);
    Reachable(before);
    RunAppend(FRESH, before, [Crash]);
    RunAppend(FRESH, before + [Crash], after);
    assert [Crash][1..] == [];
    assert Run(s, [Crash]) == Step(s, Crash);
    StepKeepsSystem(s, Crash);
    RunAbandons(Step(s, Crash), after, i);
  }

  // ---------------------------------------------------------------------
  // Jobs under way when the worker is cancelled
  // ---------------------------------------------------------------------

  /** It is settled that the job fails, and without the mark. */
  predicate RecordsUnmarked(s: System, i: nat) {
    s.worker.Recording? && s.worker.job == i && s.worker.outcome.Some? && !(INTERRUPTED <= s.worker.outcome.value)
  }

  predicate FailedUnmarked(s: System, i: nat) {
    i < |s.tables.jobs| && s.tables.jobs[i].status.Failed? && !IsInterrupted(s.tables.jobs[i])
  }

  /** The job succeeded, or failed with the mark, or runs with nobody left who could fail it without the mark. */
  ghost predicate FailsMarked(s: System, i: nat) {
    && i < |s.tables.jobs|
    && match s.tables.jobs[i].status
       case Queued => false
       case Running => ActiveJob(s.worker) != Some(i) || (s.cancelled && !RecordsUnmarked(s, i))
       case Succeeded => true
       case Failed => IsInterrupted(s.tables.jobs[i])
  }

  lemma StepFailsMarked(s: System, e: Event, i: nat)
    requires SystemInv(s) && FailsMarked(s, i)
    ensures FailsMarked(Step(s, e), i)
  {
    StepMoves(s, e);
    MovesFailMarked(s, Step(s, e), i);
  }

  lemma MovesFailMarked(s: System, s': System, i: nat)
    requires SystemInv(s) && FailsMarked(s, i) && Moves(s, s')
    ensures FailsMarked(s', i)
  {
    assert RowMoves(s, s', i);
  }

  lemma {:induction false} RunFailsMarked(s: System, events: seq<Event>, i: nat)
    requires SystemInv(s) && FailsMarked(s, i)
    ensures FailsMarked(Run(s, events), i)
    decreases |events|
  {
    if events != [] {
      StepKeepsSystem(s, events[0]);
      StepFailsMarked(s, events[0], i);
      RunFailsMarked(Step(s, events[0]), events[1..], i);
    }
  }

  lemma CancelLeadsTo(before: seq<Event>, after: seq<Event>)
    ensures SystemInv(Run(FRESH, before)) && SystemInv(Step(Run(FRESH, before), Cancel))
    ensures Run(FRESH, before + [Cancel] + after) == Run(Step(Run(FRESH, before), Cancel), after)
  {
    var s := Run(FRESH, before);
    Reachable(before);
    RunAppend(FRESH, before, [Cancel]);
    RunAppend(FRESH, before + [Cancel], after);
    assert [Cancel][1..] == [];
    assert Run(s, [Cancel]) == Step(s, Cancel);
    StepKeepsSystem(s, Cancel);
  }

  /** Main result: a job that runs when the worker is cancelled can end only in
      success or marked as interrupted, whatever follows, if and only if it was
      not settled by then that it fails without the mark: the cancellation is
      read before the outcome is written, and one that comes in between is missed. */
  lemma CancelledJobFailsMarked(before: seq<Event>, i: nat)
    requires i < |Run(FRESH, before).tables.jobs| && Run(FRESH, before).tables.jobs[i].status.Running?
    ensures !RecordsUnmarked(Run(FRESH, before), i) <==>
      forall after: seq<Event> :: !FailedUnmarked(Run(FRESH, before + [Cancel] + after), i)
  {
    var s := Run(FRESH, before);
    if RecordsUnmarked(s, i) {
      var after := [FinishJob(true)];
      CancelLeadsTo(before, after);
      assert after[1..] == [];
      assert Run(Step(s, Cancel), after) == Step(Step(s, Cancel), FinishJob(true));
      assert FailedUnmarked(Run(FRESH, before + [Cancel] + after), i);
    } else {
      forall after: seq<Event> ensures !FailedUnmarked(Run(FRESH, before + [Cancel] + after), i) {
        CancelLeadsTo(before, after);
        RunFailsMarked(Step(s, Cancel), after, i);
      }
    }
  }

  /** Main result: nothing the scheduler does follows an interrupted job: the
      next job of its certificate, if there ever is one, was asked for by a caller. */
  lemma InterruptedWaitsForCaller(before: seq<Event>, after: seq<Event>, i: nat, k: nat)
    requires i < |Run(FRESH, before).tables.jobs| && Run(FRESH, before).tables.jobs[i].status.Running?
    requires !Unrecovered(Run(FRESH, before + [Crash] + after))
    requires Precedes(Run(FRESH, before + [Crash] + after).tables.jobs, i, k)
    ensures !Run(FRESH, before + [Crash] + after).tables.jobs[k].kind.Scheduled?
  {
    CrashedJobIsInterrupted(before, after, i);
    InterruptedIsQuarantined(before + [Crash] + after, i, k);
  }
}

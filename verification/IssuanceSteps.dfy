/** All that one step of the protocol can do to jobs, claims, orders and versions,
    so that statements over runs need not look at every event again. */
module IssuanceSteps {
  import opened IssuanceTables
  import opened IssuanceProtocol
  import opened IssuanceSafety
  import Drift = ConfigurationDrift

  /** The process is down, or up and yet to recover. */
  predicate Unrecovered(s: System) {
    s.worker.Down? || s.worker.Recovering?
  }

  /** A row stays, is claimed, is interrupted by recovery, or gets its outcome from the worker at work on it. */
  ghost predicate RowMoves(s: System, s': System, i: nat)
    requires i < |s.tables.jobs| <= |s'.tables.jobs|
  {
    var j, j' := s.tables.jobs[i], s'.tables.jobs[i];
    || j' == j
    || (j.status.Queued? && j' == j.(status := Running) && s'.worker == Started(i))
    || (s.worker.Recovering? && !Unrecovered(s') && j' == Interrupt(j))
    || (&& s.worker.Recording? && s.worker.job == i && s'.worker == Ready
        && j' == match s.worker.outcome
                 case None => j.(status := Succeeded, error := "")
                 case Some(message) => j.(status := Failed, error := message))
  }

  /** One job was added, with room in the queue and no other job of its certificate pending. */
  ghost predicate Admitted(jobs: seq<Job>, after: seq<Job>) {
    && |after| == |jobs| + 1 && jobs <= after
    && |PendingIds(jobs)| < MAX_PENDING && !HasPending(jobs, after[|jobs|].cert)
  }

  ghost predicate JobsMove(s: System, s': System) {
    && |s.tables.jobs| <= |s'.tables.jobs|
    && (forall i: nat :: i < |s.tables.jobs| ==> RowMoves(s, s', i))
    && (forall k :: |s.tables.jobs| <= k < |s'.tables.jobs| ==> Enabled(s.tables, s'.tables.jobs[k].cert))
    && (|s.tables.jobs| < |s'.tables.jobs| ==> Admitted(s.tables.jobs, s'.tables.jobs))
    && (Unrecovered(s) && !Unrecovered(s') ==>
          && s.worker.Recovering?
          && forall i :: 0 <= i < |s.tables.jobs| ==> s'.tables.jobs[i] == Interrupt(s.tables.jobs[i]))
  }

  /** Only a queued job becomes active, and it is recorded as claimed. */
  ghost predicate ClaimsMove(s: System, s': System) {
    && (|| s'.claimed == s.claimed
        || (&& s'.worker.Started? && s'.claimed == s.claimed + [s'.worker.job]
            && s'.worker.job < |s.tables.jobs| <= |s'.tables.jobs|
            && s.tables.jobs[s'.worker.job].status.Queued? && s'.tables.jobs[s'.worker.job].status.Running?))
    && (|| ActiveJob(s'.worker).None?
        || (ActiveJob(s'.worker) == ActiveJob(s.worker) && (s.cancelled ==> s'.cancelled))
        || s'.claimed != s.claimed)
  }

  /** Orders and versions come from the active job. Its certificate is enabled
      when the job is checked, which is before the order, and when a version is added. */
  ghost predicate WorkMoves(s: System, s': System) {
    && (s'.obtained == s.obtained || (s.worker.Checked? && s'.obtained == s.obtained + [s.worker.job]))
    && (s'.worker.Checked? ==>
          || s'.worker == s.worker
          || (&& s.worker == Started(s'.worker.job)
              && s.worker.job < |s.tables.jobs| && Enabled(s.tables, s.tables.jobs[s.worker.job].cert)))
    && (|| (s'.added == s.added && s'.tables.versions == s.tables.versions)
        || (&& s.worker.Persisting? && s'.added == s.added + [s.worker.job]
            && s.worker.job < |s.tables.jobs| && Enabled(s.tables, s.tables.jobs[s.worker.job].cert)
            && |s'.tables.versions| == |s.tables.versions| + 1 && s.tables.versions <= s'.tables.versions
            && s'.tables.versions[|s.tables.versions|].cert == s.tables.jobs[s.worker.job].cert))
  }

  /** The issuance under way has ended without error. */
  predicate Delivered(w: Worker) {
    (w.Finishing? && w.error.None?) || (w.Recording? && w.outcome.None?)
  }

  /** What will be written is settled once, by whether the worker is cancelled at
      that moment; an issuance ends without error exactly when its version is added. */
  ghost predicate OutcomeMoves(s: System, s': System) {
    && (s'.worker.Recording? ==>
          || s'.worker == s.worker
          || (s.worker.Finishing? && s'.worker == Recording(s.worker.job, Outcome(s, s.worker.error))))
    && (ActiveJob(s'.worker).Some? ==>
          (Delivered(s'.worker) <==> s'.added != s.added || (Delivered(s.worker) && s'.claimed == s.claimed)))
  }

  ghost predicate Moves(s: System, s': System) {
    JobsMove(s, s') && ClaimsMove(s, s') && WorkMoves(s, s') && OutcomeMoves(s, s')
  }

  lemma EnqueueMoves(s: System, cert: string, kind: Kind)
    ensures Moves(s, Enqueue(s, cert, kind))
  {
    AdmitContract(s.tables, cert, kind, Queued);
  }

  lemma ConsiderMoves(s: System, look: Drift.Look)
    ensures Moves(s, Step(s, Consider(look)))
  {
    if s.worker.Reconciling? && s.worker.todo != [] {
      var rest := s.(worker := Reconciling(s.worker.todo[1..]));
      EnqueueMoves(rest, s.worker.todo[0].cert, Scheduled);
    }
  }

  lemma ClaimMoves(s: System, e: Event)
    requires e.ClaimJob?
    ensures Moves(s, Step(s, e))
  {
    ClaimContract(s.tables);
  }

  lemma RecoverMoves(s: System, e: Event)
    requires e.RecoverJobs?
    ensures Moves(s, Step(s, e))
  {
  }

  lemma FinishMoves(s: System, e: Event)
    requires e.FinishJob?
    ensures Moves(s, Step(s, e))
  {
  }

  lemma OrderMoves(s: System, e: Event)
    requires e.Check? || e.StartOrder? || e.Obtain? || e.Conclude?
    ensures Moves(s, Step(s, e))
  {
  }

  lemma PersistMoves(s: System, e: Event)
    requires e.Persist?
    ensures Moves(s, Step(s, e))
  {
  }

  lemma OtherMoves(s: System, e: Event)
    requires e.Boot? || e.Crash? || e.Cancel? || e.Reconfigure? || e.ListCertificates? || e.Tick?
    ensures Moves(s, Step(s, e))
  {
  }

  lemma StepMoves(s: System, e: Event)
    ensures Moves(s, Step(s, e))
  {
    match e
    case ApiRequest(cert, kind) =>
      if Step(s, e) != s {
        EnqueueMoves(s, cert, kind);
      }
    case Consider(look) => ConsiderMoves(s, look);
    case ClaimJob(_) => ClaimMoves(s, e);
    case RecoverJobs(_) => RecoverMoves(s, e);
    case Check(_) => OrderMoves(s, e);
    case StartOrder(_) => OrderMoves(s, e);
    case Obtain(_) => OrderMoves(s, e);
    case Conclude => OrderMoves(s, e);
    case Persist(_, _) => PersistMoves(s, e);
    case FinishJob(_) => FinishMoves(s, e);
    case _ => OtherMoves(s, e);
  }

  lemma MovesKeepBounds(s: System, s': System)
    requires Moves(s, s') && Bounded(s.tables.jobs)
    requires ActiveJob(s.worker).Some? ==>
      ActiveJob(s.worker).value < |s.tables.jobs| && s.tables.jobs[ActiveJob(s.worker).value].status.Running?
    ensures Bounded(s'.tables.jobs)
  {
    var a, b := s.tables.jobs, s'.tables.jobs;
    if |a| < |b| {
      AppendKeepsBounds(a, b[|a|]);
      assert b == a + [b[|a|]];
    } else {
      forall i: nat | i < |a| ensures b[i].cert == a[i].cert && (IsPending(b[i]) ==> IsPending(a[i])) {
        assert RowMoves(s, s', i);
      }
      UpdateKeepsBounds(a, b);
    }
  }
}

/** Direct issuance (`Manager.Issue`) beside the server: it starts a running job
    of its own and writes the outcome whatever the status of the row is by then.
    Here it runs together with the server's own steps, to say which promises
    about jobs survive, and under which conditions the others do. */
module DirectIssuance {
  import opened Prelude
  import opened IssuanceTables
  import opened IssuanceProtocol
  import opened IssuanceSafety
  import opened IssuanceSteps
  import opened IssuanceGaps

  /** A row keeps moving forward when its outcome is written exactly if it is
      pending, or the outcome is the one it already has. */
  lemma FinishMovesForwardIff(t: Tables, id: nat, error: Option<string>)
    requires id < |t.jobs|
    ensures Evolves(t.jobs, Finish(t, id, error).jobs) <==> IsPending(t.jobs[id]) || Finish(t, id, error).jobs == t.jobs
  {
    var after := Finish(t, id, error).jobs;
    if !IsPending(t.jobs[id]) && after[id] == t.jobs[id] {
      assert after == t.jobs;
    }
  }

  // ---------------------------------------------------------------------
  // The server and direct callers
  // ---------------------------------------------------------------------

  /** `direct` holds the jobs under way outside the worker, `overtaken` those
      of them during which a recovery has taken place, `saved` those whose
      version was added. */
  datatype Shared = Shared(server: System, direct: set<nat>, overtaken: set<nat>, saved: set<nat>)

  const START := Shared(FRESH, {}, {}, {})

  datatype Move =
    | Serve(e: Event)
    | StartDirect(cert: string, kind: Kind)
    | SaveDirect(id: nat, version: Version)
    | FinishDirect(id: nat, error: Option<string>)

  predicate Recovers(s: System, e: Event) {
    s.worker.Recovering? && e == RecoverJobs(true)
  }

  /** A move that is not possible changes nothing. A direct issuance adds at
      most one version, and it succeeds exactly if it has added it. */
  function Apply(h: Shared, m: Move): Shared {
    var s := h.server;
    match m
    case Serve(e) => h.(server := Step(s, e), overtaken := if Recovers(s, e) then h.direct else h.overtaken)
    case StartDirect(cert, kind) =>
      if !Issuable(s.config, cert, kind) then h
      else
        var (t, r) := Admit(s.tables, cert, kind, Running);
        if r.Created? then h.(server := s.(tables := t), direct := h.direct + {r.newId}) else h
    case SaveDirect(id, version) =>
      if id !in h.direct || id in h.saved || id >= |s.tables.jobs| then h
      else
        var t := AddVersion(s.tables, version.(cert := s.tables.jobs[id].cert));
        if t.None? then h
        else h.(server := s.(tables := t.value, added := s.added + [id]), saved := h.saved + {id})
    case FinishDirect(id, error) =>
      if id !in h.direct || id >= |s.tables.jobs| || (error.None? <==> id !in h.saved) then h
      else Shared(s.(tables := Finish(s.tables, id, error)), h.direct - {id}, h.overtaken - {id}, h.saved - {id})
  }

  function ApplyAll(h: Shared, moves: seq<Move>): Shared
    decreases |moves|
  {
    if moves == [] then h else ApplyAll(Apply(h, moves[0]), moves[1..])
  }

  /** The rows of direct jobs run, except those that a recovery has failed; no
      direct job is the worker's. */
  ghost predicate SharedInv(h: Shared) {
    var jobs := h.server.tables.jobs;
    && h.overtaken <= h.direct
    && (forall id :: id in h.direct ==>
          id < |jobs| && jobs[id].status == (if id in h.overtaken then Failed else Running)
          && (id in h.overtaken ==> jobs[id].error == INTERRUPTED))
    && (var active := ActiveJob(h.server.worker);
        active.Some? ==> active.value < |jobs| && jobs[active.value].status.Running? && active.value !in h.direct)
  }

  /** The write that the row no longer expects: a recovery failed the job
      meanwhile, and the outcome is not the one recovery recorded. */
  predicate Overtakes(h: Shared, m: Move) {
    m.FinishDirect? && m.id in h.overtaken && m.error != Some(INTERRUPTED) && (m.error.None? <==> m.id in h.saved)
  }

  lemma MovesForward(h: Shared, s': System)
    requires SharedInv(h) && Moves(h.server, s')
    ensures Evolves(h.server.tables.jobs, s'.tables.jobs)
  {
    var a, b := h.server.tables.jobs, s'.tables.jobs;
    forall i: nat | i < |a|
      ensures b[i].cert == a[i].cert && b[i].kind == a[i].kind
      ensures (!IsPending(a[i]) ==> b[i] == a[i]) && (a[i].status.Running? ==> !b[i].status.Queued?)
    {
      assert RowMoves(h.server, s', i);
    }
  }

  lemma MovesKeepShared(h: Shared, s': System)
    requires SharedInv(h) && Moves(h.server, s')
    ensures var recovers := Unrecovered(h.server) && !Unrecovered(s');
      SharedInv(h.(server := s', overtaken := if recovers then h.direct else h.overtaken))
  {
    var s, active := h.server, ActiveJob(s'.worker);
    forall id | id in h.direct ensures RowMoves(s, s', id) {
    }
    if active.Some? && s'.claimed == s.claimed {
      assert RowMoves(s, s', active.value);
    }
  }

  lemma RecoveryLeaves(s: System, e: Event)
    ensures Recovers(s, e) <==> Unrecovered(s) && !Unrecovered(Step(s, e))
  {
  }

  lemma ServeKeepsShared(h: Shared, e: Event)
    requires SharedInv(h)
    ensures SharedInv(Apply(h, Serve(e))) && Evolves(h.server.tables.jobs, Step(h.server, e).tables.jobs)
  {
    StepMoves(h.server, e);
    RecoveryLeaves(h.server, e);
    MovesForward(h, Step(h.server, e));
    MovesKeepShared(h, Step(h.server, e));
  }

  lemma MoveKeepsShared(h: Shared, m: Move)
    requires SharedInv(h)
    ensures SharedInv(Apply(h, m))
    ensures Evolves(h.server.tables.jobs, Apply(h, m).server.tables.jobs) <==> !Overtakes(h, m)
  {
    match m
    case Serve(e) => ServeKeepsShared(h, e);
    case StartDirect(cert, kind) => AdmitContract(h.server.tables, cert, kind, Running);
    case SaveDirect(id, version) =>
    case FinishDirect(id, error) =>
      if id in h.direct {
        FinishMovesForwardIff(h.server.tables, id, error);
      }
  }

  // ---------------------------------------------------------------------
  // Main results
  // ---------------------------------------------------------------------

  /** At every move of the run jobs only move forward. */
  ghost predicate AlwaysForward(h: Shared, moves: seq<Move>)
    decreases |moves|
  {
    if moves == [] then true else
      var next := Apply(h, moves[0]);
      Evolves(h.server.tables.jobs, next.server.tables.jobs) && AlwaysForward(next, moves[1..])
  }

  /** No direct issuance records an outcome after a recovery that came while it was under way. */
  predicate NeverOvertaken(h: Shared, moves: seq<Move>)
    decreases |moves|
  {
    moves == [] || (!Overtakes(h, moves[0]) && NeverOvertaken(Apply(h, moves[0]), moves[1..]))
  }

  lemma {:induction false} ForwardIffNeverOvertaken(h: Shared, moves: seq<Move>)
    requires SharedInv(h)
    ensures AlwaysForward(h, moves) <==> NeverOvertaken(h, moves)
    decreases |moves|
  {
    if moves != [] {
      MoveKeepsShared(h, moves[0]);
      ForwardIffNeverOvertaken(Apply(h, moves[0]), moves[1..]);
    }
  }

  /** Main result: with any number of direct issuances beside the server, over
      every run, no job leaves `succeeded` or `failed` and none is queued again,
      if and only if no direct issuance records an outcome of its own after a
      recovery that took place while it was under way. */
  lemma DirectIssuesMoveForwardIff(moves: seq<Move>)
    ensures AlwaysForward(START, moves) <==> NeverOvertaken(START, moves)
  {
    ForwardIffNeverOvertaken(START, moves);
  }

  // ---------------------------------------------------------------------
  // The failing input
  // ---------------------------------------------------------------------

  const SAVED := Version("home", 0, 0, ["home.example"], "ec256")

  /** The server comes up, a caller issues directly, and the server recovers meanwhile. */
  lemma UpToRecovery() returns (moves: seq<Move>)
    ensures var h := ApplyAll(START, moves);
      && h.direct == {0} && h.overtaken == {0} && h.saved == {} && h.server.config == DEFINITIONS
      && Enabled(h.server.tables, "home") && h.server.tables.jobs == [Job("home", Manual, Failed, INTERRUPTED)]
  {
    var boot, start, recover := Serve(Boot(DEFINITIONS)), StartDirect("home", Manual), Serve(RecoverJobs(true));
    var h1 := Apply(START, boot);
    assert Enabled(h1.server.tables, "home") && h1.server.tables.jobs == [];
    assert PendingIds(h1.server.tables.jobs) == {};
    AdmitContract(h1.server.tables, "home", Manual, Running);
    var h2 := Apply(h1, start);
    assert h2.server.tables.jobs == [Job("home", Manual, Running, "")] && h2.direct == {0};
    ApplyThen([], boot);
    ApplyThen([boot], start);
    ApplyThen([boot] + [start], recover);
    assert [] + [boot] == [boot];
    moves := [boot] + [start] + [recover];
  }

  lemma {:induction false} ApplyBoth(h: Shared, a: seq<Move>, b: seq<Move>)
    ensures ApplyAll(h, a + b) == ApplyAll(ApplyAll(h, a), b)
    ensures NeverOvertaken(h, a + b) ==> NeverOvertaken(ApplyAll(h, a), b)
    decreases |a|
  {
    if a == [] {
      assert a + b == b;
    } else {
      assert (a + b)[1..] == a[1..] + b;
      ApplyBoth(Apply(h, a[0]), a[1..], b);
    }
  }

  lemma ApplyThen(moves: seq<Move>, m: Move)
    ensures ApplyAll(START, moves + [m]) == Apply(ApplyAll(START, moves), m)
    ensures NeverOvertaken(START, moves + [m]) ==> !Overtakes(ApplyAll(START, moves), m)
  {
    ApplyBoth(START, moves, [m]);
    assert [m][1..] == [];
    assert ApplyAll(ApplyAll(START, moves), [m]) == Apply(ApplyAll(START, moves), m);
  }

  /** The condition of the main result can fail: in this run a failed job becomes succeeded. */
  lemma RecoveryCanOvertake() returns (before: seq<Move>, m: Move)
    ensures !NeverOvertaken(START, before + [m]) && !AlwaysForward(START, before + [m])
    ensures var a, b := ApplyAll(START, before).server.tables.jobs, ApplyAll(START, before + [m]).server.tables.jobs;
      |a| == 1 && |b| == 1 && a[0].status.Failed? && b[0].status.Succeeded?
  {
    var recovered := UpToRecovery();
    ApplyThen(recovered, SaveDirect(0, SAVED));
    before, m := recovered + [SaveDirect(0, SAVED)], FinishDirect(0, None);
    ApplyThen(before, m);
    DirectIssuesMoveForwardIff(before + [m]);
  }

  // ---------------------------------------------------------------------
  // The queue bound, and versions
  // ---------------------------------------------------------------------

  /** No job is behind two versions; a direct job is behind one exactly if it
      saved it, the worker's exactly if its issuance has ended without error. */
  ghost predicate AddedInv(h: Shared) {
    var s := h.server;
    && |s.added| == |s.tables.versions|
    && (forall a, b :: 0 <= a < b < |s.added| ==> s.added[a] != s.added[b])
    && (forall a :: a in s.added ==> a < |s.tables.jobs| && !s.tables.jobs[a].status.Queued?)
    && h.saved <= h.direct
    && (forall id :: id in h.direct ==> (id in s.added <==> id in h.saved))
    && (ActiveJob(s.worker).Some? ==> (ActiveJob(s.worker).value in s.added <==> Delivered(s.worker)))
  }

  lemma MovesKeepAdded(h: Shared, s': System)
    requires SharedInv(h) && AddedInv(h) && Moves(h.server, s')
    ensures AddedInv(h.(server := s'))
  {
    var s := h.server;
    forall a | a in s'.added ensures a < |s'.tables.jobs| && !s'.tables.jobs[a].status.Queued? {
      assert a in s.added || Some(a) == ActiveJob(s.worker);
      assert RowMoves(s, s', a);
    }
  }

  lemma MoveKeepsAdded(h: Shared, m: Move)
    requires SharedInv(h) && AddedInv(h)
    ensures AddedInv(Apply(h, m))
  {
    match m
    case Serve(e) =>
      StepMoves(h.server, e);
      MovesKeepAdded(h, Step(h.server, e));
    case StartDirect(cert, kind) => AdmitContract(h.server.tables, cert, kind, Running);
    case SaveDirect(id, version) =>
    case FinishDirect(id, error) =>
  }

  lemma MoveKeepsBounds(h: Shared, m: Move)
    requires SharedInv(h) && Bounded(h.server.tables.jobs)
    ensures Bounded(Apply(h, m).server.tables.jobs)
  {
    var jobs := h.server.tables.jobs;
    match m
    case Serve(e) =>
      StepMoves(h.server, e);
      MovesKeepBounds(h.server, Step(h.server, e));
    case StartDirect(cert, kind) =>
      AdmitContract(h.server.tables, cert, kind, Running);
      if Apply(h, m) != h {
        AppendKeepsBounds(jobs, Job(cert, kind, Running, ""));
      }
    case SaveDirect(id, version) =>
    case FinishDirect(id, error) =>
      if Apply(h, m) != h {
        UpdateKeepsBounds(jobs, Apply(h, m).server.tables.jobs);
      }
  }

  lemma {:induction false} MovesKeepPromises(h: Shared, moves: seq<Move>)
    requires SharedInv(h) && AddedInv(h) && Bounded(h.server.tables.jobs)
    ensures AddedInv(ApplyAll(h, moves)) && Bounded(ApplyAll(h, moves).server.tables.jobs)
    decreases |moves|
  {
    if moves != [] {
      MoveKeepsShared(h, moves[0]);
      MoveKeepsAdded(h, moves[0]);
      MoveKeepsBounds(h, moves[0]);
      MovesKeepPromises(Apply(h, moves[0]), moves[1..]);
    }
  }

  /** Main result: with any number of direct issuances beside the server, over
      every run and without any condition, at most 64 jobs are pending, at most
      one per certificate, and no job added two versions. */
  lemma DirectIssuesKeepBounds(moves: seq<Move>)
    ensures var s := ApplyAll(START, moves).server;
      && |PendingIds(s.tables.jobs)| <= MAX_PENDING && OnlyLatestPending(s.tables.jobs)
      && |s.added| == |s.tables.versions|
      && forall a, b :: 0 <= a < b < |s.added| ==> s.added[a] != s.added[b]
  {
    MovesKeepPromises(START, moves);
  }

  // ---------------------------------------------------------------------
  // Quarantine
  // ---------------------------------------------------------------------

  /** A direct caller does not ask for a scheduled job after an interrupted one,
      and does not mark its own job as interrupted behind the back of a
      reconciliation that has listed the certificate without such a mark. */
  ghost predicate Considerate(h: Shared, m: Move) {
    match m
    case Serve(_) => true
    case StartDirect(cert, kind) => kind.Scheduled? ==> MaySchedule(h.server.tables.jobs, cert)
    case SaveDirect(_, _) => true
    case FinishDirect(id, error) =>
      id in h.direct && id < |h.server.tables.jobs| && error.Some? && INTERRUPTED <= error.value
      && h.server.worker.Reconciling? ==>
        forall l :: l in h.server.worker.todo && l.cert == h.server.tables.jobs[id].cert ==>
          l.latest.Some? && IsInterrupted(l.latest.value)
  }

  ghost predicate AlwaysConsiderate(h: Shared, moves: seq<Move>)
    decreases |moves|
  {
    moves == [] || (Considerate(h, moves[0]) && AlwaysConsiderate(Apply(h, moves[0]), moves[1..]))
  }

  lemma StartKeepsWorker(h: Shared, cert: string, kind: Kind)
    requires WorkerInv(h.server) && Considerate(h, StartDirect(cert, kind))
    ensures WorkerInv(Apply(h, StartDirect(cert, kind)).server)
  {
    var s, s' := h.server, Apply(h, StartDirect(cert, kind)).server;
    AdmitKeepsJobs(s.tables, cert, kind, Running);
    AdmitContract(s.tables, cert, kind, Running);
    var jobs, jobs' := s.tables.jobs, s'.tables.jobs;
    forall l, i | s.worker.Reconciling? && l in s.worker.todo && IsLatest(jobs', i, l.cert)
      ensures FreshEntry(jobs'[i], l)
    {
      if i < |jobs| {
        assert forall m :: 0 <= m < |jobs| ==> jobs'[m] == jobs[m];
        assert IsLatest(jobs, i, l.cert);
      }
    }
  }

  /** Nothing scheduled follows a direct job: one that runs is the latest of its
      certificate, and one that was overtaken is marked. */
  lemma FinishKeepsQuarantine(h: Shared, id: nat, error: Option<string>)
    requires SharedInv(h) && JobsInv(h.server.tables.jobs) && id in h.direct
    ensures Quarantined(Finish(h.server.tables, id, error).jobs)
  {
    var a, b := h.server.tables.jobs, Finish(h.server.tables, id, error).jobs;
    assert forall m :: 0 <= m < |a| ==> b[m].cert == a[m].cert;
    forall i, k | Precedes(b, i, k) && b[k].kind.Scheduled? ensures !IsInterrupted(b[i]) {
      assert Precedes(a, i, k);
    }
  }

  lemma FinishKeepsListing(h: Shared, id: nat, error: Option<string>)
    requires SharedInv(h) && FreshListing(h.server) && id in h.direct && Considerate(h, FinishDirect(id, error))
    ensures FreshListing(h.server.(tables := Finish(h.server.tables, id, error)))
  {
    var s, jobs' := h.server, Finish(h.server.tables, id, error).jobs;
    assert forall m :: 0 <= m < |jobs'| ==> jobs'[m].cert == s.tables.jobs[m].cert;
    forall l, i | s.worker.Reconciling? && l in s.worker.todo && IsLatest(jobs', i, l.cert)
      ensures FreshEntry(jobs'[i], l)
    {
      assert IsLatest(s.tables.jobs, i, l.cert);
    }
  }

  lemma FinishKeepsDirectWorker(h: Shared, id: nat, error: Option<string>)
    requires SharedInv(h) && WorkerInv(h.server) && Considerate(h, FinishDirect(id, error))
    ensures WorkerInv(Apply(h, FinishDirect(id, error)).server)
  {
    if Apply(h, FinishDirect(id, error)) != h {
      FinishKeepsQuarantine(h, id, error);
      FinishKeepsListing(h, id, error);
      UpdateKeepsBounds(h.server.tables.jobs, Finish(h.server.tables, id, error).jobs);
    }
  }

  lemma SaveKeepsWorker(h: Shared, id: nat, version: Version)
    requires WorkerInv(h.server)
    ensures WorkerInv(Apply(h, SaveDirect(id, version)).server)
  {
    QuietKeepsWorker(h.server, Apply(h, SaveDirect(id, version)).server);
  }

  lemma {:induction false} MovesKeepWorker(h: Shared, moves: seq<Move>)
    requires SharedInv(h) && WorkerInv(h.server) && AlwaysConsiderate(h, moves)
    ensures WorkerInv(ApplyAll(h, moves).server)
    decreases |moves|
  {
    if moves != [] {
      MoveKeepsShared(h, moves[0]);
      match moves[0] {
        case Serve(e) => StepKeepsWorker(h.server, e);
        case StartDirect(cert, kind) => StartKeepsWorker(h, cert, kind);
        case SaveDirect(id, version) => SaveKeepsWorker(h, id, version);
        case FinishDirect(id, error) => FinishKeepsDirectWorker(h, id, error);
      }
      MovesKeepWorker(Apply(h, moves[0]), moves[1..]);
    }
  }

  /** Main result: beside considerate direct callers, over every run, no
      scheduled job directly follows an interrupted one of its certificate. */
  lemma ConsiderateCallersKeepQuarantine(moves: seq<Move>)
    requires AlwaysConsiderate(START, moves)
    ensures Quarantined(ApplyAll(START, moves).server.tables.jobs)
  {
    FreshIsSafe();
    MovesKeepWorker(START, moves);
  }

  /** Without that, quarantine can fail: a direct caller is given a scheduled job after an interrupted one. */
  lemma DirectCallersCanBreakQuarantine() returns (moves: seq<Move>)
    ensures !AlwaysConsiderate(START, moves) && !Quarantined(ApplyAll(START, moves).server.tables.jobs)
  {
    var recovered := UpToRecovery();
    var h := ApplyAll(START, recovered);
    assert PendingIds(h.server.tables.jobs) == {};
    AdmitContract(h.server.tables, "home", Scheduled, Running);
    moves := recovered + [StartDirect("home", Scheduled)];
    ApplyThen(recovered, StartDirect("home", Scheduled));
    var jobs := ApplyAll(START, moves).server.tables.jobs;
    assert jobs == h.server.tables.jobs + [Job("home", Scheduled, Running, "")];
    assert Precedes(jobs, 0, 1) && IsInterrupted(jobs[0]);
    if AlwaysConsiderate(START, moves) {
      ConsiderateCallersKeepQuarantine(moves);
    }
  }
}

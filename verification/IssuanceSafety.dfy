/** What every run of the issuance protocol keeps, whatever crashes, failures,
    cancellations and API requests come between the worker's transactions. */
module IssuanceSafety {
  import opened Prelude
  import opened IssuanceTables
  import opened IssuanceProtocol
  import Drift = ConfigurationDrift

  // ---------------------------------------------------------------------
  // The job table
  // ---------------------------------------------------------------------

  /** Job `i` is the one that directly precedes job `k` of the same certificate. */
  ghost predicate Precedes(jobs: seq<Job>, i: int, k: int) {
    && 0 <= i < k < |jobs|
    && jobs[i].cert == jobs[k].cert
    && (forall m :: i < m < k ==> jobs[m].cert != jobs[k].cert)
  }

  ghost predicate IsLatest(jobs: seq<Job>, i: int, cert: string) {
    0 <= i < |jobs| && jobs[i].cert == cert && forall m :: i < m < |jobs| ==> jobs[m].cert != cert
  }

  /** No scheduled job directly follows an interrupted one. */
  ghost predicate Quarantined(jobs: seq<Job>) {
    forall i, k :: Precedes(jobs, i, k) && jobs[k].kind.Scheduled? ==> !IsInterrupted(jobs[i])
  }

  /** Only the latest job of a certificate can be pending. */
  ghost predicate OnlyLatestPending(jobs: seq<Job>) {
    forall i, k :: 0 <= i < k < |jobs| && jobs[i].cert == jobs[k].cert ==> !IsPending(jobs[i])
  }

  ghost predicate Bounded(jobs: seq<Job>) {
    |PendingIds(jobs)| <= MAX_PENDING && OnlyLatestPending(jobs)
  }

  ghost predicate JobsInv(jobs: seq<Job>) {
    Bounded(jobs) && Quarantined(jobs)
  }

  /** Rows are kept, finished rows do not change, and a running row is never queued again. */
  ghost predicate Evolves(a: seq<Job>, b: seq<Job>) {
    && |a| <= |b|
    && forall i :: 0 <= i < |a| ==>
         && b[i].cert == a[i].cert && b[i].kind == a[i].kind
         && (!IsPending(a[i]) ==> b[i] == a[i])
         && (a[i].status.Running? ==> !b[i].status.Queued?)
  }

  lemma EvolvesTransitive(a: seq<Job>, b: seq<Job>, c: seq<Job>)
    requires Evolves(a, b) && Evolves(b, c)
    ensures Evolves(a, c)
  {
  }

  lemma UpdateKeepsBounds(a: seq<Job>, b: seq<Job>)
    requires Bounded(a) && |b| == |a|
    requires forall i :: 0 <= i < |a| ==> b[i].cert == a[i].cert && (IsPending(b[i]) ==> IsPending(a[i]))
    ensures Bounded(b)
  {
    SubsetSize(PendingIds(b), PendingIds(a));
  }

  lemma AppendKeepsBounds(jobs: seq<Job>, j: Job)
    requires Bounded(jobs) && |PendingIds(jobs)| < MAX_PENDING && !HasPending(jobs, j.cert)
    ensures Bounded(jobs + [j])
  {
    SubsetSize(PendingIds(jobs + [j]), PendingIds(jobs) + {|jobs|});
  }

  lemma UpdateKeepsJobs(a: seq<Job>, b: seq<Job>)
    requires JobsInv(a) && Evolves(a, b) && |b| == |a|
    requires forall i :: 0 <= i < |a| && IsPending(b[i]) ==> IsPending(a[i])
    ensures JobsInv(b)
  {
    UpdateKeepsBounds(a, b);
    forall i, k | Precedes(b, i, k) && b[k].kind.Scheduled? ensures !IsInterrupted(b[i]) {
      assert Precedes(a, i, k);
      assert !IsPending(a[i]);
    }
  }

  ghost predicate HasPending(jobs: seq<Job>, cert: string) {
    exists i :: 0 <= i < |jobs| && jobs[i].cert == cert && IsPending(jobs[i])
  }

  /** The latest job of `cert`, if any, is pending or was not interrupted. */
  ghost predicate MaySchedule(jobs: seq<Job>, cert: string) {
    forall i :: IsLatest(jobs, i, cert) ==> IsPending(jobs[i]) || !IsInterrupted(jobs[i])
  }

  lemma AppendKeepsJobs(jobs: seq<Job>, j: Job)
    requires JobsInv(jobs) && |PendingIds(jobs)| < MAX_PENDING
    requires forall i :: 0 <= i < |jobs| && jobs[i].cert == j.cert ==> !IsPending(jobs[i])
    requires j.kind.Scheduled? ==> MaySchedule(jobs, j.cert)
    ensures JobsInv(jobs + [j])
  {
    var after := jobs + [j];
    AppendKeepsBounds(jobs, j);
    forall i, k | Precedes(after, i, k) && after[k].kind.Scheduled? ensures !IsInterrupted(after[i]) {
      assert forall m :: 0 <= m < |jobs| ==> after[m] == jobs[m];
      if k < |jobs| {
        assert Precedes(jobs, i, k);
      } else {
        assert IsLatest(jobs, i, j.cert);
      }
    }
  }

  /** Admission: not found exactly for certificates not enabled, the pending
      job if there is one, even when the queue is full, and otherwise refused
      exactly when the queue is full. */
  lemma AdmitContract(t: Tables, cert: string, kind: Kind, status: Status)
    ensures var (t', r) := Admit(t, cert, kind, status);
      && (r.NotFound? <==> !Enabled(t, cert))
      && (r.Existing? ==> r.id < |t.jobs| && t.jobs[r.id].cert == cert && IsPending(t.jobs[r.id]))
      && (Enabled(t, cert) && HasPending(t.jobs, cert) ==> r.Existing?)
      && (r.QueueFull? ==> |PendingIds(t.jobs)| >= 64)
      && (r.Created? ==>
            && |PendingIds(t.jobs)| < 64 && r.newId == |t.jobs|
            && t' == t.(jobs := t.jobs + [Job(cert, kind, status, "")])
            && forall i :: 0 <= i < |t.jobs| && t.jobs[i].cert == cert ==> !IsPending(t.jobs[i]))
      && (!r.Created? ==> t' == t)
  {
  }

  lemma AdmitKeepsJobs(t: Tables, cert: string, kind: Kind, status: Status)
    requires JobsInv(t.jobs)
    requires kind.Scheduled? ==> MaySchedule(t.jobs, cert)
    ensures var jobs := Admit(t, cert, kind, status).0.jobs;
      JobsInv(jobs) && Evolves(t.jobs, jobs)
  {
    AdmitContract(t, cert, kind, status);
    if Admit(t, cert, kind, status).1.Created? {
      AppendKeepsJobs(t.jobs, Job(cert, kind, status, ""));
    }
  }

  /** A claim takes the lowest queued id. */
  lemma ClaimContract(t: Tables)
    ensures var (t', id) := Claim(t);
      && (id.None? ==> t' == t && forall i :: 0 <= i < |t.jobs| ==> !t.jobs[i].status.Queued?)
      && (id.Some? ==>
            && id.value < |t.jobs| && t.jobs[id.value].status.Queued?
            && (forall i :: 0 <= i < id.value ==> !t.jobs[i].status.Queued?)
            && t' == t.(jobs := SetStatus(t.jobs, id.value, Running, t.jobs[id.value].error)))
  {
  }

  // ---------------------------------------------------------------------
  // The worker
  // ---------------------------------------------------------------------

  ghost predicate Increasing(ids: seq<nat>) {
    forall a, b :: 0 <= a < b < |ids| ==> ids[a] < ids[b]
  }

  /** The job the worker is busy with. */
  function ActiveJob(w: Worker): Option<nat> {
    match w
    case Started(j) => Some(j)
    case Checked(j) => Some(j)
    case Obtaining(j) => Some(j)
    case Persisting(j) => Some(j)
    case Finishing(j, _) => Some(j)
    case Recording(j, _) => Some(j)
    case _ => None
  }

  /** A certificate whose latest job was interrupted is listed with an interrupted job. */
  ghost predicate FreshListing(s: System) {
    s.worker.Reconciling? ==>
      forall l, i :: l in s.worker.todo && IsLatest(s.tables.jobs, i, l.cert) ==> FreshEntry(s.tables.jobs[i], l)
  }

  ghost predicate FreshEntry(latest: Job, l: Listed) {
    IsPending(latest) || !IsInterrupted(latest) || (l.latest.Some? && IsInterrupted(l.latest.value))
  }

  /** Ids are claimed in increasing order, so everything still queued is
      beyond every claim; orders are started in increasing order of id too. */
  ghost predicate ClaimsInv(s: System) {
    && Increasing(s.claimed) && Increasing(s.obtained)
    && (forall c :: c in s.claimed ==> c < |s.tables.jobs|)
    && (forall i, c :: 0 <= i < |s.tables.jobs| && s.tables.jobs[i].status.Queued? && c in s.claimed ==> c < i)
    && (forall o :: o in s.obtained ==> o in s.claimed)
    && (var active := ActiveJob(s.worker);
        active.Some? ==>
          && s.claimed != [] && active.value == s.claimed[|s.claimed| - 1]
          && active.value < |s.tables.jobs| && s.tables.jobs[active.value].status.Running?)
    && (s.worker.Started? || s.worker.Checked? ==> s.worker.job !in s.obtained)
  }

  ghost predicate WorkerInv(s: System) {
    JobsInv(s.tables.jobs) && FreshListing(s) && ClaimsInv(s)
  }

  /** Admitting a job disturbs neither the worker nor what it has listed. */
  lemma EnqueueKeepsWorker(s: System, cert: string, kind: Kind)
    requires WorkerInv(s)
    requires kind.Scheduled? ==> MaySchedule(s.tables.jobs, cert)
    ensures WorkerInv(Enqueue(s, cert, kind)) && Evolves(s.tables.jobs, Enqueue(s, cert, kind).tables.jobs)
  {
    AdmitKeepsJobs(s.tables, cert, kind, Queued);
    AdmitContract(s.tables, cert, kind, Queued);
    var s' := Enqueue(s, cert, kind);
    var jobs, jobs' := s.tables.jobs, s'.tables.jobs;
    forall l, i | s.worker.Reconciling? && l in s.worker.todo && IsLatest(jobs', i, l.cert)
      ensures FreshEntry(jobs'[i], l)
    {
      if i < |jobs| {
        assert forall m :: 0 <= m < |jobs| ==> jobs'[m] == jobs[m];
        assert IsLatest(jobs, i, l.cert);
      }
    }
  }

  lemma ConsiderKeepsWorker(s: System, look: Drift.Look)
    requires WorkerInv(s)
    ensures WorkerInv(Step(s, Consider(look))) && Evolves(s.tables.jobs, Step(s, Consider(look)).tables.jobs)
  {
    if s.worker.Reconciling? && s.worker.todo != [] {
      var l, rest := s.worker.todo[0], s.(worker := Reconciling(s.worker.todo[1..]));
      assert WorkerInv(rest);
      if Schedules(s.config, l, look) {
        forall i | IsLatest(s.tables.jobs, i, l.cert)
          ensures IsPending(s.tables.jobs[i]) || !IsInterrupted(s.tables.jobs[i])
        {
          assert l in s.worker.todo;
        }
        EnqueueKeepsWorker(rest, l.cert, Scheduled);
      }
    }
  }

  lemma ClaimKeepsWorker(s: System, ok: bool)
    requires WorkerInv(s)
    ensures var s' := Step(s, ClaimJob(ok)); WorkerInv(s') && Evolves(s.tables.jobs, s'.tables.jobs)
  {
    ClaimContract(s.tables);
    var s' := Step(s, ClaimJob(ok));
    assert forall a :: 0 <= a < |s.claimed| ==> s.claimed[a] in s.claimed;
    if s' != s {
      UpdateKeepsJobs(s.tables.jobs, s'.tables.jobs);
    }
  }

  lemma RecoverKeepsWorker(s: System, ok: bool)
    requires WorkerInv(s)
    ensures var s' := Step(s, RecoverJobs(ok)); WorkerInv(s') && Evolves(s.tables.jobs, s'.tables.jobs)
  {
    var s' := Step(s, RecoverJobs(ok));
    if s' != s {
      UpdateKeepsJobs(s.tables.jobs, s'.tables.jobs);
    }
  }

  lemma FinishKeepsWorker(s: System, ok: bool)
    requires WorkerInv(s)
    ensures var s' := Step(s, FinishJob(ok)); WorkerInv(s') && Evolves(s.tables.jobs, s'.tables.jobs)
  {
    var s' := Step(s, FinishJob(ok));
    if s' != s {
      UpdateKeepsJobs(s.tables.jobs, s'.tables.jobs);
    }
  }

  /** The order for a job is started before the next claim, so after every order started before. */
  lemma OrderKeepsWorker(s: System, fault: Option<string>)
    requires WorkerInv(s)
    ensures var s' := Step(s, StartOrder(fault)); WorkerInv(s') && s'.tables.jobs == s.tables.jobs
  {
    if s.worker.Checked? && fault.None? {
      LastIsNew(s.claimed, s.obtained, s.worker.job);
    }
  }

  /** The last job claimed comes after all jobs served so far, unless it is one of them. */
  lemma LastIsNew(claimed: seq<nat>, served: seq<nat>, id: nat)
    requires Increasing(claimed) && Increasing(served) && (forall o :: o in served ==> o in claimed)
    requires claimed != [] && id == claimed[|claimed| - 1] && id !in served
    ensures Increasing(served + [id]) && forall o :: o in served + [id] ==> o in claimed
  {
    forall a | 0 <= a < |served| ensures served[a] < id {
      assert served[a] in served;
      var c :| 0 <= c < |claimed| && claimed[c] == served[a];
    }
  }

  lemma ListKeepsWorker(s: System, ok: bool, names: seq<string>)
    requires WorkerInv(s)
    ensures var s' := Step(s, ListCertificates(ok, names)); WorkerInv(s') && s'.tables.jobs == s.tables.jobs
  {
  }

  /** Steps that touch neither jobs nor claims nor orders, and at most let go of the active job. */
  lemma QuietKeepsWorker(s: System, s': System)
    requires WorkerInv(s)
    requires s'.tables.jobs == s.tables.jobs && s'.claimed == s.claimed && s'.obtained == s.obtained
    requires s'.worker == s.worker || (!s'.worker.Reconciling? && !s'.worker.Started?)
    requires s'.worker.Checked? ==> s.worker.Started? || s.worker.Checked?
    requires ActiveJob(s'.worker).None? || ActiveJob(s'.worker) == ActiveJob(s.worker)
    ensures WorkerInv(s')
  {
  }

  lemma PlaceKeepsWorker(s: System, e: Event)
    requires WorkerInv(s) && (e.Boot? || e.Crash? || e.Cancel? || e.Reconfigure? || e.Tick?)
    ensures WorkerInv(Step(s, e)) && Step(s, e).tables.jobs == s.tables.jobs
  {
    QuietKeepsWorker(s, Step(s, e));
  }

  lemma WorkKeepsWorker(s: System, e: Event)
    requires WorkerInv(s) && (e.Check? || e.Obtain? || e.Persist? || e.Conclude?)
    ensures WorkerInv(Step(s, e)) && Step(s, e).tables.jobs == s.tables.jobs
  {
    QuietKeepsWorker(s, Step(s, e));
  }

  lemma RequestKeepsWorker(s: System, cert: string, kind: Kind)
    requires WorkerInv(s)
    ensures var s' := Step(s, ApiRequest(cert, kind)); WorkerInv(s') && Evolves(s.tables.jobs, s'.tables.jobs)
  {
    if !kind.Scheduled? {
      EnqueueKeepsWorker(s, cert, kind);
    }
  }

  /** Every step keeps the invariant and lets the job table evolve only forward. */
  lemma StepKeepsWorker(s: System, e: Event)
    requires WorkerInv(s)
    ensures WorkerInv(Step(s, e)) && Evolves(s.tables.jobs, Step(s, e).tables.jobs)
  {
    match e
    case ApiRequest(cert, kind) => RequestKeepsWorker(s, cert, kind);
    case RecoverJobs(ok) => RecoverKeepsWorker(s, ok);
    case ListCertificates(ok, names) => ListKeepsWorker(s, ok, names);
    case Consider(look) => ConsiderKeepsWorker(s, look);
    case ClaimJob(ok) => ClaimKeepsWorker(s, ok);
    case StartOrder(fault) => OrderKeepsWorker(s, fault);
    case FinishJob(ok) => FinishKeepsWorker(s, ok);
    case Check(_) => WorkKeepsWorker(s, e);
    case Obtain(_) => WorkKeepsWorker(s, e);
    case Persist(_, _) => WorkKeepsWorker(s, e);
    case Conclude => WorkKeepsWorker(s, e);
    case _ => PlaceKeepsWorker(s, e);
  }

  lemma {:induction false} RunKeepsWorker(s: System, events: seq<Event>)
    requires WorkerInv(s)
    ensures WorkerInv(Run(s, events)) && Evolves(s.tables.jobs, Run(s, events).tables.jobs)
    decreases |events|
  {
    if events != [] {
      StepKeepsWorker(s, events[0]);
      RunKeepsWorker(Step(s, events[0]), events[1..]);
      EvolvesTransitive(s.tables.jobs, Step(s, events[0]).tables.jobs, Run(s, events).tables.jobs);
    }
  }

  lemma FreshIsSafe()
    ensures WorkerInv(FRESH)
  {
  }
}

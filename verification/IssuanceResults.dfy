/** The main results about the issuance queue: how jobs and versions agree, how
    the queue is served, and the safety statements over every run. */
module IssuanceResults {
  import opened Prelude
  import opened IssuanceTables
  import opened IssuanceProtocol
  import Drift = ConfigurationDrift
  import opened IssuanceSafety
  import opened IssuanceSteps

  // ---------------------------------------------------------------------
  // Jobs and versions
  // ---------------------------------------------------------------------

  /** Every version belongs to the certificate of the job that added it. */
  ghost predicate Owned(jobs: seq<Job>, versions: seq<Version>, added: seq<nat>) {
    |added| == |versions| &&
    forall v :: 0 <= v < |added| ==> added[v] < |jobs| && versions[v].cert == jobs[added[v]].cert
  }

  predicate MayHaveVersion(j: Job) {
    j.status.Succeeded? || j.status.Running? || (j.status.Failed? && IsInterrupted(j))
  }

  /** Whatever job is behind a version succeeded, is still running or was
      interrupted, and every succeeded job is behind one. */
  ghost predicate Accounted(jobs: seq<Job>, added: seq<nat>) {
    && (forall i :: 0 <= i < |jobs| && i in added ==> MayHaveVersion(jobs[i]))
    && (forall i :: 0 <= i < |jobs| && jobs[i].status.Succeeded? ==> i in added)
  }

  /** The job under way has added its version exactly when its issuance has ended without error. */
  ghost predicate ActiveAccounted(w: Worker, added: seq<nat>) {
    ActiveJob(w).Some? ==> (ActiveJob(w).value in added <==> Delivered(w))
  }

  ghost predicate VersionsInv(s: System) {
    && Owned(s.tables.jobs, s.tables.versions, s.added)
    && Accounted(s.tables.jobs, s.added)
    && ActiveAccounted(s.worker, s.added)
    && Increasing(s.added)
    && (forall a :: a in s.added ==> a in s.claimed)
  }

  ghost predicate SystemInv(s: System) {
    WorkerInv(s) && VersionsInv(s)
  }

  lemma AddKeepsAccounts(jobs: seq<Job>, versions: seq<Version>, added: seq<nat>, id: nat, v: Version)
    requires Owned(jobs, versions, added) && Accounted(jobs, added)
    requires id < |jobs| && jobs[id].status.Running? && v.cert == jobs[id].cert
    ensures Owned(jobs, versions + [v], added + [id]) && Accounted(jobs, added + [id])
  {
  }

  lemma PersistKeepsVersions(s: System, fault: Option<string>, version: Version)
    requires SystemInv(s)
    ensures VersionsInv(Step(s, Persist(fault, version)))
  {
    var s' := Step(s, Persist(fault, version));
    if s'.added != s.added {
      var id := s.worker.job;
      LastIsNew(s.claimed, s.added, id);
      AddKeepsAccounts(s.tables.jobs, s.tables.versions, s.added, id, version.(cert := s.tables.jobs[id].cert));
    }
  }

  lemma StatusKeepsOwners(jobs: seq<Job>, after: seq<Job>, versions: seq<Version>, added: seq<nat>)
    requires Owned(jobs, versions, added) && Evolves(jobs, after)
    ensures Owned(after, versions, added)
  {
  }

  lemma FinishKeepsVersions(s: System, ok: bool)
    requires SystemInv(s)
    ensures VersionsInv(Step(s, FinishJob(ok)))
  {
  }

  lemma RecoverKeepsVersions(s: System, ok: bool)
    requires SystemInv(s)
    ensures VersionsInv(Step(s, RecoverJobs(ok)))
  {
  }

  lemma ClaimKeepsVersions(s: System, ok: bool)
    requires SystemInv(s)
    ensures VersionsInv(Step(s, ClaimJob(ok)))
  {
    ClaimContract(s.tables);
    var s' := Step(s, ClaimJob(ok));
    if s' != s {
      ClaimKeepsWorker(s, ok);
      StatusKeepsOwners(s.tables.jobs, s'.tables.jobs, s.tables.versions, s.added);
      assert s'.worker.job !in s.added;
    }
  }

  /** New jobs are appended behind the ones that versions refer to. */
  lemma EnqueueKeepsVersions(s: System, cert: string, kind: Kind)
    requires SystemInv(s)
    requires Evolves(s.tables.jobs, Enqueue(s, cert, kind).tables.jobs)
    ensures VersionsInv(Enqueue(s, cert, kind))
  {
  }

  /** Steps that touch neither jobs nor versions and keep or drop the active job. */
  lemma QuietKeepsVersions(s: System, s': System)
    requires VersionsInv(s)
    requires s'.tables.jobs == s.tables.jobs && s'.tables.versions == s.tables.versions
    requires s'.claimed == s.claimed && s'.added == s.added
    requires s'.worker == s.worker || ActiveJob(s'.worker).None? ||
             (ActiveJob(s'.worker) == ActiveJob(s.worker) && Delivered(s'.worker) == Delivered(s.worker))
    ensures VersionsInv(s')
  {
  }

  lemma PlaceKeepsVersions(s: System, e: Event)
    requires SystemInv(s)
    requires e.Boot? || e.Crash? || e.Cancel? || e.Reconfigure? || e.Tick? || e.ListCertificates?
    ensures VersionsInv(Step(s, e))
  {
    QuietKeepsVersions(s, Step(s, e));
  }

  lemma OrderKeepsVersions(s: System, e: Event)
    requires SystemInv(s) && (e.Check? || e.StartOrder? || e.Obtain? || e.Conclude?)
    ensures VersionsInv(Step(s, e))
  {
    QuietKeepsVersions(s, Step(s, e));
  }

  lemma StepKeepsVersions(s: System, e: Event)
    requires SystemInv(s) && Evolves(s.tables.jobs, Step(s, e).tables.jobs)
    ensures VersionsInv(Step(s, e))
  {
    match e
    case ApiRequest(cert, kind) =>
      if Step(s, e) != s {
        EnqueueKeepsVersions(s, cert, kind);
      }
    case RecoverJobs(ok) => RecoverKeepsVersions(s, ok);
    case Consider(look) => ConsiderKeepsVersions(s, look);
    case ClaimJob(ok) => ClaimKeepsVersions(s, ok);
    case Check(_) => OrderKeepsVersions(s, e);
    case StartOrder(_) => OrderKeepsVersions(s, e);
    case Conclude => OrderKeepsVersions(s, e);
    case Obtain(_) => OrderKeepsVersions(s, e);
    case Persist(fault, version) => PersistKeepsVersions(s, fault, version);
    case FinishJob(ok) => FinishKeepsVersions(s, ok);
    case _ => PlaceKeepsVersions(s, e);
  }

  lemma ConsiderKeepsVersions(s: System, look: Drift.Look)
    requires SystemInv(s) && Evolves(s.tables.jobs, Step(s, Consider(look)).tables.jobs)
    ensures VersionsInv(Step(s, Consider(look)))
  {
    if s.worker.Reconciling? && s.worker.todo != [] {
      var rest := s.(worker := Reconciling(s.worker.todo[1..]));
      assert SystemInv(rest);
      if Step(s, Consider(look)) != rest {
        EnqueueKeepsVersions(rest, s.worker.todo[0].cert, Scheduled);
      }
    }
  }

  lemma StepKeepsSystem(s: System, e: Event)
    requires SystemInv(s)
    ensures SystemInv(Step(s, e)) && Evolves(s.tables.jobs, Step(s, e).tables.jobs)
  {
    StepKeepsWorker(s, e);
    StepKeepsVersions(s, e);
  }

  lemma {:induction false} RunKeepsSystem(s: System, events: seq<Event>)
    requires SystemInv(s)
    ensures SystemInv(Run(s, events)) && Evolves(s.tables.jobs, Run(s, events).tables.jobs)
    decreases |events|
  {
    if events != [] {
      StepKeepsSystem(s, events[0]);
      RunKeepsSystem(Step(s, events[0]), events[1..]);
      EvolvesTransitive(s.tables.jobs, Step(s, events[0]).tables.jobs, Run(s, events).tables.jobs);
    }
  }

  lemma Reachable(events: seq<Event>)
    ensures SystemInv(Run(FRESH, events))
  {
    FreshIsSafe();
    RunKeepsSystem(FRESH, events);
  }

  /** Main result: whatever crashes and restarts a run contains, no job is
      claimed twice, no ACME order is started twice for a job, and claims
      happen in increasing order of id over the whole life of the database. */
  lemma AtMostOnceIssuance(events: seq<Event>)
    ensures var s := Run(FRESH, events);
      && (forall a, b :: 0 <= a < b < |s.claimed| ==> s.claimed[a] < s.claimed[b])
      && (forall a, b :: 0 <= a < b < |s.obtained| ==> s.obtained[a] != s.obtained[b])
      && (forall o :: o in s.obtained ==> o in s.claimed)
  {
    Reachable(events);
  }

  /** Main result: as a run goes on, no job leaves `succeeded` or `failed` and
      none goes from running back to queued; finished rows stay as they are. */
  lemma JobsOnlyMoveForward(before: seq<Event>, after: seq<Event>)
    ensures var a, b := Run(FRESH, before).tables.jobs, Run(FRESH, before + after).tables.jobs;
      |a| <= |b| && forall i :: 0 <= i < |a| ==>
        && b[i].cert == a[i].cert && b[i].kind == a[i].kind
        && (a[i].status.Succeeded? || a[i].status.Failed? ==> b[i] == a[i])
        && (a[i].status.Running? ==> !b[i].status.Queued?)
  {
    Reachable(before);
    RunAppend(FRESH, before, after);
    RunKeepsSystem(Run(FRESH, before), after);
  }

  /** Main result: the job that directly follows an interrupted job of the same
      certificate is never a scheduled one. */
  lemma InterruptedIsQuarantined(events: seq<Event>, i: nat, k: nat)
    requires var jobs := Run(FRESH, events).tables.jobs;
      Precedes(jobs, i, k) && IsInterrupted(jobs[i])
    ensures !Run(FRESH, events).tables.jobs[k].kind.Scheduled?
  {
    Reachable(events);
  }

  /** Main result: at most 64 jobs are pending, and at most one per certificate. */
  lemma QueueIsBounded(events: seq<Event>)
    ensures var jobs := Run(FRESH, events).tables.jobs;
      && |PendingIds(jobs)| <= 64
      && forall i, k :: i in PendingIds(jobs) && k in PendingIds(jobs) && jobs[i].cert == jobs[k].cert ==> i == k
  {
    Reachable(events);
  }

  /** The versions that job `j` added. */
  ghost function VersionsOf(s: System, j: nat): set<nat> {
    set v: nat | v < |s.added| && s.added[v] == j
  }

  /** Main result: a succeeded job added exactly one version, of its own
      certificate; a queued job, or a failed one not marked as interrupted,
      added none; no job added two. */
  lemma JobsAndVersionsAgree(events: seq<Event>, j: nat)
    requires j < |Run(FRESH, events).tables.jobs|
    ensures var s := Run(FRESH, events); var job := s.tables.jobs[j];
      && |VersionsOf(s, j)| <= 1
      && (job.status.Succeeded? ==> |VersionsOf(s, j)| == 1)
      && (job.status.Queued? || (job.status.Failed? && !IsInterrupted(job)) ==> |VersionsOf(s, j)| == 0)
      && |s.added| == |s.tables.versions|
      && (forall v :: v in VersionsOf(s, j) ==> s.tables.versions[v].cert == job.cert)
  {
    Reachable(events);
    var s := Run(FRESH, events);
    if j in s.added {
      var v: nat :| v < |s.added| && s.added[v] == j;
      assert VersionsOf(s, j) == {v};
    } else {
      assert VersionsOf(s, j) == {};
    }
  }

  // ---------------------------------------------------------------------
  // The current version
  // ---------------------------------------------------------------------

  lemma StepAppendsVersions(s: System, e: Event)
    ensures s.tables.versions <= Step(s, e).tables.versions && s.added <= Step(s, e).added
  {
  }

  lemma {:induction false} RunAppendsVersions(s: System, events: seq<Event>)
    ensures s.tables.versions <= Run(s, events).tables.versions && s.added <= Run(s, events).added
    decreases |events|
  {
    if events != [] {
      StepAppendsVersions(s, events[0]);
      RunAppendsVersions(Step(s, events[0]), events[1..]);
    }
  }

  lemma CurrentVersionUnaffected(a: seq<Version>, b: seq<Version>, cert: string)
    requires a <= b && forall v :: |a| <= v < |b| ==> b[v].cert != cert
    ensures CurrentVersion(b, cert) == CurrentVersion(a, cert)
    decreases |b|
  {
  }

  /** Main result: if every job of a certificate that was not finished before
      ends the run queued, or failed without being interrupted, then its
      current version is what it was: a failed renewal changes nothing. */
  lemma FailedRenewalKeepsVersion(before: seq<Event>, after: seq<Event>, cert: string)
    requires var a, b := Run(FRESH, before).tables.jobs, Run(FRESH, before + after).tables.jobs;
      forall i :: 0 <= i < |b| && b[i].cert == cert && (i < |a| ==> IsPending(a[i])) ==>
        b[i].status.Queued? || (b[i].status.Failed? && !IsInterrupted(b[i]))
    ensures CurrentVersion(Run(FRESH, before + after).tables.versions, cert)
         == CurrentVersion(Run(FRESH, before).tables.versions, cert)
  {
    var s, s' := Run(FRESH, before), Run(FRESH, before + after);
    Reachable(before);
    Reachable(before + after);
    RunAppend(FRESH, before, after);
    RunAppendsVersions(s, after);
    RunAddsUnfinished(s, after);
    CurrentVersionUnaffected(s.tables.versions, s'.tables.versions, cert);
  }

  lemma StepAddsUnfinished(s: System, e: Event)
    requires SystemInv(s)
    ensures s.added <= Step(s, e).added
    ensures forall v :: |s.added| <= v < |Step(s, e).added| ==>
      Step(s, e).added[v] < |s.tables.jobs| && IsPending(s.tables.jobs[Step(s, e).added[v]])
  {
    StepMoves(s, e);
  }

  /** Versions that a run adds are added by jobs that were not finished when it began. */
  lemma {:induction false} RunAddsUnfinished(s: System, events: seq<Event>)
    requires SystemInv(s)
    ensures s.added <= Run(s, events).added
    ensures forall v :: |s.added| <= v < |Run(s, events).added| ==>
      Run(s, events).added[v] < |s.tables.jobs| ==> IsPending(s.tables.jobs[Run(s, events).added[v]])
    decreases |events|
  {
    if events != [] {
      var s1, s' := Step(s, events[0]), Run(s, events);
      StepKeepsSystem(s, events[0]);
      StepAddsUnfinished(s, events[0]);
      RunAddsUnfinished(s1, events[1..]);
      forall v | |s.added| <= v < |s'.added| && s'.added[v] < |s.tables.jobs|
        ensures IsPending(s.tables.jobs[s'.added[v]])
      {
        if v < |s1.added| {
          assert s'.added[v] == s1.added[v];
        } else {
          assert IsPending(s1.tables.jobs[s'.added[v]]);
        }
      }
    }
  }

  /** A version no older than the others of its certificate becomes the current one. */
  lemma NewestBecomesCurrent(versions: seq<Version>, v: Version)
    requires forall i :: 0 <= i < |versions| && versions[i].cert == v.cert ==> versions[i].createdAt <= v.createdAt
    ensures CurrentVersion(versions + [v], v.cert) == Some(|versions|)
  {
  }

  // ---------------------------------------------------------------------
  // What is issued, and what is reported
  // ---------------------------------------------------------------------

  /** No definitions are loaded that enable the certificate. */
  predicate KeepsDisabled(e: Event, cert: string) {
    match e
    case Boot(definitions) => !(cert in definitions && definitions[cert].enabled)
    case Reconfigure(definitions) => !(cert in definitions && definitions[cert].enabled)
    case _ => true
  }

  /** The worker has read the certificate of its job as enabled and is about to start the order. */
  predicate AboutToOrder(s: System, cert: string) {
    s.worker.Checked? && s.worker.job < |s.tables.jobs| && s.tables.jobs[s.worker.job].cert == cert
  }

  /** From `s` to `s'` a certificate got no job, no version, and no ACME order
      but the one that the worker was about to start in `s`. */
  ghost predicate Untouched(s: System, s': System, cert: string) {
    && |s.tables.jobs| <= |s'.tables.jobs| && s.obtained <= s'.obtained && s.tables.versions <= s'.tables.versions
    && (forall k :: |s.tables.jobs| <= k < |s'.tables.jobs| ==> s'.tables.jobs[k].cert != cert)
    && (forall k :: |s.obtained| <= k < |s'.obtained| ==>
          s'.obtained[k] < |s'.tables.jobs|
          && (s'.tables.jobs[s'.obtained[k]].cert == cert ==> s.worker == Checked(s'.obtained[k])))
    && (AboutToOrder(s', cert) ==> s'.worker == s.worker)
    && (forall k :: |s.tables.versions| <= k < |s'.tables.versions| ==> s'.tables.versions[k].cert != cert)
  }

  /** After configuring, exactly the configured and enabled certificates are
      enabled, with the terms asked for; no row is lost and none changes what it reports. */
  lemma ConfigureContract(t: Tables, definitions: map<string, Definition>)
    ensures var certs := Configure(t.certs, definitions);
      && (forall c :: Enabled(t.(certs := certs), c) <==> c in definitions && definitions[c].enabled)
      && (forall c :: c in definitions ==>
            var terms := definitions[c].terms;
            && certs[c].terms.domains == terms.domains
            && certs[c].terms.keyType == (if terms.keyType == "" then "ec256" else terms.keyType)
            && certs[c].terms.renewBefore == (if terms.renewBefore == 0 then 30 * 24 * 3600 else terms.renewBefore))
      && (forall c :: c in t.certs ==> c in certs && certs[c].health == t.certs[c].health)
      && (forall c :: c in certs && c !in t.certs ==> c in definitions && certs[c].health == Pending)
      && Configure(certs, definitions) == certs
  {
  }

  lemma StepConfigures(s: System, e: Event, cert: string)
    requires !Enabled(s.tables, cert) && KeepsDisabled(e, cert)
    ensures !Enabled(Step(s, e).tables, cert)
  {
    match e
    case Boot(definitions) => ConfigureContract(s.tables, definitions);
    case Reconfigure(definitions) => ConfigureContract(s.tables, definitions);
    case _ =>
  }

  lemma StepLeavesDisabled(s: System, e: Event, cert: string)
    requires SystemInv(s) && !Enabled(s.tables, cert) && KeepsDisabled(e, cert)
    ensures !Enabled(Step(s, e).tables, cert) && Untouched(s, Step(s, e), cert)
  {
    StepMoves(s, e);
    StepKeepsWorker(s, e);
    StepConfigures(s, e, cert);
    MovesLeaveDisabled(s, Step(s, e), cert);
  }

  lemma MovesLeaveDisabled(s: System, s': System, cert: string)
    requires SystemInv(s) && !Enabled(s.tables, cert) && Moves(s, s') && Evolves(s.tables.jobs, s'.tables.jobs)
    ensures Untouched(s, s', cert)
  {
  }

  lemma {:induction false} RunLeavesDisabled(s: System, events: seq<Event>, cert: string)
    requires SystemInv(s) && !Enabled(s.tables, cert) && forall e :: e in events ==> KeepsDisabled(e, cert)
    ensures Untouched(s, Run(s, events), cert)
    decreases |events|
  {
    if events != [] {
      var s1, s' := Step(s, events[0]), Run(s, events);
      StepKeepsSystem(s, events[0]);
      StepLeavesDisabled(s, events[0], cert);
      RunLeavesDisabled(s1, events[1..], cert);
      RunKeepsSystem(s1, events[1..]);
      UntouchedTwice(s, s1, s', cert);
    }
  }

  lemma UntouchedTwice(a: System, b: System, c: System, cert: string)
    requires Untouched(a, b, cert) && Untouched(b, c, cert) && Evolves(b.tables.jobs, c.tables.jobs)
    requires b.worker.Checked? ==> b.worker.job < |b.tables.jobs|
    ensures Untouched(a, c, cert)
  {
    forall k | |a.obtained| <= k < |c.obtained|
      ensures c.obtained[k] < |c.tables.jobs|
      ensures c.tables.jobs[c.obtained[k]].cert == cert ==> a.worker == Checked(c.obtained[k])
    {
      if k < |b.obtained| {
        assert c.obtained[k] == b.obtained[k];
      }
    }
  }

  /** Main result: once a certificate is not enabled, and until definitions are
      loaded that enable it, no run admits a job for it, adds a version of it or
      starts an ACME order for it, jobs queued or under way included. The one
      order that still may start is that of a job whose check came before. */
  lemma DisabledIsLeftAlone(before: seq<Event>, after: seq<Event>, cert: string)
    requires !Enabled(Run(FRESH, before).tables, cert) && forall e :: e in after ==> KeepsDisabled(e, cert)
    ensures Untouched(Run(FRESH, before), Run(FRESH, before + after), cert)
  {
    Reachable(before);
    RunAppend(FRESH, before, after);
    RunLeavesDisabled(Run(FRESH, before), after, cert);
  }

  /** From `s` to `s'` no ACME order was started for the certificate. */
  ghost predicate NotOrdered(s: System, s': System, cert: string) {
    && s.obtained <= s'.obtained
    && forall k :: |s.obtained| <= k < |s'.obtained| ==>
         s'.obtained[k] < |s'.tables.jobs| && s'.tables.jobs[s'.obtained[k]].cert != cert
  }

  /** Main result: a certificate that is not enabled gets no ACME order, whatever
      follows until it is enabled, if and only if the worker was not about to start one. */
  lemma DisabledIsNotOrderedIff(before: seq<Event>, cert: string)
    requires !Enabled(Run(FRESH, before).tables, cert)
    ensures !AboutToOrder(Run(FRESH, before), cert) <==>
      forall after: seq<Event> :: (forall e :: e in after ==> KeepsDisabled(e, cert)) ==>
        NotOrdered(Run(FRESH, before), Run(FRESH, before + after), cert)
  {
    var s := Run(FRESH, before);
    Reachable(before);
    if AboutToOrder(s, cert) {
      var after := [StartOrder(None)];
      RunAppend(FRESH, before, after);
      assert after[1..] == [];
      assert Run(s, after) == Step(s, StartOrder(None));
      assert Run(FRESH, before + after).obtained[|s.obtained|] == s.worker.job;
      assert !NotOrdered(s, Run(FRESH, before + after), cert);
    } else {
      forall after: seq<Event> | forall e :: e in after ==> KeepsDisabled(e, cert)
        ensures NotOrdered(s, Run(FRESH, before + after), cert)
      {
        NotAboutToOrder(before, after, cert);
      }
    }
  }

  lemma NotAboutToOrder(before: seq<Event>, after: seq<Event>, cert: string)
    requires !Enabled(Run(FRESH, before).tables, cert) && !AboutToOrder(Run(FRESH, before), cert)
    requires forall e :: e in after ==> KeepsDisabled(e, cert)
    ensures NotOrdered(Run(FRESH, before), Run(FRESH, before + after), cert)
  {
    var s, s' := Run(FRESH, before), Run(FRESH, before + after);
    Reachable(before);
    RunAppend(FRESH, before, after);
    RunKeepsSystem(s, after);
    DisabledIsLeftAlone(before, after, cert);
    if s.worker.Checked? {
      assert s'.tables.jobs[s.worker.job].cert == s.tables.jobs[s.worker.job].cert;
    }
  }

  /** What a certificate reports has happened: it is valid only if it has a
      version, and an error it shows is the error of one of its failed jobs. */
  ghost predicate Explained(t: Tables, cert: string, health: Health) {
    match health
    case Pending => true
    case Valid => exists v :: 0 <= v < |t.versions| && t.versions[v].cert == cert
    case Broken(message) =>
      exists j :: 0 <= j < |t.jobs| && t.jobs[j].cert == cert && t.jobs[j].status.Failed? && t.jobs[j].error == message
  }

  ghost predicate HealthInv(t: Tables) {
    forall c :: c in t.certs ==> Explained(t, c, t.certs[c].health)
  }

  lemma StillExplained(t: Tables, t': Tables, cert: string, health: Health)
    requires Explained(t, cert, health) && Evolves(t.jobs, t'.jobs) && t.versions <= t'.versions
    ensures Explained(t', cert, health)
  {
  }

  lemma StepKeepsHealth(s: System, e: Event)
    requires SystemInv(s) && HealthInv(s.tables)
    ensures HealthInv(Step(s, e).tables)
  {
    var t, t' := s.tables, Step(s, e).tables;
    StepKeepsSystem(s, e);
    StepAppendsVersions(s, e);
    forall c | c in t'.certs ensures Explained(t', c, t'.certs[c].health) {
      if c in t.certs && t'.certs[c].health == t.certs[c].health {
        StillExplained(t, t', c, t.certs[c].health);
      } else {
        HealthChange(s, e, c);
      }
    }
  }

  /** Health changes with a version or with a failed job, which explain it. */
  lemma HealthChange(s: System, e: Event, c: string)
    requires SystemInv(s) && c in Step(s, e).tables.certs
    requires c in s.tables.certs ==> Step(s, e).tables.certs[c].health != s.tables.certs[c].health
    ensures Explained(Step(s, e).tables, c, Step(s, e).tables.certs[c].health)
  {
    if e.Persist? {
      AddedIsExplained(s, e, c);
    } else if e.FinishJob? {
      FailedIsExplained(s, e, c);
    } else if e.Boot? || e.Reconfigure? {
      ConfigureContract(s.tables, e.definitions);
    } else {
      OthersKeepCertificates(s, e);
    }
  }

  lemma OthersKeepCertificates(s: System, e: Event)
    requires !e.Persist? && !e.FinishJob? && !e.Boot? && !e.Reconfigure?
    ensures Step(s, e).tables.certs == s.tables.certs
  {
  }

  lemma AddedIsExplained(s: System, e: Event, c: string)
    requires SystemInv(s) && e.Persist? && c in s.tables.certs
    requires Step(s, e).tables.certs[c].health != s.tables.certs[c].health
    ensures Explained(Step(s, e).tables, c, Step(s, e).tables.certs[c].health)
  {
    assert Step(s, e).tables.versions[|s.tables.versions|].cert == s.tables.jobs[s.worker.job].cert;
  }

  lemma FailedIsExplained(s: System, e: Event, c: string)
    requires SystemInv(s) && e.FinishJob? && c in s.tables.certs
    requires Step(s, e).tables.certs[c].health != s.tables.certs[c].health
    ensures Explained(Step(s, e).tables, c, Step(s, e).tables.certs[c].health)
  {
    assert Step(s, e).tables.jobs[s.worker.job].status.Failed?;
  }

  /** Main result: in every reachable state every certificate's status is explained. */
  lemma {:induction false} HealthIsExplained(events: seq<Event>)
    ensures HealthInv(Run(FRESH, events).tables)
    decreases |events|
  {
    if events != [] {
      var last := |events| - 1;
      HealthIsExplained(events[..last]);
      Reachable(events[..last]);
      assert events == events[..last] + [events[last]];
      RunAppend(FRESH, events[..last], [events[last]]);
      assert [events[last]][1..] == [];
      StepKeepsHealth(Run(FRESH, events[..last]), events[last]);
    }
  }

  // ---------------------------------------------------------------------
  // First in, first out
  // ---------------------------------------------------------------------

  /** The queued jobs that will be claimed before job `j`. */
  ghost function QueuedAhead(jobs: seq<Job>, j: nat): set<nat> {
    set i: nat | i < j && i < |jobs| && jobs[i].status.Queued?
  }

  lemma StepServesQueue(s: System, e: Event, j: nat)
    requires SystemInv(s)
    requires j < |s.tables.jobs| && j < |Step(s, e).tables.jobs| && Step(s, e).tables.jobs[j].status.Queued?
    ensures |Step(s, e).claimed| + |QueuedAhead(Step(s, e).tables.jobs, j)|
         == |s.claimed| + |QueuedAhead(s.tables.jobs, j)|
  {
    var s' := Step(s, e);
    var a, b := QueuedAhead(s.tables.jobs, j), QueuedAhead(s'.tables.jobs, j);
    if e == ClaimJob(true) && s' != s {
      ClaimContract(s.tables);
      assert s'.worker.job in a;
      assert b == a - {s'.worker.job};
    } else {
      QueuedUnchanged(s, e);
      assert b == a;
    }
  }

  /** Apart from claims, no step changes which of the existing jobs are queued. */
  lemma QueuedUnchanged(s: System, e: Event)
    requires SystemInv(s) && (e == ClaimJob(true) ==> Step(s, e) == s)
    ensures var s' := Step(s, e);
      && |s'.claimed| == |s.claimed| && |s.tables.jobs| <= |s'.tables.jobs|
      && forall i :: 0 <= i < |s.tables.jobs| ==> s'.tables.jobs[i].status.Queued? == s.tables.jobs[i].status.Queued?
  {
    if e.ApiRequest? {
      AdmitContract(s.tables, e.cert, e.kind, Queued);
    } else if e.Consider? && s.worker.Reconciling? && s.worker.todo != [] {
      AdmitContract(s.tables, s.worker.todo[0].cert, Scheduled, Queued);
    }
  }

  /** Main result: while a job waits, every claim is of a job ahead of it and
      nothing is ever put ahead of it, so it is claimed after exactly as many
      claims as there were queued jobs ahead. */
  lemma {:induction false} FirstInFirstOut(s: System, events: seq<Event>, j: nat)
    requires SystemInv(s) && j < |s.tables.jobs|
    requires j < |Run(s, events).tables.jobs| && Run(s, events).tables.jobs[j].status.Queued?
    ensures |Run(s, events).claimed| + |QueuedAhead(Run(s, events).tables.jobs, j)|
         == |s.claimed| + |QueuedAhead(s.tables.jobs, j)|
    decreases |events|
  {
    if events != [] {
      StepKeepsSystem(s, events[0]);
      RunKeepsSystem(Step(s, events[0]), events[1..]);
      StepServesQueue(s, events[0], j);
      FirstInFirstOut(Step(s, events[0]), events[1..], j);
    }
  }
}

/** When an issuance goes through: exactly which jobs get their order and their
    version and succeed, in terms of kind, configuration, tables and failing calls. */
module IssuanceCompletion {
  import opened IssuanceTables
  import opened IssuanceProtocol
  import opened IssuanceManagers
  import opened IssuanceSafety
  import opened ConfigurationDrift

  /** The check and the order, told from the row, the configuration and the calls. */
  lemma OrderedIff(s: System, job: nat, calls: Calls)
    requires s.worker == Started(job) && job < |s.tables.jobs|
    ensures var row, c, t := s.tables.jobs[job], s.config, s.tables.certs;
      var ordered :=
        && (row.kind == Initial || row.kind == Manual || row.kind == Scheduled)
        && row.cert in c && c[row.cert].enabled && row.cert in t && t[row.cert].enabled
        && calls.checkFault.None? && calls.setUpFault.None?;
      var s' := Step(Step(s, Check(calls.checkFault)), StartOrder(calls.setUpFault));
      && s'.tables == s.tables && s'.added == s.added && s'.claimed == s.claimed && s'.cancelled == s.cancelled
      && if ordered then s'.worker == Obtaining(job) && s'.obtained == s.obtained + [job]
         else s'.worker.Finishing? && s'.worker.job == job && s'.worker.error.Some? && s'.obtained == s.obtained
  {
  }

  /** The version is added exactly if no call fails after the order. */
  lemma SavedIff(s: System, job: nat, calls: Calls)
    requires s.worker == Obtaining(job) && job < |s.tables.jobs|
    requires s.tables.jobs[job].cert in s.tables.certs && s.tables.certs[s.tables.jobs[job].cert].enabled
    ensures var cert := s.tables.jobs[job].cert;
      var s' := Step(Step(s, Obtain(calls.obtainFault)), Persist(calls.persistFault, calls.version));
      && s'.tables.jobs == s.tables.jobs && s'.obtained == s.obtained && s'.claimed == s.claimed
      && s'.cancelled == s.cancelled && s'.worker.Finishing? && s'.worker.job == job
      && if calls.obtainFault.None? && calls.persistFault.None? then
           && s'.worker.error.None? && s'.added == s.added + [job]
           && s'.tables.versions == s.tables.versions + [calls.version.(cert := cert)]
           && s'.tables.certs == s.tables.certs[cert := s.tables.certs[cert].(health := Valid)]
         else s'.worker.error.Some? && s'.added == s.added && s'.tables == s.tables
  {
  }

  lemma EndedStays(s: System, calls: Calls)
    requires s.worker.Finishing?
    ensures Step(Step(s, Obtain(calls.obtainFault)), Persist(calls.persistFault, calls.version)) == s
  {
  }

  predicate EndsWith(s: string, end: string) {
    |end| <= |s| && s[|s| - |end|..] == end
  }

  /** An issuance that has ended is recorded: success as success, failure as failure, also in what is reported. */
  lemma RecordedIff(s: System, finishOk: bool)
    requires s.worker.Finishing? && s.worker.job < |s.tables.jobs|
    ensures var s', job := Step(Step(s, Conclude), FinishJob(finishOk)), s.worker.job;
      var jobs, jobs' := s.tables.jobs, s'.tables.jobs;
      && s'.worker == Ready && s'.tables.versions == s.tables.versions
      && s'.obtained == s.obtained && s'.added == s.added && s'.claimed == s.claimed
      && s'.tables.certs.Keys == s.tables.certs.Keys && |jobs'| == |jobs|
      && (forall i :: 0 <= i < |jobs| && i != job ==> jobs'[i] == jobs[i])
      && jobs'[job].cert == jobs[job].cert && jobs'[job].kind == jobs[job].kind
      && if !finishOk then s'.tables == s.tables
         else if s.worker.error.None? then
           jobs'[job].status == Succeeded && jobs'[job].error == "" && s'.tables.certs == s.tables.certs
         else
           && jobs'[job].status == Failed && EndsWith(jobs'[job].error, s.worker.error.value)
           && (jobs[job].cert in s.tables.certs ==>
                 s'.tables.certs[jobs[job].cert].health == Broken(jobs'[job].error))
  {
  }

  lemma IssueUnrolls(s: System, calls: Calls) returns (ordered: System, ended: System)
    ensures ordered == Step(Step(s, Check(calls.checkFault)), StartOrder(calls.setUpFault))
    ensures ended == Step(Step(ordered, Obtain(calls.obtainFault)), Persist(calls.persistFault, calls.version))
    ensures Run(s, IssueScript(calls)) == Step(Step(ended, Conclude), FinishJob(calls.finishOk))
  {
    ordered := AttemptUnrolls(s, calls);
    IssueRuns(s, calls);
    ended := Run(s, AttemptScript(calls));
  }

  /** Main result: for a claimed job exactly one order is started precisely when
      its kind is one of the three, its certificate is configured and enabled
      and enabled in the database, and nothing fails before; a version of its
      certificate is added precisely when nothing fails afterwards either; and
      it ends as succeeded precisely when moreover the outcome can be written.
      Otherwise it ends as failed, or running if the outcome cannot be written. */
  lemma IssuedIff(s: System, job: nat, calls: Calls)
    requires s.worker == Started(job) && job < |s.tables.jobs| && s.tables.jobs[job].status.Running?
    ensures var row, c, t := s.tables.jobs[job], s.config, s.tables.certs;
      var ordered :=
        && (row.kind == Initial || row.kind == Manual || row.kind == Scheduled)
        && row.cert in c && c[row.cert].enabled && row.cert in t && t[row.cert].enabled
        && calls.checkFault.None? && calls.setUpFault.None?;
      var delivered := ordered && calls.obtainFault.None? && calls.persistFault.None?;
      var s' := Run(s, IssueScript(calls));
      && s'.obtained == (if ordered then s.obtained + [job] else s.obtained)
      && s'.added == (if delivered then s.added + [job] else s.added)
      && s'.tables.versions
         == (if delivered then s.tables.versions + [calls.version.(cert := row.cert)] else s.tables.versions)
      && |s'.tables.jobs| == |s.tables.jobs|
      && (forall i :: 0 <= i < |s.tables.jobs| && i != job ==> s'.tables.jobs[i] == s.tables.jobs[i])
      && s'.tables.jobs[job].status
         == (if !calls.finishOk then Running else if delivered then Succeeded else Failed)
      && s'.worker == Ready && s'.claimed == s.claimed
  {
    var ordered, ended := IssueUnrolls(s, calls);
    OrderedIff(s, job, calls);
    if ordered.worker.Finishing? {
      EndedStays(ordered, calls);
    } else {
      SavedIff(ordered, job, calls);
    }
    RecordedIff(ended, calls.finishOk);
  }

  /** Main result: what a certificate reports follows its issuance: valid once
      the version is added, and the failure of its job once that is recorded. */
  lemma HealthFollowsIssue(s: System, job: nat, calls: Calls)
    requires s.worker == Started(job) && job < |s.tables.jobs| && s.tables.jobs[job].cert in s.tables.certs
    ensures var s', cert := Run(s, IssueScript(calls)), s.tables.jobs[job].cert;
      && cert in s'.tables.certs && |s'.tables.jobs| == |s.tables.jobs|
      && (|s'.tables.versions| > |s.tables.versions| ==> s'.tables.certs[cert].health == Valid)
      && (|s'.tables.versions| == |s.tables.versions| && calls.finishOk ==>
            s'.tables.certs[cert].health == Broken(s'.tables.jobs[job].error))
  {
    var ordered, ended := IssueUnrolls(s, calls);
    OrderedIff(s, job, calls);
    if ordered.worker.Finishing? {
      EndedStays(ordered, calls);
    } else {
      SavedIff(ordered, job, calls);
    }
    RecordedIff(ended, calls.finishOk);
  }

  /** A worker that is ready claims the first queued job. */
  lemma HeadIsClaimed(s: System, job: nat)
    requires s.worker.Ready? && job < |s.tables.jobs| && s.tables.jobs[job].status.Queued?
    requires forall i :: 0 <= i < job ==> !s.tables.jobs[i].status.Queued?
    ensures Step(s, ClaimJob(true)) == s.(
      worker := Started(job), claimed := s.claimed + [job],
      tables := s.tables.(jobs := s.tables.jobs[job := s.tables.jobs[job].(status := Running)]))
  {
    ClaimContract(s.tables);
  }

  /** Main result: if no call fails, the first queued job of a supported kind,
      for a certificate that is configured and enabled, is served next: one
      order, one version of its certificate, and success. */
  lemma QueueHeadIsIssued(s: System, job: nat, calls: Calls)
    requires s.worker.Ready? && job < |s.tables.jobs| && s.tables.jobs[job].status.Queued?
    requires forall i :: 0 <= i < job ==> !s.tables.jobs[i].status.Queued?
    requires var row, t := s.tables.jobs[job], s.tables.certs;
      && (row.kind == Initial || row.kind == Manual || row.kind == Scheduled)
      && row.cert in s.config && s.config[row.cert].enabled && row.cert in t && t[row.cert].enabled
    requires calls.checkFault.None? && calls.setUpFault.None? && calls.obtainFault.None? && calls.persistFault.None?
    requires calls.finishOk
    ensures var s', cert := Run(s, [ClaimJob(true)] + IssueScript(calls)), s.tables.jobs[job].cert;
      && s'.claimed == s.claimed + [job] && s'.obtained == s.obtained + [job] && s'.added == s.added + [job]
      && s'.tables.versions == s.tables.versions + [calls.version.(cert := cert)]
      && |s'.tables.jobs| == |s.tables.jobs| && s'.tables.jobs[job].status.Succeeded? && s'.worker == Ready
  {
    HeadIsClaimed(s, job);
    assert ([ClaimJob(true)] + IssueScript(calls))[1..] == IssueScript(calls);
    IssuedIff(Step(s, ClaimJob(true)), job, calls);
  }

  /** Main result: a server that starts takes over the configuration, marks
      what was left running, reconciles, and is then ready to claim. */
  lemma StartUpLeadsToReady(s: System, definitions: map<string, Definition>, names: seq<string>, look: string -> Look)
    requires s.worker.Down?
    requires forall c :: c in names ==> c in definitions && definitions[c].enabled
    ensures var up := Run(s, [Boot(definitions), RecoverJobs(true)]);
      && up.worker == Listing && up.config == definitions && !up.cancelled
      && |up.tables.jobs| == |s.tables.jobs|
      && (forall i :: 0 <= i < |s.tables.jobs| ==>
            if s.tables.jobs[i].status.Running?
            then up.tables.jobs[i].status.Failed? && IsInterrupted(up.tables.jobs[i])
            else up.tables.jobs[i] == s.tables.jobs[i])
      && ReconciledToReady(up, names, look)
  {
    var up := Run(s, [Boot(definitions), RecoverJobs(true)]);
    assert up == Step(Step(s, Boot(definitions)), RecoverJobs(true)) by {
      assert [Boot(definitions), RecoverJobs(true)][1..] == [RecoverJobs(true)];
      assert [RecoverJobs(true)][1..] == [];
    }
    ReconcileEndsReady(up, names, look);
  }

  /** After a reconciliation and one more turn of its loop the worker is ready. */
  ghost predicate ReconciledToReady(s: System, names: seq<string>, look: string -> Look) {
    forall last :: Run(s, ReconcileScript(names, look) + [Consider(last)]).worker == Ready
  }

  lemma {:induction false} ConsidersEnd(s: System, names: seq<string>, look: string -> Look)
    requires s.worker.Reconciling? && |s.worker.todo| == |names|
    ensures Run(s, ConsiderScript(names, look)).worker == Reconciling([])
    decreases |names|
  {
    if names != [] {
      assert ConsiderScript(names, look)[1..] == ConsiderScript(names[1..], look);
      ConsidersEnd(Step(s, Consider(look(names[0]))), names[1..], look);
    }
  }

  lemma ReconcileEndsReady(s: System, names: seq<string>, look: string -> Look)
    requires s.worker.Listing? && AllEnabled(s.tables, names)
    ensures ReconciledToReady(s, names, look)
  {
    var script := ReconcileScript(names, look);
    assert script[1..] == ConsiderScript(names, look);
    ConsidersEnd(Step(s, script[0]), names, look);
    forall last ensures Run(s, script + [Consider(last)]).worker == Ready {
      RunAppend(s, script, [Consider(last)]);
      assert [Consider(last)][1..] == [];
      assert Run(Run(s, script), [Consider(last)]) == Step(Run(s, script), Consider(last));
    }
  }

  /** Main result: a worker that is ready reconciles again at every tick, and is ready afterwards. */
  lemma TickReconciles(s: System, names: seq<string>, look: string -> Look)
    requires s.worker.Ready? && forall c :: c in names ==> Enabled(s.tables, c)
    ensures Step(s, Tick) == s.(worker := Listing) && ReconciledToReady(Step(s, Tick), names, look)
  {
    ReconcileEndsReady(Step(s, Tick), names, look);
  }

  /** Main result: a caller's request is queued, whatever the worker is doing,
      if the certificate is configured and enabled, has no job pending, and
      fewer than 64 are pending in all. */
  lemma RequestIsQueued(s: System, cert: string, kind: Kind)
    requires !s.worker.Down? && (kind == Initial || kind == Manual)
    requires cert in s.config && s.config[cert].enabled && cert in s.tables.certs && s.tables.certs[cert].enabled
    requires forall i :: 0 <= i < |s.tables.jobs| && s.tables.jobs[i].cert == cert ==> !IsPending(s.tables.jobs[i])
    requires |PendingIds(s.tables.jobs)| < 64
    ensures Step(s, ApiRequest(cert, kind))
         == s.(tables := s.tables.(jobs := s.tables.jobs + [Job(cert, kind, Queued, "")]))
  {
    AdmitContract(s.tables, cert, kind, Queued);
  }
}

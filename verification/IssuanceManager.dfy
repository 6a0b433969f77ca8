/** The database, the repositories' transactions on it, and the manager that
    drives them: the sequential code behind the events of `IssuanceProtocol`. */
module IssuanceManagers {
  import opened Prelude
  import T = IssuanceTables
  import opened IssuanceProtocol
  import Drift = ConfigurationDrift

  /** The definitions of a configuration by name. */
  function DefinitionMap(definitions: seq<(string, T.Definition)>): map<string, T.Definition> {
    if definitions == [] then map[] else
      var (name, definition) := definitions[|definitions| - 1];
      DefinitionMap(definitions[..|definitions| - 1])[name := definition]
  }

  class Database {
    var certs: map<string, T.CertRow>
    var jobs: seq<T.Job>
    var versions: seq<T.Version>

    ghost function Contents(): T.Tables
      reads this
    {
      T.Tables(certs, jobs, versions)
    }

    constructor ()
      ensures Contents() == T.Tables(map[], [], [])
    {
      certs, jobs, versions := map[], [], [];
    }

    /** `admit`: one transaction for deduplication, the queue bound and creation. */
    method Admit(cert: string, kind: T.Kind, status: T.Status) returns (r: T.Admission)
      modifies `jobs
      ensures (Contents(), r) == T.Admit(old(Contents()), cert, kind, status)
    {
      if !(cert in certs && certs[cert].enabled) {
        return T.NotFound;
      }
      var existing := T.FirstPending(jobs, cert);
      if existing.Some? {
        return T.Existing(existing.value);
      }
      if |T.PendingIds(jobs)| >= T.MAX_PENDING {
        return T.QueueFull;
      }
      r := T.Created(|jobs|);
      jobs := jobs + [T.Job(cert, kind, status, "")];
    }

    /** Synchronous issuance: only a job of one's own will do. */
    method Start(cert: string, kind: T.Kind) returns (id: Option<nat>)
      modifies `jobs
      ensures var (t, r) := T.Admit(old(Contents()), cert, kind, T.Running);
        Contents() == t && id == if r.Created? then Some(r.newId) else None
    {
      var r := Admit(cert, kind, T.Running);
      id := if r.Created? then Some(r.newId) else None;
    }

    method Claim() returns (id: Option<nat>)
      modifies `jobs
      ensures (Contents(), id) == T.Claim(old(Contents()))
    {
      id := T.FirstQueued(jobs);
      if id.Some? {
        jobs := jobs[id.value := jobs[id.value].(status := T.Running)];
      }
    }

    /** One statement updates every running row; here they are visited in order. */
    method RecoverInterrupted()
      modifies `jobs
      ensures Contents() == T.Recover(old(Contents()))
    {
      var i := 0;
      while i < |jobs|
        invariant 0 <= i <= |jobs| == |old(jobs)|
        invariant forall k :: 0 <= k < i ==> jobs[k] == T.Interrupt(old(jobs)[k])
        invariant forall k :: i <= k < |jobs| ==> jobs[k] == old(jobs)[k]
      {
        if jobs[i].status.Running? {
          jobs := jobs[i := jobs[i].(status := T.Failed, error := T.INTERRUPTED)];
        }
        i := i + 1;
      }
    }

    method Finish(id: nat, error: Option<string>)
      requires id < |jobs|
      modifies `jobs, `certs
      ensures Contents() == T.Finish(old(Contents()), id, error)
    {
      var status, message := if error.None? then T.Succeeded else T.Failed, if error.None? then "" else error.value;
      jobs := jobs[id := jobs[id].(status := status, error := message)];
      if error.Some? && jobs[id].cert in certs {
        var cert := jobs[id].cert;
        certs := certs[cert := certs[cert].(health := T.Broken(message))];
      }
    }

    method AddVersion(v: T.Version) returns (ok: bool)
      modifies `versions, `certs
      ensures var t := T.AddVersion(old(Contents()), v);
        ok == t.Some? && Contents() == if ok then t.value else old(Contents())
    {
      if !(v.cert in certs && certs[v.cert].enabled) {
        return false;
      }
      versions := versions + [v];
      certs := certs[v.cert := certs[v.cert].(health := T.Valid)];
      ok := true;
    }

    /** Upserts every definition, then disables whatever was not defined. */
    method Reconcile(definitions: seq<(string, T.Definition)>)
      modifies `certs
      ensures certs == T.Configure(old(certs), DefinitionMap(definitions))
    {
      ghost var was := certs;
      var i, names := 0, {};
      while i < |definitions|
        invariant 0 <= i <= |definitions|
        invariant names == DefinitionMap(definitions[..i]).Keys
        invariant certs.Keys == was.Keys + names
        invariant forall c :: c in certs ==>
          certs[c] == (if c in names then T.Upserted(was, c, DefinitionMap(definitions[..i])[c]) else was[c])
      {
        var (name, definition) := definitions[i];
        assert definitions[..i + 1][..i] == definitions[..i];
        certs := certs[name := T.Upserted(certs, name, definition)];
        names := names + {name};
        i := i + 1;
      }
      assert definitions[..i] == definitions;
      certs := map c | c in certs :: if c in names then certs[c] else certs[c].(enabled := false);
    }

    /** The latest job of each certificate, from the rows with the highest id of their certificate. */
    method LatestJobs(names: seq<string>) returns (latest: map<string, T.Job>)
      ensures forall c :: c in latest <==> c in names && T.LatestJob(jobs, c).Some?
      ensures forall c :: c in latest ==> latest[c] == jobs[T.LatestJob(jobs, c).value]
    {
      latest := map[];
      var i := 0;
      while i < |names|
        invariant 0 <= i <= |names|
        invariant forall c :: c in latest <==> c in names[..i] && T.LatestJob(jobs, c).Some?
        invariant forall c :: c in latest ==> latest[c] == jobs[T.LatestJob(jobs, c).value]
      {
        var id := T.LatestJob(jobs, names[i]);
        if id.Some? {
          latest := latest[names[i] := jobs[id.value]];
        }
        i := i + 1;
      }
    }

    /** The current version of each certificate. */
    method CurrentVersions(names: seq<string>) returns (current: map<string, T.Version>)
      ensures forall c :: c in current <==> c in names && T.CurrentVersion(versions, c).Some?
      ensures forall c :: c in current ==> current[c] == versions[T.CurrentVersion(versions, c).value]
    {
      current := map[];
      var i := 0;
      while i < |names|
        invariant 0 <= i <= |names|
        invariant forall c :: c in current <==> c in names[..i] && T.CurrentVersion(versions, c).Some?
        invariant forall c :: c in current ==> current[c] == versions[T.CurrentVersion(versions, c).value]
      {
        var id := T.CurrentVersion(versions, names[i]);
        if id.Some? {
          current := current[names[i] := versions[id.value]];
        }
        i := i + 1;
      }
    }

    method EnabledNames() returns (names: seq<string>)
      ensures forall c :: c in names <==> T.Enabled(Contents(), c)
    {
      names := [];
      var rest := certs.Keys;
      while rest != {}
        invariant rest <= certs.Keys
        invariant forall c :: c in names <==> c in certs.Keys - rest && certs[c].enabled
        decreases rest
      {
        var c :| c in rest;
        if certs[c].enabled {
          names := names + [c];
        }
        rest := rest - {c};
      }
    }

    /** The enabled certificates, each with its latest job and its current version. */
    method List() returns (names: seq<string>, listed: seq<Listed>)
      ensures forall c :: c in names <==> T.Enabled(Contents(), c)
      ensures listed == ListingOf(Contents(), names)
    {
      names := EnabledNames();
      var latest := LatestJobs(names);
      var current := CurrentVersions(names);
      listed := [];
      var i := 0;
      while i < |names|
        invariant 0 <= i <= |names| && |listed| == i && AllEnabled(Contents(), names)
        invariant forall k :: 0 <= k < i ==> listed[k] == ListingOf(Contents(), names)[k]
      {
        var name := names[i];
        assert name in names && T.Enabled(Contents(), name);
        listed := listed + [Listed(
          name,
          certs[name].terms,
          if name in latest then Some(latest[name]) else None,
          if name in current then Some(current[name]) else None)];
        i := i + 1;
      }
    }
  }

  /** The reconciliation of the given certificates as a run of the protocol. */
  function ReconcileScript(names: seq<string>, look: string -> Drift.Look): seq<Event> {
    [ListCertificates(true, names)] + ConsiderScript(names, look)
  }

  function ConsiderScript(names: seq<string>, look: string -> Drift.Look): seq<Event> {
    seq(|names|, i requires 0 <= i < |names| => Consider(look(names[i])))
  }

  /** What the calls of one issuance outside the model come to. */
  datatype Calls = Calls(
    checkFault: Option<string>,
    setUpFault: Option<string>,
    obtainFault: Option<string>,
    persistFault: Option<string>,
    version: T.Version,
    finishOk: bool)

  /** All steps of an issuance but the deferred ones. */
  function AttemptScript(calls: Calls): seq<Event> {
    [Check(calls.checkFault),
     StartOrder(calls.setUpFault),
     Obtain(calls.obtainFault),
     Persist(calls.persistFault, calls.version)]
  }

  /** No call outside the model fails before the version is added. */
  predicate NoFaults(calls: Calls) {
    calls.checkFault.None? && calls.setUpFault.None? && calls.obtainFault.None? && calls.persistFault.None?
  }

  function IssueScript(calls: Calls): seq<Event> {
    AttemptScript(calls) + [Conclude, FinishJob(calls.finishOk)]
  }

  /** The error of the first call that fails. */
  function AttemptError(s: System, row: T.Job, calls: Calls): Option<string> {
    var error := CheckError(s, row, calls.checkFault);
    if error.Some? then error
    else if calls.setUpFault.Some? then calls.setUpFault
    else if calls.obtainFault.Some? then calls.obtainFault
    else calls.persistFault
  }

  class Manager {
    const database: Database
    var config: map<string, T.Definition>
    var cancelled: bool

    /** The manager and its database as a state of the protocol, with an empty record of the past. */
    ghost function At(w: Worker): System
      reads this, database
    {
      System(database.Contents(), w, cancelled, config, [], [], [])
    }

    constructor (database: Database, config: map<string, T.Definition>)
      ensures this.database == database && this.config == config && !cancelled
    {
      this.database, this.config, this.cancelled := database, config, false;
    }

    method Enqueue(cert: string, kind: T.Kind) returns (r: Option<T.Admission>)
      modifies database`jobs
      ensures var s := old(At(Ready));
        At(Ready) == IssuanceProtocol.Enqueue(s, cert, kind)
        && r == if Issuable(config, cert, kind) then Some(T.Admit(s.tables, cert, kind, T.Queued).1) else None
      ensures r.Some? <==>
        (kind == T.Initial || kind == T.Manual || kind == T.Scheduled) && cert in config && config[cert].enabled
    {
      if kind.Unsupported? || cert !in config || !config[cert].enabled {
        return None;
      }
      var admission := database.Admit(cert, kind, T.Queued);
      r := Some(admission);
    }

    /** Enqueues a scheduled job for every listed certificate that is automatic,
        due and not interrupted. */
    method Reconcile(look: string -> Drift.Look) returns (names: seq<string>)
      modifies database`jobs
      ensures forall c :: c in names <==> T.Enabled(old(database.Contents()), c)
      ensures At(Reconciling([])) == Run(old(At(Listing)), ReconcileScript(names, look))
    {
      ghost var start := At(Listing);
      var listed: seq<Listed>;
      names, listed := database.List();
      ghost var considers := ConsiderScript(names, look);
      ghost var first := Step(start, ListCertificates(true, names));
      var i := 0;
      while i < |listed|
        invariant 0 <= i <= |listed| && |listed| == |names|
        invariant At(Reconciling(listed[i..])) == Run(first, considers[..i])
      {
        var c := listed[i];
        assert [c] + listed[i + 1..] == listed[i..];
        Visit(c, listed[i + 1..], look(c.cert));
        RunOneMore(first, considers, i);
        i := i + 1;
      }
      assert considers[..i] == considers && listed[i..] == [];
      RunAppend(start, [ListCertificates(true, names)], considers);
    }

    /** The body of the loop over the listed certificates, of which `rest` are still to come. */
    method Visit(c: Listed, ghost rest: seq<Listed>, look: Drift.Look)
      modifies database`jobs
      ensures At(Reconciling(rest)) == Step(old(At(Reconciling([c] + rest))), Consider(look))
    {
      ghost var before := At(Reconciling([c] + rest));
      assert ([c] + rest)[1..] == rest;
      if c.cert in config && config[c.cert].automatic
         && !(c.latest.Some? && T.INTERRUPTED <= c.latest.value.error) {
        var decision := Drift.Decide(c.terms, c.current, look);
        assert decision == Drift.Issue <==> Schedules(config, c, look);
        if decision == Drift.Issue {
          var _ := Enqueue(c.cert, T.Scheduled);
        }
      }
    }

    /** One issuance, from a claimed job to its finished row. */
    method Issue(job: nat, calls: Calls) returns (result: Option<string>)
      requires job < |database.jobs|
      modifies database
      ensures database.Contents() == Run(old(At(Started(job))), IssueScript(calls)).tables
      ensures var row, certs := old(database.jobs[job]), old(database.certs);
        result.None? <==>
          && (row.kind == T.Initial || row.kind == T.Manual || row.kind == T.Scheduled)
          && row.cert in config && config[row.cert].enabled && row.cert in certs && certs[row.cert].enabled
          && NoFaults(calls) && calls.finishOk
      ensures result.None? ==>
        && database.versions == old(database.versions) + [calls.version.(cert := old(database.jobs[job].cert))]
        && |database.jobs| == |old(database.jobs)| && database.jobs[job].status == T.Succeeded
      ensures result.Some? && calls.finishOk ==>
        && database.versions == old(database.versions)
        && |database.jobs| == |old(database.jobs)| && database.jobs[job].status == T.Failed
    {
      ghost var s := At(Started(job));
      result := Attempt(job, calls);
      IssueRuns(s, calls);
      if cancelled && result.Some? {
        result := Some(T.INTERRUPTED + ": " + result.value);
      }
      if calls.finishOk {
        database.Finish(job, result);
      } else {
        result := Some("finish issuance job");
      }
    }

    /** The body of an issuance, without the deferred finish. */
    method Attempt(job: nat, calls: Calls) returns (result: Option<string>)
      requires job < |database.jobs|
      modifies database
      ensures config == old(config) && cancelled == old(cancelled)
      ensures var s, s' := old(At(Started(job))), Run(old(At(Started(job))), AttemptScript(calls));
        && s'.tables == database.Contents() && s'.worker == Finishing(job, result) && s'.cancelled == s.cancelled
        && |database.jobs| == |old(database.jobs)|
      ensures var row, certs := old(database.jobs[job]), old(database.certs);
        result.None? <==>
          && (row.kind == T.Initial || row.kind == T.Manual || row.kind == T.Scheduled)
          && row.cert in config && config[row.cert].enabled && row.cert in certs && certs[row.cert].enabled
          && NoFaults(calls)
      ensures database.versions == old(database.versions)
        + if result.None? then [calls.version.(cert := old(database.jobs[job].cert))] else []
    {
      var row := database.jobs[job];
      AttemptRuns(At(Started(job)), job, calls);
      if row.kind.Unsupported? {
        return Some("unsupported issuance kind");
      }
      if row.cert !in config || !config[row.cert].enabled {
        return Some("certificate is not configured");
      }
      if !(row.cert in database.certs && database.certs[row.cert].enabled) {
        return Some("record not found");
      }
      if calls.checkFault.Some? {
        return calls.checkFault;
      }
      if calls.setUpFault.Some? {
        return calls.setUpFault;
      }
      if calls.obtainFault.Some? {
        return calls.obtainFault;
      }
      if calls.persistFault.Some? {
        return calls.persistFault;
      }
      var ok := database.AddVersion(calls.version.(cert := row.cert));
      result := if ok then None else Some("record not found");
    }
  }

  lemma RunOneMore(s: System, events: seq<Event>, i: nat)
    requires i < |events|
    ensures Run(s, events[..i + 1]) == Step(Run(s, events[..i]), events[i])
  {
    assert events[..i + 1] == events[..i] + [events[i]];
    RunAppend(s, events[..i], [events[i]]);
    assert [events[i]][1..] == [];
  }

  lemma CheckRuns(s: System, job: nat, calls: Calls)
    requires s.worker == Started(job) && job < |s.tables.jobs|
    ensures var error := CheckError(s, s.tables.jobs[job], calls.checkFault);
      var s' := Step(Step(s, Check(calls.checkFault)), StartOrder(calls.setUpFault));
      && s'.tables == s.tables && s'.cancelled == s.cancelled
      && s'.worker == if error.Some? then Finishing(job, error)
                      else if calls.setUpFault.Some? then Finishing(job, calls.setUpFault)
                      else Obtaining(job)
  {
  }

  lemma OrderRuns(s: System, job: nat, calls: Calls)
    requires ActiveOrEnded(s, job) && job < |s.tables.jobs|
    ensures var s' := Step(Step(s, Obtain(calls.obtainFault)), Persist(calls.persistFault, calls.version));
      var fault := if calls.obtainFault.Some? then calls.obtainFault else calls.persistFault;
      var added := T.AddVersion(s.tables, calls.version.(cert := s.tables.jobs[job].cert));
      && s'.cancelled == s.cancelled
      && if s.worker.Finishing? then s'.worker == s.worker && s'.tables == s.tables
         else if fault.Some? then s'.worker == Finishing(job, fault) && s'.tables == s.tables
         else if added.None? then s'.worker == Finishing(job, Some("record not found")) && s'.tables == s.tables
         else s'.worker == Finishing(job, None) && s'.tables == added.value
  {
  }

  predicate ActiveOrEnded(s: System, job: nat) {
    s.worker == Obtaining(job) || (s.worker.Finishing? && s.worker.job == job)
  }

  /** The attempt stops at the first call that fails, and otherwise adds the version. */
  lemma AttemptRuns(s: System, job: nat, calls: Calls)
    requires s.worker == Started(job) && job < |s.tables.jobs|
    ensures var s' := Run(s, AttemptScript(calls));
      var error := AttemptError(s, s.tables.jobs[job], calls);
      var added := T.AddVersion(s.tables, calls.version.(cert := s.tables.jobs[job].cert));
      && s'.cancelled == s.cancelled
      && if error.Some? then s'.worker == Finishing(job, error) && s'.tables == s.tables
         else if added.None? then s'.worker == Finishing(job, Some("record not found")) && s'.tables == s.tables
         else s'.worker == Finishing(job, None) && s'.tables == added.value
  {
    CheckRuns(s, job, calls);
    var ordered := AttemptUnrolls(s, calls);
    OrderRuns(ordered, job, calls);
  }

  lemma AttemptUnrolls(s: System, calls: Calls) returns (ordered: System)
    ensures ordered == Step(Step(s, Check(calls.checkFault)), StartOrder(calls.setUpFault))
    ensures Run(s, AttemptScript(calls))
         == Step(Step(ordered, Obtain(calls.obtainFault)), Persist(calls.persistFault, calls.version))
  {
    var e := AttemptScript(calls);
    assert e[..0] == [] && e[..4] == e;
    RunOneMore(s, e, 0);
    RunOneMore(s, e, 1);
    RunOneMore(s, e, 2);
    RunOneMore(s, e, 3);
    ordered := Run(s, e[..2]);
  }

  lemma IssueRuns(s: System, calls: Calls)
    ensures Run(s, IssueScript(calls)) == Step(Step(Run(s, AttemptScript(calls)), Conclude), FinishJob(calls.finishOk))
  {
    var attempted := AttemptScript(calls);
    RunAppend(s, attempted, [Conclude, FinishJob(calls.finishOk)]);
    var e := [Conclude, FinishJob(calls.finishOk)];
    assert e[..0] == [] && e[..2] == e;
    RunOneMore(Run(s, attempted), e, 0);
    RunOneMore(Run(s, attempted), e, 1);
  }
}

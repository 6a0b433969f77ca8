/** One server over one database: API callers admit jobs, the single worker
    recovers, reconciles, claims, issues and finishes, and the process may be
    cancelled or crash between any two actions and be started again. */
module IssuanceProtocol {
  import opened Prelude
  import opened IssuanceTables
  import Drift = ConfigurationDrift

  /** A certificate as listed for reconciliation, with its latest job and its current version at that time. */
  datatype Listed = Listed(cert: string, terms: Terms, latest: Option<Job>, current: Option<Version>)

  /** Where the worker is. `Started`: the job is claimed. `Checked`: its
      certificate was read as enabled. `Obtaining`: the ACME order is under way.
      `Persisting`: artifacts are saved. `Finishing`: the issuance has ended.
      `Recording`: it is settled what will be written to the row. */
  datatype Worker =
    | Down
    | Recovering
    | Listing
    | Reconciling(todo: seq<Listed>)
    | Ready
    | Started(job: nat)
    | Checked(job: nat)
    | Obtaining(job: nat)
    | Persisting(job: nat)
    | Finishing(job: nat, error: Option<string>)
    | Recording(job: nat, outcome: Option<string>)

  /** `claimed`, `obtained` and `added` record every claim, every ACME order
      started and the job behind every version, over the whole life of the database. */
  datatype System = System(
    tables: Tables,
    worker: Worker,
    cancelled: bool,
    config: map<string, Definition>,
    claimed: seq<nat>,
    obtained: seq<nat>,
    added: seq<nat>)

  const FRESH := System(Tables(map[], [], []), Down, false, map[], [], [], [])

  /** Failures of calls outside the model are part of the event. An event that
      does not fit the worker's position changes nothing. */
  datatype Event =
    | Boot(definitions: map<string, Definition>)
    | Crash
    | Cancel
    | Reconfigure(definitions: map<string, Definition>)
    | ApiRequest(cert: string, kind: Kind)
    | RecoverJobs(ok: bool)
    | ListCertificates(ok: bool, names: seq<string>)
    | Consider(look: Drift.Look)
    | Tick
    | ClaimJob(ok: bool)
    | Check(fault: Option<string>)
    | StartOrder(fault: Option<string>)
    | Obtain(fault: Option<string>)
    | Persist(fault: Option<string>, version: Version)
    | Conclude
    | FinishJob(ok: bool)

  /** Supported kind, and a certificate that the configuration has and enables. */
  predicate Issuable(config: map<string, Definition>, cert: string, kind: Kind) {
    !kind.Unsupported? && cert in config && config[cert].enabled
  }

  function Enqueue(s: System, cert: string, kind: Kind): System {
    if Issuable(s.config, cert, kind) then s.(tables := Admit(s.tables, cert, kind, Queued).0) else s
  }

  function Entry(t: Tables, cert: string): Listed
    requires cert in t.certs
  {
    var latest, current := LatestJob(t.jobs, cert), CurrentVersion(t.versions, cert);
    Listed(
      cert,
      t.certs[cert].terms,
      if latest.Some? then Some(t.jobs[latest.value]) else None,
      if current.Some? then Some(t.versions[current.value]) else None)
  }

  predicate AllEnabled(t: Tables, names: seq<string>) {
    forall c :: c in names ==> Enabled(t, c)
  }

  function ListingOf(t: Tables, names: seq<string>): seq<Listed>
    requires AllEnabled(t, names)
  {
    seq(|names|, i requires 0 <= i < |names| => assert names[i] in names; Entry(t, names[i]))
  }

  /** The scheduler leaves alone what is not automatic, what was interrupted and what is not due. */
  predicate Schedules(config: map<string, Definition>, l: Listed, look: Drift.Look) {
    && l.cert in config && config[l.cert].automatic
    && !(l.latest.Some? && IsInterrupted(l.latest.value))
    && Drift.IsDue(l.terms, l.current, look)
  }

  /** An error that surfaces after cancellation marks the job as interrupted. */
  function Outcome(s: System, error: Option<string>): Option<string> {
    if s.cancelled && error.Some? then Some(INTERRUPTED + ": " + error.value) else error
  }

  function CheckError(s: System, job: Job, fault: Option<string>): Option<string> {
    if job.kind.Unsupported? then Some("unsupported issuance kind")
    else if !Issuable(s.config, job.cert, job.kind) then Some("certificate is not configured")
    else if !Enabled(s.tables, job.cert) then Some("record not found")
    else fault
  }

  /** One step. An event that is not possible where the worker stands changes
      nothing; the API asks for manual and other jobs, never for scheduled ones. */
  function Step(s: System, e: Event): System {
    match e
    case Boot(definitions) =>
      if !s.worker.Down? then s
      else s.(tables := s.tables.(certs := Configure(s.tables.certs, definitions)),
              worker := Recovering, cancelled := false, config := definitions)
    case Crash => s.(worker := Down)
    case Cancel => s.(cancelled := true)
    case Reconfigure(definitions) => s.(tables := s.tables.(certs := Configure(s.tables.certs, definitions)))
    case ApiRequest(cert, kind) => if s.worker.Down? || kind.Scheduled? then s else Enqueue(s, cert, kind)
    case RecoverJobs(ok) =>
      if s.worker.Recovering? && ok then s.(tables := Recover(s.tables), worker := Listing) else s
    case ListCertificates(ok, names) =>
      if !s.worker.Listing? || !AllEnabled(s.tables, names) then s
      else if ok then s.(worker := Reconciling(ListingOf(s.tables, names)))
      else s.(worker := Ready)
    case Consider(look) =>
      if !s.worker.Reconciling? then s
      else if s.worker.todo == [] then s.(worker := Ready)
      else
        var l, rest := s.worker.todo[0], s.(worker := Reconciling(s.worker.todo[1..]));
        if Schedules(s.config, l, look) then Enqueue(rest, l.cert, Scheduled) else rest
    case Tick => if s.worker.Ready? then s.(worker := Listing) else s
    case ClaimJob(ok) =>
      if !s.worker.Ready? || !ok then s
      else
        var (t, id) := Claim(s.tables);
        if id.None? then s
        else s.(tables := t, worker := Started(id.value), claimed := s.claimed + [id.value])
    case Check(fault) =>
      if !s.worker.Started? || s.worker.job >= |s.tables.jobs| then s
      else
        var error := CheckError(s, s.tables.jobs[s.worker.job], fault);
        if error.Some? then s.(worker := Finishing(s.worker.job, error))
        else s.(worker := Checked(s.worker.job))
    case StartOrder(fault) =>
      if !s.worker.Checked? then s
      else if fault.Some? then s.(worker := Finishing(s.worker.job, fault))
      else s.(worker := Obtaining(s.worker.job), obtained := s.obtained + [s.worker.job])
    case Obtain(fault) =>
      if !s.worker.Obtaining? then s
      else if fault.Some? then s.(worker := Finishing(s.worker.job, fault))
      else s.(worker := Persisting(s.worker.job))
    case Persist(fault, version) =>
      if !s.worker.Persisting? || s.worker.job >= |s.tables.jobs| then s
      else if fault.Some? then s.(worker := Finishing(s.worker.job, fault))
      else
        var t := AddVersion(s.tables, version.(cert := s.tables.jobs[s.worker.job].cert));
        if t.None? then s.(worker := Finishing(s.worker.job, Some("record not found")))
        else s.(tables := t.value, worker := Finishing(s.worker.job, None), added := s.added + [s.worker.job])
    case Conclude =>
      if !s.worker.Finishing? then s
      else s.(worker := Recording(s.worker.job, Outcome(s, s.worker.error)))
    case FinishJob(ok) =>
      if !s.worker.Recording? || s.worker.job >= |s.tables.jobs| then s
      else if !ok then s.(worker := Ready)
      else s.(tables := Finish(s.tables, s.worker.job, s.worker.outcome), worker := Ready)
  }

  function Run(s: System, events: seq<Event>): System
    decreases |events|
  {
    if events == [] then s else Run(Step(s, events[0]), events[1..])
  }

  lemma {:induction false} RunAppend(s: System, a: seq<Event>, b: seq<Event>)
    ensures Run(s, a + b) == Run(Run(s, a), b)
    decreases |a|
  {
    if a == [] {
      assert a + b == b;
    } else {
      assert (a + b)[0] == a[0] && (a + b)[1..] == a[1..] + b;
      RunAppend(Step(s, a[0]), a[1..], b);
    }
  }
}

/** The certificate, job and version tables, and what each transaction on them
    does. Rows are never deleted and ids are handed out in order, so a row's id
    is its index. Transactions are atomic: the pool holds a single connection. */
module IssuanceTables {
  import opened Prelude

  const MAX_PENDING := 64
  const INTERRUPTED := "issuance interrupted by process restart; external ACME outcome may be unknown"

  datatype Kind = Initial | Manual | Scheduled | Unsupported(name: string)

  datatype Status = Queued | Running | Succeeded | Failed

  datatype Job = Job(cert: string, kind: Kind, status: Status, error: string)

  /** `createdAt` and `notAfter` are in seconds. */
  datatype Version = Version(cert: string, createdAt: int, notAfter: int, domains: seq<string>, keyType: string)

  datatype Health = Pending | Valid | Broken(message: string)

  const DEFAULT_KEY_TYPE := "ec256"
  const DEFAULT_RENEW_BEFORE := 2592000

  /** What is asked for: the names, the key type, and how many seconds before
      its end a certificate is renewed. */
  datatype Terms = Terms(domains: seq<string>, keyType: string, renewBefore: int)

  datatype CertRow = CertRow(enabled: bool, health: Health, terms: Terms)

  /** A certificate definition of the loaded configuration: whether it is
      enabled, whether it is to be issued automatically, and what it asks for. */
  datatype Definition = Definition(enabled: bool, automatic: bool, terms: Terms)

  datatype Tables = Tables(certs: map<string, CertRow>, jobs: seq<Job>, versions: seq<Version>)

  datatype Admission = NotFound | QueueFull | Existing(id: nat) | Created(newId: nat)

  predicate Enabled(t: Tables, cert: string) {
    cert in t.certs && t.certs[cert].enabled
  }

  predicate IsPending(j: Job) {
    j.status.Queued? || j.status.Running?
  }

  predicate IsInterrupted(j: Job) {
    INTERRUPTED <= j.error
  }

  /** The lowest row that satisfies `p`. */
  function First(jobs: seq<Job>, p: Job -> bool): (r: Option<nat>)
    ensures r.None? ==> forall i :: 0 <= i < |jobs| ==> !p(jobs[i])
    ensures r.Some? ==> r.value < |jobs| && p(jobs[r.value]) && forall i :: 0 <= i < r.value ==> !p(jobs[i])
  {
    if jobs == [] then None else
      var last := |jobs| - 1;
      var r := First(jobs[..last], p);
      if r.Some? then r else if p(jobs[last]) then Some(last) else None
  }

  /** The highest row that satisfies `p`. */
  function Last(jobs: seq<Job>, p: Job -> bool): (r: Option<nat>)
    ensures r.None? ==> forall i :: 0 <= i < |jobs| ==> !p(jobs[i])
    ensures r.Some? ==> r.value < |jobs| && p(jobs[r.value]) && forall i :: r.value < i < |jobs| ==> !p(jobs[i])
  {
    if jobs == [] then None else
      var last := |jobs| - 1;
      if p(jobs[last]) then Some(last) else Last(jobs[..last], p)
  }

  function PendingIds(jobs: seq<Job>): set<nat> {
    set i: nat | i < |jobs| && IsPending(jobs[i])
  }

  function FirstPending(jobs: seq<Job>, cert: string): Option<nat> {
    First(jobs, (j: Job) => j.cert == cert && IsPending(j))
  }

  function FirstQueued(jobs: seq<Job>): Option<nat> {
    First(jobs, (j: Job) => j.status.Queued?)
  }

  function LatestJob(jobs: seq<Job>, cert: string): Option<nat> {
    Last(jobs, (j: Job) => j.cert == cert)
  }

  /** Admission of a job in the given initial status. */
  function Admit(t: Tables, cert: string, kind: Kind, status: Status): (Tables, Admission) {
    if !Enabled(t, cert) then (t, NotFound)
    else
      var existing := FirstPending(t.jobs, cert);
      if existing.Some? then (t, Existing(existing.value))
      else if |PendingIds(t.jobs)| >= MAX_PENDING then (t, QueueFull)
      else (t.(jobs := t.jobs + [Job(cert, kind, status, "")]), Created(|t.jobs|))
  }

  function SetStatus(jobs: seq<Job>, id: nat, status: Status, error: string): seq<Job>
    requires id < |jobs|
  {
    jobs[id := jobs[id].(status := status, error := error)]
  }

  function Claim(t: Tables): (Tables, Option<nat>) {
    var id := FirstQueued(t.jobs);
    if id.None? then (t, None)
    else (t.(jobs := SetStatus(t.jobs, id.value, Running, t.jobs[id.value].error)), id)
  }

  function Interrupt(j: Job): Job {
    if j.status.Running? then j.(status := Failed, error := INTERRUPTED) else j
  }

  function Recover(t: Tables): Tables {
    t.(jobs := seq(|t.jobs|, i requires 0 <= i < |t.jobs| => Interrupt(t.jobs[i])))
  }

  function SetHealth(certs: map<string, CertRow>, cert: string, health: Health): map<string, CertRow> {
    if cert in certs then certs[cert := certs[cert].(health := health)] else certs
  }

  /** The outcome of a job; the row is written whatever its status is. */
  function Finish(t: Tables, id: nat, error: Option<string>): Tables
    requires id < |t.jobs|
  {
    match error
    case None => t.(jobs := SetStatus(t.jobs, id, Succeeded, ""))
    case Some(message) =>
      t.(jobs := SetStatus(t.jobs, id, Failed, message),
         certs := SetHealth(t.certs, t.jobs[id].cert, Broken(message)))
  }

  /** A version can only be added to an enabled certificate. */
  function AddVersion(t: Tables, v: Version): Option<Tables> {
    if !Enabled(t, v.cert) then None
    else Some(t.(versions := t.versions + [v], certs := SetHealth(t.certs, v.cert, Valid)))
  }

  /** Terms with the defaults for what is left out. */
  function Effective(terms: Terms): Terms {
    Terms(
      terms.domains,
      if terms.keyType == "" then DEFAULT_KEY_TYPE else terms.keyType,
      if terms.renewBefore == 0 then DEFAULT_RENEW_BEFORE else terms.renewBefore)
  }

  /** The row of a certificate once it is configured. */
  function Upserted(certs: map<string, CertRow>, cert: string, definition: Definition): CertRow {
    CertRow(definition.enabled, if cert in certs then certs[cert].health else Pending, Effective(definition.terms))
  }

  /** Configured certificates are inserted or updated, all others disabled. */
  function Configure(certs: map<string, CertRow>, definitions: map<string, Definition>): map<string, CertRow> {
    map c | c in certs.Keys + definitions.Keys ::
      if c in definitions then Upserted(certs, c, definitions[c]) else certs[c].(enabled := false)
  }

  /** Versions are ordered by creation time, then by id. */
  predicate Newer(versions: seq<Version>, i: nat, k: nat)
    requires i < |versions| && k < |versions|
  {
    versions[k].createdAt < versions[i].createdAt || (versions[k].createdAt == versions[i].createdAt && k < i)
  }

  /** The newest version of a certificate. */
  function CurrentVersion(versions: seq<Version>, cert: string): (r: Option<nat>)
    ensures r.None? ==> forall i :: 0 <= i < |versions| ==> versions[i].cert != cert
    ensures r.Some? ==> r.value < |versions| && versions[r.value].cert == cert
    ensures r.Some? ==> forall i :: 0 <= i < |versions| && versions[i].cert == cert && i != r.value ==>
      Newer(versions, r.value, i)
  {
    if versions == [] then None else
      var last := |versions| - 1;
      var r := CurrentVersion(versions[..last], cert);
      if versions[last].cert == cert && (r.None? || versions[r.value].createdAt <= versions[last].createdAt)
      then Some(last)
      else r
  }
}

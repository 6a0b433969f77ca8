/** What a reconciliation puts into the queue, and why it settles: it asks for
    exactly what is due, and a certificate issued as asked for is not due again
    before its renewal window, whatever else happens. */
module IssuanceSettling {
  import opened Prelude
  import opened IssuanceTables
  import opened IssuanceProtocol
  import opened IssuanceManagers
  import opened IssuanceSafety
  import opened IssuanceResults
  import opened CertificateArtifacts
  import opened Text
  import Drift = ConfigurationDrift

  // ---------------------------------------------------------------------
  // One reconciliation
  // ---------------------------------------------------------------------

  /** A reconciliation on the tables `t` has reason to schedule the certificate. */
  ghost predicate Wants(config: map<string, Definition>, t: Tables, cert: string, look: Drift.Look)
    requires cert in t.certs
  {
    var latest, current, terms := LatestJob(t.jobs, cert), CurrentVersion(t.versions, cert), t.certs[cert].terms;
    && cert in config && config[cert].automatic
    && !(latest.Some? && INTERRUPTED <= t.jobs[latest.value].error)
    && (current.None? ||
        var v := t.versions[current.value];
        || v.notAfter - look.now < terms.renewBefore
        || (set d | d in v.domains :: ToLower(d)) != (set d | d in terms.domains :: ToLower(d))
        || OtherKeyType(v, terms.keyType, look.stored))
  }

  /** The key type, recorded or else read from the stored certificate, is known and another one. */
  ghost predicate OtherKeyType(v: Version, keyType: string, stored: Result<PublicKey, string>) {
    if v.keyType != "" then v.keyType != keyType
    else stored.Ok? && Drift.IssuedKeyType(stored.value) != "" && Drift.IssuedKeyType(stored.value) != keyType
  }

  /** That is what the worker schedules by. */
  lemma WantsIffSchedules(config: map<string, Definition>, t: Tables, cert: string, look: Drift.Look)
    requires cert in t.certs
    ensures Wants(config, t, cert, look) <==> Schedules(config, Entry(t, cert), look)
  {
  }

  /** The jobs that were added are scheduled ones of listed certificates the reconciliation wants. */
  ghost predicate OnlyWantedAdded(s: System, t: Tables, after: seq<Job>, names: seq<string>, look: string -> Drift.Look)
    requires AllEnabled(t, names)
  {
    && s.tables.jobs <= after
    && forall k :: |s.tables.jobs| <= k < |after| ==>
         && after[k].kind == Scheduled && after[k].cert in names
         && Wants(s.config, t, after[k].cert, look(after[k].cert))
  }

  /** Every listed certificate that is wanted and may be issued has a pending job, unless the queue is full. */
  ghost predicate AllWantedPending(
    s: System, t: Tables, after: seq<Job>, names: seq<string>, look: string -> Drift.Look)
    requires AllEnabled(t, names)
  {
    forall c :: c in names && Wants(s.config, t, c, look(c)) ==>
      s.config[c].enabled && Enabled(s.tables, c) ==>
        HasPending(after, c) || |PendingIds(after)| >= MAX_PENDING
  }

  lemma ConsiderAdmits(s: System, l: Listed, rest: seq<Listed>, look: Drift.Look)
    requires s.worker == Reconciling([l] + rest)
    ensures var s', t := Step(s, Consider(look)), s.tables;
      && s' == s.(worker := Reconciling(rest), tables := t.(jobs := s'.tables.jobs))
      && t.jobs <= s'.tables.jobs
      && (forall k :: |t.jobs| <= k < |s'.tables.jobs| ==>
            s'.tables.jobs[k].cert == l.cert && s'.tables.jobs[k].kind == Scheduled && Schedules(s.config, l, look))
      && (Schedules(s.config, l, look) && Issuable(s.config, l.cert, Scheduled) && Enabled(t, l.cert) ==>
            HasPending(s'.tables.jobs, l.cert) || |PendingIds(s'.tables.jobs)| >= MAX_PENDING)
  {
    assert ([l] + rest)[1..] == rest;
    AdmitContract(s.tables, l.cert, Scheduled, Queued);
    var s' := Step(s, Consider(look));
    if |s'.tables.jobs| > |s.tables.jobs| {
      assert IsPending(s'.tables.jobs[|s.tables.jobs|]);
    }
  }

  lemma MorePending(a: seq<Job>, b: seq<Job>, cert: string)
    requires a <= b
    ensures |PendingIds(a)| <= |PendingIds(b)|
    ensures HasPending(a, cert) ==> HasPending(b, cert)
  {
    SubsetSize(PendingIds(a), PendingIds(b));
    if i :| 0 <= i < |a| && a[i].cert == cert && IsPending(a[i]) {
      assert b[i] == a[i];
    }
  }

  lemma {:induction false} ConsidersContract(s: System, t: Tables, names: seq<string>, look: string -> Drift.Look)
    requires AllEnabled(t, names) && s.worker == Reconciling(ListingOf(t, names))
    ensures var after := Run(s, ConsiderScript(names, look)).tables.jobs;
      OnlyWantedAdded(s, t, after, names, look) && AllWantedPending(s, t, after, names, look)
    decreases |names|
  {
    if names != [] {
      var first, rest := names[0], names[1..];
      assert names == [first] + rest && first in names && forall c :: c in rest ==> c in names;
      var script := ConsiderScript(names, look);
      assert script[1..] == ConsiderScript(rest, look);
      assert ListingOf(t, names) == [Entry(t, first)] + ListingOf(t, rest);
      var s1 := Step(s, Consider(look(first)));
      WantsIffSchedules(s.config, t, first, look(first));
      ConsiderAdmits(s, Entry(t, first), ListingOf(t, rest), look(first));
      ConsidersContract(s1, t, rest, look);
      var after := Run(s, script).tables.jobs;
      MorePending(s1.tables.jobs, after, first);
      assert forall k :: |s.tables.jobs| <= k < |s1.tables.jobs| ==> after[k] == s1.tables.jobs[k];
    }
  }

  /** Main result: a reconciliation adds scheduled jobs for those listed
      certificates that are automatic, not interrupted and due by their current
      version, terms and time, and for no others; afterwards each of them that
      may be issued has a pending job, unless the queue is full. */
  lemma ReconcileSchedulesWhatIsDue(s: System, names: seq<string>, look: string -> Drift.Look)
    requires s.worker.Listing? && AllEnabled(s.tables, names)
    ensures var after := Run(s, ReconcileScript(names, look)).tables.jobs;
      && OnlyWantedAdded(s, s.tables, after, names, look)
      && AllWantedPending(s, s.tables, after, names, look)
  {
    ConsidersContract(Step(s, ListCertificates(true, names)), s.tables, names, look);
    assert ReconcileScript(names, look)[1..] == ConsiderScript(names, look);
  }

  // ---------------------------------------------------------------------
  // Settled certificates
  // ---------------------------------------------------------------------

  /** The version with this key is what the terms ask for, its key type recorded or not. */
  predicate Suits(terms: Terms, v: Version, key: PublicKey) {
    && Drift.NameSet(v.domains) == Drift.NameSet(terms.domains)
    && Drift.IssuedKeyType(key) == terms.keyType
    && (v.keyType == "" || v.keyType == terms.keyType)
  }

  /** A suitable version is due exactly inside its renewal window, even if its file cannot be read. */
  lemma SuitableIsDueInWindow(terms: Terms, v: Version, key: PublicKey, look: Drift.Look)
    requires Suits(terms, v, key) && (look.stored.Ok? ==> look.stored.value == key)
    ensures Drift.IsDue(terms, Some(v), look) <==> v.notAfter - look.now < terms.renewBefore
  {
  }

  /** Definitions that are loaded leave the terms as they are, and a look at the
      certificate comes before the window and reads the key that was issued, if it can read it. */
  predicate Calm(s: System, e: Event, cert: string, terms: Terms, v: Version, key: PublicKey) {
    match e
    case Boot(definitions) => cert in definitions ==> Effective(definitions[cert].terms) == terms
    case Reconfigure(definitions) => cert in definitions ==> Effective(definitions[cert].terms) == terms
    case Consider(look) =>
      s.worker.Reconciling? && s.worker.todo != [] && s.worker.todo[0].cert == cert ==>
        look.now + terms.renewBefore <= v.notAfter && (look.stored.Ok? ==> look.stored.value == key)
    case _ => true
  }

  predicate CalmRun(s: System, events: seq<Event>, cert: string, terms: Terms, v: Version, key: PublicKey)
    decreases |events|
  {
    events == [] ||
    (Calm(s, events[0], cert, terms, v, key) && CalmRun(Step(s, events[0]), events[1..], cert, terms, v, key))
  }

  /** The row has these terms and this current version, in the tables and in what the worker has listed. */
  ghost predicate Settled(s: System, cert: string, terms: Terms, v: Version) {
    && cert in s.tables.certs
    && Entry(s.tables, cert).terms == terms && Entry(s.tables, cert).current == Some(v)
    && (s.worker.Reconciling? ==>
          forall l :: l in s.worker.todo && l.cert == cert ==> l.terms == terms && l.current == Some(v))
  }

  /** From `s` to `s'` no scheduled job was added for the certificate. */
  ghost predicate NoneScheduled(s: System, s': System, cert: string) {
    && |s.tables.jobs| <= |s'.tables.jobs|
    && forall k :: |s.tables.jobs| <= k < |s'.tables.jobs| && s'.tables.jobs[k].cert == cert ==>
         !s'.tables.jobs[k].kind.Scheduled?
  }

  lemma ConsiderStaysSettled(s: System, look: Drift.Look, cert: string, terms: Terms, v: Version, key: PublicKey)
    requires Settled(s, cert, terms, v) && Suits(terms, v, key) && Calm(s, Consider(look), cert, terms, v, key)
    ensures var s' := Step(s, Consider(look)); Settled(s', cert, terms, v) && NoneScheduled(s, s', cert)
  {
    if s.worker.Reconciling? && s.worker.todo != [] {
      var l, rest := s.worker.todo[0], s.worker.todo[1..];
      assert s.worker.todo == [l] + rest;
      ConsiderAdmits(s, l, rest, look);
      if l.cert == cert {
        assert l in s.worker.todo;
        SuitableIsDueInWindow(terms, v, key, look);
      }
    }
  }

  lemma ListStaysSettled(s: System, e: Event, cert: string, terms: Terms, v: Version)
    requires Settled(s, cert, terms, v) && e.ListCertificates?
    ensures var s' := Step(s, e); Settled(s', cert, terms, v) && NoneScheduled(s, s', cert)
  {
  }

  lemma LoadStaysSettled(s: System, e: Event, cert: string, terms: Terms, v: Version, key: PublicKey)
    requires Settled(s, cert, terms, v) && Calm(s, e, cert, terms, v, key) && (e.Boot? || e.Reconfigure?)
    ensures var s' := Step(s, e); Settled(s', cert, terms, v) && NoneScheduled(s, s', cert)
  {
  }

  lemma RequestStaysSettled(s: System, e: Event, cert: string, terms: Terms, v: Version)
    requires Settled(s, cert, terms, v) && e.ApiRequest?
    ensures var s' := Step(s, e); Settled(s', cert, terms, v) && NoneScheduled(s, s', cert)
  {
    AdmitContract(s.tables, e.cert, e.kind, Queued);
  }

  /** Steps that add no job, touch no terms and list nothing. */
  ghost predicate NothingConfigured(s: System, s': System) {
    && |s'.tables.jobs| == |s.tables.jobs|
    && s'.tables.certs.Keys == s.tables.certs.Keys
    && (forall c :: c in s.tables.certs ==> s'.tables.certs[c].terms == s.tables.certs[c].terms)
    && (s'.worker.Reconciling? ==> s'.worker == s.worker)
  }

  lemma QueueConfiguresNothing(s: System, e: Event)
    requires e.Crash? || e.Cancel? || e.Tick? || e.RecoverJobs? || e.ClaimJob?
    ensures NothingConfigured(s, Step(s, e))
  {
  }

  lemma OrderConfiguresNothing(s: System, e: Event)
    requires e.Check? || e.StartOrder? || e.Obtain? || e.Conclude?
    ensures NothingConfigured(s, Step(s, e))
  {
  }

  lemma WriteConfiguresNothing(s: System, e: Event)
    requires e.Persist? || e.FinishJob?
    ensures NothingConfigured(s, Step(s, e))
  {
  }

  /** The worker's own steps touch neither terms nor the listing, and add no job. */
  lemma WorkStaysSettled(s: System, e: Event, cert: string, terms: Terms, v: Version)
    requires Settled(s, cert, terms, v)
    requires CurrentVersion(Step(s, e).tables.versions, cert) == CurrentVersion(s.tables.versions, cert)
    requires !e.Consider? && !e.ListCertificates? && !e.Boot? && !e.Reconfigure? && !e.ApiRequest?
    ensures var s' := Step(s, e); Settled(s', cert, terms, v) && NoneScheduled(s, s', cert)
  {
    StepAppendsVersions(s, e);
    if e.Crash? || e.Cancel? || e.Tick? || e.RecoverJobs? || e.ClaimJob? {
      QueueConfiguresNothing(s, e);
    } else if e.Persist? || e.FinishJob? {
      WriteConfiguresNothing(s, e);
    } else {
      OrderConfiguresNothing(s, e);
    }
    StillSettled(s, Step(s, e), cert, terms, v);
  }

  lemma StillSettled(s: System, s': System, cert: string, terms: Terms, v: Version)
    requires Settled(s, cert, terms, v) && NothingConfigured(s, s') && s.tables.versions <= s'.tables.versions
    requires CurrentVersion(s'.tables.versions, cert) == CurrentVersion(s.tables.versions, cert)
    ensures Settled(s', cert, terms, v) && NoneScheduled(s, s', cert)
  {
  }

  lemma StepStaysSettled(s: System, e: Event, cert: string, terms: Terms, v: Version, key: PublicKey)
    requires Settled(s, cert, terms, v) && Suits(terms, v, key) && Calm(s, e, cert, terms, v, key)
    requires CurrentVersion(Step(s, e).tables.versions, cert) == CurrentVersion(s.tables.versions, cert)
    ensures var s' := Step(s, e); Settled(s', cert, terms, v) && NoneScheduled(s, s', cert)
  {
    match e
    case Consider(look) => ConsiderStaysSettled(s, look, cert, terms, v, key);
    case ListCertificates(_, _) => ListStaysSettled(s, e, cert, terms, v);
    case Boot(_) => LoadStaysSettled(s, e, cert, terms, v, key);
    case Reconfigure(_) => LoadStaysSettled(s, e, cert, terms, v, key);
    case ApiRequest(_, _) => RequestStaysSettled(s, e, cert, terms, v);
    case _ => WorkStaysSettled(s, e, cert, terms, v);
  }

  /** A version that is current before and after was current in between. */
  lemma CurrentInBetween(a: seq<Version>, b: seq<Version>, c: seq<Version>, cert: string)
    requires a <= b <= c && CurrentVersion(a, cert).Some? && CurrentVersion(c, cert) == CurrentVersion(a, cert)
    ensures CurrentVersion(b, cert) == CurrentVersion(a, cert)
  {
    var k := CurrentVersion(a, cert).value;
    assert b[k] == a[k] == c[k];
    var other := CurrentVersion(b, cert).value;
    assert b[other] == c[other];
  }

  lemma {:induction false} RunStaysSettled(
    s: System, events: seq<Event>, cert: string, terms: Terms, v: Version, key: PublicKey)
    requires SystemInv(s) && Settled(s, cert, terms, v) && Suits(terms, v, key)
    requires CalmRun(s, events, cert, terms, v, key)
    requires CurrentVersion(Run(s, events).tables.versions, cert) == CurrentVersion(s.tables.versions, cert)
    ensures Settled(Run(s, events), cert, terms, v) && NoneScheduled(s, Run(s, events), cert)
    decreases |events|
  {
    if events != [] {
      var s1, s' := Step(s, events[0]), Run(s, events);
      StepAppendsVersions(s, events[0]);
      RunAppendsVersions(s1, events[1..]);
      CurrentInBetween(s.tables.versions, s1.tables.versions, s'.tables.versions, cert);
      StepStaysSettled(s, events[0], cert, terms, v, key);
      StepKeepsSystem(s, events[0]);
      RunStaysSettled(s1, events[1..], cert, terms, v, key);
      RunKeepsSystem(s1, events[1..]);
      assert forall k :: 0 <= k < |s1.tables.jobs| ==>
        s'.tables.jobs[k].cert == s1.tables.jobs[k].cert && s'.tables.jobs[k].kind == s1.tables.jobs[k].kind;
    }
  }

  /** An issued certificate with the names and the key that were asked for. */
  predicate AsAsked(terms: Terms, issued: Cert) {
    Drift.NameSet(issued.domains) == Drift.NameSet(terms.domains) && Drift.HasKeyType(issued.key, terms.keyType)
  }

  ghost predicate NoneNewer(versions: seq<Version>, cert: string, createdAt: int) {
    forall i :: 0 <= i < |versions| && versions[i].cert == cert ==> versions[i].createdAt <= createdAt
  }

  lemma PersistSettles(s: System, issued: Cert, createdAt: int)
    requires SystemInv(s) && s.worker.Persisting? && s.worker.job < |s.tables.jobs|
    requires var cert := s.tables.jobs[s.worker.job].cert;
      && Enabled(s.tables, cert) && AsAsked(s.tables.certs[cert].terms, issued)
      && NoneNewer(s.tables.versions, cert, createdAt)
    ensures var cert := s.tables.jobs[s.worker.job].cert;
      var v := Drift.VersionOf(cert, issued, createdAt);
      var s', terms := Step(s, Persist(None, v)), s.tables.certs[cert].terms;
      && CurrentVersion(s'.tables.versions, cert) == Some(|s.tables.versions|)
      && Settled(s', cert, terms, v) && Suits(terms, v, issued.key)
      && s'.tables.jobs == s.tables.jobs
  {
    var cert := s.tables.jobs[s.worker.job].cert;
    Drift.KeyTypeIsRecognized(issued.key, s.tables.certs[cert].terms.keyType);
    NewestBecomesCurrent(s.tables.versions, Drift.VersionOf(cert, issued, createdAt));
  }

  /** Main result: when a certificate with the names, in whatever case and
      order, and the key type that were asked for is saved as the newest one,
      then no run schedules it again, through crashes, restarts, failed
      reconciliations and requests, as long as its terms stay, no newer version
      is added, it is looked at before its renewal window, and its stored file, if readable, is its own. */
  lemma IssuedCertificateSettles(before: seq<Event>, cert: string, issued: Cert, createdAt: int, after: seq<Event>)
    requires var s := Run(FRESH, before);
      && s.worker.Persisting? && s.worker.job < |s.tables.jobs| && s.tables.jobs[s.worker.job].cert == cert
      && Enabled(s.tables, cert) && AsAsked(s.tables.certs[cert].terms, issued)
      && NoneNewer(s.tables.versions, cert, createdAt)
    requires var s, v := Run(FRESH, before), Drift.VersionOf(cert, issued, createdAt);
      && CalmRun(Step(s, Persist(None, v)), after, cert, s.tables.certs[cert].terms, v, issued.key)
      && var s' := Run(FRESH, before + [Persist(None, v)] + after);
         CurrentVersion(s'.tables.versions, cert) == Some(|s.tables.versions|)
    ensures var e := Persist(None, Drift.VersionOf(cert, issued, createdAt));
      NoneScheduled(Run(FRESH, before), Run(FRESH, before + [e] + after), cert)
  {
    var s, v := Run(FRESH, before), Drift.VersionOf(cert, issued, createdAt);
    var e := Persist(None, v);
    Reachable(before);
    RunAppend(FRESH, before, [e]);
    RunAppend(FRESH, before + [e], after);
    assert [e][1..] == [];
    assert Run(s, [e]) == Step(s, e);
    PersistSettles(s, issued, createdAt);
    StepKeepsSystem(s, e);
    RunStaysSettled(Step(s, e), after, cert, s.tables.certs[cert].terms, v, issued.key);
  }

  /** Main result: a settled certificate that has no job pending gets one from a
      reconciliation only inside its renewal window, and inside it does get
      one, if it is automatic, enabled and not interrupted and the queue is not full. */
  lemma RenewedExactlyInWindow(
    s: System, names: seq<string>, look: string -> Drift.Look, cert: string, terms: Terms, v: Version, key: PublicKey)
    requires s.worker.Listing? && AllEnabled(s.tables, names) && cert in names && !HasPending(s.tables.jobs, cert)
    requires Settled(s, cert, terms, v) && Suits(terms, v, key)
    requires look(cert).stored.Ok? ==> look(cert).stored.value == key
    ensures var after := Run(s, ReconcileScript(names, look)).tables.jobs;
      && (HasPending(after, cert) ==> v.notAfter - look(cert).now < terms.renewBefore)
      && (&& v.notAfter - look(cert).now < terms.renewBefore
          && cert in s.config && s.config[cert].automatic && s.config[cert].enabled
          && !(Entry(s.tables, cert).latest.Some? && IsInterrupted(Entry(s.tables, cert).latest.value))
          ==> HasPending(after, cert) || |PendingIds(after)| >= MAX_PENDING)
  {
    ReconcileSchedulesWhatIsDue(s, names, look);
    SuitableIsDueInWindow(terms, v, key, look(cert));
    WantsIffSchedules(s.config, s.tables, cert, look(cert));
    var after := Run(s, ReconcileScript(names, look)).tables.jobs;
    if !Wants(s.config, s.tables, cert, look(cert)) {
      UnwantedStaysIdle(s, after, names, look, cert);
    }
  }

  lemma UnwantedStaysIdle(s: System, after: seq<Job>, names: seq<string>, look: string -> Drift.Look, cert: string)
    requires AllEnabled(s.tables, names) && cert in names && OnlyWantedAdded(s, s.tables, after, names, look)
    requires !HasPending(s.tables.jobs, cert) && !Wants(s.config, s.tables, cert, look(cert))
    ensures !HasPending(after, cert)
  {
    forall i | 0 <= i < |after| && after[i].cert == cert ensures !IsPending(after[i]) {
      if i < |s.tables.jobs| {
        assert after[i] == s.tables.jobs[i];
      }
    }
  }
}

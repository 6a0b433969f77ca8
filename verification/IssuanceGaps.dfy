/** Two moments between actions of the worker that its promises leave open, each
    reached by a run from the fresh database. */
module IssuanceGaps {
  import opened Prelude
  import opened IssuanceTables
  import opened IssuanceProtocol
  import opened IssuanceSafety
  import opened IssuanceResults
  import opened IssuanceInterruptions

  const HOME := Terms(["home.example"], "", 0)
  const DEFINITIONS := map["home" := Definition(true, true, HOME)]

  lemma RunThen(events: seq<Event>, e: Event)
    ensures Run(FRESH, events + [e]) == Step(Run(FRESH, events), e)
  {
    RunAppend(FRESH, events, [e]);
    assert [e][1..] == [];
    assert Run(Run(FRESH, events), [e]) == Step(Run(FRESH, events), e);
  }

  /** The server is up and its worker ready. */
  lemma UpToReady() returns (events: seq<Event>)
    ensures var s := Run(FRESH, events);
      && s.worker == Ready && s.config == DEFINITIONS && !s.cancelled && s.tables.jobs == []
      && Enabled(s.tables, "home")
  {
    var e := [Boot(DEFINITIONS), RecoverJobs(true), ListCertificates(false, [])];
    RunThen([], e[0]);
    RunThen([e[0]], e[1]);
    RunThen([e[0], e[1]], e[2]);
    assert [] + [e[0]] == [e[0]] && [e[0]] + [e[1]] == [e[0], e[1]] && [e[0], e[1]] + [e[2]] == e;
    events := e;
  }

  /** A caller asks for a certificate. */
  lemma UpToAsked() returns (events: seq<Event>)
    ensures var s := Run(FRESH, events);
      && s.worker == Ready && s.tables.jobs == [Job("home", Manual, Queued, "")]
      && s.config == DEFINITIONS && !s.cancelled && Enabled(s.tables, "home")
  {
    var ready := UpToReady();
    var s := Run(FRESH, ready);
    RunThen(ready, ApiRequest("home", Manual));
    AdmitContract(s.tables, "home", Manual, Queued);
    assert PendingIds(s.tables.jobs) == {};
    events := ready + [ApiRequest("home", Manual)];
  }

  /** The worker claims the job. */
  lemma UpToStarted() returns (events: seq<Event>)
    ensures var s := Run(FRESH, events);
      && s.worker == Started(0) && s.tables.jobs == [Job("home", Manual, Running, "")]
      && s.config == DEFINITIONS && !s.cancelled && Enabled(s.tables, "home")
  {
    var asked := UpToAsked();
    RunThen(asked, ClaimJob(true));
    ClaimContract(Run(FRESH, asked).tables);
    events := asked + [ClaimJob(true)];
  }

  /** It finds the certificate enabled. */
  lemma UpToChecked() returns (events: seq<Event>)
    ensures var s := Run(FRESH, events);
      && s.worker == Checked(0) && s.tables.jobs == [Job("home", Manual, Running, "")]
      && s.config == DEFINITIONS && !s.cancelled && Enabled(s.tables, "home")
  {
    var started := UpToStarted();
    RunThen(started, Check(None));
    events := started + [Check(None)];
  }

  /** Between its check and its order a certificate can be disabled: the order
      then starts for a certificate that is not enabled. */
  lemma OrderCanOutrunDisabling() returns (before: seq<Event>)
    ensures !Enabled(Run(FRESH, before).tables, "home") && AboutToOrder(Run(FRESH, before), "home")
  {
    var checked := UpToChecked();
    RunThen(checked, Reconfigure(map[]));
    before := checked + [Reconfigure(map[])];
  }

  /** A failure whose outcome is settled before the worker is cancelled is written without the mark. */
  lemma CancellationCanBeMissed() returns (before: seq<Event>)
    ensures var s := Run(FRESH, before);
      && RecordsUnmarked(s, 0) && |s.tables.jobs| == 1 && s.tables.jobs[0].status.Running?
      && FailedUnmarked(Run(FRESH, before + [Cancel] + [FinishJob(true)]), 0)
  {
    var checked := UpToChecked();
    RunThen(checked, StartOrder(Some("refused")));
    var failed := checked + [StartOrder(Some("refused"))];
    RunThen(failed, Conclude);
    before := failed + [Conclude];
    assert !(INTERRUPTED <= "refused") by {
      assert |INTERRUPTED| > |"refused"|;
    }
    RunThen(before, Cancel);
    RunThen(before + [Cancel], FinishJob(true));
  }
}

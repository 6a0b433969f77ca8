/** Exactly when the store admits a login and exactly when it redeems a key,
    told from the history of the run alone: from its events and their answers. */
module OidcDecisions {
  import opened Prelude
  import opened LoginBuckets
  import opened OidcStore
  import opened OidcLimits

  // ---------------------------------------------------------------------
  // Histories that grow at the end
  // ---------------------------------------------------------------------

  lemma {:induction false} RunThen(s: Store, events: seq<Event>, e: Event)
    ensures Run(s, events + [e]) == Step(Run(s, events), e)
    decreases |events|
  {
    if events == [] {
      assert events + [e] == [e] && [e][1..] == [];
      assert Run(s, [e]) == Run(Step(s, e), []);
    } else {
      assert (events + [e])[1..] == events[1..] + [e];
      RunThen(Step(s, events[0]), events[1..], e);
    }
  }

  lemma {:induction false} ClockThen(events: seq<Event>, e: Event, t: real)
    requires ClockOrdered(events + [e], t)
    ensures ClockOrdered(events, t) && LastTime(events, t) <= e.now && LastTime(events + [e], t) == e.now
    decreases |events|
  {
    if events == [] {
      assert events + [e] == [e] && [e][1..] == [];
    } else {
      assert (events + [e])[1..] == events[1..] + [e];
      ClockThen(events[1..], e, events[0].now);
    }
  }

  lemma {:induction false} AdmissionsThen(s: Store, events: seq<Event>, e: Event, scope: Scope, from: real, until: real)
    ensures Admissions(s, events + [e], scope, from, until)
         == Admissions(s, events, scope, from, until)
            + if Counted(Run(s, events), e, scope, from, until) then 1 else 0
    decreases |events|
  {
    if events == [] {
      assert events + [e] == [e] && [e][1..] == [];
    } else {
      assert (events + [e])[1..] == events[1..] + [e];
      AdmissionsThen(Step(s, events[0]), events[1..], e, scope, from, until);
    }
  }

  /** Once the last event is past, the end of the window does not matter. */
  lemma {:induction false} AdmissionsUntil(
    s: Store, events: seq<Event>, t: real, scope: Scope, from: real, until: real, later: real)
    requires ClockOrdered(events, t) && LastTime(events, t) <= until <= later
    ensures Admissions(s, events, scope, from, until) == Admissions(s, events, scope, from, later)
    ensures LastTime(events, t) < from && t < from ==> Admissions(s, events, scope, from, later) == 0
    ensures t <= LastTime(events, t)
    decreases |events|
  {
    if events != [] {
      AdmissionsUntil(Step(s, events[0]), events[1..], events[0].now, scope, from, until, later);
    }
  }

  lemma {:induction false} SoundAfter(s: Store, t: real, events: seq<Event>)
    requires BucketsSound(s, t) && ClockOrdered(events, t)
    ensures BucketsSound(Run(s, events), LastTime(events, t))
    decreases |events|
  {
    if events != [] {
      StepKeepsBuckets(s, t, events[0]);
      SoundAfter(Step(s, events[0]), events[0].now, events[1..]);
    }
  }

  // ---------------------------------------------------------------------
  // Credit
  // ---------------------------------------------------------------------

  /** What windows that end at `until` leave of the bound on admissions. */
  function Left(events: seq<Event>, scope: Scope, from: real, until: real): real {
    Burst(scope) + Gain(from, until, Rate(scope)) - Admissions(EMPTY_STORE, events, scope, from, until) as real
  }

  /** While the store stays open a step costs exactly its admission. */
  lemma StepCost(s: Store, t: real, e: Event, scope: Scope)
    requires BucketsSound(s, t) && t <= e.now && !s.closed && !e.action.Close?
    ensures !Step(s, e).closed
    ensures Credit(Step(s, e), scope, e.now)
         == Credit(s, scope, e.now) - (if Counted(s, e, scope, e.now, e.now) then 1.0 else 0.0)
  {
    if e.action.Sweep? && scope.OnePeer? {
      SweepKeepsPeerBucket(s, t, scope.peer, e.now);
    }
  }

  lemma CreditLater(s: Store, t: real, scope: Scope, u: real)
    requires BucketsSound(s, t) && t <= u && !s.closed
    ensures Credit(s, scope, u) == Min(Burst(scope), Credit(s, scope, t) + Gain(t, u, Rate(scope)))
  {
    if scope.OnePeer? {
      RefillsCompose(Client(s, scope.peer), t, u, LOGIN_RATE, LOGIN_BURST);
    } else {
      RefillsCompose(s.global, t, u, GLOBAL_RATE, GLOBAL_BURST);
    }
    CreditBounds(s, scope, t);
    GainIsPositive(t, u, Rate(scope));
  }

  ghost predicate NeverClosed(events: seq<Event>) {
    forall e :: e in events ==> !e.action.Close?
  }

  /** The credit at a moment is the least that any window ending then leaves. */
  lemma {:induction false} CreditIsLeast(events: seq<Event>, t: real, scope: Scope, now: real) returns (tight: real)
    requires ClockOrdered(events, t) && LastTime(events, t) <= now && NeverClosed(events)
    ensures !Run(EMPTY_STORE, events).closed
    ensures forall from :: from <= now ==>
      Credit(Run(EMPTY_STORE, events), scope, now) <= Left(events, scope, from, now)
    ensures tight <= now && Credit(Run(EMPTY_STORE, events), scope, now) == Left(events, scope, tight, now)
    decreases |events|
  {
    if events == [] {
      tight := now;
      forall from | from <= now ensures Credit(EMPTY_STORE, scope, now) <= Left(events, scope, from, now) {
        GainIsPositive(from, now, Rate(scope));
      }
    } else {
      var last := |events| - 1;
      var before, e := events[..last], events[last];
      assert events == before + [e];
      ClockThen(before, e, t);
      var earlier := CreditIsLeast(before, t, scope, e.now);
      tight := CreditAfter(before, e, t, scope, now, earlier);
    }
  }

  lemma CreditAfter(before: seq<Event>, e: Event, t: real, scope: Scope, now: real, earlier: real) returns (tight: real)
    requires ClockOrdered(before + [e], t) && ClockOrdered(before, t) && LastTime(before, t) <= e.now <= now
    requires LastTime(before + [e], t) == e.now && !e.action.Close? && !Run(EMPTY_STORE, before).closed
    requires forall from :: from <= e.now ==>
      Credit(Run(EMPTY_STORE, before), scope, e.now) <= Left(before, scope, from, e.now)
    requires earlier <= e.now && Credit(Run(EMPTY_STORE, before), scope, e.now) == Left(before, scope, earlier, e.now)
    ensures !Run(EMPTY_STORE, before + [e]).closed
    ensures forall from :: from <= now ==>
      Credit(Run(EMPTY_STORE, before + [e]), scope, now) <= Left(before + [e], scope, from, now)
    ensures tight <= now
    ensures Credit(Run(EMPTY_STORE, before + [e]), scope, now) == Left(before + [e], scope, tight, now)
  {
    var s, s' := Run(EMPTY_STORE, before), Run(EMPTY_STORE, before + [e]);
    RunThen(EMPTY_STORE, before, e);
    SoundAfter(EMPTY_STORE, t, before);
    StepKeepsBuckets(s, LastTime(before, t), e);
    StepCost(s, LastTime(before, t), e, scope);
    CreditLater(s', e.now, scope, now);
    CreditBounds(s', scope, now);
    var cost := if Counted(s, e, scope, e.now, e.now) then 1.0 else 0.0;
    forall from | from <= e.now
      ensures Left(before + [e], scope, from, now)
           == Left(before, scope, from, e.now) + Gain(e.now, now, Rate(scope)) - cost
    {
      LeftAfter(before, e, t, scope, now, from);
    }
    forall from | e.now < from <= now ensures Left(before + [e], scope, from, now) >= Burst(scope) {
      AdmissionsUntil(EMPTY_STORE, before + [e], t, scope, from, now, now);
      GainIsPositive(from, now, Rate(scope));
    }
    if now > e.now && Credit(s', scope, now) == Burst(scope) {
      tight := now;
      AdmissionsUntil(EMPTY_STORE, before + [e], t, scope, now, now, now);
    } else {
      tight := earlier;
    }
  }

  /** How the bound of a window that began before the last event moves with it. */
  lemma LeftAfter(before: seq<Event>, e: Event, t: real, scope: Scope, now: real, from: real)
    requires ClockOrdered(before + [e], t) && ClockOrdered(before, t) && LastTime(before, t) <= e.now <= now
    requires from <= e.now
    ensures var cost := if Counted(Run(EMPTY_STORE, before), e, scope, e.now, e.now) then 1.0 else 0.0;
      Left(before + [e], scope, from, now) == Left(before, scope, from, e.now) + Gain(e.now, now, Rate(scope)) - cost
  {
    AdmissionsThen(EMPTY_STORE, before, e, scope, from, now);
    AdmissionsUntil(EMPTY_STORE, before, t, scope, from, e.now, now);
    GainsAdd(from, e.now, now, Rate(scope));
  }

  /** A token is at hand exactly when no window that ends now is exhausted. */
  lemma TokenIff(events: seq<Event>, t: real, scope: Scope, now: real)
    requires ClockOrdered(events, t) && LastTime(events, t) <= now && NeverClosed(events)
    ensures !Run(EMPTY_STORE, events).closed
    ensures Credit(Run(EMPTY_STORE, events), scope, now) >= 1.0 <==>
      forall from :: from <= now ==>
        Admissions(EMPTY_STORE, events, scope, from, now) as real + 1.0
          <= Burst(scope) + Gain(from, now, Rate(scope))
  {
    var tight := CreditIsLeast(events, t, scope, now);
    var credit := Credit(Run(EMPTY_STORE, events), scope, now);
    assert credit == Left(events, scope, tight, now);
    if credit >= 1.0 {
      forall from | from <= now
        ensures Admissions(EMPTY_STORE, events, scope, from, now) as real + 1.0
             <= Burst(scope) + Gain(from, now, Rate(scope))
      {
        assert credit <= Left(events, scope, from, now);
      }
    } else {
      assert Admissions(EMPTY_STORE, events, scope, tight, now) as real + 1.0
           > Burst(scope) + Gain(tight, now, Rate(scope));
    }
  }

  lemma {:induction false} ClosedIff(events: seq<Event>)
    ensures Run(EMPTY_STORE, events).closed <==> exists e :: e in events && e.action.Close?
    ensures Run(EMPTY_STORE, events).closed ==>
      Run(EMPTY_STORE, events).flows == map[] && Run(EMPTY_STORE, events).clients == map[]
    decreases |events|
  {
    if events != [] {
      var last := |events| - 1;
      assert events == events[..last] + [events[last]];
      ClosedIff(events[..last]);
      RunThen(EMPTY_STORE, events[..last], events[last]);
      assert forall e :: e in events <==> e in events[..last] || e == events[last];
    }
  }

  /** Main result: after any run a login is admitted, with the values drawn for
      it, if and only if the store was never closed, fewer than 1,024 logins
      and fewer than 16 of the peer are pending, the peer is tracked or fewer
      than 1,024 clients are, and no window that ends now is exhausted: with
      this login the peer stays within 8 and 8 a minute, and all peers within
      32 and 8 a second, over every span up to now. */
  lemma LoginAdmittedIff(events: seq<Event>, t: real, peer: string, tokens: Tokens, now: real)
    requires ClockOrdered(events, t) && LastTime(events, t) <= now
    ensures var s := Run(EMPTY_STORE, events);
      var admitted :=
        && (forall e :: e in events ==> !e.action.Close?)
        && |s.flows| < 1024 && |set k | k in s.flows && s.flows[k].peer == peer| < 16
        && (peer in s.clients || |s.clients| < 1024)
        && (forall from :: from <= now ==>
              Admissions(EMPTY_STORE, events, OnePeer(peer), from, now) as real + 1.0
                <= 8.0 + 8.0 * (now - from) / 60.0)
        && (forall from :: from <= now ==>
              Admissions(EMPTY_STORE, events, AllPeers, from, now) as real + 1.0 <= 32.0 + 8.0 * (now - from));
      Answer(s, Event(now, Reserve(peer, tokens)))
        == if admitted then Admitted(OidcState(tokens.browserToken, tokens.nonce, tokens.verifier, now)) else Refused
  {
    var s := Run(EMPTY_STORE, events);
    ClosedIff(events);
    assert PeerFlows(s.flows, peer) == set k | k in s.flows && s.flows[k].peer == peer;
    if NeverClosed(events) {
      TokenIff(events, t, OnePeer(peer), now);
      TokenIff(events, t, AllPeers, now);
      PeerWindows(events, peer, now);
      AllWindows(events, now);
    }
  }

  lemma PeerWindows(events: seq<Event>, peer: string, now: real)
    ensures
      (forall from :: from <= now ==>
        Admissions(EMPTY_STORE, events, OnePeer(peer), from, now) as real + 1.0 <= 8.0 + 8.0 * (now - from) / 60.0)
      <==>
      (forall from :: from <= now ==>
        Admissions(EMPTY_STORE, events, OnePeer(peer), from, now) as real + 1.0
          <= Burst(OnePeer(peer)) + Gain(from, now, Rate(OnePeer(peer))))
  {
    assert forall from :: Gain(from, now, Rate(OnePeer(peer))) == 8.0 * (now - from) / 60.0;
  }

  lemma AllWindows(events: seq<Event>, now: real)
    ensures
      (forall from :: from <= now ==>
        Admissions(EMPTY_STORE, events, AllPeers, from, now) as real + 1.0 <= 32.0 + 8.0 * (now - from))
      <==>
      (forall from :: from <= now ==>
        Admissions(EMPTY_STORE, events, AllPeers, from, now) as real + 1.0
          <= Burst(AllPeers) + Gain(from, now, Rate(AllPeers)))
  {
    assert forall from :: Gain(from, now, Rate(AllPeers)) == 8.0 * (now - from);
  }

  // ---------------------------------------------------------------------
  // Pending logins
  // ---------------------------------------------------------------------

  function AnswerAt(events: seq<Event>, i: nat): Outcome
    requires i < |events|
  {
    Answer(Run(EMPTY_STORE, events[..i]), events[i])
  }

  /** The login at position `i` was admitted and got key `k`. */
  predicate IssuedAt(events: seq<Event>, i: nat, k: string) {
    && i < |events| && events[i].action.Reserve? && events[i].action.tokens.key == k
    && AnswerAt(events, i).Admitted?
  }

  /** The event at position `j` ends a login that got key `k` at time `at`. */
  predicate EndsAt(events: seq<Event>, j: nat, k: string, at: real)
    requires j < |events|
  {
    match events[j].action
    case Reserve(_, _) => false
    case Take(key, _) => key == k && AnswerAt(events, j).Taken?
    case Discard(key) => key == k
    case Sweep => events[j].now >= at + 600.0
    case Close => true
  }

  /** The login at position `i` got key `k`, and nothing has ended it since. */
  ghost predicate PendingSince(events: seq<Event>, i: nat, k: string) {
    IssuedAt(events, i, k) && forall j :: i < j < |events| ==> !EndsAt(events, j, k, events[i].now)
  }

  function FlowOf(e: Event): OidcFlow
    requires e.action.Reserve?
  {
    var tokens := e.action.tokens;
    OidcFlow(OidcState(tokens.browserToken, tokens.nonce, tokens.verifier, e.now), e.action.peer)
  }

  /** The flows of a store are the logins of its history that are pending. */
  ghost predicate FlowsMatch(events: seq<Event>, flows: map<string, OidcFlow>) {
    && (forall k :: k in flows ==> exists i: nat :: PendingSince(events, i, k))
    && (forall i: nat, k :: PendingSince(events, i, k) ==> k in flows && flows[k] == FlowOf(events[i]))
  }

  lemma {:induction false} FreshThen(events: seq<Event>, e: Event, used: set<string>)
    requires FreshKeys(events + [e], used)
    ensures FreshKeys(events, used)
    ensures e.action.Reserve? ==> e.action.tokens.key !in used
    ensures e.action.Reserve? ==>
      forall i: nat :: i < |events| && events[i].action.Reserve? ==> events[i].action.tokens.key != e.action.tokens.key
    decreases |events|
  {
    if events == [] {
      assert events + [e] == [e];
    } else {
      assert (events + [e])[1..] == events[1..] + [e];
      var first := events[0].action;
      FreshThen(events[1..], e, if first.Reserve? then used + {first.tokens.key} else used);
    }
  }

  /** What one more event does to the history. */
  lemma HistoryThen(events: seq<Event>, e: Event)
    ensures forall i: nat :: i < |events| ==> AnswerAt(events + [e], i) == AnswerAt(events, i)
    ensures AnswerAt(events + [e], |events|) == Answer(Run(EMPTY_STORE, events), e)
  {
    forall i: nat | i <= |events| ensures (events + [e])[..i] == events[..i] {
    }
    assert events[..|events|] == events;
  }

  lemma PendingThen(events: seq<Event>, e: Event, i: nat, k: string)
    ensures PendingSince(events + [e], i, k) <==>
      if i < |events| then PendingSince(events, i, k) && !EndsAt(events + [e], |events|, k, events[i].now)
      else i == |events| && IssuedAt(events + [e], i, k)
  {
    HistoryThen(events, e);
    var after := events + [e];
    if i < |events| {
      assert after[i] == events[i];
      forall j: nat | i < j < |events|
        ensures EndsAt(after, j, k, after[i].now) == EndsAt(events, j, k, events[i].now)
      {
        assert after[j] == events[j];
      }
    }
  }

  lemma {:induction false} FlowsArePending(events: seq<Event>)
    requires FreshKeys(events, {})
    ensures FlowsMatch(events, Run(EMPTY_STORE, events).flows)
    decreases |events|
  {
    if events != [] {
      var last := |events| - 1;
      var before, e := events[..last], events[last];
      assert events == before + [e];
      FreshThen(before, e, {});
      FlowsArePending(before);
      RunThen(EMPTY_STORE, before, e);
      NextMatches(before, e);
    }
  }

  /** What one event leaves of a pending login. */
  lemma StepFlow(s: Store, e: Event, k: string)
    requires s.closed ==> s.flows == map[]
    requires !(e.action.Reserve? && e.action.tokens.key == k && Answer(s, e).Admitted?)
    ensures var flows := Step(s, e).flows;
      && (k in flows ==> k in s.flows && flows[k] == s.flows[k])
      && (k in s.flows ==> (k !in flows <==>
            match e.action
            case Reserve(_, _) => false
            case Take(key, _) => key == k && Answer(s, e).Taken?
            case Discard(key) => key == k
            case Sweep => e.now >= s.flows[k].state.at + 600.0
            case Close => true))
  {
  }

  lemma NextPending(before: seq<Event>, e: Event, i: nat, k: string)
    requires FreshKeys(before + [e], {}) && FlowsMatch(before, Run(EMPTY_STORE, before).flows)
    requires PendingSince(before + [e], i, k)
    ensures var flows := Step(Run(EMPTY_STORE, before), e).flows; k in flows && flows[k] == FlowOf((before + [e])[i])
  {
    var s := Run(EMPTY_STORE, before);
    FreshThen(before, e, {});
    HistoryThen(before, e);
    PendingThen(before, e, i, k);
    if i < |before| {
      ClosedIff(before);
      StepFlow(s, e, k);
    }
  }

  lemma NextFlow(before: seq<Event>, e: Event, k: string) returns (i: nat)
    requires FreshKeys(before + [e], {}) && FlowsMatch(before, Run(EMPTY_STORE, before).flows)
    requires k in Step(Run(EMPTY_STORE, before), e).flows
    ensures PendingSince(before + [e], i, k)
  {
    var s := Run(EMPTY_STORE, before);
    HistoryThen(before, e);
    if e.action.Reserve? && e.action.tokens.key == k && Answer(s, e).Admitted? {
      i := |before|;
    } else {
      ClosedIff(before);
      StepFlow(s, e, k);
      i :| PendingSince(before, i, k);
    }
    PendingThen(before, e, i, k);
  }

  lemma NextMatches(before: seq<Event>, e: Event)
    requires FreshKeys(before + [e], {}) && FlowsMatch(before, Run(EMPTY_STORE, before).flows)
    ensures FlowsMatch(before + [e], Step(Run(EMPTY_STORE, before), e).flows)
  {
    var events, flows := before + [e], Step(Run(EMPTY_STORE, before), e).flows;
    forall i: nat, k | PendingSince(events, i, k) ensures k in flows && flows[k] == FlowOf(events[i]) {
      NextPending(before, e, i, k);
    }
    forall k | k in flows ensures exists i: nat :: PendingSince(events, i, k) {
      var i := NextFlow(before, e, k);
    }
  }

  /** Main result: after any run, whoever shows a key and a browser token gets
      the values issued with that key if and only if the token is the one
      issued with it and not empty, and since the login no event has redeemed
      or discarded the key, closed the store, or swept it ten minutes after
      the login or later; they are marked as expired from ten minutes on. */
  lemma KeyRedeemedIff(events: seq<Event>, k: string, browserToken: string, now: real)
    requires FreshKeys(events, {})
    ensures var answer := Answer(Run(EMPTY_STORE, events), Event(now, Take(k, browserToken)));
      && (answer == NotTaken || exists i: nat :: PendingSince(events, i, k))
      && forall i: nat :: PendingSince(events, i, k) ==>
           var tokens, at := events[i].action.tokens, events[i].now;
           answer == if browserToken == tokens.browserToken && browserToken != ""
                     then Taken(OidcState(tokens.browserToken, tokens.nonce, tokens.verifier, at), now >= at + 600.0)
                     else NotTaken
  {
    FlowsArePending(events);
  }

  // ---------------------------------------------------------------------
  // Tracked clients
  // ---------------------------------------------------------------------

  /** The peer was admitted at position `i`, and no sweep a minute later or more, nor a close, has come since. */
  ghost predicate TrackedSince(events: seq<Event>, i: nat, peer: string) {
    && i < |events| && events[i].action.Reserve? && events[i].action.peer == peer && AnswerAt(events, i).Admitted?
    && forall j :: i < j < |events| ==>
         !events[j].action.Close? && !(events[j].action.Sweep? && events[j].now >= events[i].now + 60.0)
  }

  ghost predicate ClientsMatch(events: seq<Event>, clients: map<string, LoginBucket>) {
    && (forall p :: p in clients ==>
          exists i: nat :: TrackedSince(events, i, p) && clients[p].at == Some(events[i].now))
    && (forall i: nat, p :: TrackedSince(events, i, p) ==>
          p in clients && clients[p].at.Some? && events[i].now <= clients[p].at.value)
  }

  lemma TrackedThen(events: seq<Event>, e: Event, i: nat, peer: string)
    ensures TrackedSince(events + [e], i, peer) <==>
      if i < |events| then
        && TrackedSince(events, i, peer)
        && !e.action.Close? && !(e.action.Sweep? && e.now >= events[i].now + 60.0)
      else
        && i == |events| && e.action.Reserve? && e.action.peer == peer
        && Answer(Run(EMPTY_STORE, events), e).Admitted?
  {
    HistoryThen(events, e);
    var after := events + [e];
    assert after[|events|] == e;
    if i < |events| {
      assert after[i] == events[i];
      assert forall j :: i < j < |events| ==> after[j] == events[j];
    }
  }

  lemma {:induction false} ClientsAreTracked(events: seq<Event>, t: real)
    requires ClockOrdered(events, t)
    ensures ClientsMatch(events, Run(EMPTY_STORE, events).clients)
    decreases |events|
  {
    if events != [] {
      var last := |events| - 1;
      var before, e := events[..last], events[last];
      assert events == before + [e];
      ClockThen(before, e, t);
      ClientsAreTracked(before, t);
      SoundAfter(EMPTY_STORE, t, before);
      RunThen(EMPTY_STORE, before, e);
      NextTracked(before, e, LastTime(before, t));
    }
  }

  /** What one event leaves of a tracked client. */
  lemma StepClient(s: Store, e: Event, peer: string)
    requires s.closed ==> s.clients == map[]
    requires peer in s.clients ==> s.clients[peer].at.Some?
    requires !(e.action.Reserve? && e.action.peer == peer && Answer(s, e).Admitted?)
    ensures var clients := Step(s, e).clients;
      && (peer in clients ==> peer in s.clients && clients[peer] == s.clients[peer])
      && (peer in s.clients ==> (peer !in clients <==>
            e.action.Close? || (e.action.Sweep? && e.now >= s.clients[peer].at.value + 60.0)))
  {
  }

  lemma TrackedStays(before: seq<Event>, e: Event, t: real, i: nat, peer: string)
    requires ClientsMatch(before, Run(EMPTY_STORE, before).clients)
    requires BucketsSound(Run(EMPTY_STORE, before), t) && t <= e.now
    requires TrackedSince(before + [e], i, peer)
    ensures var clients := Step(Run(EMPTY_STORE, before), e).clients;
      peer in clients && clients[peer].at.Some? && (before + [e])[i].now <= clients[peer].at.value
  {
    var s := Run(EMPTY_STORE, before);
    TrackedThen(before, e, i, peer);
    if !(e.action.Reserve? && e.action.peer == peer && Answer(s, e).Admitted?) {
      ClosedIff(before);
      StepClient(s, e, peer);
    }
  }

  lemma ClientIsTracked(before: seq<Event>, e: Event, peer: string) returns (i: nat)
    requires ClientsMatch(before, Run(EMPTY_STORE, before).clients)
    requires peer in Step(Run(EMPTY_STORE, before), e).clients
    ensures TrackedSince(before + [e], i, peer)
    ensures Step(Run(EMPTY_STORE, before), e).clients[peer].at == Some((before + [e])[i].now)
  {
    var s := Run(EMPTY_STORE, before);
    if e.action.Reserve? && e.action.peer == peer && Answer(s, e).Admitted? {
      i := |before|;
    } else {
      ClosedIff(before);
      StepClient(s, e, peer);
      i :| TrackedSince(before, i, peer) && s.clients[peer].at == Some(before[i].now);
    }
    TrackedThen(before, e, i, peer);
  }

  lemma NextTracked(before: seq<Event>, e: Event, t: real)
    requires ClientsMatch(before, Run(EMPTY_STORE, before).clients)
    requires BucketsSound(Run(EMPTY_STORE, before), t) && t <= e.now
    ensures ClientsMatch(before + [e], Step(Run(EMPTY_STORE, before), e).clients)
  {
    var events, clients := before + [e], Step(Run(EMPTY_STORE, before), e).clients;
    forall i: nat, p | TrackedSince(events, i, p)
      ensures p in clients && clients[p].at.Some? && events[i].now <= clients[p].at.value
    {
      TrackedStays(before, e, t, i, p);
    }
    forall p | p in clients
      ensures exists i: nat :: TrackedSince(events, i, p) && clients[p].at == Some(events[i].now)
    {
      var i := ClientIsTracked(before, e, p);
    }
  }

  /** Main result: a peer is tracked if and only if it was admitted with no
      close since, and no sweep a minute after that admission or later. */
  lemma TrackedIff(events: seq<Event>, t: real, peer: string)
    requires ClockOrdered(events, t)
    ensures peer in Run(EMPTY_STORE, events).clients <==> exists i: nat :: TrackedSince(events, i, peer)
  {
    ClientsAreTracked(events, t);
  }
}

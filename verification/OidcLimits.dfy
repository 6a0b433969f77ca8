/** The login rate limits over whole runs of the store: window bounds on
    admissions, and proof that forgetting idle clients cannot be observed. */
module OidcLimits {
  import opened LoginBuckets
  import opened OidcStore

  /** Whose admissions are counted: one peer's, or those of all peers together. */
  datatype Scope = OnePeer(peer: string) | AllPeers

  function Rate(scope: Scope): real {
    if scope.OnePeer? then LOGIN_RATE else GLOBAL_RATE
  }

  function Burst(scope: Scope): real {
    if scope.OnePeer? then LOGIN_BURST else GLOBAL_BURST
  }

  predicate Counted(s: Store, e: Event, scope: Scope, from: real, until: real) {
    && Answer(s, e).Admitted?
    && (scope.OnePeer? ==> e.action.peer == scope.peer)
    && from <= e.now <= until
  }

  /** How many logins of the run were admitted between `from` and `until`, both included. */
  function Admissions(s: Store, events: seq<Event>, scope: Scope, from: real, until: real): nat
    decreases |events|
  {
    if events == [] then 0 else
      var rest := Admissions(Step(s, events[0]), events[1..], scope, from, until);
      if Counted(s, events[0], scope, from, until) then 1 + rest else rest
  }

  /** The tokens available at `t`; a closed store admits nothing whatever its buckets hold. */
  function Credit(s: Store, scope: Scope, t: real): real {
    if s.closed then 0.0
    else if scope.OnePeer? then PeerBucket(s, scope.peer, t).tokens
    else GlobalBucket(s, t).tokens
  }

  lemma CreditBounds(s: Store, scope: Scope, t: real)
    requires BucketsSound(s, t)
    ensures 0.0 <= Credit(s, scope, t) <= Burst(scope)
  {
  }

  lemma StepKeepsBuckets(s: Store, t: real, e: Event)
    requires BucketsSound(s, t) && t <= e.now
    ensures BucketsSound(Step(s, e), e.now)
  {
    if Answer(s, e).Admitted? {
      AdmitKeepsBuckets(s, t, e.action.peer, e.action.tokens, e.now);
    }
  }

  /** A sweep forgets a client only when it would draw from a full bucket anyway. */
  lemma SweepKeepsPeerBucket(s: Store, t: real, peer: string, now: real)
    requires BucketsSound(s, t) && t <= now && !s.closed
    ensures PeerBucket(Swept(s, now), peer, now) == PeerBucket(s, peer, now)
  {
  }

  /** The bucket a scope draws from, right after a step, has lost a token
      exactly when the step was an admission in scope. */
  lemma StepSpendsCredit(s: Store, t: real, e: Event, scope: Scope)
    requires BucketsSound(s, t) && t <= e.now
    ensures Credit(Step(s, e), scope, e.now)
         <= Credit(s, scope, e.now) - (if Counted(s, e, scope, e.now, e.now) then 1.0 else 0.0)
  {
  }

  lemma CreditGrows(s: Store, t: real, scope: Scope, u: real)
    requires BucketsSound(s, t) && t <= u
    ensures Credit(s, scope, u) <= Credit(s, scope, t) + Gain(t, u, Rate(scope))
  {
  }

  lemma {:induction false} NothingCountedAfter(
    s: Store, t: real, events: seq<Event>, scope: Scope, from: real, until: real)
    requires ClockOrdered(events, t) && until < t
    ensures Admissions(s, events, scope, from, until) == 0
    decreases |events|
  {
    if events != [] {
      NothingCountedAfter(Step(s, events[0]), events[0].now, events[1..], scope, from, until);
    }
  }

  /** Inside the window, what may still be admitted is paid for by the credit
      at hand and by what the rate adds before the window ends. */
  lemma {:induction false} CreditPaysForAdmissions(
    s: Store, t: real, events: seq<Event>, scope: Scope, from: real, until: real)
    requires BucketsSound(s, t) && ClockOrdered(events, t) && from <= t <= until
    ensures Admissions(s, events, scope, from, until) as real <= Credit(s, scope, t) + Gain(t, until, Rate(scope))
    decreases |events|
  {
    CreditBounds(s, scope, t);
    GainIsPositive(t, until, Rate(scope));
    if events != [] {
      var e := events[0];
      StepKeepsBuckets(s, t, e);
      if e.now <= until {
        CreditPaysForAdmissions(Step(s, e), e.now, events[1..], scope, from, until);
        StepSpendsCredit(s, t, e, scope);
        CreditGrows(s, t, scope, e.now);
        GainsAdd(t, e.now, until, Rate(scope));
      } else {
        NothingCountedAfter(Step(s, e), e.now, events[1..], scope, from, until);
      }
    }
  }

  /** Main result: no window, wherever it lies in a run, admits more than the
      burst plus what the rate adds over the window, although the sweep
      forgets and recreates the buckets of peers. */
  lemma {:induction false} WindowBound(s: Store, t: real, events: seq<Event>, scope: Scope, from: real, until: real)
    requires BucketsSound(s, t) && ClockOrdered(events, t) && from <= until
    ensures Admissions(s, events, scope, from, until) as real <= Burst(scope) + Gain(from, until, Rate(scope))
    decreases |events|
  {
    GainIsPositive(from, until, Rate(scope));
    if events != [] {
      var e := events[0];
      if e.now < from {
        StepKeepsBuckets(s, t, e);
        WindowBound(Step(s, e), e.now, events[1..], scope, from, until);
      } else if e.now <= until {
        WindowFrom(s, t, events, scope, from, until);
      } else {
        StepKeepsBuckets(s, t, e);
        NothingCountedAfter(Step(s, e), e.now, events[1..], scope, from, until);
      }
    }
  }

  lemma WindowFrom(s: Store, t: real, events: seq<Event>, scope: Scope, from: real, until: real)
    requires BucketsSound(s, t) && ClockOrdered(events, t)
    requires events != [] && from <= events[0].now <= until
    ensures Admissions(s, events, scope, from, until) as real <= Burst(scope) + Gain(from, until, Rate(scope))
  {
    var now := events[0].now;
    assert BucketsSound(s, now);
    CreditPaysForAdmissions(s, now, events, scope, from, until);
    CreditBounds(s, scope, now);
    GainIsPositive(from, now, Rate(scope));
    GainsAdd(from, now, until, Rate(scope));
  }

  /** At most 8 + 8T/60 logins of one peer in any window of T seconds. */
  lemma PeerWindowBound(events: seq<Event>, t: real, peer: string, from: real, seconds: real)
    requires ClockOrdered(events, t) && 0.0 <= seconds
    ensures Admissions(EMPTY_STORE, events, OnePeer(peer), from, from + seconds) as real <= 8.0 + 8.0 * seconds / 60.0
  {
    WindowBound(EMPTY_STORE, t, events, OnePeer(peer), from, from + seconds);
  }

  /** At most 32 + 8T logins of all peers together in any window of T seconds. */
  lemma GlobalWindowBound(events: seq<Event>, t: real, from: real, seconds: real)
    requires ClockOrdered(events, t) && 0.0 <= seconds
    ensures Admissions(EMPTY_STORE, events, AllPeers, from, from + seconds) as real <= 32.0 + 8.0 * seconds
  {
    WindowBound(EMPTY_STORE, t, events, AllPeers, from, from + seconds);
  }

  // ---------------------------------------------------------------------
  // Forgetting idle clients cannot be observed
  // ---------------------------------------------------------------------

  /** The reference store never forgets a bucket and has no cap on clients. */
  function RefStep(r: Store, e: Event): Store {
    match e.action
    case Reserve(peer, tokens) => if Admissible(r, peer, e.now) then Admit(r, peer, tokens, e.now) else r
    case Sweep => if r.closed then r else r.(flows := Unexpired(r.flows, e.now))
    case Close => r.(flows := map[], closed := true)
    case _ => Step(r, e)
  }

  function RefAnswer(r: Store, e: Event): Outcome {
    if e.action.Reserve? then
      if Admissible(r, e.action.peer, e.now) then Admitted(NewState(e.action.tokens, e.now)) else Refused
    else Answer(r, e)
  }

  predicate CapRefuses(s: Store, e: Event) {
    e.action.Reserve? && ClientCapRejects(s, e.action.peer)
  }

  function Answers(s: Store, events: seq<Event>): seq<Outcome>
    decreases |events|
  {
    if events == [] then [] else [Answer(s, events[0])] + Answers(Step(s, events[0]), events[1..])
  }

  /** What the reference answers; it is only told which logins the cap of `s` turned away. */
  function RefAnswers(s: Store, r: Store, events: seq<Event>): seq<Outcome>
    decreases |events|
  {
    if events == [] then []
    else if CapRefuses(s, events[0]) then [Refused] + RefAnswers(Step(s, events[0]), r, events[1..])
    else [RefAnswer(r, events[0])] + RefAnswers(Step(s, events[0]), RefStep(r, events[0]), events[1..])
  }

  /** Same flows, same global bucket, and every peer would draw from the same refilled bucket. */
  ghost predicate Similar(s: Store, r: Store, t: real) {
    && BucketsSound(s, t) && BucketsSound(r, t)
    && s.flows == r.flows && s.global == r.global && s.closed == r.closed
    && (!s.closed ==> forall p :: PeerBucket(s, p, t) == PeerBucket(r, p, t))
  }

  lemma SimilarLater(s: Store, r: Store, t: real, u: real)
    requires Similar(s, r, t) && t <= u
    ensures Similar(s, r, u)
  {
    if !s.closed {
      forall p ensures PeerBucket(s, p, u) == PeerBucket(r, p, u) {
        assert PeerBucket(s, p, t) == PeerBucket(r, p, t);
        RefillsCompose(Client(s, p), t, u, LOGIN_RATE, LOGIN_BURST);
        RefillsCompose(Client(r, p), t, u, LOGIN_RATE, LOGIN_BURST);
      }
    }
  }

  lemma AdmitKeepsSimilar(s: Store, r: Store, peer: string, tokens: Tokens, now: real)
    requires Similar(s, r, now) && Admissible(s, peer, now)
    ensures Admissible(r, peer, now)
    ensures Similar(Admit(s, peer, tokens, now), Admit(r, peer, tokens, now), now)
  {
    AdmitKeepsBuckets(s, now, peer, tokens, now);
    AdmitKeepsBuckets(r, now, peer, tokens, now);
    var s', r' := Admit(s, peer, tokens, now), Admit(r, peer, tokens, now);
    assert PeerBucket(s, peer, now) == PeerBucket(r, peer, now);
    forall p ensures PeerBucket(s', p, now) == PeerBucket(r', p, now) {
      assert PeerBucket(s, p, now) == PeerBucket(r, p, now);
    }
  }

  lemma SweepKeepsSimilar(s: Store, r: Store, e: Event)
    requires Similar(s, r, e.now) && e.action.Sweep?
    ensures Similar(Step(s, e), RefStep(r, e), e.now)
  {
    if !s.closed {
      forall p ensures PeerBucket(Step(s, e), p, e.now) == PeerBucket(RefStep(r, e), p, e.now) {
        SweepKeepsPeerBucket(s, e.now, p, e.now);
        assert PeerBucket(s, p, e.now) == PeerBucket(r, p, e.now);
      }
    }
  }

  lemma StepKeepsSimilar(s: Store, r: Store, e: Event)
    requires Similar(s, r, e.now) && !CapRefuses(s, e)
    ensures Answer(s, e) == RefAnswer(r, e)
    ensures Similar(Step(s, e), RefStep(r, e), e.now)
  {
    match e.action
    case Reserve(peer, tokens) =>
      if !s.closed {
        assert PeerBucket(s, peer, e.now) == PeerBucket(r, peer, e.now);
        if Admissible(s, peer, e.now) {
          AdmitKeepsSimilar(s, r, peer, tokens, e.now);
        }
      }
    case Sweep => SweepKeepsSimilar(s, r, e);
    case Close =>
    case Take(key, _) => OnlyFlowsChange(s, r, e);
    case Discard(key) => OnlyFlowsChange(s, r, e);
  }

  lemma OnlyFlowsChange(s: Store, r: Store, e: Event)
    requires Similar(s, r, e.now) && (e.action.Take? || e.action.Discard?)
    ensures Similar(Step(s, e), RefStep(r, e), e.now)
  {
    if !s.closed {
      forall p ensures PeerBucket(Step(s, e), p, e.now) == PeerBucket(RefStep(r, e), p, e.now) {
        assert PeerBucket(s, p, e.now) == PeerBucket(r, p, e.now);
      }
    }
  }

  lemma {:induction false} SimilarStoresAnswerAlike(s: Store, r: Store, t: real, events: seq<Event>)
    requires Similar(s, r, t) && ClockOrdered(events, t)
    ensures Answers(s, events) == RefAnswers(s, r, events)
    decreases |events|
  {
    if events != [] {
      var e := events[0];
      SimilarLater(s, r, t, e.now);
      if CapRefuses(s, e) {
        assert Step(s, e) == s;
        SimilarStoresAnswerAlike(s, r, e.now, events[1..]);
      } else {
        StepKeepsSimilar(s, r, e);
        SimilarStoresAnswerAlike(Step(s, e), RefStep(r, e), e.now, events[1..]);
      }
    }
  }

  /** Main result: over every run, every answer is the one a store that never
      forgets a client would give, except where the cap on clients refuses. */
  lemma ForgettingIsUnobservable(events: seq<Event>, t: real)
    requires ClockOrdered(events, t)
    ensures Answers(EMPTY_STORE, events) == RefAnswers(EMPTY_STORE, EMPTY_STORE, events)
  {
    SimilarStoresAnswerAlike(EMPTY_STORE, EMPTY_STORE, t, events);
  }
}

/** How long flows live, and what a login key is worth, over whole runs of the store. */
module OidcLifetime {
  import opened Prelude
  import opened LoginBuckets
  import opened OidcStore

  // ---------------------------------------------------------------------
  // The sweep timer
  // ---------------------------------------------------------------------

  /** The timer fires exactly when due: nothing happens after the due time of
      an armed sweep before that sweep, and no sweep runs at another time. */
  predicate Punctual(s: Store, events: seq<Event>)
    decreases |events|
  {
    events == [] ||
    (&& (s.timer.Some? ==> events[0].now <= s.timer.value)
     && (events[0].action.Sweep? ==> s.timer == Some(events[0].now))
     && Punctual(Step(s, events[0]), events[1..]))
  }

  /** Every flow is younger than its lifetime plus one sweep interval until the armed sweep is due. */
  ghost predicate Young(s: Store, t: real) {
    && TimerArmed(s, t)
    && (s.timer.Some? ==>
          && t <= s.timer.value <= t + SWEEP_INTERVAL
          && forall k :: k in s.flows ==> s.timer.value - s.flows[k].state.at < STATE_LIFETIME + SWEEP_INTERVAL)
  }

  /** A store at rest stays young until its sweep is due. */
  predicate Due(s: Store, t: real) {
    s.timer.Some? ==> t <= s.timer.value
  }

  lemma StepKeepsYoung(s: Store, t: real, e: Event)
    requires Young(s, t) && t <= e.now && Due(s, e.now)
    requires e.action.Sweep? ==> s.timer == Some(e.now)
    ensures Young(Step(s, e), e.now)
  {
  }

  lemma {:induction false} RunKeepsYoung(s: Store, t: real, events: seq<Event>)
    requires Young(s, t) && ClockOrdered(events, t) && Punctual(s, events)
    ensures Young(Run(s, events), LastTime(events, t))
    decreases |events|
  {
    if events != [] {
      StepKeepsYoung(s, t, events[0]);
      RunKeepsYoung(Step(s, events[0]), events[0].now, events[1..]);
    }
  }

  /** Main result: with a punctual timer no flow is ever 660 seconds old, not
      even just before the sweep that removes it, and an open store holding
      anything always has a sweep armed within the next minute. */
  lemma FlowLifetime(events: seq<Event>, t: real, now: real)
    requires ClockOrdered(events, t) && Punctual(EMPTY_STORE, events)
    requires LastTime(events, t) <= now && Due(Run(EMPTY_STORE, events), now)
    ensures var s := Run(EMPTY_STORE, events);
      && (forall k :: k in s.flows ==> now - s.flows[k].state.at < 660.0)
      && (s.flows != map[] || s.clients != map[] ==> s.timer.Some? && s.timer.value <= now + 60.0)
  {
    RunKeepsYoung(EMPTY_STORE, t, events);
  }

  /** The store after `n` firings of its timer with no request in between. */
  function Drained(s: Store, n: nat): Store
    decreases n
  {
    if n == 0 || s.timer.None? then s else Drained(Swept(s, s.timer.value), n - 1)
  }

  lemma {:induction false} DrainedByDeadline(s: Store, t: real, n: nat)
    requires n > 0 && s.timer.Some? && !s.closed && TimerArmed(s, t)
    requires forall p :: p in s.clients ==> s.clients[p].at.Some? && s.clients[p].at.value <= t
    requires t + STATE_LIFETIME <= s.timer.value + (n - 1) as real * SWEEP_INTERVAL
    ensures Drained(s, n).(global := UNUSED_BUCKET) == EMPTY_STORE
    decreases n
  {
    var s' := Swept(s, s.timer.value);
    if n == 1 {
      assert s'.flows == map[] && s'.clients == map[];
    }
    if s'.timer.None? {
      assert s'.flows == map[] && s'.clients == map[];
    } else {
      assert (n - 1) as real * SWEEP_INTERVAL == (n - 2) as real * SWEEP_INTERVAL + SWEEP_INTERVAL;
      DrainedByDeadline(s', t, n - 1);
    }
  }

  /** Main result: an open store left alone is empty, with no timer, after eleven sweeps. */
  lemma IdleStoreDrains(events: seq<Event>, t: real)
    requires ClockOrdered(events, t) && FreshKeys(events, {}) && Punctual(EMPTY_STORE, events)
    requires !Run(EMPTY_STORE, events).closed
    ensures Drained(Run(EMPTY_STORE, events), 11).(global := UNUSED_BUCKET) == EMPTY_STORE
  {
    var s := Run(EMPTY_STORE, events);
    RunKeepsYoung(EMPTY_STORE, t, events);
    ReachableInv(events, t);
    if s.timer.Some? {
      DrainedByDeadline(s, LastTime(events, t), 11);
    }
  }

  // ---------------------------------------------------------------------
  // What a key is worth
  // ---------------------------------------------------------------------

  /** How many times the run redeems `key`. */
  function Redemptions(s: Store, events: seq<Event>, key: string): nat
    decreases |events|
  {
    if events == [] then 0 else
      var rest := Redemptions(Step(s, events[0]), events[1..], key);
      if Answer(s, events[0]).Taken? && events[0].action.key == key then 1 + rest else rest
  }

  lemma {:induction false} RedeemedOnce(s: Store, events: seq<Event>, used: set<string>, key: string)
    requires s.flows.Keys <= used && FreshKeys(events, used)
    ensures Redemptions(s, events, key) <= if key in used && key !in s.flows then 0 else 1
    decreases |events|
  {
    if events != [] {
      var e := events[0];
      StepKeepsUsed(s, e, used);
      RedeemedOnce(Step(s, e), events[1..], if e.action.Reserve? then used + {e.action.tokens.key} else used, key);
    }
  }

  /** Main result: a login key is redeemed at most once in any run. */
  lemma KeyIsSingleUse(events: seq<Event>, key: string)
    requires FreshKeys(events, {})
    ensures Redemptions(EMPTY_STORE, events, key) <= 1
  {
    RedeemedOnce(EMPTY_STORE, events, {}, key);
  }

  /** Which values each key was handed out with, and when. */
  function Issued(s: Store, events: seq<Event>): map<string, OidcState>
    decreases |events|
  {
    if events == [] then map[] else
      var rest := Issued(Step(s, events[0]), events[1..]);
      if Answer(s, events[0]).Admitted? then
        var t := events[0].action.tokens;
        map[t.key := OidcState(t.browserToken, t.nonce, t.verifier, events[0].now)] + rest
      else rest
  }

  /** Every flow of the final store was there at the start, or was issued in the run as it is now. */
  lemma {:induction false} FlowsAreIssued(s: Store, events: seq<Event>, used: set<string>)
    requires s.flows.Keys <= used && FreshKeys(events, used)
    ensures Issued(s, events).Keys !! used
    ensures var f := Run(s, events).flows;
      forall k :: k in f ==>
        if k in used then k in s.flows && f[k] == s.flows[k]
        else k in Issued(s, events) && f[k].state == Issued(s, events)[k]
    decreases |events|
  {
    if events != [] {
      var e := events[0];
      StepKeepsUsed(s, e, used);
      FlowsAreIssued(Step(s, e), events[1..], if e.action.Reserve? then used + {e.action.tokens.key} else used);
    }
  }

  /** Main result: whoever redeems a key shows the very browser token issued
      with it, and gets back exactly the nonce and verifier issued with it,
      marked as expired from ten minutes after issue on. */
  lemma RedemptionMatchesIssue(events: seq<Event>, e: Event)
    requires FreshKeys(events, {}) && e.action.Take?
    requires Answer(Run(EMPTY_STORE, events), e).Taken?
    ensures var issued := Issued(EMPTY_STORE, events); var key := e.action.key;
      && key in issued
      && e.action.browserToken == issued[key].browserToken
      && Answer(Run(EMPTY_STORE, events), e) == Taken(issued[key], e.now >= issued[key].at + STATE_LIFETIME)
  {
    FlowsAreIssued(EMPTY_STORE, events, {});
  }
}

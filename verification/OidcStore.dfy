/** The OIDC login state store as a state machine: what each operation does to
    the flows, the rate-limit buckets and the sweep timer. The class
    `OidcStateStore` performs these operations in place. */
module OidcStore {
  import opened Prelude
  import opened LoginBuckets

  const MAX_STATES := 1024
  const MAX_STATES_PER_PEER := 16
  const MAX_RATE_CLIENTS := 1024
  const SWEEP_INTERVAL := 60.0
  const STATE_LIFETIME := 600.0

  datatype OidcState = OidcState(browserToken: string, nonce: string, verifier: string, at: real)

  datatype OidcFlow = OidcFlow(state: OidcState, peer: string)

  /** `timer` is the time at which the armed sweep is due. */
  datatype Store = Store(
    flows: map<string, OidcFlow>,
    clients: map<string, LoginBucket>,
    global: LoginBucket,
    timer: Option<real>,
    closed: bool)

  const EMPTY_STORE := Store(map[], map[], UNUSED_BUCKET, None, false)

  /** The random values drawn for one admitted login. */
  datatype Tokens = Tokens(key: string, browserToken: string, nonce: string, verifier: string)

  datatype Action =
    | Reserve(peer: string, tokens: Tokens)
    | Take(key: string, browserToken: string)
    | Discard(key: string)
    | Sweep
    | Close

  datatype Event = Event(now: real, action: Action)

  datatype Outcome =
    | Admitted(state: OidcState)
    | Refused
    | Taken(taken: OidcState, expired: bool)
    | NotTaken
    | Silent

  function PeerFlows(flows: map<string, OidcFlow>, peer: string): set<string> {
    set k | k in flows && flows[k].peer == peer
  }

  /** The number of flows of each peer that has any. */
  function Tally(flows: map<string, OidcFlow>): map<string, int> {
    map p | p in (set k | k in flows :: flows[k].peer) :: |PeerFlows(flows, p)|
  }

  function Client(s: Store, peer: string): LoginBucket {
    if peer in s.clients then s.clients[peer] else UNUSED_BUCKET
  }

  /** The bucket `peer` would draw from at `now`. */
  function PeerBucket(s: Store, peer: string, now: real): LoginBucket {
    Refill(Client(s, peer), now, LOGIN_RATE, LOGIN_BURST)
  }

  function GlobalBucket(s: Store, now: real): LoginBucket {
    Refill(s.global, now, GLOBAL_RATE, GLOBAL_BURST)
  }

  /** The login is refused only because too many clients are being tracked. */
  predicate ClientCapRejects(s: Store, peer: string) {
    peer !in s.clients && |s.clients| >= MAX_RATE_CLIENTS
  }

  /** Everything that decides a login apart from the cap on tracked clients. */
  predicate Admissible(s: Store, peer: string, now: real) {
    && !s.closed
    && |s.flows| < MAX_STATES
    && |PeerFlows(s.flows, peer)| < MAX_STATES_PER_PEER
    && GlobalBucket(s, now).tokens >= 1.0
    && PeerBucket(s, peer, now).tokens >= 1.0
  }

  function NewState(tokens: Tokens, now: real): OidcState {
    OidcState(tokens.browserToken, tokens.nonce, tokens.verifier, now)
  }

  function Spend(b: LoginBucket): LoginBucket {
    b.(tokens := b.tokens - 1.0)
  }

  function Armed(s: Store, now: real): Option<real> {
    if s.timer.None? then Some(now + SWEEP_INTERVAL) else s.timer
  }

  function Admit(s: Store, peer: string, tokens: Tokens, now: real): Store {
    s.(flows := s.flows[tokens.key := OidcFlow(NewState(tokens, now), peer)],
       clients := s.clients[peer := Spend(PeerBucket(s, peer, now))],
       global := Spend(GlobalBucket(s, now)),
       timer := Armed(s, now))
  }

  predicate Redeems(s: Store, key: string, browserToken: string) {
    key in s.flows && browserToken != "" && s.flows[key].state.browserToken == browserToken
  }

  predicate Expired(state: OidcState, now: real) {
    now >= state.at + STATE_LIFETIME
  }

  predicate Idle(b: LoginBucket, now: real) {
    b.at.None? || now >= b.at.value + IDLE_SECONDS
  }

  function Unexpired(flows: map<string, OidcFlow>, now: real): map<string, OidcFlow> {
    map k | k in flows && !Expired(flows[k].state, now) :: flows[k]
  }

  function Active(clients: map<string, LoginBucket>, now: real): map<string, LoginBucket> {
    map p | p in clients && !Idle(clients[p], now) :: clients[p]
  }

  function Swept(s: Store, now: real): Store {
    if s.closed then s.(timer := None)
    else
      var flows, clients := Unexpired(s.flows, now), Active(s.clients, now);
      s.(flows := flows, clients := clients,
         timer := if |flows| > 0 || |clients| > 0 then Some(now + SWEEP_INTERVAL) else None)
  }

  function Closed(s: Store): Store {
    s.(flows := map[], clients := map[], timer := None, closed := true)
  }

  function Step(s: Store, e: Event): Store {
    match e.action
    case Reserve(peer, tokens) =>
      if Admissible(s, peer, e.now) && !ClientCapRejects(s, peer) then Admit(s, peer, tokens, e.now) else s
    case Take(key, browserToken) =>
      if Redeems(s, key, browserToken) then s.(flows := s.flows - {key}) else s
    case Discard(key) => s.(flows := s.flows - {key})
    case Sweep => Swept(s, e.now)
    case Close => Closed(s)
  }

  function Answer(s: Store, e: Event): Outcome {
    match e.action
    case Reserve(peer, tokens) =>
      if Admissible(s, peer, e.now) && !ClientCapRejects(s, peer) then Admitted(NewState(tokens, e.now)) else Refused
    case Take(key, browserToken) =>
      if Redeems(s, key, browserToken) then Taken(s.flows[key].state, Expired(s.flows[key].state, e.now)) else NotTaken
    case _ => Silent
  }

  function Run(s: Store, events: seq<Event>): Store
    decreases |events|
  {
    if events == [] then s else Run(Step(s, events[0]), events[1..])
  }

  /** The clock never runs backwards. */
  predicate ClockOrdered(events: seq<Event>, t: real) {
    events == [] || (t <= events[0].now && ClockOrdered(events[1..], events[0].now))
  }

  function LastTime(events: seq<Event>, t: real): real {
    if events == [] then t else LastTime(events[1..], events[0].now)
  }

  /** No key is ever drawn twice; `used` are the keys drawn so far. */
  predicate FreshKeys(events: seq<Event>, used: set<string>) {
    events == [] ||
    match events[0].action
    case Reserve(_, tokens) => tokens.key !in used && FreshKeys(events[1..], used + {tokens.key})
    case _ => FreshKeys(events[1..], used)
  }

  /** The caps on flows, on the flows of one peer and on tracked clients. */
  ghost predicate Capped(s: Store) {
    && |s.flows| <= MAX_STATES
    && |s.clients| <= MAX_RATE_CLIENTS
    && (forall p :: |PeerFlows(s.flows, p)| <= MAX_STATES_PER_PEER)
  }

  /** Every bucket is sound at time `t`. */
  ghost predicate BucketsSound(s: Store, t: real) {
    && (forall p :: p in s.clients ==> s.clients[p].at.Some? && Sound(s.clients[p], t, LOGIN_BURST))
    && Sound(s.global, t, GLOBAL_BURST)
  }

  /** A closed store holds nothing, and whatever an open one holds a sweep is armed for. */
  ghost predicate TimerArmed(s: Store, t: real) {
    && (forall k :: k in s.flows ==> s.flows[k].state.at <= t)
    && (s.closed ==> s.timer.None?)
    && (s.timer.None? ==> s.flows == map[] && s.clients == map[])
  }

  /** What holds of every reachable store at time `t`. */
  ghost predicate Inv(s: Store, t: real) {
    Capped(s) && BucketsSound(s, t) && TimerArmed(s, t)
  }

  lemma AdmitPeerFlows(flows: map<string, OidcFlow>, key: string, f: OidcFlow, p: string)
    requires key !in flows
    ensures PeerFlows(flows[key := f], p) == PeerFlows(flows, p) + (if p == f.peer then {key} else {})
    ensures |PeerFlows(flows[key := f], p)| == |PeerFlows(flows, p)| + (if p == f.peer then 1 else 0)
  {
  }

  lemma FewerFlows(small: map<string, OidcFlow>, large: map<string, OidcFlow>, p: string)
    requires small.Keys <= large.Keys
    requires forall k :: k in small ==> small[k] == large[k]
    ensures |small| <= |large|
    ensures |PeerFlows(small, p)| <= |PeerFlows(large, p)|
  {
    SubmapSize(small, large);
    SubsetSize(PeerFlows(small, p), PeerFlows(large, p));
  }

  lemma AdmitKeepsCaps(s: Store, peer: string, tokens: Tokens, now: real)
    requires Capped(s) && tokens.key !in s.flows
    requires Admissible(s, peer, now) && !ClientCapRejects(s, peer)
    ensures Capped(Admit(s, peer, tokens, now))
  {
    var s' := Admit(s, peer, tokens, now);
    assert |s'.flows| <= MAX_STATES by {
      assert s'.flows.Keys == s.flows.Keys + {tokens.key};
    }
    assert |s'.clients| <= MAX_RATE_CLIENTS by {
      assert s'.clients.Keys == s.clients.Keys + {peer};
    }
    forall p ensures |PeerFlows(s'.flows, p)| <= MAX_STATES_PER_PEER {
      AdmitPeerFlows(s.flows, tokens.key, OidcFlow(NewState(tokens, now), peer), p);
    }
  }

  lemma AdmitKeepsBuckets(s: Store, t: real, peer: string, tokens: Tokens, now: real)
    requires BucketsSound(s, t) && t <= now
    requires Admissible(s, peer, now)
    ensures BucketsSound(Admit(s, peer, tokens, now), now)
  {
  }

  lemma ShrinkKeepsCaps(s: Store, s': Store)
    requires Capped(s)
    requires s'.flows.Keys <= s.flows.Keys && forall k :: k in s'.flows ==> s'.flows[k] == s.flows[k]
    requires s'.clients.Keys <= s.clients.Keys
    ensures Capped(s')
  {
    forall p ensures |PeerFlows(s'.flows, p)| <= MAX_STATES_PER_PEER {
      FewerFlows(s'.flows, s.flows, p);
    }
    SubmapSize(s'.flows, s.flows);
    SubmapSize(s'.clients, s.clients);
  }

  lemma AdmitKeepsInv(s: Store, t: real, peer: string, tokens: Tokens, now: real)
    requires Inv(s, t) && t <= now && tokens.key !in s.flows
    requires Admissible(s, peer, now) && !ClientCapRejects(s, peer)
    ensures Inv(Admit(s, peer, tokens, now), now)
  {
    AdmitKeepsCaps(s, peer, tokens, now);
    AdmitKeepsBuckets(s, t, peer, tokens, now);
  }

  lemma ShrinkKeepsInv(s: Store, t: real, e: Event)
    requires Inv(s, t) && t <= e.now && !e.action.Reserve?
    ensures Inv(Step(s, e), e.now)
  {
    ShrinkKeepsCaps(s, Step(s, e));
    ShrinkKeepsTimer(s, t, e);
  }

  lemma ShrinkKeepsTimer(s: Store, t: real, e: Event)
    requires TimerArmed(s, t) && t <= e.now && !e.action.Reserve?
    ensures TimerArmed(Step(s, e), e.now)
  {
    var s' := Step(s, e);
    if e.action.Sweep? && !s.closed && |s'.flows| == 0 && |s'.clients| == 0 {
      assert s'.flows == map[] && s'.clients == map[];
    }
  }

  /** Every operation keeps the invariant, provided a new flow gets a key not in use. */
  lemma StepKeepsInv(s: Store, t: real, e: Event)
    requires Inv(s, t) && t <= e.now
    requires e.action.Reserve? ==> e.action.tokens.key !in s.flows
    ensures Inv(Step(s, e), e.now)
  {
    if !e.action.Reserve? {
      ShrinkKeepsInv(s, t, e);
    } else if Step(s, e) != s {
      AdmitKeepsInv(s, t, e.action.peer, e.action.tokens, e.now);
    }
  }

  /** Keys in use are among the keys already drawn. */
  lemma StepKeepsUsed(s: Store, e: Event, used: set<string>)
    requires s.flows.Keys <= used
    ensures Step(s, e).flows.Keys <= if e.action.Reserve? then used + {e.action.tokens.key} else used
  {
  }

  /** Main result: in every store reachable from the empty one, every cap holds,
      every bucket is sound, and a sweep is armed whenever there is something to sweep. */
  lemma {:induction false} RunKeepsInv(s: Store, t: real, events: seq<Event>, used: set<string>)
    requires Inv(s, t) && s.flows.Keys <= used
    requires ClockOrdered(events, t) && FreshKeys(events, used)
    ensures Inv(Run(s, events), LastTime(events, t))
    decreases |events|
  {
    if events != [] {
      var e := events[0];
      StepKeepsInv(s, t, e);
      StepKeepsUsed(s, e, used);
      RunKeepsInv(Step(s, e), e.now, events[1..], if e.action.Reserve? then used + {e.action.tokens.key} else used);
    }
  }

  lemma ReachableInv(events: seq<Event>, t: real)
    requires ClockOrdered(events, t) && FreshKeys(events, {})
    ensures Inv(Run(EMPTY_STORE, events), LastTime(events, t))
  {
    forall p ensures |PeerFlows(EMPTY_STORE.flows, p)| <= MAX_STATES_PER_PEER {
      assert PeerFlows(EMPTY_STORE.flows, p) == {};
    }
    RunKeepsInv(EMPTY_STORE, t, events, {});
  }
}

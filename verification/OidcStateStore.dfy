/** The login state store as the object it is: three maps, the global bucket, the
    timer and the close flag, updated in place. Every method is proved to perform
    the operation of the same name in `OidcStore`. */
module OidcStateStores {
  import opened Prelude
  import opened LoginBuckets
  import opened OidcStore

  class OidcStateStore {
    var flows: map<string, OidcFlow>
    var counts: map<string, int>
    var clients: map<string, LoginBucket>
    var global: LoginBucket
    var timer: Option<real>
    var closed: bool

    /** `counts` holds the number of flows of every peer that has one, and no zero entries. */
    ghost predicate Valid()
      reads this
    {
      counts == Tally(flows)
    }

    ghost function Abstract(): Store
      reads this
    {
      Store(flows, clients, global, timer, closed)
    }

    constructor ()
      ensures Valid() && Abstract() == EMPTY_STORE
    {
      flows, counts, clients := map[], map[], map[];
      global, timer, closed := UNUSED_BUCKET, None, false;
    }

    /** The tokens are the random values drawn on admission; that the key was
        never drawn before is the one assumption about randomness. */
    method Reserve(peer: string, tokens: Tokens, now: real) returns (key: string, state: Option<OidcState>)
      requires Valid() && tokens.key !in flows
      modifies this
      ensures Valid()
      ensures var e := Event(now, Action.Reserve(peer, tokens));
        && Abstract() == Step(old(Abstract()), e)
        && Answer(old(Abstract()), e) == (if state.Some? then Admitted(state.value) else Refused)
      ensures key == if state.Some? then tokens.key else ""
    {
      ghost var was := Abstract();
      TallyCounts(flows, peer);
      if closed || |flows| >= MAX_STATES || (peer in counts && counts[peer] >= MAX_STATES_PER_PEER) {
        return "", None;
      }
      var total := Refill(global, now, GLOBAL_RATE, GLOBAL_BURST);
      if total.tokens < 1.0 {
        return "", None;
      }
      if peer !in clients && |clients| >= MAX_RATE_CLIENTS {
        return "", None;
      }
      var client := if peer in clients then clients[peer] else UNUSED_BUCKET;
      client := Refill(client, now, LOGIN_RATE, LOGIN_BURST);
      if client.tokens < 1.0 {
        return "", None;
      }
      assert Admissible(was, peer, now) && !ClientCapRejects(was, peer);
      key := tokens.key;
      state := Some(NewState(tokens, now));
      Record(key, OidcFlow(NewState(tokens, now), peer));
      global := Spend(total);
      clients := clients[peer := Spend(client)];
      if timer == None {
        timer := Some(now + SWEEP_INTERVAL);
      }
      assert Abstract() == Admit(was, peer, tokens, now);
    }

    method Record(key: string, flow: OidcFlow)
      requires Valid() && key !in flows
      modifies `flows, `counts
      ensures Valid() && flows == old(flows)[key := flow]
    {
      TallyAdded(flows, key, flow);
      flows := flows[key := flow];
      counts := counts[flow.peer := (if flow.peer in counts then counts[flow.peer] else 0) + 1];
    }

    method Remove(key: string, flow: OidcFlow)
      requires Valid() && key in flows && flows[key] == flow
      modifies `flows, `counts
      ensures Valid() && flows == old(flows) - {key}
    {
      TallyRemoved(flows, key);
      flows := flows - {key};
      counts := counts[flow.peer := counts[flow.peer] - 1];
      if counts[flow.peer] == 0 {
        counts := counts - {flow.peer};
      }
    }

    method Take(key: string, browserToken: string, now: real) returns (state: Option<OidcState>, expired: bool)
      requires Valid()
      modifies this
      ensures Valid()
      ensures var e := Event(now, Action.Take(key, browserToken));
        && Abstract() == Step(old(Abstract()), e)
        && Answer(old(Abstract()), e) == (if state.Some? then Taken(state.value, expired) else NotTaken)
    {
      if key !in flows || browserToken == "" || flows[key].state.browserToken != browserToken {
        return None, false;
      }
      var flow := flows[key];
      Remove(key, flow);
      return Some(flow.state), !(now < flow.state.at + STATE_LIFETIME);
    }

    method Discard(key: string, now: real)
      requires Valid()
      modifies this
      ensures Valid() && Abstract() == Step(old(Abstract()), Event(now, Action.Discard(key)))
      ensures flows == old(flows) - {key} && clients == old(clients) && global == old(global) && timer == old(timer)
    {
      if key in flows {
        Remove(key, flows[key]);
      }
    }

    method Sweep(now: real)
      requires Valid()
      modifies this
      ensures Valid() && Abstract() == Step(old(Abstract()), Event(now, Action.Sweep))
    {
      timer := None;
      if closed {
        return;
      }
      DropExpired(now);
      DropIdle(now);
      if |flows| > 0 || |clients| > 0 {
        timer := Some(now + SWEEP_INTERVAL);
      }
    }

    /** The first loop of the sweep; the map is visited in any order. */
    method DropExpired(now: real)
      requires Valid()
      modifies `flows, `counts
      ensures Valid() && flows == Unexpired(old(flows), now)
    {
      var keys := flows.Keys;
      while keys != {}
        invariant Valid()
        invariant keys <= old(flows).Keys
        invariant flows == map k | k in old(flows) && (k in keys || !Expired(old(flows)[k].state, now)) :: old(flows)[k]
        decreases keys
      {
        var key :| key in keys;
        if !(now < flows[key].state.at + STATE_LIFETIME) {
          Remove(key, flows[key]);
        }
        keys := keys - {key};
      }
    }

    /** The second loop of the sweep. */
    method DropIdle(now: real)
      modifies `clients
      ensures clients == Active(old(clients), now)
    {
      var peers := clients.Keys;
      while peers != {}
        invariant peers <= old(clients).Keys
        invariant clients == map p | p in old(clients) && (p in peers || !Idle(old(clients)[p], now)) :: old(clients)[p]
        decreases peers
      {
        var peer :| peer in peers;
        if clients[peer].at.None? || !(now < clients[peer].at.value + IDLE_SECONDS) {
          clients := clients - {peer};
        }
        peers := peers - {peer};
      }
    }

    method Close(now: real)
      requires Valid()
      modifies this
      ensures Valid() && Abstract() == Step(old(Abstract()), Event(now, Action.Close))
    {
      closed := true;
      if timer != None {
        timer := None;
      }
      flows, counts, clients := map[], map[], map[];
    }
  }

  /** The recorded count of a peer, absent meaning none, is the number of its flows. */
  lemma TallyCounts(flows: map<string, OidcFlow>, peer: string)
    ensures var counts := Tally(flows);
      && (peer in counts ==> counts[peer] == |PeerFlows(flows, peer)| > 0)
      && (peer !in counts ==> |PeerFlows(flows, peer)| == 0)
  {
    if peer in Tally(flows) {
      var k :| k in flows && flows[k].peer == peer;
      assert k in PeerFlows(flows, peer);
    } else {
      assert PeerFlows(flows, peer) == {};
    }
  }

  lemma TallyAdded(flows: map<string, OidcFlow>, key: string, flow: OidcFlow)
    requires key !in flows
    ensures var counts := Tally(flows);
      Tally(flows[key := flow]) == counts[flow.peer := (if flow.peer in counts then counts[flow.peer] else 0) + 1]
  {
    var after := flows[key := flow];
    TallyCounts(flows, flow.peer);
    assert forall k :: k in after <==> k in flows || k == key;
    forall p ensures |PeerFlows(after, p)| == |PeerFlows(flows, p)| + if p == flow.peer then 1 else 0 {
      AdmitPeerFlows(flows, key, flow, p);
    }
    forall p ensures p in Tally(after) <==> p in Tally(flows) || p == flow.peer {
      TallyCounts(flows, p);
      TallyCounts(after, p);
    }
  }

  lemma TallyRemoved(flows: map<string, OidcFlow>, key: string)
    requires key in flows
    ensures var counts, peer := Tally(flows), flows[key].peer;
      && peer in counts
      && Tally(flows - {key}) == if counts[peer] == 1 then counts - {peer} else counts[peer := counts[peer] - 1]
  {
    var before := flows - {key};
    TallyAdded(before, key, flows[key]);
    assert before[key := flows[key]] == flows;
    TallyCounts(before, flows[key].peer);
  }
}

/** What the serial calls of network/plugins/ws.rs keep about the connections themselves. The zombie check
    (ws.rs:680-689) disconnects a connection that the receive loop disconnects again at its end (738-740). */
module WebSocketBooks {
  import opened Prelude
  import opened WebSocketAccounting
  import opened WebSocketManager

  type ConnId = TaskId

  /** The live connections counted under an address: those of its peers, and of unknown ones for 0.0.0.0. */
  ghost function Under(live: map<ConnId, Option<Ip>>, ip: Ip): set<ConnId> {
    set t | t in live && (live[t] == Some(ip) || (live[t] == None && ip == 0))
  }

  /** Total and counts are those of the live connections: accepted and not yet disconnected. */
  ghost predicate Matches(s: Shared, live: map<ConnId, Option<Ip>>) {
    && s.total == |live| <= MAX_CONNECTIONS
    && (forall ip :: Count(s.counts, ip) == |Under(live, ip)| <= MAX_CONNECTIONS_PER_IP)
    && s.blocked == map[]
  }

  /** `peer` is the address of the client, if known. */
  datatype Op =
    | Connect(id: ConnId, peer: Option<Ip>, cleanAt: nat, blockAt: nat)
    | Disconnect(id: ConnId, peer: Option<Ip>)

  /** New connections have new ids, and a live connection disconnects under its own address. */
  ghost predicate Admissible(live: map<ConnId, Option<Ip>>, op: Op) {
    match op
    case Connect(id, _, _, _) => id !in live
    case Disconnect(id, peer) => id in live ==> live[id] == peer
  }

  ghost function SharedAfter(s: Shared, op: Op): Shared {
    match op
    case Connect(_, peer, cleanAt, blockAt) => Connected(s, ClientIp(peer), cleanAt, blockAt).0
    case Disconnect(_, peer) => Disconnected(s, ClientIp(peer))
  }

  ghost function LiveAfter(s: Shared, live: map<ConnId, Option<Ip>>, op: Op): map<ConnId, Option<Ip>> {
    match op
    case Connect(id, peer, cleanAt, blockAt) =>
      if Connected(s, ClientIp(peer), cleanAt, blockAt).1 then live[id := peer] else live
    case Disconnect(id, _) => live - {id}
  }

  // ---------- One call ----------

  lemma UnderAfterDisconnect(live: map<ConnId, Option<Ip>>, id: ConnId, x: Ip)
    ensures |Under(live - {id}, x)| == |Under(live, x)| - One(id in live && ClientIp(live[id]) == x)
  {
    SizeAfter(Under(live, x), Under(live - {id}, x), id, false);
  }

  lemma UnderAfterConnect(live: map<ConnId, Option<Ip>>, id: ConnId, peer: Option<Ip>, x: Ip)
    requires id !in live
    ensures |Under(live[id := peer], x)| == |Under(live, x)| + One(x == ClientIp(peer))
  {
    SizeAfter(Under(live, x), Under(live[id := peer], x), id, x == ClientIp(peer));
  }

  predicate Unknown(peer: Option<Ip>) {
    peer == None || peer == Some(0)
  }

  /** The live connections that share the limit of `peer`: those of the same known address, or all of
      unknown address. */
  ghost function Sharing(live: map<ConnId, Option<Ip>>, peer: Option<Ip>): set<ConnId> {
    set t | t in live && (live[t] == peer || (Unknown(live[t]) && Unknown(peer)))
  }

  lemma SharingIsUnder(live: map<ConnId, Option<Ip>>, peer: Option<Ip>)
    ensures Sharing(live, peer) == Under(live, ClientIp(peer))
  {
  }

  lemma AcceptedCount(s: Shared, live: map<ConnId, Option<Ip>>, id: ConnId, peer: Option<Ip>, r: Shared, x: Ip)
    requires id !in live && Count(s.counts, ClientIp(peer)) < MAX_CONNECTIONS_PER_IP
    requires Count(s.counts, x) == |Under(live, x)| <= MAX_CONNECTIONS_PER_IP
    requires Count(r.counts, x) == Count(s.counts, x) + One(x == ClientIp(peer))
    ensures Count(r.counts, x) == |Under(live[id := peer], x)| <= MAX_CONNECTIONS_PER_IP
  {
    UnderAfterConnect(live, id, peer, x);
  }

  /** One more live connection, and one more counted. */
  lemma AcceptedMatches(s: Shared, live: map<ConnId, Option<Ip>>, id: ConnId, peer: Option<Ip>, r: Shared)
    requires Matches(s, live) && id !in live
    requires |live| < MAX_CONNECTIONS && Count(s.counts, ClientIp(peer)) < MAX_CONNECTIONS_PER_IP
    requires r.total == s.total + 1 && r.blocked == map[]
    requires forall x :: Count(r.counts, x) == Count(s.counts, x) + One(x == ClientIp(peer))
    ensures Matches(r, live[id := peer])
  {
    var after := live[id := peer];
    assert after.Keys == live.Keys + {id};
    forall x ensures Count(r.counts, x) == |Under(after, x)| <= MAX_CONNECTIONS_PER_IP {
      AcceptedCount(s, live, id, peer, r, x);
    }
  }

  /** A connect is accepted exactly when the live connections leave room in both limits, and keeps the books. */
  lemma ConnectMatches(s: Shared, live: map<ConnId, Option<Ip>>, id: ConnId, peer: Option<Ip>, cleanAt: nat, blockAt: nat)
    requires Matches(s, live) && id !in live
    ensures var op := Connect(id, peer, cleanAt, blockAt);
            && Matches(SharedAfter(s, op), LiveAfter(s, live, op))
            && LiveAfter(s, live, op) == if |live| < 1000 && |Sharing(live, peer)| < 20 then live[id := peer] else live
  {
    SharingIsUnder(live, peer);
    assert Count(s.counts, ClientIp(peer)) == |Under(live, ClientIp(peer))|;
    ConnectCounts(s, ClientIp(peer), cleanAt, blockAt);
    var (r, ok) := Connected(s, ClientIp(peer), cleanAt, blockAt);
    if ok {
      AcceptedMatches(s, live, id, peer, r);
    }
  }

  lemma DisconnectMatches(s: Shared, live: map<ConnId, Option<Ip>>, id: ConnId)
    requires Matches(s, live) && id in live
    ensures Matches(Disconnected(s, ClientIp(live[id])), live - {id})
  {
    var ip := ClientIp(live[id]);
    var r := Disconnected(s, ip);
    assert id in Under(live, ip) && Count(s.counts, ip) == |Under(live, ip)|;
    assert (live - {id}).Keys == live.Keys - {id};
    forall x ensures Count(r.counts, x) == |Under(live - {id}, x)| <= MAX_CONNECTIONS_PER_IP {
      UnderAfterDisconnect(live, id, x);
      assert Count(s.counts, x) == |Under(live, x)|;
    }
  }

  /** Exactly the disconnects of live connections keep the books. A second disconnect of one connection
      breaks them whatever else is connected, also from the same address. */
  lemma DisconnectMatchesIff(s: Shared, live: map<ConnId, Option<Ip>>, id: ConnId, peer: Option<Ip>)
    requires Matches(s, live) && Admissible(live, Disconnect(id, peer))
    ensures Matches(SharedAfter(s, Disconnect(id, peer)), live - {id}) <==> id in live
  {
    if id in live {
      DisconnectMatches(s, live, id);
    } else {
      assert live - {id} == live;
    }
  }

  // ---------- Runs ----------

  ghost predicate AdmissibleRun(s: Shared, live: map<ConnId, Option<Ip>>, ops: seq<Op>)
    decreases |ops|
  {
    ops != [] ==> Admissible(live, ops[0]) && AdmissibleRun(SharedAfter(s, ops[0]), LiveAfter(s, live, ops[0]), ops[1..])
  }

  /** The books are right before the first call and after every one. */
  ghost predicate MatchesThroughout(s: Shared, live: map<ConnId, Option<Ip>>, ops: seq<Op>)
    decreases |ops|
  {
    Matches(s, live) && (ops != [] ==> MatchesThroughout(SharedAfter(s, ops[0]), LiveAfter(s, live, ops[0]), ops[1..]))
  }

  /** Every disconnect is of a connection that is live at that moment. */
  ghost predicate OneDisconnectEach(s: Shared, live: map<ConnId, Option<Ip>>, ops: seq<Op>)
    decreases |ops|
  {
    ops != [] ==>
      && (ops[0].Disconnect? ==> ops[0].id in live)
      && OneDisconnectEach(SharedAfter(s, ops[0]), LiveAfter(s, live, ops[0]), ops[1..])
  }

  /** Over any run of calls the books stay right exactly when no connection is disconnected twice. */
  lemma {:induction false} BooksStayRightIff(s: Shared, live: map<ConnId, Option<Ip>>, ops: seq<Op>)
    requires Matches(s, live) && AdmissibleRun(s, live, ops)
    ensures MatchesThroughout(s, live, ops) <==> OneDisconnectEach(s, live, ops)
    decreases |ops|
  {
    if ops != [] {
      match ops[0] {
        case Connect(id, peer, cleanAt, blockAt) => ConnectMatches(s, live, id, peer, cleanAt, blockAt);
        case Disconnect(id, peer) => DisconnectMatchesIff(s, live, id, peer);
      }
      if Matches(SharedAfter(s, ops[0]), LiveAfter(s, live, ops[0])) {
        BooksStayRightIff(SharedAfter(s, ops[0]), LiveAfter(s, live, ops[0]), ops[1..]);
      }
    }
  }

  /** Right books make the two books equal to each other. */
  lemma MatchesIsQuiet(s: Shared, live: map<ConnId, Option<Ip>>)
    requires Matches(s, live)
    ensures Quiet(s)
  {
    var addresses := map t | t in live :: ClientIp(live[t]);
    forall ip ensures Count(s.counts, ip) == |From(addresses, ip)| {
      assert From(addresses, ip) == Under(live, ip);
    }
    SumIsSize(s.counts, addresses);
    assert addresses.Keys == live.Keys;
  }

  ghost function AfterRun(s: Shared, live: map<ConnId, Option<Ip>>, ops: seq<Op>): (Shared, map<ConnId, Option<Ip>>)
    decreases |ops|
  {
    if ops == [] then (s, live) else AfterRun(SharedAfter(s, ops[0]), LiveAfter(s, live, ops[0]), ops[1..])
  }

  lemma {:induction false} MatchesAtEnd(s: Shared, live: map<ConnId, Option<Ip>>, ops: seq<Op>)
    requires MatchesThroughout(s, live, ops)
    ensures var (t, left) := AfterRun(s, live, ops); Matches(t, left)
    decreases |ops|
  {
    if ops != [] {
      MatchesAtEnd(SharedAfter(s, ops[0]), LiveAfter(s, live, ops[0]), ops[1..]);
    }
  }

  const NEW := Shared(0, map[], map[])

  lemma RunMatches(ops: seq<Op>)
    requires AdmissibleRun(NEW, map[], ops) && OneDisconnectEach(NEW, map[], ops)
    ensures var (s, live) := AfterRun(NEW, map[], ops); Matches(s, live)
  {
    forall ip ensures Under(map[], ip) == {} {}
    BooksStayRightIff(NEW, map[], ops);
    MatchesAtEnd(NEW, map[], ops);
  }

  /** After any run without a second disconnect, a client of a known address is accepted exactly when fewer
      than 1000 connections are live and fewer than 20 of its own address, whoever else is connected. */
  lemma AcceptedByOwnAddressIff(ops: seq<Op>, id: ConnId, a: Ip, cleanAt: nat, blockAt: nat)
    requires AdmissibleRun(NEW, map[], ops) && OneDisconnectEach(NEW, map[], ops)
    requires a != 0 && id !in AfterRun(NEW, map[], ops).1
    ensures var (s, live) := AfterRun(NEW, map[], ops);
            id in LiveAfter(s, live, Connect(id, Some(a), cleanAt, blockAt)) <==>
            |live| < 1000 && |set t | t in live && live[t] == Some(a)| < 20
  {
    var (s, live) := AfterRun(NEW, map[], ops);
    RunMatches(ops);
    ConnectMatches(s, live, id, Some(a), cleanAt, blockAt);
    assert Sharing(live, Some(a)) == set t | t in live && live[t] == Some(a);
  }

  /** Clients of unknown address, and of 0.0.0.0, share one limit. */
  lemma AcceptedUnknownIff(ops: seq<Op>, id: ConnId, peer: Option<Ip>, cleanAt: nat, blockAt: nat)
    requires AdmissibleRun(NEW, map[], ops) && OneDisconnectEach(NEW, map[], ops)
    requires (peer == None || peer == Some(0)) && id !in AfterRun(NEW, map[], ops).1
    ensures var (s, live) := AfterRun(NEW, map[], ops);
            id in LiveAfter(s, live, Connect(id, peer, cleanAt, blockAt)) <==>
            |live| < 1000 && |set t | t in live && (live[t] == None || live[t] == Some(0))| < 20
  {
    var (s, live) := AfterRun(NEW, map[], ops);
    RunMatches(ops);
    ConnectMatches(s, live, id, peer, cleanAt, blockAt);
    assert Sharing(live, peer) == set t | t in live && (live[t] == None || live[t] == Some(0));
  }

  // ---------- A disconnect too many ----------

  ghost function Disconnects(ops: seq<Op>): nat {
    if ops == [] then 0 else (if ops[0].Disconnect? then 1 else 0) + Disconnects(ops[1..])
  }

  lemma AboveLimitStep(s: Shared, op: Op)
    requires MAX_CONNECTIONS <= s.total < WORD
    ensures LiveAfter(s, map[], op) == map[]
    ensures SharedAfter(s, op).total == if op.Disconnect? then s.total - 1 else s.total
  {
  }

  /** Above the limit every connect is refused, and only disconnects move the total. */
  lemma {:induction false} RefusedAboveLimit(s: Shared, ops: seq<Op>)
    requires MAX_CONNECTIONS + Disconnects(ops) <= s.total < WORD
    ensures AfterRun(s, map[], ops).1 == map[]
    ensures AfterRun(s, map[], ops).0.total == s.total - Disconnects(ops)
    decreases |ops|
  {
    if ops != [] {
      AboveLimitStep(s, ops[0]);
      RefusedAboveLimit(SharedAfter(s, ops[0]), ops[1..]);
    }
  }

  /** One disconnect with nothing connected wraps the total, and every connect of any later run is refused
      until some 2^64 more disconnects have come. */
  lemma StrayDisconnectRefusesAll(s: Shared, stray: Ip, ops: seq<Op>)
    requires s.total == 0 && Disconnects(ops) < WORD - MAX_CONNECTIONS
    ensures AfterRun(Disconnected(s, stray), map[], ops).1 == map[]
    ensures AfterRun(Disconnected(s, stray), map[], ops).0.total == WORD - 1 - Disconnects(ops)
  {
    RefusedAboveLimit(Disconnected(s, stray), ops);
  }
}

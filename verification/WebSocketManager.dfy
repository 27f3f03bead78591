/** network/plugins/ws.rs's `WebSocketConnectionManager`, one call at a time. Each call is one particular
    interleaving of `WebSocketAccounting`: the one in which its task runs alone. */
module WebSocketManager {
  import opened Prelude
  import opened WebSocketAccounting

  datatype Shared = Shared(total: nat, counts: map<Ip, nat>, blocked: map<Ip, nat>)

  function Unexpired(blocked: map<Ip, nat>, now: nat): map<Ip, nat> {
    map x | x in blocked && now - blocked[x] < BLOCK_NANOS :: blocked[x]
  }

  /** A whole `try_connect_with_ip` with nobody else running. */
  ghost function Connected(s: Shared, ip: Ip, cleanAt: nat, blockAt: nat): (Shared, bool) {
    var t := s.(blocked := Unexpired(s.blocked, cleanAt));
    if ip in t.blocked then (t, false)
    else
      var added := Incremented(t.total);
      if t.total >= MAX_CONNECTIONS then (t.(total := Decremented(added)), false)
      else
        var n := Count(t.counts, ip) + 1;
        if n <= MAX_CONNECTIONS_PER_IP then (t.(total := added, counts := t.counts[ip := n]), true)
        else if n - 1 >= MAX_CONNECTIONS_PER_IP * 2 then
          (Shared(Decremented(added), t.counts[ip := n - 1], t.blocked[ip := blockAt]), false)
        else (t.(total := Decremented(added), counts := t.counts[ip := n - 1]), false)
  }

  ghost function Disconnected(s: Shared, ip: Ip): Shared {
    Shared(Decremented(s.total), if Count(s.counts, ip) > 0 then s.counts[ip := s.counts[ip] - 1] else s.counts, s.blocked)
  }

  /** Between calls the total is the sum of the counts, within the limits. */
  ghost predicate Quiet(s: Shared) {
    && s.total == Sum(s.counts) <= MAX_CONNECTIONS
    && (forall ip :: Count(s.counts, ip) <= MAX_CONNECTIONS_PER_IP)
    && s.blocked == map[]
  }

  class WebSocketConnectionManager {
    var currentConnections: nat
    var connectionsByIp: map<Ip, nat>
    var blockedIps: map<Ip, nat>

    ghost function State(): Shared
      reads this
    {
      Shared(currentConnections, connectionsByIp, blockedIps)
    }

    constructor ()
      ensures State() == Shared(0, map[], map[])
    {
      currentConnections := 0;
      connectionsByIp := map[];
      blockedIps := map[];
    }

    method CleanExpiredBlocks(now: nat)
      modifies `blockedIps
      ensures blockedIps == Unexpired(old(blockedIps), now)
    {
      blockedIps := map x | x in blockedIps && now - blockedIps[x] < BLOCK_NANOS :: blockedIps[x];
    }

    method TryConnectWithIp(ip: Option<Ip>, cleanAt: nat, blockAt: nat) returns (ok: bool)
      modifies this
      ensures (State(), ok) == Connected(old(State()), if ip.Some? then ip.value else 0, cleanAt, blockAt)
    {
      var clientIp := ClientIp(ip);
      CleanExpiredBlocks(cleanAt);
      if clientIp in blockedIps {
        return false;
      }
      var prev := currentConnections;
      currentConnections := Incremented(currentConnections);
      if prev >= MAX_CONNECTIONS {
        currentConnections := Decremented(currentConnections);
        return false;
      }
      var ipConns := (if clientIp in connectionsByIp then connectionsByIp[clientIp] else 0) + 1;
      if ipConns > MAX_CONNECTIONS_PER_IP {
        ipConns := ipConns - 1;
        connectionsByIp := connectionsByIp[clientIp := ipConns];
        currentConnections := Decremented(currentConnections);
        if ipConns >= MAX_CONNECTIONS_PER_IP * 2 {
          blockedIps := blockedIps[clientIp := blockAt];
        }
        return false;
      }
      connectionsByIp := connectionsByIp[clientIp := ipConns];
      return true;
    }

    method DisconnectWithIp(ip: Option<Ip>)
      modifies this
      ensures State() == Disconnected(old(State()), if ip.Some? then ip.value else 0)
    {
      var clientIp := ClientIp(ip);
      if clientIp in connectionsByIp {
        var count := connectionsByIp[clientIp];
        if count > 0 {
          connectionsByIp := connectionsByIp[clientIp := count - 1];
        }
      }
      currentConnections := Decremented(currentConnections);
    }
  }

  // ---------- The calls are interleavings ----------

  ghost function SharedOf(s: WebSocketAccounting.State): Shared {
    Shared(s.total, s.counts, s.blocked)
  }

  /** The next `steps` steps all belong to task `id`, until it is accepted or gone. */
  ghost function Alone(s: WebSocketAccounting.State, id: TaskId, cleanAt: nat, blockAt: nat, steps: nat): WebSocketAccounting.State
    decreases steps
  {
    if steps == 0 || id !in s.tasks || s.tasks[id].phase.Accepted? then s
    else Alone(Advanced(s, id, if s.tasks[id].phase.New? then cleanAt else blockAt), id, cleanAt, blockAt, steps - 1)
  }

  /** What a call leaves behind in the interleaving model. */
  ghost predicate Leaves(s: WebSocketAccounting.State, id: TaskId, t: WebSocketAccounting.State, r: Shared, ok: bool)
    requires id in s.tasks
  {
    && SharedOf(t) == r
    && t.tasks == if ok then s.tasks[id := s.tasks[id].(phase := Accepted)] else s.tasks - {id}
  }

  lemma IpOverLimitAlone(s: WebSocketAccounting.State, id: TaskId, cleanAt: nat, blockAt: nat)
    requires id in s.tasks && s.tasks[id].phase.IpOverLimit?
    ensures var n := s.tasks[id].phase.count;
            Leaves(s, id, Alone(s, id, cleanAt, blockAt, 2),
                   SharedOf(s).(total := Decremented(s.total),
                                blocked := if n >= MAX_CONNECTIONS_PER_IP * 2 then s.blocked[s.tasks[id].ip := blockAt] else s.blocked),
                   false)
  {
    var t := Advanced(s, id, blockAt);
    if id in t.tasks {
      var u := Advanced(t, id, blockAt);
      assert Alone(t, id, cleanAt, blockAt, 1) == Alone(u, id, cleanAt, blockAt, 0) == u;
      assert u.tasks == s.tasks - {id};
    }
  }

  lemma CheckedAlone(s: WebSocketAccounting.State, id: TaskId, cleanAt: nat, blockAt: nat)
    requires id in s.tasks && s.tasks[id].phase.Checked? && s.tasks[id].ip !in s.blocked
    requires Unexpired(s.blocked, cleanAt) == s.blocked
    ensures var (r, ok) := Connected(SharedOf(s), s.tasks[id].ip, cleanAt, blockAt);
            Leaves(s, id, Alone(s, id, cleanAt, blockAt, 4), r, ok)
  {
    var t := Advanced(s, id, blockAt);
    var u := Advanced(t, id, blockAt);
    assert Alone(s, id, cleanAt, blockAt, 4) == Alone(t, id, cleanAt, blockAt, 3) == Alone(u, id, cleanAt, blockAt, 2);
    if id !in u.tasks {
      assert u.tasks == s.tasks - {id};
    } else if u.tasks[id].phase.IpOverLimit? {
      IpOverLimitAlone(u, id, cleanAt, blockAt);
      assert u.tasks - {id} == s.tasks - {id};
    } else {
      assert u.tasks == s.tasks[id := s.tasks[id].(phase := Accepted)];
    }
  }

  /** The steps of one task, undisturbed, amount to the call: it ends accepted exactly when the call
      returns true, is gone otherwise, and leaves the shared state as the call does. */
  lemma ConnectIsItsSteps(s: WebSocketAccounting.State, id: TaskId, cleanAt: nat, blockAt: nat)
    requires id in s.tasks && s.tasks[id].phase.New?
    ensures var (r, ok) := Connected(SharedOf(s), s.tasks[id].ip, cleanAt, blockAt);
            Leaves(s, id, Alone(s, id, cleanAt, blockAt, 6), r, ok)
  {
    var t := Advanced(s, id, cleanAt);
    var u := Advanced(t, id, blockAt);
    assert Alone(s, id, cleanAt, blockAt, 6) == Alone(t, id, cleanAt, blockAt, 5) == Alone(u, id, cleanAt, blockAt, 4);
    if id in u.tasks {
      assert Unexpired(u.blocked, cleanAt) == u.blocked;
      CheckedAlone(u, id, cleanAt, blockAt);
      assert u.tasks - {id} == s.tasks - {id};
    } else {
      assert u.tasks == s.tasks - {id};
    }
  }

  lemma DisconnectIsItsSteps(s: WebSocketAccounting.State, id: TaskId, now: nat)
    requires id in s.tasks && s.tasks[id].phase.Accepted?
    ensures var t := Advanced(Advanced(s, id, now), id, now);
            SharedOf(t) == Disconnected(SharedOf(s), s.tasks[id].ip) && t.tasks == s.tasks - {id}
  {
    var t := Advanced(s, id, now);
    assert t.tasks - {id} == s.tasks - {id};
  }

  /** A block lasts ten minutes: until then its address is refused and nothing moves, and from then on it is
      treated like any other. */
  lemma BlockLastsTenMinutes(s: Shared, ip: Ip, cleanAt: nat, blockAt: nat)
    requires ip in s.blocked && s.total < 1000 && Count(s.counts, ip) < 20
    ensures Connected(s, ip, cleanAt, blockAt).1 <==> cleanAt >= s.blocked[ip] + 600 * NANOS
    ensures cleanAt < s.blocked[ip] + 600 * NANOS ==>
              var r := Connected(s, ip, cleanAt, blockAt).0; r.total == s.total && r.counts == s.counts && ip in r.blocked
  {
    assert ip in Unexpired(s.blocked, cleanAt) <==> cleanAt < s.blocked[ip] + 600 * NANOS;
  }

  /** An address at its limit is refused, and blocked exactly from twice the limit on. */
  lemma BlockedFromTwiceTheLimit(s: Shared, ip: Ip, cleanAt: nat, blockAt: nat)
    requires s.total < 1000 && Count(s.counts, ip) >= 20 && ip !in Unexpired(s.blocked, cleanAt)
    ensures var (r, ok) := Connected(s, ip, cleanAt, blockAt);
            && !ok && r.total == s.total
            && (ip in r.blocked <==> Count(s.counts, ip) >= 40)
            && (ip in r.blocked ==> r.blocked[ip] == blockAt)
  {
  }

  // ---------- Serial calls ----------

  /** The sum does not depend on the order of the walk. */
  lemma {:induction false} SumWithout(counts: map<Ip, nat>, ip: Ip)
    ensures Sum(counts) == Count(counts, ip) + Sum(counts - {ip})
    decreases |counts|
  {
    if ip !in counts {
      assert counts - {ip} == counts;
    } else {
      var x :| x in counts && Sum(counts) == counts[x] + Sum(counts - {x});
      if x != ip {
        SumWithout(counts - {x}, ip);
        SumWithout(counts - {ip}, x);
        assert counts - {x} - {ip} == counts - {ip} - {x};
      }
    }
  }

  lemma SumUpdate(counts: map<Ip, nat>, ip: Ip, n: nat)
    ensures Sum(counts[ip := n]) == Sum(counts) - Count(counts, ip) + n
  {
    SumWithout(counts, ip);
    SumWithout(counts[ip := n], ip);
    assert counts[ip := n] - {ip} == counts - {ip};
  }

  /** A connect within the limits, as changes of the counts. */
  lemma ConnectCounts(s: Shared, ip: Ip, cleanAt: nat, blockAt: nat)
    requires s.total <= MAX_CONNECTIONS && Count(s.counts, ip) <= MAX_CONNECTIONS_PER_IP && s.blocked == map[]
    ensures var (r, ok) := Connected(s, ip, cleanAt, blockAt);
            && (ok <==> s.total < MAX_CONNECTIONS && Count(s.counts, ip) < MAX_CONNECTIONS_PER_IP)
            && r.total == s.total + One(ok) && r.blocked == map[]
            && forall x :: Count(r.counts, x) == Count(s.counts, x) + One(x == ip && ok)
  {
    assert Unexpired(s.blocked, cleanAt) == map[];
  }

  lemma ConnectSum(s: Shared, ip: Ip, cleanAt: nat, blockAt: nat)
    ensures var (r, ok) := Connected(s, ip, cleanAt, blockAt);
            Sum(r.counts) == Sum(s.counts) + One(ok)
  {
    SumUpdate(s.counts, ip, Count(s.counts, ip) + 1);
    SumUpdate(s.counts, ip, Count(s.counts, ip));
  }

  /** A connect keeps the total equal to the sum of the counts, and succeeds exactly below both limits. */
  lemma ConnectKeepsQuiet(s: Shared, ip: Ip, cleanAt: nat, blockAt: nat)
    requires Quiet(s)
    ensures var (r, ok) := Connected(s, ip, cleanAt, blockAt);
            && Quiet(r)
            && (ok <==> s.total < MAX_CONNECTIONS && Count(s.counts, ip) < MAX_CONNECTIONS_PER_IP)
            && r.total == s.total + (if ok then 1 else 0)
            && Count(r.counts, ip) == Count(s.counts, ip) + (if ok then 1 else 0)
  {
    ConnectCounts(s, ip, cleanAt, blockAt);
    ConnectSum(s, ip, cleanAt, blockAt);
  }

  lemma {:induction false} SumAtLeast(counts: map<Ip, nat>, ip: Ip)
    ensures Sum(counts) >= Count(counts, ip)
  {
    SumWithout(counts, ip);
  }

  /** A disconnect keeps the total equal to the sum of the counts exactly when its address has a counted
      connection. Whether that connection is the one disconnecting, the two books cannot tell: see
      `WebSocketBooks`. */
  lemma DisconnectKeepsQuietIff(s: Shared, ip: Ip)
    requires Quiet(s)
    ensures Quiet(Disconnected(s, ip)) <==> Count(s.counts, ip) > 0
  {
    SumAtLeast(s.counts, ip);
    if Count(s.counts, ip) > 0 {
      SumUpdate(s.counts, ip, s.counts[ip] - 1);
      var r := Disconnected(s, ip);
      assert r.total == Sum(r.counts);
      forall x ensures Count(r.counts, x) <= MAX_CONNECTIONS_PER_IP {
        assert Count(r.counts, x) <= Count(s.counts, x);
      }
    }
  }
}

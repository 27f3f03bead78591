/** network/plugins/pool.rs's `ConnectionPool`: a queue of idle connections stamped with the time of
    their return. `acquire` looks only at the front for aged connections, the background cleanup walks
    the whole queue. Instants are nanoseconds and never run backwards. */
module ConnectionPool {
  import opened Prelude

  datatype Idle<T> = Idle(conn: T, since: nat)

  function Young<T>(timeout: nat, now: nat): Idle<T> -> bool {
    (x: Idle<T>) => Seconds(now, x.since) <= timeout
  }

  /** What the cleanup keeps: young enough, and not reported dead after 120 idle seconds. */
  function Kept<T>(timeout: nat, now: nat, check: T -> Option<bool>): Idle<T> -> bool {
    (x: Idle<T>) => Seconds(now, x.since) <= timeout && !(Seconds(now, x.since) > 120 && check(x.conn) == Some(false))
  }

  ghost function Not<T>(p: T -> bool): T -> bool {
    (x: T) => !p(x)
  }

  ghost function Conns<T>(q: seq<Idle<T>>): (r: seq<T>)
    ensures |r| == |q| && forall i :: 0 <= i < |q| ==> r[i] == q[i].conn
  {
    if q == [] then [] else [q[0].conn] + Conns(q[1..])
  }

  ghost predicate Sorted<T>(q: seq<Idle<T>>) {
    forall i, j :: 0 <= i < j < |q| ==> q[i].since <= q[j].since
  }

  ghost predicate NoneAfter<T>(q: seq<Idle<T>>, clock: nat) {
    forall i :: 0 <= i < |q| ==> q[i].since <= clock
  }

  /** `acquire`'s loop: drop from the front while the front is aged. */
  ghost function FrontDropped<T>(q: seq<Idle<T>>, timeout: nat, now: nat): seq<Idle<T>> {
    if q != [] && !Young(timeout, now)(q[0]) then FrontDropped(q[1..], timeout, now) else q
  }

  class ConnectionPool<T(==)> {
    var queue: seq<Idle<T>>
    const maxSize: nat
    const timeout: nat
    var isShutdown: bool
    ghost var clock: nat

    ghost predicate Valid()
      reads this
    {
      Sorted(queue) && NoneAfter(queue, clock) && |queue| <= maxSize
    }

    constructor (maxSize: nat, timeout: nat)
      ensures Valid() && queue == [] && !isShutdown && this.maxSize == maxSize && this.timeout == timeout
    {
      queue := [];
      this.maxSize := maxSize;
      this.timeout := timeout;
      isShutdown := false;
      clock := 0;
    }

    /** Hand out the oldest connection that is still young enough, and forget the aged ones. */
    method Acquire(now: nat) returns (r: Option<T>)
      requires Valid() && clock <= now
      modifies this
      ensures Valid() && clock == now && isShutdown == old(isShutdown)
      ensures old(isShutdown) ==> r == None && queue == old(queue)
      ensures !old(isShutdown) ==>
                var young := Filter(Young(timeout, now), old(queue));
                && r == (if young == [] then None else Some(young[0].conn))
                && queue == (if young == [] then [] else young[1..])
      ensures !old(isShutdown) ==> HandedOut(old(queue), timeout, now, r)
    {
      clock := now;
      if isShutdown {
        return None;
      }
      HandedOutByTime(queue, timeout, now);
      FrontDropIsAgeDrop(queue, timeout, now);
      ghost var q := queue;
      while |queue| > 0
        invariant Valid() && clock == now && !isShutdown
        invariant FrontDropped(queue, timeout, now) == FrontDropped(q, timeout, now)
        decreases |queue|
      {
        if Seconds(now, queue[0].since) > timeout {
          queue := queue[1..];
        } else {
          break;
        }
      }
      if |queue| == 0 {
        return None;
      }
      r := Some(queue[0].conn);
      queue := queue[1..];
    }

    /** `active` is the answer of the health check. */
    method Release(conn: T, now: nat, active: Option<bool>) returns (r: Result<(), string>)
      requires Valid() && clock <= now
      modifies this
      ensures Valid() && clock == now && isShutdown == old(isShutdown)
      ensures r.Err? <==> old(isShutdown)
      ensures queue == if !isShutdown && active != Some(false) && |old(queue)| < maxSize
                       then old(queue) + [Idle(conn, now)] else old(queue)
    {
      clock := now;
      if isShutdown {
        return Err("Pool is shutdown");
      }
      if active == Some(false) {
        return Ok(());
      }
      if |queue| < maxSize {
        queue := queue + [Idle(conn, now)];
      }
      return Ok(());
    }

    /** The index walk of the background cleanup. */
    method Walk(now: nat, check: T -> Option<bool>) returns (toClose: seq<T>)
      modifies `queue
      ensures queue == Filter(Kept(timeout, now, check), old(queue))
      ensures toClose == Conns(Filter(Not(Kept(timeout, now, check)), old(queue)))
    {
      toClose := [];
      var idx := 0;
      ghost var q, done := queue, 0;
      while idx < |queue|
        invariant 0 <= done <= |q| && 0 <= idx
        invariant Walked(q, Kept(timeout, now, check), done, queue, idx, toClose)
        decreases |queue| - idx
      {
        WalkOne(q, Kept(timeout, now, check), done, queue, idx, toClose);
        var x := queue[idx];
        if Seconds(now, x.since) > timeout {
          toClose := toClose + [x.conn];
          queue := RemoveAt(queue, idx);
        } else if Seconds(now, x.since) > 120 && check(x.conn) == Some(false) {
          toClose := toClose + [x.conn];
          queue := RemoveAt(queue, idx);
        } else {
          idx := idx + 1;
        }
        done := done + 1;
      }
      WalkDone(q, Kept(timeout, now, check), done, queue, idx, toClose);
    }

    /** One pass of the background cleanup. */
    method Cleanup(now: nat, check: T -> Option<bool>) returns (toClose: seq<T>)
      requires Valid() && clock <= now
      modifies this
      ensures Valid() && clock == now && isShutdown == old(isShutdown)
      ensures queue == Filter(Kept(timeout, now, check), old(queue))
      ensures toClose == Conns(Filter(Not(Kept(timeout, now, check)), old(queue)))
      ensures multiset(Conns(old(queue))) == multiset(Conns(queue)) + multiset(toClose)
      ensures StayByTime(old(queue), queue, timeout, now, check)
    {
      KeptByTime(queue, timeout, now, check);
      FilterSorted(Kept(timeout, now, check), queue, clock);
      FilterPartition(Kept(timeout, now, check), queue);
      toClose := Walk(now, check);
      clock := now;
    }

    /** Everything is closed, and the pool stays shut. */
    method ForceCloseAll() returns (closed: seq<T>)
      requires Valid()
      modifies this
      ensures Valid() && isShutdown && queue == [] && clock == old(clock)
      ensures closed == Conns(old(queue))
    {
      isShutdown := true;
      closed := [];
      var i := 0;
      while i < |queue|
        invariant 0 <= i <= |queue| && closed == Conns(queue[..i])
        invariant queue == old(queue) && clock == old(clock) && isShutdown
      {
        ConnsAppend(queue[..i], [queue[i]]);
        assert queue[..i + 1] == queue[..i] + [queue[i]];
        closed := closed + [queue[i].conn];
        i := i + 1;
      }
      assert queue[..|queue|] == queue;
      queue := [];
    }
  }

  // ---------- Age ----------

  /** Idle for less than `secs + 1` seconds. */
  predicate IdleAtMost<T>(x: Idle<T>, secs: nat, now: nat) {
    now < x.since + (secs + 1) * NANOS
  }

  /** A cleanup leaves a connection alone that is within the timeout and, if idle for 121 seconds or more, not
      reported dead. */
  predicate Stays<T>(x: Idle<T>, timeout: nat, now: nat, check: T -> Option<bool>) {
    IdleAtMost(x, timeout, now) && (IdleAtMost(x, 120, now) || check(x.conn) != Some(false))
  }

  ghost predicate StayByTime<T>(q: seq<Idle<T>>, left: seq<Idle<T>>, timeout: nat, now: nat, check: T -> Option<bool>) {
    && (forall x :: x in left ==> x in q && Stays(x, timeout, now, check))
    && (forall x :: x in q && Stays(x, timeout, now, check) ==> x in left)
  }

  lemma KeptByTime<T>(q: seq<Idle<T>>, timeout: nat, now: nat, check: T -> Option<bool>)
    ensures StayByTime(q, Filter(Kept(timeout, now, check), q), timeout, now, check)
  {
    FilterMembers(Kept(timeout, now, check), q);
    forall x: Idle<T> ensures Kept(timeout, now, check)(x) <==> Stays(x, timeout, now, check) {
      SecondsAtMost(now, x.since, timeout);
      SecondsAtMost(now, x.since, 120);
    }
  }

  lemma SecondsAtMost(now: nat, since: nat, secs: nat)
    ensures Seconds(now, since) <= secs <==> now < since + (secs + 1) * NANOS
  {
  }

  /** What a caller gets from the queue: a connection within the timeout, or none when there is none. */
  ghost predicate HandedOut<T>(q: seq<Idle<T>>, timeout: nat, now: nat, r: Option<T>) {
    match r
    case None => forall x :: x in q ==> !IdleAtMost(x, timeout, now)
    case Some(conn) => exists x :: x in q && x.conn == conn && IdleAtMost(x, timeout, now)
  }

  lemma HandedOutByTime<T>(q: seq<Idle<T>>, timeout: nat, now: nat)
    ensures var young := Filter(Young(timeout, now), q);
            HandedOut(q, timeout, now, if young == [] then None else Some(young[0].conn))
  {
    var young := Filter(Young(timeout, now), q);
    FilterMembers(Young(timeout, now), q);
    forall x: Idle<T> ensures Young(timeout, now)(x) <==> IdleAtMost(x, timeout, now) {
      SecondsAtMost(now, x.since, timeout);
    }
    if young != [] {
      assert young[0] in young;
    }
  }

  /** Aged connections come before all young ones. */
  ghost predicate AgedFirst<T>(q: seq<Idle<T>>, timeout: nat, now: nat) {
    forall i, j :: 0 <= i < j < |q| && Young(timeout, now)(q[i]) ==> Young(timeout, now)(q[j])
  }

  lemma SortedIsAgedFirst<T>(q: seq<Idle<T>>, timeout: nat, now: nat)
    requires Sorted(q)
    ensures AgedFirst(q, timeout, now)
  {
  }

  lemma {:induction false} FrontDroppedIsTail<T>(q: seq<Idle<T>>, timeout: nat, now: nat) returns (n: nat)
    ensures n <= |q| && FrontDropped(q, timeout, now) == q[n..]
    ensures forall i :: 0 <= i < n ==> !Young(timeout, now)(q[i])
    ensures n < |q| ==> Young(timeout, now)(q[n])
  {
    if q != [] && !Young(timeout, now)(q[0]) {
      n := FrontDroppedIsTail(q[1..], timeout, now);
      n := n + 1;
    } else {
      n := 0;
    }
  }

  /** Looking only at the front drops exactly the aged connections precisely when they come first. */
  lemma {:induction false} FrontDropIsAgeDropIff<T>(q: seq<Idle<T>>, timeout: nat, now: nat)
    ensures FrontDropped(q, timeout, now) == Filter(Young(timeout, now), q) <==> AgedFirst(q, timeout, now)
  {
    var p := Young<T>(timeout, now);
    var n := FrontDroppedIsTail(q, timeout, now);
    assert q == q[..n] + q[n..];
    FilterAppend(p, q[..n], q[n..]);
    FilterNone(p, q[..n]);
    assert Filter(p, q) == Filter(p, q[n..]);
    if AgedFirst(q, timeout, now) {
      forall x | x in q[n..] ensures p(x) {}
      FilterAll(p, q[n..]);
    }
    if Filter(p, q[n..]) == q[n..] {
      FilterMembers(p, q[n..]);
      forall j | n <= j < |q| ensures p(q[j]) {
        assert q[n..][j - n] in q[n..];
      }
    }
  }

  lemma FrontDropIsAgeDrop<T>(q: seq<Idle<T>>, timeout: nat, now: nat)
    requires Sorted(q)
    ensures FrontDropped(q, timeout, now) == Filter(Young(timeout, now), q)
  {
    SortedIsAgedFirst(q, timeout, now);
    FrontDropIsAgeDropIff(q, timeout, now);
  }

  /** `acquire` and the cleanup drop the same connections as long as the health check reports none dead. */
  lemma AcquireDropsWhatCleanupDrops<T>(q: seq<Idle<T>>, timeout: nat, now: nat, check: T -> Option<bool>)
    requires Sorted(q) && forall x :: x in q ==> check(x.conn) != Some(false)
    ensures FrontDropped(q, timeout, now) == Filter(Kept(timeout, now, check), q)
  {
    FrontDropIsAgeDrop(q, timeout, now);
    FilterSame(Young(timeout, now), Kept(timeout, now, check), q);
  }

  /** What `acquire` hands out is the oldest of the unexpired connections. */
  lemma {:induction false} HandsOutOldestYoung<T>(q: seq<Idle<T>>, timeout: nat, now: nat, x: Idle<T>)
    requires Sorted(q) && x in q && Young(timeout, now)(x)
    ensures var young := Filter(Young(timeout, now), q);
            young != [] && young[0] in q && Young(timeout, now)(young[0]) && young[0].since <= x.since
  {
    FilterMembers(Young(timeout, now), q);
    FilterSorted(Young(timeout, now), q, q[|q| - 1].since);
    var young := Filter(Young(timeout, now), q);
    var i :| 0 <= i < |young| && young[i] == x;
    assert young[0] in young;
  }

  // ---------- The index walk ----------

  lemma FilterSorted<T>(p: Idle<T> -> bool, q: seq<Idle<T>>, clock: nat)
    requires Sorted(q) && NoneAfter(q, clock)
    ensures Sorted(Filter(p, q)) && NoneAfter(Filter(p, q), clock)
  {
    var rel := (a: Idle<T>, b: Idle<T>) => a.since <= b.since;
    FilterPairwise(rel, p, q);
    FilterMembers(p, q);
    var f := Filter(p, q);
    forall i, j | 0 <= i < j < |f| ensures f[i].since <= f[j].since {
      assert rel(f[i], f[j]);
    }
    forall i | 0 <= i < |f| ensures f[i].since <= clock {
      assert f[i] in q;
    }
  }

  lemma {:induction false} ConnsAppend<T>(a: seq<Idle<T>>, b: seq<Idle<T>>)
    ensures Conns(a + b) == Conns(a) + Conns(b)
  {
  }

  /** The first `done` connections are sorted into kept and closed, the rest still wait behind `idx`. */
  ghost predicate Walked<T>(q: seq<Idle<T>>, keep: Idle<T> -> bool, done: nat, queue: seq<Idle<T>>, idx: nat, toClose: seq<T>) {
    && done <= |q|
    && queue == Filter(keep, q[..done]) + q[done..]
    && idx == |Filter(keep, q[..done])|
    && toClose == Conns(Filter(Not(keep), q[..done]))
  }

  lemma WalkOne<T>(q: seq<Idle<T>>, keep: Idle<T> -> bool, done: nat, queue: seq<Idle<T>>, idx: nat, toClose: seq<T>)
    requires Walked(q, keep, done, queue, idx, toClose) && idx < |queue|
    ensures done < |q| && queue[idx] == q[done]
    ensures keep(queue[idx]) ==> Walked(q, keep, done + 1, queue, idx + 1, toClose)
    ensures !keep(queue[idx]) ==> Walked(q, keep, done + 1, RemoveAt(queue, idx), idx, toClose + [queue[idx].conn])
  {
    assert q[..done + 1] == q[..done] + [q[done]];
    FilterAppend(keep, q[..done], [q[done]]);
    FilterAppend(Not(keep), q[..done], [q[done]]);
    if !keep(q[done]) {
      ConnsAppend(Filter(Not(keep), q[..done]), [q[done]]);
    }
  }

  lemma WalkDone<T>(q: seq<Idle<T>>, keep: Idle<T> -> bool, done: nat, queue: seq<Idle<T>>, idx: nat, toClose: seq<T>)
    requires Walked(q, keep, done, queue, idx, toClose) && idx >= |queue|
    ensures queue == Filter(keep, q) && toClose == Conns(Filter(Not(keep), q))
  {
    assert q[..done] == q;
  }

  /** Kept plus closed is everything there was. */
  lemma {:induction false} FilterPartition<T>(p: Idle<T> -> bool, q: seq<Idle<T>>)
    ensures multiset(Conns(q)) == multiset(Conns(Filter(p, q))) + multiset(Conns(Filter(Not(p), q)))
  {
    if q != [] {
      FilterPartition(p, q[1..]);
      ConnsAppend([q[0]], Filter(if p(q[0]) then p else Not(p), q[1..]));
      assert Conns([q[0]]) == [q[0].conn];
    }
  }
}

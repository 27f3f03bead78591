/** `RedisConnectionPool::create_connection` of network/plugins/pool.rs: the retry loop behind the
    circuit breaker. The breaker's lock is held for the whole call, so calls are serial. */
module RetryingConnector {
  import opened Prelude
  import opened CircuitBreaker

  datatype Outcome = Rejected | Connected | Exhausted

  class RedisConnectionPool {
    const breaker: CircuitBreaker
    const maxRetries: nat

    constructor (breaker: CircuitBreaker, maxRetries: nat)
      ensures this.breaker == breaker && this.maxRetries == maxRetries
    {
      this.breaker := breaker;
      this.maxRetries := maxRetries;
    }

    /** The retry loop of an admitted call, reporting to the breaker at `end`. */
    method Retry(succeeds: nat -> bool, end: nat) returns (r: Outcome, connects: nat)
      requires breaker.Valid() && Clock(breaker.history) <= end
      modifies breaker
      ensures breaker.Valid() && r != Rejected
      ensures r == Connected ==>
                && 1 <= connects <= maxRetries + 1 && succeeds(connects - 1)
                && (forall k :: 0 <= k < connects - 1 ==> !succeeds(k))
                && breaker.history == old(breaker.history) + [Success(end)]
      ensures r == Exhausted ==>
                && connects == maxRetries + 1 && (forall k :: 0 <= k < connects ==> !succeeds(k))
                && breaker.history == old(breaker.history) + [Failure(end)]
    {
      connects := 0;
      ghost var h := breaker.history;
      for attempt := 0 to maxRetries + 1
        invariant connects == attempt && breaker.Valid() && breaker.history == h
        invariant forall k :: 0 <= k < attempt ==> !succeeds(k)
        invariant attempt <= maxRetries
      {
        connects := connects + 1;
        if succeeds(attempt) {
          breaker.OnSuccess(end);
          return Connected, connects;
        } else if attempt == maxRetries {
          breaker.OnFailure(end);
          return Exhausted, connects;
        }
      }
      // the fall-through after the loop
      assert false;
    }

    /** `succeeds(k)` is the answer of the server to the k-th connect. The call starts at `start` and
        reports to the breaker at `end`. */
    method CreateConnection(succeeds: nat -> bool, start: nat, end: nat) returns (r: Outcome, connects: nat)
      requires breaker.Valid() && Clock(breaker.history) <= start <= end
      modifies breaker
      ensures breaker.Valid()
      ensures r == Rejected <==> !Admits(breaker.config, old(breaker.history), start)
      ensures r == Rejected ==> connects == 0 && breaker.history == old(breaker.history) + [Attempt(start)]
      ensures r == Connected ==>
                && 1 <= connects <= maxRetries + 1 && succeeds(connects - 1)
                && (forall k :: 0 <= k < connects - 1 ==> !succeeds(k))
                && breaker.history == old(breaker.history) + [Attempt(start), Success(end)]
      ensures r == Exhausted ==>
                && connects == maxRetries + 1 && (forall k :: 0 <= k < connects ==> !succeeds(k))
                && breaker.history == old(breaker.history) + [Attempt(start), Failure(end)]
    {
      var admitted := breaker.CanAttempt(start);
      if !admitted {
        return Rejected, 0;
      }
      r, connects := Retry(succeeds, end);
    }

    /** Serves these calls while the server is down. Whatever happened before, the connects stay within
        those of `Threshold` calls plus one call per elapsed reset timeout. */
    method ServeOutage(calls: seq<Call>, from: nat, until: nat) returns (total: nat)
      requires breaker.Valid() && Clock(breaker.history) <= from && Serial(calls, from, until)
      modifies breaker
      ensures breaker.Valid() && breaker.history == Outage(breaker.config, old(breaker.history), calls)
      ensures total == Connects(breaker.config, old(breaker.history), calls, maxRetries)
      ensures CountFailures(breaker.history) ==
              CountFailures(old(breaker.history)) + Admitted(breaker.config, old(breaker.history), calls)
      ensures breaker.config.resetTimeout > 0 ==>
                total <= (maxRetries + 1) * (Threshold(breaker.config) + (until - from) / breaker.config.resetTimeout)
    {
      ghost var h := breaker.history;
      total := 0;
      SerialEnds(calls, from, until);
      for i := 0 to |calls|
        invariant breaker.Valid() && Serial(calls[i..], Time(calls, i, from), until)
        invariant Clock(breaker.history) <= Time(calls, i, from)
        invariant Outage(breaker.config, h, calls) == Outage(breaker.config, breaker.history, calls[i..])
        invariant total + Connects(breaker.config, breaker.history, calls[i..], maxRetries)
                  == Connects(breaker.config, h, calls, maxRetries)
      {
        ghost var g := breaker.history;
        assert calls[i..] == [calls[i]] + calls[i + 1..];
        var r, connects := CreateConnection(k => false, calls[i].start, calls[i].end);
        ServedOne(breaker.config, g, calls[i], calls[i + 1..], maxRetries, breaker.history, connects);
        total := total + connects;
      }
      OneFailurePerAdmittedCall(breaker.config, h, calls);
      if breaker.config.resetTimeout > 0 {
        OutageBound(breaker.config, h, calls, from, until, maxRetries);
      }
    }
  }

  // ---------- A server that is down ----------

  datatype Call = Call(start: nat, end: nat)

  /** Serial calls from `from` on, all over by `until`. */
  ghost predicate Serial(calls: seq<Call>, from: nat, until: nat) {
    if calls == [] then from <= until
    else from <= calls[0].start <= calls[0].end && Serial(calls[1..], calls[0].end, until)
  }

  /** When the first `i` of the calls are over. */
  ghost function Time(calls: seq<Call>, i: nat, from: nat): nat
    requires i <= |calls|
  {
    if i == 0 then from else calls[i - 1].end
  }

  /** The history when every connect of these calls fails. */
  ghost function Outage(c: Config, h: seq<Event>, calls: seq<Call>): seq<Event>
    decreases |calls|
  {
    if calls == [] then h
    else if Admits(c, h, calls[0].start) then Outage(c, h + [Attempt(calls[0].start), Failure(calls[0].end)], calls[1..])
    else Outage(c, h + [Attempt(calls[0].start)], calls[1..])
  }

  ghost function Admitted(c: Config, h: seq<Event>, calls: seq<Call>): nat
    decreases |calls|
  {
    if calls == [] then 0
    else if Admits(c, h, calls[0].start) then 1 + Admitted(c, h + [Attempt(calls[0].start), Failure(calls[0].end)], calls[1..])
    else Admitted(c, h + [Attempt(calls[0].start)], calls[1..])
  }

  /** Each admitted call makes all its connects; a rejected one makes none. */
  ghost function Connects(c: Config, h: seq<Event>, calls: seq<Call>, maxRetries: nat): nat {
    Admitted(c, h, calls) * (maxRetries + 1)
  }

  /** One call of an outage, served. */
  lemma ServedOne(c: Config, g: seq<Event>, call: Call, rest: seq<Call>, maxRetries: nat, h: seq<Event>, connects: nat)
    requires Admits(c, g, call.start) ==> h == g + [Attempt(call.start), Failure(call.end)] && connects == maxRetries + 1
    requires !Admits(c, g, call.start) ==> h == g + [Attempt(call.start)] && connects == 0
    ensures Outage(c, g, [call] + rest) == Outage(c, h, rest)
    ensures Connects(c, g, [call] + rest, maxRetries) == connects + Connects(c, h, rest, maxRetries)
  {
    assert ([call] + rest)[1..] == rest;
  }

  lemma HistoryAfterCall(c: Config, h: seq<Event>, call: Call)
    ensures FailuresSinceSuccess(h + [Attempt(call.start)]) == FailuresSinceSuccess(h)
    ensures LastFailure(h + [Attempt(call.start)]) == LastFailure(h)
    ensures FailuresSinceSuccess(h + [Attempt(call.start), Failure(call.end)]) == FailuresSinceSuccess(h) + 1
    ensures LastFailure(h + [Attempt(call.start), Failure(call.end)]) == Some(call.end)
  {
    var a := h + [Attempt(call.start)];
    assert a[..|h|] == h;
    assert h + [Attempt(call.start), Failure(call.end)] == a + [Failure(call.end)];
    assert (a + [Failure(call.end)])[..|a|] == a;
  }

  lemma {:induction false} SerialEnds(calls: seq<Call>, from: nat, until: nat)
    requires Serial(calls, from, until)
    ensures from <= until
    decreases |calls|
  {
    if calls != [] {
      SerialEnds(calls[1..], calls[0].end, until);
    }
  }

  /** Once open, admitted calls are at least a reset timeout apart. */
  lemma {:induction false} OpenSpacing(c: Config, h: seq<Event>, calls: seq<Call>, from: nat, until: nat)
    requires Serial(calls, from, until)
    requires FailuresSinceSuccess(h) >= Threshold(c) && LastFailure(h).Some? && LastFailure(h).value <= from
    ensures Admitted(c, h, calls) * c.resetTimeout <= until - LastFailure(h).value
    decreases |calls|
  {
    if calls == [] {
    } else {
      HistoryAfterCall(c, h, calls[0]);
      SerialEnds(calls[1..], calls[0].end, until);
      if Admits(c, h, calls[0].start) {
        OpenSpacing(c, h + [Attempt(calls[0].start), Failure(calls[0].end)], calls[1..], calls[0].end, until);
        var n := Admitted(c, h + [Attempt(calls[0].start), Failure(calls[0].end)], calls[1..]);
        assert (n + 1) * c.resetTimeout == n * c.resetTimeout + c.resetTimeout;
      } else {
        OpenSpacing(c, h + [Attempt(calls[0].start)], calls[1..], calls[0].end, until);
      }
    }
  }

  lemma ScaleUp(n: nat, m: nat, k: nat)
    requires n <= m
    ensures n * k <= k * m
  {
  }

  lemma AtMostQuotient(n: nat, r: nat, span: nat)
    requires r > 0 && n * r <= span
    ensures n <= span / r
  {
    if n > span / r {
      ScaleUp(span / r + 1, n, r);
      assert false;
    }
  }

  lemma QuotientGrows(a: nat, b: nat, r: nat)
    requires r > 0 && a <= b
    ensures a / r <= b / r
  {
    AtMostQuotient(a / r, r, b);
  }

  /** Starting open, whatever the last failure was: one call, then the spacing. */
  lemma {:induction false} OpenBound(c: Config, h: seq<Event>, calls: seq<Call>, from: nat, until: nat)
    requires Serial(calls, from, until) && c.resetTimeout > 0 && from <= until
    requires FailuresSinceSuccess(h) >= Threshold(c)
    ensures Admitted(c, h, calls) <= 1 + (until - from) / c.resetTimeout
    decreases |calls|
  {
    if calls != [] {
      HistoryAfterCall(c, h, calls[0]);
      SerialEnds(calls[1..], calls[0].end, until);
      var gap := until - calls[0].end;
      QuotientGrows(gap, until - from, c.resetTimeout);
      if Admits(c, h, calls[0].start) {
        var g := h + [Attempt(calls[0].start), Failure(calls[0].end)];
        OpenSpacing(c, g, calls[1..], calls[0].end, until);
        AtMostQuotient(Admitted(c, g, calls[1..]), c.resetTimeout, gap);
      } else {
        OpenBound(c, h + [Attempt(calls[0].start)], calls[1..], calls[0].end, until);
      }
    }
  }

  /** Starting closed: each failure uses up one of the remaining attempts, then the spacing. */
  lemma {:induction false} ClosedBound(c: Config, h: seq<Event>, calls: seq<Call>, from: nat, until: nat)
    requires Serial(calls, from, until) && c.resetTimeout > 0 && from <= until
    requires FailuresSinceSuccess(h) < Threshold(c)
    ensures Admitted(c, h, calls) <= Threshold(c) - FailuresSinceSuccess(h) + (until - from) / c.resetTimeout
    decreases |calls|
  {
    if calls != [] {
      HistoryAfterCall(c, h, calls[0]);
      SerialEnds(calls[1..], calls[0].end, until);
      var g, gap := h + [Attempt(calls[0].start), Failure(calls[0].end)], until - calls[0].end;
      QuotientGrows(gap, until - from, c.resetTimeout);
      if FailuresSinceSuccess(g) < Threshold(c) {
        ClosedBound(c, g, calls[1..], calls[0].end, until);
      } else {
        OpenSpacing(c, g, calls[1..], calls[0].end, until);
        AtMostQuotient(Admitted(c, g, calls[1..]), c.resetTimeout, gap);
      }
    }
  }

  /** While every connect fails between `from` and `until`, whatever happened before, the connects are
      at most those of `Threshold` calls plus one call per elapsed reset timeout. */
  lemma OutageBound(c: Config, h: seq<Event>, calls: seq<Call>, from: nat, until: nat, maxRetries: nat)
    requires Serial(calls, from, until) && c.resetTimeout > 0
    ensures from <= until
    ensures Connects(c, h, calls, maxRetries) <= (maxRetries + 1) * (Threshold(c) + (until - from) / c.resetTimeout)
  {
    SerialEnds(calls, from, until);
    if FailuresSinceSuccess(h) < Threshold(c) {
      ClosedBound(c, h, calls, from, until);
    } else {
      OpenBound(c, h, calls, from, until);
    }
    ScaleUp(Admitted(c, h, calls), Threshold(c) + (until - from) / c.resetTimeout, maxRetries + 1);
  }

  ghost function CountFailures(h: seq<Event>): nat {
    if h == [] then 0 else CountFailures(h[..|h| - 1]) + if h[|h| - 1].Failure? then 1 else 0
  }

  lemma CountAfterCall(h: seq<Event>, call: Call)
    ensures CountFailures(h + [Attempt(call.start)]) == CountFailures(h)
    ensures CountFailures(h + [Attempt(call.start), Failure(call.end)]) == CountFailures(h) + 1
  {
    var a := h + [Attempt(call.start)];
    assert a[..|h|] == h;
    assert h + [Attempt(call.start), Failure(call.end)] == a + [Failure(call.end)];
    assert (a + [Failure(call.end)])[..|a|] == a;
  }

  /** Each admitted call of an outage records exactly one failure, each rejected one none. */
  lemma {:induction false} OneFailurePerAdmittedCall(c: Config, h: seq<Event>, calls: seq<Call>)
    ensures CountFailures(Outage(c, h, calls)) == CountFailures(h) + Admitted(c, h, calls)
    decreases |calls|
  {
    if calls != [] {
      CountAfterCall(h, calls[0]);
      if Admits(c, h, calls[0].start) {
        OneFailurePerAdmittedCall(c, h + [Attempt(calls[0].start), Failure(calls[0].end)], calls[1..]);
      } else {
        OneFailurePerAdmittedCall(c, h + [Attempt(calls[0].start)], calls[1..]);
      }
    }
  }
}

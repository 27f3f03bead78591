/** The failure lockout of network/security/auth_middleware.rs with requests that overlap: the lock is tested
    in one section (1585-1609) and the outcome recorded in another (1626-1657), with the evaluation of the
    token in between. Each section is one atomic step. */
module LockoutInterleaving {
  import opened Prelude
  import opened AuthLockout

  type CallId = nat

  /** `pending` holds the requests whose tokens are being evaluated, with their addresses. */
  datatype State = State(failures: map<Ip, Attempts>, pending: map<CallId, Ip>)

  datatype Step = Check(call: CallId, ip: Ip, at: nat) | Record(call: CallId, evidence: Evidence, at: nat)

  ghost predicate Enabled(s: State, step: Step) {
    match step
    case Check(call, _, _) => call !in s.pending
    case Record(call, _, _) => call in s.pending
  }

  ghost function Next(c: Config, s: State, step: Step): State
    requires Enabled(s, step)
  {
    match step
    case Check(call, ip, at) =>
      State(Purged(c, s.failures, at), if Locked(c, s.failures, ip, at) then s.pending else s.pending[call := ip])
    case Record(call, evidence, at) =>
      var ip := s.pending[call];
      State(if evidence == Good then s.failures - {ip} else OneMore(s.failures, ip, at), s.pending - {call})
  }

  ghost predicate Steps(c: Config, s: State, steps: seq<Step>, t: State)
    decreases |steps|
  {
    if steps == [] then s == t else Enabled(s, steps[0]) && Steps(c, Next(c, s, steps[0]), steps[1..], t)
  }

  /** A request whose two sections meet no other step is handled as the whole request is. */
  lemma UndisturbedRequest(c: Config, s: State, call: CallId, ip: Ip, e: Evidence, checkAt: nat, recordAt: nat)
    requires call !in s.pending
    ensures var checked := Next(c, s, Check(call, ip, checkAt));
            var (after, reply) := Handled(c, s.failures, ip, e, checkAt, recordAt);
            && (reply == RateLimited <==> call !in checked.pending)
            && after == (if reply == RateLimited then checked else Next(c, checked, Record(call, e, recordAt))).failures
  {
  }

  // ---------- The bound ----------

  ghost function InFlight(s: State, ip: Ip): set<CallId> {
    set call | call in s.pending && s.pending[call] == ip
  }

  /** The step lets a request of `ip` through to the evaluation of its token. */
  ghost predicate Admits(c: Config, s: State, step: Step, ip: Ip) {
    step.Check? && step.ip == ip && !Locked(c, s.failures, ip, step.at)
  }

  ghost function Admitted(c: Config, s: State, steps: seq<Step>, ip: Ip): nat
    decreases |steps|
  {
    if steps == [] || !Enabled(s, steps[0]) then 0
    else (if Admits(c, s, steps[0], ip) then 1 else 0) + Admitted(c, Next(c, s, steps[0]), steps[1..], ip)
  }

  /** Checks and failures fall into a span shorter than window and lockout, and `ip` never succeeds. */
  ghost predicate InBurst(c: Config, s: State, step: Step, ip: Ip, from: nat) {
    match step
    case Check(_, _, at) => from <= at < from + Min(c.failWindowSecs, c.lockoutDurationSecs) * NANOS
    case Record(call, evidence, at) => from <= at && (call in s.pending && s.pending[call] == ip ==> evidence != Good)
  }

  /** At no time are more than `most` requests of `ip` being evaluated. */
  ghost predicate Burst(c: Config, s: State, steps: seq<Step>, ip: Ip, from: nat, most: nat)
    decreases |steps|
  {
    && |InFlight(s, ip)| <= most
    && (steps != [] && Enabled(s, steps[0]) ==>
          InBurst(c, s, steps[0], ip, from) && Burst(c, Next(c, s, steps[0]), steps[1..], ip, from, most))
  }

  function Limit(c: Config): nat {
    if c.maxFailAttempts == 0 then 1 else c.maxFailAttempts
  }

  /** The failures of `ip` stamped since `from`, as far as the table knows. */
  ghost function Known(s: State, ip: Ip, from: nat): nat {
    if ip in s.failures && from <= s.failures[ip].last then s.failures[ip].count else 0
  }

  lemma InFlightSet(c: Config, s: State, step: Step, ip: Ip)
    requires Enabled(s, step)
    ensures InFlight(Next(c, s, step), ip) ==
            if Admits(c, s, step, ip) then InFlight(s, ip) + {step.call}
            else if step.Record? then InFlight(s, ip) - {step.call}
            else InFlight(s, ip)
  {
    var r := Next(c, s, step);
    forall call ensures call in InFlight(r, ip) <==>
                        if call == step.call then Admits(c, s, step, ip) else call in InFlight(s, ip) {}
  }

  lemma InFlightAfter(c: Config, s: State, step: Step, ip: Ip)
    requires Enabled(s, step)
    ensures var r := Next(c, s, step);
            |InFlight(r, ip)| == |InFlight(s, ip)| + (if Admits(c, s, step, ip) then 1 else 0)
                                 - (if step.Record? && s.pending[step.call] == ip then 1 else 0)
  {
    InFlightSet(c, s, step, ip);
    if step.Record? && s.pending[step.call] != ip {
      assert InFlight(s, ip) - {step.call} == InFlight(s, ip);
    }
  }

  lemma KnownAfter(c: Config, s: State, step: Step, ip: Ip, from: nat)
    requires Enabled(s, step) && InBurst(c, s, step, ip, from)
    ensures var r := Next(c, s, step);
            Known(r, ip, from) >= Known(s, ip, from) + if step.Record? && s.pending[step.call] == ip then 1 else 0
    ensures Admits(c, s, step, ip) ==> Known(s, ip, from) < Limit(c)
  {
    if step.Check? && ip in s.failures && from <= s.failures[ip].last {
      StillRecent(c, s.failures[ip], from, step.at);
    }
  }

  lemma {:induction false} RoomLeft(c: Config, s: State, steps: seq<Step>, ip: Ip, from: nat, most: nat)
    requires Burst(c, s, steps, ip, from, most) && most >= 1
    ensures Admitted(c, s, steps, ip) <=
            if Known(s, ip, from) >= Limit(c) then 0 else Limit(c) - 1 - Known(s, ip, from) + most - |InFlight(s, ip)|
    decreases |steps|
  {
    if steps != [] && Enabled(s, steps[0]) {
      InFlightAfter(c, s, steps[0], ip);
      KnownAfter(c, s, steps[0], ip, from);
      RoomLeft(c, Next(c, s, steps[0]), steps[1..], ip, from, most);
    }
  }

  /** In any interleaving within a short span, whatever happened before, an IP without a success that never has
      more than `most` requests under evaluation gets at most `max(1, max_fail_attempts) - 1 + most` of them
      evaluated, those already under evaluation at the start included. */
  lemma OverlappingBound(c: Config, s: State, steps: seq<Step>, ip: Ip, from: nat, most: nat)
    requires Burst(c, s, steps, ip, from, most) && most >= 1
    ensures |InFlight(s, ip)| + Admitted(c, s, steps, ip) <= Limit(c) - 1 + most
  {
    RoomLeft(c, s, steps, ip, from, most);
  }

  // ---------- The bound is met ----------

  /** `n` requests of `ip` that all test the lock before any of them is evaluated. */
  ghost function AllAtOnce(first: CallId, n: nat, ip: Ip, at: nat): seq<Step>
    decreases n
  {
    if n == 0 then [] else [Check(first, ip, at)] + AllAtOnce(first + 1, n - 1, ip, at)
  }

  /** The lock does not see requests that are still under evaluation: any number that test it together pass it. */
  lemma {:induction false} AllPass(c: Config, s: State, first: CallId, n: nat, ip: Ip, at: nat)
    requires !Locked(c, s.failures, ip, at) && forall call :: call >= first ==> call !in s.pending
    ensures Admitted(c, s, AllAtOnce(first, n, ip, at), ip) == n
    decreases n
  {
    if n > 0 {
      var step := Check(first, ip, at);
      var r := Next(c, s, step);
      assert Purged(c, r.failures, at) == r.failures;
      assert AllAtOnce(first, n, ip, at)[1..] == AllAtOnce(first + 1, n - 1, ip, at);
      AllPass(c, r, first + 1, n - 1, ip, at);
    }
  }
}

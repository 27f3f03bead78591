/** The failure lockout in `with_auth_rate_limit` of network/security/auth_middleware.rs: failed
    authentications are counted per IP, and an IP with too many of them is turned away before its token
    is looked at. Instants are nanoseconds. */
module AuthLockout {
  import opened Prelude

  datatype Attempts = Attempts(count: nat, last: nat)

  datatype Config = Config(maxFailAttempts: nat, failWindowSecs: nat, lockoutDurationSecs: nat)

  const DEFAULT := Config(5, 60, 300)

  /** What the request carries. */
  datatype Evidence = NoToken | BadToken | WeakRole | Good

  datatype Reply = Unauthorized | RateLimited | InvalidToken | Forbidden | Accepted

  // ---------- The handler ----------

  function Fresh(c: Config, a: Attempts, now: nat): bool {
    Seconds(now, a.last) < c.lockoutDurationSecs
  }

  ghost function Purged(c: Config, f: map<Ip, Attempts>, now: nat): map<Ip, Attempts> {
    map ip | ip in f && Fresh(c, f[ip], now) :: f[ip]
  }

  ghost predicate Locked(c: Config, f: map<Ip, Attempts>, ip: Ip, now: nat) {
    var p := Purged(c, f, now);
    ip in p && p[ip].count >= c.maxFailAttempts && Seconds(now, p[ip].last) < c.failWindowSecs
  }

  ghost function OneMore(f: map<Ip, Attempts>, ip: Ip, now: nat): map<Ip, Attempts> {
    f[ip := Attempts((if ip in f then f[ip].count else 0) + 1, now)]
  }

  /** One request: purge, turn away if locked, else evaluate and record. */
  ghost function Handled(c: Config, f: map<Ip, Attempts>, ip: Ip, e: Evidence, checkAt: nat, recordAt: nat)
    : (map<Ip, Attempts>, Reply)
  {
    var p := Purged(c, f, checkAt);
    if Locked(c, f, ip, checkAt) then (p, RateLimited)
    else
      match e
      case Good => (p - {ip}, Accepted)
      case NoToken => (OneMore(p, ip, recordAt), Unauthorized)
      case BadToken => (OneMore(p, ip, recordAt), InvalidToken)
      case WeakRole => (OneMore(p, ip, recordAt), Forbidden)
  }

  class AuthGuard {
    var failures: map<Ip, Attempts>
    const config: Config

    constructor (config: Config)
      ensures failures == map[] && this.config == config
    {
      failures := map[];
      this.config := config;
    }

    method RecordFailure(ip: Ip, now: nat)
      modifies this
      ensures failures == OneMore(old(failures), ip, now)
    {
      var entry := if ip in failures then failures[ip] else Attempts(0, now);
      failures := failures[ip := Attempts(entry.count + 1, now)];
    }

    /** The filter. `evaluations` counts how often the token was looked at. */
    method Handle(addr: Option<Ip>, e: Evidence, checkAt: nat, recordAt: nat) returns (reply: Reply, evaluations: nat)
      modifies this
      ensures addr == None ==> reply == Unauthorized && failures == old(failures) && evaluations == 0
      ensures addr.Some? ==>
                && (failures, reply) == Handled(config, old(failures), addr.value, e, checkAt, recordAt)
                && evaluations == if Locked(config, old(failures), addr.value, checkAt) then 0 else 1
    {
      if addr == None {
        return Unauthorized, 0;
      }
      var ip := addr.value;
      ghost var before := failures;
      failures := map x | x in failures && Seconds(checkAt, failures[x].last) < config.lockoutDurationSecs :: failures[x];
      assert failures == Purged(config, before, checkAt);
      if ip in failures {
        if failures[ip].count >= config.maxFailAttempts && Seconds(checkAt, failures[ip].last) < config.failWindowSecs {
          return RateLimited, 0;
        }
      }
      match e {
        case NoToken =>
          RecordFailure(ip, recordAt);
          return Unauthorized, 1;
        case BadToken =>
          RecordFailure(ip, recordAt);
          return InvalidToken, 1;
        case WeakRole =>
          RecordFailure(ip, recordAt);
          return Forbidden, 1;
        case Good =>
          failures := failures - {ip};
          return Accepted, 1;
      }
    }
  }

  // ---------- When an IP is locked ----------

  function Min(a: nat, b: nat): nat {
    if a <= b then a else b
  }

  /** An IP over the limit is turned away exactly while both the window and the lockout last. */
  lemma LockedIff(c: Config, f: map<Ip, Attempts>, ip: Ip, now: nat)
    ensures Locked(c, f, ip, now) <==>
            ip in f && f[ip].count >= c.maxFailAttempts
            && Seconds(now, f[ip].last) < Min(c.failWindowSecs, c.lockoutDurationSecs)
  {
  }

  ghost predicate LockedThroughout(c: Config, f: map<Ip, Attempts>, ip: Ip)
    requires ip in f
  {
    forall now :: f[ip].last <= now && Seconds(now, f[ip].last) < c.lockoutDurationSecs ==> Locked(c, f, ip, now)
  }

  /** The announced lockout duration is honoured exactly when it is no longer than the failure window. */
  lemma LockoutHonouredIff(c: Config, f: map<Ip, Attempts>, ip: Ip)
    requires ip in f && f[ip].count >= c.maxFailAttempts
    ensures LockedThroughout(c, f, ip) <==> c.lockoutDurationSecs <= c.failWindowSecs
  {
    if c.failWindowSecs < c.lockoutDurationSecs {
      var now := f[ip].last + c.failWindowSecs * NANOS;
      assert Seconds(now, f[ip].last) == c.failWindowSecs;
      assert !Locked(c, f, ip, now);
    }
  }

  /** With the default configuration an IP locked for 300 seconds is heard again after 60. */
  lemma DefaultLockoutIsTheWindow(f: map<Ip, Attempts>, ip: Ip)
    requires ip in f && f[ip].count >= DEFAULT.maxFailAttempts
    ensures !LockedThroughout(DEFAULT, f, ip)
    ensures !Locked(DEFAULT, f, ip, f[ip].last + 60 * NANOS)
  {
    LockoutHonouredIff(DEFAULT, f, ip);
    LockedIff(DEFAULT, f, ip, f[ip].last + 60 * NANOS);
  }

  /** What one IP does never changes whether another is locked. */
  lemma OthersUnaffected(c: Config, f: map<Ip, Attempts>, ip: Ip, e: Evidence, checkAt: nat, recordAt: nat, other: Ip, now: nat)
    requires other != ip && checkAt <= now
    ensures Locked(c, Handled(c, f, ip, e, checkAt, recordAt).0, other, now) <==> Locked(c, f, other, now)
  {
  }

  // ---------- The bound over whole runs ----------

  /** Requests of all IPs in order of arrival. The lock is tested at `at`, a failure is stamped `recordAt`. */
  datatype Request = Request(ip: Ip, evidence: Evidence, at: nat, recordAt: nat)

  /** How many requests of `ip` have their token looked at. */
  ghost function Evaluated(c: Config, f: map<Ip, Attempts>, rs: seq<Request>, ip: Ip): nat
    decreases |rs|
  {
    if rs == [] then 0
    else
      var r := rs[0];
      (if r.ip == ip && !Locked(c, f, ip, r.at) then 1 else 0)
      + Evaluated(c, Handled(c, f, r.ip, r.evidence, r.at, r.recordAt).0, rs[1..], ip)
  }

  /** In order, from `from` on, within less than `secs` seconds; `ip` never succeeds. */
  ghost predicate Burst(rs: seq<Request>, ip: Ip, from: nat, secs: nat) {
    && (forall i, j :: 0 <= i < j < |rs| ==> rs[i].at <= rs[j].at)
    && (forall i :: 0 <= i < |rs| ==> from <= rs[i].at < from + secs * NANOS && from <= rs[i].recordAt)
    && (forall i :: 0 <= i < |rs| && rs[i].ip == ip ==> rs[i].evidence != Good)
  }

  /** Within the span a failure stamped inside it is neither purged nor outside the window. */
  lemma StillRecent(c: Config, a: Attempts, from: nat, now: nat)
    requires from <= a.last
    requires from <= now < from + Min(c.failWindowSecs, c.lockoutDurationSecs) * NANOS
    ensures Fresh(c, a, now) && Seconds(now, a.last) < c.failWindowSecs
  {
  }

  /** Once a failure is stamped inside the span, only the attempts left under the limit are evaluated. */
  lemma {:induction false} BoundAfterFailure(c: Config, f: map<Ip, Attempts>, rs: seq<Request>, ip: Ip, from: nat)
    requires Burst(rs, ip, from, Min(c.failWindowSecs, c.lockoutDurationSecs))
    requires ip in f && from <= f[ip].last
    ensures Evaluated(c, f, rs, ip) <= if f[ip].count >= c.maxFailAttempts then 0 else c.maxFailAttempts - f[ip].count
    decreases |rs|
  {
    if rs != [] {
      var r := rs[0];
      StillRecent(c, f[ip], from, r.at);
      BoundAfterFailure(c, Handled(c, f, r.ip, r.evidence, r.at, r.recordAt).0, rs[1..], ip, from);
    }
  }

  /** In any span shorter than both the failure window and the lockout, whatever happened before and
      whatever other IPs do, an IP without a success gets at most `max(1, max_fail_attempts)` of its
      requests evaluated. */
  lemma {:induction false} LockoutBound(c: Config, f: map<Ip, Attempts>, rs: seq<Request>, ip: Ip, from: nat)
    requires Burst(rs, ip, from, Min(c.failWindowSecs, c.lockoutDurationSecs))
    ensures Evaluated(c, f, rs, ip) <= if c.maxFailAttempts == 0 then 1 else c.maxFailAttempts
    decreases |rs|
  {
    if rs != [] {
      var r := rs[0];
      var g := Handled(c, f, r.ip, r.evidence, r.at, r.recordAt).0;
      if r.ip == ip && !Locked(c, f, ip, r.at) {
        assert ip in g && g[ip].last == r.recordAt && g[ip].count >= 1;
        BoundAfterFailure(c, g, rs[1..], ip, from);
      } else {
        LockoutBound(c, g, rs[1..], ip, from);
      }
    }
  }
}

/** The failure lockout of network/security/auth_middleware.rs, told from the requests: which failures count
    against an address, what each request is answered, and that a success wipes the slate. */
module LockoutHistory {
  import opened Prelude
  import opened AuthLockout

  ghost function After(c: Config, f: map<Ip, Attempts>, rs: seq<Request>): map<Ip, Attempts>
    decreases |rs|
  {
    if rs == [] then f else After(c, Handled(c, f, rs[0].ip, rs[0].evidence, rs[0].at, rs[0].recordAt).0, rs[1..])
  }

  /** Less than `secs` whole seconds after `last`. */
  predicate Within(at: nat, last: nat, secs: nat) {
    secs > 0 && at < last + secs * NANOS
  }

  // ---------- The failures that count ----------

  /** The failures `t` against an address that are still remembered at `at`. */
  ghost function Remembered(c: Config, t: seq<nat>, at: nat): seq<nat> {
    if t != [] && Within(at, t[|t| - 1], c.lockoutDurationSecs) then t else []
  }

  ghost predicate TooMany(c: Config, t: seq<nat>, at: nat) {
    |t| >= (if c.maxFailAttempts == 0 then 1 else c.maxFailAttempts) && Within(at, t[|t| - 1], c.failWindowSecs)
  }

  /** When the failures happened that count against `ip` after these requests. Any request makes the filter
      forget those whose last is a lockout duration old. One of `ip` itself adds a failure or, if it succeeds,
      takes them all away, unless there are too many already. */
  ghost function Failures(c: Config, rs: seq<Request>, ip: Ip): seq<nat> {
    if rs == [] then []
    else
      var r := rs[|rs| - 1];
      var t := Remembered(c, Failures(c, rs[..|rs| - 1], ip), r.at);
      if r.ip != ip || TooMany(c, t, r.at) then t
      else if r.evidence == Good then []
      else t + [r.recordAt]
  }

  /** The table records the failures that count. */
  ghost predicate Records(f: map<Ip, Attempts>, ip: Ip, t: seq<nat>) {
    if t == [] then ip !in f else ip in f && f[ip] == Attempts(|t|, t[|t| - 1])
  }

  lemma SecondsIsWithin(at: nat, last: nat, secs: nat)
    ensures Seconds(at, last) < secs <==> Within(at, last, secs)
  {
  }

  lemma PurgeRecords(c: Config, f: map<Ip, Attempts>, ip: Ip, t: seq<nat>, at: nat)
    requires Records(f, ip, t)
    ensures Records(Purged(c, f, at), ip, Remembered(c, t, at))
    ensures Locked(c, f, ip, at) <==> TooMany(c, Remembered(c, t, at), at)
  {
    if t != [] {
      SecondsIsWithin(at, t[|t| - 1], c.lockoutDurationSecs);
      SecondsIsWithin(at, t[|t| - 1], c.failWindowSecs);
    }
  }

  lemma StepRecords(c: Config, f: map<Ip, Attempts>, done: seq<Request>, r: Request, ip: Ip)
    requires Records(f, ip, Failures(c, done, ip))
    ensures Records(Handled(c, f, r.ip, r.evidence, r.at, r.recordAt).0, ip, Failures(c, done + [r], ip))
  {
    assert (done + [r])[..|done|] == done;
    PurgeRecords(c, f, ip, Failures(c, done, ip), r.at);
  }

  lemma {:induction false} RunRecords(c: Config, f: map<Ip, Attempts>, done: seq<Request>, rs: seq<Request>, ip: Ip)
    requires Records(f, ip, Failures(c, done, ip))
    ensures Records(After(c, f, rs), ip, Failures(c, done + rs, ip))
    decreases |rs|
  {
    if rs == [] {
      assert done + rs == done;
    } else {
      var r := rs[0];
      StepRecords(c, f, done, r, ip);
      RunRecords(c, Handled(c, f, r.ip, r.evidence, r.at, r.recordAt).0, done + [r], rs[1..], ip);
      assert done + [r] + rs[1..] == done + rs;
    }
  }

  /** After any traffic the table holds, for every address, the number and the last of its failures that count. */
  lemma TableIsHistory(c: Config, rs: seq<Request>, ip: Ip)
    ensures Records(After(c, map[], rs), ip, Failures(c, rs, ip))
  {
    RunRecords(c, map[], [], rs, ip);
    assert [] + rs == rs;
  }

  /** After any traffic a request is turned away exactly when the remembered failures of its address are too
      many and the last is within the window; otherwise its own evidence decides the answer. */
  lemma ReplyIsHistory(c: Config, rs: seq<Request>, r: Request)
    ensures Handled(c, After(c, map[], rs), r.ip, r.evidence, r.at, r.recordAt).1 ==
            if TooMany(c, Remembered(c, Failures(c, rs, r.ip), r.at), r.at) then RateLimited
            else match r.evidence
                 case NoToken => Unauthorized
                 case BadToken => InvalidToken
                 case WeakRole => Forbidden
                 case Good => Accepted
  {
    TableIsHistory(c, rs, r.ip);
    PurgeRecords(c, After(c, map[], rs), r.ip, Failures(c, rs, r.ip), r.at);
  }

  // ---------- A success wipes the slate ----------

  ghost function Requests(rs: seq<Request>, ip: Ip): nat {
    if rs == [] then 0 else (if rs[0].ip == ip then 1 else 0) + Requests(rs[1..], ip)
  }

  /** With room for all of them under the limit, every request of the address has its token looked at. */
  lemma {:induction false} RoomForAll(c: Config, f: map<Ip, Attempts>, rs: seq<Request>, ip: Ip)
    requires (if ip in f then f[ip].count else 0) + Requests(rs, ip) <= if c.maxFailAttempts == 0 then 1 else c.maxFailAttempts
    requires ip in f ==> f[ip].count >= 1
    ensures Evaluated(c, f, rs, ip) == Requests(rs, ip)
    decreases |rs|
  {
    if rs != [] {
      var r := rs[0];
      RoomForAll(c, Handled(c, f, r.ip, r.evidence, r.at, r.recordAt).0, rs[1..], ip);
    }
  }

  /** After any traffic, once a request of the address is accepted, its next `max(1, max_fail_attempts)`
      requests all have their tokens looked at, whatever else comes in between and on any clock. */
  lemma SuccessStartsAfresh(c: Config, before: seq<Request>, success: Request, rs: seq<Request>)
    requires Handled(c, After(c, map[], before), success.ip, success.evidence, success.at, success.recordAt).1 == Accepted
    requires Requests(rs, success.ip) <= if c.maxFailAttempts == 0 then 1 else c.maxFailAttempts
    ensures Evaluated(c, After(c, map[], before + [success]), rs, success.ip) == Requests(rs, success.ip)
  {
    ReplyIsHistory(c, before, success);
    TableIsHistory(c, before + [success], success.ip);
    assert (before + [success])[..|before|] == before;
    assert Failures(c, before + [success], success.ip) == [];
    RoomForAll(c, After(c, map[], before + [success]), rs, success.ip);
  }
}

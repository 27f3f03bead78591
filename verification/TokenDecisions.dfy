/** What `AuthService` of network/security/auth_middleware.rs answers, told from the calls made to it and not
    from its tables: which JWTs and simple tokens are accepted after any run of calls with any cleanups. */
module TokenDecisions {
  import opened Prelude
  import opened TokenRevocation

  /** What the last create or revoke of the token left: the entry created, or nothing. */
  ghost function Standing(ops: seq<Op>, token: string): Option<SimpleInfo> {
    if ops == [] then None
    else
      match ops[|ops| - 1]
      case CreateSimple(t, info) => if t == token then Some(info) else Standing(ops[..|ops| - 1], token)
      case RevokeSimple(t) => if t == token then None else Standing(ops[..|ops| - 1], token)
      case _ => Standing(ops[..|ops| - 1], token)
  }

  ghost predicate EverRevoked(decode: Decoder, ops: seq<Op>, token: string) {
    exists op :: op in ops && op.RevokeJwt? && op.token == token && op.decodeOk && decode(token).Some?
  }

  /** The latest clock reading of the run. */
  ghost function ClockAfter(ops: seq<Op>, clock: nat): nat
    decreases |ops|
  {
    if ops == [] then clock else ClockAfter(ops[1..], Later(ops[0], clock))
  }

  ghost predicate PastTime(info: SimpleInfo, clock: nat) {
    info.expiresAt.Some? && info.expiresAt.value < clock
  }

  // ---------- The tables follow the calls ----------

  /** The simple token's entry is what stands, unless a cleanup took it after its time. */
  ghost predicate SimpleFollows(s: Store, ops: seq<Op>, token: string, clock: nat) {
    if token in s.simple then Standing(ops, token) == Some(s.simple[token])
    else Standing(ops, token).Some? ==> PastTime(Standing(ops, token).value, clock)
  }

  /** The JWT is on the list if it was ever revoked, unless a cleanup took it off after its time. */
  ghost predicate RevokedFollows(decode: Decoder, s: Store, ops: seq<Op>, token: string, clock: nat) {
    if token in s.revoked then EverRevoked(decode, ops, token) && s.revoked[token] == decode(token).value.exp
    else EverRevoked(decode, ops, token) ==> decode(token).value.exp < clock
  }

  lemma SimpleStep(decode: Decoder, s: Store, done: seq<Op>, op: Op, token: string, clock: nat)
    requires SimpleFollows(s, done, token, clock)
    ensures SimpleFollows(Apply(decode, s, op), done + [op], token, Later(op, clock))
  {
    assert (done + [op])[..|done|] == done;
  }

  lemma RevokedStep(decode: Decoder, s: Store, done: seq<Op>, op: Op, token: string, clock: nat)
    requires RevokedFollows(decode, s, done, token, clock)
    ensures RevokedFollows(decode, Apply(decode, s, op), done + [op], token, Later(op, clock))
  {
    var all := done + [op];
    assert op in all && forall x :: x in all <==> x in done || x == op;
    assert EverRevoked(decode, all, token) <==>
           EverRevoked(decode, done, token) || (op.RevokeJwt? && op.token == token && op.decodeOk && decode(token).Some?);
  }

  lemma {:induction false} RunFollows(decode: Decoder, s: Store, done: seq<Op>, ops: seq<Op>, token: string, clock: nat)
    requires SimpleFollows(s, done, token, clock) && RevokedFollows(decode, s, done, token, clock)
    ensures SimpleFollows(After(decode, s, ops), done + ops, token, ClockAfter(ops, clock))
    ensures RevokedFollows(decode, After(decode, s, ops), done + ops, token, ClockAfter(ops, clock))
    decreases |ops|
  {
    if ops == [] {
      assert done + ops == done;
    } else {
      SimpleStep(decode, s, done, ops[0], token, clock);
      RevokedStep(decode, s, done, ops[0], token, clock);
      RunFollows(decode, Apply(decode, s, ops[0]), done + [ops[0]], ops[1..], token, Later(ops[0], clock));
      assert done + [ops[0]] + ops[1..] == done + ops;
    }
  }

  const EMPTY := Store(map[], map[])

  lemma FromEmpty(decode: Decoder, ops: seq<Op>, token: string)
    ensures SimpleFollows(After(decode, EMPTY, ops), ops, token, ClockAfter(ops, 0))
    ensures RevokedFollows(decode, After(decode, EMPTY, ops), ops, token, ClockAfter(ops, 0))
  {
    RunFollows(decode, EMPTY, [], ops, token, 0);
    assert [] + ops == ops;
  }

  // ---------- The decisions ----------

  /** After any run, a JWT is accepted exactly when rate limit and decoding let it through, it is not past its
      expiry, and it was never revoked. */
  lemma JwtAcceptedIff(decode: Decoder, ops: seq<Op>, token: string, now: nat, rateOk: bool, decodeOk: bool)
    requires ClockAfter(ops, 0) <= now
    ensures Verdict(decode, After(decode, EMPTY, ops), ValidateJwt(token, now, rateOk, decodeOk)) ==
            [rateOk && decodeOk && decode(token).Some? && now <= decode(token).value.exp && !EverRevoked(decode, ops, token)]
  {
    FromEmpty(decode, ops, token);
  }

  /** After any run, a simple token is accepted exactly when the rate limit lets it through, its last create or
      revoke is a create, what was created is not past its expiry, and the addresses of token and caller are
      not known to differ. */
  lemma SimpleAcceptedIff(decode: Decoder, ops: seq<Op>, token: string, ip: Option<Ip>, now: nat, rateOk: bool)
    requires ClockAfter(ops, 0) <= now
    ensures Verdict(decode, After(decode, EMPTY, ops), ValidateSimple(token, ip, now, rateOk)) ==
            [rateOk && match Standing(ops, token)
                       case None => false
                       case Some(info) =>
                         && (info.expiresAt == None || now <= info.expiresAt.value)
                         && !(info.ip.Some? && ip.Some? && info.ip.value != ip.value)]
  {
    FromEmpty(decode, ops, token);
  }

  ghost predicate LeavesAlone(ops: seq<Op>, token: string) {
    forall op :: op in ops && (op.CreateSimple? || op.RevokeSimple?) ==> op.token != token
  }

  lemma {:induction false} StandsStill(before: seq<Op>, ops: seq<Op>, token: string)
    requires LeavesAlone(ops, token)
    ensures Standing(before + ops, token) == Standing(before, token)
    decreases |ops|
  {
    if ops == [] {
      assert before + ops == before;
    } else {
      var n := |ops| - 1;
      assert (before + ops)[..|before| + n] == before + ops[..n];
      assert ops[n] in ops;
      StandsStill(before, ops[..n], token);
    }
  }

  /** Once created, a token is accepted from its own address and from unknown ones until it expires, and from
      no other address, whatever happens to other tokens and however often the tables are cleaned. */
  lemma CreatedIsBound(decode: Decoder, before: seq<Op>, token: string, info: SimpleInfo, ops: seq<Op>,
                       ip: Option<Ip>, now: nat, rateOk: bool)
    requires LeavesAlone(ops, token) && ClockAfter(before + [CreateSimple(token, info)] + ops, 0) <= now
    ensures Verdict(decode, After(decode, EMPTY, before + [CreateSimple(token, info)] + ops), ValidateSimple(token, ip, now, rateOk)) ==
            [rateOk && (info.expiresAt == None || now <= info.expiresAt.value)
             && (info.ip == None || ip == None || info.ip == ip)]
  {
    var created := before + [CreateSimple(token, info)];
    StandsStill(created, ops, token);
    assert created[|created| - 1] == CreateSimple(token, info);
    SimpleAcceptedIff(decode, created + ops, token, ip, now, rateOk);
  }
}

/** JWT revocation, simple tokens and their cleanup in network/security/auth_middleware.rs's `AuthService`.
    What a JWT says is a fixed partial function of its text; whether the decoding library also accepts it
    at some moment, and whether the rate limiter lets the request through, are free inputs of each call. */
module TokenRevocation {
  import opened Prelude

  datatype Claims = Claims(sub: string, exp: nat)

  datatype SimpleInfo = SimpleInfo(userId: string, expiresAt: Option<nat>, ip: Option<Ip>)

  datatype Error = RateLimited | JwtError | ExpiredToken | InvalidToken | Forbidden

  datatype Store = Store(revoked: map<string, nat>, simple: map<string, SimpleInfo>)

  type Decoder = string -> Option<Claims>

  // ---------- Verdicts ----------

  predicate JwtAccepted(decode: Decoder, s: Store, token: string, now: nat, rateOk: bool, decodeOk: bool) {
    && rateOk && decodeOk && decode(token).Some?
    && now <= decode(token).value.exp
    && token !in s.revoked
  }

  predicate Lapsed(info: SimpleInfo, now: nat) {
    info.expiresAt.Some? && info.expiresAt.value < now
  }

  predicate SimpleAccepted(s: Store, token: string, ip: Option<Ip>, now: nat, rateOk: bool) {
    && rateOk && token in s.simple
    && !Lapsed(s.simple[token], now)
    && (s.simple[token].ip.Some? && ip.Some? ==> s.simple[token].ip == ip)
  }

  ghost function Cleaned(s: Store, now: nat): Store {
    Store(map k | k in s.revoked && now <= s.revoked[k] :: s.revoked[k],
          map k | k in s.simple && !Lapsed(s.simple[k], now) :: s.simple[k])
  }

  // ---------- The service ----------

  class AuthService {
    var revokedJwt: map<string, nat>
    var simpleTokens: map<string, SimpleInfo>
    const decode: Decoder

    ghost function Contents(): Store
      reads this
    {
      Store(revokedJwt, simpleTokens)
    }

    constructor (decode: Decoder)
      ensures Contents() == Store(map[], map[]) && this.decode == decode
    {
      revokedJwt := map[];
      simpleTokens := map[];
      this.decode := decode;
    }

    method ValidateJwt(token: string, now: nat, rateOk: bool, decodeOk: bool) returns (r: Result<Claims, Error>)
      ensures r.Ok? <==> JwtAccepted(decode, Contents(), token, now, rateOk, decodeOk)
      ensures r.Ok? ==> decode(token) == Some(r.value)
      ensures r == Err(ExpiredToken) <==> rateOk && decodeOk && decode(token).Some? && decode(token).value.exp < now
    {
      if !rateOk {
        return Err(RateLimited);
      }
      if !decodeOk || decode(token).None? {
        return Err(JwtError);
      }
      var claims := decode(token).value;
      if claims.exp < now {
        return Err(ExpiredToken);
      }
      if token in revokedJwt {
        return Err(InvalidToken);
      }
      return Ok(claims);
    }

    method RevokeJwt(token: string, decodeOk: bool) returns (r: Result<(), Error>)
      modifies `revokedJwt
      ensures r.Ok? <==> decodeOk && decode(token).Some?
      ensures revokedJwt == if r.Ok? then old(revokedJwt)[token := decode(token).value.exp] else old(revokedJwt)
    {
      if !decodeOk || decode(token).None? {
        return Err(JwtError);
      }
      revokedJwt := revokedJwt[token := decode(token).value.exp];
      return Ok(());
    }

    method ValidateSimpleToken(token: string, ip: Option<Ip>, now: nat, rateOk: bool) returns (r: Result<SimpleInfo, Error>)
      ensures r.Ok? <==> SimpleAccepted(Contents(), token, ip, now, rateOk)
      ensures r.Ok? ==> r.value == simpleTokens[token]
      ensures r == Err(ExpiredToken) <==>
              rateOk && token in simpleTokens && simpleTokens[token].expiresAt.Some? && simpleTokens[token].expiresAt.value < now
      ensures r == Err(Forbidden) <==>
              && rateOk && token in simpleTokens && r != Err(ExpiredToken)
              && simpleTokens[token].ip.Some? && ip.Some? && simpleTokens[token].ip.value != ip.value
    {
      if !rateOk {
        return Err(RateLimited);
      }
      if token !in simpleTokens {
        return Err(InvalidToken);
      }
      var info := simpleTokens[token];
      if info.expiresAt.Some? {
        if info.expiresAt.value < now {
          return Err(ExpiredToken);
        }
      }
      if info.ip.Some? && ip.Some? {
        if info.ip.value != ip.value {
          return Err(Forbidden);
        }
      }
      return Ok(info);
    }

    method CreateSimpleToken(token: string, info: SimpleInfo)
      modifies `simpleTokens
      ensures simpleTokens == old(simpleTokens)[token := info]
    {
      simpleTokens := simpleTokens[token := info];
    }

    method RevokeSimpleToken(token: string) returns (r: Result<(), Error>)
      modifies `simpleTokens
      ensures r.Ok? <==> RevokesSimple(old(Contents()), token)
      ensures simpleTokens == old(simpleTokens) - {token}
    {
      if token in simpleTokens {
        simpleTokens := simpleTokens - {token};
        return Ok(());
      }
      assert simpleTokens == simpleTokens - {token};
      return Err(InvalidToken);
    }

    /** Both maps: collect the expired keys, then remove them one by one. */
    method CleanExpiredTokens(now: nat) returns (count: nat)
      modifies `revokedJwt, `simpleTokens
      ensures Contents() == Cleaned(old(Contents()), now)
      ensures count == |old(simpleTokens)| - |simpleTokens| + |old(revokedJwt)| - |revokedJwt|
    {
      ghost var s := Contents();
      var lapsed := set k | k in simpleTokens && Lapsed(simpleTokens[k], now);
      var spent := set k | k in revokedJwt && revokedJwt[k] < now;
      CleanedIsMinus(s, now, lapsed, spent);
      var n, m;
      simpleTokens, n := RemoveKeys(simpleTokens, lapsed);
      revokedJwt, m := RemoveKeys(revokedJwt, spent);
      count := n + m;
    }
  }

  lemma CleanedIsMinus(s: Store, now: nat, lapsed: set<string>, spent: set<string>)
    requires lapsed == set k | k in s.simple && Lapsed(s.simple[k], now)
    requires spent == set k | k in s.revoked && s.revoked[k] < now
    ensures Cleaned(s, now).simple == s.simple - lapsed
    ensures Cleaned(s, now).revoked == s.revoked - spent
    ensures lapsed <= s.simple.Keys && spent <= s.revoked.Keys
  {
  }

  /** The removal loop, counting as it goes. */
  method RemoveKeys<K(==), V>(m: map<K, V>, keys: set<K>) returns (left: map<K, V>, count: nat)
    requires keys <= m.Keys
    ensures left == m - keys && count == |m| - |left|
  {
    left, count := m, 0;
    var rest := keys;
    ghost var gone := {};
    assert m - gone == m;
    while rest != {}
      invariant gone + rest == keys && gone !! rest
      invariant left == m - gone && count == |gone|
      decreases |rest|
    {
      var key :| key in rest;
      assert m - gone - {key} == m - (gone + {key});
      left := left - {key};
      rest, gone := rest - {key}, gone + {key};
      count := count + 1;
    }
    assert gone == keys;
    MinusSize(m, keys);
  }

  // ---------- Runs ----------

  datatype Op =
    | ValidateJwt(token: string, now: nat, rateOk: bool, decodeOk: bool)
    | RevokeJwt(token: string, decodeOk: bool)
    | CreateSimple(token: string, info: SimpleInfo)
    | ValidateSimple(token: string, ip: Option<Ip>, now: nat, rateOk: bool)
    | RevokeSimple(token: string)
    | Clean(now: nat)

  ghost function Apply(decode: Decoder, s: Store, op: Op): Store {
    match op
    case ValidateJwt(_, _, _, _) => s
    case RevokeJwt(t, decodeOk) =>
      if decodeOk && decode(t).Some? then s.(revoked := s.revoked[t := decode(t).value.exp]) else s
    case CreateSimple(t, info) => s.(simple := s.simple[t := info])
    case ValidateSimple(_, _, _, _) => s
    case RevokeSimple(t) => s.(simple := s.simple - {t})
    case Clean(now) => Cleaned(s, now)
  }

  ghost function Verdict(decode: Decoder, s: Store, op: Op): seq<bool> {
    match op
    case ValidateJwt(t, now, rateOk, decodeOk) => [JwtAccepted(decode, s, t, now, rateOk, decodeOk)]
    case ValidateSimple(t, ip, now, rateOk) => [SimpleAccepted(s, t, ip, now, rateOk)]
    case _ => []
  }

  /** Every acceptance decision of a run, in order. */
  ghost function Verdicts(decode: Decoder, s: Store, ops: seq<Op>): seq<bool>
    decreases |ops|
  {
    if ops == [] then [] else Verdict(decode, s, ops[0]) + Verdicts(decode, Apply(decode, s, ops[0]), ops[1..])
  }

  predicate Timed(op: Op) {
    op.ValidateJwt? || op.ValidateSimple? || op.Clean?
  }

  /** The latest clock reading, once `op` has made its own. */
  function Later(op: Op, clock: nat): nat {
    if Timed(op) && clock < op.now then op.now else clock
  }

  /** No validation reads a clock behind an earlier reading. A cleanup may: it reads its clock before it
      waits for the lists. */
  ghost predicate Forward(ops: seq<Op>, clock: nat) {
    ops != [] ==> (Timed(ops[0]) && !ops[0].Clean? ==> clock <= ops[0].now) && Forward(ops[1..], Later(ops[0], clock))
  }

  /** Revocations are stored with the expiry of the token they revoke. */
  ghost predicate WellKept(decode: Decoder, s: Store) {
    forall t :: t in s.revoked ==> decode(t).Some? && s.revoked[t] == decode(t).value.exp
  }

  lemma ApplyKeepsWellKept(decode: Decoder, s: Store, op: Op)
    requires WellKept(decode, s)
    ensures WellKept(decode, Apply(decode, s, op))
  {
  }

  // ---------- Revocation is permanent ----------

  /** Some validation of `token` in the run is accepted. */
  ghost predicate Accepts(decode: Decoder, s: Store, ops: seq<Op>, token: string)
    decreases |ops|
  {
    ops != [] &&
    ((ops[0].ValidateJwt? && ops[0].token == token && Verdict(decode, s, ops[0]) == [true]) ||
     Accepts(decode, Apply(decode, s, ops[0]), ops[1..], token))
  }

  /** Still on the list, or expired for good. */
  ghost predicate Dead(decode: Decoder, s: Store, token: string, clock: nat) {
    decode(token).Some? && (token in s.revoked || decode(token).value.exp < clock)
  }

  lemma {:induction false} DeadStaysDead(decode: Decoder, s: Store, ops: seq<Op>, token: string, clock: nat)
    requires WellKept(decode, s) && Forward(ops, clock) && Dead(decode, s, token, clock)
    ensures !Accepts(decode, s, ops, token)
    decreases |ops|
  {
    if ops != [] {
      ApplyKeepsWellKept(decode, s, ops[0]);
      DeadStaysDead(decode, Apply(decode, s, ops[0]), ops[1..], token, Later(ops[0], clock));
    }
  }

  /** Once `revoke_jwt` succeeds, no later validation accepts the token, in any run of whole calls with any
      cleanups. For a cleanup that comes between the two steps of a validation see `RevocationInterleaving`. */
  lemma RevocationIsPermanent(decode: Decoder, s: Store, token: string, ops: seq<Op>, clock: nat)
    requires WellKept(decode, s) && Forward(ops, clock)
    requires decode(token).Some?
    ensures !Accepts(decode, Apply(decode, s, RevokeJwt(token, true)), ops, token)
  {
    ApplyKeepsWellKept(decode, s, RevokeJwt(token, true));
    DeadStaysDead(decode, Apply(decode, s, RevokeJwt(token, true)), ops, token, clock);
  }

  // ---------- Cleanup cannot be observed ----------

  ghost function WithoutCleanups(ops: seq<Op>): seq<Op> {
    if ops == [] then []
    else if ops[0].Clean? then WithoutCleanups(ops[1..])
    else [ops[0]] + WithoutCleanups(ops[1..])
  }

  /** `s` is `t` less some revocations and simple tokens that are past their time at `clock`. */
  ghost predicate Trimmed(s: Store, t: Store, clock: nat) {
    && (forall k :: k in s.revoked ==> k in t.revoked && s.revoked[k] == t.revoked[k])
    && (forall k :: k in t.revoked && k !in s.revoked ==> t.revoked[k] < clock)
    && (forall k :: k in s.simple ==> k in t.simple && s.simple[k] == t.simple[k])
    && (forall k :: k in t.simple && k !in s.simple ==> Lapsed(t.simple[k], clock))
  }

  lemma TrimmedStep(decode: Decoder, s: Store, t: Store, op: Op, clock: nat)
    requires WellKept(decode, s) && WellKept(decode, t) && Trimmed(s, t, clock)
    requires !op.Clean? && (Timed(op) ==> clock <= op.now)
    ensures Verdict(decode, s, op) == Verdict(decode, t, op)
    ensures Trimmed(Apply(decode, s, op), Apply(decode, t, op), Later(op, clock))
  {
  }

  lemma TrimmedClean(decode: Decoder, s: Store, t: Store, clock: nat, now: nat)
    requires Trimmed(s, t, clock)
    ensures Trimmed(Cleaned(s, now), t, if clock < now then now else clock)
  {
  }

  lemma {:induction false} TrimmedVerdicts(decode: Decoder, s: Store, t: Store, ops: seq<Op>, clock: nat)
    requires WellKept(decode, s) && WellKept(decode, t) && Trimmed(s, t, clock) && Forward(ops, clock)
    ensures Verdicts(decode, s, ops) == Verdicts(decode, t, WithoutCleanups(ops))
    decreases |ops|
  {
    if ops != [] {
      var op, later := ops[0], Later(ops[0], clock);
      ApplyKeepsWellKept(decode, s, op);
      ApplyKeepsWellKept(decode, t, op);
      if op.Clean? {
        TrimmedClean(decode, s, t, clock, op.now);
        TrimmedVerdicts(decode, Apply(decode, s, op), t, ops[1..], later);
      } else {
        TrimmedStep(decode, s, t, op, clock);
        TrimmedVerdicts(decode, Apply(decode, s, op), Apply(decode, t, op), ops[1..], later);
        assert WithoutCleanups(ops)[1..] == WithoutCleanups(ops[1..]);
      }
    }
  }

  /** Cleanups between the calls change no acceptance decision, of JWTs or simple tokens, anywhere in any run. */
  lemma CleanupIsUnobservable(decode: Decoder, s: Store, ops: seq<Op>, clock: nat)
    requires WellKept(decode, s) && Forward(ops, clock)
    ensures Verdicts(decode, s, ops) == Verdicts(decode, s, WithoutCleanups(ops))
  {
    TrimmedVerdicts(decode, s, s, ops, clock);
  }

  // ---------- Where cleanup shows ----------

  ghost function After(decode: Decoder, s: Store, ops: seq<Op>): Store
    decreases |ops|
  {
    if ops == [] then s else After(decode, Apply(decode, s, ops[0]), ops[1..])
  }

  ghost predicate Creates(ops: seq<Op>, token: string) {
    ops != [] && ((ops[0].CreateSimple? && ops[0].token == token) || Creates(ops[1..], token))
  }

  /** Some cleanup found `info` past its time, and the token was not created again after it. */
  ghost predicate LapsedSince(ops: seq<Op>, token: string, info: SimpleInfo) {
    ops != [] &&
    (LapsedSince(ops[1..], token, info) || (ops[0].Clean? && Lapsed(info, ops[0].now) && !Creates(ops[1..], token)))
  }

  lemma {:induction false} NotCreatedIsOld(decode: Decoder, t: Store, ops: seq<Op>, token: string)
    requires !Creates(ops, token)
    ensures var b := After(decode, t, WithoutCleanups(ops)).simple;
            token in b ==> token in t.simple && b[token] == t.simple[token]
    decreases |ops|
  {
    if ops != [] {
      if ops[0].Clean? {
        NotCreatedIsOld(decode, t, ops[1..], token);
      } else {
        NotCreatedIsOld(decode, Apply(decode, t, ops[0]), ops[1..], token);
        assert WithoutCleanups(ops)[1..] == WithoutCleanups(ops[1..]);
      }
    }
  }

  lemma {:induction false} SimpleTokensLeft(decode: Decoder, s: Store, t: Store, ops: seq<Op>, token: string)
    requires token in s.simple ==> token in t.simple && s.simple[token] == t.simple[token]
    ensures var a, b := After(decode, s, ops).simple, After(decode, t, WithoutCleanups(ops)).simple;
            token in a <==> token in b && (token in s.simple || Creates(ops, token)) && !LapsedSince(ops, token, b[token])
    decreases |ops|
  {
    if ops != [] {
      if !Creates(ops[1..], token) {
        NotCreatedIsOld(decode, if ops[0].Clean? then t else Apply(decode, t, ops[0]), ops[1..], token);
      }
      if ops[0].Clean? {
        SimpleTokensLeft(decode, Apply(decode, s, ops[0]), t, ops[1..], token);
      } else {
        SimpleTokensLeft(decode, Apply(decode, s, ops[0]), Apply(decode, t, ops[0]), ops[1..], token);
        assert WithoutCleanups(ops)[1..] == WithoutCleanups(ops[1..]);
      }
    }
  }

  /** `revoke_simple_token` finds the token. */
  predicate RevokesSimple(s: Store, token: string) {
    token in s.simple
  }

  /** The one thing cleanups do change: after any run, revoking a simple token fails because of them exactly
      when one of them found it past its time after it was last created. */
  lemma CleanupShowsInRevocation(decode: Decoder, s: Store, ops: seq<Op>, token: string)
    ensures var with, without := After(decode, s, ops), After(decode, s, WithoutCleanups(ops));
            RevokesSimple(with, token) <==>
            RevokesSimple(without, token) && !LapsedSince(ops, token, without.simple[token])
  {
    SimpleTokensLeft(decode, s, s, ops, token);
    if !Creates(ops, token) {
      NotCreatedIsOld(decode, s, ops, token);
    }
  }
}

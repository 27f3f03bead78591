/** How long a token of network/security/token.rs lasts, and what it says while it does, over serial runs. */
module TokenLifetime {
  import opened Prelude
  import opened TokenStore

  /** What `create_token` promises about the token. */
  ghost predicate Stands(s: Store, op: Op, expirySeconds: nat)
    requires op.Create?
  {
    op.token in s.tokens
    && s.tokens[op.token] == TokenInfo(op.userId, op.role, op.now, op.now + expirySeconds, op.metadata)
  }

  /** The later call neither revokes the token nor finds it past its time. */
  ghost predicate Spares(later: Op, op: Op, expirySeconds: nat)
    requires op.Create?
  {
    match later
    case Create(_, _, _, _, _) => true
    case Revoke(token) => token != op.token
    case RevokeUser(userId) => userId != op.userId
    case Cleanup(now) => now <= op.now + expirySeconds
  }

  ghost function CreationsFor(ops: seq<Op>, userId: string): nat {
    if ops == [] then 0 else (if ops[0].Create? && ops[0].userId == userId then 1 else 0) + CreationsFor(ops[1..], userId)
  }

  /** In its user's list the token has at most `n` newer ones behind it. */
  ghost predicate AtMostBehind(s: Store, user: string, token: string, n: nat) {
    exists i :: 0 <= i < |Listed(s.lists, user)| && Listed(s.lists, user)[i] == token && |Listed(s.lists, user)| - 1 - i <= n
  }

  lemma WithoutKeepsPlace(s: Store, dead: set<string>, user: string, token: string, n: nat)
    requires AtMostBehind(s, user, token, n) && token !in dead
    ensures AtMostBehind(Without(s, dead), user, token, n)
  {
    var l, p := Listed(s.lists, user), NotIn(dead);
    var i :| 0 <= i < |l| && l[i] == token && |l| - 1 - i <= n;
    FilterPosition(p, l, i);
    assert l == l[..i] + l[i..];
    FilterAppend(p, l[..i], l[i..]);
    assert Listed(Without(s, dead).lists, user) == Filter(p, l);
  }

  lemma AddingKeepsPlace(s: Store, added: string, info: TokenInfo, user: string, token: string, n: nat)
    requires AtMostBehind(s, user, token, n)
    ensures AtMostBehind(Added(s, added, info), user, token, if info.userId == user then n + 1 else n)
  {
    var l := Listed(s.lists, user);
    var i :| 0 <= i < |l| && l[i] == token && |l| - 1 - i <= n;
    var m := Listed(Added(s, added, info).lists, user);
    assert m == if info.userId == user then l + [added] else l;
    assert m[i] == token;
  }

  /** No call ends the token: least of all the cap, as long as there is room for it and those behind it. */
  lemma NotEnded(s: Store, maxTokensPerUser: nat, expirySeconds: nat, op: Op, later: Op, n: nat)
    requires Agree(s, maxTokensPerUser) && op.Create? && Stands(s, op, expirySeconds) && Spares(later, op, expirySeconds)
    requires AtMostBehind(s, op.userId, op.token, n)
    requires later.Create? && later.userId == op.userId ==> n + 1 < Cap(maxTokensPerUser)
    ensures op.token !in Ended(s, maxTokensPerUser, later)
  {
    match later
    case Create(_, u, _, _, _) =>
      var l := Listed(s.lists, u);
      assert u != op.userId ==> op.token !in l;
      if u == op.userId {
        var i :| 0 <= i < |l| && l[i] == op.token && |l| - 1 - i <= n;
        assert i > 0 ==> l[0] != op.token;
      }
    case RevokeUser(u) =>
      assert u != op.userId ==> op.token !in Listed(s.lists, u);
    case _ =>
  }

  lemma StepKeepsToken(s: Store, maxTokensPerUser: nat, expirySeconds: nat, op: Op, later: Op, n: nat)
    requires Agree(s, maxTokensPerUser) && op.Create? && Stands(s, op, expirySeconds) && Spares(later, op, expirySeconds)
    requires AtMostBehind(s, op.userId, op.token, n)
    requires later.Create? ==> later.token !in s.tokens
    requires later.Create? && later.userId == op.userId ==> n + 1 < Cap(maxTokensPerUser)
    ensures var r := Apply(s, maxTokensPerUser, expirySeconds, later);
            && Stands(r, op, expirySeconds)
            && AtMostBehind(r, op.userId, op.token, n + CreationsFor([later], op.userId))
  {
    var dead := Ended(s, maxTokensPerUser, later);
    NotEnded(s, maxTokensPerUser, expirySeconds, op, later, n);
    WithoutKeepsPlace(s, dead, op.userId, op.token, n);
    assert CreationsFor([later], op.userId) == if later.Create? && later.userId == op.userId then 1 else 0;
    if later.Create? {
      AddingKeepsPlace(Without(s, dead), later.token, InfoOf(later, expirySeconds), op.userId, op.token, n);
    }
  }

  lemma {:induction false} LastsFrom(s: Store, maxTokensPerUser: nat, expirySeconds: nat, op: Op, ops: seq<Op>, clock: nat, n: nat)
    requires Agree(s, maxTokensPerUser) && Chronological(s, expirySeconds, clock)
    requires Admissible(s, maxTokensPerUser, expirySeconds, ops, clock)
    requires op.Create? && Stands(s, op, expirySeconds) && AtMostBehind(s, op.userId, op.token, n)
    requires n + CreationsFor(ops, op.userId) < Cap(maxTokensPerUser)
    requires forall later :: later in ops ==> Spares(later, op, expirySeconds)
    ensures Stands(After(s, maxTokensPerUser, expirySeconds, ops), op, expirySeconds)
    decreases |ops|
  {
    if ops != [] {
      assert ops[0] in ops;
      assert CreationsFor([ops[0]], op.userId) == if ops[0].Create? && ops[0].userId == op.userId then 1 else 0;
      StepKeepsToken(s, maxTokensPerUser, expirySeconds, op, ops[0], n);
      ApplyKeepsAll(s, maxTokensPerUser, expirySeconds, ops[0], clock);
      LastsFrom(Apply(s, maxTokensPerUser, expirySeconds, ops[0]), maxTokensPerUser, expirySeconds, op, ops[1..],
                if ops[0].Create? then ops[0].now else clock, n + CreationsFor([ops[0]], op.userId));
    }
  }

  /** Right after its creation a token stands, as the last of its user's list. */
  lemma StandsAtFirst(s: Store, maxTokensPerUser: nat, expirySeconds: nat, op: Op)
    requires op.Create?
    ensures var r := Apply(s, maxTokensPerUser, expirySeconds, op);
            Stands(r, op, expirySeconds) && AtMostBehind(r, op.userId, op.token, 0)
  {
    var l := Listed(Apply(s, maxTokensPerUser, expirySeconds, op).lists, op.userId);
    assert l[|l| - 1] == op.token;
  }

  /** A token stands, with the user, role, dates and metadata it was created with, through every run that does
      not revoke it or its user, does not clean up after its time, and creates fewer than `max(1, max_tokens_per_user)`
      tokens for its user. */
  lemma CreatedTokenLasts(s: Store, maxTokensPerUser: nat, expirySeconds: nat, op: Op, ops: seq<Op>, clock: nat)
    requires Agree(s, maxTokensPerUser) && Chronological(s, expirySeconds, clock) && op.Create?
    requires Admissible(s, maxTokensPerUser, expirySeconds, [op] + ops, clock)
    requires CreationsFor(ops, op.userId) < Cap(maxTokensPerUser)
    requires forall later :: later in ops ==> Spares(later, op, expirySeconds)
    ensures Stands(After(s, maxTokensPerUser, expirySeconds, [op] + ops), op, expirySeconds)
  {
    assert ([op] + ops)[1..] == ops;
    StandsAtFirst(s, maxTokensPerUser, expirySeconds, op);
    ApplyKeepsAll(s, maxTokensPerUser, expirySeconds, op, clock);
    LastsFrom(Apply(s, maxTokensPerUser, expirySeconds, op), maxTokensPerUser, expirySeconds, op, ops, op.now, 0);
  }

  /** The cap takes nothing before it is reached: a creation makes the user's list one longer, up to the cap. */
  lemma CreationSize(s: Store, maxTokensPerUser: nat, expirySeconds: nat, op: Op)
    requires Agree(s, maxTokensPerUser) && op.Create?
    ensures var before, after := |Listed(s.lists, op.userId)|, |Listed(Apply(s, maxTokensPerUser, expirySeconds, op).lists, op.userId)|;
            after == if before < Cap(maxTokensPerUser) then before + 1 else Cap(maxTokensPerUser)
  {
    var l, dead := Listed(s.lists, op.userId), Evicted(s, op.userId, maxTokensPerUser);
    if dead == {} {
      FilterAll(NotIn(dead), l);
    } else {
      FilterAll(NotIn(dead), l[1..]);
    }
    assert Listed(Without(s, dead).lists, op.userId) == Filter(NotIn(dead), l);
  }
}

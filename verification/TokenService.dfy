/** network/security/token.rs's `TokenService`, one call at a time. Clock readings and the random
    token id are parameters. */
module TokenService {
  import opened Prelude
  import opened TokenStore

  datatype Error = InvalidToken | ExpiredToken

  class TokenService {
    const expirySeconds: nat
    const maxTokensPerUser: nat
    var tokens: map<string, TokenInfo>
    var userTokens: map<string, seq<string>>

    ghost function Contents(): Store
      reads this
    {
      Store(tokens, userTokens)
    }

    ghost predicate Valid()
      reads this
    {
      Agree(Contents(), maxTokensPerUser)
    }

    constructor (expirySeconds: nat, maxTokensPerUser: nat)
      ensures Valid() && Contents() == Store(map[], map[])
      ensures this.expirySeconds == expirySeconds && this.maxTokensPerUser == maxTokensPerUser
    {
      this.expirySeconds := expirySeconds;
      this.maxTokensPerUser := maxTokensPerUser;
      tokens := map[];
      userTokens := map[];
    }

    /** `token` is the fresh id drawn by the call. */
    method CreateToken(userId: string, role: Role, metadata: Option<map<string, string>>, now: nat, token: string)
      requires Valid() && token !in tokens
      modifies `tokens, `userTokens
      ensures Valid()
      ensures Contents() == Apply(old(Contents()), maxTokensPerUser, expirySeconds, Create(token, userId, role, metadata, now))
    {
      ghost var s := Contents();
      ghost var op := Create(token, userId, role, metadata, now);
      CreationKeepsAgreement(s, token, InfoOf(op, expirySeconds), maxTokensPerUser);
      CreationIs(s, op, maxTokensPerUser, expirySeconds);

      tokens := tokens[token := TokenInfo(userId, role, now, now + expirySeconds, metadata)];

      var mine := if userId in userTokens then userTokens[userId] else [];
      if |mine| >= maxTokensPerUser {
        if mine != [] {
          var oldest := mine[0];
          mine := mine[1..];
          tokens := tokens - {oldest};
        }
      }
      mine := mine + [token];
      userTokens := userTokens[userId := mine];
      assert Contents() == Apply(s, maxTokensPerUser, expirySeconds, op);
    }

    method ValidateToken(token: string, now: nat) returns (r: Result<TokenInfo, Error>)
      ensures r.Ok? <==> token in tokens && now <= tokens[token].expiresAt
      ensures r.Ok? ==> r.value == tokens[token]
      ensures r == Err(ExpiredToken) <==> token in Expired(Contents(), now)
    {
      if token !in tokens {
        return Err(InvalidToken);
      }
      if tokens[token].expiresAt < now {
        return Err(ExpiredToken);
      }
      return Ok(tokens[token]);
    }

    /** Drop one token from its owner's list, and the owner once the list is empty. */
    method Unlist(userId: string, token: string)
      modifies `userTokens
      ensures userTokens == Unlisted(old(userTokens), userId, token)
    {
      if userId in userTokens {
        var mine := Filter(NotIn({token}), userTokens[userId]);
        userTokens := userTokens[userId := mine];
        if mine == [] {
          userTokens := userTokens - {userId};
        }
      }
    }

    method RevokeToken(token: string) returns (r: Result<(), Error>)
      requires Valid()
      modifies `tokens, `userTokens
      ensures Valid() && Contents() == Without(old(Contents()), {token})
      ensures r == if token in old(tokens) then Ok(()) else Err(InvalidToken)
    {
      ghost var s := Contents();
      WithoutKeepsAgreement(s, {token}, maxTokensPerUser);
      if token !in tokens {
        UnknownEndsNothing(s, {token}, maxTokensPerUser);
        return Err(InvalidToken);
      }
      var userId := tokens[token].userId;
      UnlistingEndsOne(s, token, maxTokensPerUser);
      tokens := tokens - {token};
      Unlist(userId, token);
      return Ok(());
    }

    /** All tokens of one user. */
    method RevokeUserTokens(userId: string) returns (count: nat)
      requires Valid()
      modifies `tokens, `userTokens
      ensures Valid() && Contents() == Apply(old(Contents()), maxTokensPerUser, expirySeconds, RevokeUser(userId))
      ensures count == |Listed(old(userTokens), userId)|
      ensures forall t :: t in tokens ==> tokens[t].userId != userId
    {
      ghost var s := Contents();
      WithoutKeepsAgreement(s, Members(Listed(s.lists, userId)), maxTokensPerUser);
      var removed := if userId in userTokens then userTokens[userId] else [];
      UserEnds(s, userId, maxTokensPerUser);
      userTokens := userTokens - {userId};
      if removed == [] {
        assert tokens == tokens - Members(removed);
        return 0;
      }
      var i := 0;
      while i < |removed|
        invariant 0 <= i <= |removed|
        invariant tokens == s.tokens - Members(removed[..i]) && userTokens == s.lists - {userId}
      {
        assert Members(removed[..i + 1]) == Members(removed[..i]) + {removed[i]};
        tokens := tokens - {removed[i]};
        i := i + 1;
      }
      assert removed[..|removed|] == removed;
      assert Contents() == Without(s, Members(Listed(s.lists, userId)));
      return |removed|;
    }

    /** The removal loop of the cleanup, in any order. */
    method RemoveAll(toRemove: set<string>)
      requires Valid()
      modifies `tokens, `userTokens
      ensures Valid() && Contents() == Without(old(Contents()), toRemove)
    {
      ghost var s, gone := Contents(), {};
      NothingEnds(s);
      var rest := toRemove;
      while rest != {}
        invariant gone + rest == toRemove
        invariant Valid() && Contents() == Without(s, gone)
        decreases |rest|
      {
        var token :| token in rest;
        WithoutBoth(s, gone, {token});
        var _ := RevokeToken(token);
        rest, gone := rest - {token}, gone + {token};
      }
      assert gone == toRemove;
    }

    /** Collect the expired tokens, then remove each from both maps. */
    method CleanupExpiredTokens(now: nat) returns (count: nat)
      requires Valid()
      modifies `tokens, `userTokens
      ensures Valid() && Contents() == Without(old(Contents()), Expired(old(Contents()), now))
      ensures count == |Expired(old(Contents()), now)|
    {
      var toRemove := set t | t in tokens && tokens[t].expiresAt < now;
      assert toRemove == Expired(Contents(), now);
      RemoveAll(toRemove);
      count := |toRemove|;
    }
  }

  // ---------- Each list edit ends exactly the tokens it should ----------

  lemma NothingEnds(s: Store)
    requires forall u :: u in s.lists ==> s.lists[u] != []
    ensures Without(s, {}) == s
  {
    forall u | u in s.lists ensures Filter(NotIn({}), s.lists[u]) == s.lists[u] {
      FilterAll(NotIn({}), s.lists[u]);
    }
  }

  lemma UnknownEndsNothing(s: Store, dead: set<string>, maxTokensPerUser: nat)
    requires Agree(s, maxTokensPerUser) && forall t :: t in dead ==> t !in s.tokens
    ensures Without(s, dead) == s
  {
    forall u | u in s.lists ensures Filter(NotIn(dead), s.lists[u]) == s.lists[u] {
      FilterAll(NotIn(dead), s.lists[u]);
    }
  }

  /** Lists of other users never hold this user's token. */
  lemma OthersUntouched(s: Store, user: string, dead: set<string>, u: string)
    requires EveryListedOwned(s) && u in s.lists && u != user
    requires forall t :: t in dead && t in s.tokens ==> s.tokens[t].userId == user
    ensures Filter(NotIn(dead), s.lists[u]) == s.lists[u]
  {
    FilterAll(NotIn(dead), s.lists[u]);
  }

  lemma UnlistingEndsOne(s: Store, token: string, maxTokensPerUser: nat)
    requires Agree(s, maxTokensPerUser) && token in s.tokens
    ensures Without(s, {token}) == Store(s.tokens - {token}, Unlisted(s.lists, s.tokens[token].userId, token))
  {
    var user := s.tokens[token].userId;
    forall u | u in s.lists && u != user ensures Filter(NotIn({token}), s.lists[u]) == s.lists[u] {
      OthersUntouched(s, user, {token}, u);
    }
    assert Without(s, {token}).lists == Unlisted(s.lists, user, token);
  }

  lemma OldestOnly(s: Store, user: string, maxTokensPerUser: nat)
    requires Agree(s, maxTokensPerUser) && Evicted(s, user, maxTokensPerUser) != {}
    ensures var l := s.lists[user];
            Without(s, Evicted(s, user, maxTokensPerUser)) ==
            Store(s.tokens - {l[0]}, if l[1..] == [] then s.lists - {user} else s.lists[user := l[1..]])
  {
    var l := s.lists[user];
    assert l[0] in l;
    UnlistingEndsOne(s, l[0], maxTokensPerUser);
    FilterAll(NotIn({l[0]}), l[1..]);
  }

  ghost predicate Full(s: Store, user: string, maxTokensPerUser: nat) {
    var l := Listed(s.lists, user);
    |l| >= maxTokensPerUser && l != []
  }

  /** Shortening a user's list, which may take the user out, and then setting it. */
  lemma PutAfterTake<K, V>(m: map<K, seq<V>>, k: K, left: seq<V>, put: seq<V>)
    requires k in m
    ensures var taken := if left == [] then m - {k} else m[k := left];
            taken[k := put] == m[k := put] && left == if k in taken then taken[k] else []
  {
  }

  lemma PutCommutes<K, V>(m: map<K, V>, k: K, v: V, gone: K)
    requires gone != k
    ensures (m - {gone})[k := v] == m[k := v] - {gone}
  {
  }

  lemma FullCreation(s: Store, token: string, info: TokenInfo, maxTokensPerUser: nat)
    requires Agree(s, maxTokensPerUser) && token !in s.tokens && Full(s, info.userId, maxTokensPerUser)
    ensures var l := s.lists[info.userId];
            Created(s, token, info, maxTokensPerUser) ==
            Store(s.tokens[token := info] - {l[0]}, s.lists[info.userId := l[1..] + [token]])
  {
    var user, l := info.userId, s.lists[info.userId];
    assert l[0] in l;
    OldestOnly(s, user, maxTokensPerUser);
    PutAfterTake(s.lists, user, l[1..], l[1..] + [token]);
    PutCommutes(s.tokens, token, info, l[0]);
  }

  lemma RoomyCreation(s: Store, token: string, info: TokenInfo, maxTokensPerUser: nat)
    requires Agree(s, maxTokensPerUser) && !Full(s, info.userId, maxTokensPerUser)
    ensures Created(s, token, info, maxTokensPerUser) == Added(s, token, info)
  {
    NothingEnds(s);
  }

  /** Creation in the code's terms: one map update each, less the oldest token when at the cap. */
  lemma CreationIs(s: Store, op: Op, maxTokensPerUser: nat, expirySeconds: nat)
    requires Agree(s, maxTokensPerUser) && op.Create? && op.token !in s.tokens
    ensures var l, info := Listed(s.lists, op.userId), InfoOf(op, expirySeconds);
            Apply(s, maxTokensPerUser, expirySeconds, op) ==
            if Full(s, op.userId, maxTokensPerUser)
            then Store(s.tokens[op.token := info] - {l[0]}, s.lists[op.userId := l[1..] + [op.token]])
            else Store(s.tokens[op.token := info], s.lists[op.userId := l + [op.token]])
  {
    var info := InfoOf(op, expirySeconds);
    assert Apply(s, maxTokensPerUser, expirySeconds, op) == Created(s, op.token, info, maxTokensPerUser);
    if Full(s, op.userId, maxTokensPerUser) {
      FullCreation(s, op.token, info, maxTokensPerUser);
    } else {
      RoomyCreation(s, op.token, info, maxTokensPerUser);
    }
  }

  lemma UserEnds(s: Store, user: string, maxTokensPerUser: nat)
    requires Agree(s, maxTokensPerUser)
    ensures var mine := Members(Listed(s.lists, user));
            Without(s, mine) == Store(s.tokens - mine, s.lists - {user})
    ensures forall t :: t in s.tokens && s.tokens[t].userId == user ==> t in Members(Listed(s.lists, user))
  {
    var mine := Members(Listed(s.lists, user));
    forall u | u in s.lists && u != user ensures Filter(NotIn(mine), s.lists[u]) == s.lists[u] {
      OthersUntouched(s, user, mine, u);
    }
    if user in s.lists {
      FilterNone(NotIn(mine), s.lists[user]);
    }
  }

  lemma {:induction false} FilterBoth(a: set<string>, b: set<string>, l: seq<string>)
    ensures Filter(NotIn(b), Filter(NotIn(a), l)) == Filter(NotIn(a + b), l)
  {
    if l != [] {
      FilterBoth(a, b, l[1..]);
      if l[0] !in a {
        assert ([l[0]] + Filter(NotIn(a), l[1..]))[1..] == Filter(NotIn(a), l[1..]);
      }
    }
  }

  lemma WithoutBoth(s: Store, a: set<string>, b: set<string>)
    ensures Without(Without(s, a), b) == Without(s, a + b)
  {
    forall u | u in s.lists ensures Filter(NotIn(b), Filter(NotIn(a), s.lists[u])) == Filter(NotIn(a + b), s.lists[u]) {
      FilterBoth(a, b, s.lists[u]);
    }
    assert s.tokens - a - b == s.tokens - (a + b);
    assert Without(Without(s, a), b).lists == Without(s, a + b).lists;
  }
}

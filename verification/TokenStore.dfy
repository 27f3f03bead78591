/** The two maps of network/security/token.rs: token to owner and dates, and user to the ordered list
    of that user's tokens. Serial histories keep them in exact agreement. */
module TokenStore {
  import opened Prelude

  datatype TokenInfo = TokenInfo(userId: string, role: Role, createdAt: nat, expiresAt: nat,
                                 metadata: Option<map<string, string>>)

  datatype Store = Store(tokens: map<string, TokenInfo>, lists: map<string, seq<string>>)

  function Listed(lists: map<string, seq<string>>, user: string): seq<string> {
    if user in lists then lists[user] else []
  }

  /** A cap of 0 still leaves the token just created. */
  function Cap(maxTokensPerUser: nat): nat {
    if maxTokensPerUser == 0 then 1 else maxTokensPerUser
  }

  function NotIn(dead: set<string>): string -> bool {
    (t: string) => t !in dead
  }

  /** The store with some tokens gone from both maps; a user with no token left is gone too. */
  ghost function Without(s: Store, dead: set<string>): Store {
    Store(s.tokens - dead,
          map u | u in s.lists && Filter(NotIn(dead), s.lists[u]) != [] :: Filter(NotIn(dead), s.lists[u]))
  }

  /** One token gone from one user's list, and the user gone with the last token. */
  ghost function Unlisted(lists: map<string, seq<string>>, userId: string, token: string): map<string, seq<string>> {
    if userId !in lists then lists
    else
      var mine := Filter(NotIn({token}), lists[userId]);
      if mine == [] then lists - {userId} else lists[userId := mine]
  }

  ghost function Expired(s: Store, now: nat): set<string> {
    set t | t in s.tokens && s.tokens[t].expiresAt < now
  }

  /** The tokens that the cap pushes out when `user` gets one more: none, or the oldest. */
  ghost function Evicted(s: Store, user: string, maxTokensPerUser: nat): set<string> {
    var l := Listed(s.lists, user);
    if |l| >= maxTokensPerUser && l != [] then {l[0]} else {}
  }

  ghost function Added(s: Store, token: string, info: TokenInfo): Store {
    Store(s.tokens[token := info], s.lists[info.userId := Listed(s.lists, info.userId) + [token]])
  }

  ghost function Created(s: Store, token: string, info: TokenInfo, maxTokensPerUser: nat): Store {
    Added(Without(s, Evicted(s, info.userId, maxTokensPerUser)), token, info)
  }

  ghost predicate EveryTokenListed(s: Store) {
    forall t :: t in s.tokens ==> t in Listed(s.lists, s.tokens[t].userId)
  }

  ghost predicate EveryListedOwned(s: Store) {
    forall u, t :: u in s.lists && t in s.lists[u] ==> t in s.tokens && s.tokens[t].userId == u
  }

  ghost predicate WellFormed(lists: map<string, seq<string>>, maxTokensPerUser: nat) {
    forall u :: u in lists ==> lists[u] != [] && Distinct(lists[u]) && |lists[u]| <= Cap(maxTokensPerUser)
  }

  /** A token is in a user's list exactly when the token map gives it that owner. Lists are
      non-empty, hold no token twice, and respect the cap. */
  ghost predicate Agree(s: Store, maxTokensPerUser: nat) {
    EveryTokenListed(s) && EveryListedOwned(s) && WellFormed(s.lists, maxTokensPerUser)
  }

  // ---------- Agreement ----------

  lemma WithoutKeepsListed(s: Store, dead: set<string>)
    requires EveryTokenListed(s)
    ensures EveryTokenListed(Without(s, dead))
  {
    forall t | t in s.tokens && t !in dead ensures t in Listed(Without(s, dead).lists, s.tokens[t].userId) {
      FilterMembers(NotIn(dead), s.lists[s.tokens[t].userId]);
    }
  }

  lemma WithoutKeepsOwned(s: Store, dead: set<string>)
    requires EveryListedOwned(s)
    ensures EveryListedOwned(Without(s, dead))
  {
    var r := Without(s, dead);
    forall u, t | u in r.lists && t in r.lists[u] ensures t in r.tokens && r.tokens[t].userId == u {
      FilterMembers(NotIn(dead), s.lists[u]);
    }
  }

  lemma WithoutKeepsWellFormed(s: Store, dead: set<string>, maxTokensPerUser: nat)
    requires WellFormed(s.lists, maxTokensPerUser)
    ensures WellFormed(Without(s, dead).lists, maxTokensPerUser)
  {
    forall u | u in Without(s, dead).lists ensures Distinct(Filter(NotIn(dead), s.lists[u])) {
      FilterDistinct(NotIn(dead), s.lists[u]);
    }
  }

  lemma WithoutKeepsAgreement(s: Store, dead: set<string>, maxTokensPerUser: nat)
    requires Agree(s, maxTokensPerUser)
    ensures Agree(Without(s, dead), maxTokensPerUser)
  {
    WithoutKeepsListed(s, dead);
    WithoutKeepsWellFormed(s, dead, maxTokensPerUser);
    WithoutKeepsOwned(s, dead);
  }

  lemma EvictionMakesRoom(s: Store, user: string, maxTokensPerUser: nat)
    requires Agree(s, maxTokensPerUser)
    ensures |Listed(Without(s, Evicted(s, user, maxTokensPerUser)).lists, user)| < Cap(maxTokensPerUser)
  {
  }

  lemma AddingKeepsListed(s: Store, token: string, info: TokenInfo)
    requires EveryTokenListed(s)
    ensures EveryTokenListed(Added(s, token, info))
  {
    var r := Added(s, token, info);
    forall t | t in r.tokens ensures t in Listed(r.lists, r.tokens[t].userId) {
      if t == token {
        assert r.lists[info.userId][|r.lists[info.userId]| - 1] == token;
      } else {
        assert t in Listed(s.lists, s.tokens[t].userId);
      }
    }
  }

  lemma AddingKeepsOwned(s: Store, token: string, info: TokenInfo)
    requires EveryListedOwned(s) && token !in s.tokens
    ensures EveryListedOwned(Added(s, token, info))
  {
    var r := Added(s, token, info);
    forall u, t | u in r.lists && t in r.lists[u] ensures t in r.tokens && r.tokens[t].userId == u {
      if t != token {
        assert u in s.lists && t in s.lists[u];
      }
    }
  }

  lemma AddingKeepsAgreement(s: Store, token: string, info: TokenInfo, maxTokensPerUser: nat)
    requires Agree(s, maxTokensPerUser) && token !in s.tokens
    requires |Listed(s.lists, info.userId)| < Cap(maxTokensPerUser)
    ensures Agree(Added(s, token, info), maxTokensPerUser)
  {
    AddingKeepsListed(s, token, info);
    AddingKeepsOwned(s, token, info);
    var r := Added(s, token, info);
    forall u | u in r.lists ensures r.lists[u] != [] && Distinct(r.lists[u]) && |r.lists[u]| <= Cap(maxTokensPerUser) {
      assert u in s.lists ==> token !in s.lists[u];
    }
  }

  lemma CreationKeepsAgreement(s: Store, token: string, info: TokenInfo, maxTokensPerUser: nat)
    requires Agree(s, maxTokensPerUser) && token !in s.tokens
    ensures Agree(Created(s, token, info, maxTokensPerUser), maxTokensPerUser)
  {
    WithoutKeepsAgreement(s, Evicted(s, info.userId, maxTokensPerUser), maxTokensPerUser);
    EvictionMakesRoom(s, info.userId, maxTokensPerUser);
    AddingKeepsAgreement(Without(s, Evicted(s, info.userId, maxTokensPerUser)), token, info, maxTokensPerUser);
  }

  // ---------- The lists partition the tokens ----------

  ghost function TotalLength(lists: map<string, seq<string>>): nat {
    if lists == map[] then 0
    else
      var u :| u in lists;
      |lists[u]| + TotalLength(lists - {u})
  }

  ghost function Members(l: seq<string>): set<string> {
    set t | t in l
  }

  lemma {:induction false} DistinctSize(l: seq<string>)
    requires Distinct(l)
    ensures |Members(l)| == |l|
  {
    if l != [] {
      DistinctSize(l[1..]);
      assert Members(l) == {l[0]} + Members(l[1..]);
    }
  }

  /** The store without one user. */
  ghost function WithoutUser(s: Store, u: string): Store
    requires u in s.lists
  {
    Store(s.tokens - Members(s.lists[u]), s.lists - {u})
  }

  lemma WithoutUserSize(s: Store, u: string)
    requires EveryListedOwned(s) && u in s.lists && Distinct(s.lists[u])
    ensures |s.tokens| == |WithoutUser(s, u).tokens| + |s.lists[u]|
  {
    DistinctSize(s.lists[u]);
    MinusSize(s.tokens, Members(s.lists[u]));
  }

  lemma WithoutUserListed(s: Store, u: string)
    requires EveryTokenListed(s) && EveryListedOwned(s) && u in s.lists
    ensures EveryTokenListed(WithoutUser(s, u))
  {
  }

  lemma WithoutUserOwned(s: Store, u: string)
    requires EveryListedOwned(s) && u in s.lists
    ensures EveryListedOwned(WithoutUser(s, u))
  {
    var r := WithoutUser(s, u);
    forall v, t | v in r.lists && t in r.lists[v] ensures t in r.tokens && r.tokens[t].userId == v {
      assert t in s.lists[v] && s.tokens[t].userId == v;
      if t in s.lists[u] {
        assert false;
      }
    }
  }

  lemma {:induction false} ListLengthsSumToTokens(s: Store, maxTokensPerUser: nat)
    requires Agree(s, maxTokensPerUser)
    ensures TotalLength(s.lists) == |s.tokens|
    decreases |s.lists|
  {
    if s.lists == map[] {
      assert s.tokens == map[];
    } else {
      var u :| u in s.lists && TotalLength(s.lists) == |s.lists[u]| + TotalLength(s.lists - {u});
      WithoutUserSize(s, u);
      WithoutUserListed(s, u);
      WithoutUserOwned(s, u);
      ListLengthsSumToTokens(WithoutUser(s, u), maxTokensPerUser);
    }
  }

  // ---------- Order: oldest first ----------

  /** Every list runs from oldest to newest, nothing is newer than `clock`, and every token lives
      for the configured time. */
  ghost predicate Chronological(s: Store, expirySeconds: nat, clock: nat) {
    && (forall t :: t in s.tokens ==>
          s.tokens[t].createdAt <= clock && s.tokens[t].expiresAt == s.tokens[t].createdAt + expirySeconds)
    && (forall u :: u in s.lists ==> InOrder(s, s.lists[u]))
  }

  ghost predicate InOrder(s: Store, l: seq<string>) {
    forall i, j :: 0 <= i < j < |l| && l[i] in s.tokens && l[j] in s.tokens ==>
      s.tokens[l[i]].createdAt <= s.tokens[l[j]].createdAt
  }

  lemma {:induction false} FilterInOrder(s: Store, dead: set<string>, l: seq<string>)
    requires InOrder(s, l)
    ensures InOrder(Without(s, dead), Filter(NotIn(dead), l))
  {
    var rel := (a: string, b: string) =>
      a in s.tokens && b in s.tokens ==> s.tokens[a].createdAt <= s.tokens[b].createdAt;
    FilterPairwise(rel, NotIn(dead), l);
    var f := Filter(NotIn(dead), l);
    forall i, j | 0 <= i < j < |f| && f[i] in s.tokens && f[j] in s.tokens
      ensures s.tokens[f[i]].createdAt <= s.tokens[f[j]].createdAt
    {
      assert rel(f[i], f[j]);
    }
  }

  lemma WithoutKeepsOrder(s: Store, dead: set<string>, expirySeconds: nat, clock: nat)
    requires Chronological(s, expirySeconds, clock)
    ensures Chronological(Without(s, dead), expirySeconds, clock)
  {
    forall u | u in Without(s, dead).lists ensures InOrder(Without(s, dead), Without(s, dead).lists[u]) {
      FilterInOrder(s, dead, s.lists[u]);
    }
  }

  /** A new token at the end of a list, no older than anything in it. */
  lemma AppendInOrder(s: Store, token: string, info: TokenInfo, l: seq<string>)
    requires InOrder(s, l) && token !in l
    requires forall t :: t in l && t in s.tokens ==> s.tokens[t].createdAt <= info.createdAt
    ensures InOrder(Added(s, token, info), l + [token]) && InOrder(Added(s, token, info), l)
  {
  }

  lemma AddingKeepsOrder(s: Store, token: string, info: TokenInfo, maxTokensPerUser: nat, expirySeconds: nat, clock: nat)
    requires Agree(s, maxTokensPerUser) && token !in s.tokens
    requires Chronological(s, expirySeconds, clock)
    requires clock <= info.createdAt && info.expiresAt == info.createdAt + expirySeconds
    ensures Chronological(Added(s, token, info), expirySeconds, info.createdAt)
  {
    var r := Added(s, token, info);
    assert InOrder(s, []);
    forall u | u in r.lists ensures InOrder(r, r.lists[u]) {
      assert u in s.lists ==> token !in s.lists[u];
      AppendInOrder(s, token, info, Listed(s.lists, u));
    }
  }

  /** The cap evicts the token of the user that expires first. */
  lemma EvictionTakesEarliest(s: Store, user: string, maxTokensPerUser: nat, expirySeconds: nat, clock: nat, e: string, t: string)
    requires Agree(s, maxTokensPerUser) && Chronological(s, expirySeconds, clock)
    requires e in Evicted(s, user, maxTokensPerUser)
    requires t in s.tokens && s.tokens[t].userId == user
    ensures e in s.tokens && s.tokens[e].userId == user && s.tokens[e].expiresAt <= s.tokens[t].expiresAt
  {
  }

  /** Cleanup takes a prefix of every list. */
  lemma {:induction false} CleanupTakesPrefix(s: Store, l: seq<string>, expirySeconds: nat, clock: nat, now: nat) returns (n: nat)
    requires Chronological(s, expirySeconds, clock) && InOrder(s, l)
    requires forall t :: t in l ==> t in s.tokens
    ensures n <= |l| && Filter(NotIn(Expired(s, now)), l) == l[n..]
    ensures forall i :: 0 <= i < |l| ==> (l[i] in Expired(s, now) <==> i < n)
    decreases |l|
  {
    if l == [] || l[0] !in Expired(s, now) {
      forall i | 0 <= i < |l| ensures l[i] !in Expired(s, now) {
        assert l[0] in l && l[i] in l;
        assert i > 0 ==> s.tokens[l[0]].createdAt <= s.tokens[l[i]].createdAt;
      }
      FilterAll(NotIn(Expired(s, now)), l);
      n := 0;
    } else {
      forall t | t in l[1..] ensures t in s.tokens {
        assert t in l;
      }
      n := CleanupTakesPrefix(s, l[1..], expirySeconds, clock, now);
      assert forall i :: 0 < i < |l| ==> l[i] == l[1..][i - 1];
      n := n + 1;
    }
  }

  // ---------- Serial runs ----------

  datatype Op =
    | Create(token: string, userId: string, role: Role, metadata: Option<map<string, string>>, now: nat)
    | Revoke(token: string)
    | RevokeUser(userId: string)
    | Cleanup(now: nat)

  /** The tokens an operation ends. */
  ghost function Ended(s: Store, maxTokensPerUser: nat, op: Op): set<string> {
    match op
    case Create(_, u, _, _, _) => Evicted(s, u, maxTokensPerUser)
    case Revoke(t) => {t}
    case RevokeUser(u) => Members(Listed(s.lists, u))
    case Cleanup(now) => Expired(s, now)
  }

  ghost function Apply(s: Store, maxTokensPerUser: nat, expirySeconds: nat, op: Op): Store {
    var r := Without(s, Ended(s, maxTokensPerUser, op));
    if op.Create? then Added(r, op.token, InfoOf(op, expirySeconds)) else r
  }

  ghost function InfoOf(op: Op, expirySeconds: nat): TokenInfo
    requires op.Create?
  {
    TokenInfo(op.userId, op.role, op.now, op.now + expirySeconds, op.metadata)
  }

  ghost function After(s: Store, maxTokensPerUser: nat, expirySeconds: nat, ops: seq<Op>): Store
    decreases |ops|
  {
    if ops == [] then s
    else After(Apply(s, maxTokensPerUser, expirySeconds, ops[0]), maxTokensPerUser, expirySeconds, ops[1..])
  }

  /** New token ids are unused where they are created, and creation times never go back. */
  ghost predicate Admissible(s: Store, maxTokensPerUser: nat, expirySeconds: nat, ops: seq<Op>, clock: nat)
    decreases |ops|
  {
    ops == [] ||
    ((ops[0].Create? ==> ops[0].token !in s.tokens && clock <= ops[0].now) &&
     Admissible(Apply(s, maxTokensPerUser, expirySeconds, ops[0]), maxTokensPerUser, expirySeconds, ops[1..],
                if ops[0].Create? then ops[0].now else clock))
  }

  lemma ApplyKeepsAll(s: Store, maxTokensPerUser: nat, expirySeconds: nat, op: Op, clock: nat)
    requires Agree(s, maxTokensPerUser) && Chronological(s, expirySeconds, clock)
    requires op.Create? ==> op.token !in s.tokens && clock <= op.now
    ensures Agree(Apply(s, maxTokensPerUser, expirySeconds, op), maxTokensPerUser)
    ensures Chronological(Apply(s, maxTokensPerUser, expirySeconds, op), expirySeconds, if op.Create? then op.now else clock)
  {
    var dead := Ended(s, maxTokensPerUser, op);
    WithoutKeepsAgreement(s, dead, maxTokensPerUser);
    WithoutKeepsOrder(s, dead, expirySeconds, clock);
    if op.Create? {
      EvictionMakesRoom(s, op.userId, maxTokensPerUser);
      AddingKeepsAgreement(Without(s, dead), op.token, InfoOf(op, expirySeconds), maxTokensPerUser);
      AddingKeepsOrder(Without(s, dead), op.token, InfoOf(op, expirySeconds), maxTokensPerUser, expirySeconds, clock);
    }
  }

  /** Every serial run keeps both maps in agreement and every list in order of creation. */
  lemma {:induction false} SerialRunKeepsAll(s: Store, maxTokensPerUser: nat, expirySeconds: nat, ops: seq<Op>, clock: nat)
    requires Agree(s, maxTokensPerUser) && Chronological(s, expirySeconds, clock)
    requires Admissible(s, maxTokensPerUser, expirySeconds, ops, clock)
    ensures var r := After(s, maxTokensPerUser, expirySeconds, ops);
            Agree(r, maxTokensPerUser) && exists c :: Chronological(r, expirySeconds, c)
    decreases |ops|
  {
    if ops != [] {
      ApplyKeepsAll(s, maxTokensPerUser, expirySeconds, ops[0], clock);
      SerialRunKeepsAll(Apply(s, maxTokensPerUser, expirySeconds, ops[0]), maxTokensPerUser, expirySeconds, ops[1..],
                        if ops[0].Create? then ops[0].now else clock);
    } else {
      assert Chronological(After(s, maxTokensPerUser, expirySeconds, ops), expirySeconds, clock);
    }
  }
}

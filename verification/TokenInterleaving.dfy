/** Concurrent use of `TokenService`: every critical section is one atomic step. `create_token` has two
    (network/security/token.rs:162-165 and 168-185) and cleanup has two (104-111 and 118-133), so other
    steps may come between them. */
module TokenInterleaving {
  import opened Prelude
  import opened TokenStore
  import TokenService

  /** `inFlight` holds the creations between their two sections and `scans` the cleanups between theirs.
      History: `owner` records who every id was drawn for, and `lost` the ids removed while in flight. */
  datatype State = State(store: Store, inFlight: map<string, TokenInfo>, scans: seq<seq<(string, string)>>,
                         owner: map<string, string>, lost: set<string>)

  datatype Step =
    | Begin(token: string, info: TokenInfo)
    | Finish(token: string)
    | RevokeOne(token: string)
    | RevokeAll(userId: string)
    | Scan(now: nat, found: seq<(string, string)>)
    | Sweep(scan: nat)

  const INITIAL := State(Store(map[], map[]), map[], [], map[], {})

  /** New ids are drawn once; a scan finds exactly the expired tokens with their owners, in any order. */
  ghost predicate Enabled(s: State, step: Step) {
    match step
    case Begin(token, info) => token !in s.owner
    case Finish(token) => token in s.inFlight
    case Scan(now, found) =>
      && (forall p :: p in found ==> p.0 in Expired(s.store, now) && s.store.tokens[p.0].userId == p.1)
      && (forall t :: t in Expired(s.store, now) ==> (t, s.store.tokens[t].userId) in found)
    case Sweep(scan) => scan < |s.scans|
    case _ => true
  }

  /** The second section of a creation: make room at the cap, then append. */
  ghost function Enlisted(s: Store, user: string, token: string, maxTokensPerUser: nat): Store {
    var l := Listed(s.lists, user);
    if |l| >= maxTokensPerUser && l != [] then Store(s.tokens - {l[0]}, s.lists[user := l[1..] + [token]])
    else Store(s.tokens, s.lists[user := l + [token]])
  }

  /** Removal of one (token, owner) pair, as `revoke_token` and the cleanup loop do it. */
  ghost function Dropped(s: Store, token: string, user: string): Store {
    Store(s.tokens - {token}, Unlisted(s.lists, user, token))
  }

  ghost function Swept(s: Store, found: seq<(string, string)>): Store
    decreases |found|
  {
    if found == [] then s else Swept(Dropped(s, found[0].0, found[0].1), found[1..])
  }

  ghost function Tokens(found: seq<(string, string)>): set<string> {
    set p | p in found :: p.0
  }

  ghost function Next(s: State, step: Step, maxTokensPerUser: nat): State
    requires Enabled(s, step)
  {
    match step
    case Begin(token, info) =>
      s.(store := s.store.(tokens := s.store.tokens[token := info]),
         inFlight := s.inFlight[token := info], owner := s.owner[token := info.userId])
    case Finish(token) =>
      s.(store := Enlisted(s.store, s.inFlight[token].userId, token, maxTokensPerUser), inFlight := s.inFlight - {token})
    case RevokeOne(token) =>
      if token !in s.store.tokens then s
      else Drop(s, token, s.store.tokens[token].userId)
    case RevokeAll(userId) =>
      s.(store := Store(s.store.tokens - Members(Listed(s.store.lists, userId)), s.store.lists - {userId}))
    case Scan(now, found) => s.(scans := s.scans + [found])
    case Sweep(scan) =>
      var t := Swept(s.store, s.scans[scan]);
      s.(store := t, scans := RemoveAt(s.scans, scan),
         lost := s.lost + set x | x in s.inFlight && x in s.store.tokens && x !in t.tokens)
  }

  ghost predicate Steps(s: State, steps: seq<Step>, maxTokensPerUser: nat, t: State)
    decreases |steps|
  {
    if steps == [] then s == t
    else Enabled(s, steps[0]) && Steps(Next(s, steps[0], maxTokensPerUser), steps[1..], maxTokensPerUser, t)
  }

  // ---------- The invariant ----------

  ghost predicate TokensAccounted(s: State) {
    forall t :: t in s.store.tokens ==>
      && t in s.owner && s.store.tokens[t].userId == s.owner[t]
      && (t in s.inFlight || t in Listed(s.store.lists, s.owner[t]))
  }

  ghost predicate ListsAccounted(s: State) {
    forall u, t :: u in s.store.lists && t in s.store.lists[u] ==>
      && t in s.owner && s.owner[t] == u && t !in s.inFlight
      && (t in s.store.tokens || t in s.lost)
  }

  ghost predicate HistoryAccounted(s: State) {
    && (forall t :: t in s.inFlight ==> t in s.owner && s.inFlight[t].userId == s.owner[t])
    && (forall i, p :: 0 <= i < |s.scans| && p in s.scans[i] ==> p.0 in s.owner && s.owner[p.0] == p.1)
    && (forall t :: t in s.lost ==> t in s.owner && t !in s.store.tokens)
    && (forall t :: t in s.inFlight ==>
          if t in s.store.tokens then s.store.tokens[t].expiresAt == s.inFlight[t].expiresAt else t in s.lost)
  }

  ghost predicate Inv(s: State, maxTokensPerUser: nat) {
    TokensAccounted(s) && ListsAccounted(s) && HistoryAccounted(s) && WellFormed(s.store.lists, maxTokensPerUser)
  }

  // ---------- Removal of one pair ----------

  lemma UnlistedMembers(lists: map<string, seq<string>>, user: string, token: string)
    ensures forall u, t :: t in Listed(Unlisted(lists, user, token), u) <==>
                           t in Listed(lists, u) && !(u == user && t == token)
    ensures Unlisted(lists, user, token).Keys <= lists.Keys
  {
    if user in lists {
      FilterMembers(NotIn({token}), lists[user]);
    }
  }

  lemma UnlistedWellFormed(lists: map<string, seq<string>>, user: string, token: string, maxTokensPerUser: nat)
    requires WellFormed(lists, maxTokensPerUser)
    ensures WellFormed(Unlisted(lists, user, token), maxTokensPerUser)
  {
    if user in lists {
      FilterDistinct(NotIn({token}), lists[user]);
    }
  }

  /** Dropping a pair, with the loss recorded if the token was in flight. */
  ghost function Drop(s: State, token: string, user: string): State {
    s.(store := Dropped(s.store, token, user), lost := if token in s.inFlight then s.lost + {token} else s.lost)
  }

  lemma DropKeepsTokens(s: State, token: string, user: string)
    requires TokensAccounted(s)
    ensures TokensAccounted(Drop(s, token, user))
  {
    UnlistedMembers(s.store.lists, user, token);
  }

  lemma DropKeepsLists(s: State, token: string, user: string)
    requires ListsAccounted(s) && token in s.owner && s.owner[token] == user
    ensures ListsAccounted(Drop(s, token, user))
  {
    UnlistedMembers(s.store.lists, user, token);
    var r := Drop(s, token, user);
    forall u, t | u in r.store.lists && t in r.store.lists[u]
      ensures t in r.owner && r.owner[t] == u && t !in r.inFlight && (t in r.store.tokens || t in r.lost)
    {
      assert t in Listed(r.store.lists, u);
      assert u in s.store.lists && t in s.store.lists[u];
    }
  }

  lemma DropKeepsHistory(s: State, token: string, user: string)
    requires HistoryAccounted(s) && token in s.owner
    ensures HistoryAccounted(Drop(s, token, user))
  {
  }

  lemma DropKeepsInv(s: State, token: string, user: string, maxTokensPerUser: nat)
    requires Inv(s, maxTokensPerUser) && token in s.owner && s.owner[token] == user
    ensures Inv(Drop(s, token, user), maxTokensPerUser)
  {
    DropKeepsTokens(s, token, user);
    DropKeepsLists(s, token, user);
    DropKeepsHistory(s, token, user);
    UnlistedWellFormed(s.store.lists, user, token, maxTokensPerUser);
  }

  lemma {:induction false} SweptKeepsInv(s: State, found: seq<(string, string)>, maxTokensPerUser: nat) returns (r: State)
    requires Inv(s, maxTokensPerUser)
    requires forall p :: p in found ==> p.0 in s.owner && s.owner[p.0] == p.1
    ensures r.store == Swept(s.store, found) && Inv(r, maxTokensPerUser)
    ensures r == s.(store := r.store, lost := r.lost)
    ensures s.lost <= r.lost
    ensures forall t :: t in r.lost && t !in s.lost ==> t in s.inFlight
    decreases |found|
  {
    if found == [] {
      r := s;
    } else {
      DropKeepsInv(s, found[0].0, found[0].1, maxTokensPerUser);
      r := SweptKeepsInv(Drop(s, found[0].0, found[0].1), found[1..], maxTokensPerUser);
    }
  }

  lemma {:induction false} SweptShrinks(s: Store, found: seq<(string, string)>)
    ensures Swept(s, found).tokens.Keys <= s.tokens.Keys
    decreases |found|
  {
    if found != [] {
      SweptShrinks(Dropped(s, found[0].0, found[0].1), found[1..]);
    }
  }

  // ---------- Every step keeps the invariant ----------

  lemma BeginKeepsInv(s: State, token: string, info: TokenInfo, maxTokensPerUser: nat)
    requires Inv(s, maxTokensPerUser) && Enabled(s, Begin(token, info))
    ensures Inv(Next(s, Begin(token, info), maxTokensPerUser), maxTokensPerUser)
  {
    var r := Next(s, Begin(token, info), maxTokensPerUser);
    assert TokensAccounted(r);
    assert ListsAccounted(r);
  }

  lemma FinishKeepsWellFormed(s: State, token: string, maxTokensPerUser: nat)
    requires Inv(s, maxTokensPerUser) && Enabled(s, Finish(token))
    ensures WellFormed(Next(s, Finish(token), maxTokensPerUser).store.lists, maxTokensPerUser)
  {
    var user := s.inFlight[token].userId;
    assert user in s.store.lists ==> token !in s.store.lists[user];
  }

  lemma FinishKeepsLists(s: State, token: string, maxTokensPerUser: nat)
    requires Inv(s, maxTokensPerUser) && Enabled(s, Finish(token))
    ensures ListsAccounted(Next(s, Finish(token), maxTokensPerUser))
  {
    var r, user := Next(s, Finish(token), maxTokensPerUser), s.inFlight[token].userId;
    var l := Listed(s.store.lists, user);
    if l != [] {
      assert l[0] in s.store.lists[user];
    }
    forall u, t | u in r.store.lists && t in r.store.lists[u]
      ensures t in r.owner && r.owner[t] == u && t !in r.inFlight && (t in r.store.tokens || t in r.lost)
    {
      if u != user {
        assert t in s.store.lists[u];
      } else if t != token {
        assert t in l && t in s.store.lists[u];
      }
    }
  }

  lemma {:induction false} FinishKeepsInv(s: State, token: string, maxTokensPerUser: nat)
    requires Inv(s, maxTokensPerUser) && Enabled(s, Finish(token))
    ensures Inv(Next(s, Finish(token), maxTokensPerUser), maxTokensPerUser)
  {
    FinishKeepsLists(s, token, maxTokensPerUser);
    FinishKeepsWellFormed(s, token, maxTokensPerUser);
    var r, user := Next(s, Finish(token), maxTokensPerUser), s.inFlight[token].userId;
    var l := Listed(s.store.lists, user);
    if l != [] {
      assert l[0] in s.store.lists[user];
    }
    forall t | t in r.store.tokens ensures t in r.inFlight || t in Listed(r.store.lists, r.owner[t]) {
      if t != token && t !in s.inFlight && s.owner[t] == user {
        var i :| 0 <= i < |l| && l[i] == t;
        assert r.store.lists[user][if |l| >= maxTokensPerUser then i - 1 else i] == t;
      }
    }
  }

  lemma RevokeUserKeepsTokens(s: State, userId: string, maxTokensPerUser: nat)
    requires Inv(s, maxTokensPerUser)
    ensures TokensAccounted(Next(s, RevokeAll(userId), maxTokensPerUser))
  {
  }

  lemma RevokeUserKeepsLists(s: State, userId: string, maxTokensPerUser: nat)
    requires Inv(s, maxTokensPerUser)
    ensures ListsAccounted(Next(s, RevokeAll(userId), maxTokensPerUser))
  {
  }

  lemma RevokeUserKeepsInv(s: State, userId: string, maxTokensPerUser: nat)
    requires Inv(s, maxTokensPerUser)
    ensures Inv(Next(s, RevokeAll(userId), maxTokensPerUser), maxTokensPerUser)
  {
    RevokeUserKeepsTokens(s, userId, maxTokensPerUser);
    RevokeUserKeepsLists(s, userId, maxTokensPerUser);
  }

  lemma SweepKeepsInv(s: State, scan: nat, maxTokensPerUser: nat)
    requires Inv(s, maxTokensPerUser) && Enabled(s, Sweep(scan))
    ensures Inv(Next(s, Sweep(scan), maxTokensPerUser), maxTokensPerUser)
  {
    var r := SweptKeepsInv(s, s.scans[scan], maxTokensPerUser);
    SweptShrinks(s.store, s.scans[scan]);
    var n := Next(s, Sweep(scan), maxTokensPerUser);
    assert n.lost == r.lost;
    forall i, p | 0 <= i < |n.scans| && p in n.scans[i] ensures p.0 in n.owner && n.owner[p.0] == p.1 {
      assert n.scans[i] == s.scans[if i < scan then i else i + 1];
    }
  }

  lemma NextKeepsInv(s: State, step: Step, maxTokensPerUser: nat)
    requires Inv(s, maxTokensPerUser) && Enabled(s, step)
    ensures Inv(Next(s, step, maxTokensPerUser), maxTokensPerUser)
  {
    match step
    case Begin(token, info) => BeginKeepsInv(s, token, info, maxTokensPerUser);
    case Finish(token) => FinishKeepsInv(s, token, maxTokensPerUser);
    case RevokeOne(token) =>
      if token in s.store.tokens {
        DropKeepsInv(s, token, s.store.tokens[token].userId, maxTokensPerUser);
      }
    case RevokeAll(userId) => RevokeUserKeepsInv(s, userId, maxTokensPerUser);
    case Scan(now, found) =>
    case Sweep(scan) => SweepKeepsInv(s, scan, maxTokensPerUser);
  }

  /** Every interleaving: each live token is in its owner's list or in flight, each listed token is
      live or was removed while in flight, and no list outgrows the cap. */
  lemma {:induction false} EveryInterleavingKeepsInv(s: State, steps: seq<Step>, maxTokensPerUser: nat, t: State)
    requires Inv(s, maxTokensPerUser) && Steps(s, steps, maxTokensPerUser, t)
    ensures Inv(t, maxTokensPerUser)
    decreases |steps|
  {
    if steps != [] {
      NextKeepsInv(s, steps[0], maxTokensPerUser);
      EveryInterleavingKeepsInv(Next(s, steps[0], maxTokensPerUser), steps[1..], maxTokensPerUser, t);
    }
  }

  // ---------- Consequences ----------

  /** After any interleaving, revoking a user leaves no token of that user but those in flight. */
  lemma RevokeUserLeavesOnlyInFlight(steps: seq<Step>, maxTokensPerUser: nat, s: State, userId: string, t: string)
    requires Steps(INITIAL, steps, maxTokensPerUser, s)
    requires t in Next(s, RevokeAll(userId), maxTokensPerUser).store.tokens && s.store.tokens[t].userId == userId
    ensures t in s.inFlight
  {
    EveryInterleavingKeepsInv(INITIAL, steps, maxTokensPerUser, s);
  }

  ghost function TokensOf(s: Store, userId: string): set<string> {
    set t | t in s.tokens && s.tokens[t].userId == userId
  }

  ghost function InFlightFor(s: State, userId: string): set<string> {
    set t | t in s.inFlight && s.inFlight[t].userId == userId
  }

  lemma {:induction false} MembersAtMost(l: seq<string>)
    ensures |Members(l)| <= |l|
  {
    if l != [] {
      MembersAtMost(l[1..]);
      assert Members(l) == {l[0]} + Members(l[1..]);
    }
  }

  /** A user's live tokens exceed the cap by no more than that user's creations in flight. */
  lemma CapHoldsUpToInFlight(steps: seq<Step>, maxTokensPerUser: nat, s: State, userId: string)
    requires Steps(INITIAL, steps, maxTokensPerUser, s)
    ensures |TokensOf(s.store, userId)| <= Cap(maxTokensPerUser) + |InFlightFor(s, userId)|
  {
    EveryInterleavingKeepsInv(INITIAL, steps, maxTokensPerUser, s);
    var listed := Members(Listed(s.store.lists, userId));
    MembersAtMost(Listed(s.store.lists, userId));
    forall t | t in TokensOf(s.store, userId) ensures t in listed + InFlightFor(s, userId) {}
    SubsetSize(TokensOf(s.store, userId), listed + InFlightFor(s, userId));
  }

  /** The loss is real: a token that expires before its creation finishes can be swept, and is then
      listed although it is gone. */
  lemma DeadTokenCanBeListed(token: string, info: TokenInfo, now: nat, maxTokensPerUser: nat)
    requires info.expiresAt < now
    ensures exists steps, s :: Steps(INITIAL, steps, maxTokensPerUser, s) && s.inFlight == map[]
                               && token in Listed(s.store.lists, info.userId) && token !in s.store.tokens
  {
    var found := [(token, info.userId)];
    var s1 := Next(INITIAL, Begin(token, info), maxTokensPerUser);
    var s2 := Next(s1, Scan(now, found), maxTokensPerUser);
    assert Swept(s2.store, found) == Swept(Dropped(s2.store, token, info.userId), []);
    var s3 := Next(s2, Sweep(0), maxTokensPerUser);
    var s4 := Next(s3, Finish(token), maxTokensPerUser);
    assert s4.store.lists[info.userId] == [token];
    OneStep(s3, Finish(token), [], maxTokensPerUser, s4);
    OneStep(s2, Sweep(0), [Finish(token)], maxTokensPerUser, s4);
    OneStep(s1, Scan(now, found), [Sweep(0), Finish(token)], maxTokensPerUser, s4);
    OneStep(INITIAL, Begin(token, info), [Scan(now, found), Sweep(0), Finish(token)], maxTokensPerUser, s4);
  }

  lemma OneStep(s: State, step: Step, rest: seq<Step>, maxTokensPerUser: nat, t: State)
    requires Enabled(s, step) && Steps(Next(s, step, maxTokensPerUser), rest, maxTokensPerUser, t)
    ensures Steps(s, [step] + rest, maxTokensPerUser, t)
  {
  }

  // ---------- The calls are interleavings ----------

  /** A creation whose two sections meet no other step is the serial `create_token`. */
  lemma UndisturbedCreation(s: State, op: Op, maxTokensPerUser: nat, expirySeconds: nat)
    requires Agree(s.store, maxTokensPerUser) && op.Create? && op.token !in s.store.tokens && op.token !in s.owner
    ensures var begun := Next(s, Begin(op.token, InfoOf(op, expirySeconds)), maxTokensPerUser);
            Next(begun, Finish(op.token), maxTokensPerUser).store == Apply(s.store, maxTokensPerUser, expirySeconds, op)
  {
    TokenService.CreationIs(s.store, op, maxTokensPerUser, expirySeconds);
  }

  lemma UndisturbedRevocations(s: State, token: string, userId: string, maxTokensPerUser: nat)
    requires Agree(s.store, maxTokensPerUser)
    ensures Next(s, RevokeOne(token), maxTokensPerUser).store == Without(s.store, {token})
    ensures Next(s, RevokeAll(userId), maxTokensPerUser).store == Without(s.store, Members(Listed(s.store.lists, userId)))
  {
    if token in s.store.tokens {
      TokenService.UnlistingEndsOne(s.store, token, maxTokensPerUser);
    } else {
      TokenService.UnknownEndsNothing(s.store, {token}, maxTokensPerUser);
    }
    TokenService.UserEnds(s.store, userId, maxTokensPerUser);
  }

  /** Pairs of different live tokens, each with its owner. */
  ghost predicate LivePairs(s: Store, found: seq<(string, string)>) {
    && (forall i, j :: 0 <= i < j < |found| ==> found[i].0 != found[j].0)
    && (forall p :: p in found ==> p.0 in s.tokens && s.tokens[p.0].userId == p.1)
  }

  lemma LivePairsTail(s: Store, found: seq<(string, string)>)
    requires LivePairs(s, found) && found != []
    ensures LivePairs(Without(s, {found[0].0}), found[1..])
    ensures Tokens(found) == {found[0].0} + Tokens(found[1..])
  {
  }

  lemma DroppedIsWithout(s: Store, p: (string, string), maxTokensPerUser: nat)
    requires Agree(s, maxTokensPerUser) && p.0 in s.tokens && s.tokens[p.0].userId == p.1
    ensures Dropped(s, p.0, p.1) == Without(s, {p.0}) && Agree(Without(s, {p.0}), maxTokensPerUser)
  {
    TokenService.UnlistingEndsOne(s, p.0, maxTokensPerUser);
    WithoutKeepsAgreement(s, {p.0}, maxTokensPerUser);
  }

  lemma {:induction false} SweptIsWithout(s: Store, found: seq<(string, string)>, maxTokensPerUser: nat)
    requires Agree(s, maxTokensPerUser) && LivePairs(s, found)
    ensures Swept(s, found) == Without(s, Tokens(found))
    decreases |found|
  {
    if found == [] {
      TokenService.NothingEnds(s);
      assert Tokens(found) == {};
    } else {
      var p := found[0];
      assert p in found;
      DroppedIsWithout(s, p, maxTokensPerUser);
      LivePairsTail(s, found);
      SweptIsWithout(Without(s, {p.0}), found[1..], maxTokensPerUser);
      TokenService.WithoutBoth(s, {p.0}, Tokens(found[1..]));
    }
  }

  lemma ScanFindsExpired(s: State, now: nat, found: seq<(string, string)>)
    requires Enabled(s, Scan(now, found))
    ensures Tokens(found) == Expired(s.store, now)
  {
    forall t | t in Expired(s.store, now) ensures t in Tokens(found) {
      assert (t, s.store.tokens[t].userId) in found;
    }
  }

  /** A cleanup whose scan and sweep meet no other step is the serial cleanup. */
  lemma UndisturbedCleanup(s: State, now: nat, found: seq<(string, string)>, maxTokensPerUser: nat)
    requires Agree(s.store, maxTokensPerUser) && Enabled(s, Scan(now, found))
    requires forall i, j :: 0 <= i < j < |found| ==> found[i].0 != found[j].0
    ensures var scanned := Next(s, Scan(now, found), maxTokensPerUser);
            Next(scanned, Sweep(|s.scans|), maxTokensPerUser).store == Without(s.store, Expired(s.store, now))
  {
    SweptIsWithout(s.store, found, maxTokensPerUser);
    ScanFindsExpired(s, now, found);
  }
}

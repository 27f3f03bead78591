/** Which interleavings of `TokenInterleaving` keep the two maps in agreement, and for how long a creation
    may take before a cleanup can spoil it. */
module TokenLoss {
  import opened Prelude
  import opened TokenStore
  import opened TokenInterleaving

  /** The step removes a live token whose creation is between its two sections. */
  ghost predicate TakesInFlight(s: State, step: Step)
    requires Enabled(s, step)
  {
    match step
    case RevokeOne(token) => token in s.inFlight && token in s.store.tokens
    case Sweep(scan) => exists t :: t in Tokens(s.scans[scan]) && t in s.inFlight && t in s.store.tokens
    case _ => false
  }

  lemma {:induction false} SweptTokens(s: Store, found: seq<(string, string)>)
    ensures Swept(s, found).tokens == s.tokens - Tokens(found)
    decreases |found|
  {
    if found == [] {
      assert Tokens(found) == {};
      assert s.tokens - {} == s.tokens;
    } else {
      SweptTokens(Dropped(s, found[0].0, found[0].1), found[1..]);
      assert Tokens(found) == {found[0].0} + Tokens(found[1..]);
      assert s.tokens - {found[0].0} - Tokens(found[1..]) == s.tokens - Tokens(found);
    }
  }

  /** The history grows exactly on the steps named by the guard. */
  lemma LostIffTaken(s: State, step: Step, maxTokensPerUser: nat)
    requires Inv(s, maxTokensPerUser) && Enabled(s, step)
    ensures Next(s, step, maxTokensPerUser).lost != s.lost <==> TakesInFlight(s, step)
  {
    if step.Sweep? {
      SweptTokens(s.store, s.scans[step.scan]);
      var r := Next(s, step, maxTokensPerUser);
      if TakesInFlight(s, step) {
        var t :| t in Tokens(s.scans[step.scan]) && t in s.inFlight && t in s.store.tokens;
        assert t in r.lost && t !in s.lost;
      } else {
        assert r.lost == s.lost;
      }
    } else if TakesInFlight(s, step) {
      assert step.token in Next(s, step, maxTokensPerUser).lost;
    }
  }

  // ---------- A creation that finishes on a dead token ----------

  /** `Finish` lists its token whether or not it is still there. */
  lemma FinishLists(s: State, token: string, maxTokensPerUser: nat)
    requires Inv(s, maxTokensPerUser) && token in s.inFlight
    ensures var r := Next(s, Finish(token), maxTokensPerUser);
            && token in Listed(r.store.lists, s.inFlight[token].userId)
            && (token in r.store.tokens <==> token in s.store.tokens)
  {
    var l := Listed(s.store.lists, s.inFlight[token].userId);
    var r := Next(s, Finish(token), maxTokensPerUser);
    assert r.store.lists[s.inFlight[token].userId][|r.store.lists[s.inFlight[token].userId]| - 1] == token;
    if l != [] {
      assert l[0] in s.store.lists[s.inFlight[token].userId];
    }
  }

  lemma {:induction false} SweptListsShrink(s: Store, found: seq<(string, string)>, u: string, t: string)
    requires t in Listed(Swept(s, found).lists, u)
    ensures t in Listed(s.lists, u)
    decreases |found|
  {
    if found != [] {
      SweptListsShrink(Dropped(s, found[0].0, found[0].1), found[1..], u, t);
      UnlistedMembers(s.lists, found[0].1, found[0].0);
    }
  }

  /** Only `Finish` adds to a list, and only its token. */
  lemma ListsShrink(s: State, step: Step, maxTokensPerUser: nat, u: string, t: string)
    requires Enabled(s, step) && step != Finish(t)
    requires t in Listed(Next(s, step, maxTokensPerUser).store.lists, u)
    ensures t in Listed(s.store.lists, u)
  {
    match step
    case RevokeOne(token) =>
      if token in s.store.tokens {
        UnlistedMembers(s.store.lists, s.store.tokens[token].userId, token);
      }
    case Sweep(scan) => SweptListsShrink(s.store, s.scans[scan], u, t);
    case _ =>
  }

  /** What a creation could check when it lists its token. */
  ghost predicate FinishesLive(s: State, step: Step) {
    step.Finish? ==> step.token in s.store.tokens
  }

  lemma LostAreInFlight(s: State, step: Step, maxTokensPerUser: nat, t: string)
    requires Enabled(s, step) && t in Next(s, step, maxTokensPerUser).lost && t !in s.lost
    ensures t in Next(s, step, maxTokensPerUser).inFlight
  {
  }

  ghost predicate NoneListedLost(s: State) {
    forall u, t :: t in Listed(s.store.lists, u) ==> t !in s.lost
  }

  lemma NoneLostIsOwned(s: State, maxTokensPerUser: nat)
    requires Inv(s, maxTokensPerUser) && NoneListedLost(s)
    ensures EveryListedOwned(s.store)
  {
    forall u, t | u in s.store.lists && t in s.store.lists[u] ensures t in s.store.tokens && s.store.tokens[t].userId == u {
      assert t in Listed(s.store.lists, u);
    }
  }

  lemma StaysUnlost(s: State, step: Step, r: State, maxTokensPerUser: nat, u: string, t: string)
    requires Inv(s, maxTokensPerUser) && Enabled(s, step) && EveryListedOwned(s.store) && FinishesLive(s, step)
    requires r == Next(s, step, maxTokensPerUser) && ListsAccounted(r) && t in Listed(r.store.lists, u)
    ensures t !in r.lost
  {
    assert t !in r.inFlight;
    if t in r.lost {
      if t !in s.lost {
        LostAreInFlight(s, step, maxTokensPerUser, t);
      } else if step != Finish(t) {
        ListsShrink(s, step, maxTokensPerUser, u, t);
      }
    }
  }

  lemma LiveFinishesKeepOwned(s: State, step: Step, maxTokensPerUser: nat)
    requires Inv(s, maxTokensPerUser) && Enabled(s, step) && EveryListedOwned(s.store) && FinishesLive(s, step)
    ensures EveryListedOwned(Next(s, step, maxTokensPerUser).store)
  {
    var r := Next(s, step, maxTokensPerUser);
    NextKeepsInv(s, step, maxTokensPerUser);
    forall u, t | t in Listed(r.store.lists, u) ensures t !in r.lost {
      StaysUnlost(s, step, r, maxTokensPerUser, u, t);
    }
    NoneLostIsOwned(r, maxTokensPerUser);
  }

  lemma DeadFinishEndsOwned(s: State, token: string, maxTokensPerUser: nat)
    requires Inv(s, maxTokensPerUser) && token in s.inFlight && token !in s.store.tokens
    ensures !EveryListedOwned(Next(s, Finish(token), maxTokensPerUser).store)
  {
    FinishLists(s, token, maxTokensPerUser);
    var r, user := Next(s, Finish(token), maxTokensPerUser).store, s.inFlight[token].userId;
    assert user in r.lists && token in r.lists[user];
  }

  lemma OwnedAfterIff(s: State, step: Step, maxTokensPerUser: nat)
    requires Inv(s, maxTokensPerUser) && Enabled(s, step) && EveryListedOwned(s.store)
    ensures EveryListedOwned(Next(s, step, maxTokensPerUser).store) <==> FinishesLive(s, step)
  {
    if FinishesLive(s, step) {
      LiveFinishesKeepOwned(s, step, maxTokensPerUser);
    } else {
      DeadFinishEndsOwned(s, step.token, maxTokensPerUser);
    }
  }

  // ---------- Whole runs ----------

  /** Before the first step and after every one, each listed token is live and belongs to that user. */
  ghost predicate OwnedThroughout(s: State, steps: seq<Step>, maxTokensPerUser: nat)
    decreases |steps|
  {
    EveryListedOwned(s.store) &&
    (steps != [] && Enabled(s, steps[0]) ==> OwnedThroughout(Next(s, steps[0], maxTokensPerUser), steps[1..], maxTokensPerUser))
  }

  ghost predicate AllFinishLive(s: State, steps: seq<Step>, maxTokensPerUser: nat)
    decreases |steps|
  {
    steps != [] && Enabled(s, steps[0]) ==>
      FinishesLive(s, steps[0]) && AllFinishLive(Next(s, steps[0], maxTokensPerUser), steps[1..], maxTokensPerUser)
  }

  ghost predicate NoneTaken(s: State, steps: seq<Step>, maxTokensPerUser: nat)
    decreases |steps|
  {
    steps != [] && Enabled(s, steps[0]) ==>
      !TakesInFlight(s, steps[0]) && NoneTaken(Next(s, steps[0], maxTokensPerUser), steps[1..], maxTokensPerUser)
  }

  /** In any interleaving the lists hold only live tokens of their users throughout exactly when every
      creation finds its token still there as it lists it. */
  lemma {:induction false} OwnedThroughoutIff(s: State, steps: seq<Step>, maxTokensPerUser: nat, t: State)
    requires Inv(s, maxTokensPerUser) && EveryListedOwned(s.store) && Steps(s, steps, maxTokensPerUser, t)
    ensures OwnedThroughout(s, steps, maxTokensPerUser) <==> AllFinishLive(s, steps, maxTokensPerUser)
    decreases |steps|
  {
    if steps != [] {
      NextKeepsInv(s, steps[0], maxTokensPerUser);
      OwnedAfterIff(s, steps[0], maxTokensPerUser);
      if FinishesLive(s, steps[0]) {
        OwnedThroughoutIff(Next(s, steps[0], maxTokensPerUser), steps[1..], maxTokensPerUser, t);
      }
    }
  }

  lemma StaysGone(s: State, step: Step, maxTokensPerUser: nat, token: string)
    requires Inv(s, maxTokensPerUser) && Enabled(s, step) && step != Finish(token)
    requires token in s.inFlight && token !in s.store.tokens
    ensures var r := Next(s, step, maxTokensPerUser); token in r.inFlight && token !in r.store.tokens
  {
    if step.Sweep? {
      SweptTokens(s.store, s.scans[step.scan]);
    }
  }

  /** A token taken in flight is still listed in the end. */
  lemma {:induction false} TakenIsFinishedDead(s: State, steps: seq<Step>, maxTokensPerUser: nat, t: State, token: string)
    requires Inv(s, maxTokensPerUser) && Steps(s, steps, maxTokensPerUser, t) && t.inFlight == map[]
    requires token in s.inFlight && token !in s.store.tokens
    ensures !AllFinishLive(s, steps, maxTokensPerUser)
    decreases |steps|
  {
    if steps != [] && steps[0] != Finish(token) {
      NextKeepsInv(s, steps[0], maxTokensPerUser);
      StaysGone(s, steps[0], maxTokensPerUser, token);
      TakenIsFinishedDead(Next(s, steps[0], maxTokensPerUser), steps[1..], maxTokensPerUser, t, token);
    }
  }

  lemma TakenIsGone(s: State, step: Step, maxTokensPerUser: nat) returns (token: string)
    requires Inv(s, maxTokensPerUser) && Enabled(s, step) && TakesInFlight(s, step)
    ensures var r := Next(s, step, maxTokensPerUser); token in r.inFlight && token !in r.store.tokens
  {
    if step.Sweep? {
      token :| token in Tokens(s.scans[step.scan]) && token in s.inFlight && token in s.store.tokens;
      SweptTokens(s.store, s.scans[step.scan]);
    } else {
      token := step.token;
    }
  }

  lemma {:induction false} FinishLiveIffNoneTaken(s: State, steps: seq<Step>, maxTokensPerUser: nat, t: State)
    requires Inv(s, maxTokensPerUser) && s.lost == {} && Steps(s, steps, maxTokensPerUser, t) && t.inFlight == map[]
    ensures AllFinishLive(s, steps, maxTokensPerUser) <==> NoneTaken(s, steps, maxTokensPerUser)
    decreases |steps|
  {
    if steps != [] {
      NextKeepsInv(s, steps[0], maxTokensPerUser);
      var r := Next(s, steps[0], maxTokensPerUser);
      if TakesInFlight(s, steps[0]) {
        var token := TakenIsGone(s, steps[0], maxTokensPerUser);
        TakenIsFinishedDead(r, steps[1..], maxTokensPerUser, t, token);
      } else {
        LostIffTaken(s, steps[0], maxTokensPerUser);
        assert FinishesLive(s, steps[0]);
        FinishLiveIffNoneTaken(r, steps[1..], maxTokensPerUser, t);
      }
    }
  }

  lemma {:induction false} OwnedAtEnd(s: State, steps: seq<Step>, maxTokensPerUser: nat, t: State)
    requires Steps(s, steps, maxTokensPerUser, t) && OwnedThroughout(s, steps, maxTokensPerUser)
    ensures EveryListedOwned(t.store)
    decreases |steps|
  {
    if steps != [] {
      OwnedAtEnd(Next(s, steps[0], maxTokensPerUser), steps[1..], maxTokensPerUser, t);
    }
  }

  lemma AtRestAgreesIffOwned(steps: seq<Step>, maxTokensPerUser: nat, s: State)
    requires Steps(INITIAL, steps, maxTokensPerUser, s) && s.inFlight == map[]
    ensures Agree(s.store, maxTokensPerUser) <==> EveryListedOwned(s.store)
  {
    EveryInterleavingKeepsInv(INITIAL, steps, maxTokensPerUser, s);
  }

  /** In an interleaving that ends at rest the lists are right throughout exactly when no revocation and no
      cleanup took a token between the two sections of its creation; the two maps then agree in the end. */
  lemma AgreesThroughoutIff(steps: seq<Step>, maxTokensPerUser: nat, s: State)
    requires Steps(INITIAL, steps, maxTokensPerUser, s) && s.inFlight == map[]
    ensures OwnedThroughout(INITIAL, steps, maxTokensPerUser) <==> NoneTaken(INITIAL, steps, maxTokensPerUser)
    ensures NoneTaken(INITIAL, steps, maxTokensPerUser) ==> Agree(s.store, maxTokensPerUser)
  {
    OwnedThroughoutIff(INITIAL, steps, maxTokensPerUser, s);
    FinishLiveIffNoneTaken(INITIAL, steps, maxTokensPerUser, s);
    if NoneTaken(INITIAL, steps, maxTokensPerUser) {
      OwnedAtEnd(INITIAL, steps, maxTokensPerUser, s);
      AtRestAgreesIffOwned(steps, maxTokensPerUser, s);
    }
  }

  // ---------- How long a creation may take ----------

  /** `time` is when the step happens. Creations and cleanups read their clock no later than that. */
  ghost predicate ClockRead(step: Step, time: nat, expirySeconds: nat) {
    match step
    case Begin(_, info) => info.createdAt <= time && info.expiresAt == info.createdAt + expirySeconds
    case Scan(now, _) => now <= time
    case _ => true
  }

  /** A creation ends within the lifetime of its own token. */
  ghost predicate InTime(s: State, step: Step, time: nat, expirySeconds: nat) {
    step.Finish? && step.token in s.inFlight ==> time <= s.inFlight[step.token].createdAt + expirySeconds
  }

  ghost predicate Timely(s: State, steps: seq<Step>, times: seq<nat>, maxTokensPerUser: nat, expirySeconds: nat, clock: nat)
    decreases |steps|
  {
    |times| == |steps| &&
    (steps != [] && Enabled(s, steps[0]) ==>
       && clock <= times[0]
       && ClockRead(steps[0], times[0], expirySeconds)
       && InTime(s, steps[0], times[0], expirySeconds)
       && Timely(Next(s, steps[0], maxTokensPerUser), steps[1..], times[1..], maxTokensPerUser, expirySeconds, times[0]))
  }

  /** As long as a timely creation is in flight its token is not past its time. */
  lemma {:induction false} InFlightIsYoung(s: State, steps: seq<Step>, times: seq<nat>, maxTokensPerUser: nat,
                                           expirySeconds: nat, clock: nat, t: State, token: string)
    requires Steps(s, steps, maxTokensPerUser, t) && t.inFlight == map[] && token in s.inFlight && token in s.owner
    requires Timely(s, steps, times, maxTokensPerUser, expirySeconds, clock)
    ensures clock <= s.inFlight[token].createdAt + expirySeconds
    decreases |steps|
  {
    if steps != [] && steps[0] != Finish(token) {
      var r := Next(s, steps[0], maxTokensPerUser);
      assert token in r.inFlight && r.inFlight[token] == s.inFlight[token] && token in r.owner;
      InFlightIsYoung(r, steps[1..], times[1..], maxTokensPerUser, expirySeconds, times[0], t, token);
    }
  }

  /** A scan finds a token in flight exactly when its creation began more than the lifetime ago. */
  lemma ScanFindsInFlightIff(s: State, now: nat, found: seq<(string, string)>, token: string, expirySeconds: nat,
                             maxTokensPerUser: nat)
    requires Inv(s, maxTokensPerUser) && Enabled(s, Scan(now, found))
    requires token in s.inFlight && s.inFlight[token].expiresAt == s.inFlight[token].createdAt + expirySeconds
    ensures token in Tokens(found) <==> token in s.store.tokens && now > s.inFlight[token].createdAt + expirySeconds
  {
    ScanFindsExpired(s, now, found);
  }

  /** No waiting cleanup holds a token in flight, and lifetimes are as configured. */
  ghost predicate ScansClear(s: State, expirySeconds: nat) {
    && (forall i :: 0 <= i < |s.scans| ==> forall t :: t in Tokens(s.scans[i]) ==> t !in s.inFlight)
    && (forall t :: t in s.inFlight ==> s.inFlight[t].expiresAt == s.inFlight[t].createdAt + expirySeconds)
  }

  ghost predicate OnlyRevocationsTake(s: State, steps: seq<Step>, maxTokensPerUser: nat)
    decreases |steps|
  {
    steps != [] && Enabled(s, steps[0]) ==>
      && (TakesInFlight(s, steps[0]) ==> steps[0].RevokeOne?)
      && OnlyRevocationsTake(Next(s, steps[0], maxTokensPerUser), steps[1..], maxTokensPerUser)
  }

  lemma ScansStayClear(s: State, step: Step, maxTokensPerUser: nat, expirySeconds: nat, time: nat)
    requires Inv(s, maxTokensPerUser) && Enabled(s, step) && ScansClear(s, expirySeconds)
    requires ClockRead(step, time, expirySeconds)
    requires forall t :: t in s.inFlight && step != Finish(t) ==> time <= s.inFlight[t].createdAt + expirySeconds
    ensures ScansClear(Next(s, step, maxTokensPerUser), expirySeconds)
  {
    var r := Next(s, step, maxTokensPerUser);
    forall i, t | 0 <= i < |r.scans| && t in Tokens(r.scans[i]) ensures t !in r.inFlight {
      var p :| p in r.scans[i] && p.0 == t;
      match step
      case Scan(now, found) =>
        if i == |s.scans| {
          assert t in s.store.tokens && s.store.tokens[t].expiresAt < now;
        } else {
          assert r.scans[i] == s.scans[i] && t in Tokens(s.scans[i]);
        }
      case Sweep(scan) =>
        assert r.scans[i] == s.scans[if i < scan then i else i + 1];
        assert t in Tokens(s.scans[if i < scan then i else i + 1]);
      case _ =>
        assert r.scans[i] == s.scans[i] && t in Tokens(s.scans[i]) && t in s.owner;
    }
  }

  /** When every creation ends within its token's lifetime, no cleanup takes a token in flight. */
  lemma {:induction false} TimelyCreationsSurviveCleanups(s: State, steps: seq<Step>, times: seq<nat>, maxTokensPerUser: nat,
                                                          expirySeconds: nat, clock: nat, t: State)
    requires Inv(s, maxTokensPerUser) && ScansClear(s, expirySeconds)
    requires Steps(s, steps, maxTokensPerUser, t) && t.inFlight == map[]
    requires Timely(s, steps, times, maxTokensPerUser, expirySeconds, clock)
    ensures OnlyRevocationsTake(s, steps, maxTokensPerUser)
    decreases |steps|
  {
    if steps != [] {
      var r := Next(s, steps[0], maxTokensPerUser);
      NextKeepsInv(s, steps[0], maxTokensPerUser);
      forall x | x in s.inFlight && steps[0] != Finish(x) ensures times[0] <= s.inFlight[x].createdAt + expirySeconds {
        assert x in r.inFlight && r.inFlight[x] == s.inFlight[x] && x in r.owner;
        InFlightIsYoung(r, steps[1..], times[1..], maxTokensPerUser, expirySeconds, times[0], t, x);
      }
      ScansStayClear(s, steps[0], maxTokensPerUser, expirySeconds, times[0]);
      TimelyCreationsSurviveCleanups(r, steps[1..], times[1..], maxTokensPerUser, expirySeconds, times[0], t);
    }
  }

  /** Nobody revokes a token before its creation has returned it. */
  ghost predicate RevokesAfterCreation(s: State, steps: seq<Step>, maxTokensPerUser: nat)
    decreases |steps|
  {
    steps != [] && Enabled(s, steps[0]) ==>
      && (steps[0].RevokeOne? ==> steps[0].token !in s.inFlight)
      && RevokesAfterCreation(Next(s, steps[0], maxTokensPerUser), steps[1..], maxTokensPerUser)
  }

  lemma {:induction false} OnlyRevocationsIsNone(s: State, steps: seq<Step>, maxTokensPerUser: nat)
    requires OnlyRevocationsTake(s, steps, maxTokensPerUser) && RevokesAfterCreation(s, steps, maxTokensPerUser)
    ensures NoneTaken(s, steps, maxTokensPerUser)
    decreases |steps|
  {
    if steps != [] && Enabled(s, steps[0]) {
      OnlyRevocationsIsNone(Next(s, steps[0], maxTokensPerUser), steps[1..], maxTokensPerUser);
    }
  }

  /** So the maps agree at rest after every run in which creations end in time and tokens are revoked only
      once they have been handed out. */
  lemma TimelyRunAgrees(steps: seq<Step>, times: seq<nat>, maxTokensPerUser: nat, expirySeconds: nat, s: State)
    requires Steps(INITIAL, steps, maxTokensPerUser, s) && s.inFlight == map[]
    requires Timely(INITIAL, steps, times, maxTokensPerUser, expirySeconds, 0)
    requires RevokesAfterCreation(INITIAL, steps, maxTokensPerUser)
    ensures OwnedThroughout(INITIAL, steps, maxTokensPerUser) && Agree(s.store, maxTokensPerUser)
  {
    TimelyCreationsSurviveCleanups(INITIAL, steps, times, maxTokensPerUser, expirySeconds, 0, s);
    OnlyRevocationsIsNone(INITIAL, steps, maxTokensPerUser);
    AgreesThroughoutIff(steps, maxTokensPerUser, s);
  }
}

/** JWT validation among other calls: `validate_jwt` reads the clock and tests the expiry
    (network/security/auth_middleware.rs:417-427) before it waits for the revocation list (430-432), so
    revocations and cleanups may come between. Each side of that wait is one atomic step here. */
module RevocationInterleaving {
  import opened Prelude
  import opened TokenRevocation

  type CallId = nat

  /** `pending` holds the validations that wait for the list, with their tokens. */
  datatype State = State(revoked: map<string, nat>, pending: map<CallId, string>)

  /** A cleanup reads its clock before it waits for the list, so `now` may be old when it removes. */
  datatype Step =
    | Start(call: CallId, token: string, now: nat, rateOk: bool, decodeOk: bool)
    | End(call: CallId)
    | Revoke(token: string, decodeOk: bool)
    | CleanRevoked(now: nat)

  ghost predicate Passes(decode: Decoder, step: Step)
    requires step.Start?
  {
    step.rateOk && step.decodeOk && decode(step.token).Some? && step.now <= decode(step.token).value.exp
  }

  ghost predicate Enabled(s: State, step: Step) {
    match step
    case Start(call, _, _, _, _) => call !in s.pending
    case End(call) => call in s.pending
    case _ => true
  }

  ghost function Next(decode: Decoder, s: State, step: Step): State {
    match step
    case Start(call, token, _, _, _) => if Passes(decode, step) then s.(pending := s.pending[call := token]) else s
    case End(call) => s.(pending := s.pending - {call})
    case Revoke(token, decodeOk) => s.(revoked := Apply(decode, Store(s.revoked, map[]), RevokeJwt(token, decodeOk)).revoked)
    case CleanRevoked(now) => s.(revoked := Cleaned(Store(s.revoked, map[]), now).revoked)
  }

  /** What the call answers if it ends now. */
  ghost predicate Accepted(s: State, call: CallId) {
    call in s.pending && s.pending[call] !in s.revoked
  }

  ghost predicate Steps(decode: Decoder, s: State, steps: seq<Step>, t: State)
    decreases |steps|
  {
    if steps == [] then s == t else Enabled(s, steps[0]) && Steps(decode, Next(decode, s, steps[0]), steps[1..], t)
  }

  /** The latest clock reading, once `step` has made its own. */
  ghost function ClockAt(step: Step, clock: nat): nat {
    if (step.Start? || step.CleanRevoked?) && clock < step.now then step.now else clock
  }

  ghost function ClockAfter(steps: seq<Step>, clock: nat): nat
    decreases |steps|
  {
    if steps == [] then clock else ClockAfter(steps[1..], ClockAt(steps[0], clock))
  }

  ghost predicate Kept(decode: Decoder, s: State) {
    WellKept(decode, Store(s.revoked, map[]))
  }

  // ---------- One step ----------

  /** With nothing between its two steps a validation is the call `validate_jwt`. */
  lemma UndisturbedValidation(decode: Decoder, s: State, step: Step, simple: map<string, SimpleInfo>)
    requires step.Start? && Enabled(s, step)
    ensures Accepted(Next(decode, s, step), step.call) <==>
            JwtAccepted(decode, Store(s.revoked, simple), step.token, step.now, step.rateOk, step.decodeOk)
  {
  }

  /** A cleanup changes the answer of a waiting validation exactly when its token is revoked and the
      cleanup's clock is past the token's expiry. */
  lemma CleanupChangesAnswerIff(decode: Decoder, s: State, call: CallId, now: nat)
    requires Kept(decode, s) && call in s.pending
    ensures Accepted(Next(decode, s, CleanRevoked(now)), call) != Accepted(s, call) <==>
            s.pending[call] in s.revoked && decode(s.pending[call]).value.exp < now
  {
  }

  lemma NextKeeps(decode: Decoder, s: State, step: Step)
    requires Kept(decode, s)
    ensures Kept(decode, Next(decode, s, step))
  {
  }

  lemma {:induction false} KeptAfter(decode: Decoder, s: State, steps: seq<Step>, t: State)
    requires Kept(decode, s) && Steps(decode, s, steps, t)
    ensures Kept(decode, t)
    decreases |steps|
  {
    if steps != [] {
      NextKeeps(decode, s, steps[0]);
      KeptAfter(decode, Next(decode, s, steps[0]), steps[1..], t);
    }
  }

  // ---------- What is on the list after a run ----------

  ghost predicate RevokedIn(decode: Decoder, steps: seq<Step>, token: string) {
    steps != [] && ((steps[0].Revoke? && steps[0].token == token && steps[0].decodeOk) || RevokedIn(decode, steps[1..], token))
  }

  /** Some cleanup with a clock past the token's expiry, and no revocation of the token after it. */
  ghost predicate CleanedSince(decode: Decoder, steps: seq<Step>, token: string)
    requires decode(token).Some?
  {
    steps != [] &&
    (CleanedSince(decode, steps[1..], token)
     || (steps[0].CleanRevoked? && decode(token).value.exp < steps[0].now && !RevokedIn(decode, steps[1..], token)))
  }

  lemma {:induction false} ListedIff(decode: Decoder, s: State, steps: seq<Step>, t: State, token: string)
    requires Kept(decode, s) && Steps(decode, s, steps, t) && decode(token).Some?
    ensures token in t.revoked <==>
            (token in s.revoked || RevokedIn(decode, steps, token)) && !CleanedSince(decode, steps, token)
    decreases |steps|
  {
    if steps != [] {
      NextKeeps(decode, s, steps[0]);
      ListedIff(decode, Next(decode, s, steps[0]), steps[1..], t, token);
    }
  }

  /** Nobody else uses this call's id. */
  ghost predicate NotOf(steps: seq<Step>, call: CallId) {
    forall step :: step in steps ==> step != End(call) && !(step.Start? && step.call == call)
  }

  lemma {:induction false} StaysPending(decode: Decoder, s: State, steps: seq<Step>, t: State, call: CallId)
    requires Steps(decode, s, steps, t) && NotOf(steps, call)
    ensures call in t.pending <==> call in s.pending
    ensures call in s.pending ==> t.pending[call] == s.pending[call]
    decreases |steps|
  {
    if steps != [] {
      assert steps[0] in steps;
      forall step | step in steps[1..] ensures step in steps {}
      StaysPending(decode, Next(decode, s, steps[0]), steps[1..], t, call);
    }
  }

  /** A validation that waits while its token is on the list is accepted exactly when the token is cleaned
      off the list, and not put back, before the validation gets to it. */
  lemma WaitingAcceptedIff(decode: Decoder, s: State, steps: seq<Step>, t: State, call: CallId)
    requires Kept(decode, s) && Steps(decode, s, steps, t) && NotOf(steps, call)
    requires call in s.pending && s.pending[call] in s.revoked
    ensures Accepted(t, call) <==> CleanedSince(decode, steps, s.pending[call])
  {
    StaysPending(decode, s, steps, t, call);
    ListedIff(decode, s, steps, t, s.pending[call]);
  }

  // ---------- Revocation among other calls ----------

  /** Listed, or some clock has gone past the token's expiry. */
  lemma {:induction false} ListedOrPast(decode: Decoder, s: State, steps: seq<Step>, t: State, token: string, clock: nat)
    requires Kept(decode, s) && Steps(decode, s, steps, t) && decode(token).Some?
    requires token in s.revoked || decode(token).value.exp < clock
    ensures token in t.revoked || decode(token).value.exp < ClockAfter(steps, clock)
    decreases |steps|
  {
    if steps != [] {
      NextKeeps(decode, s, steps[0]);
      ListedOrPast(decode, Next(decode, s, steps[0]), steps[1..], t, token, ClockAt(steps[0], clock));
    }
  }

  /** In any interleaving, whatever comes before it, a validation of a revoked token is accepted exactly when
      it reads a clock not past the expiry and the token's revocation is then cleaned up, with a clock past
      the expiry, before the validation gets to the list. */
  lemma RevokedAcceptedIff(decode: Decoder, s: State, before: seq<Step>, p: State, start: Step,
                           between: seq<Step>, t: State, clock: nat)
    requires start.Start? && start.token in s.revoked && Kept(decode, s)
    requires Steps(decode, s, before, p) && ClockAfter(before, clock) <= start.now && Enabled(p, start)
    requires Steps(decode, Next(decode, p, start), between, t) && NotOf(between, start.call)
    ensures Accepted(t, start.call) <==> Passes(decode, start) && CleanedSince(decode, between, start.token)
  {
    var q := Next(decode, p, start);
    StaysPending(decode, q, between, t, start.call);
    ListedOrPast(decode, s, before, p, start.token, clock);
    if Passes(decode, start) {
      KeptAfter(decode, s, before, p);
      WaitingAcceptedIff(decode, q, between, t, start.call);
    }
  }

  /** It does happen: one validation, one cleanup a second after the expiry. */
  lemma RevokedTokenCanBeAccepted(decode: Decoder, token: string, call: CallId)
    requires decode(token).Some?
    ensures var exp := decode(token).value.exp;
            var revoked := Next(decode, State(map[], map[]), Revoke(token, true));
            var waiting := Next(decode, revoked, Start(call, token, exp, true, true));
            token in revoked.revoked && Accepted(Next(decode, waiting, CleanRevoked(exp + 1)), call)
  {
  }
}

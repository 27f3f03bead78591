/** The slot counter of network/dispatcher/task_dispatcher.rs under any number of threads: every load,
    compare-exchange, fetch-sub and store is one step. Only a thread that holds a slot gives one back. */
module TaskSlots {
  import opened Prelude

  const MAX_CONCURRENT_TASKS := 1000
  const MAX_RETRY_ATTEMPTS := 10

  type Thread = nat

  /** Inside `try_start_task` before and after the load, holding a slot, or about to repair an underflow.
      History: `since` is the number of counter changes when the call began, `seen` when it loaded. */
  datatype Phase =
    | Trying(attempts: nat, since: nat)
    | Loaded(attempts: nat, since: nat, current: nat, seen: nat)
    | Holding
    | Repairing

  /** `changes` counts the successful writes to the counter. */
  datatype State = State(counter: nat, threads: map<Thread, Phase>, changes: nat)

  const INITIAL := State(0, map[], 0)

  datatype Step = Enter(thread: Thread) | Advance(thread: Thread)

  ghost predicate Enabled(s: State, step: Step) {
    match step
    case Enter(t) => t !in s.threads
    case Advance(t) => t in s.threads
  }

  ghost function Moved(s: State, t: Thread, phase: Phase): State {
    s.(threads := s.threads[t := phase])
  }

  /** The call is over without a slot. */
  ghost function Left(s: State, t: Thread): State {
    s.(threads := s.threads - {t})
  }

  ghost function Written(s: State, counter: nat): State {
    s.(counter := counter, changes := s.changes + 1)
  }

  ghost function Next(s: State, step: Step): State
    requires Enabled(s, step)
  {
    match step
    case Enter(t) => Moved(s, t, Trying(0, s.changes))
    case Advance(t) =>
      match s.threads[t]
      case Trying(attempts, since) =>
        if s.counter >= MAX_CONCURRENT_TASKS then Left(s, t)
        else Moved(s, t, Loaded(attempts, since, s.counter, s.changes))
      case Loaded(attempts, since, current, seen) =>
        if s.counter == current then Moved(Written(s, current + 1), t, Holding)
        else if attempts + 1 >= MAX_RETRY_ATTEMPTS then Left(s, t)
        else Moved(s, t, Trying(attempts + 1, since))
      case Holding =>
        if s.counter == 0 then Moved(Written(s, WORD - 1), t, Repairing)
        else Left(Written(s, s.counter - 1), t)
      case Repairing => Left(Written(s, 0), t)
  }

  ghost predicate Steps(s: State, steps: seq<Step>, t: State)
    decreases |steps|
  {
    if steps == [] then s == t else Enabled(s, steps[0]) && Steps(Next(s, steps[0]), steps[1..], t)
  }

  // ---------- The invariant ----------

  ghost function Holders(threads: map<Thread, Phase>): set<Thread> {
    set t | t in threads && threads[t].Holding?
  }

  /** A failed attempt is paid for by a change of the counter since the call began. */
  ghost predicate Paid(s: State, phase: Phase) {
    match phase
    case Trying(attempts, since) => attempts < MAX_RETRY_ATTEMPTS && since + attempts <= s.changes
    case Loaded(attempts, since, current, seen) =>
      && attempts < MAX_RETRY_ATTEMPTS && since + attempts <= seen <= s.changes
      && current < MAX_CONCURRENT_TASKS
      && (seen == s.changes ==> s.counter == current)
    case Holding => true
    case Repairing => false
  }

  ghost predicate Inv(s: State) {
    && s.counter == |Holders(s.threads)| <= MAX_CONCURRENT_TASKS
    && (forall t :: t in s.threads ==> Paid(s, s.threads[t]))
  }

  lemma HoldersAfterMove(threads: map<Thread, Phase>, t: Thread, phase: Phase)
    ensures Holders(threads[t := phase]) == if phase.Holding? then Holders(threads) + {t} else Holders(threads) - {t}
    ensures Holders(threads - {t}) == Holders(threads) - {t}
  {
  }

  /** A step that writes nothing and gives no slot. */
  lemma QuietStepKeepsInv(s: State, t: Thread, phase: Phase)
    requires Inv(s) && (t in s.threads ==> !s.threads[t].Holding?)
    ensures !phase.Holding? && Paid(s, phase) ==> Inv(Moved(s, t, phase))
    ensures Inv(Left(s, t))
  {
    HoldersAfterMove(s.threads, t, phase);
    assert Holders(s.threads) - {t} == Holders(s.threads);
  }

  lemma ExchangeKeepsInv(s: State, t: Thread)
    requires Inv(s) && t in s.threads && s.threads[t].Loaded? && s.counter == s.threads[t].current
    ensures Inv(Next(s, Advance(t)))
  {
    HoldersAfterMove(s.threads, t, Holding);
  }

  lemma FinishKeepsInv(s: State, t: Thread)
    requires Inv(s) && t in s.threads && s.threads[t].Holding?
    ensures s.counter > 0 && Inv(Next(s, Advance(t)))
  {
    assert t in Holders(s.threads);
    HoldersAfterMove(s.threads, t, Holding);
  }

  lemma NextKeepsInv(s: State, step: Step)
    requires Inv(s) && Enabled(s, step)
    ensures Inv(Next(s, step))
  {
    var t := step.thread;
    match step
    case Enter(_) =>
      QuietStepKeepsInv(s, t, Trying(0, s.changes));
    case Advance(_) =>
      match s.threads[t] {
        case Trying(attempts, since) =>
          QuietStepKeepsInv(s, t, Loaded(attempts, since, s.counter, s.changes));
        case Loaded(attempts, since, current, seen) =>
          if s.counter == current {
            ExchangeKeepsInv(s, t);
          } else {
            QuietStepKeepsInv(s, t, Trying(attempts + 1, since));
          }
        case Holding =>
          FinishKeepsInv(s, t);
        case Repairing =>
      }
  }

  lemma {:induction false} EveryInterleavingKeepsInv(s: State, steps: seq<Step>, t: State)
    requires Inv(s) && Steps(s, steps, t)
    ensures Inv(t)
    decreases |steps|
  {
    if steps != [] {
      NextKeepsInv(s, steps[0]);
      EveryInterleavingKeepsInv(Next(s, steps[0]), steps[1..], t);
    }
  }

  // ---------- The main results ----------

  /** In every interleaving the counter is the number of slots held, never above the limit, and the
      underflow repair is never due. */
  lemma SlotAccounting(steps: seq<Step>, s: State)
    requires Steps(INITIAL, steps, s)
    ensures s.counter == |Holders(s.threads)| <= MAX_CONCURRENT_TASKS
    ensures forall t :: t in s.threads ==> !s.threads[t].Repairing?
    ensures forall t :: t in s.threads && s.threads[t].Holding? ==> s.counter > 0
  {
    assert Holders(map[]) == {};
    EveryInterleavingKeepsInv(INITIAL, steps, s);
    forall t | t in s.threads && s.threads[t].Holding? ensures s.counter > 0 {
      assert t in Holders(s.threads);
    }
  }

  /** A call that gives up after a failed exchange, rather than for want of a slot, has seen the counter
      change at least ten times since it began. */
  lemma GivingUpTakesTenChanges(steps: seq<Step>, s: State, t: Thread)
    requires Steps(INITIAL, steps, s) && t in s.threads && s.threads[t].Loaded?
    requires t !in Next(s, Advance(t)).threads
    ensures s.threads[t].since + MAX_RETRY_ATTEMPTS <= s.changes
  {
    assert Holders(map[]) == {};
    EveryInterleavingKeepsInv(INITIAL, steps, s);
  }

  /** A load turns a thread away exactly when all 1000 slots are held, and a failed exchange exactly at the
      tenth attempt. */
  lemma RefusedOnlyWhenFull(steps: seq<Step>, s: State, t: Thread)
    requires Steps(INITIAL, steps, s) && t in s.threads
    ensures s.threads[t].Trying? ==> (t !in Next(s, Advance(t)).threads <==> |Holders(s.threads)| == 1000)
    ensures s.threads[t].Loaded? && s.counter != s.threads[t].current ==>
              (t !in Next(s, Advance(t)).threads <==> s.threads[t].attempts == 9)
  {
    assert Holders(map[]) == {};
    EveryInterleavingKeepsInv(INITIAL, steps, s);
  }

  /** An exchange with no change of the counter since the load succeeds. */
  lemma UndisturbedExchangeSucceeds(steps: seq<Step>, s: State, t: Thread)
    requires Steps(INITIAL, steps, s) && t in s.threads && s.threads[t].Loaded? && s.threads[t].seen == s.changes
    ensures var n := Next(s, Advance(t)); t in n.threads && n.threads[t].Holding? && n.counter == s.counter + 1
  {
    assert Holders(map[]) == {};
    EveryInterleavingKeepsInv(INITIAL, steps, s);
  }

  /** A whole `finish_task` by a thread without a slot: at 0 it wraps the counter and stores 0 again. */
  ghost function StrayFinished(s: State): State {
    if s.counter == 0 then Written(Written(s, WORD - 1), 0) else Written(s, s.counter - 1)
  }

  /** Such a finish does no harm exactly when no slot is held, which is when the repair catches it. */
  lemma StrayFinishHarmlessIff(s: State)
    requires Inv(s)
    ensures Inv(StrayFinished(s)) <==> s.counter == 0
    ensures s.counter > 0 ==> StrayFinished(s).counter < |Holders(StrayFinished(s).threads)|
  {
  }
}

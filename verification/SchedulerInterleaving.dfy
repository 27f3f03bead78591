/** Concurrent use of the scheduler of network/node_manager/scheduler.rs. Scheduling and cancelling lock the
    task lists and then, separately, the update times (160-172 and 230-243), and a timeout may drop a call in
    between (156-184). The cleanup keeps the update times locked while it waits for the lists (65-108). Every
    locked section is one step. */
module SchedulerInterleaving {
  import opened Prelude
  import opened SchedulerIndex

  type CallId = nat

  /** A call between its two sections. */
  datatype Call = Stamping(node: string, task: string) | Unstamping(node: string, task: string)

  /** `cleaning` holds the keys that the cleanup has removed and whose tasks it has not filtered yet; the
      update times are locked while there are any. */
  datatype State = State(store: Store, calls: map<CallId, Call>, cleaning: set<string>)

  datatype Step =
    | Push(call: CallId, node: string, task: string)
    | Stamp(call: CallId, now: nat)
    | Pull(call: CallId, node: string, task: string)
    | Unstamp(call: CallId)
    | Abandon(call: CallId)
    | CleanKeys(now: nat)
    | CleanLists

  ghost predicate Enabled(s: State, step: Step) {
    match step
    case Push(call, node, task) => call !in s.calls && node != [] && task != [] && ColonFree(task)
    case Stamp(call, _) => call in s.calls && s.calls[call].Stamping? && s.cleaning == {}
    case Pull(call, node, task) => call !in s.calls && node != [] && task != []
    case Unstamp(call) => call in s.calls && s.calls[call].Unstamping? && s.cleaning == {}
    case Abandon(call) => call in s.calls
    case CleanKeys(_) => s.cleaning == {}
    case CleanLists => s.cleaning != {}
  }

  ghost function KeyOf(call: Call): string {
    Key(call.node, call.task)
  }

  ghost function Nodes(keys: set<string>): set<string> {
    set k | k in keys :: NodeOf(k)
  }

  ghost function Next(s: State, step: Step): State
    requires Enabled(s, step)
  {
    var tasks, times := s.store.tasks, s.store.lastUpdate;
    match step
    case Push(call, n, t) =>
      State(Store(tasks[n := (if n in tasks then tasks[n] else []) + [t]], times), s.calls[call := Stamping(n, t)], s.cleaning)
    case Stamp(call, now) => State(Store(tasks, times[KeyOf(s.calls[call]) := now]), s.calls - {call}, s.cleaning)
    case Pull(call, n, t) =>
      State(Store(if n in tasks then tasks[n := Filter(NotTask(t), tasks[n])] else tasks, times),
            s.calls[call := Unstamping(n, t)], s.cleaning)
    case Unstamp(call) => State(Store(tasks, times - {KeyOf(s.calls[call])}), s.calls - {call}, s.cleaning)
    case Abandon(call) => s.(calls := s.calls - {call})
    case CleanKeys(now) =>
      s.(store := Store(tasks, times - ExpiredKeys(s.store, now)), cleaning := ExpiredKeys(s.store, now))
    case CleanLists => s.(store := Store(FilteredFor(tasks, Nodes(s.cleaning), s.cleaning), times), cleaning := {})
  }

  ghost predicate Steps(s: State, steps: seq<Step>, t: State)
    decreases |steps|
  {
    if steps == [] then s == t else Enabled(s, steps[0]) && Steps(Next(s, steps[0]), steps[1..], t)
  }

  // ---------- The calls are interleavings ----------

  lemma UndisturbedCalls(s: State, call: CallId, node: string, task: string, now: nat)
    requires call !in s.calls && s.cleaning == {} && node != [] && task != []
    ensures ColonFree(task) ==>
              Next(Next(s, Push(call, node, task)), Stamp(call, now)).store == Scheduled(s.store, node, task, now)
    ensures Next(Next(s, Pull(call, node, task)), Unstamp(call)).store == Cancelled(s.store, node, task)
  {
  }

  lemma UndisturbedCleanup(s: State, now: nat)
    requires s.cleaning == {}
    ensures var r := Next(s, CleanKeys(now));
            (if r.cleaning == {} then r else Next(r, CleanLists)).store == Cleaned(s.store, now)
  {
    var keys := ExpiredKeys(s.store, now);
    FilteredIsCleaned(s.store, now, keys, Nodes(keys));
    if keys == {} {
      NothingFiltered(s.store.tasks, keys);
      assert Nodes(keys) == {};
    }
  }

  // ---------- One pair of node and task ----------

  ghost predicate On(call: Call, node: string, task: string) {
    call.node == node && call.task == task
  }

  /** What the step does to the list entry of the pair: true if it adds it, false if it removes it. */
  ghost function ListEffect(s: State, step: Step, node: string, task: string): Option<bool>
    requires Enabled(s, step)
  {
    match step
    case Push(_, n, t) => if n == node && t == task then Some(true) else None
    case Pull(_, n, t) => if n == node && t == task then Some(false) else None
    case CleanLists => if Key(node, task) in s.cleaning then Some(false) else None
    case _ => None
  }

  /** The same for the pair's update time. */
  ghost function KeyEffect(s: State, step: Step, node: string, task: string): Option<bool>
    requires Enabled(s, step)
  {
    match step
    case Stamp(call, _) => if On(s.calls[call], node, task) then Some(true) else None
    case Unstamp(call) => if On(s.calls[call], node, task) then Some(false) else None
    case CleanKeys(now) => if Key(node, task) in ExpiredKeys(s.store, now) then Some(false) else None
    case _ => None
  }

  function Or(effect: Option<bool>, before: bool): bool {
    if effect.Some? then effect.value else before
  }

  lemma FilteredHas(tasks: map<string, seq<string>>, keys: set<string>, node: string, task: string)
    requires ColonFree(node)
    ensures var r := FilteredFor(tasks, Nodes(keys), keys);
            (node in r && task in r[node]) <==> (node in tasks && task in tasks[node] && Key(node, task) !in keys)
  {
    if node in tasks {
      FilterMembers(KeyNotIn(node, keys), tasks[node]);
      NodeOfKey(node, task);
    }
  }

  lemma HasAfter(s: State, step: Step, node: string, task: string)
    requires Enabled(s, step) && ColonFree(node)
    ensures Has(Next(s, step).store, node, task) <==> Or(ListEffect(s, step, node, task), Has(s.store, node, task))
  {
    match step
    case Pull(_, n, t) =>
      if n in s.store.tasks {
        FilterMembers(NotTask(t), s.store.tasks[n]);
      }
    case CleanLists => FilteredHas(s.store.tasks, s.cleaning, node, task);
    case _ =>
  }

  lemma KeyAfter(s: State, step: Step, node: string, task: string)
    requires Enabled(s, step) && ColonFree(node) && ColonFree(task)
    ensures Key(node, task) in Next(s, step).store.lastUpdate
            <==> Or(KeyEffect(s, step, node, task), Key(node, task) in s.store.lastUpdate)
  {
    if (step.Stamp? || step.Unstamp?) && KeyOf(s.calls[step.call]) == Key(node, task) {
      KeyReadsOneWay(node, task, s.calls[step.call].node, s.calls[step.call].task);
    }
  }

  // ---------- Exactly when a pair ends right ----------

  /** In the lists exactly when in the update times. */
  ghost predicate Right(s: State, node: string, task: string) {
    Has(s.store, node, task) <==> Key(node, task) in s.store.lastUpdate
  }

  /** The effect of the last step of the run that has any. */
  ghost function LastList(s: State, steps: seq<Step>, node: string, task: string): Option<bool>
    decreases |steps|
  {
    if steps == [] || !Enabled(s, steps[0]) then None
    else
      var rest := LastList(Next(s, steps[0]), steps[1..], node, task);
      if rest.Some? then rest else ListEffect(s, steps[0], node, task)
  }

  ghost function LastKey(s: State, steps: seq<Step>, node: string, task: string): Option<bool>
    decreases |steps|
  {
    if steps == [] || !Enabled(s, steps[0]) then None
    else
      var rest := LastKey(Next(s, steps[0]), steps[1..], node, task);
      if rest.Some? then rest else KeyEffect(s, steps[0], node, task)
  }

  lemma {:induction false} AfterRun(s: State, steps: seq<Step>, r: State, node: string, task: string)
    requires Steps(s, steps, r) && ColonFree(node) && ColonFree(task)
    ensures Has(r.store, node, task) <==> Or(LastList(s, steps, node, task), Has(s.store, node, task))
    ensures Key(node, task) in r.store.lastUpdate
            <==> Or(LastKey(s, steps, node, task), Key(node, task) in s.store.lastUpdate)
    decreases |steps|
  {
    if steps != [] {
      HasAfter(s, steps[0], node, task);
      KeyAfter(s, steps[0], node, task);
      AfterRun(Next(s, steps[0]), steps[1..], r, node, task);
    }
  }

  /** Whatever the interleaving, a pair ends right exactly when the last section that touched its list entry
      and the last that touched its update time did the same to both. */
  lemma EndsRightIff(s: State, steps: seq<Step>, r: State, node: string, task: string)
    requires Steps(s, steps, r) && ColonFree(node) && ColonFree(task) && Right(s, node, task)
    ensures Right(r, node, task) <==>
            Or(LastList(s, steps, node, task), Has(s.store, node, task))
            == Or(LastKey(s, steps, node, task), Has(s.store, node, task))
  {
    AfterRun(s, steps, r, node, task);
  }

  // ---------- Calls that keep apart ----------

  ghost predicate Waiting(s: State, call: CallId, node: string, task: string) {
    call in s.calls && On(s.calls[call], node, task)
  }

  /** Some call on the pair, or the cleanup, is between its sections. */
  ghost predicate Busy(s: State, node: string, task: string) {
    (exists call :: Waiting(s, call, node, task)) || Key(node, task) in s.cleaning
  }

  /** The step starts nothing on a pair that is busy, and is no timeout. */
  ghost predicate Apart(s: State, step: Step) {
    match step
    case Push(_, n, t) => !Busy(s, n, t)
    case Pull(_, n, t) => !Busy(s, n, t)
    case CleanKeys(now) => forall call :: call in s.calls ==> KeyOf(s.calls[call]) !in ExpiredKeys(s.store, now)
    case Abandon(_) => false
    case _ => true
  }

  ghost predicate AllApart(s: State, steps: seq<Step>)
    decreases |steps|
  {
    steps != [] && Enabled(s, steps[0]) ==> Apart(s, steps[0]) && AllApart(Next(s, steps[0]), steps[1..])
  }

  /** How far the one call or cleanup on the pair, if any, has got. */
  ghost predicate PairOk(s: State, node: string, task: string) {
    var k := Key(node, task);
    && (forall c, d :: Waiting(s, c, node, task) && Waiting(s, d, node, task) ==> c == d)
    && (forall c :: Waiting(s, c, node, task) ==>
          k !in s.cleaning && (Has(s.store, node, task) <==> s.calls[c].Stamping?))
    && (k in s.cleaning ==> k !in s.store.lastUpdate)
    && (!Busy(s, node, task) ==> Right(s, node, task))
  }

  lemma CleanKeysKeepsPair(s: State, now: nat, node: string, task: string)
    requires PairOk(s, node, task) && ColonFree(node) && ColonFree(task)
    requires s.cleaning == {} && Apart(s, CleanKeys(now))
    ensures PairOk(Next(s, CleanKeys(now)), node, task)
  {
    var r := Next(s, CleanKeys(now));
    forall c ensures Waiting(r, c, node, task) <==> Waiting(s, c, node, task) {}
  }

  lemma CleanListsKeepsPair(s: State, node: string, task: string)
    requires PairOk(s, node, task) && ColonFree(node) && ColonFree(task) && s.cleaning != {}
    ensures PairOk(Next(s, CleanLists), node, task)
  {
    var r := Next(s, CleanLists);
    HasAfter(s, CleanLists, node, task);
    forall c ensures Waiting(r, c, node, task) <==> Waiting(s, c, node, task) {}
  }

  lemma StartKeepsPair(s: State, step: Step, node: string, task: string)
    requires PairOk(s, node, task) && ColonFree(node) && ColonFree(task)
    requires (step.Push? || step.Pull?) && Enabled(s, step) && Apart(s, step)
    ensures PairOk(Next(s, step), node, task)
  {
    var r := Next(s, step);
    HasAfter(s, step, node, task);
    forall c ensures Waiting(r, c, node, task) <==>
                     if c == step.call then step.node == node && step.task == task else Waiting(s, c, node, task) {}
    if step.node == node && step.task == task {
      assert Waiting(r, step.call, node, task);
    }
  }

  lemma EndKeepsPair(s: State, step: Step, node: string, task: string)
    requires PairOk(s, node, task) && ColonFree(node) && ColonFree(task)
    requires (step.Stamp? || step.Unstamp?) && Enabled(s, step)
    ensures PairOk(Next(s, step), node, task)
  {
    var r := Next(s, step);
    HasAfter(s, step, node, task);
    KeyAfter(s, step, node, task);
    forall c ensures Waiting(r, c, node, task) <==> c != step.call && Waiting(s, c, node, task) {}
  }

  lemma {:induction false} ApartKeepsPair(s: State, steps: seq<Step>, r: State, node: string, task: string)
    requires PairOk(s, node, task) && ColonFree(node) && ColonFree(task)
    requires Steps(s, steps, r) && AllApart(s, steps)
    ensures PairOk(r, node, task)
    decreases |steps|
  {
    if steps != [] {
      match steps[0] {
        case CleanKeys(now) => CleanKeysKeepsPair(s, now, node, task);
        case CleanLists => CleanListsKeepsPair(s, node, task);
        case Push(_, _, _) => StartKeepsPair(s, steps[0], node, task);
        case Pull(_, _, _) => StartKeepsPair(s, steps[0], node, task);
        case _ => EndKeepsPair(s, steps[0], node, task);
      }
      ApartKeepsPair(Next(s, steps[0]), steps[1..], r, node, task);
    }
  }

  ghost predicate AtRest(s: State) {
    s.calls == map[] && s.cleaning == {}
  }

  /** From rest to rest the index is kept by every interleaving in which calls and cleanups on one pair do not
      overlap and no call times out halfway; calls on different pairs may overlap at will. */
  lemma ApartKeepsIndex(s: State, steps: seq<Step>, r: State)
    requires AtRest(s) && Indexed(s.store) && Steps(s, steps, r) && AtRest(r) && AllApart(s, steps)
    ensures Indexed(r.store)
  {
    forall n, t | ColonFree(n) && ColonFree(t) ensures Has(r.store, n, t) <==> Key(n, t) in r.store.lastUpdate {
      assert Right(s, n, t);
      ApartKeepsPair(s, steps, r, n, t);
      assert !Busy(r, n, t);
    }
  }

  // ---------- What overlapping calls leave behind ----------

  const EMPTY := State(Store(map[], map[]), map[], {})

  /** A schedule that comes between the sections of a cancel of the same pair leaves a task without an update
      time; so does a schedule that times out between its own. */
  lemma TaskWithoutTime(node: string, task: string, now: nat)
    requires node != [] && task != [] && ColonFree(task)
    ensures var s := Next(Next(Next(Next(EMPTY, Pull(0, node, task)), Push(1, node, task)), Stamp(1, now)), Unstamp(0));
            AtRest(s) && Has(s.store, node, task) && Key(node, task) !in s.store.lastUpdate
    ensures var s := Next(Next(EMPTY, Push(0, node, task)), Abandon(0));
            AtRest(s) && Has(s.store, node, task) && Key(node, task) !in s.store.lastUpdate
  {
  }

  /** A cancel that comes between the sections of a schedule leaves an update time without a task. */
  lemma TimeWithoutTask(node: string, task: string, now: nat)
    requires node != [] && task != [] && ColonFree(task)
    ensures var s := Next(Next(Next(Next(EMPTY, Push(0, node, task)), Pull(1, node, task)), Unstamp(1)), Stamp(0, now));
            AtRest(s) && !Has(s.store, node, task) && Key(node, task) in s.store.lastUpdate
  {
  }

  /** The pair has a task, no update time, and nobody at work on it. */
  ghost predicate Orphan(s: State, node: string, task: string) {
    && Has(s.store, node, task) && Key(node, task) !in s.store.lastUpdate
    && !Busy(s, node, task)
  }

  lemma OrphanStep(s: State, step: Step, node: string, task: string)
    requires Orphan(s, node, task) && ColonFree(node) && ColonFree(task) && Enabled(s, step)
    requires step.Push? || step.Pull? ==> step.node != node || step.task != task
    ensures Orphan(Next(s, step), node, task)
  {
    HasAfter(s, step, node, task);
    KeyAfter(s, step, node, task);
    var r := Next(s, step);
    forall c ensures !Waiting(r, c, node, task) {
      assert !Waiting(s, c, node, task);
    }
    assert (step.Stamp? || step.Unstamp?) ==> !Waiting(s, step.call, node, task);
  }

  /** A task without an update time stays: no cleanup of any later interleaving removes it. */
  lemma {:induction false} OrphanStays(s: State, steps: seq<Step>, r: State, node: string, task: string)
    requires Orphan(s, node, task) && ColonFree(node) && ColonFree(task) && Steps(s, steps, r)
    requires forall step :: step in steps && (step.Push? || step.Pull?) ==> step.node != node || step.task != task
    ensures Orphan(r, node, task)
    decreases |steps|
  {
    if steps != [] {
      assert steps[0] in steps;
      OrphanStep(s, steps[0], node, task);
      forall step | step in steps[1..] ensures step in steps {}
      OrphanStays(Next(s, steps[0]), steps[1..], r, node, task);
    }
  }
}

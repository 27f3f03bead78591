/** network/plugins/ws.rs's connection accounting: an atomic total, a count per IP and a block list,
    updated in several steps by any number of tasks. Each atomic operation and each locked section is
    one step; the lock that orders some of them is not assumed, so every real interleaving is here. */
module WebSocketAccounting {
  import opened Prelude

  const MAX_CONNECTIONS := 1000
  const MAX_CONNECTIONS_PER_IP := 20
  /** Ten minutes of an `Instant`, in nanoseconds: `elapsed().as_secs() < 600` says less than this. */
  const BLOCK_NANOS := 600_000_000_000

  type TaskId = nat

  /** 0.0.0.0 stands in for an unknown peer address. */
  function ClientIp(ip: Option<Ip>): Ip {
    if ip.Some? then ip.value else 0
  }

  /** `AtomicUsize::fetch_add(1)` and `fetch_sub(1)` wrap around. */
  function Incremented(total: nat): nat {
    (total + 1) % WORD
  }

  function Decremented(total: nat): nat {
    if total == 0 then WORD - 1 else total - 1
  }

  /** The two undo each other on every word, also across the wrap. */
  lemma CountersUndo(total: nat)
    requires total < WORD
    ensures Incremented(total) < WORD && Decremented(total) < WORD
    ensures Decremented(Incremented(total)) == total == Incremented(Decremented(total))
  {
  }

  function Count(counts: map<Ip, nat>, ip: Ip): nat {
    if ip in counts then counts[ip] else 0
  }

  /** Where a connection attempt, or the connection it became, stands. */
  datatype Phase =
    | New
    | Cleaned
    | Checked
    | OverLimit
    | Reserved
    | IpOverLimit(count: nat)
    | Blocking
    | Accepted
    | Leaving

  datatype Task = Task(ip: Ip, phase: Phase)

  datatype State = State(total: nat, counts: map<Ip, nat>, blocked: map<Ip, nat>, tasks: map<TaskId, Task>)

  const INITIAL := State(0, map[], map[], map[])

  datatype Step = Arrive(id: TaskId, ip: Option<Ip>) | Advance(id: TaskId, now: nat)

  /** Fewer tasks run at once than a word can count. */
  ghost predicate Enabled(s: State, step: Step) {
    match step
    case Arrive(id, ip) => id !in s.tasks && |s.tasks| + 1 < WORD
    case Advance(id, now) => id in s.tasks
  }

  ghost function Moved(s: State, id: TaskId, phase: Phase): State
    requires id in s.tasks
  {
    s.(tasks := s.tasks[id := s.tasks[id].(phase := phase)])
  }

  ghost function Ended(s: State, id: TaskId): State {
    s.(tasks := s.tasks - {id})
  }

  /** One step of a task: `try_connect_with_ip` up to `Accepted`, then `disconnect_with_ip`, once. */
  ghost function Advanced(s: State, id: TaskId, now: nat): State
    requires id in s.tasks
  {
    var ip := s.tasks[id].ip;
    match s.tasks[id].phase
    case New =>
      Moved(s.(blocked := map x | x in s.blocked && now - s.blocked[x] < BLOCK_NANOS :: s.blocked[x]), id, Cleaned)
    case Cleaned => if ip in s.blocked then Ended(s, id) else Moved(s, id, Checked)
    case Checked =>
      Moved(s.(total := Incremented(s.total)), id, if s.total >= MAX_CONNECTIONS then OverLimit else Reserved)
    case OverLimit => Ended(s.(total := Decremented(s.total)), id)
    case Reserved =>
      var n := Count(s.counts, ip) + 1;
      if n > MAX_CONNECTIONS_PER_IP then Moved(s.(counts := s.counts[ip := n - 1]), id, IpOverLimit(n - 1))
      else Moved(s.(counts := s.counts[ip := n]), id, Accepted)
    case IpOverLimit(n) =>
      var t := s.(total := Decremented(s.total));
      if n >= MAX_CONNECTIONS_PER_IP * 2 then Moved(t, id, Blocking) else Ended(t, id)
    case Blocking => Ended(s.(blocked := s.blocked[ip := now]), id)
    case Accepted =>
      var n := Count(s.counts, ip);
      Moved(if n > 0 then s.(counts := s.counts[ip := n - 1]) else s, id, Leaving)
    case Leaving => Ended(s.(total := Decremented(s.total)), id)
  }

  ghost function Next(s: State, step: Step): State
    requires Enabled(s, step)
  {
    match step
    case Arrive(id, ip) => s.(tasks := s.tasks[id := Task(ClientIp(ip), New)])
    case Advance(id, now) => Advanced(s, id, now)
  }

  ghost predicate Steps(s: State, steps: seq<Step>, t: State)
    decreases |steps|
  {
    if steps == [] then s == t else Enabled(s, steps[0]) && Steps(Next(s, steps[0]), steps[1..], t)
  }

  // ---------- Who is counted ----------

  /** Between its `fetch_add` and its `fetch_sub`. */
  predicate Counted(p: Phase) {
    p.OverLimit? || p.Reserved? || p.IpOverLimit? || p.Accepted? || p.Leaving?
  }

  /** Counted by the total but by no per-IP count. */
  predicate BetweenCounts(p: Phase) {
    p.OverLimit? || p.Reserved? || p.IpOverLimit? || p.Leaving?
  }

  /** Passed the total limit. */
  predicate Holding(p: Phase) {
    p.Reserved? || p.IpOverLimit? || p.Accepted? || p.Leaving?
  }

  ghost function CountedIn(tasks: map<TaskId, Task>): set<TaskId> {
    set t | t in tasks && Counted(tasks[t].phase)
  }

  ghost function BetweenIn(tasks: map<TaskId, Task>): set<TaskId> {
    set t | t in tasks && BetweenCounts(tasks[t].phase)
  }

  ghost function HoldingIn(tasks: map<TaskId, Task>): set<TaskId> {
    set t | t in tasks && Holding(tasks[t].phase)
  }

  ghost function AcceptedIn(tasks: map<TaskId, Task>): set<TaskId> {
    set t | t in tasks && tasks[t].phase.Accepted?
  }

  ghost function AcceptedFrom(tasks: map<TaskId, Task>, ip: Ip): set<TaskId> {
    set t | t in tasks && tasks[t].phase.Accepted? && tasks[t].ip == ip
  }

  /** The total counts the counted tasks, of which at most the limit got past the first check. */
  ghost predicate TotalOk(s: State) {
    && |s.tasks| < WORD
    && s.total == |CountedIn(s.tasks)|
    && |HoldingIn(s.tasks)| <= MAX_CONNECTIONS
  }

  ghost predicate CountsOk(s: State) {
    forall ip :: Count(s.counts, ip) == |AcceptedFrom(s.tasks, ip)| && Count(s.counts, ip) <= MAX_CONNECTIONS_PER_IP
  }

  ghost predicate NothingBlocked(s: State) {
    && s.blocked == map[]
    && (forall t :: t in s.tasks ==> !s.tasks[t].phase.Blocking?)
    && (forall t :: t in s.tasks && s.tasks[t].phase.IpOverLimit? ==> s.tasks[t].phase.count == MAX_CONNECTIONS_PER_IP)
  }

  ghost predicate Inv(s: State) {
    TotalOk(s) && CountsOk(s) && NothingBlocked(s)
  }

  // ---------- How the sets change ----------

  ghost function One(b: bool): nat {
    if b then 1 else 0
  }

  lemma SizeAfter(a: set<TaskId>, b: set<TaskId>, id: TaskId, enters: bool)
    requires b == if enters then a + {id} else a - {id}
    ensures |b| == |a| + One(enters) - One(id in a)
  {
  }

  lemma MoveCounted(tasks: map<TaskId, Task>, id: TaskId, task: Task)
    requires id in tasks
    ensures |CountedIn(tasks[id := task])| == |CountedIn(tasks)| + One(Counted(task.phase)) - One(Counted(tasks[id].phase))
  {
    var a, b := CountedIn(tasks), CountedIn(tasks[id := task]);
    assert b == if Counted(task.phase) then a + {id} else a - {id};
    SizeAfter(a, b, id, Counted(task.phase));
  }

  lemma MoveHolding(tasks: map<TaskId, Task>, id: TaskId, task: Task)
    requires id in tasks
    ensures |HoldingIn(tasks[id := task])| == |HoldingIn(tasks)| + One(Holding(task.phase)) - One(Holding(tasks[id].phase))
  {
    var a, b := HoldingIn(tasks), HoldingIn(tasks[id := task]);
    assert b == if Holding(task.phase) then a + {id} else a - {id};
    SizeAfter(a, b, id, Holding(task.phase));
  }

  /** The effect of changing one task on the quantities behind the total. */
  lemma MoveSizes(tasks: map<TaskId, Task>, id: TaskId, task: Task)
    requires id in tasks
    ensures var moved := tasks[id := task];
            && |moved| == |tasks|
            && |CountedIn(moved)| == |CountedIn(tasks)| + One(Counted(task.phase)) - One(Counted(tasks[id].phase))
            && |HoldingIn(moved)| == |HoldingIn(tasks)| + One(Holding(task.phase)) - One(Holding(tasks[id].phase))
  {
    assert tasks[id := task].Keys == tasks.Keys;
    MoveCounted(tasks, id, task);
    MoveHolding(tasks, id, task);
  }

  lemma MoveAccepted(tasks: map<TaskId, Task>, id: TaskId, task: Task, ip: Ip)
    requires id in tasks && task.ip == tasks[id].ip
    ensures |AcceptedFrom(tasks[id := task], ip)| ==
            |AcceptedFrom(tasks, ip)| + One(task.phase.Accepted? && task.ip == ip)
            - One(tasks[id].phase.Accepted? && task.ip == ip)
  {
    SizeAfter(AcceptedFrom(tasks, ip), AcceptedFrom(tasks[id := task], ip), id, task.phase.Accepted? && task.ip == ip);
  }

  lemma EndSizes(tasks: map<TaskId, Task>, id: TaskId)
    requires id in tasks
    ensures |tasks - {id}| <= |tasks|
    ensures |CountedIn(tasks - {id})| == |CountedIn(tasks)| - One(Counted(tasks[id].phase))
    ensures |HoldingIn(tasks - {id})| <= |HoldingIn(tasks)|
  {
    assert (tasks - {id}).Keys == tasks.Keys - {id};
    SizeAfter(CountedIn(tasks), CountedIn(tasks - {id}), id, false);
    SizeAfter(HoldingIn(tasks), HoldingIn(tasks - {id}), id, false);
  }

  lemma HoldingAreCounted(tasks: map<TaskId, Task>)
    ensures |HoldingIn(tasks)| <= |CountedIn(tasks)| <= |tasks|
  {
    SubsetSize(HoldingIn(tasks), CountedIn(tasks));
    SubsetSize(CountedIn(tasks), tasks.Keys);
  }

  // ---------- Every step keeps the invariant ----------

  lemma ArrivalUncounted(tasks: map<TaskId, Task>, id: TaskId, ip: Ip)
    requires id !in tasks
    ensures var t := tasks[id := Task(ip, New)];
            && |t| == |tasks| + 1
            && CountedIn(t) == CountedIn(tasks) && HoldingIn(t) == HoldingIn(tasks)
            && forall x :: AcceptedFrom(t, x) == AcceptedFrom(tasks, x)
  {
    var t := tasks[id := Task(ip, New)];
    assert t.Keys == tasks.Keys + {id};
    forall x ensures AcceptedFrom(t, x) == AcceptedFrom(tasks, x) {}
  }

  lemma ArriveKeepsInv(s: State, id: TaskId, ip: Option<Ip>)
    requires Inv(s) && Enabled(s, Arrive(id, ip))
    ensures Inv(Next(s, Arrive(id, ip)))
  {
    ArrivalUncounted(s.tasks, id, ClientIp(ip));
    assert NothingBlocked(Next(s, Arrive(id, ip)));
  }

  /** A step that moves one task, leaving it neither accepted nor no longer accepted. */
  lemma MoveKeepsCounts(s: State, t: State, id: TaskId, task: Task)
    requires CountsOk(s) && id in s.tasks && t.tasks == s.tasks[id := task] && task.ip == s.tasks[id].ip
    requires !task.phase.Accepted? && !s.tasks[id].phase.Accepted?
    requires forall ip :: Count(t.counts, ip) == Count(s.counts, ip)
    ensures CountsOk(t)
  {
    forall ip ensures Count(t.counts, ip) == |AcceptedFrom(t.tasks, ip)| {
      MoveAccepted(s.tasks, id, task, ip);
    }
  }

  /** The block list is empty, so expiring it and consulting it change nothing. */
  lemma UncountedStepKeepsInv(s: State, id: TaskId, now: nat)
    requires Inv(s) && id in s.tasks && (s.tasks[id].phase.New? || s.tasks[id].phase.Cleaned?)
    ensures Inv(Advanced(s, id, now))
  {
    var task := s.tasks[id].(phase := if s.tasks[id].phase.New? then Cleaned else Checked);
    MoveSizes(s.tasks, id, task);
    var t := Advanced(s, id, now);
    assert t.blocked == map[];
    MoveKeepsCounts(s, t, id, task);
  }

  lemma FetchAddKeepsInv(s: State, id: TaskId, now: nat)
    requires Inv(s) && id in s.tasks && s.tasks[id].phase.Checked?
    ensures Inv(Advanced(s, id, now))
  {
    var task := s.tasks[id].(phase := if s.total >= MAX_CONNECTIONS then OverLimit else Reserved);
    MoveSizes(s.tasks, id, task);
    HoldingAreCounted(s.tasks);
    var t := Advanced(s, id, now);
    HoldingAreCounted(t.tasks);
    MoveKeepsCounts(s, t, id, task);
  }

  /** A `fetch_sub` belongs to a task that is counted, so the total is not 0. */
  lemma FetchSubKeepsInv(s: State, id: TaskId, now: nat)
    requires Inv(s) && id in s.tasks
    requires s.tasks[id].phase.OverLimit? || s.tasks[id].phase.IpOverLimit? || s.tasks[id].phase.Leaving?
    ensures s.total > 0 && Inv(Advanced(s, id, now))
    ensures Advanced(s, id, now) == Ended(s.(total := s.total - 1), id)
  {
    assert id in CountedIn(s.tasks);
    EndSizes(s.tasks, id);
    var t := Advanced(s, id, now);
    forall ip ensures AcceptedFrom(t.tasks, ip) == AcceptedFrom(s.tasks, ip) {}
  }

  lemma PerIpKeepsInv(s: State, id: TaskId, now: nat)
    requires Inv(s) && id in s.tasks && s.tasks[id].phase.Reserved?
    ensures Inv(Advanced(s, id, now))
  {
    var n := Count(s.counts, s.tasks[id].ip) + 1;
    var task := s.tasks[id].(phase := if n > MAX_CONNECTIONS_PER_IP then IpOverLimit(n - 1) else Accepted);
    MoveSizes(s.tasks, id, task);
    var t := Advanced(s, id, now);
    forall ip ensures Count(t.counts, ip) == |AcceptedFrom(t.tasks, ip)| && Count(t.counts, ip) <= MAX_CONNECTIONS_PER_IP {
      MoveAccepted(s.tasks, id, task, ip);
    }
  }

  lemma DisconnectKeepsInv(s: State, id: TaskId, now: nat)
    requires Inv(s) && id in s.tasks && s.tasks[id].phase.Accepted?
    ensures Count(s.counts, s.tasks[id].ip) > 0 && Inv(Advanced(s, id, now))
  {
    var task := s.tasks[id].(phase := Leaving);
    assert id in AcceptedFrom(s.tasks, s.tasks[id].ip);
    MoveSizes(s.tasks, id, task);
    var t := Advanced(s, id, now);
    forall ip ensures Count(t.counts, ip) == |AcceptedFrom(t.tasks, ip)| && Count(t.counts, ip) <= MAX_CONNECTIONS_PER_IP {
      MoveAccepted(s.tasks, id, task, ip);
    }
  }

  lemma NextKeepsInv(s: State, step: Step)
    requires Inv(s) && Enabled(s, step)
    ensures Inv(Next(s, step))
  {
    match step
    case Arrive(id, ip) => ArriveKeepsInv(s, id, ip);
    case Advance(id, now) =>
      match s.tasks[id].phase {
        case New => UncountedStepKeepsInv(s, id, now);
        case Cleaned => UncountedStepKeepsInv(s, id, now);
        case Checked => FetchAddKeepsInv(s, id, now);
        case Reserved => PerIpKeepsInv(s, id, now);
        case Accepted => DisconnectKeepsInv(s, id, now);
        case _ => FetchSubKeepsInv(s, id, now);
      }
  }

  lemma {:induction false} EveryInterleavingKeepsInv(from: State, steps: seq<Step>, reached: State)
    requires Inv(from) && Steps(from, steps, reached)
    ensures Inv(reached)
    decreases |steps|
  {
    if steps != [] {
      NextKeepsInv(from, steps[0]);
      EveryInterleavingKeepsInv(Next(from, steps[0]), steps[1..], reached);
    }
  }

  lemma InitialInv()
    ensures Inv(INITIAL)
  {
  }

  // ---------- Conservation and limits ----------

  ghost function Sum(counts: map<Ip, nat>): nat {
    if counts == map[] then 0
    else
      var ip :| ip in counts;
      counts[ip] + Sum(counts - {ip})
  }

  ghost function From(acc: map<TaskId, Ip>, ip: Ip): set<TaskId> {
    set t | t in acc && acc[t] == ip
  }

  lemma {:induction false} SumIsSize(counts: map<Ip, nat>, acc: map<TaskId, Ip>)
    requires forall ip :: Count(counts, ip) == |From(acc, ip)|
    ensures Sum(counts) == |acc|
    decreases |counts|
  {
    forall t | t in acc ensures acc[t] in counts {
      assert t in From(acc, acc[t]);
    }
    if counts == map[] {
      assert acc == map[];
    } else {
      var ip :| ip in counts && Sum(counts) == counts[ip] + Sum(counts - {ip});
      var gone := From(acc, ip);
      var rest := acc - gone;
      forall x ensures Count(counts - {ip}, x) == |From(rest, x)| {
        assert From(rest, x) == if x == ip then {} else From(acc, x);
      }
      SumIsSize(counts - {ip}, rest);
      assert rest.Keys == acc.Keys - gone;
    }
  }

  lemma SumOfCounts(s: State)
    requires Inv(s)
    ensures Sum(s.counts) == |AcceptedIn(s.tasks)|
  {
    var acc := map t | t in AcceptedIn(s.tasks) :: s.tasks[t].ip;
    forall ip ensures Count(s.counts, ip) == |From(acc, ip)| {
      assert From(acc, ip) == AcceptedFrom(s.tasks, ip);
    }
    SumIsSize(s.counts, acc);
    assert acc.Keys == AcceptedIn(s.tasks);
  }

  /** At every moment of every interleaving the total is the sum of the per-IP counts plus the tasks
      between the two; no limit is exceeded and nothing is ever blocked. */
  lemma Accounting(steps: seq<Step>, s: State)
    requires Steps(INITIAL, steps, s)
    ensures s.total == Sum(s.counts) + |BetweenIn(s.tasks)|
    ensures Sum(s.counts) == |AcceptedIn(s.tasks)| <= MAX_CONNECTIONS
    ensures forall ip :: |AcceptedFrom(s.tasks, ip)| == Count(s.counts, ip) <= MAX_CONNECTIONS_PER_IP
    ensures s.blocked == map[] && forall t :: t in s.tasks ==> !s.tasks[t].phase.Blocking?
  {
    InitialInv();
    EveryInterleavingKeepsInv(INITIAL, steps, s);
    SumOfCounts(s);
    assert CountedIn(s.tasks) == AcceptedIn(s.tasks) + BetweenIn(s.tasks);
    SubsetSize(AcceptedIn(s.tasks), HoldingIn(s.tasks));
  }

  /** No `fetch_sub` of any interleaving finds the total at 0. */
  lemma TotalNeverUnderflows(steps: seq<Step>, s: State, id: TaskId)
    requires Steps(INITIAL, steps, s) && id in s.tasks
    requires s.tasks[id].phase.OverLimit? || s.tasks[id].phase.IpOverLimit? || s.tasks[id].phase.Leaving?
    ensures s.total > 0
  {
    InitialInv();
    EveryInterleavingKeepsInv(INITIAL, steps, s);
    FetchSubKeepsInv(s, id, 0);
  }
}

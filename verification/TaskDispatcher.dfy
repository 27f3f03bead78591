/** `TaskManager` and `Dispatcher` of network/dispatcher/task_dispatcher.rs, one call at a time. */
module TaskDispatcher {
  import opened Prelude
  import TaskSlots

  datatype NodeRole = AiTraining | SnipebotExecutor | CdnStorageNode | RedisNode | WalletNode | EdgeCompute
    | Master | Slave | Worker | Unknown

  datatype Task = TrainAi | ExecuteSnipebot | StoreCdn | CacheRedis | ProcessWallet | ComputeEdge
    | MasterNode | SlaveNode | WorkerNode | UnknownTask

  function TaskFor(role: NodeRole): Task {
    match role
    case AiTraining => TrainAi
    case SnipebotExecutor => ExecuteSnipebot
    case CdnStorageNode => StoreCdn
    case RedisNode => CacheRedis
    case WalletNode => ProcessWallet
    case EdgeCompute => ComputeEdge
    case Master => MasterNode
    case Slave => SlaveNode
    case Worker => WorkerNode
    case Unknown => UnknownTask
  }

  /** Which task belongs to which role. */
  predicate Belongs(task: Task, role: NodeRole) {
    && (task == TrainAi <==> role == AiTraining)
    && (task == ExecuteSnipebot <==> role == SnipebotExecutor)
    && (task == StoreCdn <==> role == CdnStorageNode)
    && (task == CacheRedis <==> role == RedisNode)
    && (task == ProcessWallet <==> role == WalletNode)
    && (task == ComputeEdge <==> role == EdgeCompute)
    && (task == MasterNode <==> role == Master)
    && (task == SlaveNode <==> role == Slave)
    && (task == WorkerNode <==> role == Worker)
    && (task == UnknownTask <==> role == Unknown)
  }

  /** `tasks` holds the task of each role, in order, or the fallback for a profile without roles. */
  ghost predicate Assigns(roles: seq<NodeRole>, tasks: seq<Task>) {
    if roles == [] then tasks == [UnknownTask]
    else |tasks| == |roles| && forall i :: 0 <= i < |roles| ==> Belongs(tasks[i], roles[i])
  }

  class TaskManager {
    var currentTasks: nat

    constructor ()
      ensures currentTasks == 0
    {
      currentTasks := 0;
    }

    method CompareExchange(expected: nat, desired: nat) returns (ok: bool)
      modifies this
      ensures ok <==> old(currentTasks) == expected
      ensures currentTasks == if ok then desired else old(currentTasks)
    {
      if currentTasks == expected {
        currentTasks := desired;
        return true;
      }
      return false;
    }

    /** `others(k, c)` is what the other threads make of the counter between the load of attempt `k`, which
        read `c`, and the exchange of that attempt. */
    method TryStartTask(others: (nat, nat) -> nat) returns (ok: bool, ghost attempt: nat)
      modifies this
      ensures attempt <= TaskSlots.MAX_RETRY_ATTEMPTS
      ensures AllLost(others, old(currentTasks), attempt)
      ensures ok ==>
                && attempt < TaskSlots.MAX_RETRY_ATTEMPTS
                && Read(others, old(currentTasks), attempt) < TaskSlots.MAX_CONCURRENT_TASKS
                && Undisturbed(others, old(currentTasks), attempt)
                && currentTasks == Read(others, old(currentTasks), attempt) + 1
      ensures !ok ==>
                && (attempt == TaskSlots.MAX_RETRY_ATTEMPTS
                    || Read(others, old(currentTasks), attempt) >= TaskSlots.MAX_CONCURRENT_TASKS)
                && currentTasks == Read(others, old(currentTasks), attempt)
      ensures Alone(others) ==>
                && (ok <==> old(currentTasks) < TaskSlots.MAX_CONCURRENT_TASKS)
                && currentTasks == old(currentTasks) + if ok then 1 else 0
    {
      AloneDecides(others, currentTasks);
      ghost var start := currentTasks;
      attempt := 0;
      var attempts := 0;
      while attempts < TaskSlots.MAX_RETRY_ATTEMPTS
        invariant 0 <= attempts <= TaskSlots.MAX_RETRY_ATTEMPTS && attempt == attempts
        invariant currentTasks == Read(others, start, attempts)
        invariant AllLost(others, start, attempts)
      {
        var current := currentTasks;
        if current >= TaskSlots.MAX_CONCURRENT_TASKS {
          return false, attempt;
        }
        currentTasks := others(attempts, current);
        assert currentTasks == Read(others, start, attempts + 1);
        var exchanged := CompareExchange(current, current + 1);
        if exchanged {
          return true, attempt;
        }
        attempts := attempts + 1;
        attempt := attempts;
      }
      return false, attempt;
    }

    method FinishTask()
      modifies this
      ensures currentTasks == Finished(old(currentTasks))
    {
      var prev := currentTasks;
      currentTasks := if prev == 0 then WORD - 1 else prev - 1;
      if prev == 0 {
        currentTasks := 0;
      }
    }

    /** Takes a slot and gives it back before returning, on both paths. `during` is what the other threads
        make of the counter while the roles are mapped. */
    method MapRolesToTasks(roles: seq<NodeRole>, others: (nat, nat) -> nat, during: nat -> nat)
      returns (tasks: seq<Task>, ghost attempt: nat)
      modifies this
      ensures attempt <= TaskSlots.MAX_RETRY_ATTEMPTS && AllLost(others, old(currentTasks), attempt)
      ensures tasks == [] || Assigns(roles, tasks)
      ensures tasks == [] ==>
                && (attempt == TaskSlots.MAX_RETRY_ATTEMPTS
                    || Read(others, old(currentTasks), attempt) >= TaskSlots.MAX_CONCURRENT_TASKS)
                && currentTasks == Read(others, old(currentTasks), attempt)
      ensures tasks != [] ==>
                && Read(others, old(currentTasks), attempt) < TaskSlots.MAX_CONCURRENT_TASKS
                && Undisturbed(others, old(currentTasks), attempt)
                && currentTasks == Finished(during(Read(others, old(currentTasks), attempt) + 1))
      ensures Alone(others) && (forall c :: during(c) == c) ==>
                && currentTasks == AfterCall(old(currentTasks), Sync)
                && (tasks == [] <==> old(currentTasks) >= TaskSlots.MAX_CONCURRENT_TASKS)
    {
      var started;
      started, attempt := TryStartTask(others);
      if !started {
        return [], attempt;
      }
      tasks := [];
      for i := 0 to |roles|
        invariant |tasks| == i && forall j :: 0 <= j < i ==> tasks[j] == TaskFor(roles[j])
        invariant currentTasks == Read(others, old(currentTasks), attempt) + 1
      {
        tasks := tasks + [TaskFor(roles[i])];
      }
      currentTasks := during(currentTasks);
      FinishTask();
      if tasks == [] {
        tasks := [UnknownTask];
      }
    }

    /** Takes a slot and keeps it: the caller is expected to give it back. */
    method MapRolesToTasksAsync(roles: seq<NodeRole>, others: (nat, nat) -> nat)
      returns (r: Result<seq<Task>, string>, ghost attempt: nat)
      modifies this
      ensures attempt <= TaskSlots.MAX_RETRY_ATTEMPTS && AllLost(others, old(currentTasks), attempt)
      ensures r.Ok? ==>
                && Assigns(roles, r.value)
                && Read(others, old(currentTasks), attempt) < TaskSlots.MAX_CONCURRENT_TASKS
                && Undisturbed(others, old(currentTasks), attempt)
                && currentTasks == Read(others, old(currentTasks), attempt) + 1
      ensures r.Err? ==>
                && (attempt == TaskSlots.MAX_RETRY_ATTEMPTS
                    || Read(others, old(currentTasks), attempt) >= TaskSlots.MAX_CONCURRENT_TASKS)
                && currentTasks == Read(others, old(currentTasks), attempt)
      ensures Alone(others) ==>
                && currentTasks == AfterCall(old(currentTasks), Async)
                && (r.Ok? <==> old(currentTasks) < TaskSlots.MAX_CONCURRENT_TASKS)
    {
      var started;
      started, attempt := TryStartTask(others);
      if !started {
        return Err("Max concurrent tasks reached, cannot start new task"), attempt;
      }
      if roles == [] {
        return Ok([UnknownTask]), attempt;
      }
      var tasks := [];
      for i := 0 to |roles|
        invariant |tasks| == i && forall j :: 0 <= j < i ==> tasks[j] == TaskFor(roles[j])
        invariant currentTasks == Read(others, old(currentTasks), attempt) + 1
      {
        tasks := tasks + [TaskFor(roles[i])];
      }
      return Ok(tasks), attempt;
    }
  }

  /** The counter after a `finish_task` that finds it at `c`. */
  function Finished(c: nat): nat {
    if c == 0 then 0 else c - 1
  }

  /** The other threads leave the counter as it is. */
  ghost predicate Alone(others: (nat, nat) -> nat) {
    forall k, c :: others(k, c) == c
  }

  /** With nobody else at work the first attempt decides. */
  lemma AloneDecides(others: (nat, nat) -> nat, start: nat)
    ensures Alone(others) ==> Undisturbed(others, start, 0)
  {
  }

  /** The counter as attempt `k` reads it. */
  ghost function Read(others: (nat, nat) -> nat, start: nat, k: nat): nat {
    if k == 0 then start else others(k - 1, Read(others, start, k - 1))
  }

  ghost predicate Undisturbed(others: (nat, nat) -> nat, start: nat, k: nat) {
    Read(others, start, k + 1) == Read(others, start, k)
  }

  /** The first `n` attempts found a free slot, and lost the exchange to a change by another thread. */
  ghost predicate AllLost(others: (nat, nat) -> nat, start: nat, n: nat) {
    forall j :: 0 <= j < n ==>
      Read(others, start, j) < TaskSlots.MAX_CONCURRENT_TASKS && !Undisturbed(others, start, j)
  }

  // ---------- Runs of calls ----------

  datatype Call = Sync | Async

  ghost function AfterCall(counter: nat, call: Call): nat {
    if call == Async && counter < TaskSlots.MAX_CONCURRENT_TASKS then counter + 1 else counter
  }

  ghost function AfterCalls(counter: nat, calls: seq<Call>): nat
    decreases |calls|
  {
    if calls == [] then counter else AfterCalls(AfterCall(counter, calls[0]), calls[1..])
  }

  ghost function AsyncCalls(calls: seq<Call>): nat {
    if calls == [] then 0 else (if calls[0] == Async then 1 else 0) + AsyncCalls(calls[1..])
  }

  /** If nobody gives slots back, any mix of calls raises the counter by one per asynchronous call until
      it is full, and from then on every call is refused. */
  lemma {:induction false} AsyncCallsFillTheCounter(counter: nat, calls: seq<Call>)
    requires counter <= TaskSlots.MAX_CONCURRENT_TASKS
    ensures AfterCalls(counter, calls) ==
            if counter + AsyncCalls(calls) <= TaskSlots.MAX_CONCURRENT_TASKS then counter + AsyncCalls(calls)
            else TaskSlots.MAX_CONCURRENT_TASKS
    decreases |calls|
  {
    if calls != [] {
      AsyncCallsFillTheCounter(AfterCall(counter, calls[0]), calls[1..]);
    }
  }
}

/** network/node_manager/scheduler.rs: task lists per node, and a map of last-update times keyed by the
    text "node:task". Calls are taken one at a time; instants are nanoseconds. */
module SchedulerIndex {
  import opened Prelude

  const CLEANUP_INACTIVE_AFTER_SEC := 1800

  datatype Error = EmptyNode | EmptyTask | ColonInTask | NotFound

  datatype Store = Store(tasks: map<string, seq<string>>, lastUpdate: map<string, nat>)

  predicate ColonFree(s: string) {
    forall i :: 0 <= i < |s| ==> s[i] != ':'
  }

  function Key(node: string, task: string): string {
    node + ":" + task
  }

  /** `split(':').next()`: the text before the first colon. */
  function NodeOf(key: string): string {
    if key == [] || key[0] == ':' then [] else [key[0]] + NodeOf(key[1..])
  }

  predicate Expired(last: nat, now: nat) {
    Seconds(now, last) > CLEANUP_INACTIVE_AFTER_SEC
  }

  function NotTask(task: string): string -> bool {
    (t: string) => t != task
  }

  /** The tasks of a node whose key is not among those being removed. */
  function KeyNotIn(node: string, keys: set<string>): string -> bool {
    (t: string) => Key(node, t) !in keys
  }

  ghost predicate Has(s: Store, node: string, task: string) {
    node in s.tasks && task in s.tasks[node]
  }

  ghost function Scheduled(s: Store, node: string, task: string, now: nat): Store {
    Store(s.tasks[node := (if node in s.tasks then s.tasks[node] else []) + [task]], s.lastUpdate[Key(node, task) := now])
  }

  ghost function Cancelled(s: Store, node: string, task: string): Store {
    Store(if node in s.tasks then s.tasks[node := Filter(NotTask(task), s.tasks[node])] else s.tasks,
          s.lastUpdate - {Key(node, task)})
  }

  ghost function ExpiredKeys(s: Store, now: nat): set<string> {
    set k | k in s.lastUpdate && Expired(s.lastUpdate[k], now)
  }

  /** The nodes the cleanup looks at: those named before the first colon of an expired key. */
  ghost predicate Visited(s: Store, now: nat, node: string) {
    exists k :: k in ExpiredKeys(s, now) && NodeOf(k) == node
  }

  ghost function Cleaned(s: Store, now: nat): Store {
    Store(map n | n in s.tasks ::
            if Visited(s, now, n) then Filter(KeyNotIn(n, ExpiredKeys(s, now)), s.tasks[n]) else s.tasks[n],
          s.lastUpdate - ExpiredKeys(s, now))
  }

  // ---------- The service ----------

  class DefaultSchedulerService {
    var tasks: map<string, seq<string>>
    var taskLastUpdate: map<string, nat>

    ghost function Contents(): Store
      reads this
    {
      Store(tasks, taskLastUpdate)
    }

    constructor ()
      ensures Contents() == Store(map[], map[])
    {
      tasks := map[];
      taskLastUpdate := map[];
    }

    method ScheduleTask(node: string, task: string, now: nat) returns (r: Result<(), Error>)
      modifies this
      ensures r == if node == [] then Err(EmptyNode) else if task == [] then Err(EmptyTask)
                   else if !ColonFree(task) then Err(ColonInTask) else Ok(())
      ensures Contents() == if r.Ok? then Scheduled(old(Contents()), node, task, now) else old(Contents())
    {
      if node == [] {
        return Err(EmptyNode);
      }
      if task == [] {
        return Err(EmptyTask);
      }
      if !ColonFree(task) {
        return Err(ColonInTask);
      }
      var mine := if node in tasks then tasks[node] else [];
      tasks := tasks[node := mine + [task]];
      taskLastUpdate := taskLastUpdate[Key(node, task) := now];
      return Ok(());
    }

    method GetScheduledTasks(node: string) returns (r: Result<seq<string>, Error>)
      ensures r == if node == [] then Err(EmptyNode) else Ok(if node in tasks then tasks[node] else [])
      ensures r.Ok? ==> forall t :: t in r.value <==> Has(Contents(), node, t)
    {
      if node == [] {
        return Err(EmptyNode);
      }
      return Ok(if node in tasks then tasks[node] else []);
    }

    /** Removes every occurrence; the key goes even when the task was not found. */
    method CancelTask(node: string, task: string) returns (r: Result<(), Error>)
      modifies this
      ensures r == if node == [] then Err(EmptyNode) else if task == [] then Err(EmptyTask)
                   else if Has(old(Contents()), node, task) then Ok(()) else Err(NotFound)
      ensures Contents() == if node == [] || task == [] then old(Contents()) else Cancelled(old(Contents()), node, task)
    {
      if node == [] {
        return Err(EmptyNode);
      }
      if task == [] {
        return Err(EmptyTask);
      }
      var found := false;
      if node in tasks {
        RetainFinds(tasks[node], task);
        var kept := Filter(NotTask(task), tasks[node]);
        found := |kept| < |tasks[node]|;
        tasks := tasks[node := kept];
      }
      taskLastUpdate := taskLastUpdate - {Key(node, task)};
      if found {
        return Ok(());
      }
      return Err(NotFound);
    }

    /** The second half of the cleanup: filter the lists of the nodes to check. */
    method FilterNodes(nodesToCheck: set<string>, toRemove: set<string>)
      modifies `tasks
      ensures tasks == FilteredFor(old(tasks), nodesToCheck, toRemove)
    {
      ghost var before, done := tasks, {};
      var rest := nodesToCheck;
      NothingFiltered(before, toRemove);
      while rest != {}
        invariant done + rest == nodesToCheck && done !! rest
        invariant tasks == FilteredFor(before, done, toRemove)
        decreases |rest|
      {
        var node :| node in rest;
        FilterNext(before, done, toRemove, node);
        if node in tasks {
          tasks := tasks[node := Filter(KeyNotIn(node, toRemove), tasks[node])];
        }
        rest, done := rest - {node}, done + {node};
      }
      assert done == nodesToCheck;
    }

    /** The cleanup body: collect expired keys and the nodes they name, then filter those nodes' lists. */
    method Cleanup(now: nat)
      modifies this
      ensures Contents() == Cleaned(old(Contents()), now)
    {
      ghost var s := Contents();
      var toRemove := set k | k in taskLastUpdate && Expired(taskLastUpdate[k], now);
      var nodesToCheck := set k | k in toRemove :: NodeOf(k);
      FilteredIsCleaned(s, now, toRemove, nodesToCheck);
      taskLastUpdate := taskLastUpdate - toRemove;
      FilterNodes(nodesToCheck, toRemove);
    }
  }

  // ---------- The cleanup loop ----------

  /** The lists with those of the nodes in `done` filtered. */
  ghost function FilteredFor(tasks: map<string, seq<string>>, done: set<string>, keys: set<string>): map<string, seq<string>> {
    map n | n in tasks :: if n in done then Filter(KeyNotIn(n, keys), tasks[n]) else tasks[n]
  }

  lemma NothingFiltered(tasks: map<string, seq<string>>, keys: set<string>)
    ensures FilteredFor(tasks, {}, keys) == tasks
  {
  }

  lemma FilterNext(tasks: map<string, seq<string>>, done: set<string>, keys: set<string>, node: string)
    requires node !in done
    ensures var f := FilteredFor(tasks, done, keys);
            FilteredFor(tasks, done + {node}, keys) ==
            if node in f then f[node := Filter(KeyNotIn(node, keys), f[node])] else f
  {
  }

  lemma FilteredIsCleaned(s: Store, now: nat, keys: set<string>, nodes: set<string>)
    requires keys == ExpiredKeys(s, now) && nodes == set k | k in keys :: NodeOf(k)
    ensures FilteredFor(s.tasks, nodes, keys) == Cleaned(s, now).tasks
  {
  }

  lemma {:induction false} RetainFinds(l: seq<string>, task: string)
    ensures |Filter(NotTask(task), l)| < |l| <==> task in l
  {
    if task in l {
      var i :| 0 <= i < |l| && l[i] == task;
      FilterDropsOne(NotTask(task), l, i);
    } else {
      FilterAll(NotTask(task), l);
    }
  }

  // ---------- Keys ----------

  /** A key made of colon-free parts can be read in one way only. */
  lemma KeyReadsOneWay(a: string, b: string, node: string, task: string)
    requires ColonFree(a) && ColonFree(b) && Key(a, b) == Key(node, task)
    ensures a == node && b == task
  {
    var k := Key(a, b);
    forall i | 0 <= i < |k| ensures k[i] == ':' <==> i == |a| {}
    assert k[|node|] == ':';
    assert a == k[..|a|] && node == k[..|a|];
    assert b == k[|a| + 1..] && task == k[|a| + 1..];
  }

  /** Scheduled tasks are colon-free, and that alone makes keys injective, whatever the node ids. */
  lemma KeyIsInjective(n1: string, t1: string, n2: string, t2: string)
    requires ColonFree(t1) && ColonFree(t2) && Key(n1, t1) == Key(n2, t2)
    ensures n1 == n2 && t1 == t2
  {
    var k := Key(n1, t1);
    assert k[|n1|] == ':' && k[|n2|] == ':';
    forall i | |n1| < i < |k| ensures k[i] != ':' {}
    forall i | |n2| < i < |k| ensures k[i] != ':' {
      assert k[i] == Key(n2, t2)[i];
    }
    assert n1 == k[..|n1|] && n2 == k[..|n1|];
    assert t1 == k[|n1| + 1..] && t2 == k[|n1| + 1..];
  }

  lemma {:induction false} NodeOfIsColonFree(key: string)
    ensures ColonFree(NodeOf(key))
  {
    if key != [] && key[0] != ':' {
      NodeOfIsColonFree(key[1..]);
    }
  }

  lemma {:induction false} NodeOfKey(node: string, task: string)
    requires ColonFree(node)
    ensures NodeOf(Key(node, task)) == node
  {
    if node != [] {
      assert Key(node, task)[1..] == Key(node[1..], task);
      assert Key(node, task)[0] == node[0];
      NodeOfKey(node[1..], task);
    }
  }

  // ---------- The index ----------

  /** For colon-free nodes the update times are kept for exactly the tasks in the lists. */
  ghost predicate Indexed(s: Store) {
    forall n, t :: ColonFree(n) && ColonFree(t) ==> (Has(s, n, t) <==> Key(n, t) in s.lastUpdate)
  }

  lemma ScheduleKeepsIndex(s: Store, node: string, task: string, now: nat)
    requires Indexed(s) && ColonFree(task)
    ensures Indexed(Scheduled(s, node, task, now))
  {
    var r := Scheduled(s, node, task, now);
    forall n, t | ColonFree(n) && ColonFree(t) ensures Has(r, n, t) <==> Key(n, t) in r.lastUpdate {
      if Key(n, t) == Key(node, task) {
        KeyIsInjective(n, t, node, task);
      }
      assert Has(r, n, t) <==> Has(s, n, t) || (n == node && t == task);
    }
  }

  /** Also for tasks with colons, which `cancel_task` does not reject. */
  lemma CancelKeepsIndex(s: Store, node: string, task: string)
    requires Indexed(s)
    ensures Indexed(Cancelled(s, node, task))
  {
    var r := Cancelled(s, node, task);
    forall n, t | ColonFree(n) && ColonFree(t) ensures Has(r, n, t) <==> Key(n, t) in r.lastUpdate {
      if Key(n, t) == Key(node, task) {
        KeyReadsOneWay(n, t, node, task);
      }
      if node in s.tasks {
        FilterMembers(NotTask(task), s.tasks[node]);
      }
    }
  }

  /** What the cleanup takes out of the lists, for any node id: a pair goes exactly when its own key has
      expired and its node is colon-free. Tasks of a node with a colon in its id are never cleaned up. */
  lemma CleanupRemovesIff(s: Store, now: nat, node: string, task: string)
    requires Has(s, node, task)
    ensures !Has(Cleaned(s, now), node, task) <==> Key(node, task) in ExpiredKeys(s, now) && ColonFree(node)
  {
    FilterMembers(KeyNotIn(node, ExpiredKeys(s, now)), s.tasks[node]);
    if ColonFree(node) {
      NodeOfKey(node, task);
    } else if Visited(s, now, node) {
      var k :| k in ExpiredKeys(s, now) && NodeOf(k) == node;
      NodeOfIsColonFree(k);
      assert false;
    }
  }

  lemma CleanupAddsNothing(s: Store, now: nat, node: string, task: string)
    requires Has(Cleaned(s, now), node, task)
    ensures Has(s, node, task)
  {
    FilterMembers(KeyNotIn(node, ExpiredKeys(s, now)), s.tasks[node]);
  }

  lemma CleanupKeepsIndex(s: Store, now: nat)
    requires Indexed(s)
    ensures Indexed(Cleaned(s, now))
  {
    var r := Cleaned(s, now);
    forall n, t | ColonFree(n) && ColonFree(t) ensures Has(r, n, t) <==> Key(n, t) in r.lastUpdate {
      if Has(s, n, t) {
        CleanupRemovesIff(s, now, n, t);
      } else if Has(r, n, t) {
        CleanupAddsNothing(s, now, n, t);
      }
    }
  }

  /** A cancel for a task text with a colon removes the key of another node's task. */
  lemma ColonTaskNamesAnotherPair(s: Store, node: string, part: string, task: string)
    requires Key(node + ":" + part, task) in s.lastUpdate
    ensures Key(node + ":" + part, task) !in Cancelled(s, node, part + ":" + task).lastUpdate
  {
    assert Key(node + ":" + part, task) == Key(node, part + ":" + task);
  }

  // ---------- Runs ----------

  datatype Op = Schedule(node: string, task: string, now: nat) | Cancel(node: string, task: string) | Clean(now: nat)

  ghost function Apply(s: Store, op: Op): Store {
    match op
    case Schedule(n, t, now) => if n == [] || t == [] || !ColonFree(t) then s else Scheduled(s, n, t, now)
    case Cancel(n, t) => if n == [] || t == [] then s else Cancelled(s, n, t)
    case Clean(now) => Cleaned(s, now)
  }

  ghost function After(s: Store, ops: seq<Op>): Store
    decreases |ops|
  {
    if ops == [] then s else After(Apply(s, ops[0]), ops[1..])
  }

  lemma {:induction false} EveryRunKeepsIndex(s: Store, ops: seq<Op>)
    requires Indexed(s)
    ensures Indexed(After(s, ops))
    decreases |ops|
  {
    if ops != [] {
      match ops[0] {
        case Schedule(n, t, now) => if ColonFree(t) { ScheduleKeepsIndex(s, n, t, now); }
        case Cancel(n, t) => CancelKeepsIndex(s, n, t);
        case Clean(now) => CleanupKeepsIndex(s, now);
      }
      EveryRunKeepsIndex(Apply(s, ops[0]), ops[1..]);
    }
  }

  /** Without a cancel of its node, a task of a node with a colon in its id stays for ever. */
  lemma {:induction false} ColonNodeTaskStays(s: Store, ops: seq<Op>, node: string, task: string)
    requires Has(s, node, task) && !ColonFree(node)
    requires forall op :: op in ops && op.Cancel? ==> op.node != node
    ensures Has(After(s, ops), node, task)
    decreases |ops|
  {
    if ops != [] {
      if ops[0].Clean? {
        CleanupRemovesIff(s, ops[0].now, node, task);
      }
      assert ops[0] in ops;
      ColonNodeTaskStays(Apply(s, ops[0]), ops[1..], node, task);
    }
  }
}

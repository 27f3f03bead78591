/** How long a scheduled task lives, and in what order a node's tasks are listed, over runs of calls of
    network/node_manager/scheduler.rs and in plain time. */
module SchedulerLifetime {
  import opened Prelude
  import opened SchedulerIndex

  /** The task is in its node's list and was last stamped at `t`. */
  ghost predicate StampedAt(s: Store, node: string, task: string, t: nat) {
    Has(s, node, task) && Key(node, task) in s.lastUpdate && s.lastUpdate[Key(node, task)] == t
  }

  /** The call schedules or cancels exactly this task of this node. */
  predicate Names(op: Op, node: string, task: string) {
    (op.Schedule? || op.Cancel?) && op.node == node && op.task == task
  }

  /** A cleanup half an hour and a second after `t`, or later. */
  predicate CleansAfter(op: Op, t: nat) {
    op.Clean? && op.now >= t + 1801 * NANOS
  }

  lemma OtherKey(op: Op, node: string, task: string)
    requires ColonFree(node) && ColonFree(task) && (op.Schedule? || op.Cancel?) && !Names(op, node, task)
    ensures Key(op.node, op.task) != Key(node, task)
  {
    if Key(op.node, op.task) == Key(node, task) {
      KeyReadsOneWay(node, task, op.node, op.task);
    }
  }

  lemma HasAfterOther(s: Store, op: Op, node: string, task: string)
    requires ColonFree(node) && ColonFree(task) && !op.Clean? && !Names(op, node, task)
    ensures Has(Apply(s, op), node, task) <==> Has(s, node, task)
    ensures Key(node, task) in Apply(s, op).lastUpdate <==> Key(node, task) in s.lastUpdate
    ensures Key(node, task) in s.lastUpdate ==> Apply(s, op).lastUpdate[Key(node, task)] == s.lastUpdate[Key(node, task)]
  {
    OtherKey(op, node, task);
    if op.Cancel? && op.node in s.tasks {
      FilterMembers(NotTask(op.task), s.tasks[op.node]);
    }
  }

  lemma CleanByTime(s: Store, op: Op, node: string, task: string, t: nat)
    requires ColonFree(node) && StampedAt(s, node, task, t) && op.Clean?
    ensures CleansAfter(op, t) ==> !Has(Apply(s, op), node, task)
    ensures !CleansAfter(op, t) ==> StampedAt(Apply(s, op), node, task, t)
  {
    CleanupRemovesIff(s, op.now, node, task);
    assert Key(node, task) in ExpiredKeys(s, op.now) <==> CleansAfter(op, t);
  }

  lemma {:induction false} GoneStaysGone(s: Store, ops: seq<Op>, node: string, task: string)
    requires ColonFree(node) && ColonFree(task) && !Has(s, node, task)
    requires forall op :: op in ops ==> !Names(op, node, task)
    ensures !Has(After(s, ops), node, task)
    decreases |ops|
  {
    if ops != [] {
      assert ops[0] in ops;
      if ops[0].Clean? {
        if Has(Apply(s, ops[0]), node, task) {
          CleanupAddsNothing(s, ops[0].now, node, task);
        }
      } else {
        HasAfterOther(s, ops[0], node, task);
      }
      GoneStaysGone(Apply(s, ops[0]), ops[1..], node, task);
    }
  }

  lemma {:induction false} StaysUntilCleaned(s: Store, ops: seq<Op>, node: string, task: string, t: nat)
    requires ColonFree(node) && ColonFree(task) && StampedAt(s, node, task, t)
    requires forall op :: op in ops ==> !Names(op, node, task)
    ensures Has(After(s, ops), node, task) <==> forall op :: op in ops ==> !CleansAfter(op, t)
    decreases |ops|
  {
    if ops != [] {
      var r := Apply(s, ops[0]);
      assert ops[0] in ops && forall op :: op in ops <==> op == ops[0] || op in ops[1..];
      if ops[0].Clean? {
        CleanByTime(s, ops[0], node, task, t);
      } else {
        HasAfterOther(s, ops[0], node, task);
      }
      if CleansAfter(ops[0], t) {
        GoneStaysGone(r, ops[1..], node, task);
      } else {
        StaysUntilCleaned(r, ops[1..], node, task, t);
      }
    }
  }

  /** A task scheduled at `t` for a colon-free node, and neither scheduled again nor cancelled, is listed after
      any run if and only if none of its cleanups came 1801 seconds after `t` or later. */
  lemma ScheduledTaskLives(s: Store, node: string, task: string, t: nat, ops: seq<Op>)
    requires node != [] && task != [] && ColonFree(node) && ColonFree(task)
    requires forall op :: op in ops ==> !Names(op, node, task)
    ensures Has(After(Apply(s, Schedule(node, task, t)), ops), node, task) <==>
            forall op :: op in ops && op.Clean? ==> op.now < t + 1801 * NANOS
  {
    StaysUntilCleaned(Apply(s, Schedule(node, task, t)), ops, node, task, t);
    if forall op :: op in ops ==> !CleansAfter(op, t) {
      forall op | op in ops && op.Clean? ensures op.now < t + 1801 * NANOS {
        assert !CleansAfter(op, t);
      }
    }
  }

  /** So a single cleanup decides by the time since: the limit is 1801 seconds. */
  lemma CleanupDecidesByTime(s: Store, node: string, task: string, t: nat, ops: seq<Op>, now: nat)
    requires node != [] && task != [] && ColonFree(node) && ColonFree(task) && t <= now
    requires forall op :: op in ops ==> !Names(op, node, task) && (op.Clean? ==> op.now <= now)
    ensures Has(After(Apply(s, Schedule(node, task, t)), ops + [Clean(now)]), node, task) <==> now - t < 1801 * NANOS
  {
    var all := ops + [Clean(now)];
    forall op | op in all ensures op in ops || op == Clean(now) {}
    assert Clean(now) in all;
    ScheduledTaskLives(s, node, task, t, all);
  }

  // ---------- Order ----------

  /** What the call adds to the node's list. */
  function Adds(op: Op, node: string): seq<string> {
    if op.Schedule? && op.node == node && op.task != [] && ColonFree(op.task) then [op.task] else []
  }

  /** The tasks that a run of calls schedules for a node, in order. */
  ghost function ScheduledFor(ops: seq<Op>, node: string): seq<string> {
    if ops == [] then [] else Adds(ops[0], node) + ScheduledFor(ops[1..], node)
  }

  ghost function Listed(s: Store, node: string): seq<string> {
    if node in s.tasks then s.tasks[node] else []
  }

  lemma ScheduleAppends(s: Store, op: Op, node: string)
    requires node != [] && op.Schedule?
    ensures Listed(Apply(s, op), node) == Listed(s, node) + Adds(op, node)
  {
  }

  /** Until a cancel or a cleanup comes, a node's list holds its tasks in the order in which they were
      scheduled, each as often as it was. */
  lemma {:induction false} ListedInOrder(s: Store, ops: seq<Op>, node: string)
    requires node != [] && forall op :: op in ops ==> op.Schedule?
    ensures Listed(After(s, ops), node) == Listed(s, node) + ScheduledFor(ops, node)
    decreases |ops|
  {
    if ops == [] {
      assert Listed(s, node) + [] == Listed(s, node);
    } else {
      assert ops[0] in ops;
      ScheduleAppends(s, ops[0], node);
      ListedInOrder(Apply(s, ops[0]), ops[1..], node);
      AppendAssociates(Listed(s, node), Adds(ops[0], node), ScheduledFor(ops[1..], node));
    }
  }
}

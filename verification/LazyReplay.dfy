/** The lazy-heap scheduler driven through whole sequences of operations. */
module LazyReplay {
  import opened Graphs
  import opened LazyModel
  import opened LazyInvariant
  import opened LazyProgress
  import opened LazyScheduler

  // ---------- Any sequence of operations ----------

  /** Any one of the public operations. */
  method Perform(s: Scheduler, op: Op)
    requires s.Valid()
    modifies s
    ensures s.Valid() && Step(old(s.Model()), op, s.Model())
  {
    match op {
      case Add(id, priority, due, deps) => var _ := s.AddTask(id, priority, due, deps);
      case Next(now) => var _ := s.NextTask(now);
      case Done(id, deprecated) => var _ := s.DoneTask(id, deprecated);
      case Fail(id) => var _ := s.FailTask(id);
      case Cancel(id) => var _ := s.CancelTask(id);
      case Change(id, priority, due) => var _ := s.UpdateTask(id, priority, due);
    }
  }

  lemma RunOn(states: seq<State>, ops: seq<Op>, op: Op, s: State)
    requires Run(states, ops) && Step(states[|ops|], op, s)
    ensures Run(states + [s], ops + [op])
  {
    var more, done := states + [s], ops + [op];
    forall i: nat | i < |done| ensures StepAt(more, done, i) {
      if i < |ops| {
        assert StepAt(states, ops, i);
        assert more[i] == states[i] && more[i + 1] == states[i + 1] && done[i] == ops[i];
      }
    }
  }

  /** Every sequence of operations on a new scheduler is a run. */
  method Replay(ops: seq<Op>) returns (s: Scheduler, ghost states: seq<State>)
    ensures fresh(s) && s.Valid() && Run(states, ops) && s.Model() == states[|ops|]
  {
    s := new Scheduler();
    states := [s.Model()];
    for n := 0 to |ops|
      invariant fresh(s) && s.Valid() && Run(states, ops[..n]) && s.Model() == states[n]
    {
      Perform(s, ops[n]);
      RunOn(states, ops[..n], ops[n], s.Model());
      states := states + [s.Model()];
      assert ops[..n + 1] == ops[..n] + [ops[n]];
    }
    assert ops[..|ops|] == ops;
  }

  // ---------- Running everything ----------

  /** Still to be run: live, or revived. */
  predicate Open(t: Task) {
    !Gone(t) || Queued(t)
  }

  ghost function OpenTasks(tasks: Tasks): set<Id> {
    set k | k in tasks && Open(tasks[k])
  }

  /** Acyclic, with nothing running and everything due. */
  ghost predicate Runnable(s: State, now: int) {
    && Inv(s) && AcyclicState(s)
    && forall k :: k in OpenTasks(s.tasks) ==> s.tasks[k].state != RUNNING && s.tasks[k].due <= now
  }

  /** k is as it was or nearer to its end, and not made to run. */
  ghost predicate NoWorse(a: Task, b: Task) {
    (Open(b) ==> Open(a)) && b.due == a.due && (b.state == RUNNING ==> a.state == RUNNING)
  }

  /** Announcing a task that has left brings nobody else back. */
  lemma LeftNoWorse(s: State, id: Id, st: TaskState, k: Id)
    requires id in s.tasks && k in s.tasks && k != id && (st == TaskState.DONE || Severity(st) > 0)
    ensures k in Left(s, id, st).tasks && NoWorse(s.tasks[k], Left(s, id, st).tasks[k])
  {
    var swept := WithTask(s, id, Swept(s.tasks[id], st));
    ReleasesExactly(swept, id, WatchersOf(swept.watchers, id), k);
  }

  lemma LeftItself(s: State, id: Id, st: TaskState)
    requires id in s.tasks && InvBut(WithTask(s, id, Swept(s.tasks[id], st)), id) &&
      (st == TaskState.DONE || Severity(st) > 0)
    ensures id in Left(s, id, st).tasks && !Open(Left(s, id, st).tasks[id])
  {
    var swept := WithTask(s, id, Swept(s.tasks[id], st));
    ReleasesExactly(swept, id, WatchersOf(swept.watchers, id), id);
  }

  /** One task taken and finished: the rest is as it was or nearer to its end. */
  lemma TakenShrinks(s: State, now: int, id: Id, taken: State, st: TaskState)
    requires Runnable(s, now) && NextStep(s, now, Some(id), taken) && (st == TaskState.DONE || Severity(st) > 0)
    ensures id in taken.tasks && taken.tasks[id].state == RUNNING && id in OpenTasks(s.tasks)
    ensures var after := Left(taken, id, st);
      Runnable(after, now) && OpenTasks(after.tasks) <= OpenTasks(s.tasks) - {id} && after.tasks.Keys == s.tasks.Keys
  {
    NextIsLeast(s, now, Some(id), taken);
    NextKeepsInv(s, now, Some(id), taken);
    var heap :| Pruned(s, heap) && exists e: Entry :: e.tid == id && Takes(s, now, heap, e, taken);
    var e: Entry :| e.tid == id && Takes(s, now, heap, e, taken);
    assert forall k :: k in s.tasks && k != id ==> taken.tasks[k] == s.tasks[k];
    var after := Left(taken, id, st);
    LeaveLoosens(taken, id, st);
    LeaveAndWakeKeepsInv(taken, id, st);
    FewerAcyclic(s.tasks, taken.tasks);
    LeftFewer(taken, id, st);
    FewerAcyclic(taken.tasks, after.tasks);
    LeftItself(taken, id, st);
    forall k | k in s.tasks && k != id ensures k in after.tasks && NoWorse(s.tasks[k], after.tasks[k]) {
      LeftNoWorse(taken, id, st, k);
    }
  }

  /** With nothing left to take, nothing is open. */
  lemma NothingOpen(s: State, now: int, s': State)
    requires Runnable(s, now) && NextStep(s, now, None, s')
    ensures OpenTasks(s.tasks) == {}
  {
    NextIsLeast(s, now, None, s');
    assert forall k :: k in s.tasks && Queued(s.tasks[k]) ==> k in OpenTasks(s.tasks);
    if k :| Live(s.tasks, k) {
      assert forall j :: Live(s.tasks, j) ==> j in OpenTasks(s.tasks);
      NoDeadlock(s, now, None, s', k);
    } else {
      forall k | k in s.tasks ensures !Open(s.tasks[k]) {
        assert !Live(s.tasks, k);
      }
    }
  }

  /** The end of a running task. */
  method Finish(s: Scheduler, id: Id, succeeds: bool)
    requires s.Valid() && id in s.tasks && s.tasks[id].state == RUNNING
    modifies s
    ensures s.Valid() && s.Model() == Left(old(s.Model()), id, if succeeds then TaskState.DONE else FAILED)
  {
    if succeeds {
      var _ := s.DoneTask(id, false);
    } else {
      var _ := s.FailTask(id);
    }
  }

  /** The host loop: whatever becomes of the tasks taken, it ends, and then every task is gone and none is queued. */
  method RunAll(s: Scheduler, now: int, succeeds: nat -> bool) returns (count: nat)
    requires s.Valid() && Runnable(s.Model(), now)
    modifies s
    ensures s.Valid() && s.tasks.Keys == old(s.tasks.Keys) && count <= |OpenTasks(old(s.tasks))|
    ensures forall k :: k in s.tasks ==> Gone(s.tasks[k]) && !Queued(s.tasks[k])
  {
    count := 0;
    while true
      invariant s.Valid() && Runnable(s.Model(), now) && s.tasks.Keys == old(s.tasks.Keys)
      invariant count + |OpenTasks(s.tasks)| <= |OpenTasks(old(s.tasks))|
      decreases OpenTasks(s.tasks)
    {
      ghost var before := s.Model();
      var r := s.NextTask(now);
      ghost var taken := s.Model();
      if r.None? {
        NothingOpen(before, now, taken);
        assert forall k :: k in s.tasks ==> k !in OpenTasks(before.tasks);
        return;
      }
      TakenShrinks(before, now, r.value, taken, if succeeds(count) then TaskState.DONE else FAILED);
      Finish(s, r.value, succeeds(count));
      SmallerSet(OpenTasks(s.tasks), OpenTasks(before.tasks), r.value);
      count := count + 1;
    }
  }

}

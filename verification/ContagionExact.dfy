/** The exact conditions, over all runs, under which the single-heap scheduler keeps its promises. */
module ContagionExact {
  import opened Graphs
  import opened ContagionModel
  import opened ContagionRuns
  import opened ContagionSafety
  import opened Runs

  // ---------- Exactly when the reverse edges are exact ----------

  lemma ReverseSameDeps(s: State, tasks: Tasks)
    requires SameDeps(s.tasks, tasks)
    ensures ReverseExact(s) <==> ReverseExact(s.(tasks := tasks))
  {
    forall d, k
      ensures (k in s.tasks && d in s.tasks[k].dependencies) <==> (k in tasks && d in tasks[k].dependencies)
    {}
  }

  lemma AddKeepsReverse(s: State, id: Id, t: Task)
    requires ReverseExact(s) && id !in s.tasks
    ensures ReverseExact(AfterAdd(s, id, t))
  {
    var added := State(s.tasks[id := t], Linked(s.dependents, id, t.dependencies));
    AddReverse(s, id, t);
    ReconciledSameDeps(added.tasks, added.dependents, id);
    ReverseSameDeps(added, AfterAdd(s, id, t).tasks);
  }

  lemma UpdateKeepsReverse(s: State, id: Id, u: Update)
    requires ReverseExact(s) && id in s.tasks
    ensures ReverseExact(AfterUpdate(s, id, u))
  {
    var t := WithKeys(s.tasks[id], u);
    if u.dependencies.Some? {
      var deps := ToSet(u.dependencies.value);
      var changed := State(s.tasks[id := t.(dependencies := deps)], Relinked(s.dependents, id, t.dependencies, deps));
      UpdateReverse(s, id, t.(dependencies := deps));
      ReconciledSameDeps(changed.tasks, changed.dependents, id);
      ReverseSameDeps(changed, AfterUpdate(s, id, u).tasks);
    } else {
      ReconciledSameDeps(s.tasks[id := t], s.dependents, id);
      ReverseSameDeps(s, AfterUpdate(s, id, u).tasks);
    }
  }

  /** A step keeps the reverse edges exact just when it deletes no task that another one lists. */
  lemma StepReverseIff(c: Config, s: State, op: Op, s': State)
    requires ReverseExact(s) && Step(c, s, op, s')
    ensures ReverseExact(s') <==> !DropsListed(s, op)
  {
    match op
    case Add(id, priority, executeTime, deps, now) =>
      if AddAccepted(s, c.maxTasks, c.allowForwardRefs, id, deps) {
        AddKeepsReverse(s, id, NewTask(priority, executeTime, deps, now));
      }
    case Change(id, u) =>
      if UpdateAccepted(s, c.allowForwardRefs, id, u) {
        UpdateKeepsReverse(s, id, u);
      } else {
        ReverseSameDeps(s, s'.tasks);
      }
    case Delete(id) => if id in s.tasks { DeleteReverseIff(s, id); }
    case Reset(id) =>
      if id in s.tasks && Terminal(s.tasks[id]) {
        ReconciledSameDeps(WithStatus(s.tasks, id, PENDING), s.dependents, id);
      }
      ReverseSameDeps(s, s'.tasks);
    case Execute(now, outcome) =>
      var r :| Picks(s.tasks, now, r) && s' == AfterExecute(s, r, outcome);
      ExecuteSameDeps(s, r, outcome);
      ReverseSameDeps(s, s'.tasks);
    case Clear =>
    case _ => ReverseSameDeps(s, s'.tasks);
  }

  lemma ReverseAt(c: Config, states: seq<State>, ops: seq<Op>, i: nat)
    requires Run(c, states, ops) && i < |ops| && ReverseExact(states[i])
    ensures ReverseExact(states[i + 1]) <==> !DropsListed(states[i], ops[i])
  {
    assert StepAt(c, states, ops, i);
    StepReverseIff(c, states[i], ops[i], states[i + 1]);
  }

  /** A run keeps the reverse edges exact throughout just when it deletes no task that another one lists. */
  lemma RunReverseIff(c: Config, states: seq<State>, ops: seq<Op>, n: nat)
    requires Run(c, states, ops) && n <= |ops|
    ensures (forall i :: 0 <= i <= n ==> ReverseExact(states[i])) <==>
      (forall i :: 0 <= i < n ==> !DropsListed(states[i], ops[i]))
  {
    EmptyIsSafe(states[0]);
    var good := (i: nat) => i < |states| && ReverseExact(states[i]);
    var allowed := (i: nat) => i < |ops| && !DropsListed(states[i], ops[i]);
    forall i: nat | i < n && good(i) ensures good(i + 1) <==> allowed(i) { ReverseAt(c, states, ops, i); }
    ThroughoutIff(good, allowed, n);
    assert forall i: nat :: i <= n ==> (good(i) <==> ReverseExact(states[i]));
    assert forall i: nat :: i < n ==> (allowed(i) <==> !DropsListed(states[i], ops[i]));
  }

  // ---------- Exactly when a wakeup is lost ----------

  /** Some PENDING task that only waits for id is missing from id's dependent list. */
  ghost predicate Forgotten(s: State, id: Id)
    requires id in s.tasks
  {
    exists k :: k in s.tasks && s.tasks[k].status == PENDING && id in s.tasks[k].dependencies &&
      k !in Succ(s.dependents, id)
      && Satisfied(WithStatus(s.tasks, id, COMPLETED), s.tasks[k])
  }

  /** Completing id loses a wakeup just when a task it would free is missing from id's dependent list. */
  lemma CompleteWakesIff(s: State, id: Id)
    requires NoLostWakeup(s.tasks) && CompleteAccepted(s.tasks, id)
    ensures NoLostWakeup(AfterComplete(s, id).tasks) <==> !Forgotten(s, id)
  {
    var done := WithStatus(s.tasks, id, COMPLETED);
    var after := AfterComplete(s, id).tasks;
    forall k | k in s.tasks && s.tasks[k].status == PENDING && k !in Succ(s.dependents, id)
      ensures Asleep(after, k) <==> !Satisfied(done, s.tasks[k])
      ensures id !in s.tasks[k].dependencies ==> Asleep(after, k)
    {
      assert forall d :: Done(after, d) <==> Done(done, d);
      if id !in s.tasks[k].dependencies {
        assert Asleep(s.tasks, k);
        CompleteWakes(s, id, k);
      }
    }
    forall k | k !in s.tasks || s.tasks[k].status != PENDING || k in Succ(s.dependents, id) ensures Asleep(after, k) {
      assert Asleep(s.tasks, k);
      if k in Succ(s.dependents, id) { CompleteWakes(s, id, k); }
    }
  }

  /** The step completes id although a task that only waits for it is missing from its dependent list. */
  ghost predicate FinishesForgotten(s: State, s': State, id: Id) {
    && id in s.tasks && s.tasks[id].status != COMPLETED && Done(s'.tasks, id)
    && Forgotten(s, id)
  }

  /** Whatever the step completes has every task that only waits for it on its dependent list. */
  ghost predicate WakesAll(s: State, s': State) {
    forall id :: !FinishesForgotten(s, s', id)
  }

  lemma CompleteForgets(s: State, id: Id)
    requires NoLostWakeup(s.tasks) && CompleteAccepted(s.tasks, id)
    ensures NoLostWakeup(AfterComplete(s, id).tasks) <==> WakesAll(s, AfterComplete(s, id))
  {
    CompleteWakesIff(s, id);
    assert FinishesForgotten(s, AfterComplete(s, id), id) <==> Forgotten(s, id);
  }

  /** A RUNNING task, reserved in the same step, forgets whom it forgot before. */
  lemma ReservedForgets(s: State, id: Id)
    requires id in s.tasks && s.tasks[id].status == READY
    ensures var running := s.(tasks := WithStatus(s.tasks, id, RUNNING));
      WakesAll(running, AfterComplete(running, id)) <==> WakesAll(s, AfterComplete(running, id))
  {
    var running := s.(tasks := WithStatus(s.tasks, id, RUNNING));
    var after := AfterComplete(running, id);
    assert WithStatus(running.tasks, id, COMPLETED) == WithStatus(s.tasks, id, COMPLETED);
    assert Forgotten(running, id) <==> Forgotten(s, id);
    forall j ensures FinishesForgotten(running, after, j) <==> FinishesForgotten(s, after, j) {
      assert j != id ==> !FinishesForgotten(running, after, j) && !FinishesForgotten(s, after, j);
    }
  }

  lemma ExecuteWakesIff(s: State, r: Option<Id>, outcome: Outcome)
    requires NoLostWakeup(s.tasks) && (r.Some? ==> r.value in s.tasks && s.tasks[r.value].status == READY)
    ensures var s' := AfterExecute(s, r, outcome);
      NoLostWakeup(s'.tasks) <==> WakesAll(s, s')
  {
    if r.Some? {
      var running := s.(tasks := WithStatus(s.tasks, r.value, RUNNING));
      QuietWakes(s, running);
      match outcome
      case Manual =>
      case Succeeds =>
        CompleteForgets(running, r.value);
        ReservedForgets(s, r.value);
      case Fails => QuietWakes(s, AfterExecute(s, r, outcome));
    }
  }

  /** A step that completes nothing and leaves no new task PENDING. */
  lemma QuietWakes(s: State, s': State)
    requires NoLostWakeup(s.tasks)
    requires forall d :: Done(s'.tasks, d) ==> Done(s.tasks, d)
    requires forall k :: k in s'.tasks && s'.tasks[k].status == PENDING ==>
      k in s.tasks && s.tasks[k].status == PENDING && s.tasks[k].dependencies == s'.tasks[k].dependencies
    ensures NoLostWakeup(s'.tasks) && WakesAll(s, s')
  {
    AsleepCarries(s.tasks, s'.tasks, None);
  }

  /** One record is replaced by a live one and reconciled: nothing is completed. */
  lemma ReconciledWakes(s: State, id: Id, t: Task, dependents: Graph)
    requires NoLostWakeup(s.tasks) && !Terminal(t)
    ensures var s' := State(Reconciled(s.tasks[id := t], dependents, id), dependents);
      NoLostWakeup(s'.tasks) && WakesAll(s, s')
  {
    var tasks := s.tasks[id := t];
    var after := Reconciled(tasks, dependents, id);
    AsleepCarries(s.tasks, tasks, Some(id));
    ReconcileWakes(tasks, dependents, id);
    forall d | Done(after, d) ensures Done(s.tasks, d) {}
  }

  lemma UpdateWakes(s: State, id: Id, u: Update)
    requires NoLostWakeup(s.tasks) && UpdateGuard(s.tasks, id, u).None?
    ensures NoLostWakeup(AfterUpdate(s, id, u).tasks) && WakesAll(s, AfterUpdate(s, id, u))
  {
    var t := WithKeys(s.tasks[id], u);
    if u.dependencies.Some? { t := t.(dependencies := ToSet(u.dependencies.value)); }
    ReconciledWakes(s, id, t, AfterUpdate(s, id, u).dependents);
  }

  /**
   * Whatever the reverse edges look like, a step loses a wakeup just when it completes a task that
   * has forgotten a dependent.
   */
  lemma StepWakesIff(c: Config, s: State, op: Op, s': State)
    requires NoLostWakeup(s.tasks) && Step(c, s, op, s')
    ensures NoLostWakeup(s'.tasks) <==> WakesAll(s, s')
  {
    match op
    case Add(id, priority, executeTime, deps, now) =>
      if AddAccepted(s, c.maxTasks, c.allowForwardRefs, id, deps) {
        var t := NewTask(priority, executeTime, deps, now);
        ReconciledWakes(s, id, t, Linked(s.dependents, id, t.dependencies));
      }
    case Change(id, u) =>
      if UpdateAccepted(s, c.allowForwardRefs, id, u) { UpdateWakes(s, id, u); } else { QuietWakes(s, s'); }
    case Complete(id) => if CompleteAccepted(s.tasks, id) { CompleteForgets(s, id); }
    case Reset(id) =>
      if id in s.tasks && Terminal(s.tasks[id]) {
        ReconciledWakes(s, id, s.tasks[id].(status := PENDING), s.dependents);
      }
    case Execute(now, outcome) =>
      var r :| Picks(s.tasks, now, r) && s' == AfterExecute(s, r, outcome);
      ExecuteWakesIff(s, r, outcome);
    case _ => QuietWakes(s, s');
  }

  ghost predicate WakesAllAt(states: seq<State>, i: nat)
    requires i + 1 < |states|
  {
    WakesAll(states[i], states[i + 1])
  }

  lemma WakesAt(c: Config, states: seq<State>, ops: seq<Op>, i: nat)
    requires Run(c, states, ops) && i < |ops| && NoLostWakeup(states[i].tasks)
    ensures NoLostWakeup(states[i + 1].tasks) <==> WakesAllAt(states, i)
  {
    assert StepAt(c, states, ops, i);
    StepWakesIff(c, states[i], ops[i], states[i + 1]);
  }

  /** A run loses no wakeup just when no step of it completes a task that has forgotten a dependent. */
  lemma RunWakesIff(c: Config, states: seq<State>, ops: seq<Op>, n: nat)
    requires Run(c, states, ops) && n <= |ops|
    ensures (forall i :: 0 <= i <= n ==> NoLostWakeup(states[i].tasks)) <==>
      (forall i: nat :: i < n ==> WakesAllAt(states, i))
  {
    EmptyIsSafe(states[0]);
    var good := (i: nat) => i < |states| && NoLostWakeup(states[i].tasks);
    var allowed := (i: nat) => i < |ops| && WakesAllAt(states, i);
    forall i: nat | i < n && good(i) ensures good(i + 1) <==> allowed(i) { WakesAt(c, states, ops, i); }
    ThroughoutIff(good, allowed, n);
    assert forall i: nat :: i <= n ==> (good(i) <==> NoLostWakeup(states[i].tasks));
    assert forall i: nat :: i < n ==> (allowed(i) <==> WakesAllAt(states, i));
  }

  // ---------- Exactly when a failure leaks ----------

  /** A live task on the dependent list of the origin or of a victim is a victim. */
  lemma ListedIsReached(tasks: Tasks, dependents: Graph, origin: Id, k: Id, d: Id)
    requires k in tasks && k != origin && !Terminal(tasks[k]) && k in Succ(dependents, d)
    requires d == origin || d in Victims(tasks, dependents, origin)
    ensures k in Victims(tasks, dependents, origin)
  {
    var g := FailureGraph(tasks, dependents, origin);
    ReachesSelf(g, origin);
    assert k in Succ(g, d);
    ReachesStep(g, origin, d, k);
  }

  /**
   * Some live task lists the origin or a victim, is missing from its dependent list, and is not
   * reached another way.
   */
  ghost predicate Overlooked(tasks: Tasks, dependents: Graph, origin: Id) {
    exists k, d :: k in tasks && !Terminal(tasks[k]) && d in tasks[k].dependencies && k !in Succ(dependents, d)
      && (d == origin || d in Victims(tasks, dependents, origin)) && k !in Victims(tasks, dependents, origin)
  }

  /**
   * Breaking the origin leaks just when a task that it should reach is overlooked, provided that
   * the records were contained before and only the origin has been edited since.
   */
  lemma PropagationIff(s: State, mid: State, origin: Id)
    requires Contained(s.tasks) && origin in mid.tasks && Broken(mid.tasks, origin)
    requires forall j :: j in mid.tasks && j != origin ==> j in s.tasks && mid.tasks[j] == s.tasks[j]
    ensures Contained(Propagated(mid.tasks, mid.dependents, origin)) <==> !Overlooked(mid.tasks, mid.dependents, origin)
  {
    var victims := Victims(mid.tasks, mid.dependents, origin);
    var after := Propagated(mid.tasks, mid.dependents, origin);
    if Overlooked(mid.tasks, mid.dependents, origin) {
      var k, d :| k in mid.tasks && !Terminal(mid.tasks[k]) && d in mid.tasks[k].dependencies
        && k !in Succ(mid.dependents, d) && (d == origin || d in victims) && k !in victims;
      assert !Clean(after, k, d);
    } else {
      forall k, d ensures Clean(after, k, d) {
        assert Clean(s.tasks, k, d);
        if k in after && !Terminal(after[k]) && (d == origin || d in victims) && k in Succ(mid.dependents, d) {
          ListedIsReached(mid.tasks, mid.dependents, origin, k, d);
        }
      }
    }
  }

  /** Failing or cancelling a task leaks just when a task that it should reach is overlooked. */
  lemma BreakContainsIff(s: State, id: Id, status: Status)
    requires Contained(s.tasks) && id in s.tasks && !Terminal(s.tasks[id]) && (status == FAILED || status == CANCELLED)
    ensures Contained(AfterBreak(s, id, status).tasks) <==>
      !Overlooked(WithStatus(s.tasks, id, status), s.dependents, id)
  {
    PropagationIff(s, s.(tasks := WithStatus(s.tasks, id, status)), id);
  }

  /** The record of id has been edited; reconciling it will fail it, and the failure will overlook somebody. */
  ghost predicate DoomedAndOverlooking(mid: State, id: Id)
    requires id in mid.tasks
  {
    Doomed(mid.tasks, mid.tasks[id]) && Overlooked(WithStatus(mid.tasks, id, FAILED), mid.dependents, id)
  }

  lemma ReconcileContainsIff(s: State, mid: State, id: Id)
    requires Contained(s.tasks) && id in mid.tasks && !Terminal(mid.tasks[id])
    requires forall j :: j in mid.tasks && j != id ==> j in s.tasks && mid.tasks[j] == s.tasks[j]
    ensures Contained(Reconciled(mid.tasks, mid.dependents, id)) <==> !DoomedAndOverlooking(mid, id)
  {
    if Doomed(mid.tasks, mid.tasks[id]) {
      PropagationIff(s, mid.(tasks := WithStatus(mid.tasks, id, FAILED)), id);
    } else {
      forall k, d ensures Clean(Reconciled(mid.tasks, mid.dependents, id), k, d) { assert Clean(s.tasks, k, d); }
    }
  }

  /**
   * Some live task lists a victim of the delete, is missing from its dependent list, and is not
   * reached another way.
   */
  ghost predicate OverlookedByDelete(s: State, id: Id) {
    exists k, d :: k in s.tasks && k != id && !Terminal(s.tasks[k]) && d in s.tasks[k].dependencies
      && k !in Succ(s.dependents, d) && d in Victims(s.tasks, s.dependents, id) &&
        k !in Victims(s.tasks, s.dependents, id)
  }

  lemma DeleteContainsIff(s: State, id: Id)
    requires Contained(s.tasks) && id in s.tasks
    ensures Contained(AfterDelete(s, id).tasks) <==> !OverlookedByDelete(s, id)
  {
    var victims := Victims(s.tasks, s.dependents, id);
    var after := AfterDelete(s, id).tasks;
    if OverlookedByDelete(s, id) {
      var k, d :| k in s.tasks && k != id && !Terminal(s.tasks[k]) && d in s.tasks[k].dependencies
        && k !in Succ(s.dependents, d) && d in victims && k !in victims;
      assert !Clean(after, k, d);
    } else {
      forall k, d ensures Clean(after, k, d) {
        assert Clean(s.tasks, k, d);
        if k in after && !Terminal(after[k]) && d in victims && k in Succ(s.dependents, d) {
          ListedIsReached(s.tasks, s.dependents, id, k, d);
        }
      }
    }
  }

  /** The state after a new record is stored, before it is reconciled. */
  function Added(s: State, id: Id, t: Task): State {
    State(s.tasks[id := t], Linked(s.dependents, id, t.dependencies))
  }

  /** The state after an update has been written, before the task is reconciled. */
  ghost function Edited(s: State, id: Id, u: Update): State
    requires id in s.tasks
  {
    var t := WithKeys(s.tasks[id], u);
    if u.dependencies.None? then s.(tasks := s.tasks[id := t])
    else
      var deps := ToSet(u.dependencies.value);
      State(s.tasks[id := t.(dependencies := deps)], Relinked(s.dependents, id, t.dependencies, deps))
  }

  /** id is what an Execute that ends in failure ran. */
  ghost predicate RanAndFailed(s: State, op: Op, s': State, id: Id) {
    op.Execute? && op.outcome == Fails && Picks(s.tasks, op.now, Some(id)) && s' == AfterExecute(s, Some(id), Fails)
  }

  /** What is overlooked before the step, by the task that the step is going to break. */
  ghost predicate Leaks(c: Config, s: State, op: Op, s': State) {
    match op
    case Add(id, priority, executeTime, deps, now) =>
      && AddAccepted(s, c.maxTasks, c.allowForwardRefs, id, deps)
      && DoomedAndOverlooking(Added(s, id, NewTask(priority, executeTime, deps, now)), id)
    case Change(id, u) => UpdateAccepted(s, c.allowForwardRefs, id, u) && DoomedAndOverlooking(Edited(s, id, u), id)
    case Delete(id) => id in s.tasks && OverlookedByDelete(s, id)
    case Complete(id) => false
    case Fail(id) => id in s.tasks && !Terminal(s.tasks[id]) &&
      Overlooked(WithStatus(s.tasks, id, FAILED), s.dependents, id)
    case Cancel(id) =>
      id in s.tasks && !Terminal(s.tasks[id]) && Overlooked(WithStatus(s.tasks, id, CANCELLED), s.dependents, id)
    case Reset(id) =>
      id in s.tasks && Terminal(s.tasks[id]) && DoomedAndOverlooking(s.(tasks := WithStatus(s.tasks, id, PENDING)), id)
    case Execute(now, outcome) =>
      exists id :: RanAndFailed(s, op, s', id) && Overlooked(WithStatus(s.tasks, id, FAILED), s.dependents, id)
    case Clear => false
  }

  /** A step that breaks nothing and revives nothing leaks nothing. */
  lemma QuietContains(s: State, s': State)
    requires Contained(s.tasks)
    requires forall d :: Broken(s'.tasks, d) ==> Broken(s.tasks, d)
    requires forall k :: k in s'.tasks && !Terminal(s'.tasks[k]) ==>
      k in s.tasks && !Terminal(s.tasks[k]) && s.tasks[k].dependencies == s'.tasks[k].dependencies
    ensures Contained(s'.tasks)
  {
    ContainedCarries(s.tasks, s'.tasks, None, None);
  }

  lemma UpdateContainsIff(s: State, id: Id, u: Update)
    requires Contained(s.tasks) && UpdateGuard(s.tasks, id, u).None?
    ensures Contained(AfterUpdate(s, id, u).tasks) <==> !DoomedAndOverlooking(Edited(s, id, u), id)
  {
    ReconcileContainsIff(s, Edited(s, id, u), id);
  }

  /** The failed run of a task is that of the one task that was READY before and is FAILED after. */
  lemma FailedRunIff(s: State, op: Op, s': State, id: Id)
    requires Contained(s.tasks) && RanAndFailed(s, op, s', id)
    ensures Contained(s'.tasks) <==> !Overlooked(WithStatus(s.tasks, id, FAILED), s.dependents, id)
  {
    var running := WithStatus(s.tasks, id, RUNNING);
    assert WithStatus(running, id, FAILED) == WithStatus(s.tasks, id, FAILED);
    BreakContainsIff(s, id, FAILED);
  }

  lemma ExecuteContainsIff(c: Config, s: State, op: Op, s': State)
    requires Contained(s.tasks) && op.Execute? && Step(c, s, op, s')
    ensures Contained(s'.tasks) <==> !Leaks(c, s, op, s')
  {
    var r :| Picks(s.tasks, op.now, r) && s' == AfterExecute(s, r, op.outcome);
    forall id | RanAndFailed(s, op, s', id)
      ensures Contained(s'.tasks) <==> !Overlooked(WithStatus(s.tasks, id, FAILED), s.dependents, id)
    {
      FailedRunIff(s, op, s', id);
    }
    if r.Some? && op.outcome == Fails {
      assert RanAndFailed(s, op, s', r.value);
    } else {
      QuietContains(s, s');
    }
  }

  /** Whatever the reverse edges look like, a step leaks a failure just when the task it breaks overlooks somebody. */
  lemma StepContainsIff(c: Config, s: State, op: Op, s': State)
    requires Contained(s.tasks) && Step(c, s, op, s')
    ensures Contained(s'.tasks) <==> !Leaks(c, s, op, s')
  {
    match op
    case Add(id, priority, executeTime, deps, now) =>
      if AddAccepted(s, c.maxTasks, c.allowForwardRefs, id, deps) {
        ReconcileContainsIff(s, Added(s, id, NewTask(priority, executeTime, deps, now)), id);
      }
    case Change(id, u) =>
      if UpdateAccepted(s, c.allowForwardRefs, id, u) { UpdateContainsIff(s, id, u); } else { QuietContains(s, s'); }
    case Delete(id) => if id in s.tasks { DeleteContainsIff(s, id); }
    case Complete(id) => QuietContains(s, s');
    case Fail(id) => if id in s.tasks && !Terminal(s.tasks[id]) { BreakContainsIff(s, id, FAILED); }
    case Cancel(id) => if id in s.tasks && !Terminal(s.tasks[id]) { BreakContainsIff(s, id, CANCELLED); }
    case Reset(id) =>
      if id in s.tasks && Terminal(s.tasks[id]) {
        ReconcileContainsIff(s, s.(tasks := WithStatus(s.tasks, id, PENDING)), id);
      }
    case Execute(now, outcome) => ExecuteContainsIff(c, s, op, s');
    case Clear => QuietContains(s, s');
  }

  ghost predicate LeaksAt(c: Config, states: seq<State>, ops: seq<Op>, i: nat)
    requires |states| == |ops| + 1 && i < |ops|
  {
    Leaks(c, states[i], ops[i], states[i + 1])
  }

  lemma ContainsAt(c: Config, states: seq<State>, ops: seq<Op>, i: nat)
    requires Run(c, states, ops) && i < |ops| && Contained(states[i].tasks)
    ensures Contained(states[i + 1].tasks) <==> !LeaksAt(c, states, ops, i)
  {
    assert StepAt(c, states, ops, i);
    StepContainsIff(c, states[i], ops[i], states[i + 1]);
  }

  /** A run contains every failure throughout just when no task that a step of it breaks overlooks somebody. */
  lemma RunContainsIff(c: Config, states: seq<State>, ops: seq<Op>, n: nat)
    requires Run(c, states, ops) && n <= |ops|
    ensures (forall i :: 0 <= i <= n ==> Contained(states[i].tasks)) <==>
      (forall i: nat :: i < n ==> !LeaksAt(c, states, ops, i))
  {
    EmptyIsSafe(states[0]);
    var good := (i: nat) => i < |states| && Contained(states[i].tasks);
    var allowed := (i: nat) => i < |ops| && !LeaksAt(c, states, ops, i);
    forall i: nat | i < n && good(i) ensures good(i + 1) <==> allowed(i) { ContainsAt(c, states, ops, i); }
    ThroughoutIff(good, allowed, n);
    assert forall i: nat :: i <= n ==> (good(i) <==> Contained(states[i].tasks));
    assert forall i: nat :: i < n ==> (allowed(i) <==> !LeaksAt(c, states, ops, i));
  }
}

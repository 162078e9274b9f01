/** Contagion and wakeups: what delete-free runs keep, and what a delete can break. */
module ContagionSafety {
  import opened Graphs
  import opened GraphSearch
  import opened ContagionModel
  import opened ContagionRuns

  /** The reverse edges are exactly the forward edges turned round. */
  ghost predicate ReverseExact(s: State) {
    forall d, k :: k in Succ(s.dependents, d) <==> (k in s.tasks && d in s.tasks[k].dependencies)
  }

  ghost predicate Clean(tasks: Tasks, k: Id, d: Id) {
    k in tasks && !Terminal(tasks[k]) && d in tasks[k].dependencies ==> !Broken(tasks, d)
  }

  /** No live task, x aside, has a FAILED or CANCELLED dependency, origin aside. */
  ghost predicate ContainedBut(tasks: Tasks, x: Option<Id>, origin: Option<Id>) {
    forall k, d :: x == Some(k) || origin == Some(d) || Clean(tasks, k, d)
  }

  /** No live task has a FAILED or CANCELLED dependency. */
  ghost predicate Contained(tasks: Tasks) {
    ContainedBut(tasks, None, None)
  }

  ghost predicate Asleep(tasks: Tasks, k: Id) {
    k in tasks && tasks[k].status == PENDING ==> !Satisfied(tasks, tasks[k])
  }

  ghost predicate AsleepBut(tasks: Tasks, x: Option<Id>) {
    forall k :: x == Some(k) || Asleep(tasks, k)
  }

  /** No lost wakeup: every PENDING task has a dependency that is missing or not COMPLETED. */
  ghost predicate NoLostWakeup(tasks: Tasks) {
    AsleepBut(tasks, None)
  }

  ghost predicate Safe(s: State) {
    ReverseExact(s) && Contained(s.tasks) && NoLostWakeup(s.tasks)
  }

  // ---------- Carrying the two properties from one map of records to another ----------

  /** b has no live task that a has not, and no broken one except perhaps origin. */
  lemma ContainedCarries(a: Tasks, b: Tasks, x: Option<Id>, origin: Option<Id>)
    requires ContainedBut(a, x, None)
    requires forall k :: k in b && x != Some(k) && !Terminal(b[k]) ==>
      k in a && !Terminal(a[k]) && a[k].dependencies == b[k].dependencies
    requires forall d :: Broken(b, d) && origin != Some(d) ==> Broken(a, d)
    ensures ContainedBut(b, x, origin)
  {
  }

  /** b has no PENDING task that a has not, and no COMPLETED one either. */
  lemma AsleepCarries(a: Tasks, b: Tasks, x: Option<Id>)
    requires AsleepBut(a, x)
    requires forall k :: k in b && x != Some(k) && b[k].status == PENDING ==>
      k in a && a[k].status == PENDING && a[k].dependencies == b[k].dependencies
    requires forall d :: Done(b, d) ==> Done(a, d)
    ensures AsleepBut(b, x)
  {
  }

  // ---------- Propagation ----------

  /** Whoever depends on the origin or on a victim is a victim too, if it is live. */
  lemma VictimsSpread(s: State, origin: Id, k: Id, d: Id)
    requires ReverseExact(s) && k in s.tasks && k != origin && !Terminal(s.tasks[k]) && d in s.tasks[k].dependencies
    requires d == origin || d in Victims(s.tasks, s.dependents, origin)
    ensures k in Victims(s.tasks, s.dependents, origin)
  {
    var g := FailureGraph(s.tasks, s.dependents, origin);
    ReachesSelf(g, origin);
    assert k in Succ(s.dependents, d);
    assert k in Succ(g, d);
    ReachesStep(g, origin, d, k);
  }

  /** Propagation restores containment when origin was the only leak. */
  lemma PropagationContains(s: State, origin: Id)
    requires ReverseExact(s) && ContainedBut(s.tasks, None, Some(origin))
    requires origin in s.tasks && Broken(s.tasks, origin)
    ensures Contained(Propagated(s.tasks, s.dependents, origin))
  {
    var victims := Victims(s.tasks, s.dependents, origin);
    var after := Propagated(s.tasks, s.dependents, origin);
    forall k, d ensures Clean(after, k, d) {
      if k in after && !Terminal(after[k]) && d in after[k].dependencies {
        if d == origin || d in victims { VictimsSpread(s, origin, k, d); }
        assert Clean(s.tasks, k, d);
      }
    }
  }

  lemma BreakIsSafe(s: State, id: Id, status: Status)
    requires Safe(s) && id in s.tasks && !Terminal(s.tasks[id])
    requires status == FAILED || status == CANCELLED
    ensures Safe(AfterBreak(s, id, status))
  {
    var broken := s.(tasks := WithStatus(s.tasks, id, status));
    ContainedCarries(s.tasks, broken.tasks, None, Some(id));
    PropagationContains(broken, id);
    AsleepCarries(s.tasks, AfterBreak(s, id, status).tasks, None);
  }

  /** Reconciling the one task that may have lost its wakeup leaves none lost. */
  lemma ReconcileWakes(tasks: Tasks, dependents: Graph, id: Id)
    requires id in tasks && !Terminal(tasks[id]) && AsleepBut(tasks, Some(id))
    ensures NoLostWakeup(Reconciled(tasks, dependents, id))
  {
    var after := Reconciled(tasks, dependents, id);
    AsleepCarries(tasks, after, Some(id));
    if after[id].status == PENDING {
      var d :| d in tasks[id].dependencies && !Done(tasks, d);
      assert !Done(after, d);
    }
    assert Asleep(after, id);
  }

  /** Everything but id is in order and id is live: reconciling id puts everything in order. */
  lemma ReconcileIsSafe(s: State, id: Id)
    requires ReverseExact(s) && id in s.tasks && !Terminal(s.tasks[id])
    requires ContainedBut(s.tasks, Some(id), None) && AsleepBut(s.tasks, Some(id))
    ensures Safe(s.(tasks := Reconciled(s.tasks, s.dependents, id)))
  {
    var after := Reconciled(s.tasks, s.dependents, id);
    ReconcileWakes(s.tasks, s.dependents, id);
    if Doomed(s.tasks, s.tasks[id]) {
      var broken := s.(tasks := WithStatus(s.tasks, id, FAILED));
      forall k, d | d != id ensures Clean(broken.tasks, k, d) { assert k != id ==> Clean(s.tasks, k, d); }
      PropagationContains(broken, id);
    } else {
      forall k, d ensures Clean(after, k, d) { assert k != id ==> Clean(s.tasks, k, d); }
    }
  }

  // ---------- Operations ----------

  lemma LinkedSucc(g: Graph, id: Id, deps: set<Id>, d: Id)
    ensures Succ(Linked(g, id, deps), d) == Succ(g, d) + if d in deps then {id} else {}
  {
  }

  lemma UnlinkedSucc(g: Graph, id: Id, deps: set<Id>, d: Id)
    ensures Succ(Unlinked(g, id, deps), d) == Succ(g, d) - if d in deps then {id} else {}
  {
  }

  /** Registering a new task's edges keeps the reverse edges exact. */
  lemma AddReverse(s: State, id: Id, t: Task)
    requires ReverseExact(s) && id !in s.tasks
    ensures ReverseExact(State(s.tasks[id := t], Linked(s.dependents, id, t.dependencies)))
  {
    var after := State(s.tasks[id := t], Linked(s.dependents, id, t.dependencies));
    forall d, k ensures k in Succ(after.dependents, d) <==> (k in after.tasks && d in after.tasks[k].dependencies) {
      LinkedSucc(s.dependents, id, t.dependencies, d);
      assert k in Succ(s.dependents, d) <==> (k in s.tasks && d in s.tasks[k].dependencies);
    }
  }

  /** Replacing a task's dependency list keeps the reverse edges exact. */
  lemma UpdateReverse(s: State, id: Id, t: Task)
    requires ReverseExact(s) && id in s.tasks
    ensures ReverseExact(State(s.tasks[id := t], Relinked(s.dependents, id, s.tasks[id].dependencies, t.dependencies)))
  {
    var oldDeps, deps := s.tasks[id].dependencies, t.dependencies;
    var after := State(s.tasks[id := t], Relinked(s.dependents, id, oldDeps, deps));
    forall d, k ensures k in Succ(after.dependents, d) <==> (k in after.tasks && d in after.tasks[k].dependencies) {
      UnlinkedSucc(s.dependents, id, oldDeps - deps, d);
      LinkedSucc(Unlinked(s.dependents, id, oldDeps - deps), id, deps - oldDeps, d);
      assert k in Succ(s.dependents, d) <==> (k in s.tasks && d in s.tasks[k].dependencies);
    }
  }

  lemma CompleteWakes(s: State, id: Id, k: Id)
    requires Asleep(s.tasks, k) && id in s.tasks
    requires k in s.tasks && id in s.tasks[k].dependencies ==> k in Succ(s.dependents, id)
    ensures Asleep(AfterComplete(s, id).tasks, k)
  {
  }

  lemma CompleteIsSafe(s: State, id: Id)
    requires Safe(s) && CompleteAccepted(s.tasks, id)
    ensures Safe(AfterComplete(s, id))
  {
  }

  lemma ExecuteIsSafe(s: State, r: Option<Id>, outcome: Outcome)
    requires Safe(s) && (r.Some? ==> r.value in s.tasks && s.tasks[r.value].status == READY)
    ensures Safe(AfterExecute(s, r, outcome))
  {
    if r.Some? {
      var running := s.(tasks := WithStatus(s.tasks, r.value, RUNNING));
      ContainedCarries(s.tasks, running.tasks, None, None);
      AsleepCarries(s.tasks, running.tasks, None);
      match outcome
      case Manual =>
      case Succeeds => CompleteIsSafe(running, r.value);
      case Fails => BreakIsSafe(running, r.value, FAILED);
    }
  }

  lemma AddIsSafe(s: State, id: Id, t: Task)
    requires Safe(s) && id !in s.tasks && t.status == PENDING
    ensures Safe(AfterAdd(s, id, t))
  {
    var added := State(s.tasks[id := t], Linked(s.dependents, id, t.dependencies));
    ContainedCarries(s.tasks, added.tasks, Some(id), None);
    AsleepCarries(s.tasks, added.tasks, Some(id));
    AddReverse(s, id, t);
    ReconcileIsSafe(added, id);
  }

  lemma UpdateIsSafe(s: State, id: Id, u: Update)
    requires Safe(s) && UpdateGuard(s.tasks, id, u).None?
    ensures Safe(AfterUpdate(s, id, u))
  {
    var t := WithKeys(s.tasks[id], u);
    var changed := State(s.tasks[id := t], s.dependents);
    if u.dependencies.Some? {
      var deps := ToSet(u.dependencies.value);
      UpdateReverse(s, id, t.(dependencies := deps));
      changed := State(s.tasks[id := t.(dependencies := deps)], Relinked(s.dependents, id, t.dependencies, deps));
    }
    ContainedCarries(s.tasks, changed.tasks, Some(id), None);
    AsleepCarries(s.tasks, changed.tasks, Some(id));
    ReconcileIsSafe(changed, id);
  }

  lemma RejectedUpdateIsSafe(s: State, id: Id, u: Update)
    requires Safe(s)
    ensures Safe(AfterRejectedUpdate(s, id, u))
  {
  }

  lemma ResetIsSafe(s: State, id: Id)
    requires Safe(s) && id in s.tasks && Terminal(s.tasks[id])
    ensures Safe(AfterReset(s, id))
  {
    var reset := s.(tasks := WithStatus(s.tasks, id, PENDING));
    ContainedCarries(s.tasks, reset.tasks, Some(id), None);
    AsleepCarries(s.tasks, reset.tasks, Some(id));
    ReconcileIsSafe(reset, id);
  }

  // ---------- Deletes ----------

  /** No other task lists id. */
  ghost predicate Unlisted(tasks: Tasks, id: Id) {
    forall k :: k in tasks && k != id ==> id !in tasks[k].dependencies
  }

  /** A delete keeps the reverse edges exact just when no other task lists the deleted one. */
  lemma DeleteReverseIff(s: State, id: Id)
    requires ReverseExact(s) && id in s.tasks
    ensures ReverseExact(AfterDelete(s, id)) <==> Unlisted(s.tasks, id)
  {
    var after := AfterDelete(s, id);
    var unlinked := Unlinked(s.dependents, id, s.tasks[id].dependencies);
    assert Succ(after.dependents, id) == {};
    if Unlisted(s.tasks, id) {
      forall d, k ensures k in Succ(after.dependents, d) <==> (k in after.tasks && d in after.tasks[k].dependencies) {
        UnlinkedSucc(s.dependents, id, s.tasks[id].dependencies, d);
        assert k in Succ(s.dependents, d) <==> (k in s.tasks && d in s.tasks[k].dependencies);
        assert d != id ==> Succ(after.dependents, d) == Succ(unlinked, d);
      }
    } else {
      var k :| k in s.tasks && k != id && id in s.tasks[k].dependencies;
      assert k in after.tasks && id in after.tasks[k].dependencies && k !in Succ(after.dependents, id);
    }
  }

  lemma UnlistedHasNoVictims(s: State, id: Id)
    requires ReverseExact(s) && id in s.tasks && Unlisted(s.tasks, id)
    ensures Victims(s.tasks, s.dependents, id) == {}
  {
    var g := FailureGraph(s.tasks, s.dependents, id);
    assert Succ(g, id) <= {id} by {
      forall k | k in Succ(g, id) ensures k == id {
        assert k in Succ(s.dependents, id);
        assert k in s.tasks && id in s.tasks[k].dependencies;
      }
    }
    forall n | n != id ensures !Reaches(g, id, n) { ClosedUnderSucc(g, id, n, {id}); }
  }

  lemma DeleteIsSafe(s: State, id: Id)
    requires Safe(s) && id in s.tasks && Unlisted(s.tasks, id)
    ensures Safe(AfterDelete(s, id))
  {
    DeleteReverseIff(s, id);
    UnlistedHasNoVictims(s, id);
    ContainedCarries(s.tasks, AfterDelete(s, id).tasks, None, None);
    AsleepCarries(s.tasks, AfterDelete(s, id).tasks, None);
  }

  /** The operation deletes a task that another one lists. */
  ghost predicate DropsListed(s: State, op: Op) {
    op.Delete? && op.id in s.tasks && !Unlisted(s.tasks, op.id)
  }

  lemma EmptyIsSafe(s: State)
    requires s == State(map[], map[])
    ensures Safe(s)
  {
  }

  lemma StepIsSafe(c: Config, s: State, op: Op, s': State)
    requires Safe(s) && Step(c, s, op, s') && !DropsListed(s, op)
    ensures Safe(s')
  {
    match op
    case Add(id, priority, executeTime, deps, now) =>
      if AddAccepted(s, c.maxTasks, c.allowForwardRefs, id, deps) {
        AddIsSafe(s, id, NewTask(priority, executeTime, deps, now));
      }
    case Change(id, u) =>
      if UpdateAccepted(s, c.allowForwardRefs, id, u) {
        UpdateIsSafe(s, id, u);
      } else {
        RejectedUpdateIsSafe(s, id, u);
      }
    case Delete(id) => if id in s.tasks { DeleteIsSafe(s, id); }
    case Complete(id) => if CompleteAccepted(s.tasks, id) { CompleteIsSafe(s, id); }
    case Fail(id) => if id in s.tasks && !Terminal(s.tasks[id]) { BreakIsSafe(s, id, FAILED); }
    case Cancel(id) => if id in s.tasks && !Terminal(s.tasks[id]) { BreakIsSafe(s, id, CANCELLED); }
    case Reset(id) => if id in s.tasks && Terminal(s.tasks[id]) { ResetIsSafe(s, id); }
    case Execute(now, outcome) =>
      var r :| Picks(s.tasks, now, r) && s' == AfterExecute(s, r, outcome);
      ExecuteIsSafe(s, r, outcome);
    case Clear => EmptyIsSafe(s');
  }

  /** Runs that delete only tasks nobody else lists contain every failure and lose no wakeup. */
  lemma {:induction false} CarefulRunsAreSafe(c: Config, states: seq<State>, ops: seq<Op>)
    requires Run(c, states, ops) && forall i :: 0 <= i < |ops| ==> !DropsListed(states[i], ops[i])
    ensures Safe(states[|ops|])
    decreases |ops|
  {
    if |ops| == 0 {
      EmptyIsSafe(states[0]);
    } else {
      RunPrefix(c, states, ops);
      CarefulRunsAreSafe(c, states[..|ops|], ops[..|ops| - 1]);
      StepIsSafe(c, states[|ops| - 1], ops[|ops| - 1], states[|ops|]);
    }
  }

  // ---------- Progress ----------

  ghost function LiveTasks(tasks: Tasks): set<Id> {
    set k | k in tasks && !Terminal(tasks[k])
  }

  /**
   * Failures never hold up the rest: with nothing running, everything due and no dependency of a
   * live task missing, some task is executable while a live one is left.
   */
  lemma Progress(s: State, now: int)
    requires Safe(s) && Acyclic(Forward(s.tasks)) && LiveTasks(s.tasks) != {}
    requires forall k :: k in LiveTasks(s.tasks) ==>
      s.tasks[k].status != RUNNING && s.tasks[k].executeTime <= now && s.tasks[k].dependencies <= s.tasks.Keys
    ensures exists k :: Executable(s.tasks, now, k)
  {
    var k := SinkExists(Forward(s.tasks), LiveTasks(s.tasks));
    forall d | d in s.tasks[k].dependencies ensures Done(s.tasks, d) {
      assert d in Succ(Forward(s.tasks), k) && d !in LiveTasks(s.tasks);
      assert Clean(s.tasks, k, d);
    }
    assert Asleep(s.tasks, k);
    assert Executable(s.tasks, now, k);
  }
}

/** What holds over whole runs of the single-heap scheduler. */
module ContagionRuns {
  import opened Graphs
  import opened ContagionModel

  ghost predicate StepAt(c: Config, states: seq<State>, ops: seq<Op>, i: nat)
    requires |states| == |ops| + 1 && i < |ops|
  {
    Step(c, states[i], ops[i], states[i + 1])
  }

  ghost predicate Run(c: Config, states: seq<State>, ops: seq<Op>) {
    && |states| == |ops| + 1
    && states[0] == State(map[], map[])
    && forall i: nat :: i < |ops| ==> StepAt(c, states, ops, i)
  }

  lemma RunPrefix(c: Config, states: seq<State>, ops: seq<Op>)
    requires Run(c, states, ops) && |ops| > 0
    ensures Run(c, states[..|ops|], ops[..|ops| - 1])
    ensures Step(c, states[|ops| - 1], ops[|ops| - 1], states[|ops|])
  {
    var n := |ops| - 1;
    var shorter, fewer := states[..n + 1], ops[..n];
    forall i: nat | i < n ensures StepAt(c, shorter, fewer, i) {
      assert StepAt(c, states, ops, i);
    }
    assert StepAt(c, states, ops, n);
  }

  lemma RunOn(c: Config, states: seq<State>, ops: seq<Op>, op: Op, s: State)
    requires Run(c, states, ops) && Step(c, states[|ops|], op, s)
    ensures Run(c, states + [s], ops + [op])
  {
    var more, done := states + [s], ops + [op];
    forall i: nat | i < |done| ensures StepAt(c, more, done, i) {
      if i < |ops| {
        assert StepAt(c, states, ops, i);
        assert more[i] == states[i] && more[i + 1] == states[i + 1] && done[i] == ops[i];
      }
    }
  }

  // ---------- Which operations touch the graph ----------

  lemma ReconciledSameDeps(tasks: Tasks, dependents: Graph, id: Id)
    requires id in tasks
    ensures SameDeps(tasks, Reconciled(tasks, dependents, id))
  {
  }

  lemma ExecuteSameDeps(s: State, r: Option<Id>, outcome: Outcome)
    requires r.Some? ==> r.value in s.tasks
    ensures SameDeps(s.tasks, AfterExecute(s, r, outcome).tasks)
  {
  }

  // ---------- No cycle in any run ----------

  ghost predicate WellFormed(tasks: Tasks, allowForwardRefs: bool, deps: seq<Id>) {
    forall d :: d in deps ==> d != "" && (d in tasks || allowForwardRefs)
  }

  /** An id without a record has no edges of its own, so it reaches nothing else. */
  lemma MissingReachesNothing(tasks: Tasks, d: Id, id: Id)
    requires d !in tasks && d != id
    ensures !Reaches(Forward(tasks), d, id)
  {
    var g := Forward(tasks);
    forall p ensures !WalkFromTo(g, p, d, id) {
      assert |p| >= 2 && p[0] == d ==> p[0 + 1] !in Succ(g, p[0]);
    }
  }

  /**
   * Checking the new edges against the graph before the change accepts a list exactly when the
   * changed graph is acyclic.
   */
  lemma ValidationExact(tasks: Tasks, allowForwardRefs: bool, id: Id, deps: seq<Id>)
    requires Acyclic(Forward(tasks))
    ensures GoodDeps(tasks, allowForwardRefs, id, deps) <==>
      WellFormed(tasks, allowForwardRefs, deps) && Acyclic(Forward(tasks)[id := ToSet(deps)])
  {
    var g := Forward(tasks);
    ReplaceEdges(g, id, ToSet(deps));
    ReachesSelf(g, id);
    forall d | d in deps
      ensures GoodDep(tasks, allowForwardRefs, id, d) <==>
        d != "" && (d in tasks || allowForwardRefs) && !Reaches(g, d, id)
    {
      if d !in tasks && d != id { MissingReachesNothing(tasks, d, id); }
    }
    assert forall d :: d in deps <==> d in ToSet(deps);
  }

  lemma AddAcyclic(s: State, allowForwardRefs: bool, id: Id, t: Task, deps: seq<Id>)
    requires Acyclic(Forward(s.tasks)) && GoodDeps(s.tasks, allowForwardRefs, id, deps) && t.dependencies == ToSet(deps)
    ensures Acyclic(Forward(AfterAdd(s, id, t).tasks))
  {
    ValidationExact(s.tasks, allowForwardRefs, id, deps);
    var tasks := s.tasks[id := t];
    assert Forward(tasks) == Forward(s.tasks)[id := ToSet(deps)];
    ReconciledSameDeps(tasks, Linked(s.dependents, id, t.dependencies), id);
    SameDepsForward(tasks, AfterAdd(s, id, t).tasks);
  }

  lemma UpdateAcyclic(s: State, allowForwardRefs: bool, id: Id, u: Update)
    requires Acyclic(Forward(s.tasks)) && UpdateAccepted(s, allowForwardRefs, id, u)
    ensures Acyclic(Forward(AfterUpdate(s, id, u).tasks))
  {
    var t := WithKeys(s.tasks[id], u);
    if u.dependencies.Some? {
      var deps := u.dependencies.value;
      ValidationExact(s.tasks, allowForwardRefs, id, deps);
      t := t.(dependencies := ToSet(deps));
      assert Forward(s.tasks[id := t]) == Forward(s.tasks)[id := ToSet(deps)];
    } else {
      assert Forward(s.tasks[id := t]) == Forward(s.tasks);
    }
    ReconciledSameDeps(s.tasks[id := t], AfterUpdate(s, id, u).dependents, id);
    SameDepsForward(s.tasks[id := t], AfterUpdate(s, id, u).tasks);
  }

  lemma StepStaysAcyclic(c: Config, s: State, op: Op, s': State)
    requires Acyclic(Forward(s.tasks)) && Step(c, s, op, s')
    ensures Acyclic(Forward(s'.tasks))
  {
    match op
    case Add(id, priority, executeTime, deps, now) =>
      if AddAccepted(s, c.maxTasks, c.allowForwardRefs, id, deps) {
        AddAcyclic(s, c.allowForwardRefs, id, NewTask(priority, executeTime, deps, now), deps);
      }
    case Change(id, u) =>
      if UpdateAccepted(s, c.allowForwardRefs, id, u) {
        UpdateAcyclic(s, c.allowForwardRefs, id, u);
      } else {
        SameDepsForward(s.tasks, s'.tasks);
      }
    case Delete(id) => SubgraphAcyclic(Forward(s.tasks), Forward(s'.tasks));
    case Execute(now, outcome) =>
      var r :| Picks(s.tasks, now, r) && s' == AfterExecute(s, r, outcome);
      ExecuteSameDeps(s, r, outcome);
      SameDepsForward(s.tasks, s'.tasks);
    case Reset(id) =>
      if id in s.tasks && Terminal(s.tasks[id]) {
        ReconciledSameDeps(WithStatus(s.tasks, id, PENDING), s.dependents, id);
      }
      SameDepsForward(s.tasks, s'.tasks);
    case Clear => SubgraphAcyclic(Forward(s.tasks), Forward(s'.tasks));
    case _ => SameDepsForward(s.tasks, s'.tasks);
  }

  /** No run creates a cycle: adds, forward references, updates, deletes, re-adds and resets included. */
  lemma {:induction false} EveryRunIsAcyclic(c: Config, states: seq<State>, ops: seq<Op>)
    requires Run(c, states, ops)
    ensures Acyclic(Forward(states[|ops|].tasks))
    decreases |ops|
  {
    if |ops| == 0 {
      assert Forward(states[0].tasks) == map[];
      EmptyAcyclic();
    } else {
      RunPrefix(c, states, ops);
      EveryRunIsAcyclic(c, states[..|ops|], ops[..|ops| - 1]);
      StepStaysAcyclic(c, states[|ops| - 1], ops[|ops| - 1], states[|ops|]);
    }
  }
}

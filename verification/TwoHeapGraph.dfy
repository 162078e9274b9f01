/** When the two-heap scheduler's dependency graph stays free of cycles. */
module TwoHeapGraph {
  import opened Graphs
  import opened TwoHeapModel
  import opened TwoHeapRuns

  ghost predicate AcyclicState(s: State) {
    Acyclic(Forward(s.tasks))
  }

  /** From an acyclic state, a new dependency leads back to the task exactly when the requested graph has a cycle. */
  lemma RefusedIffCyclic(tasks: Tasks, id: Id, deps: seq<Id>)
    requires Acyclic(Forward(tasks)) && id in tasks
    ensures ClosesCycle(tasks, id, Some(deps)) <==> !Acyclic(Forward(tasks)[id := ToSet(deps)])
  {
    var g := Forward(tasks);
    ReplaceEdges(g, id, ToSet(deps));
    if d :| d in deps && Reaches(g, d, id) {
      assert d in ToSet(deps);
      if d in tasks[id].dependencies {
        assert d in Succ(g, id);
        EdgeBackCloses(g, id, d);
      }
    }
  }

  lemma UpdateStaysAcyclic(s: State, id: Id, u: UpdateInput, v: Option<nat>)
    requires AcyclicState(s) && UpdateAccepted(s, id, u, v)
    ensures AcyclicState(AfterUpdate(s, id, u, NewDeps(u)))
  {
    var after := Forward(AfterUpdate(s, id, u, NewDeps(u)).tasks);
    if u.dependencies.Some? {
      RefusedIffCyclic(s.tasks, id, NewDeps(u).value);
      assert after == Forward(s.tasks)[id := ToSet(NewDeps(u).value)];
    } else {
      assert after == Forward(s.tasks);
    }
  }

  /** None of the new task's dependencies leads to the new id: what wouldCreateCycle answers beforehand. */
  ghost predicate SafeAdd(s: State, input: AddInput) {
    forall d :: d in GetOr(input.dependencies, []) ==> !Reaches(Forward(s.tasks), d, input.id)
  }

  ghost predicate Unlisted(tasks: Tasks, id: Id) {
    forall k :: k in tasks ==> id !in tasks[k].dependencies
  }

  /** addTask makes no cycle search: an accepted add keeps the graph acyclic exactly when it is safe. */
  lemma AddAcyclicIff(s: State, input: AddInput)
    requires AcyclicState(s) && AddAccepted(s, input)
    ensures AcyclicState(AfterAdd(s, input, Dedup(GetOr(input.dependencies, [])))) <==> SafeAdd(s, input)
  {
    var deps := Dedup(GetOr(input.dependencies, []));
    var g := Forward(s.tasks);
    ReplaceEdges(g, input.id, ToSet(deps));
    assert Forward(AfterAdd(s, input, deps).tasks) == g[input.id := ToSet(deps)];
    forall d ensures d in GetOr(input.dependencies, []) <==> d in ToSet(deps) {
      assert d in GetOr(input.dependencies, []) <==> d in ToSet(GetOr(input.dependencies, []));
    }
  }

  /** An id that no surviving task lists is always safe to add. */
  lemma UnlistedIsSafe(s: State, input: AddInput)
    requires AddAccepted(s, input) && Unlisted(s.tasks, input.id)
    ensures SafeAdd(s, input)
  {
    var raw := GetOr(input.dependencies, []);
    forall d | d in raw ensures !Reaches(Forward(s.tasks), d, input.id) {
      var i :| 0 <= i < |raw| && raw[i] == d;
      assert GoodDep(s.tasks, input.id, raw[i]);
      UnlistedUnreached(Forward(s.tasks), d, input.id);
    }
  }

  lemma SameForward(a: Tasks, b: Tasks)
    requires a.Keys == b.Keys && forall k :: k in a ==> a[k].dependencies == b[k].dependencies
    ensures Forward(a) == Forward(b)
  {
  }

  lemma SearchSameForward(s: State, now: Option<int>, r: Option<Id>)
    ensures Forward(AfterSearch(s, now, r).tasks) == Forward(s.tasks)
  {
    SameForward(AfterSearch(s, now, r).tasks, s.tasks);
  }

  lemma ClaimSameForward(s: State, now: Option<int>, r: Option<Id>)
    ensures Forward(AfterClaim(s, now, r).tasks) == Forward(s.tasks)
  {
    SameForward(AfterClaim(s, now, r).tasks, s.tasks);
  }

  lemma DeleteStaysAcyclic(s: State, id: Id)
    requires AcyclicState(s)
    ensures AcyclicState(AfterDelete(s, id))
  {
    SubgraphAcyclic(Forward(s.tasks), Forward(AfterDelete(s, id).tasks));
  }

  lemma StepStaysAcyclic(s: State, op: Op, s': State)
    requires AcyclicState(s) && Step(s, op, s')
    requires op.Add? && AddAccepted(s, op.input) ==> SafeAdd(s, op.input)
    ensures AcyclicState(s')
  {
    match op
    case Add(input) => if AddAccepted(s, input) { AddAcyclicIff(s, input); }
    case Update(id, u, v) => if UpdateAccepted(s, id, u, v) { UpdateStaysAcyclic(s, id, u, v); }
    case Delete(id) => DeleteStaysAcyclic(s, id);
    case Clear => EmptyAcyclic();
    case Complete(id) =>
      if id in s.tasks && PreExecution(s.tasks[id]) { SameForward(s.tasks, AfterComplete(s, id).tasks); }
    case Fail(id) => SameForward(s.tasks, AfterFail(s, id).tasks);
    case Cancel(id) => SameForward(s.tasks, AfterCancel(s, id).tasks);
    case Peek(now) =>
      var r :| FindsBest(s.tasks, Advanced(s.clock, now), r) && s' == AfterSearch(s, now, r);
      SearchSameForward(s, now, r);
    case Claim(now) =>
      var r :| FindsBest(s.tasks, Advanced(s.clock, now), r) && s' == AfterClaim(s, now, r);
      ClaimSameForward(s, now, r);
  }

  ghost predicate OnlySafeAdds(states: seq<State>, ops: seq<Op>)
    requires |states| == |ops| + 1
  {
    forall i :: 0 <= i < |ops| && ops[i].Add? && AddAccepted(states[i], ops[i].input) ==>
      SafeAdd(states[i], ops[i].input)
  }

  ghost predicate AlwaysAcyclic(states: seq<State>) {
    forall i :: 0 <= i < |states| ==> AcyclicState(states[i])
  }

  lemma {:induction false} SafeRunsStayAcyclic(states: seq<State>, ops: seq<Op>)
    requires Run(states, ops) && OnlySafeAdds(states, ops)
    ensures AlwaysAcyclic(states)
    decreases |ops|
  {
    if |ops| == 0 {
      assert Forward(states[0].tasks) == map[];
      EmptyAcyclic();
    } else {
      RunPrefix(states, ops);
      var n := |ops| - 1;
      SafeRunsStayAcyclic(states[..n + 1], ops[..n]);
      assert AcyclicState(states[..n + 1][n]);
      StepStaysAcyclic(states[n], ops[n], states[n + 1]);
      forall i | 0 <= i < |states| ensures AcyclicState(states[i]) {
        if i <= n { assert AcyclicState(states[..n + 1][i]); }
      }
    }
  }

  /** A run keeps the graph acyclic throughout exactly when every add it accepts is safe. */
  lemma AcyclicRunIff(states: seq<State>, ops: seq<Op>)
    requires Run(states, ops)
    ensures AlwaysAcyclic(states) <==> OnlySafeAdds(states, ops)
  {
    if OnlySafeAdds(states, ops) {
      SafeRunsStayAcyclic(states, ops);
    }
    if AlwaysAcyclic(states) {
      forall i | 0 <= i < |ops| && ops[i].Add? && AddAccepted(states[i], ops[i].input)
        ensures SafeAdd(states[i], ops[i].input)
      {
        assert StepAt(states, ops, i);
        assert AcyclicState(states[i]) && AcyclicState(states[i + 1]);
        AddAcyclicIff(states[i], ops[i].input);
      }
    }
  }

  /** Without deletes no task lists a new id: such runs never close a cycle. */
  lemma DeleteFreeRunsStayAcyclic(states: seq<State>, ops: seq<Op>)
    requires Run(states, ops) && forall i :: 0 <= i < |ops| ==> !ops[i].Delete?
    ensures AlwaysAcyclic(states)
  {
    forall i | 0 <= i < |ops| && ops[i].Add? && AddAccepted(states[i], ops[i].input)
      ensures SafeAdd(states[i], ops[i].input)
    {
      PrefixIsRun(states, ops, i);
      DeleteFreeRunsHaveNoDangling(states[..i + 1], ops[..i]);
      UnlistedIsSafe(states[i], ops[i].input);
    }
    AcyclicRunIff(states, ops);
  }
}

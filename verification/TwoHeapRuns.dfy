/** What holds over whole runs of the two-heap scheduler. */
module TwoHeapRuns {
  import opened Graphs
  import opened TwoHeapModel
  import opened TwoHeapInvariant

  ghost predicate Initial(s: State) {
    s.tasks == map[] && s.sequence == 0
  }

  /** A run: a path that starts with nothing stored. */
  ghost predicate Run(states: seq<State>, ops: seq<Op>) {
    Path(states, ops) && Initial(states[0])
  }

  lemma PrefixIsRun(states: seq<State>, ops: seq<Op>, n: nat)
    requires Run(states, ops) && n <= |ops|
    ensures Run(states[..n + 1], ops[..n])
  {
    var shorter, fewer := states[..n + 1], ops[..n];
    forall i: nat | i < n ensures StepAt(shorter, fewer, i) {
      assert StepAt(states, ops, i);
    }
  }

  lemma RunPrefix(states: seq<State>, ops: seq<Op>)
    requires Run(states, ops) && |ops| > 0
    ensures Run(states[..|ops|], ops[..|ops| - 1])
    ensures Step(states[|ops| - 1], ops[|ops| - 1], states[|ops|])
  {
    PrefixIsRun(states, ops, |ops| - 1);
    assert StepAt(states, ops, |ops| - 1);
  }

  // ---------- The invariant ----------

  lemma StepKeepsInv(s: State, op: Op, s': State)
    requires Inv(s) && Step(s, op, s')
    ensures Inv(s')
  {
    match op
    case Add(input) =>
      if AddAccepted(s, input) {
        DedupGood(s.tasks, input.id, GetOr(input.dependencies, []));
        AddKeepsInv(s, input, Dedup(GetOr(input.dependencies, [])));
      }
    case Update(id, u, v) =>
      if UpdateAccepted(s, id, u, v) {
        if u.dependencies.Some? { DedupGood(s.tasks, id, u.dependencies.value); }
        UpdateKeepsInv(s, id, u, NewDeps(u));
      }
    case Delete(id) => DeleteKeepsInv(s, id);
    case Complete(id) => if id in s.tasks && PreExecution(s.tasks[id]) { CompleteKeepsInv(s, id); }
    case Fail(id) => if id in s.tasks && PreExecution(s.tasks[id]) { LeaveKeepsInv(s, id, FAILED); }
    case Cancel(id) => if id in s.tasks && PreExecution(s.tasks[id]) { LeaveKeepsInv(s, id, CANCELLED); }
    case Peek(now) =>
      var r :| FindsBest(s.tasks, Advanced(s.clock, now), r) && s' == AfterSearch(s, now, r);
      SearchKeepsInv(s, now, r);
    case Claim(now) =>
      var r :| FindsBest(s.tasks, Advanced(s.clock, now), r) && s' == AfterClaim(s, now, r);
      ClaimKeepsInv(s, now, r);
    case Clear => ClearKeepsInv(s');
  }

  /** Every state of every run satisfies the invariant. */
  lemma {:induction false} EveryRunKeepsInv(states: seq<State>, ops: seq<Op>)
    requires Run(states, ops)
    ensures Inv(states[|ops|])
    decreases |ops|
  {
    if |ops| == 0 {
      ClearKeepsInv(states[0]);
    } else {
      RunPrefix(states, ops);
      EveryRunKeepsInv(states[..|ops|], ops[..|ops| - 1]);
      StepKeepsInv(states[|ops| - 1], ops[|ops| - 1], states[|ops|]);
    }
  }

  /** A READY task has no dependency that exists and is not COMPLETED. */
  lemma ReadyMeansNothingPending(s: State, k: Id, d: Id)
    requires Inv(s) && ReadyTask(s, k) && d in s.tasks[k].dependencies && d in s.tasks
    ensures s.tasks[d].status == COMPLETED
  {
    assert CounterAt(s.tasks, k);
    assert LiveUnmetOf(s.tasks, s.tasks[k].dependencies) == {};
    assert d !in LiveUnmetOf(s.tasks, s.tasks[k].dependencies);
  }

  /** No lost wakeup: a PENDING task really has a dependency that is missing or not COMPLETED. */
  lemma PendingMeansBlocked(s: State, k: Id)
    requires Inv(s) && k in s.tasks && s.tasks[k].status == PENDING
    ensures !Satisfied(s.tasks, s.tasks[k])
  {
    assert CounterAt(s.tasks, k);
    var d :| d in UnmetOf(s.tasks, s.tasks[k].dependencies);
  }

  // ---------- Claims ----------

  /** There is only one answer a search can give. */
  lemma BestIsUnique(s: State, clock: int, r1: Option<Id>, r2: Option<Id>)
    requires FindsBest(s.tasks, clock, r1) && FindsBest(s.tasks, clock, r2)
    ensures r1 == r2
  {
  }

  // ---------- When the counter is exact ----------

  ghost predicate ExactAt(tasks: Tasks, k: Id) {
    k in tasks && Waiting(tasks[k]) ==> tasks[k].unmet == Recount(tasks, tasks[k].dependencies)
  }

  ghost predicate Exact(tasks: Tasks) {
    forall k :: ExactAt(tasks, k)
  }

  /** Some waiting task lists a COMPLETED task that the operation deletes. */
  ghost predicate DeletesMetDependency(s: State, op: Op) {
    && op.Delete? && Done(s.tasks, op.id)
    && exists k :: k in s.tasks && Waiting(s.tasks[k]) && op.id in s.tasks[k].dependencies
  }

  lemma DeleteCounts(tasks: Tasks, id: Id, deps: seq<Id>)
    ensures Recount(tasks - {id}, deps) == Recount(tasks, deps) + if id in deps && Done(tasks, id) then 1 else 0
  {
    var more := if id in deps && Done(tasks, id) then {id} else {};
    assert UnmetOf(tasks - {id}, deps) == UnmetOf(tasks, deps) + more;
  }

  /** Deleting keeps every counter exact just when no waiting task has the deleted one as a met dependency. */
  lemma DeleteExactIff(s: State, id: Id)
    requires Inv(s) && Exact(s.tasks)
    ensures Exact(AfterDelete(s, id).tasks) <==> !DeletesMetDependency(s, Delete(id))
  {
    var after := AfterDelete(s, id).tasks;
    if DeletesMetDependency(s, Delete(id)) {
      var k :| k in s.tasks && Waiting(s.tasks[k]) && id in s.tasks[k].dependencies;
      assert ExactAt(s.tasks, k);
      DeleteCounts(s.tasks, id, s.tasks[k].dependencies);
      assert !ExactAt(after, k);
    } else {
      forall k ensures ExactAt(after, k) {
        assert ExactAt(s.tasks, k);
        if k in after { DeleteCounts(s.tasks, id, after[k].dependencies); }
      }
    }
  }

  lemma ReblockAllExact(tasks: Tasks, ids: set<Id>)
    requires forall k :: k !in ids ==> ExactAt(tasks, k)
    requires forall k :: k in ids && k in tasks ==> Waiting(tasks[k])
    ensures Exact(ReblockAll(tasks, ids))
  {
    var after := ReblockAll(tasks, ids);
    forall k ensures ExactAt(after, k) {
      if k in after { SameCounts(tasks, after, after[k].dependencies); }
    }
  }

  lemma LeaveExact(tasks: Tasks, id: Id, status: Status)
    requires Exact(tasks) && id in tasks && tasks[id].status != COMPLETED
    requires status == RUNNING || status == FAILED || status == CANCELLED
    ensures Exact(WithStatus(tasks, id, status))
  {
    var after := WithStatus(tasks, id, status);
    forall k ensures ExactAt(after, k) {
      assert ExactAt(tasks, k);
      if k in after { SameCounts(tasks, after, after[k].dependencies); }
    }
  }

  lemma CompleteExact(s: State, id: Id)
    requires Inv(s) && Exact(s.tasks) && id in s.tasks && PreExecution(s.tasks[id])
    ensures Exact(AfterComplete(s, id).tasks)
  {
    var done := WithStatus(s.tasks, id, COMPLETED);
    var after := AfterComplete(s, id).tasks;
    forall k ensures ExactAt(after, k) {
      assert ExactAt(s.tasks, k) && CounterAt(s.tasks, k);
      if k in after {
        SameCounts(done, after, after[k].dependencies);
        CompletedCounts(s.tasks, id, after[k].dependencies);
      }
    }
  }

  lemma AddExact(s: State, input: AddInput, deps: seq<Id>)
    requires Inv(s) && Exact(s.tasks) && input.id !in s.tasks && NoDup(deps) && GoodDeps(s.tasks, input.id, deps)
    ensures Exact(AfterAdd(s, input, deps).tasks)
  {
    var id := input.id;
    var tasks := s.tasks[id := NewTask(s, input, deps)];
    forall k | k !in Readded(tasks, id) ensures ExactAt(tasks, k) {
      assert ExactAt(s.tasks, k);
      if k in tasks && Waiting(tasks[k]) { AddedCounts(s.tasks, id, tasks[id], tasks[k].dependencies); }
    }
    ReblockAllExact(tasks, Readded(tasks, id));
  }

  lemma UpdateExact(s: State, id: Id, u: UpdateInput, deps: Option<seq<Id>>)
    requires Exact(s.tasks) && id in s.tasks && Waiting(s.tasks[id])
    ensures Exact(AfterUpdate(s, id, u, deps).tasks)
  {
    var after := AfterUpdate(s, id, u, deps).tasks;
    forall k ensures ExactAt(after, k) {
      assert ExactAt(s.tasks, k);
      if k in after { SameCounts(s.tasks, after, after[k].dependencies); }
    }
  }

  lemma SearchExact(s: State, now: Option<int>, r: Option<Id>)
    requires Exact(s.tasks)
    ensures Exact(AfterSearch(s, now, r).tasks)
  {
    var ids := Dangling(s.tasks, Advanced(s.clock, now), r);
    ReblockAllExact(s.tasks, ids);
  }

  lemma StepKeepsExact(s: State, op: Op, s': State)
    requires Inv(s) && Exact(s.tasks) && Step(s, op, s') && !DeletesMetDependency(s, op)
    ensures Exact(s'.tasks)
  {
    match op
    case Add(input) =>
      if AddAccepted(s, input) {
        DedupGood(s.tasks, input.id, GetOr(input.dependencies, []));
        AddExact(s, input, Dedup(GetOr(input.dependencies, [])));
      }
    case Update(id, u, v) => if UpdateAccepted(s, id, u, v) { UpdateExact(s, id, u, NewDeps(u)); }
    case Delete(id) => DeleteExactIff(s, id);
    case Complete(id) => if id in s.tasks && PreExecution(s.tasks[id]) { CompleteExact(s, id); }
    case Fail(id) => if id in s.tasks && PreExecution(s.tasks[id]) { LeaveExact(s.tasks, id, FAILED); }
    case Cancel(id) => if id in s.tasks && PreExecution(s.tasks[id]) { LeaveExact(s.tasks, id, CANCELLED); }
    case Peek(now) =>
      var r :| FindsBest(s.tasks, Advanced(s.clock, now), r) && s' == AfterSearch(s, now, r);
      SearchExact(s, now, r);
    case Claim(now) =>
      var r :| FindsBest(s.tasks, Advanced(s.clock, now), r) && s' == AfterClaim(s, now, r);
      SearchExact(s, now, r);
      if r.Some? { LeaveExact(AfterSearch(s, now, r).tasks, r.value, RUNNING); }
    case Clear =>
      forall k ensures ExactAt(s'.tasks, k) {}
  }

  ghost predicate NeverDeletesMet(states: seq<State>, ops: seq<Op>)
    requires |states| == |ops| + 1
  {
    forall i :: 0 <= i < |ops| ==> !DeletesMetDependency(states[i], ops[i])
  }

  /** In runs that never delete a met dependency every counter equals its recount. */
  lemma {:induction false} EveryRunKeepsExact(states: seq<State>, ops: seq<Op>)
    requires Run(states, ops) && NeverDeletesMet(states, ops)
    ensures Exact(states[|ops|].tasks)
    decreases |ops|
  {
    if |ops| == 0 {
      forall k ensures ExactAt(states[0].tasks, k) {}
    } else {
      RunPrefix(states, ops);
      EveryRunKeepsInv(states[..|ops|], ops[..|ops| - 1]);
      EveryRunKeepsExact(states[..|ops|], ops[..|ops| - 1]);
      StepKeepsExact(states[|ops| - 1], ops[|ops| - 1], states[|ops|]);
    }
  }

  // ---------- Dangling dependencies and sleeping ----------

  /** Every listed dependency exists. */
  ghost predicate NoDangling(s: State) {
    forall k, d :: k in s.tasks && d in s.tasks[k].dependencies ==> d in s.tasks
  }

  lemma StepKeepsNoDangling(s: State, op: Op, s': State)
    requires NoDangling(s) && Step(s, op, s') && !op.Delete?
    ensures NoDangling(s')
  {
    if op.Add? && AddAccepted(s, op.input) {
      DedupGood(s.tasks, op.input.id, GetOr(op.input.dependencies, []));
    } else if op.Update? && UpdateAccepted(s, op.id, op.update, op.expectedVersion) && op.update.dependencies.Some? {
      DedupGood(s.tasks, op.id, op.update.dependencies.value);
    }
  }

  lemma {:induction false} DeleteFreeRunsHaveNoDangling(states: seq<State>, ops: seq<Op>)
    requires Run(states, ops) && forall i :: 0 <= i < |ops| ==> !ops[i].Delete?
    ensures NoDangling(states[|ops|])
    decreases |ops|
  {
    if |ops| > 0 {
      RunPrefix(states, ops);
      DeleteFreeRunsHaveNoDangling(states[..|ops|], ops[..|ops| - 1]);
      StepKeepsNoDangling(states[|ops| - 1], ops[|ops| - 1], states[|ops|]);
    }
  }

  /** Without dangling dependencies READY means satisfied, so a search never blocks anything again. */
  lemma ReadyIsSatisfied(s: State, k: Id)
    requires Inv(s) && NoDangling(s) && ReadyTask(s, k)
    ensures Satisfied(s.tasks, s.tasks[k])
  {
    forall d | d in s.tasks[k].dependencies ensures Done(s.tasks, d) {
      ReadyMeansNothingPending(s, k, d);
    }
  }

  /** Sleeping until the wake time misses nothing: before it every claim comes back empty. */
  lemma NothingBeforeWake(s: State, wake: Option<int>, now: int, r: Option<Id>)
    requires IsWakeTime(s, wake) && !SomeDue(s) && (wake.Some? ==> now < wake.value)
    requires FindsBest(s.tasks, Advanced(s.clock, Some(now)), r)
    ensures r == None
  {
    if r.Some? {
      assert ReadyTask(s, r.value);
    }
  }

  /** A claim at the wake time finds a task exactly when some READY task that is due by then is satisfied. */
  lemma WakeIff(s: State, w: int, r: Option<Id>)
    requires IsWakeTime(s, Some(w)) && FindsBest(s.tasks, Advanced(s.clock, Some(w)), r)
    ensures r.Some? <==> exists k :: ReadyTask(s, k) && s.tasks[k].executeTime <= w && Satisfied(s.tasks, s.tasks[k])
  {
    var clock := Advanced(s.clock, Some(w));
    if k :| ReadyTask(s, k) && s.tasks[k].executeTime <= w && Satisfied(s.tasks, s.tasks[k]) {
      assert Executable(s.tasks, clock, k);
    }
    if r.Some? {
      assert Executable(s.tasks, clock, r.value) && ReadyTask(s, r.value);
      assert s.tasks[r.value].executeTime <= w;
    }
  }

  /** A dependency of the task has been deleted and not been added again. */
  ghost predicate ListsDeleted(tasks: Tasks, k: Id)
    requires k in tasks
  {
    exists d :: d in tasks[k].dependencies && d !in tasks
  }

  /** In a reachable state a READY task is unsatisfied for one reason only. */
  lemma ReadyUnlessDeleted(s: State, k: Id)
    requires Inv(s) && ReadyTask(s, k)
    ensures Satisfied(s.tasks, s.tasks[k]) <==> !ListsDeleted(s.tasks, k)
  {
    if !ListsDeleted(s.tasks, k) {
      forall d | d in s.tasks[k].dependencies ensures Done(s.tasks, d) { ReadyMeansNothingPending(s, k, d); }
    }
  }

  /** In every run the wake time is a false alarm exactly when every READY task due by then lists a deleted id. */
  lemma FalseAlarmIff(states: seq<State>, ops: seq<Op>, w: int, r: Option<Id>)
    requires Run(states, ops)
    requires var s := states[|ops|]; IsWakeTime(s, Some(w)) && FindsBest(s.tasks, Advanced(s.clock, Some(w)), r)
    ensures var s := states[|ops|];
      r.None? <==> forall k :: ReadyTask(s, k) && s.tasks[k].executeTime <= w ==> ListsDeleted(s.tasks, k)
  {
    var s := states[|ops|];
    EveryRunKeepsInv(states, ops);
    WakeIff(s, w, r);
    forall k | ReadyTask(s, k) ensures Satisfied(s.tasks, s.tasks[k]) <==> !ListsDeleted(s.tasks, k) {
      ReadyUnlessDeleted(s, k);
    }
  }

  /** In runs that never delete a met dependency the wake time is never a false alarm. */
  lemma WakeAlwaysFinds(states: seq<State>, ops: seq<Op>, w: int, r: Option<Id>)
    requires Run(states, ops) && NeverDeletesMet(states, ops)
    requires var s := states[|ops|]; IsWakeTime(s, Some(w)) && FindsBest(s.tasks, Advanced(s.clock, Some(w)), r)
    ensures r.Some?
  {
    var s := states[|ops|];
    EveryRunKeepsInv(states, ops);
    EveryRunKeepsExact(states, ops);
    var k :| ReadyTask(s, k) && s.tasks[k].executeTime <= w;
    assert CounterAt(s.tasks, k) && ExactAt(s.tasks, k);
    assert UnmetOf(s.tasks, s.tasks[k].dependencies) == {};
    forall d | d in s.tasks[k].dependencies ensures Done(s.tasks, d) {
      assert d !in UnmetOf(s.tasks, s.tasks[k].dependencies);
    }
    WakeIff(s, w, r);
  }

  /** Delete-free runs are such runs. */
  lemma DeleteFreeWakeFinds(states: seq<State>, ops: seq<Op>, w: int, r: Option<Id>)
    requires Run(states, ops) && forall i :: 0 <= i < |ops| ==> !ops[i].Delete?
    requires var s := states[|ops|]; IsWakeTime(s, Some(w)) && FindsBest(s.tasks, Advanced(s.clock, Some(w)), r)
    ensures r.Some?
  {
    WakeAlwaysFinds(states, ops, w, r);
  }
}

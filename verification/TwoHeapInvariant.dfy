/** What every operation of the two-heap scheduler keeps true of the task records. */
module TwoHeapInvariant {
  import opened Graphs
  import opened TwoHeapModel

  /**
   * The unmet counter never over-counts, never misses a dependency that still exists, and
   * decides between PENDING and READY.
   */
  ghost predicate CounterOk(tasks: Tasks, t: Task) {
    Waiting(t) ==>
      && |LiveUnmetOf(tasks, t.dependencies)| <= t.unmet <= Recount(tasks, t.dependencies)
      && (t.status == READY <==> t.unmet == 0)
  }

  ghost predicate CounterAt(tasks: Tasks, k: Id) {
    k in tasks ==> CounterOk(tasks, tasks[k])
  }

  ghost predicate CountersOk(tasks: Tasks) {
    forall k :: CounterAt(tasks, k)
  }

  ghost predicate ListAt(tasks: Tasks, k: Id) {
    k in tasks ==> NoDup(tasks[k].dependencies) && k !in tasks[k].dependencies
  }

  ghost predicate ListsOk(tasks: Tasks) {
    forall k :: ListAt(tasks, k)
  }

  ghost predicate SequenceAt(tasks: Tasks, sequence: nat, j: Id, k: Id) {
    && (k in tasks ==> tasks[k].sequence < sequence)
    && (j in tasks && k in tasks && tasks[j].sequence == tasks[k].sequence ==> j == k)
  }

  /** Creation sequence numbers are below the next one and never shared. */
  ghost predicate SequencesOk(tasks: Tasks, sequence: nat) {
    forall j, k :: SequenceAt(tasks, sequence, j, k)
  }

  ghost predicate Inv(s: State) {
    CountersOk(s.tasks) && ListsOk(s.tasks) && SequencesOk(s.tasks, s.sequence)
  }

  /** Same ids, and COMPLETED in one exactly when COMPLETED in the other. */
  ghost predicate SameDone(a: Tasks, b: Tasks) {
    a.Keys == b.Keys && forall d :: d in a ==> (a[d].status == COMPLETED <==> b[d].status == COMPLETED)
  }

  lemma SameCounts(a: Tasks, b: Tasks, deps: seq<Id>)
    requires SameDone(a, b)
    ensures UnmetOf(a, deps) == UnmetOf(b, deps) && LiveUnmetOf(a, deps) == LiveUnmetOf(b, deps)
  {
  }

  lemma LiveUnmetWithin(tasks: Tasks, deps: seq<Id>)
    ensures LiveUnmetOf(tasks, deps) <= UnmetOf(tasks, deps)
    ensures |LiveUnmetOf(tasks, deps)| <= Recount(tasks, deps)
  {
    SubsetSize(LiveUnmetOf(tasks, deps), UnmetOf(tasks, deps));
  }

  lemma SubsetSize<T>(a: set<T>, b: set<T>)
    requires a <= b
    ensures |a| <= |b|
  {
    assert b == a + (b - a);
  }

  lemma ReblockOk(tasks: Tasks, t: Task)
    requires UnmetOf(tasks, t.dependencies) != {}
    ensures CounterOk(tasks, Reblock(tasks, t))
  {
    LiveUnmetWithin(tasks, t.dependencies);
  }

  /** Blocking tasks again keeps the counters right, for tasks that have something unmet. */
  lemma ReblockAllKeeps(tasks: Tasks, ids: set<Id>)
    requires forall k :: k !in ids ==> CounterAt(tasks, k)
    requires forall k :: k in ids ==> k in tasks && Waiting(tasks[k]) && UnmetOf(tasks, tasks[k].dependencies) != {}
    ensures CountersOk(ReblockAll(tasks, ids))
    ensures SameDone(tasks, ReblockAll(tasks, ids))
  {
    var after := ReblockAll(tasks, ids);
    forall k ensures CounterAt(after, k) {
      if k in after {
        assert k !in ids ==> CounterAt(tasks, k);
        SameCounts(tasks, after, after[k].dependencies);
        if k in ids { ReblockOk(tasks, tasks[k]); }
      }
    }
  }

  lemma SameShape(a: Tasks, b: Tasks, sequence: nat)
    requires ListsOk(a) && SequencesOk(a, sequence) && b.Keys <= a.Keys
    requires forall k :: k in b ==> b[k].dependencies == a[k].dependencies && b[k].sequence == a[k].sequence
    ensures ListsOk(b) && SequencesOk(b, sequence)
  {
    forall k ensures ListAt(b, k) { assert ListAt(a, k); }
    forall j, k ensures SequenceAt(b, sequence, j, k) { assert SequenceAt(a, sequence, j, k); }
  }

  /** A new id whose record is not COMPLETED changes no counts except of those that list it. */
  lemma AddedCounts(tasks: Tasks, id: Id, t: Task, deps: seq<Id>)
    requires id !in tasks && id !in deps
    ensures UnmetOf(tasks[id := t], deps) == UnmetOf(tasks, deps)
    ensures LiveUnmetOf(tasks[id := t], deps) == LiveUnmetOf(tasks, deps)
  {
  }

  lemma AddKeepsShape(s: State, id: Id, t: Task)
    requires Inv(s) && id !in s.tasks && t.sequence == s.sequence && NoDup(t.dependencies) && id !in t.dependencies
    ensures ListsOk(s.tasks[id := t]) && SequencesOk(s.tasks[id := t], s.sequence + 1)
  {
    var tasks := s.tasks[id := t];
    forall k ensures ListAt(tasks, k) { assert ListAt(s.tasks, k); }
    var next := s.sequence + 1;
    forall j, k ensures SequenceAt(tasks, next, j, k) {
      assert SequenceAt(s.tasks, s.sequence, j, k) && SequenceAt(s.tasks, s.sequence, k, j);
    }
  }

  lemma AddedCounter(s: State, id: Id, t: Task, k: Id)
    requires Inv(s) && id !in s.tasks && t.status != COMPLETED && GoodDeps(s.tasks, id, t.dependencies)
    requires t.unmet == Recount(s.tasks, t.dependencies) && (t.status == READY <==> t.unmet == 0)
    requires k == id || (k in s.tasks && id !in s.tasks[k].dependencies)
    ensures CounterAt(s.tasks[id := t], k)
  {
    assert CounterAt(s.tasks, k);
    if k == id {
      assert LiveUnmetOf(s.tasks, t.dependencies) == UnmetOf(s.tasks, t.dependencies);
      AddedCounts(s.tasks, id, t, t.dependencies);
    } else {
      AddedCounts(s.tasks, id, t, s.tasks[k].dependencies);
    }
  }

  lemma AddKeepsInv(s: State, input: AddInput, deps: seq<Id>)
    requires Inv(s) && input.id !in s.tasks && NoDup(deps) && GoodDeps(s.tasks, input.id, deps)
    ensures Inv(AfterAdd(s, input, deps))
  {
    var id := input.id;
    var tasks := s.tasks[id := NewTask(s, input, deps)];
    var again := Readded(tasks, id);
    forall k | k !in again ensures CounterAt(tasks, k) {
      if k in tasks && Waiting(tasks[k]) { AddedCounter(s, id, tasks[id], k); }
    }
    forall k | k in again ensures UnmetOf(tasks, tasks[k].dependencies) != {} {
      assert id in UnmetOf(tasks, tasks[k].dependencies);
    }
    ReblockAllKeeps(tasks, again);
    AddKeepsShape(s, id, tasks[id]);
    SameShape(tasks, ReblockAll(tasks, again), s.sequence + 1);
  }

  lemma UpdateKeepsInv(s: State, id: Id, u: UpdateInput, deps: Option<seq<Id>>)
    requires Inv(s) && id in s.tasks && Waiting(s.tasks[id])
    requires deps.Some? ==> NoDup(deps.value) && id !in deps.value
    ensures Inv(AfterUpdate(s, id, u, deps))
  {
    var after := AfterUpdate(s, id, u, deps).tasks;
    forall k ensures CounterAt(after, k) {
      assert CounterAt(s.tasks, k);
      if k in after {
        SameCounts(s.tasks, after, after[k].dependencies);
        LiveUnmetWithin(after, after[k].dependencies);
      }
    }
    forall k ensures ListAt(after, k) { assert ListAt(s.tasks, k); }
    forall j, k ensures SequenceAt(after, s.sequence, j, k) { assert SequenceAt(s.tasks, s.sequence, j, k); }
  }

  lemma DeleteKeepsInv(s: State, id: Id)
    requires Inv(s)
    ensures Inv(AfterDelete(s, id))
  {
    var after := AfterDelete(s, id).tasks;
    forall k ensures CounterAt(after, k) {
      assert CounterAt(s.tasks, k);
      if k in after {
        var deps := after[k].dependencies;
        SubsetSize(LiveUnmetOf(after, deps), LiveUnmetOf(s.tasks, deps));
        SubsetSize(UnmetOf(s.tasks, deps), UnmetOf(after, deps));
      }
    }
    SameShape(s.tasks, after, s.sequence);
  }

  /** A status change between states that are not COMPLETED, of a task that leaves the queue. */
  lemma LeaveKeepsInv(s: State, id: Id, status: Status)
    requires Inv(s) && id in s.tasks && s.tasks[id].status != COMPLETED
    requires status == RUNNING || status == FAILED || status == CANCELLED
    ensures Inv(s.(tasks := WithStatus(s.tasks, id, status)))
  {
    var after := WithStatus(s.tasks, id, status);
    forall k ensures CounterAt(after, k) {
      assert CounterAt(s.tasks, k);
      if k in after { SameCounts(s.tasks, after, after[k].dependencies); }
    }
    SameShape(s.tasks, after, s.sequence);
  }

  /** Completing a task takes exactly that task off the unmet counts of those that list it. */
  lemma CompletedCounts(tasks: Tasks, id: Id, deps: seq<Id>)
    requires id in tasks && tasks[id].status != COMPLETED
    ensures var done := WithStatus(tasks, id, COMPLETED); var n := if id in deps then 1 else 0;
      && |LiveUnmetOf(tasks, deps)| == |LiveUnmetOf(done, deps)| + n
      && Recount(tasks, deps) == Recount(done, deps) + n
  {
    var done := WithStatus(tasks, id, COMPLETED);
    var gone := if id in deps then {id} else {};
    assert LiveUnmetOf(tasks, deps) == LiveUnmetOf(done, deps) + gone;
    assert UnmetOf(tasks, deps) == UnmetOf(done, deps) + gone;
  }

  lemma CompletedCounter(tasks: Tasks, id: Id, k: Id)
    requires id in tasks && PreExecution(tasks[id]) && k in tasks && CounterOk(tasks, tasks[k])
    ensures var done := WithStatus(tasks, id, COMPLETED);
      CounterOk(done, Unblock(done, Dependents(done, id))[k])
  {
    CompletedCounts(tasks, id, tasks[k].dependencies);
  }

  lemma CompleteKeepsInv(s: State, id: Id)
    requires Inv(s) && id in s.tasks && PreExecution(s.tasks[id])
    ensures Inv(AfterComplete(s, id))
  {
    var tasks := WithStatus(s.tasks, id, COMPLETED);
    var after := AfterComplete(s, id).tasks;
    forall k ensures CounterAt(after, k) {
      if k in after {
        assert CounterAt(s.tasks, k);
        SameCounts(tasks, after, after[k].dependencies);
        CompletedCounter(s.tasks, id, k);
      }
    }
    SameShape(s.tasks, after, s.sequence);
  }

  lemma SearchKeepsInv(s: State, now: Option<int>, r: Option<Id>)
    requires Inv(s)
    ensures Inv(AfterSearch(s, now, r))
    ensures SameDone(s.tasks, AfterSearch(s, now, r).tasks)
  {
    var ids := Dangling(s.tasks, Advanced(s.clock, now), r);
    forall k | k in s.tasks && k in ids ensures UnmetOf(s.tasks, s.tasks[k].dependencies) != {} {
      var d :| d in s.tasks[k].dependencies && !Done(s.tasks, d);
      assert d in UnmetOf(s.tasks, s.tasks[k].dependencies);
    }
    ReblockAllKeeps(s.tasks, ids);
    SameShape(s.tasks, ReblockAll(s.tasks, ids), s.sequence);
  }

  lemma ClaimKeepsInv(s: State, now: Option<int>, r: Option<Id>)
    requires Inv(s) && FindsBest(s.tasks, Advanced(s.clock, now), r)
    ensures Inv(AfterClaim(s, now, r))
  {
    SearchKeepsInv(s, now, r);
    if r.Some? {
      LeaveKeepsInv(AfterSearch(s, now, r), r.value, RUNNING);
    }
  }

  lemma ClearKeepsInv(s: State)
    requires s.tasks == map[]
    ensures Inv(s)
  {
  }
}

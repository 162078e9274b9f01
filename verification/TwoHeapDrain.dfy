/** Claiming and completing until a claim comes back empty. */
module TwoHeapDrain {
  import opened Graphs
  import opened GraphSearch
  import opened TwoHeapModel
  import opened TwoHeapInvariant
  import opened TwoHeapRuns
  import opened TwoHeapGraph
  import opened TwoHeapScheduler

  // ---------- What is stuck ----------

  /** An id that will not be completed by claiming: deleted, FAILED or CANCELLED. */
  predicate Dead(tasks: Tasks, d: Id) {
    d !in tasks || tasks[d].status == FAILED || tasks[d].status == CANCELLED
  }

  /** From each waiting task to its unmet dependencies. */
  ghost function Needs(tasks: Tasks): Graph {
    map k | k in tasks && Waiting(tasks[k]) :: UnmetOf(tasks, tasks[k].dependencies)
  }

  predicate WaitingAt(tasks: Tasks, k: Id) {
    k in tasks && Waiting(tasks[k])
  }

  /** A waiting task that needs, directly or through others, something dead. */
  ghost predicate Stuck(tasks: Tasks, k: Id) {
    WaitingAt(tasks, k) && exists d :: Dead(tasks, d) && Reaches(Needs(tasks), k, d)
  }

  /** Acyclic, nothing running, and everything due. */
  ghost predicate Settled(s: State, clock: int) {
    && Inv(s) && AcyclicState(s)
    && forall k :: k in s.tasks ==> s.tasks[k].status != RUNNING && s.tasks[k].executeTime <= clock
  }

  /** With nothing left to claim, whatever waits is stuck. */
  lemma Progress(s: State, clock: int, k: Id)
    requires Settled(s, clock) && WaitingAt(s.tasks, k) && forall j :: !Executable(s.tasks, clock, j)
    ensures Stuck(s.tasks, k)
  {
    var g := Needs(s.tasks);
    SubgraphAcyclic(Forward(s.tasks), g);
    var waiting := set v | v in s.tasks && Waiting(s.tasks[v]) && Reaches(g, k, v);
    ReachesSelf(g, k);
    assert k in waiting;
    var w := SinkExists(g, waiting);
    assert !Executable(s.tasks, clock, w);
    if s.tasks[w].status == PENDING { PendingMeansBlocked(s, w); }
    var d :| d in s.tasks[w].dependencies && !Done(s.tasks, d);
    assert d in Succ(g, w);
    ReachesStep(g, k, w, d);
    assert Dead(s.tasks, d);
  }

  // ---------- One claim and its completion ----------

  /** b is a with the one executable task id completed; which of the others are READY may differ. */
  ghost predicate Completes(a: Tasks, b: Tasks, id: Id) {
    && WaitingAt(a, id) && Satisfied(a, a[id]) && b.Keys == a.Keys
    && forall k :: k in a ==>
         && b[k].dependencies == a[k].dependencies && b[k].executeTime == a[k].executeTime
         && (Waiting(b[k]) <==> Waiting(a[k]) && k != id)
         && (b[k].status == COMPLETED <==> a[k].status == COMPLETED || k == id)
         && (!Waiting(a[k]) ==> b[k].status == a[k].status)
  }

  lemma WalkKept(g: Graph, h: Graph, p: seq<Id>, a: Id, b: Id)
    requires WalkFromTo(g, p, a, b)
    requires forall i :: 0 <= i < |p| - 1 ==> p[i + 1] in Succ(h, p[i])
    ensures Reaches(h, a, b)
  {
    assert WalkFromTo(h, p, a, b);
  }

  /** What was executable is on nobody's way to anything dead. */
  lemma StuckStays(a: Tasks, b: Tasks, id: Id, k: Id)
    requires Completes(a, b, id) && Stuck(a, k)
    ensures Stuck(b, k)
  {
    var g, h := Needs(a), Needs(b);
    var d :| Dead(a, d) && Reaches(g, k, d);
    var p :| WalkFromTo(g, p, k, d);
    assert Succ(g, id) == {};
    forall i | 0 <= i < |p| - 1 ensures p[i] != id {
      assert p[i + 1] in Succ(g, p[i]);
    }
    assert p[|p| - 1] != id;
    forall i | 0 <= i < |p| - 1 ensures p[i + 1] in Succ(h, p[i]) {
      assert p[i + 1] in Succ(g, p[i]) && p[i] != id && p[i + 1] != id;
    }
    WalkKept(g, h, p, k, d);
    assert Dead(b, d);
    assert |p| > 1 && p[0] != id;
  }

  lemma StuckBefore(a: Tasks, b: Tasks, id: Id, k: Id)
    requires Completes(a, b, id) && Stuck(b, k)
    ensures Stuck(a, k)
  {
    var g, h := Needs(a), Needs(b);
    var d :| Dead(b, d) && Reaches(h, k, d);
    var p :| WalkFromTo(h, p, k, d);
    forall i | 0 <= i < |p| - 1 ensures p[i + 1] in Succ(g, p[i]) {
      assert p[i + 1] in Succ(h, p[i]);
    }
    WalkKept(h, g, p, k, d);
    assert Dead(a, d);
  }

  lemma ExecutableIsFree(tasks: Tasks, id: Id)
    requires WaitingAt(tasks, id) && Satisfied(tasks, tasks[id])
    ensures !Stuck(tasks, id)
  {
    var g := Needs(tasks);
    assert Succ(g, id) == {};
    forall d | d != id ensures !Reaches(g, id, d) { ClosedUnderSucc(g, id, d, {id}); }
  }

  /** The records after the search, the claim and the completion. */
  lemma CompletesClaimed(s: State, now: int, id: Id)
    requires Inv(s) && FindsBest(s.tasks, Advanced(s.clock, Some(now)), Some(id))
    ensures var claimed := AfterClaim(s, Some(now), Some(id));
      && id in claimed.tasks && claimed.tasks[id].status == RUNNING
      && Completes(s.tasks, AfterComplete(claimed, id).tasks, id)
  {
    var claimed := AfterClaim(s, Some(now), Some(id));
    var done := WithStatus(claimed.tasks, id, COMPLETED);
    forall k | k in done && done[k].status == PENDING
      ensures Waiting(Unblock(done, Dependents(done, id))[k])
    {}
  }

  lemma SettledKept(a: State, b: State, id: Id, clock: int)
    requires Settled(a, clock) && Inv(b) && Completes(a.tasks, b.tasks, id)
    ensures Settled(b, clock)
  {
    SameForward(a.tasks, b.tasks);
  }

  lemma ClaimedInv(s: State, now: int, id: Id)
    requires Inv(s) && FindsBest(s.tasks, Advanced(s.clock, Some(now)), Some(id))
    ensures var claimed := AfterClaim(s, Some(now), Some(id));
      id in claimed.tasks && claimed.tasks[id].status == RUNNING && Inv(AfterComplete(claimed, id))
  {
    ClaimKeepsInv(s, Some(now), Some(id));
    CompleteKeepsInv(AfterClaim(s, Some(now), Some(id)), id);
  }

  /** One claim and its completion. */
  lemma DrainOne(s: State, now: int, id: Id)
    requires var clock := Advanced(s.clock, Some(now));
      Settled(s, clock) && FindsBest(s.tasks, clock, Some(id))
    ensures var claimed := AfterClaim(s, Some(now), Some(id));
      && id in claimed.tasks && PreExecution(claimed.tasks[id])
      && Settled(AfterComplete(claimed, id), Advanced(s.clock, Some(now)))
      && Completes(s.tasks, AfterComplete(claimed, id).tasks, id)
  {
    CompletesClaimed(s, now, id);
    ClaimedInv(s, now, id);
    SettledKept(s, AfterComplete(AfterClaim(s, Some(now), Some(id)), id), id, Advanced(s.clock, Some(now)));
  }

  /** A search that finds nothing changes at most which waiting tasks are READY. */
  lemma EmptySearch(s: State, now: int, k: Id)
    requires Inv(s)
    ensures var after := AfterClaim(s, Some(now), None);
      && after.tasks.Keys == s.tasks.Keys
      && (k in s.tasks ==>
            && (Waiting(after.tasks[k]) <==> Waiting(s.tasks[k]))
            && (!Waiting(s.tasks[k]) ==> after.tasks[k].status == s.tasks[k].status))
  {
  }

  // ---------- The loop ----------

  /** The list names tasks, no two alike, and each comes after its dependencies or had them done already. */
  ghost predicate Topological(tasks: Tasks, order: seq<Id>) {
    && NoDup(order) && (forall i :: 0 <= i < |order| ==> order[i] in tasks)
    && forall i, d :: 0 <= i < |order| && order[i] in tasks && d in tasks[order[i]].dependencies ==>
         Done(tasks, d) || d in order[..i]
  }

  lemma TopologicalAppend(tasks: Tasks, order: seq<Id>, id: Id)
    requires Topological(tasks, order) && id in tasks && id !in order
    requires forall d :: d in tasks[id].dependencies ==> Done(tasks, d) || d in order
    ensures Topological(tasks, order + [id])
  {
    var more := order + [id];
    forall i, d | 0 <= i < |more| && more[i] in tasks && d in tasks[more[i]].dependencies
      ensures Done(tasks, d) || d in more[..i]
    {
      assert more[..i] == order[..i];
      assert order[..|order|] == order;
    }
  }

  /** What the loop has done so far: the listed tasks are completed, and nothing else has happened. */
  ghost predicate Progressed(first: Tasks, tasks: Tasks, order: seq<Id>) {
    && tasks.Keys == first.Keys && Topological(first, order)
    && (forall k :: k in order ==> WaitingAt(first, k) && !Stuck(first, k))
    && (forall k :: Stuck(tasks, k) <==> Stuck(first, k))
    && forall k :: k in first ==>
         && tasks[k].dependencies == first[k].dependencies
         && (Waiting(tasks[k]) <==> Waiting(first[k]) && k !in order)
         && (tasks[k].status == COMPLETED <==> first[k].status == COMPLETED || k in order)
         && (!Waiting(first[k]) ==> tasks[k].status == first[k].status)
  }

  lemma ProgressedOne(first: Tasks, tasks: Tasks, order: seq<Id>, id: Id, after: Tasks)
    requires Progressed(first, tasks, order) && Completes(tasks, after, id)
    ensures Progressed(first, after, order + [id])
  {
    ExecutableIsFree(tasks, id);
    forall d | d in first[id].dependencies ensures Done(first, d) || d in order {
      assert Done(tasks, d);
    }
    TopologicalAppend(first, order, id);
    forall k ensures Stuck(after, k) <==> Stuck(first, k) {
      if Stuck(after, k) { StuckBefore(tasks, after, id, k); }
      if Stuck(tasks, k) { StuckStays(tasks, after, id, k); }
    }
    forall k ensures k in order + [id] <==> k in order || k == id {}
  }

  /** k is completed by the loop: it waits, and it is not stuck. */
  ghost predicate Drains(tasks: Tasks, k: Id) {
    WaitingAt(tasks, k) && !Stuck(tasks, k)
  }

  /** What the loop comes to. */
  ghost predicate Drained(first: Tasks, tasks: Tasks, order: seq<Id>) {
    && tasks.Keys == first.Keys && Topological(first, order)
    && (forall k :: k in order <==> Drains(first, k))
    && forall k :: k in first ==>
         && (tasks[k].status == COMPLETED <==> first[k].status == COMPLETED || Drains(first, k))
         && (Waiting(tasks[k]) <==> Stuck(first, k))
         && (!Waiting(first[k]) ==> tasks[k].status == first[k].status)
  }

  lemma DrainEnds(first: Tasks, s: State, order: seq<Id>, now: int)
    requires Progressed(first, s.tasks, order)
    requires var clock := Advanced(s.clock, Some(now)); Settled(s, clock) && FindsBest(s.tasks, clock, None)
    ensures Drained(first, AfterClaim(s, Some(now), None).tasks, order)
  {
    var clock := Advanced(s.clock, Some(now));
    forall k | k in first && Waiting(s.tasks[k]) ensures Stuck(first, k) {
      Progress(s, clock, k);
    }
    forall k | k in first ensures Waiting(s.tasks[k]) <==> Stuck(first, k) {}
    forall k { EmptySearch(s, now, k); }
  }

  /** The host loop: claim and complete at a time when everything is due, until a claim comes back empty. */
  method Drain(s: TaskScheduler, now: int) returns (order: seq<Id>)
    requires s.Valid() && Settled(s.Model(), Advanced(s.clock, Some(now)))
    modifies s, s.dueHeap, s.futureHeap
    ensures s.Valid() && Drained(old(s.tasks), s.tasks, order)
    ensures Drainable(old(s.Model()), Advanced(old(s.clock), Some(now))) ==>
      && (forall k :: k in s.tasks ==> s.tasks[k].status == COMPLETED)
      && ToSet(order) == Unfinished(old(s.Model())) && |order| == |Unfinished(old(s.Model()))|
  {
    order := [];
    ghost var first, clock := s.tasks, Advanced(s.clock, Some(now));
    while true
      invariant s.Valid() && Settled(s.Model(), clock) && Advanced(s.clock, Some(now)) == clock
      invariant Progressed(first, s.tasks, order)
      decreases Unfinished(s.Model())
    {
      ghost var before := s.Model();
      var r := s.ClaimNextExecutable(Some(now));
      if r.None? {
        DrainEnds(first, before, order, now);
        if Drainable(old(s.Model()), clock) { AllDrained(old(s.Model()), clock, s.tasks, order); }
        return;
      }
      DrainOne(before, now, r.value);
      var _ := s.CompleteTask(r.value);
      ProgressedOne(first, before.tasks, order, r.value, s.tasks);
      assert r.value in Unfinished(before) && r.value !in Unfinished(s.Model());
      order := order + [r.value];
    }
  }

  // ---------- When everything drains ----------

  ghost predicate Plain(t: Task, clock: int) {
    (t.status == PENDING || t.status == READY || t.status == COMPLETED) && t.executeTime <= clock
  }

  /** Acyclic, nothing dangling, nothing running, failed or cancelled, and everything due. */
  ghost predicate Drainable(s: State, clock: int) {
    && Inv(s) && AcyclicState(s) && NoDangling(s)
    && forall k :: k in s.tasks ==> Plain(s.tasks[k], clock)
  }

  ghost function Unfinished(s: State): set<Id> {
    set k | k in s.tasks && s.tasks[k].status != COMPLETED
  }

  /** Nothing is dead that anybody could need. */
  lemma NothingStuck(s: State, clock: int, k: Id)
    requires Drainable(s, clock)
    ensures !Stuck(s.tasks, k)
  {
    var g := Needs(s.tasks);
    forall d | k in s.tasks && Reaches(g, k, d) ensures !Dead(s.tasks, d) {
      if d != k {
        var v := ReachedIsListed(g, k, d);
        assert d in s.tasks[v].dependencies;
      }
    }
  }

  lemma AllDrained(s: State, clock: int, tasks: Tasks, order: seq<Id>)
    requires Drainable(s, clock) && Drained(s.tasks, tasks, order)
    ensures forall k :: k in tasks ==> tasks[k].status == COMPLETED
    ensures ToSet(order) == Unfinished(s) && |order| == |Unfinished(s)|
  {
    forall k ensures !Stuck(s.tasks, k) { NothingStuck(s, clock, k); }
    assert forall k :: k in order <==> k in Unfinished(s);
    SizeOfList(order);
  }

  /** A delete-free run in which nothing is running, failed or cancelled at the end can be drained. */
  lemma DeleteFreeRunsAreDrainable(states: seq<State>, ops: seq<Op>, clock: int)
    requires Run(states, ops) && forall i :: 0 <= i < |ops| ==> !ops[i].Delete?
    requires forall k :: k in states[|ops|].tasks ==> Plain(states[|ops|].tasks[k], clock)
    ensures Drainable(states[|ops|], clock)
  {
    EveryRunKeepsInv(states, ops);
    DeleteFreeRunsHaveNoDangling(states, ops);
    DeleteFreeRunsStayAcyclic(states, ops);
  }
}

/** The two-heap scheduler itself: maps, counters and heaps updated in place. */
module TwoHeapScheduler {
  import opened Graphs
  import opened GraphSearch
  import opened IndexedHeap
  import opened Tallies
  import opened TwoHeapModel
  import opened TwoHeapInvariant
  import opened TwoHeapEffects

  // ---------- How the derived structures follow from the task records ----------

  ghost predicate IsDue(tasks: Tasks, clock: int, e: Entry) {
    e.id in tasks && tasks[e.id].status == READY && tasks[e.id].executeTime <= clock && e == EntryOf(e.id, tasks[e.id])
  }

  ghost predicate IsFuture(tasks: Tasks, clock: int, e: Entry) {
    e.id in tasks && tasks[e.id].status == READY && tasks[e.id].executeTime > clock && e == EntryOf(e.id, tasks[e.id])
  }

  /** Each READY task is in exactly one heap, the one its executeTime calls for, under its current key. */
  ghost predicate Partition(tasks: Tasks, clock: int, due: set<Entry>, future: set<Entry>) {
    forall e: Entry :: (e in due <==> IsDue(tasks, clock, e)) && (e in future <==> IsFuture(tasks, clock, e))
  }

  /** The same for every task but id, which is in neither heap. */
  ghost predicate PartitionBut(tasks: Tasks, clock: int, due: set<Entry>, future: set<Entry>, id: Id) {
    forall e: Entry ::
      && (e in due <==> e.id != id && IsDue(tasks, clock, e))
      && (e in future <==> e.id != id && IsFuture(tasks, clock, e))
  }

  /** The reverse edges are the forward edges turned round, deleted dependencies included. */
  ghost predicate Inverse(dependents: Graph, tasks: Tasks) {
    forall d, k :: k in Succ(dependents, d) <==> (k in tasks && d in tasks[k].dependencies)
  }

  ghost predicate EdgesOk(tasks: Tasks, depsOf: Graph, dependents: Graph, totalEdges: int) {
    depsOf == Forward(tasks) && Inverse(dependents, tasks) && totalEdges == EdgeCount(depsOf)
  }

  ghost function OfStatus(tasks: Tasks, st: Status): set<Id> {
    set k | k in tasks && tasks[k].status == st
  }

  ghost predicate TallyAt(tasks: Tasks, byStatus: map<Status, int>, st: Status) {
    st in byStatus && byStatus[st] == |OfStatus(tasks, st)|
  }

  ghost predicate Tallied(tasks: Tasks, byStatus: map<Status, int>) {
    forall st :: TallyAt(tasks, byStatus, st)
  }

  function Plus(byStatus: map<Status, int>, st: Status, n: int): map<Status, int> {
    byStatus[st := n + if st in byStatus then byStatus[st] else 0]
  }

  lemma EmptyTally(byStatus: map<Status, int>)
    requires byStatus == map[PENDING := 0, READY := 0, RUNNING := 0, COMPLETED := 0, FAILED := 0, CANCELLED := 0]
    ensures Tallied(map[], byStatus)
  {
    forall st ensures TallyAt(map[], byStatus, st) {
      assert OfStatus(map[], st) == {};
      match st case PENDING => case READY => case RUNNING => case COMPLETED => case FAILED => case CANCELLED =>
    }
  }

  /** Without records there are no edges and nothing to count. */
  lemma NothingRecorded(byStatus: map<Status, int>)
    requires byStatus == map[PENDING := 0, READY := 0, RUNNING := 0, COMPLETED := 0, FAILED := 0, CANCELLED := 0]
    ensures EdgesOk(map[], map[], map[], 0) && Tallied(map[], byStatus)
  {
    EmptyTally(byStatus);
  }

  lemma TallyAdd(tasks: Tasks, byStatus: map<Status, int>, id: Id, t: Task)
    requires Tallied(tasks, byStatus) && id !in tasks
    ensures Tallied(tasks[id := t], Plus(byStatus, t.status, 1))
  {
    var after, tally := tasks[id := t], Plus(byStatus, t.status, 1);
    forall st ensures TallyAt(after, tally, st) {
      assert TallyAt(tasks, byStatus, st);
      assert OfStatus(after, st) == OfStatus(tasks, st) + if st == t.status then {id} else {};
    }
  }

  lemma TallyDrop(tasks: Tasks, byStatus: map<Status, int>, id: Id)
    requires Tallied(tasks, byStatus) && id in tasks
    ensures Tallied(tasks - {id}, Plus(byStatus, tasks[id].status, -1))
  {
    var after, tally := tasks - {id}, Plus(byStatus, tasks[id].status, -1);
    forall st ensures TallyAt(after, tally, st) {
      assert TallyAt(tasks, byStatus, st);
      assert OfStatus(tasks, st) == OfStatus(after, st) + if st == tasks[id].status then {id} else {};
    }
  }

  /** A record change that keeps the status keeps the tally. */
  lemma TallySame(tasks: Tasks, byStatus: map<Status, int>, id: Id, t: Task)
    requires Tallied(tasks, byStatus) && id in tasks && t.status == tasks[id].status
    ensures Tallied(tasks[id := t], byStatus)
  {
    var after := tasks[id := t];
    forall st ensures TallyAt(after, byStatus, st) {
      assert TallyAt(tasks, byStatus, st);
      assert OfStatus(after, st) == OfStatus(tasks, st);
    }
  }

  lemma TallyMove(tasks: Tasks, byStatus: map<Status, int>, id: Id, st: Status)
    requires Tallied(tasks, byStatus) && id in tasks
    ensures Tallied(WithStatus(tasks, id, st), Plus(Plus(byStatus, tasks[id].status, -1), st, 1))
  {
    var t := tasks[id].(status := st);
    TallyDrop(tasks, byStatus, id);
    TallyAdd(tasks - {id}, Plus(byStatus, tasks[id].status, -1), id, t);
    assert (tasks - {id})[id := t] == WithStatus(tasks, id, st);
  }

  /** The edge structures only look at who depends on whom. */
  lemma EdgesSame(tasks: Tasks, after: Tasks, depsOf: Graph, dependents: Graph, totalEdges: int)
    requires EdgesOk(tasks, depsOf, dependents, totalEdges) && after.Keys == tasks.Keys
    requires forall k :: k in tasks ==> after[k].dependencies == tasks[k].dependencies
    ensures EdgesOk(after, depsOf, dependents, totalEdges)
  {
  }

  /** linked is dependents with id listed exactly under deps. */
  ghost predicate Relinked(dependents: Graph, linked: Graph, id: Id, deps: seq<Id>) {
    forall d, k :: k in Succ(linked, d) <==> if k == id then d in deps else k in Succ(dependents, d)
  }

  /** One record, new or not, gets a dependency list. */
  lemma EdgesSet(tasks: Tasks, depsOf: Graph, dependents: Graph, totalEdges: int, id: Id, t: Task, linked: Graph)
    requires EdgesOk(tasks, depsOf, dependents, totalEdges) && NoDup(t.dependencies)
    requires Relinked(dependents, linked, id, t.dependencies)
    ensures EdgesOk(tasks[id := t], depsOf[id := ToSet(t.dependencies)], linked,
                    totalEdges + |t.dependencies| - |Succ(depsOf, id)|)
  {
    EdgeCountSet(depsOf, id, ToSet(t.dependencies));
    SizeOfList(t.dependencies);
    assert Forward(tasks[id := t]) == Forward(tasks)[id := ToSet(t.dependencies)];
  }

  lemma {:induction false} SizeOfList(deps: seq<Id>)
    requires NoDup(deps)
    ensures |ToSet(deps)| == |deps|
  {
    if deps == [] {
      assert ToSet(deps) == {};
    } else {
      var n := |deps| - 1;
      SizeOfList(deps[..n]);
      ToSetAppend(deps[..n], deps[n]);
      assert deps == deps[..n] + [deps[n]];
    }
  }

  lemma RecountNext(tasks: Tasks, deps: seq<Id>, i: nat)
    requires NoDup(deps) && i < |deps|
    ensures Recount(tasks, deps[..i + 1]) == Recount(tasks, deps[..i]) + if Done(tasks, deps[i]) then 0 else 1
  {
    var fewer, more := deps[..i], deps[..i + 1];
    assert more == fewer + [deps[i]] && deps[i] !in fewer;
    assert UnmetOf(tasks, more) == UnmetOf(tasks, fewer) + if Done(tasks, deps[i]) then {} else {deps[i]};
  }

  lemma EdgesReblocked(tasks: Tasks, ids: set<Id>, depsOf: Graph, dependents: Graph, totalEdges: int)
    requires EdgesOk(tasks, depsOf, dependents, totalEdges)
    ensures EdgesOk(ReblockAll(tasks, ids), depsOf, dependents, totalEdges)
  {
  }

  lemma EdgesUnblocked(tasks: Tasks, ids: set<Id>, depsOf: Graph, dependents: Graph, totalEdges: int)
    requires EdgesOk(tasks, depsOf, dependents, totalEdges)
    ensures EdgesOk(Unblock(tasks, ids), depsOf, dependents, totalEdges)
  {
  }

  lemma UnblockAdd(tasks: Tasks, ids: set<Id>, k: Id)
    requires k in tasks && k !in ids
    ensures Unblock(tasks, ids + {k}) ==
      if tasks[k].status == PENDING then Unblock(tasks, ids)[k := Decrement(tasks[k])] else Unblock(tasks, ids)
  {
  }

  lemma ReblockAllAdd(tasks: Tasks, ids: set<Id>, k: Id)
    requires k in tasks
    ensures ReblockAll(tasks, ids + {k}) == ReblockAll(tasks, ids)[k := Reblock(tasks, tasks[k])]
  {
  }

  lemma ReblockAllSameDone(tasks: Tasks, ids: set<Id>)
    requires forall k :: k in ids && k in tasks ==> Waiting(tasks[k])
    ensures SameDone(tasks, ReblockAll(tasks, ids))
  {
  }

  /** A path from a new dependency to id, put behind id, closes in the graph that the update asks for. */
  lemma ClosingPath(g: Graph, id: Id, deps: set<Id>, p: seq<Id>)
    requires Walk(g, p) && p[0] in deps && p[|p| - 1] == id && Shuns(p, id)
    ensures ClosedWalk(g[id := deps], [id] + p)
  {
  }

  lemma EdgesDropped(tasks: Tasks, depsOf: Graph, dependents: Graph, totalEdges: int, id: Id, linked: Graph)
    requires EdgesOk(tasks, depsOf, dependents, totalEdges) && id in tasks
    requires forall d, k :: k in Succ(linked, d) <==> k in Succ(dependents, d) && !(k == id && d in depsOf[id])
    ensures EdgesOk(tasks - {id}, depsOf - {id}, linked, EdgeCount(depsOf - {id}))
  {
  }

  // ---------- Promotion and search ----------

  ghost predicate IsReadyEntry(tasks: Tasks, e: Entry) {
    e.id in tasks && tasks[e.id].status == READY && e == EntryOf(e.id, tasks[e.id])
  }

  /** While due tasks are still being promoted: nothing is lost, and the due heap holds only due tasks. */
  ghost predicate Promoting(tasks: Tasks, clock: int, due: set<Entry>, future: set<Entry>) {
    && due !! future
    && (forall e :: e in due ==> e.executeTime <= clock)
    && forall e :: e in due || e in future <==> IsReadyEntry(tasks, e)
  }

  lemma PromotingStarts(tasks: Tasks, clock: int, later: int, due: set<Entry>, future: set<Entry>)
    requires Partition(tasks, clock, due, future) && clock <= later
    ensures Promoting(tasks, later, due, future)
  {
  }

  /** The entry moved is current, new to the due heap, and belongs there. */
  lemma PromoteOne(tasks: Tasks, clock: int, due: set<Entry>, future: set<Entry>, e: Entry)
    requires Promoting(tasks, clock, due, future) && e in future && e.executeTime <= clock
    ensures IsReadyEntry(tasks, e) && forall f :: f in due ==> f.id != e.id
    ensures Promoting(tasks, clock, due + {e}, future - {e})
  {
  }

  lemma PromotingEnds(tasks: Tasks, clock: int, due: set<Entry>, future: set<Entry>)
    requires Promoting(tasks, clock, due, future) && forall e :: e in future ==> e.executeTime > clock
    ensures Partition(tasks, clock, due, future)
  {
  }

  /** The walk down the due heap: seen are the dangling tasks met so far, all ahead of what is left. */
  ghost predicate Walked(tasks: Tasks, clock: int, due: set<Entry>, seen: set<Id>) {
    && (forall k :: k in seen ==> Dangles(tasks, clock, None, k))
    && (forall k, e :: k in seen && e in due ==> DueBefore(EntryOf(k, tasks[k]), e))
  }

  /** Entries of different tasks are never level: the sequence number decides. */
  lemma Ranked(tasks: Tasks, sequence: nat, j: Id, k: Id)
    requires SequencesOk(tasks, sequence) && j in tasks && k in tasks && j != k
    requires !DueBefore(EntryOf(k, tasks[k]), EntryOf(j, tasks[j]))
    ensures DueBefore(EntryOf(j, tasks[j]), EntryOf(k, tasks[k]))
  {
    assert SequenceAt(tasks, sequence, j, k);
  }

  lemma SatisfiedSame(a: Tasks, b: Tasks, t: Task)
    requires SameDone(a, b)
    ensures Satisfied(a, t) <==> Satisfied(b, t)
  {
  }

  lemma WalkedOne(s: State, now: Tasks, due: set<Entry>, future: set<Entry>, seen: set<Id>, top: Entry)
    requires SequencesOk(s.tasks, s.sequence) && Walked(s.tasks, s.clock, due, seen)
    requires now == ReblockAll(s.tasks, seen) && Partition(now, s.clock, due, future)
    requires IsBest(DueBefore, top, due) && top.id in now && !Satisfied(now, now[top.id])
    ensures top.id !in seen && Walked(s.tasks, s.clock, due - {top}, seen + {top.id})
    ensures ReblockAll(s.tasks, seen + {top.id}) == now[top.id := Reblock(now, now[top.id])]
  {
    assert IsDue(now, s.clock, top);
    ReblockAllSameDone(s.tasks, seen);
    SatisfiedSame(s.tasks, now, now[top.id]);
    SameCounts(s.tasks, now, now[top.id].dependencies);
    ReblockAllAdd(s.tasks, seen, top.id);
    forall e | e in due - {top} ensures DueBefore(top, e) {
      assert IsDue(now, s.clock, e);
      Ranked(s.tasks, s.sequence, top.id, e.id);
    }
  }

  lemma WalkedToEnd(s: State, now: Tasks, due: set<Entry>, future: set<Entry>, seen: set<Id>)
    requires Walked(s.tasks, s.clock, due, seen)
    requires now == ReblockAll(s.tasks, seen) && Partition(now, s.clock, due, future) && due == {}
    ensures FindsBest(s.tasks, s.clock, None) && seen == Dangling(s.tasks, s.clock, None)
  {
    forall k | k in s.tasks && k !in seen && s.tasks[k].status == READY ensures s.tasks[k].executeTime > s.clock {
      assert !IsDue(now, s.clock, EntryOf(k, now[k]));
    }
  }

  lemma WalkedToTop(s: State, now: Tasks, due: set<Entry>, future: set<Entry>, seen: set<Id>, top: Entry)
    requires SequencesOk(s.tasks, s.sequence) && Walked(s.tasks, s.clock, due, seen)
    requires now == ReblockAll(s.tasks, seen) && Partition(now, s.clock, due, future)
    requires IsBest(DueBefore, top, due) && top.id in now && Satisfied(now, now[top.id])
    ensures FindsBest(s.tasks, s.clock, Some(top.id)) && seen == Dangling(s.tasks, s.clock, Some(top.id))
  {
    assert IsDue(now, s.clock, top);
    ReblockAllSameDone(s.tasks, seen);
    SatisfiedSame(s.tasks, now, now[top.id]);
    forall k | k in s.tasks && k !in seen && s.tasks[k].status == READY && s.tasks[k].executeTime <= s.clock &&
      k != top.id
      ensures DueBefore(top, EntryOf(k, s.tasks[k])) && !DueBefore(EntryOf(k, s.tasks[k]), top)
    {
      assert IsDue(now, s.clock, EntryOf(k, now[k]));
      Ranked(s.tasks, s.sequence, top.id, k);
    }
  }

  class TaskScheduler {
    var tasks: Tasks
    var depsOf: Graph
    var dependents: Graph
    const dueHeap: BinaryHeap
    const futureHeap: BinaryHeap
    var clock: int
    const maxTasks: nat
    var sequence: nat
    var totalEdges: int
    var byStatus: map<Status, int>

    ghost function Model(): State
      reads this
    {
      State(tasks, clock, sequence, maxTasks)
    }

    ghost predicate HeapsOk()
      reads dueHeap, futureHeap
    {
      && dueHeap != futureHeap && dueHeap.Valid() && futureHeap.Valid()
      && dueHeap.before == DueBefore && futureHeap.before == FutureBefore
    }

    ghost predicate Queued()
      reads this, dueHeap, futureHeap
    {
      Partition(tasks, clock, dueHeap.Contents(), futureHeap.Contents())
    }

    ghost predicate QueuedBut(id: Id)
      reads this, dueHeap, futureHeap
    {
      PartitionBut(tasks, clock, dueHeap.Contents(), futureHeap.Contents(), id)
    }

    ghost predicate Valid()
      reads this, dueHeap, futureHeap
    {
      && HeapsOk() && Queued() && Inv(Model())
      && EdgesOk(tasks, depsOf, dependents, totalEdges) && Tallied(tasks, byStatus)
    }

    constructor (now: int, maxTasks: nat)
      ensures Valid() && Model() == State(map[], now, 0, maxTasks)
      ensures fresh(dueHeap) && fresh(futureHeap)
    {
      Comparators();
      tasks, depsOf, dependents := map[], map[], map[];
      dueHeap := new BinaryHeap(DueBefore);
      futureHeap := new BinaryHeap(FutureBefore);
      clock, this.maxTasks, sequence, totalEdges := now, maxTasks, 0, 0;
      byStatus := map[PENDING := 0, READY := 0, RUNNING := 0, COMPLETED := 0, FAILED := 0, CANCELLED := 0];
      new;
      NothingRecorded(byStatus);
    }

    // ---------- Internals ----------

    method HeapInsert(id: Id)
      requires HeapsOk() && QueuedBut(id) && id in tasks && tasks[id].status == READY
      modifies dueHeap, futureHeap
      ensures HeapsOk() && Queued()
    {
      var e := EntryOf(id, tasks[id]);
      if e.executeTime <= clock {
        var ok := dueHeap.Push(e);
        assert ok;
      } else {
        var ok := futureHeap.Push(e);
        assert ok;
      }
    }

    method HeapRemove(id: Id)
      requires HeapsOk() && Queued()
      modifies dueHeap, futureHeap
      ensures HeapsOk() && QueuedBut(id)
    {
      if dueHeap.Contains(id) {
        var _ := dueHeap.Remove(id);
      } else if futureHeap.Contains(id) {
        var _ := futureHeap.Remove(id);
      }
    }

    method SetStatus(id: Id, status: Status)
      requires id in tasks && Tallied(tasks, byStatus)
      modifies this`tasks, this`byStatus
      ensures tasks == WithStatus(old(tasks), id, status) && Tallied(tasks, byStatus)
    {
      var task := tasks[id];
      if task.status == status {
        return;
      }
      TallyMove(tasks, byStatus, id, status);
      byStatus := Plus(Plus(byStatus, task.status, -1), status, 1);
      tasks := tasks[id := task.(status := status)];
    }

    method CountUnmet(deps: seq<Id>) returns (unmet: nat)
      requires NoDup(deps)
      ensures unmet == Recount(tasks, deps)
    {
      unmet := 0;
      for i := 0 to |deps|
        invariant unmet == Recount(tasks, deps[..i])
      {
        RecountNext(tasks, deps, i);
        if !Done(tasks, deps[i]) {
          unmet := unmet + 1;
        }
      }
      assert deps[..|deps|] == deps;
    }

    method DependenciesSatisfied(task: Task) returns (yes: bool)
      ensures yes <==> Satisfied(tasks, task)
    {
      for i := 0 to |task.dependencies|
        invariant forall j :: 0 <= j < i ==> Done(tasks, task.dependencies[j])
      {
        if !Done(tasks, task.dependencies[i]) {
          return false;
        }
      }
      return true;
    }

    method ValidateDependencies(id: Id, raw: seq<Id>) returns (r: Result<seq<Id>>)
      ensures r == match DepError(tasks, id, raw) case Some(e) => Err(e) case None => Ok(Dedup(raw))
    {
      var out: seq<Id> := [];
      for i := 0 to |raw|
        invariant DepError(tasks, id, raw[..i]) == None && out == Dedup(raw[..i])
      {
        assert raw[..i + 1][..i] == raw[..i];
        var dep := raw[i];
        if Blank(dep) {
          LaterErrors(tasks, id, raw, i + 1);
          return Err(InvalidTask);
        }
        if dep == id {
          LaterErrors(tasks, id, raw, i + 1);
          return Err(CycleFound([id, id]));
        }
        if dep in out {
          assert dep in ToSet(out);
          assert raw[..i][..] == raw[..i];
          continue;
        }
        if dep !in tasks {
          LaterErrors(tasks, id, raw, i + 1);
          return Err(InvalidTask);
        }
        out := out + [dep];
      }
      assert raw[..|raw|] == raw;
      return Ok(out);
    }

    method LinkAll(id: Id, deps: seq<Id>)
      modifies this`dependents
      ensures forall d, k :: k in Succ(dependents, d) <==> k in Succ(old(dependents), d) || (k == id && d in deps)
    {
      for i := 0 to |deps|
        invariant forall d, k :: k in Succ(dependents, d) <==>
          k in Succ(old(dependents), d) || (k == id && d in deps[..i])
      {
        assert deps[..i + 1] == deps[..i] + [deps[i]];
        dependents := dependents[deps[i] := Succ(dependents, deps[i]) + {id}];
      }
      assert deps[..|deps|] == deps;
    }

    method UnlinkAll(id: Id, deps: set<Id>)
      modifies this`dependents
      ensures forall d, k :: k in Succ(dependents, d) <==> k in Succ(old(dependents), d) && !(k == id && d in deps)
    {
      var todo := deps;
      while todo != {}
        invariant todo <= deps
        invariant forall d, k :: k in Succ(dependents, d) <==>
          k in Succ(old(dependents), d) && !(k == id && d in deps && d !in todo)
      {
        var d :| d in todo;
        todo := todo - {d};
        if d in dependents {
          dependents := dependents[d := dependents[d] - {id}];
        }
      }
    }

    /** Brings the edge structures in line with the record just stored for id. */
    method RecordEdges(id: Id, ghost was: Tasks)
      requires EdgesOk(was, depsOf, dependents, totalEdges)
      requires id in tasks && tasks == was[id := tasks[id]] && NoDup(tasks[id].dependencies)
      modifies this`depsOf, this`dependents, this`totalEdges
      ensures EdgesOk(tasks, depsOf, dependents, totalEdges)
    {
      var deps, oldDeps := tasks[id].dependencies, Succ(depsOf, id);
      ghost var before := dependents;
      UnlinkAll(id, oldDeps);
      LinkAll(id, deps);
      assert Relinked(before, dependents, id, deps);
      EdgesSet(was, depsOf, before, totalEdges, id, tasks[id], dependents);
      totalEdges := totalEdges + |deps| - |oldDeps|;
      depsOf := depsOf[id := ToSet(deps)];
    }

    /** Records a new task, its edges and its heap entry. */
    method StoreNew(id: Id, task: Task)
      requires HeapsOk() && Queued() && Tallied(tasks, byStatus) && EdgesOk(tasks, depsOf, dependents, totalEdges)
      requires id !in tasks && NoDup(task.dependencies)
      modifies this`tasks, this`depsOf, this`dependents, this`totalEdges, this`byStatus, dueHeap, futureHeap
      ensures HeapsOk() && Queued() && Tallied(tasks, byStatus) && EdgesOk(tasks, depsOf, dependents, totalEdges)
      ensures tasks == old(tasks)[id := task]
    {
      TallyAdd(tasks, byStatus, id, task);
      tasks := tasks[id := task];
      RecordEdges(id, old(tasks));
      byStatus := Plus(byStatus, task.status, 1);
      if task.status == READY {
        HeapInsert(id);
      }
    }

    /** A newly added id blocks again every waiting task that still lists it. */
    method ReblockDependents(id: Id)
      requires HeapsOk() && Queued() && Tallied(tasks, byStatus) && Inverse(dependents, tasks)
      requires id in tasks && tasks[id].status != COMPLETED && ListsOk(tasks)
      modifies this`tasks, this`byStatus, dueHeap, futureHeap
      ensures HeapsOk() && Queued() && Tallied(tasks, byStatus)
      ensures tasks == ReblockAll(old(tasks), Readded(old(tasks), id))
    {
      ghost var before, again := tasks, Readded(tasks, id);
      ghost var done: set<Id> := {};
      assert ReblockAll(tasks, {}) == tasks;
      var inbound := Succ(dependents, id);
      while inbound != {}
        invariant HeapsOk() && Queued() && Tallied(tasks, byStatus)
        invariant again - done <= inbound && done <= again && inbound !! done
        invariant inbound <= Succ(dependents, id)
        invariant tasks == ReblockAll(before, done)
      {
        var cid :| cid in inbound;
        inbound := inbound - {cid};
        if cid in tasks && Waiting(tasks[cid]) {
          ReblockAllAdd(before, done, cid);
          ReblockAllSameDone(before, done);
          SameCounts(before, tasks, tasks[cid].dependencies);
          assert ListAt(before, cid);
          ReblockOn(cid, id);
          done := done + {cid};
        }
      }
      assert done == again;
    }

    /** One dependent of a newly added id: its count is recomputed, and it cannot stay READY. */
    method ReblockOn(cid: Id, id: Id)
      requires HeapsOk() && Queued() && Tallied(tasks, byStatus)
      requires cid in tasks && Waiting(tasks[cid]) && NoDup(tasks[cid].dependencies)
      requires id in tasks[cid].dependencies && !Done(tasks, id)
      modifies this`tasks, this`byStatus, dueHeap, futureHeap
      ensures HeapsOk() && Queued() && Tallied(tasks, byStatus)
      ensures tasks == old(tasks)[cid := Reblock(old(tasks), old(tasks)[cid])]
    {
      var c := tasks[cid];
      var unmet := CountUnmet(c.dependencies);
      assert id in UnmetOf(tasks, c.dependencies);
      TallySame(tasks, byStatus, cid, c.(unmet := unmet));
      tasks := tasks[cid := c.(unmet := unmet)];
      if unmet > 0 {
        if c.status == READY {
          HeapRemove(cid);
          SetStatus(cid, PENDING);
        }
      } else {
        // The added id is itself unmet, so no dependent comes out with nothing unmet.
        assert false;
      }
    }

    // ---------- Task CRUD ----------

    method AddTask(input: AddInput) returns (r: Result<Task>)
      requires Valid()
      modifies this, dueHeap, futureHeap
      ensures Valid()
      ensures AddError(old(Model()), input) == match r case Err(e) => Some(e) case Ok(_) => None
      ensures Step(old(Model()), Add(input), Model())
      ensures r.Ok? ==> input.id in tasks && r.value == tasks[input.id]
    {
      var id := input.id;
      if Blank(id) {
        return Err(InvalidTask);
      }
      var checked := ValidateDependencies(id, GetOr(input.dependencies, []));
      if checked.Err? {
        return Err(checked.error);
      }
      var deps := checked.value;
      if maxTasks > 0 && |tasks| >= maxTasks {
        return Err(CapacityExceeded);
      }
      if id in tasks {
        return Err(DuplicateTask);
      }
      DedupGood(tasks, id, GetOr(input.dependencies, []));
      InsertTask(input, deps);
      return Ok(tasks[id]);
    }

    /** The record of a new task, its unmet dependencies counted. */
    method NewRecord(input: AddInput, deps: seq<Id>) returns (task: Task)
      requires NoDup(deps)
      ensures task == NewTask(Model(), input, deps)
    {
      var unmet := CountUnmet(deps);
      var status := if unmet == 0 then READY else PENDING;
      task := Task(GetOr(input.priority, 0), GetOr(input.executeTime, clock), deps, status, unmet, 0, sequence);
    }

    /** The part of addTask behind the validation. */
    method InsertTask(input: AddInput, deps: seq<Id>)
      requires Valid() && input.id !in tasks && NoDup(deps) && GoodDeps(tasks, input.id, deps)
      modifies this, dueHeap, futureHeap
      ensures Valid() && Model() == AfterAdd(old(Model()), input, deps) && input.id in tasks
    {
      ghost var s := Model();
      AddKeepsInv(s, input, deps);
      var task := NewRecord(input, deps);
      sequence := sequence + 1;
      StoreNew(input.id, task);
      AddKeepsShape(s, input.id, task);
      EdgesReblocked(tasks, Readded(tasks, input.id), depsOf, dependents, totalEdges);
      ReblockDependents(input.id);
      assert Model() == AfterAdd(s, input, deps);
    }

    /** Looks for a genuinely new dependency that already leads back to the task. */
    method FindClosingEdge(id: Id, deps: seq<Id>) returns (path: Option<seq<Id>>)
      requires id in tasks && depsOf == Forward(tasks)
      ensures path.None? <==> !ClosesCycle(tasks, id, Some(deps))
      ensures path.Some? ==>
        |path.value| > 0 && path.value[0] == id && ClosedWalk(depsOf[id := ToSet(deps)], path.value)
    {
      for i := 0 to |deps|
        invariant forall j :: 0 <= j < i && deps[j] !in tasks[id].dependencies ==> !Reaches(depsOf, deps[j], id)
      {
        var dep := deps[i];
        if dep in depsOf[id] {
          continue;
        }
        var found := DepPath(depsOf, dep, id);
        if found.Some? {
          assert Reaches(depsOf, dep, id);
          ClosingPath(depsOf, id, ToSet(deps), found.value);
          return Some([id] + found.value);
        }
      }
      return None;
    }

    method UpdateTask(id: Id, u: UpdateInput, expectedVersion: Option<nat>) returns (r: Result<Task>)
      requires Valid()
      modifies this, dueHeap, futureHeap
      ensures Valid()
      ensures Step(old(Model()), Update(id, u, expectedVersion), Model())
      ensures var refused := UpdateError(old(Model()), id, u, expectedVersion);
        && (refused.Some? ==> r == Err(refused.value))
        && (refused.None? ==> (r.Err? <==> ClosesCycle(old(tasks), id, NewDeps(u))))
        && (refused.None? && r.Err? ==>
              && r.error.CycleFound? && |r.error.path| > 0 && r.error.path[0] == id
              && ClosedWalk(Forward(old(tasks))[id := ToSet(NewDeps(u).value)], r.error.path))
      ensures r.Ok? ==>
        && id in old(tasks) && id in tasks && r.value == tasks[id] && tasks - {id} == old(tasks) - {id}
        && var t, t' := old(tasks)[id], tasks[id];
          && t'.priority == (if u.priority.Some? then u.priority.value else t.priority)
          && t'.executeTime == (if u.executeTime.Some? then u.executeTime.value else t.executeTime)
          && t'.version == t.version + 1 && t'.sequence == t.sequence
          && (u.dependencies.None? ==>
                t'.dependencies == t.dependencies && t'.unmet == t.unmet && t'.status == t.status)
          && (u.dependencies.Some? ==>
                && ToSet(t'.dependencies) == ToSet(u.dependencies.value) && NoDup(t'.dependencies)
                && t'.status == if Satisfied(old(tasks), t') then READY else PENDING)
    {
      if id !in tasks {
        return Err(TaskNotFound);
      }
      var task := tasks[id];
      if expectedVersion.Some? && task.version != expectedVersion.value {
        return Err(StaleVersion);
      }
      if task.status == RUNNING {
        return Err(InvalidTask);
      }
      if !PreExecution(task) {
        return Err(InvalidTask);
      }
      if u.dependencies.Some? {
        var checked := ValidateDependencies(id, u.dependencies.value);
        if checked.Err? {
          return Err(checked.error);
        }
        var path := FindClosingEdge(id, checked.value);
        if path.Some? {
          return Err(CycleFound(path.value));
        }
        DedupGood(tasks, id, u.dependencies.value);
      }
      CommitUpdate(id, u, NewDeps(u));
      UpdatedFields(old(tasks), id, u, tasks);
      return Ok(tasks[id]);
    }

    /** The part of updateTask behind the validation. */
    method CommitUpdate(id: Id, u: UpdateInput, deps: Option<seq<Id>>)
      requires Valid() && id in tasks && Waiting(tasks[id])
      requires deps.Some? ==> NoDup(deps.value) && GoodDeps(tasks, id, deps.value)
      modifies this, dueHeap, futureHeap
      ensures Valid() && Model() == AfterUpdate(old(Model()), id, u, deps)
    {
      UpdateKeepsInv(Model(), id, u, deps);
      HeapRemove(id);
      Rewrite(id, u, deps);
    }

    /** Takes a task that is in no heap from its old record to the new one, edges and heap included. */
    method Rewrite(id: Id, u: UpdateInput, deps: Option<seq<Id>>)
      requires HeapsOk() && QueuedBut(id) && id in tasks && Waiting(tasks[id])
      requires Tallied(tasks, byStatus) && EdgesOk(tasks, depsOf, dependents, totalEdges)
      requires deps.Some? ==> NoDup(deps.value)
      modifies this`tasks, this`byStatus, this`depsOf, this`dependents, this`totalEdges, dueHeap, futureHeap
      ensures HeapsOk() && Queued() && Tallied(tasks, byStatus) && EdgesOk(tasks, depsOf, dependents, totalEdges)
      ensures tasks == old(tasks)[id := UpdatedTask(old(tasks), old(tasks)[id], u, deps)]
    {
      ghost var was := tasks;
      StoreUpdate(id, u, deps);
      if deps.Some? {
        RecordEdges(id, was);
      } else {
        EdgesSame(was, tasks, depsOf, dependents, totalEdges);
      }
      if tasks[id].status == READY {
        HeapInsert(id);
      }
    }

    /** Writes the new fields of a task that is in no heap. */
    method StoreUpdate(id: Id, u: UpdateInput, deps: Option<seq<Id>>)
      requires id in tasks && Waiting(tasks[id]) && Tallied(tasks, byStatus)
      requires deps.Some? ==> NoDup(deps.value)
      modifies this`tasks, this`byStatus
      ensures tasks == old(tasks)[id := UpdatedTask(old(tasks), old(tasks)[id], u, deps)] && Tallied(tasks, byStatus)
    {
      var task := tasks[id];
      task := task.(priority := GetOr(u.priority, task.priority),
        executeTime := GetOr(u.executeTime, task.executeTime));
      if deps.Some? {
        var unmet := CountUnmet(deps.value);
        task := task.(dependencies := deps.value, unmet := unmet);
      }
      task := task.(version := task.version + 1);
      TallySame(tasks, byStatus, id, task);
      tasks := tasks[id := task];
      if deps.Some? {
        if task.status == READY && task.unmet > 0 {
          SetStatus(id, PENDING);
        } else if task.status == PENDING && task.unmet == 0 {
          SetStatus(id, READY);
        }
      }
    }

    /** Dependents keep their edge to a deleted task; it dangles. */
    method DeleteTask(id: Id) returns (r: Result<Task>)
      requires Valid()
      modifies this, dueHeap, futureHeap
      ensures Valid()
      ensures r == if id in old(tasks) then Ok(old(tasks)[id]) else Err(TaskNotFound)
      ensures Step(old(Model()), Delete(id), Model())
    {
      if id !in tasks {
        return Err(TaskNotFound);
      }
      var task := tasks[id];
      DeleteKeepsInv(Model(), id);
      HeapRemove(id);
      DropRecord(id);
      return Ok(task);
    }

    /** Forgets a task that is in no heap. */
    method DropRecord(id: Id)
      requires HeapsOk() && QueuedBut(id) && id in tasks
      requires EdgesOk(tasks, depsOf, dependents, totalEdges) && Tallied(tasks, byStatus)
      modifies this`tasks, this`depsOf, this`dependents, this`totalEdges, this`byStatus
      ensures HeapsOk() && Queued() && EdgesOk(tasks, depsOf, dependents, totalEdges) && Tallied(tasks, byStatus)
      ensures tasks == old(tasks) - {id}
    {
      var status := tasks[id].status;
      TallyDrop(tasks, byStatus, id);
      DropEdges(id);
      tasks := tasks - {id};
      byStatus := Plus(byStatus, status, -1);
    }

    /** Takes out the outgoing edges of a task about to be deleted; the inbound list is retained. */
    method DropEdges(id: Id)
      requires EdgesOk(tasks, depsOf, dependents, totalEdges) && id in tasks
      modifies this`depsOf, this`dependents, this`totalEdges
      ensures EdgesOk(tasks - {id}, depsOf, dependents, totalEdges)
    {
      ghost var before := dependents;
      UnlinkAll(id, depsOf[id]);
      EdgesDropped(tasks, depsOf, before, totalEdges, id, dependents);
      depsOf := depsOf - {id};
      totalEdges := RecountEdges();
    }

    method RecountEdges() returns (n: int)
      ensures n == EdgeCount(depsOf)
    {
      n := 0;
      var rest := depsOf;
      while rest != map[]
        invariant n + EdgeCount(rest) == EdgeCount(depsOf)
        decreases |rest|
      {
        var k :| k in rest;
        EdgeCountDrop(rest, k);
        n := n + |rest[k]|;
        rest := rest - {k};
      }
    }

    // ---------- Lifecycle ----------

    method CompleteTask(id: Id) returns (r: Result<Task>)
      requires Valid()
      modifies this, dueHeap, futureHeap
      ensures Valid()
      ensures r == CompleteResult(old(Model()), id)
      ensures Step(old(Model()), Complete(id), Model())
    {
      if id !in tasks {
        return Err(TaskNotFound);
      }
      if tasks[id].status == COMPLETED {
        return Ok(tasks[id]);
      }
      if tasks[id].status == FAILED || tasks[id].status == CANCELLED {
        return Err(InvalidTask);
      }
      Finish(id);
      return Ok(tasks[id]);
    }

    method Finish(id: Id)
      requires Valid() && id in tasks && PreExecution(tasks[id])
      modifies this, dueHeap, futureHeap
      ensures Valid() && Model() == AfterComplete(old(Model()), id)
    {
      CompleteKeepsInv(Model(), id);
      HeapRemove(id);
      ghost var was := tasks;
      SetStatus(id, COMPLETED);
      EdgesSame(was, tasks, depsOf, dependents, totalEdges);
      ghost var done := tasks;
      UnblockDependents(id);
      EdgesUnblocked(done, Dependents(done, id), depsOf, dependents, totalEdges);
    }

    method UnblockDependents(id: Id)
      requires HeapsOk() && Queued() && Tallied(tasks, byStatus) && Inverse(dependents, tasks)
      modifies this`tasks, this`byStatus, dueHeap, futureHeap
      ensures HeapsOk() && Queued() && Tallied(tasks, byStatus)
      ensures tasks == Unblock(old(tasks), Dependents(old(tasks), id))
    {
      ghost var before, all := tasks, Dependents(tasks, id);
      var todo := Succ(dependents, id);
      assert todo == all;
      assert Unblock(before, {}) == before;
      while todo != {}
        invariant HeapsOk() && Queued() && Tallied(tasks, byStatus)
        invariant todo <= all && tasks == Unblock(before, all - todo)
      {
        var child :| child in todo;
        UnblockAdd(before, all - todo, child);
        assert all - (todo - {child}) == all - todo + {child};
        todo := todo - {child};
        if child in tasks && tasks[child].status == PENDING {
          UnblockOne(child);
        }
      }
      assert all - {} == all;
    }

    method UnblockOne(id: Id)
      requires HeapsOk() && Queued() && Tallied(tasks, byStatus)
      requires id in tasks && tasks[id].status == PENDING
      modifies this`tasks, this`byStatus, dueHeap, futureHeap
      ensures HeapsOk() && Queued() && Tallied(tasks, byStatus)
      ensures tasks == old(tasks)[id := Decrement(old(tasks)[id])]
    {
      var child := tasks[id];
      if child.unmet > 0 {
        child := child.(unmet := child.unmet - 1);
      }
      TallySame(tasks, byStatus, id, child);
      tasks := tasks[id := child];
      if child.unmet == 0 {
        SetStatus(id, READY);
        HeapInsert(id);
      }
    }

    method FailTask(id: Id) returns (r: Result<Task>)
      requires Valid()
      modifies this, dueHeap, futureHeap
      ensures Valid()
      ensures r == FailResult(old(Model()), id)
      ensures Step(old(Model()), Fail(id), Model())
    {
      if id !in tasks {
        return Err(TaskNotFound);
      }
      if tasks[id].status == FAILED {
        return Ok(tasks[id]);
      }
      if tasks[id].status == COMPLETED || tasks[id].status == CANCELLED {
        return Err(InvalidTask);
      }
      Leave(id, FAILED);
      return Ok(tasks[id]);
    }

    method CancelTask(id: Id) returns (r: Result<Task>)
      requires Valid()
      modifies this, dueHeap, futureHeap
      ensures Valid()
      ensures r == CancelResult(old(Model()), id)
      ensures Step(old(Model()), Cancel(id), Model())
    {
      if id !in tasks {
        return Err(TaskNotFound);
      }
      if !PreExecution(tasks[id]) {
        return Ok(tasks[id]);
      }
      Leave(id, CANCELLED);
      return Ok(tasks[id]);
    }

    /** Takes a task out of its heap for good. */
    method Leave(id: Id, status: Status)
      requires Valid() && id in tasks && PreExecution(tasks[id])
      requires status == RUNNING || status == FAILED || status == CANCELLED
      modifies this, dueHeap, futureHeap
      ensures Valid() && Model() == old(Model()).(tasks := WithStatus(old(tasks), id, status))
    {
      LeaveKeepsInv(Model(), id, status);
      HeapRemove(id);
      ghost var was := tasks;
      SetStatus(id, status);
      EdgesSame(was, tasks, depsOf, dependents, totalEdges);
    }

    // ---------- Execution ----------

    /** The clock is monotonic: an earlier now is ignored. */
    method AdvanceClock(now: Option<int>)
      modifies this`clock
      ensures clock == Advanced(old(clock), now)
      ensures clock >= old(clock) && (now.Some? ==> clock >= now.value)
      ensures clock == old(clock) || now == Some(clock)
    {
      if now.Some? && now.value > clock {
        clock := now.value;
      }
    }

    /** Moves every READY task whose executeTime has passed from the future heap to the due heap. */
    method PromoteDue()
      requires HeapsOk() && Promoting(tasks, clock, dueHeap.Contents(), futureHeap.Contents())
      modifies dueHeap, futureHeap
      ensures HeapsOk() && Queued()
    {
      while true
        invariant HeapsOk() && Promoting(tasks, clock, dueHeap.Contents(), futureHeap.Contents())
        decreases futureHeap.Contents()
      {
        var top := futureHeap.Peek();
        if top.None? || top.value.executeTime > clock {
          PromotingEnds(tasks, clock, dueHeap.Contents(), futureHeap.Contents());
          return;
        }
        ghost var due, future := dueHeap.Contents(), futureHeap.Contents();
        var popped := futureHeap.Pop();
        var e := popped.value;
        PromoteOne(tasks, clock, due, future, e);
        if e.id in tasks && tasks[e.id].status == READY {
          var ok := dueHeap.Push(EntryOf(e.id, tasks[e.id]));
          assert ok;
        } else {
          // No heap entry is ever stale.
          assert false;
        }
      }
    }

    /** A dependency was deleted after this task was unblocked: it goes back to PENDING. */
    method ReconcileBlocked(id: Id)
      requires HeapsOk() && QueuedBut(id) && Tallied(tasks, byStatus)
      requires id in tasks && NoDup(tasks[id].dependencies)
      modifies this`tasks, this`byStatus
      ensures HeapsOk() && Queued() && Tallied(tasks, byStatus)
      ensures tasks == old(tasks)[id := Reblock(old(tasks), old(tasks)[id])]
    {
      var unmet := CountUnmet(tasks[id].dependencies);
      var task := tasks[id].(unmet := unmet);
      TallySame(tasks, byStatus, id, task);
      tasks := tasks[id := task];
      SetStatus(id, PENDING);
    }

    /** Takes a dangling task out of the due heap and blocks it again. */
    method BlockTop(e: Entry)
      requires HeapsOk() && Queued() && Tallied(tasks, byStatus)
      requires e in dueHeap.Contents() && e.id in tasks && NoDup(tasks[e.id].dependencies)
      modifies this`tasks, this`byStatus, dueHeap
      ensures HeapsOk() && Queued() && Tallied(tasks, byStatus)
      ensures dueHeap.Contents() == old(dueHeap.Contents()) - {e}
      ensures tasks == old(tasks)[e.id := Reblock(old(tasks), old(tasks)[e.id])]
    {
      assert IsDue(tasks, clock, e);
      var removed := dueHeap.Remove(e.id);
      assert removed == Some(e) by { assert removed.Some? ==> IsDue(tasks, clock, removed.value); }
      ReconcileBlocked(e.id);
    }

    /** Walks the due heap from the top until it shows an executable task. */
    method WalkDue() returns (r: Option<Id>)
      requires HeapsOk() && Queued() && Tallied(tasks, byStatus) && Inv(Model())
      modifies this`tasks, this`byStatus, dueHeap, futureHeap
      ensures HeapsOk() && Queued() && Tallied(tasks, byStatus)
      ensures FindsBest(old(tasks), clock, r)
      ensures tasks == ReblockAll(old(tasks), Dangling(old(tasks), clock, r))
    {
      ghost var s, seen: set<Id> := Model(), {};
      assert ReblockAll(tasks, {}) == tasks;
      while true
        invariant HeapsOk() && Queued() && Tallied(tasks, byStatus)
        invariant Walked(s.tasks, clock, dueHeap.Contents(), seen) && tasks == ReblockAll(s.tasks, seen)
        decreases dueHeap.Contents()
      {
        var top := dueHeap.Peek();
        if top.None? {
          WalkedToEnd(s, tasks, {}, futureHeap.Contents(), seen);
          return None;
        }
        var e := top.value;
        assert IsDue(tasks, clock, e);
        if e.id !in tasks || tasks[e.id].status != READY {
          // No heap entry is ever stale.
          assert false;
        } else if tasks[e.id].executeTime > clock {
          // The clock never goes back, so the due heap holds only due tasks.
          assert false;
        }
        var satisfied := DependenciesSatisfied(tasks[e.id]);
        if satisfied {
          WalkedToTop(s, tasks, dueHeap.Contents(), futureHeap.Contents(), seen, e);
          return Some(e.id);
        }
        WalkedOne(s, tasks, dueHeap.Contents(), futureHeap.Contents(), seen, e);
        assert ListAt(s.tasks, e.id);
        BlockTop(e);
        seen := seen + {e.id};
      }
    }

    /** Finds the next executable task and leaves it queued. */
    method FindNext(now: Option<int>) returns (r: Option<Id>)
      requires Valid()
      modifies this, dueHeap, futureHeap
      ensures Valid()
      ensures FindsBest(old(tasks), Advanced(old(clock), now), r)
      ensures Model() == AfterSearch(old(Model()), now, r)
    {
      PromotingStarts(tasks, clock, Advanced(clock, now), dueHeap.Contents(), futureHeap.Contents());
      AdvanceClock(now);
      PromoteDue();
      r := WalkDue();
      SearchKeepsInv(old(Model()), now, r);
      EdgesReblocked(old(tasks), Dangling(old(tasks), clock, r), depsOf, dependents, totalEdges);
    }

    method PeekNextExecutable(now: Option<int>) returns (r: Option<Id>)
      requires Valid()
      modifies this, dueHeap, futureHeap
      ensures Valid()
      ensures FindsBest(old(tasks), Advanced(old(clock), now), r)
      ensures Model() == AfterSearch(old(Model()), now, r) && Step(old(Model()), Peek(now), Model())
    {
      r := FindNext(now);
    }

    method ClaimNextExecutable(now: Option<int>) returns (r: Option<Id>)
      requires Valid()
      modifies this, dueHeap, futureHeap
      ensures Valid()
      ensures FindsBest(old(tasks), Advanced(old(clock), now), r)
      ensures Model() == AfterClaim(old(Model()), now, r) && Step(old(Model()), Claim(now), Model())
      ensures r.Some? ==>
        && r.value in tasks && tasks[r.value].status == RUNNING
        && forall k :: Executable(old(tasks), clock, k) && k != r.value ==>
          var t, u := tasks[r.value], old(tasks)[k];
          || t.priority > u.priority
          || (t.priority == u.priority && t.executeTime < u.executeTime)
          || (t.priority == u.priority && t.executeTime == u.executeTime && t.sequence < u.sequence)
    {
      r := FindNext(now);
      if r.Some? {
        Leave(r.value, RUNNING);
      }
    }

    /** What happens when an executor ends, in whatever state the calls made meanwhile have left. */
    method SettleExecution(id: Id, succeeds: bool) returns (r: Result<Task>)
      requires Valid()
      modifies this, dueHeap, futureHeap
      ensures Valid()
      ensures r == SettleResult(old(Model()), id, succeeds)
      ensures Step(old(Model()), if succeeds then Complete(id) else Fail(id), Model())
    {
      r := Err(ExecutorFailed);
      if succeeds {
        r := CompleteTask(id);
        if r.Ok? {
          return;
        }
      }
      var failed := FailTask(id);
      if failed.Err? {
        r := failed;
      }
    }

    /** Any one of the public operations. */
    method Perform(op: Op)
      requires Valid()
      modifies this, dueHeap, futureHeap
      ensures Valid() && Step(old(Model()), op, Model())
    {
      match op {
        case Add(input) => var _ := AddTask(input);
        case Update(id, u, expectedVersion) => var _ := UpdateTask(id, u, expectedVersion);
        case Delete(id) => var _ := DeleteTask(id);
        case Complete(id) => var _ := CompleteTask(id);
        case Fail(id) => var _ := FailTask(id);
        case Cancel(id) => var _ := CancelTask(id);
        case Peek(now) => var _ := PeekNextExecutable(now);
        case Claim(now) => var _ := ClaimNextExecutable(now);
        case Clear => Clear();
      }
    }

    method PerformAll(ops: seq<Op>) returns (ghost states: seq<State>)
      requires Valid()
      modifies this, dueHeap, futureHeap
      ensures Valid() && Path(states, ops) && states[0] == old(Model()) && states[|ops|] == Model()
    {
      states := [Model()];
      for i := 0 to |ops|
        invariant Valid() && Path(states, ops[..i]) && states[0] == old(Model()) && states[i] == Model()
      {
        Perform(ops[i]);
        PathOn(states, ops[..i], ops[i], Model());
        states := states + [Model()];
        assert ops[..i + 1] == ops[..i] + [ops[i]];
      }
      assert ops[..|ops|] == ops;
    }

    /** An executor's time: any other operations, and then its end. */
    method AwaitExecutor(id: Id, succeeds: bool, meanwhile: seq<Op>)
      returns (outcome: Result<Task>, ghost states: seq<State>)
      requires Valid()
      modifies this, dueHeap, futureHeap
      ensures Valid() && Path(states, meanwhile + [if succeeds then Complete(id) else Fail(id)])
      ensures states[0] == old(Model()) && Model() == states[|meanwhile| + 1]
      ensures outcome == SettleResult(states[|meanwhile|], id, succeeds)
    {
      states := PerformAll(meanwhile);
      outcome := SettleExecution(id, succeeds);
      PathOn(states, meanwhile, if succeeds then Complete(id) else Fail(id), Model());
      states := states + [Model()];
    }

    /**
     * Claims a task, lets its executor run, and settles it.  While the executor is pending any
     * other operations may be carried out; they are those in meanwhile.
     */
    method ExecuteNextTask(succeeds: bool, now: Option<int>, meanwhile: seq<Op>)
      returns (r: Option<Id>, outcome: Option<Result<Task>>, ghost states: seq<State>)
      requires Valid()
      modifies this, dueHeap, futureHeap
      ensures Valid() && FindsBest(old(tasks), Advanced(old(clock), now), r)
      ensures |states| > 0 && Step(old(Model()), Claim(now), states[0]) && states[0] == AfterClaim(old(Model()), now, r)
      ensures r.None? ==> outcome == None && Model() == states[0]
      ensures r.Some? ==>
        && Path(states, meanwhile + [if succeeds then Complete(r.value) else Fail(r.value)])
        && outcome == Some(SettleResult(states[|meanwhile|], r.value, succeeds))
        && Model() == states[|meanwhile| + 1]
    {
      outcome := None;
      r := ClaimNextExecutable(now);
      states := [Model()];
      if r.Some? {
        var settled;
        settled, states := AwaitExecutor(r.value, succeeds, meanwhile);
        outcome := Some(settled);
      }
    }

    method NextWakeTime() returns (wake: Option<int>)
      requires Valid()
      ensures IsWakeTime(Model(), wake)
    {
      var due := dueHeap.Peek();
      if due.Some? {
        assert IsDue(tasks, clock, due.value);
        return Some(clock);
      }
      forall k | k in tasks && tasks[k].status == READY ensures IsFuture(tasks, clock, EntryOf(k, tasks[k])) {
        assert !IsDue(tasks, clock, EntryOf(k, tasks[k]));
      }
      var top := futureHeap.Peek();
      if top.Some? {
        assert IsFuture(tasks, clock, top.value);
        return Some(top.value.executeTime);
      }
      return None;
    }

    /** Wipes everything but the clock. */
    method Clear()
      requires Valid()
      modifies this, dueHeap, futureHeap
      ensures Valid() && Step(old(Model()), Op.Clear, Model())
    {
      WipeRecords();
      EmptyHeaps();
    }

    method WipeRecords()
      modifies this
      ensures Model() == old(Model()).(tasks := map[], sequence := 0) && Inv(Model())
      ensures EdgesOk(tasks, depsOf, dependents, totalEdges) && Tallied(tasks, byStatus)
    {
      tasks, depsOf, dependents := map[], map[], map[];
      sequence, totalEdges := 0, 0;
      byStatus := map[PENDING := 0, READY := 0, RUNNING := 0, COMPLETED := 0, FAILED := 0, CANCELLED := 0];
      NothingRecorded(byStatus);
      ClearKeepsInv(Model());
    }

    method EmptyHeaps()
      requires HeapsOk() && tasks == map[]
      modifies dueHeap, futureHeap
      ensures HeapsOk() && Queued()
    {
      dueHeap.Clear();
      futureHeap.Clear();
    }

    /** The naive scan. */
    method GetExecutableTasks() returns (out: set<Id>)
      ensures forall k :: k in out <==> Executable(tasks, clock, k)
    {
      out := {};
      var todo := tasks.Keys;
      while todo != {}
        invariant todo <= tasks.Keys
        invariant forall k :: k in out <==> k !in todo && Executable(tasks, clock, k)
      {
        var k :| k in todo;
        todo := todo - {k};
        var satisfied := DependenciesSatisfied(tasks[k]);
        if tasks[k].status == READY && tasks[k].executeTime <= clock && satisfied {
          out := out + {k};
        }
      }
    }

    /** The audit of the whole forward graph. */
    method AuditCycles() returns (r: Option<seq<Id>>)
      requires Valid()
      ensures r.None? <==> Acyclic(Forward(tasks))
      ensures r.Some? ==> ClosedWalk(Forward(tasks), r.value)
    {
      r := FindCycle(depsOf);
    }

    method WouldCreateCycle(id: Id, dep: Id) returns (yes: bool)
      requires Valid()
      ensures yes <==> Reaches(Forward(tasks), dep, id)
    {
      var path := DepPath(depsOf, dep, id);
      return path.Some?;
    }
  }
}

/** The single-heap scheduler itself: records, reverse edges and heap updated in place. */
module ContagionScheduler {
  import opened Graphs
  import opened GraphSearch
  import opened HeapOrder
  import opened ContagionHeap
  import opened ContagionModel
  import opened ContagionEffects
  import opened ContagionSearch

  // ---------- The heap against the records ----------

  /** compareIds is a strict order on ids that have records. */
  lemma OrderIsStrict(tasks: Tasks, s: set<Id>)
    requires s <= tasks.Keys
    ensures StrictWeakOrder(ById(tasks), s)
  {
    var before := ById(tasks);
    forall a, b | a in s && b in s && before(a, b) ensures !before(b, a) {
      if IdLess(a, b) { IdLessAsym(a, b); }
    }
    forall a, b, c | a in s && b in s && c in s && !before(a, b) && !before(b, c) ensures !before(a, c) {
      BeforeTrans(tasks, a, b, c);
    }
  }

  lemma BeforeTotal(tasks: Tasks, a: Id, b: Id)
    requires a in tasks && b in tasks && a != b
    ensures Before(tasks, a, b) || Before(tasks, b, a)
  {
    IdLessTotal(a, b);
  }

  lemma BeforeTrans(tasks: Tasks, a: Id, b: Id, c: Id)
    requires a in tasks && b in tasks && c in tasks && !Before(tasks, a, b) && !Before(tasks, b, c)
    ensures !Before(tasks, a, c)
  {
    if Before(tasks, a, c) && a != b && b != c {
      IdLessTotal(a, b);
      IdLessTotal(b, c);
      if IdLess(b, a) && IdLess(c, b) {
        IdLessTrans(c, b, a);
      }
      if IdLess(a, c) { IdLessAsym(a, c); }
    }
  }

  ghost predicate SameKey(a: Task, b: Task) {
    a.priority == b.priority && a.executeTime == b.executeTime && a.createdAt == b.createdAt
  }

  ghost predicate SameKeys(a: Tasks, b: Tasks, items: seq<Id>) {
    forall id :: id in items ==> id in a && id in b && SameKey(a[id], b[id])
  }

  /** With the same keys the same arrangements are in order, as a whole or but for one item. */
  lemma OrderKept(a: Tasks, b: Tasks, items: seq<Id>, item: Id)
    requires SameKeys(a, b, items)
    ensures Ordered(items, ById(a), 0) <==> Ordered(items, ById(b), 0)
    ensures OrderedBut(items, ById(a), item) <==> OrderedBut(items, ById(b), item)
  {
    forall i, j | 0 <= i < |items| && 0 <= j < |items|
      ensures ById(a)(items[i], items[j]) == ById(b)(items[i], items[j])
    {
      assert items[i] in items && items[j] in items;
    }
    forall i | 0 < i < |items| ensures Settled(items, ById(a), i) <==> Settled(items, ById(b), i) {}
    forall i | 0 <= i < |items| ensures Loose(items, ById(a), i) <==> Loose(items, ById(b), i) {}
  }

  /** A heap in order is in order but for any item one likes. */
  lemma OrderedIsOrderedBut(tasks: Tasks, items: seq<Id>, index: map<Id, nat>, item: Id)
    requires Indexed(items, index) && Elements(items) <= tasks.Keys && Ordered(items, ById(tasks), 0)
    ensures OrderedBut(items, ById(tasks), item)
  {
    IndexedMembers(items, index, item);
    if item in items {
      OrderIsStrict(tasks, Elements(items));
      OrderedIsLoose(items, ById(tasks), index[item]);
    }
  }

  /** A key change of one item disturbs the order at that item only. */
  lemma KeyChange(a: Tasks, b: Tasks, items: seq<Id>, index: map<Id, nat>, item: Id)
    requires Indexed(items, index) && OrderedBut(items, ById(a), item) && Elements(items) <= a.Keys
    requires a.Keys <= b.Keys && forall id :: id in a && id != item ==> SameKey(a[id], b[id])
    ensures OrderedBut(items, ById(b), item)
  {
    IndexedMembers(items, index, item);
    if item in items {
      LooseAtItem(items, index, ById(a), item);
      var h := index[item];
      forall i | 0 < i < |items| && i != h && Parent(i) != h ensures Settled(items, ById(b), i) {
        assert Settled(items, ById(a), i);
        assert items[i] in Elements(items) && items[Parent(i)] in Elements(items);
      }
      BridgeSame(a, b, items, h);
      assert Loose(items, ById(b), h);
    } else {
      forall id | id in items ensures SameKey(a[id], b[id]) { assert id in Elements(items); }
      OrderKept(a, b, items, item);
    }
  }

  lemma BridgeSame(a: Tasks, b: Tasks, items: seq<Id>, h: nat)
    requires h < |items| && Bridged(items, ById(a), h) && Elements(items) <= a.Keys <= b.Keys
    requires forall i :: 0 <= i < |items| && i != h ==> SameKey(a[items[i]], b[items[i]])
    ensures Bridged(items, ById(b), h)
  {
  }

  /** Heap members have records, READY or failed by contagion; every READY task is a member. */
  ghost predicate Members(tasks: Tasks, items: seq<Id>) {
    && (forall id :: id in items ==> id in tasks && (tasks[id].status == READY || tasks[id].status == FAILED))
    && forall k :: k in tasks && tasks[k].status == READY ==> k in items
  }

  /** The same, except that nothing is said about id. */
  ghost predicate MembersBut(tasks: Tasks, items: seq<Id>, id: Id) {
    && (forall k :: k in items ==> k in tasks && (k == id || tasks[k].status == READY || tasks[k].status == FAILED))
    && forall k :: k in tasks && k != id && tasks[k].status == READY ==> k in items
  }

  ghost predicate QueueOk(tasks: Tasks, items: seq<Id>) {
    Members(tasks, items) && Ordered(items, ById(tasks), 0)
  }

  /** Marking live tasks FAILED leaves the heap as good as it was. */
  lemma QueueMarked(tasks: Tasks, items: seq<Id>, ids: set<Id>)
    requires Members(tasks, items)
    ensures Members(MarkFailed(tasks, ids), items)
    ensures Ordered(items, ById(tasks), 0) ==> Ordered(items, ById(MarkFailed(tasks, ids)), 0)
  {
    OrderKept(tasks, MarkFailed(tasks, ids), items, "");
  }

  // ---------- The walk of _propagateFailure ----------

  /** Pending nodes aside, everything visited has been expanded and every live visited task is marked. */
  ghost predicate Swept(tasks: Tasks, g: Graph, origin: Id, visited: set<Id>, pending: seq<Id>, marked: set<Id>) {
    && origin in visited && origin !in pending && (forall v :: v in pending ==> v in visited)
    && (forall v :: v in visited && v !in pending ==> Succ(g, v) <= visited)
    && (forall v :: v in visited && v !in pending && v != origin && v in tasks && !Terminal(tasks[v]) ==> v in marked)
    && (forall v :: v in marked ==> v in visited && v != origin && v in tasks && !Terminal(tasks[v]))
  }

  lemma SweptStart(tasks: Tasks, g: Graph, origin: Id, visited: set<Id>, queue: seq<Id>)
    requires visited == {origin} + Succ(g, origin) && forall v :: v in queue[0..] <==> v in visited - {origin}
    ensures Swept(tasks, g, origin, visited, queue[0..], {})
    ensures MarkFailed(tasks, {}) == tasks
  {
  }

  lemma SweptNext(tasks: Tasks, g: Graph, origin: Id, visited: set<Id>, node: Id, rest: seq<Id>, marked: set<Id>,
                  visited1: set<Id>, pending1: seq<Id>, marked1: set<Id>)
    requires Swept(tasks, g, origin, visited, [node] + rest, marked)
    requires visited1 == visited + Succ(g, node)
    requires rest <= pending1 && forall v :: v in pending1[|rest|..] <==> v in visited1 - visited
    requires marked1 == marked + if node in tasks && !Terminal(tasks[node]) then {node} else {}
    ensures Swept(tasks, g, origin, visited1, pending1, marked1)
  {
    assert forall v :: v in [node] + rest <==> v == node || v in rest;
    assert pending1 == rest + pending1[|rest|..];
  }

  lemma SweptAll(tasks: Tasks, dependents: Graph, origin: Id, visited: set<Id>, marked: set<Id>)
    requires var g := FailureGraph(tasks, dependents, origin);
      Swept(tasks, g, origin, visited, [], marked) && forall v :: v in visited ==> Reaches(g, origin, v)
    ensures marked == Victims(tasks, dependents, origin)
  {
    var g := FailureGraph(tasks, dependents, origin);
    forall v | Reaches(g, origin, v) ensures v in visited {
      if v !in visited {
        ClosedUnderSucc(g, origin, v, visited);
        assert false;
      }
    }
  }

  class TaskScheduler {
    var tasks: Tasks
    var dependents: Graph
    const heap: BinaryHeap
    const maxTasks: Option<nat>
    const allowForwardRefs: bool

    ghost function Model(): State
      reads this
    {
      State(tasks, dependents)
    }

    ghost function Cfg(): Config {
      Config(maxTasks, allowForwardRefs)
    }

    ghost predicate Valid()
      reads this, heap
    {
      heap.Valid() && Members(tasks, heap.items)
    }

    /** Valid but for id: whether its id is in the heap need not go with its status. */
    ghost predicate ValidBut(id: Id)
      reads this, heap
    {
      heap.Valid() && MembersBut(tasks, heap.items, id)
    }

    /** The heap is in order under the keys as they stand. */
    ghost predicate InOrder()
      reads this, heap
    {
      Ordered(heap.items, ById(tasks), 0)
    }

    /** In order but for id, whose key may have been rewritten since it was placed. */
    ghost predicate InOrderBut(id: Id)
      reads this, heap
    {
      OrderedBut(heap.items, ById(tasks), id)
    }

    constructor (maxTasks: Option<nat>, allowForwardRefs: bool)
      ensures Valid() && InOrder() && Model() == State(map[], map[]) && heap.items == []
      ensures this.maxTasks == maxTasks && this.allowForwardRefs == allowForwardRefs && fresh(heap)
    {
      tasks, dependents := map[], map[];
      heap := new BinaryHeap();
      this.maxTasks, this.allowForwardRefs := maxTasks, allowForwardRefs;
    }

    // ---------- Heap helpers ----------

    method HeapRemove(id: Id)
      requires ValidBut(id)
      modifies heap
      ensures ValidBut(id) && id !in heap.items
      ensures heap.Contents() == old(heap.Contents()) - {id}
      ensures old(InOrderBut(id)) ==> InOrder()
    {
      OrderIsStrict(tasks, heap.Contents() - {id});
      var _ := heap.Remove(id, ById(tasks));
      Drops(heap.items, old(heap.items), id);
    }

    method HeapPush(id: Id)
      requires ValidBut(id) && id in tasks && tasks[id].status == READY
      modifies heap
      ensures Valid() && (old(InOrderBut(id)) ==> InOrder())
      ensures ComesLast(old(heap.items), ById(tasks), id) ==> heap.items == old(heap.items) + [id]
    {
      OrderIsStrict(tasks, heap.Contents() + {id});
      heap.Push(id, ById(tasks));
      Gains(heap.items, old(heap.items), id);
    }

    method DepsSatisfied(task: Task) returns (yes: bool)
      ensures yes <==> Satisfied(tasks, task)
    {
      var deps := task.dependencies;
      while deps != {}
        invariant deps <= task.dependencies && forall d :: d in task.dependencies - deps ==> Done(tasks, d)
      {
        var d :| d in deps;
        if !Done(tasks, d) {
          return false;
        }
        deps := deps - {d};
      }
      return true;
    }

    method FindFailedDep(task: Task) returns (r: Option<Id>)
      ensures r.Some? <==> Doomed(tasks, task)
      ensures r.Some? ==> r.value in task.dependencies && Broken(tasks, r.value)
    {
      var deps := task.dependencies;
      while deps != {}
        invariant deps <= task.dependencies && forall d :: d in task.dependencies - deps ==> !Broken(tasks, d)
      {
        var d :| d in deps;
        if Broken(tasks, d) {
          return Some(d);
        }
        deps := deps - {d};
      }
      return None;
    }

    // ---------- Failure propagation ----------

    /** Marks every live task that the failure of origin reaches. */
    method PropagateFailure(origin: Id)
      modifies this`tasks
      ensures tasks == Propagated(old(tasks), dependents, origin)
    {
      if origin !in tasks {
        return;
      }
      ghost var before, marked: set<Id> := tasks, {};
      ghost var g := FailureGraph(tasks, dependents, origin);
      ghost var nodes := Universe(g, origin);
      var visited, queue := QueueDependents(origin, g);
      var head := 0;
      while head < |queue|
        invariant head <= |queue| && visited <= nodes
        invariant forall v :: v in visited ==> Reaches(g, origin, v)
        invariant Swept(before, g, origin, visited, queue[head..], marked)
        invariant tasks == MarkFailed(before, marked)
        decreases nodes - visited, |queue| - head
      {
        var node := queue[head];
        ghost var was, queued := visited, queue;
        assert queue[head..] == [node] + queue[head + 1..];
        visited, queue, marked := VisitDependent(node, visited, queue, origin, g, before, queue[head + 1..], marked);
        head := head + 1;
        QueueTail(queued, head, queue);
        if visited != was { RoomShrinks(nodes, was, visited); }
      }
      assert queue[head..] == [];
      SweptAll(before, dependents, origin, visited, marked);
    }

    method QueueDependents(origin: Id, ghost g: Graph) returns (visited: set<Id>, queue: seq<Id>)
      requires g == FailureGraph(tasks, dependents, origin)
      ensures visited == {origin} + Succ(g, origin) && forall v :: v in visited ==> Reaches(g, origin, v)
      ensures Swept(tasks, g, origin, visited, queue[0..], {}) && MarkFailed(tasks, {}) == tasks
    {
      ReachesSelf(g, origin);
      assert Succ(g, origin) == Succ(dependents, origin);
      visited, queue := Enqueue(Succ(dependents, origin), g, origin, origin, {origin}, []);
      SweptStart(tasks, g, origin, visited, queue);
    }

    /** Takes one queued dependent: marks it if it is live, and goes on through it unless it is missing or COMPLETED. */
    method VisitDependent(node: Id, visited0: set<Id>, queue0: seq<Id>, ghost origin: Id, ghost g: Graph,
                          ghost before: Tasks, ghost rest: seq<Id>, ghost marked0: set<Id>)
      returns (visited: set<Id>, queue: seq<Id>, ghost marked: set<Id>)
      requires g == FailureGraph(before, dependents, origin) && tasks == MarkFailed(before, marked0)
      requires Swept(before, g, origin, visited0, [node] + rest, marked0)
      requires forall v :: v in visited0 ==> Reaches(g, origin, v)
      modifies this`tasks
      ensures tasks == MarkFailed(before, marked) && visited == visited0 + Succ(g, node)
      ensures queue0 <= queue && Swept(before, g, origin, visited, rest + queue[|queue0|..], marked)
      ensures visited == visited0 ==> queue == queue0
      ensures forall v :: v in visited ==> Reaches(g, origin, v)
    {
      visited, queue, marked := visited0, queue0, marked0;
      assert node in [node] + rest;
      assert Succ(g, node) == if Passes(before, node) then Succ(dependents, node) else {};
      if node in tasks {
        if !Terminal(tasks[node]) {
          tasks := WithStatus(tasks, node, FAILED);
          visited, queue := Enqueue(Succ(dependents, node), g, origin, node, visited, queue);
        } else if Broken(tasks, node) {
          visited, queue := Enqueue(Succ(dependents, node), g, origin, node, visited, queue);
        }
      }
      assert (rest + queue[|queue0|..])[|rest|..] == queue[|queue0|..];
      SweptNext(before, g, origin, visited0, node, rest, marked0, visited, rest + queue[|queue0|..],
                marked0 + if node in before && !Terminal(before[node]) then {node} else {});
      if node in before && !Terminal(before[node]) {
        MarkOne(before, marked0, node);
        marked := marked0 + {node};
      }
    }

    // ---------- Reconciling ----------

    /** Takes a task out of the heap for a status that is not queued. */
    method LeaveHeap(id: Id, status: Status)
      requires ValidBut(id) && id in tasks && status != READY
      modifies this`tasks, heap
      ensures Valid() && tasks == WithStatus(old(tasks), id, status) && id !in heap.items
      ensures old(InOrderBut(id)) ==> InOrder()
    {
      HeapRemove(id);
      tasks := WithStatus(tasks, id, status);
      OrderKept(old(tasks), tasks, heap.items, id);
    }

    /** Sets a broken status, takes the task out of the heap and spreads the failure. */
    method Break(id: Id, status: Status)
      requires ValidBut(id) && id in tasks && (status == FAILED || status == CANCELLED)
      modifies this`tasks, heap
      ensures Valid() && tasks == Propagated(WithStatus(old(tasks), id, status), dependents, id)
      ensures old(InOrderBut(id)) ==> InOrder()
    {
      LeaveHeap(id, status);
      ghost var broken := tasks;
      PropagateFailure(id);
      QueueMarked(broken, heap.items, Victims(broken, dependents, id));
    }

    /** Recomputes a task's status from its dependencies. */
    method ReconcileStatus(id: Id)
      requires Valid() && id in tasks && !Terminal(tasks[id])
      modifies this`tasks, heap
      ensures Valid() && tasks == Reconciled(old(tasks), dependents, id)
      ensures old(InOrderBut(id)) ==>
        InOrder() || (tasks == old(tasks) && heap.items == old(heap.items) && tasks[id].status == READY)
      ensures
        old(tasks)[id].status == PENDING && tasks[id].status == READY && ComesLast(old(heap.items), ById(tasks), id) ==>
          heap.items == old(heap.items) + [id]
    {
      var failedDep := FindFailedDep(tasks[id]);
      if failedDep.Some? {
        Break(id, FAILED);
        return;
      }
      var satisfied := DepsSatisfied(tasks[id]);
      if satisfied {
        if tasks[id].status == PENDING {
          Promote(id);
        }
        return;
      }
      if tasks[id].status == READY {
        LeaveHeap(id, PENDING);
      }
    }

    method Promote(id: Id)
      requires ValidBut(id) && id in tasks && id !in heap.items
      modifies this`tasks, heap
      ensures Valid() && tasks == WithStatus(old(tasks), id, READY)
      ensures old(InOrder()) ==> InOrder()
      ensures ComesLast(old(heap.items), ById(tasks), id) ==> heap.items == old(heap.items) + [id]
    {
      tasks := WithStatus(tasks, id, READY);
      OrderKept(old(tasks), tasks, heap.items, id);
      HeapPush(id);
    }

    /** Puts a READY task whose key changed where it now belongs. */
    method Reseat(id: Id)
      requires Valid() && id in tasks && tasks[id].status == READY
      modifies heap
      ensures Valid() && (old(InOrderBut(id)) ==> InOrder())
    {
      HeapRemove(id);
      HeapPush(id);
    }

    /** Promotes the direct dependents of a completed task whose dependencies are now all COMPLETED. */
    method UnblockDependents(id: Id)
      requires Valid()
      modifies this`tasks, heap
      ensures Valid() && tasks == Unblocked(old(tasks), Succ(dependents, id))
      ensures old(InOrder()) ==> InOrder()
    {
      ghost var before, all := tasks, Succ(dependents, id);
      var waiting := Succ(dependents, id);
      assert Unblocked(before, {}) == before;
      while waiting != {}
        invariant Valid() && waiting <= all && tasks == Unblocked(before, all - waiting)
        invariant old(InOrder()) ==> InOrder()
      {
        var k :| k in waiting;
        UnblockOne(before, all - waiting, k);
        assert all - (waiting - {k}) == all - waiting + {k};
        waiting := waiting - {k};
        if k in tasks && tasks[k].status == PENDING {
          var satisfied := DepsSatisfied(tasks[k]);
          if satisfied {
            Promote(k);
          }
        }
      }
      assert all - {} == all;
    }

    // ---------- Edges ----------

    method AddDependents(id: Id, deps: set<Id>)
      modifies this`dependents
      ensures dependents == Linked(old(dependents), id, deps)
    {
      ghost var before := dependents;
      var todo := deps;
      assert dependents == Linked(before, id, {});
      while todo != {}
        invariant todo <= deps && dependents == Linked(before, id, deps - todo)
      {
        var d :| d in todo;
        todo := todo - {d};
        dependents := dependents[d := Succ(dependents, d) + {id}];
      }
      assert deps - {} == deps;
    }

    method RemoveDependents(id: Id, deps: set<Id>)
      modifies this`dependents
      ensures dependents == Unlinked(old(dependents), id, deps)
    {
      ghost var before := dependents;
      var todo := deps;
      assert dependents == Unlinked(before, id, {});
      while todo != {}
        invariant todo <= deps && dependents == Unlinked(before, id, deps - todo)
      {
        var d :| d in todo;
        UnlinkOne(before, id, deps - todo, d);
        assert deps - (todo - {d}) == deps - todo + {d};
        todo := todo - {d};
        if id in Succ(dependents, d) {
          if dependents[d] == {id} {
            dependents := dependents - {d};
          } else {
            dependents := dependents[d := dependents[d] - {id}];
          }
        }
      }
      assert deps - {} == deps;
    }

    /** Checks every dependency before any edge is registered. */
    method ValidateDeps(id: Id, deps: seq<Id>) returns (r: Result<set<Id>>)
      ensures r.Ok? <==> GoodDeps(tasks, allowForwardRefs, id, deps)
      ensures r.Ok? ==> r.value == ToSet(deps)
      ensures r.Err? ==> FirstBlamed(tasks, allowForwardRefs, id, deps, r.error)
    {
      var out: set<Id> := {};
      var g := Forward(tasks);
      for i := 0 to |deps|
        invariant out == ToSet(deps[..i]) && GoodDeps(tasks, allowForwardRefs, id, deps[..i])
      {
        var d := deps[i];
        assert deps[..i + 1] == deps[..i] + [d] && d in deps;
        if d == "" {
          return Err(InvalidDependency(d));
        }
        if d == id {
          return Err(CycleFound([id, id]));
        }
        if d !in tasks {
          if !allowForwardRefs {
            return Err(InvalidDependency(d));
          }
        } else {
          var cyclic := WouldCreateCycle(g, id, d);
          if cyclic {
            var path := WitnessPath(g, id, d);
            return Err(CycleFound(path.value));
          }
        }
        out := out + {d};
      }
      assert deps[..|deps|] == deps;
      return Ok(out);
    }

    // ---------- Operations ----------

    method AddTask(id: Id, priority: Option<int>, executeTime: Option<int>, deps: seq<Id>, now: int)
      returns (r: Result<Id>)
      requires Valid()
      modifies this, heap
      ensures Valid() && (old(InOrder()) ==> InOrder())
      ensures var refused := AddGuard(old(tasks), maxTasks, id);
        && (refused.Some? ==> r == Err(refused.value))
        && (refused.None? && r.Err? ==> FirstBlamed(old(tasks), allowForwardRefs, id, deps, r.error))
      ensures r.Ok? <==> AddAccepted(old(Model()), maxTasks, allowForwardRefs, id, deps)
      ensures r.Ok? && id in tasks && tasks[id].status == READY && ComesLast(old(heap.items), ById(tasks), id) ==>
        heap.items == old(heap.items) + [id]
      ensures Step(Cfg(), old(Model()), Add(id, priority, executeTime, deps, now), Model())
    {
      var refused := AddGuard(tasks, maxTasks, id);
      if refused.Some? {
        return Err(refused.value);
      }
      var checked := ValidateDeps(id, deps);
      if checked.Err? {
        return Err(checked.error);
      }
      Insert(id, NewTask(priority, executeTime, deps, now));
      return Ok(id);
    }

    /** Registers the reverse edges of a new task, records it and reconciles it. */
    method Insert(id: Id, task: Task)
      requires Valid() && id !in tasks && task.status == PENDING
      modifies this, heap
      ensures Valid() && (old(InOrder()) ==> InOrder())
      ensures Model() == AfterAdd(old(Model()), id, task)
      ensures id in tasks
      ensures tasks[id].status == READY && ComesLast(old(heap.items), ById(tasks), id) ==>
        heap.items == old(heap.items) + [id]
    {
      AddDependents(id, task.dependencies);
      tasks := tasks[id := task];
      OrderKept(old(tasks), tasks, heap.items, id);
      ReconcileStatus(id);
    }

    /**
     * A refused dependency list leaves the dependencies alone, but by then a new priority or
     * executeTime has already been written into the record.  A heap in order stays so exactly
     * when nothing was refused past the guard, the task is not queued, or the key fits its slot;
     * an accepted update of the key repairs an order that only this task disturbs.
     */
    method UpdateTask(id: Id, u: Update) returns (r: Result<Id>)
      requires Valid()
      modifies this, heap
      ensures Valid()
      ensures r.Ok? <==> UpdateAccepted(old(Model()), allowForwardRefs, id, u)
      ensures var refused := UpdateGuard(old(tasks), id, u);
        && (refused.Some? ==> r == Err(refused.value))
        && (refused.None? && r.Err? ==>
              u.dependencies.Some? && FirstBlamed(old(tasks), allowForwardRefs, id, u.dependencies.value, r.error))
      ensures Step(Cfg(), old(Model()), Change(id, u), Model())
      ensures r.Err? ==> heap.items == old(heap.items)
      ensures old(InOrder()) ==>
        (InOrder() <==> r.Ok? || id !in old(tasks) || old(tasks)[id].status != READY || FitsWhereItIs(id))
      ensures old(InOrder()) ==> r.Ok? || InOrderBut(id)
      ensures old(InOrderBut(id)) && r.Ok? && (u.priority.Some? || u.executeTime.Some?) ==> InOrder()
    {
      if InOrder() { OrderedIsOrderedBut(tasks, heap.items, heap.index, id); }
      var refused := UpdateGuard(tasks, id, u);
      if refused.Some? {
        return Err(refused.value);
      }
      WriteKeys(id, u);
      if u.dependencies.Some? {
        GoodDepsSame(old(tasks), tasks, allowForwardRefs, id, u.dependencies.value);
        var checked := ValidateDeps(id, u.dependencies.value);
        if checked.Err? {
          BlamedSame(tasks, old(tasks), allowForwardRefs, id, u.dependencies.value, checked.error);
          InOrderFits(id);
          return Err(checked.error);
        }
        ApplyUpdate(id, u, checked.value);
        Overwrite(old(tasks), id, WithKeys(old(tasks)[id], u),
          WithKeys(old(tasks)[id], u).(dependencies := checked.value));
      } else {
        Settle(id, u.priority.Some? || u.executeTime.Some?);
      }
      return Ok(id);
    }

    /** The entry of id, if it is queued, holds its own among its parent and its children. */
    ghost predicate FitsWhereItIs(id: Id)
      requires heap.Valid()
      reads this, heap
    {
      id in heap.index ==> Fits(heap.items, ById(tasks), heap.index[id])
    }

    lemma InOrderFits(id: Id)
      requires Valid() && id in tasks && !Terminal(tasks[id])
      ensures InOrderBut(id) ==> (InOrder() <==> tasks[id].status != READY || FitsWhereItIs(id))
    {
      IndexedMembers(heap.items, heap.index, id);
      if InOrderBut(id) && id in heap.items {
        LooseAtItem(heap.items, heap.index, ById(tasks), id);
        FitsIff(heap.items, ById(tasks), heap.index[id]);
      }
    }

    method ApplyUpdate(id: Id, u: Update, newDeps: set<Id>)
      requires Valid() && id in tasks && !Terminal(tasks[id])
      modifies this`tasks, this`dependents, heap
      ensures Valid()
      ensures dependents == Relinked(old(dependents), id, old(tasks)[id].dependencies, newDeps)
      ensures tasks == Reconciled(old(tasks)[id := old(tasks)[id].(dependencies := newDeps)], dependents, id)
      ensures (if u.priority.Some? || u.executeTime.Some? then old(InOrderBut(id)) else old(InOrder())) ==> InOrder()
    {
      ReplaceDeps(id, newDeps);
      Settle(id, u.priority.Some? || u.executeTime.Some?);
    }

    /** Writes priority and executeTime into the record while its id stays where it is in the heap. */
    method WriteKeys(id: Id, u: Update)
      requires Valid() && id in tasks && !Terminal(tasks[id])
      modifies this`tasks
      ensures Valid() && tasks == old(tasks)[id := WithKeys(old(tasks)[id], u)]
      ensures old(InOrderBut(id)) ==> InOrderBut(id)
      ensures u.priority.None? && u.executeTime.None? && old(InOrder()) ==> InOrder()
    {
      ghost var after := tasks[id := WithKeys(tasks[id], u)];
      if InOrderBut(id) { KeyChange(tasks, after, heap.items, heap.index, id); }
      assert tasks[id := tasks[id]] == tasks;
      tasks := tasks[id := WithKeys(tasks[id], u)];
    }

    method ReplaceDeps(id: Id, newDeps: set<Id>)
      requires Valid() && id in tasks
      modifies this`tasks, this`dependents
      ensures Valid() && tasks == old(tasks)[id := old(tasks)[id].(dependencies := newDeps)]
      ensures dependents == Relinked(old(dependents), id, old(tasks)[id].dependencies, newDeps)
      ensures old(InOrder()) ==> InOrder()
      ensures old(InOrderBut(id)) ==> InOrderBut(id)
    {
      var oldDeps := tasks[id].dependencies;
      RemoveDependents(id, oldDeps - newDeps);
      AddDependents(id, newDeps - oldDeps);
      tasks := tasks[id := tasks[id].(dependencies := newDeps)];
      OrderKept(old(tasks), tasks, heap.items, id);
    }

    /** Reconciles an updated task and re-seats it if its key was written. */
    method Settle(id: Id, keyWritten: bool)
      requires Valid() && id in tasks && !Terminal(tasks[id])
      modifies this`tasks, heap
      ensures Valid() && tasks == Reconciled(old(tasks), dependents, id)
      ensures (if keyWritten then old(InOrderBut(id)) else old(InOrder())) ==> InOrder()
    {
      if InOrder() { OrderedIsOrderedBut(tasks, heap.items, heap.index, id); }
      ReconcileStatus(id);
      if keyWritten && tasks[id].status == READY {
        if InOrder() { OrderedIsOrderedBut(tasks, heap.items, heap.index, id); }
        Reseat(id);
      }
    }

    /** Fails everything downstream first, then drops the task, its own edges and its dependent list. */
    method DeleteTask(id: Id) returns (r: Result<Id>)
      requires Valid()
      modifies this, heap
      ensures Valid() && (old(InOrder()) ==> InOrder())
      ensures r == if id in old(tasks) then Ok(id) else Err(UnknownTask)
      ensures Step(Cfg(), old(Model()), Delete(id), Model())
    {
      if id !in tasks {
        return Err(UnknownTask);
      }
      var task := tasks[id];
      PropagateFailure(id);
      QueueMarked(old(tasks), heap.items, Victims(old(tasks), dependents, id));
      RemoveDependents(id, task.dependencies);
      dependents := dependents - {id};
      if InOrder() { OrderedIsOrderedBut(tasks, heap.items, heap.index, id); }
      HeapRemove(id);
      ghost var kept := tasks;
      tasks := tasks - {id};
      OrderKept(kept, tasks, heap.items, id);
      return Ok(id);
    }

    method CompleteTask(id: Id) returns (r: Result<Id>)
      requires Valid()
      modifies this, heap
      ensures Valid() && (old(InOrder()) ==> InOrder())
      ensures r == if id !in old(tasks) then Err(UnknownTask)
                   else if old(tasks)[id].status == PENDING then Err(InvalidStatus)
                   else if Terminal(old(tasks)[id]) then Err(TerminalTask)
                   else Ok(id)
      ensures Step(Cfg(), old(Model()), Complete(id), Model())
    {
      if id !in tasks {
        return Err(UnknownTask);
      }
      if tasks[id].status == PENDING {
        return Err(InvalidStatus);
      }
      if Terminal(tasks[id]) {
        return Err(TerminalTask);
      }
      if InOrder() { OrderedIsOrderedBut(tasks, heap.items, heap.index, id); }
      Finish(id);
      return Ok(id);
    }

    method Finish(id: Id)
      requires ValidBut(id) && id in tasks
      modifies this`tasks, heap
      ensures Valid() && Model() == AfterComplete(old(Model()), id)
      ensures old(InOrderBut(id)) ==> InOrder()
    {
      LeaveHeap(id, COMPLETED);
      UnblockDependents(id);
    }

    method FailTask(id: Id) returns (r: Result<Id>)
      requires Valid()
      modifies this, heap
      ensures Valid() && (old(InOrder()) ==> InOrder())
      ensures r == if id !in old(tasks) then Err(UnknownTask)
                   else if Terminal(old(tasks)[id]) then Err(TerminalTask)
                   else Ok(id)
      ensures Step(Cfg(), old(Model()), Fail(id), Model())
    {
      if id !in tasks {
        return Err(UnknownTask);
      }
      if Terminal(tasks[id]) {
        return Err(TerminalTask);
      }
      if InOrder() { OrderedIsOrderedBut(tasks, heap.items, heap.index, id); }
      Break(id, FAILED);
      return Ok(id);
    }

    method CancelTask(id: Id) returns (r: Result<Id>)
      requires Valid()
      modifies this, heap
      ensures Valid() && (old(InOrder()) ==> InOrder())
      ensures r == if id !in old(tasks) then Err(UnknownTask)
                   else if Terminal(old(tasks)[id]) then Err(TerminalTask)
                   else Ok(id)
      ensures Step(Cfg(), old(Model()), Cancel(id), Model())
    {
      if id !in tasks {
        return Err(UnknownTask);
      }
      if Terminal(tasks[id]) {
        return Err(TerminalTask);
      }
      if InOrder() { OrderedIsOrderedBut(tasks, heap.items, heap.index, id); }
      Break(id, CANCELLED);
      return Ok(id);
    }

    /** Takes a terminal task back to PENDING, or to what its dependencies make of it. */
    method ResetTask(id: Id) returns (r: Result<Id>)
      requires Valid()
      modifies this, heap
      ensures Valid() && (old(InOrder()) ==> InOrder())
      ensures r == if id !in old(tasks) then Err(UnknownTask)
                   else if Terminal(old(tasks)[id]) then Ok(id)
                   else Err(InvalidStatus)
      ensures Step(Cfg(), old(Model()), Reset(id), Model())
    {
      if id !in tasks {
        return Err(UnknownTask);
      }
      if !Terminal(tasks[id]) {
        return Err(InvalidStatus);
      }
      if InOrder() { OrderedIsOrderedBut(tasks, heap.items, heap.index, id); }
      LeaveHeap(id, PENDING);
      ReconcileStatus(id);
      return Ok(id);
    }

    method Clear()
      modifies this, heap
      ensures Valid() && InOrder() && Step(Cfg(), old(Model()), Op.Clear, Model())
    {
      tasks, dependents := map[], map[];
      heap.Clear();
    }

    // ---------- Queries ----------

    /** The naive scan that selection has to agree with. */
    method GetExecutableTasks(now: int) returns (out: set<Id>)
      ensures forall k :: k in out <==> Executable(tasks, now, k)
    {
      out := {};
      var todo := tasks.Keys;
      while todo != {}
        invariant todo <= tasks.Keys
        invariant forall k :: k in out <==> k !in todo && Executable(tasks, now, k)
      {
        var k :| k in todo;
        todo := todo - {k};
        var satisfied := DepsSatisfied(tasks[k]);
        if tasks[k].status == READY && satisfied && tasks[k].executeTime <= now {
          out := out + {k};
        }
      }
    }

    /** The audit of the whole forward graph. */
    method HasCycle() returns (cycle: Option<seq<Id>>)
      ensures cycle.None? <==> Acyclic(Forward(tasks))
      ensures cycle.Some? ==> ClosedWalk(Forward(tasks), cycle.value)
    {
      cycle := FindCycleByParents(Forward(tasks));
    }

    // ---------- Selection ----------

    /**
     * Pops until an executable task shows; READY tasks met on the way are put aside.  With the
     * heap in order that is the best one; in any order an executable root is taken at once.
     */
    method PopExecutable(now: int) returns (r: Option<Id>, deferred: seq<Id>)
      requires Valid()
      modifies heap
      ensures heap.Valid() && SetAside(tasks, heap.items, deferred, r) && Picks(tasks, now, r)
      ensures old(InOrder()) ==> InOrder() && Chosen(tasks, now, r)
      ensures old(heap.items) != [] && Executable(tasks, now, old(heap.items)[0]) ==> r == Some(old(heap.items)[0])
    {
      deferred := [];
      while true
        invariant heap.Valid() && SetAside(tasks, heap.items, deferred, None)
        invariant forall k :: Executable(tasks, now, k) ==> k in heap.items
        invariant old(InOrder()) ==> InOrder()
        invariant old(heap.items) != [] && Executable(tasks, now, old(heap.items)[0]) ==> heap.items == old(heap.items)
        decreases heap.Contents()
      {
        ghost var items := heap.items;
        OrderIsStrict(tasks, heap.Contents());
        r := heap.Pop(ById(tasks));
        if r.None? {
          return;
        }
        var id := r.value;
        Drops(heap.items, items, id);
        SetAsideNext(tasks, items, heap.items, deferred, id);
        if id !in tasks {
          // Deleting a task takes its id out of the heap: no entry is without a record.
          assert false;
        }
        var satisfied := DepsSatisfied(tasks[id]);
        if tasks[id].status == READY && satisfied && tasks[id].executeTime <= now {
          if old(InOrder()) { TopIsChosen(tasks, now, items, id); }
          return;
        }
        if tasks[id].status == READY {
          deferred := deferred + [id];
        }
      }
    }

    /**
     * Chooses an executable task, the best one if the heap is in order, reserves it, and finishes
     * it as the runner says.
     */
    method ExecuteNextTask(now: int, outcome: Outcome) returns (r: Option<Id>)
      requires Valid()
      modifies this, heap
      ensures Valid() && Picks(old(tasks), now, r)
      ensures old(InOrder()) ==> InOrder() && Chosen(old(tasks), now, r)
      ensures old(heap.items) != [] && Executable(old(tasks), now, old(heap.items)[0]) ==> r == Some(old(heap.items)[0])
      ensures Model() == AfterExecute(old(Model()), r, outcome)
      ensures Step(Cfg(), old(Model()), Execute(now, outcome), Model())
      ensures old(InOrder()) && r.Some? ==>
        forall k :: Executable(old(tasks), now, k) && k != r.value ==>
          var id, t, u := r.value, old(tasks)[r.value], old(tasks)[k];
          || t.priority > u.priority
          || (t.priority == u.priority && t.executeTime < u.executeTime)
          || (t.priority == u.priority && t.executeTime == u.executeTime && t.createdAt < u.createdAt)
          || (t.priority == u.priority && t.executeTime == u.executeTime && t.createdAt == u.createdAt &&
              ((|id| < |k| && k[..|id|] == id) ||
               exists i :: 0 <= i < |id| && i < |k| && id[..i] == k[..i] && id[i] < k[i]))
    {
      if |tasks| == 0 {
        return None;
      }
      r := SelectNext(now);
      if r.Some? {
        if old(InOrder()) { ChosenOutranks(tasks, now, r.value); }
        Serve(r.value, outcome);
      }
    }

    /** The pop loop and the loop that puts back what it set aside. */
    method SelectNext(now: int) returns (r: Option<Id>)
      requires Valid()
      modifies heap
      ensures if r.Some? then ValidBut(r.value) && r.value !in heap.items else Valid()
      ensures Picks(tasks, now, r)
      ensures old(InOrder()) ==> InOrder() && Chosen(tasks, now, r)
      ensures old(heap.items) != [] && Executable(tasks, now, old(heap.items)[0]) ==> r == Some(old(heap.items)[0])
    {
      var deferred;
      r, deferred := PopExecutable(now);
      Restore(deferred, r);
    }

    /** Reserves the task chosen and finishes it as the runner says. */
    method Serve(id: Id, outcome: Outcome)
      requires ValidBut(id) && id in tasks && id !in heap.items
      modifies this`tasks, heap
      ensures Valid() && Model() == AfterExecute(old(Model()), Some(id), outcome)
      ensures old(InOrder()) ==> InOrder()
    {
      Reserve(id);
      Conclude(id, outcome);
    }

    method Reserve(id: Id)
      requires ValidBut(id) && id in tasks && id !in heap.items
      modifies this`tasks
      ensures Valid() && tasks == WithStatus(old(tasks), id, RUNNING) && id !in heap.items
      ensures old(InOrder()) ==> InOrder()
    {
      tasks := WithStatus(tasks, id, RUNNING);
      OrderKept(old(tasks), tasks, heap.items, id);
    }

    /** What becomes of a reserved task: left to the caller, completed or failed. */
    method Conclude(id: Id, outcome: Outcome)
      requires Valid() && id in tasks && tasks[id].status == RUNNING && id !in heap.items
      modifies this`tasks, heap
      ensures Valid() && (old(InOrder()) ==> InOrder())
      ensures Model() == match outcome
        case Manual => old(Model())
        case Succeeds => AfterComplete(old(Model()), id)
        case Fails => AfterBreak(old(Model()), id, FAILED)
    {
      match outcome {
        case Manual =>
        case Succeeds => Finish(id);
        case Fails => Break(id, FAILED);
      }
    }

    /** Puts the tasks set aside back into the heap. */
    method Restore(deferred: seq<Id>, chosen: Option<Id>)
      requires heap.Valid() && SetAside(tasks, heap.items, deferred, chosen)
      modifies heap
      ensures if chosen.Some? then ValidBut(chosen.value) && chosen.value !in heap.items else Valid()
      ensures old(InOrder()) ==> InOrder()
    {
      for i := 0 to |deferred|
        invariant heap.Valid() && SetAside(tasks, heap.items, deferred[i..], chosen)
        invariant old(InOrder()) ==> InOrder()
      {
        var id := deferred[i];
        assert deferred[i..] == [id] + deferred[i + 1..];
        assert id in deferred[i..];
        if id in tasks && tasks[id].status == READY {
          ghost var items := heap.items;
          OrderIsStrict(tasks, heap.Contents() + {id});
          heap.Push(id, ById(tasks));
          Gains(heap.items, items, id);
          SetAsideReturn(tasks, items, heap.items, id, deferred[i + 1..], chosen);
        }
      }
      assert deferred[|deferred|..] == [];
    }
  }

  /** Slot i holds its own among its parent and its children. */
  ghost predicate Fits(items: seq<Id>, before: (Id, Id) -> bool, i: nat)
    requires i < |items|
  {
    && (i > 0 ==> Settled(items, before, i))
    && (2 * i + 1 < |items| ==> Settled(items, before, 2 * i + 1))
    && (2 * i + 2 < |items| ==> Settled(items, before, 2 * i + 2))
  }

  /** Order but for one slot is order just when that slot fits. */
  lemma FitsIff(items: seq<Id>, before: (Id, Id) -> bool, i: nat)
    requires i < |items| && Loose(items, before, i)
    ensures Ordered(items, before, 0) <==> Fits(items, before, i)
  {
    if Fits(items, before, i) { SinkDone(items, before, 0, i); }
  }

  /** Everything READY is in the heap or set aside, except the one chosen. */
  ghost predicate SetAside(tasks: Tasks, items: seq<Id>, deferred: seq<Id>, chosen: Option<Id>) {
    && (forall id :: id in items ==> id in tasks && (tasks[id].status == READY || tasks[id].status == FAILED))
    && (forall id :: id in deferred ==> id in tasks && tasks[id].status == READY && id !in items)
    && (forall i, j :: 0 <= i < j < |deferred| ==> deferred[i] != deferred[j])
    && (chosen.Some? ==>
          && chosen.value in tasks && tasks[chosen.value].status == READY
          && chosen.value !in items && chosen.value !in deferred)
    && (forall k :: k in tasks && tasks[k].status == READY ==> k in items || k in deferred || chosen == Some(k))
  }

  /** An entry popped is stale, or READY and then either set aside or chosen. */
  lemma SetAsideNext(tasks: Tasks, items: seq<Id>, rest: seq<Id>, deferred: seq<Id>, id: Id)
    requires SetAside(tasks, items, deferred, None) && id in items
    requires forall k :: k in rest <==> k in items && k != id
    ensures id in tasks
    ensures if tasks[id].status == READY
      then SetAside(tasks, rest, deferred + [id], None) && SetAside(tasks, rest, deferred, Some(id))
      else SetAside(tasks, rest, deferred, None)
  {
  }

  /** One set aside is put back. */
  lemma SetAsideReturn(tasks: Tasks, items: seq<Id>, more: seq<Id>, id: Id, rest: seq<Id>, chosen: Option<Id>)
    requires SetAside(tasks, items, [id] + rest, chosen)
    requires forall k :: k in more <==> k in items || k == id
    ensures SetAside(tasks, more, rest, chosen)
  {
    assert forall k :: k in [id] + rest <==> k == id || k in rest;
    var deferred := [id] + rest;
    forall i | 0 <= i < |rest| ensures rest[i] != id { assert deferred[i + 1] == rest[i] && deferred[0] == id; }
    forall i, j | 0 <= i < j < |rest| ensures rest[i] != rest[j] {
      assert deferred[i + 1] == rest[i] && deferred[j + 1] == rest[j];
    }
  }

  lemma TopIsChosen(tasks: Tasks, now: int, items: seq<Id>, id: Id)
    requires Executable(tasks, now, id) && id in items && forall k :: k in items ==> k in tasks
    requires forall k :: k in Elements(items) ==> !ById(tasks)(k, id)
    requires forall k :: Executable(tasks, now, k) ==> k in items
    ensures Chosen(tasks, now, Some(id))
  {
    forall k | Executable(tasks, now, k) && k != id ensures Before(tasks, id, k) {
      assert k in Elements(items);
      BeforeTotal(tasks, id, k);
    }
  }

  lemma UnlinkOne(g: Graph, id: Id, ids: set<Id>, d: Id)
    requires d !in ids
    ensures var h := Unlinked(g, id, ids);
      Succ(h, d) == Succ(g, d) &&
      Unlinked(g, id, ids + {d}) ==
        if id !in Succ(h, d) then h else if h[d] == {id} then h - {d} else h[d := h[d] - {id}]
  {
    if id !in Succ(g, d) {
      assert d in g ==> g[d] - {id} == g[d];
    }
  }

  lemma Overwrite(tasks: Tasks, id: Id, a: Task, b: Task)
    ensures tasks[id := a][id := b] == tasks[id := b]
  {
  }

  lemma GoodDepsSame(a: Tasks, b: Tasks, allowForwardRefs: bool, id: Id, deps: seq<Id>)
    requires SameDeps(a, b)
    ensures GoodDeps(a, allowForwardRefs, id, deps) <==> GoodDeps(b, allowForwardRefs, id, deps)
  {
    SameDepsForward(a, b);
    forall d ensures GoodDep(a, allowForwardRefs, id, d) <==> GoodDep(b, allowForwardRefs, id, d) {}
  }

  lemma BlamedSame(a: Tasks, b: Tasks, allowForwardRefs: bool, id: Id, deps: seq<Id>, e: Error)
    requires SameDeps(a, b)
    requires FirstBlamed(a, allowForwardRefs, id, deps, e)
    ensures FirstBlamed(b, allowForwardRefs, id, deps, e)
  {
    SameDepsForward(a, b);
    var i :| 0 <= i < |deps| && !GoodDep(a, allowForwardRefs, id, deps[i])
      && GoodDeps(a, allowForwardRefs, id, deps[..i]) && Blamed(a, id, deps[i], e);
    GoodDepsSame(a, b, allowForwardRefs, id, deps[..i]);
    assert !GoodDep(b, allowForwardRefs, id, deps[i]) && Blamed(b, id, deps[i], e);
  }

  lemma UnblockOne(tasks: Tasks, ids: set<Id>, k: Id)
    requires k !in ids
    ensures k in tasks ==> Unblocked(tasks, ids)[k] == tasks[k]
    ensures k in tasks ==> (Satisfied(Unblocked(tasks, ids), tasks[k]) <==> Satisfied(tasks, tasks[k]))
    ensures Unblocked(tasks, ids + {k}) ==
      if k in tasks && tasks[k].status == PENDING && Satisfied(tasks, tasks[k])
      then Unblocked(tasks, ids)[k := tasks[k].(status := READY)]
      else Unblocked(tasks, ids)
  {
  }

  lemma MarkOne(tasks: Tasks, marked: set<Id>, node: Id)
    requires node in tasks
    ensures MarkFailed(tasks, marked + {node}) == MarkFailed(tasks, marked)[node := tasks[node].(status := FAILED)]
  {
  }

  lemma Drops(items: seq<Id>, was: seq<Id>, id: Id)
    requires Elements(items) == Elements(was) - {id}
    ensures forall k :: k in items <==> k in was && k != id
  {
    forall k ensures k in items <==> k in was && k != id { assert k in items <==> k in Elements(items); }
  }

  lemma Gains(items: seq<Id>, was: seq<Id>, id: Id)
    requires Elements(items) == Elements(was) + {id}
    ensures forall k :: k in items <==> k in was || k == id
  {
    forall k ensures k in items <==> k in was || k == id { assert k in items <==> k in Elements(items); }
  }
}

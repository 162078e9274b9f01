/** The lazy-heap scheduler never deadlocks: what waits, waits on something that can still move. */
module LazyProgress {
  import opened Graphs
  import opened LazyModel
  import opened LazyInvariant

  /** From a task to its unresolved dependencies. */
  function Needs(tasks: Tasks): Graph {
    map k | k in tasks :: tasks[k].deps
  }

  ghost predicate AcyclicState(s: State) {
    Acyclic(Needs(s.tasks))
  }

  /** Every task of b keeps at most the unresolved dependencies it has in a. */
  ghost predicate Fewer(a: Tasks, b: Tasks) {
    forall k :: k in b ==> k in a && b[k].deps <= a[k].deps
  }

  lemma FewerAcyclic(a: Tasks, b: Tasks)
    requires Acyclic(Needs(a)) && Fewer(a, b)
    ensures Acyclic(Needs(b))
  {
    SubgraphAcyclic(Needs(a), Needs(b));
  }

  lemma {:induction false} ReleaseAllFewer(s: State, mid: Id, list: seq<Id>)
    ensures Fewer(s.tasks, ReleaseAll(s, mid, list).tasks)
    decreases |list|
  {
    if list != [] { ReleaseAllFewer(s, mid, list[..|list| - 1]); }
  }

  lemma LeftFewer(s: State, id: Id, st: TaskState)
    requires id in s.tasks
    ensures Fewer(s.tasks, Left(s, id, st).tasks)
  {
    var swept := WithTask(s, id, Swept(s.tasks[id], st));
    ReleaseAllFewer(swept, id, WatchersOf(swept.watchers, id));
  }

  /** A new task can only point at older ones, and nothing points at it. */
  lemma AddStaysAcyclic(s: State, id: Id, priority: int, due: int, deps: set<Id>)
    requires Inv(s) && AcyclicState(s) && id !in s.tasks && id !in deps
    ensures AcyclicState(AfterAdd(s, id, priority, due, deps))
  {
    var g := Needs(s.tasks);
    forall v ensures id !in Succ(g, v) { assert TaskOk(s, v); }
    forall d | d in deps ensures !Reaches(g, d, id) { UnlistedUnreached(g, d, id); }
    ReplaceEdges(g, id, deps);
    var t := Task(PENDING, priority, due, deps, 0);
    var added := s.(tasks := s.tasks[id := t], watchers := Watch(s.watchers[id := []], id, deps));
    assert Needs(added.tasks) == g[id := deps];
    ReclassifiedFewer(added, id);
    FewerAcyclic(added.tasks, Reclassified(added, id).tasks);
  }

  lemma ReclassifiedFewer(s: State, id: Id)
    requires id in s.tasks
    ensures Fewer(s.tasks, Reclassified(s, id).tasks)
  {
  }

  lemma StepStaysAcyclic(s: State, op: Op, s': State)
    requires Inv(s) && AcyclicState(s) && Step(s, op, s')
    ensures AcyclicState(s')
  {
    if op.Add? {
      if AddError(s, op.id, op.priority, op.deps).None? {
        AddStaysAcyclic(s, op.id, GetOr(op.priority, 0), op.due, ToSet(op.deps));
      }
    } else {
      if op.Done? && op.id in s.tasks {
        LeftFewer(s, op.id, DEPRECATED);
        LeftFewer(s, op.id, TaskState.DONE);
      } else if op.Fail? && op.id in s.tasks {
        LeftFewer(s, op.id, FAILED);
      } else if op.Cancel? && op.id in s.tasks {
        LeftFewer(s, op.id, CANCELLED);
      }
      FewerAcyclic(s.tasks, s'.tasks);
    }
  }

  /** No run ever waits in a circle. */
  lemma {:induction false} RunStaysAcyclic(states: seq<State>, ops: seq<Op>, n: nat)
    requires Run(states, ops) && n <= |ops|
    ensures Inv(states[n]) && AcyclicState(states[n])
  {
    EveryRunKeepsInv(states, ops, n);
    if n == 0 {
      assert Needs(states[0].tasks) == map[];
      EmptyAcyclic();
    } else {
      RunStaysAcyclic(states, ops, n - 1);
      assert StepAt(states, ops, n - 1);
      StepStaysAcyclic(states[n - 1], ops[n - 1], states[n]);
    }
  }

  /** A WAITING task leads, over unresolved dependencies, to one that is PENDING or RUNNING. */
  lemma WaitingRestsOnWork(s: State, k: Id) returns (w: Id)
    requires Inv(s) && AcyclicState(s) && k in s.tasks && s.tasks[k].state == WAITING
    ensures Reaches(Needs(s.tasks), k, w) && w in s.tasks &&
      (s.tasks[w].state == PENDING || s.tasks[w].state == RUNNING)
  {
    var g := Needs(s.tasks);
    forall v | v != k && Reaches(g, k, v) ensures Live(s.tasks, v) {
      var u := ReachedIsListed(g, k, v);
      assert TaskOk(s, u);
    }
    var below := set v | v in s.tasks && Reaches(g, k, v);
    ReachesSelf(g, k);
    assert k in below;
    w := SinkExists(g, below);
    forall d | d in Succ(g, w) ensures d in below { ReachesStep(g, k, w, d); }
    assert s.tasks[w].deps == {};
    assert TaskOk(s, w);
  }

  /** While a live task is left and nothing is running, some live task is queued. */
  lemma SomeQueued(s: State, k: Id) returns (w: Id)
    requires Inv(s) && AcyclicState(s) && Live(s.tasks, k)
    requires forall j :: Live(s.tasks, j) ==> s.tasks[j].state != RUNNING
    ensures Live(s.tasks, w) && Queued(s.tasks[w])
  {
    w := k;
    if s.tasks[k].state == WAITING { w := WaitingRestsOnWork(s, k); }
    assert TaskOk(s, w);
  }

  /** While a live task is left, nothing is running and everything is due, next_task hands one out. */
  lemma NoDeadlock(s: State, now: int, r: Option<Id>, s': State, k: Id)
    requires Inv(s) && AcyclicState(s) && NextStep(s, now, r, s') && Live(s.tasks, k)
    requires forall j :: Live(s.tasks, j) ==> s.tasks[j].state != RUNNING && s.tasks[j].due <= now
    ensures r.Some?
  {
    NextIsLeast(s, now, r, s');
    var w := SomeQueued(s, k);
    assert s.tasks[w].due <= now;
  }
}

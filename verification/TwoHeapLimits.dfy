/** Where the two-heap scheduler falls short of its own comments, with the runs that show it. */
module TwoHeapLimits {
  import opened Graphs
  import opened TwoHeapModel
  import opened TwoHeapRuns
  import opened TwoHeapGraph

  // ---------- A wake time with nothing to do ----------

  /** A new task that nobody lists and whose dependencies are met starts READY. */
  lemma AddReady(s: State, id: Id, at: int, deps: seq<Id>)
    requires !Blank(id) && id !in s.tasks && s.maxTasks == 0 && Dedup(deps) == deps && DepError(s.tasks, id, deps).None?
    requires forall k :: k in s.tasks ==> id !in s.tasks[k].dependencies
    requires forall d :: d in deps ==> Done(s.tasks, d)
    requires id !in deps
    ensures Step(s, Add(AddInput(id, None, Some(at), Some(deps))),
                 State(s.tasks[id := Task(0, at, deps, READY, 0, 0, s.sequence)], s.clock, s.sequence + 1, 0))
  {
  }

  lemma CompleteOnly(s: State, d: Id, t: Task)
    requires s.tasks == map[d := t] && t.status == READY && t.dependencies == []
    ensures Step(s, Complete(d), s.(tasks := map[d := t.(status := COMPLETED)]))
  {
  }

  /** x is READY and due later; once its dependency is deleted the wake time is a false alarm. */
  lemma WakesForNothing(s: State, d: Id, x: Id, td: Task, tx: Task)
    requires d != x && s.tasks == map[d := td, x := tx]
    requires tx.status == READY && tx.executeTime > s.clock && tx.dependencies == [d]
    ensures var s' := AfterDelete(s, d);
      && IsWakeTime(s', Some(tx.executeTime))
      && FindsBest(s'.tasks, Advanced(s'.clock, Some(tx.executeTime)), None)
  {
    var s' := AfterDelete(s, d);
    assert s'.tasks == map[x := tx];
    assert d in tx.dependencies && !Done(s'.tasks, d);
    assert ReadyTask(s', x);
  }

  /**
   * d is added and completed, x is added with d as its dependency for time 5, and d is deleted:
   * the scheduler asks to be woken at 5, and a claim at 5 comes back empty.
   */
  lemma FalseAlarm() returns (s0: State, s1: State, s2: State, s3: State, s4: State)
    ensures Initial(s0) && Step(s0, Add(AddInput("d", None, Some(0), Some([]))), s1)
    ensures Step(s1, Complete("d"), s2)
    ensures Step(s2, Add(AddInput("x", None, Some(5), Some(["d"]))), s3)
    ensures Step(s3, Delete("d"), s4)
    ensures IsWakeTime(s4, Some(5)) && FindsBest(s4.tasks, Advanced(s4.clock, Some(5)), None)
  {
    var d, x := "d", "x";
    assert !IsSpace(d[0]) && !IsSpace(x[0]) && d[0] != x[0];
    s0 := State(map[], 0, 0, 0);
    AddReady(s0, d, 0, []);
    var td, tx := Task(0, 0, [], COMPLETED, 0, 0, 0), Task(0, 5, [d], READY, 0, 0, 1);
    s1 := State(s0.tasks[d := td.(status := READY)], 0, 1, 0);
    CompleteOnly(s1, d, td.(status := READY));
    s2 := s1.(tasks := map[d := td]);
    ListOfOne(s2.tasks, x, d);
    AddReady(s2, x, 5, [d]);
    s3 := State(s2.tasks[x := tx], 0, 2, 0);
    WakesForNothing(s3, d, x, td, tx);
    s4 := AfterDelete(s3, d);
  }

  // ---------- A cycle without an update ----------

  lemma ForwardAfterAdd(s: State, id: Id, deps: seq<Id>)
    requires !Blank(id) && id !in s.tasks && s.maxTasks == 0 && DepError(s.tasks, id, deps).None? && Dedup(deps) == deps
    ensures var s' := AfterAdd(s, AddInput(id, None, None, Some(deps)), deps);
      && Step(s, Add(AddInput(id, None, None, Some(deps))), s')
      && s'.maxTasks == 0 && Forward(s'.tasks) == Forward(s.tasks)[id := ToSet(deps)]
      && s'.tasks.Keys == s.tasks.Keys + {id}
  {
  }

  /** x lists y, y has been deleted, and y is added again with x as its dependency. */
  lemma ReAddCloses(s: State, x: Id, y: Id)
    requires !Blank(x) && !Blank(y) && x != y && s.maxTasks == 0
    requires x in s.tasks && y !in s.tasks && s.tasks[x].dependencies == [y]
    ensures var s' := AfterAdd(s, AddInput(y, None, None, Some([x])), [x]);
      Step(s, Add(AddInput(y, None, None, Some([x]))), s') && !AcyclicState(s')
  {
    ListOfOne(s.tasks, y, x);
    ForwardAfterAdd(s, y, [x]);
    var g := Forward(s.tasks)[y := ToSet([x])];
    assert y in Succ(g, x) && x in Succ(g, y);
    assert ClosedWalk(g, [x, y, x]);
  }

  /** So a new task can close a cycle: y is deleted while x lists it, and comes back listing x. */
  lemma ReAddClosesCycle() returns (s0: State, s1: State, s2: State, s3: State, s4: State)
    ensures Initial(s0) && Step(s0, Add(AddInput("y", None, None, Some([]))), s1)
    ensures Step(s1, Add(AddInput("x", None, None, Some(["y"]))), s2)
    ensures Step(s2, Delete("y"), s3)
    ensures Step(s3, Add(AddInput("y", None, None, Some(["x"]))), s4)
    ensures !AcyclicState(s4)
  {
    var x, y := "x", "y";
    assert !IsSpace(x[0]) && !IsSpace(y[0]) && x[0] != y[0];
    s0 := State(map[], 0, 0, 0);
    ForwardAfterAdd(s0, y, []);
    s1 := AfterAdd(s0, AddInput(y, None, None, Some([])), []);
    ListOfOne(s1.tasks, x, y);
    ForwardAfterAdd(s1, x, [y]);
    s2 := AfterAdd(s1, AddInput(x, None, None, Some([y])), [y]);
    s3 := AfterDelete(s2, y);
    ReAddCloses(s3, x, y);
    s4 := AfterAdd(s3, AddInput(y, None, None, Some([x])), [x]);
  }
}

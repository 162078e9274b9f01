/** The single-heap scheduler driven through whole sequences of operations. */
module ContagionReplay {
  import opened Graphs
  import opened ContagionModel
  import opened ContagionRuns
  import opened ContagionSafety
  import opened ContagionScheduler

  // ---------- Any sequence of operations ----------

  /** A refused update that writes a new key into the record of a queued task. */
  ghost predicate Unsettles(c: Config, s: State, op: Op) {
    && op.Change? && UpdateGuard(s.tasks, op.id, op.update).None? &&
      !UpdateAccepted(s, c.allowForwardRefs, op.id, op.update)
    && s.tasks[op.id].status == READY && WithKeys(s.tasks[op.id], op.update) != s.tasks[op.id]
  }

  /** The step runs the executable task that compareIds ranks before every other, or nothing when there is none. */
  ghost predicate RunsBest(s: State, op: Op, s': State) {
    op.Execute? ==> exists r :: Chosen(s.tasks, op.now, r) && s' == AfterExecute(s, r, op.outcome)
  }

  /** Any one of the public operations. */
  method Perform(s: TaskScheduler, op: Op)
    requires s.Valid()
    modifies s, s.heap
    ensures s.Valid() && Step(s.Cfg(), old(s.Model()), op, s.Model())
    ensures old(s.InOrder()) ==> RunsBest(old(s.Model()), op, s.Model())
    ensures old(s.InOrder()) && !Unsettles(s.Cfg(), old(s.Model()), op) ==> s.InOrder()
  {
    match op {
      case Add(id, priority, executeTime, deps, now) => var _ := s.AddTask(id, priority, executeTime, deps, now);
      case Change(id, u) => PerformUpdate(s, id, u);
      case Delete(id) => var _ := s.DeleteTask(id);
      case Complete(id) => var _ := s.CompleteTask(id);
      case Fail(id) => var _ := s.FailTask(id);
      case Cancel(id) => var _ := s.CancelTask(id);
      case Reset(id) => var _ := s.ResetTask(id);
      case Execute(now, outcome) => var _ := s.ExecuteNextTask(now, outcome);
      case Clear => s.Clear();
    }
  }

  method PerformUpdate(s: TaskScheduler, id: Id, u: Update)
    requires s.Valid()
    modifies s, s.heap
    ensures s.Valid() && Step(s.Cfg(), old(s.Model()), Change(id, u), s.Model())
    ensures old(s.InOrder()) && !Unsettles(s.Cfg(), old(s.Model()), Change(id, u)) ==> s.InOrder()
  {
    ghost var before := s.tasks;
    var r := s.UpdateTask(id, u);
    if r.Err? && id in before && WithKeys(before[id], u) == before[id] { assert before[id := before[id]] == before; }
  }

  /** No operation up to the n-th is a refused update that writes a new key into the record of a queued task. */
  ghost predicate NeverUnsettled(c: Config, states: seq<State>, ops: seq<Op>, n: nat)
    requires n <= |ops| && |states| >= n
  {
    forall i :: 0 <= i < n ==> !Unsettles(c, states[i], ops[i])
  }

  ghost predicate RunsBestAt(states: seq<State>, ops: seq<Op>, i: nat)
    requires i < |ops| && i + 1 < |states|
  {
    RunsBest(states[i], ops[i], states[i + 1])
  }

  /** Of the first n steps each runs the best task, unless something was unsettled before it. */
  ghost predicate Faithful(c: Config, states: seq<State>, ops: seq<Op>, n: nat)
    requires n <= |ops| && |states| > n
  {
    forall i: nat :: i < n && NeverUnsettled(c, states, ops, i) ==> RunsBestAt(states, ops, i)
  }

  /** One more state changes nothing about the steps before it. */
  lemma Extended(c: Config, was: seq<State>, states: seq<State>, ops: seq<Op>, n: nat)
    requires n < |ops| && |was| == n + 1 && |states| == n + 2 && states[..n + 1] == was
    ensures NeverUnsettled(c, states, ops, n) <==> NeverUnsettled(c, was, ops, n)
    ensures NeverUnsettled(c, states, ops, n + 1) <==> NeverUnsettled(c, was, ops, n) && !Unsettles(c, was[n], ops[n])
    ensures Faithful(c, was, ops, n) && (NeverUnsettled(c, was, ops, n) ==> RunsBest(was[n], ops[n], states[n + 1])) ==>
      Faithful(c, states, ops, n + 1)
  {
    assert forall i :: 0 <= i <= n ==> states[i] == was[i];
    forall i: nat | i < n ensures RunsBestAt(states, ops, i) <==> RunsBestAt(was, ops, i) {}
    forall i: nat | i <= n ensures NeverUnsettled(c, states, ops, i) <==> NeverUnsettled(c, was, ops, i) {}
    assert RunsBestAt(states, ops, n) <==> RunsBest(was[n], ops[n], states[n + 1]);
  }

  /**
   * Every sequence of operations on a new scheduler is a run; and unless a refused update has
   * written a new key of a queued task, every execution in it runs the best task there is.
   */
  method Replay(c: Config, ops: seq<Op>) returns (s: TaskScheduler, ghost states: seq<State>)
    ensures fresh(s) && fresh(s.heap) && s.Valid() && s.Cfg() == c
    ensures Run(c, states, ops) && s.Model() == states[|ops|]
    ensures Faithful(c, states, ops, |ops|)
    ensures NeverUnsettled(c, states, ops, |ops|) ==> s.InOrder()
  {
    s := new TaskScheduler(c.maxTasks, c.allowForwardRefs);
    states := [s.Model()];
    for n := 0 to |ops|
      invariant fresh(s) && fresh(s.heap) && s.Valid() && s.Cfg() == c
      invariant Run(c, states, ops[..n]) && s.Model() == states[n]
      invariant Faithful(c, states, ops, n)
      invariant NeverUnsettled(c, states, ops, n) ==> s.InOrder()
    {
      ghost var was := states;
      Perform(s, ops[n]);
      RunOn(c, was, ops[..n], ops[n], s.Model());
      states := was + [s.Model()];
      assert ops[..n + 1] == ops[..n] + [ops[n]];
      Extended(c, was, states, ops, n);
    }
    assert ops[..|ops|] == ops;
  }

  // ---------- Running everything ----------

  /** Safe and acyclic, with nothing running and everything due. */
  ghost predicate Runnable(s: State, now: int) {
    && Safe(s) && Acyclic(Forward(s.tasks))
    && forall k :: k in LiveTasks(s.tasks) ==> s.tasks[k].status != RUNNING && s.tasks[k].executeTime <= now
  }

  /** From each live task to its dependencies. */
  ghost function LiveGraph(tasks: Tasks): Graph {
    map k | k in tasks && !Terminal(tasks[k]) :: tasks[k].dependencies
  }

  /** A live task needs, directly or through other live ones, an id without a record. */
  ghost predicate WaitsForMissing(tasks: Tasks, k: Id) {
    k in LiveTasks(tasks) && exists d :: d !in tasks && Reaches(LiveGraph(tasks), k, d)
  }

  /** With nothing executable, whatever is live waits for something missing. */
  lemma LiveWaitsForMissing(s: State, now: int, k: Id)
    requires Runnable(s, now) && k in LiveTasks(s.tasks) && forall j :: !Executable(s.tasks, now, j)
    ensures WaitsForMissing(s.tasks, k)
  {
    var g := LiveGraph(s.tasks);
    SubgraphAcyclic(Forward(s.tasks), g);
    var live := set v | v in s.tasks && !Terminal(s.tasks[v]) && Reaches(g, k, v);
    ReachesSelf(g, k);
    assert k in live;
    var w := SinkExists(g, live);
    if forall d :: d in s.tasks[w].dependencies ==> d in s.tasks {
      forall d | d in s.tasks[w].dependencies ensures Done(s.tasks, d) {
        assert d in Succ(g, w);
        ReachesStep(g, k, w, d);
        assert Clean(s.tasks, w, d);
      }
      assert Asleep(s.tasks, w);
      assert Executable(s.tasks, now, w);
      assert false;
    }
    var d :| d in s.tasks[w].dependencies && d !in s.tasks;
    assert d in Succ(g, w);
    ReachesStep(g, k, w, d);
  }

  /** One execution: nothing comes to life, and the task run is no longer live. */
  lemma ExecuteShrinks(s: State, now: int, id: Id, outcome: Outcome)
    requires Runnable(s, now) && Executable(s.tasks, now, id) && outcome != Manual
    ensures var s' := AfterExecute(s, Some(id), outcome);
      && Runnable(s', now) && SameDeps(s.tasks, s'.tasks)
      && LiveTasks(s'.tasks) < LiveTasks(s.tasks) && |LiveTasks(s'.tasks)| < |LiveTasks(s.tasks)|
  {
    var s' := AfterExecute(s, Some(id), outcome);
    ExecuteIsSafe(s, Some(id), outcome);
    ExecuteSameDeps(s, Some(id), outcome);
    SameDepsForward(s.tasks, s'.tasks);
    assert id in LiveTasks(s.tasks) && LiveTasks(s'.tasks) <= LiveTasks(s.tasks) - {id};
    SmallerSet(LiveTasks(s'.tasks), LiveTasks(s.tasks), id);
  }

  /**
   * With nothing executable left, whatever is live waits for something missing; and if nothing is
   * missing, nothing is live.
   */
  lemma AllAccountedFor(first: Tasks, s: State, now: int)
    requires Runnable(s, now) && (forall j :: !Executable(s.tasks, now, j))
    requires SameDeps(first, s.tasks) && LiveTasks(s.tasks) <= LiveTasks(first)
    ensures forall k :: k in LiveTasks(s.tasks) ==> WaitsForMissing(s.tasks, k)
    ensures (forall k :: k in LiveTasks(first) ==> first[k].dependencies <= first.Keys) ==>
      forall k :: k in s.tasks ==> Terminal(s.tasks[k])
  {
    forall k | k in LiveTasks(s.tasks) ensures WaitsForMissing(s.tasks, k) { LiveWaitsForMissing(s, now, k); }
    if forall k :: k in LiveTasks(first) ==> first[k].dependencies <= first.Keys {
      forall k ensures !WaitsForMissing(s.tasks, k) { NoneMissing(s.tasks, k); }
      assert forall k :: k in s.tasks ==> k !in LiveTasks(s.tasks);
    }
  }

  /**
   * The host loop with a runner: whatever the outcomes, it ends; what is live at the end waits for
   * an id without a record, so without such ids every task is terminal.
   */
  method RunAll(s: TaskScheduler, now: int, succeeds: nat -> bool) returns (count: nat)
    requires s.Valid() && Runnable(s.Model(), now)
    modifies s, s.heap
    ensures s.Valid() && SameDeps(old(s.tasks), s.tasks) && Safe(s.Model())
    ensures forall k :: k in LiveTasks(s.tasks) ==> WaitsForMissing(s.tasks, k)
    ensures count <= |LiveTasks(old(s.tasks))|
    ensures (forall k :: k in LiveTasks(old(s.tasks)) ==> old(s.tasks)[k].dependencies <= old(s.tasks).Keys) ==>
      forall k :: k in s.tasks ==> Terminal(s.tasks[k])
  {
    count := 0;
    ghost var first := s.tasks;
    while true
      invariant s.Valid() && Runnable(s.Model(), now) && SameDeps(first, s.tasks)
      invariant LiveTasks(s.tasks) <= LiveTasks(first) && count + |LiveTasks(s.tasks)| <= |LiveTasks(first)|
      decreases LiveTasks(s.tasks)
    {
      ghost var before := s.Model();
      var outcome := if succeeds(count) then Succeeds else Fails;
      var r := s.ExecuteNextTask(now, outcome);
      if r.None? {
        AllAccountedFor(first, s.Model(), now);
        return;
      }
      ExecuteShrinks(before, now, r.value, outcome);
      count := count + 1;
    }
  }

  lemma NoneMissing(tasks: Tasks, k: Id)
    requires forall j :: j in LiveTasks(tasks) ==> tasks[j].dependencies <= tasks.Keys
    ensures !WaitsForMissing(tasks, k)
  {
    var g := LiveGraph(tasks);
    forall d | k in tasks && d !in tasks ensures !Reaches(g, k, d) {
      forall v ensures d !in Succ(g, v) { assert v in g ==> v in LiveTasks(tasks); }
      UnlistedUnreached(g, k, d);
    }
  }
}

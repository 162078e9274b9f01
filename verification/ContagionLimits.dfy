/** Where the single-heap scheduler falls short of its own comments, with the inputs that show it. */
module ContagionLimits {
  import opened Graphs
  import opened GraphSearch
  import opened HeapOrder
  import opened ContagionHeap
  import opened ContagionModel
  import opened ContagionRuns
  import opened ContagionSafety
  import opened ContagionScheduler

  const C := Config(None, false)

  function Plain(status: Status, deps: set<Id>): Task {
    Task(status, 0, 0, 0, deps)
  }

  lemma AddFresh(s: State, id: Id, deps: seq<Id>, D: set<Id>, status: Status)
    requires id != "" && id !in s.tasks && id !in D && ToSet(deps) == D && GoodDeps(s.tasks, false, id, deps)
    requires !Doomed(s.tasks, Plain(PENDING, D))
    requires status == if Satisfied(s.tasks, Plain(PENDING, D)) then READY else PENDING
    ensures Step(C, s, Add(id, None, None, deps, 0),
      State(s.tasks[id := Plain(status, D)], Linked(s.dependents, id, D)))
  {
  }

  // ---------- A dependent that is forgotten ----------

  /** x waits for d, d is deleted, x is reset and d is added again. */
  function Forgetful(d: Id, x: Id): seq<Op> {
    [Add(d, None, None, [], 0), Add(x, None, None, [d], 0), Delete(d), Reset(x), Add(d, None, None, [], 0)]
  }

  /** The states it goes through; in the last one x waits for d and d does not know. */
  function Forgetting(d: Id, x: Id): seq<State> {
    [State(map[], map[]),
     State(map[d := Plain(READY, {})], map[]),
     State(map[d := Plain(READY, {}), x := Plain(PENDING, {d})], map[d := {x}]),
     State(map[x := Plain(FAILED, {d})], map[]),
     State(map[x := Plain(PENDING, {d})], map[]),
     State(map[x := Plain(PENDING, {d}), d := Plain(READY, {})], map[])]
  }

  lemma AddD(s: State, d: Id)
    requires d != "" && d !in s.tasks && s.dependents == map[]
    ensures Step(C, s, Add(d, None, None, [], 0), State(s.tasks[d := Plain(READY, {})], map[]))
  {
    assert ToSet([]) == {};
    AddFresh(s, d, [], {}, READY);
    assert Linked(map[], d, {}) == map[];
  }

  lemma AddX(s: State, d: Id, x: Id)
    requires d != "" && x != "" && d != x && s == State(map[d := Plain(READY, {})], map[])
    ensures Step(C, s, Add(x, None, None, [d], 0),
      State(map[d := Plain(READY, {}), x := Plain(PENDING, {d})], map[d := {x}]))
  {
    assert ToSet([d]) == {d};
    assert d in Plain(PENDING, {d}).dependencies && !Done(s.tasks, d);
    OnlyD(s, d, x);
    AddFresh(s, x, [d], {d}, PENDING);
    assert Succ(s.dependents, d) + {x} == {x};
    assert Linked(s.dependents, x, {d}) == map[d := {x}];
  }

  lemma ResetX(s: State, d: Id, x: Id)
    requires d != x && s == State(map[x := Plain(FAILED, {d})], map[])
    ensures Step(C, s, Reset(x), State(map[x := Plain(PENDING, {d})], map[]))
  {
    var reset := WithStatus(s.tasks, x, PENDING);
    assert reset == map[x := Plain(PENDING, {d})] && d in reset[x].dependencies && !Done(reset, d);
  }

  /** Five operations from the empty scheduler. */
  lemma ForgottenDependent(d: Id, x: Id)
    requires d != "" && x != "" && d != x
    ensures Run(C, Forgetting(d, x), Forgetful(d, x))
  {
    var states, ops := Forgetting(d, x), Forgetful(d, x);
    forall i: nat | i < 5 ensures StepAt(C, states, ops, i) {
      if i == 0 || i == 4 { AddD(states[i], d); }
      else if i == 1 { AddX(states[1], d, x); }
      else if i == 2 { DeletedWith(states[2], d, x); }
      else { ResetX(states[3], d, x); }
    }
  }

  lemma OnlyD(s: State, d: Id, x: Id)
    requires s.tasks == map[d := Plain(READY, {})] && d != x && d != ""
    ensures GoodDeps(s.tasks, false, x, [d])
  {
    ClosedUnderSucc(Forward(s.tasks), d, x, {d});
  }

  lemma DeletedWith(s: State, d: Id, x: Id)
    requires d != x && s == State(map[d := Plain(READY, {}), x := Plain(PENDING, {d})], map[d := {x}])
    ensures Step(C, s, Delete(d), State(map[x := Plain(FAILED, {d})], map[]))
  {
    var g := FailureGraph(s.tasks, s.dependents, d);
    ReachesSelf(g, d);
    assert x in Succ(g, d);
    ReachesStep(g, d, d, x);
    assert Victims(s.tasks, s.dependents, d) == {x};
    assert Unlinked(s.dependents, d, {}) == s.dependents;
  }

  lemma NobodyWakes(s: State, d: Id, x: Id)
    requires d != x && s == State(map[x := Plain(PENDING, {d}), d := Plain(READY, {})], map[])
    ensures var after := AfterComplete(s, d).tasks;
      x in after && after[x] == Plain(PENDING, {d}) && Satisfied(after, after[x])
  {
  }

  lemma CompleteStep(s: State, id: Id)
    requires CompleteAccepted(s.tasks, id)
    ensures Step(C, s, Complete(id), AfterComplete(s, id))
  {
  }

  lemma FailStep(s: State, id: Id)
    requires id in s.tasks && !Terminal(s.tasks[id])
    ensures Step(C, s, Fail(id), AfterBreak(s, id, FAILED))
  {
  }

  /** A lost wakeup: d completes, and x stays PENDING with every dependency COMPLETED. */
  lemma LostWakeup(d: Id, x: Id) returns (states: seq<State>)
    requires d != "" && x != "" && d != x
    ensures Run(C, states, Forgetful(d, x) + [Complete(d)]) && !NoLostWakeup(states[6].tasks)
  {
    ForgottenDependent(d, x);
    states := Forgetting(d, x);
    var s := states[5];
    CompleteStep(s, d);
    RunOn(C, states, Forgetful(d, x), Complete(d), AfterComplete(s, d));
    states := states + [AfterComplete(s, d)];
    NobodyWakes(s, d, x);
    assert !Asleep(states[6].tasks, x);
  }

  /** A leaked failure: d fails, and x stays PENDING with a FAILED dependency. */
  lemma LeakedFailure(d: Id, x: Id) returns (states: seq<State>)
    requires d != "" && x != "" && d != x
    ensures Run(C, states, Forgetful(d, x) + [Fail(d)]) && !Contained(states[6].tasks)
  {
    ForgottenDependent(d, x);
    states := Forgetting(d, x);
    var s := states[5];
    FailStep(s, d);
    RunOn(C, states, Forgetful(d, x), Fail(d), AfterBreak(s, d, FAILED));
    states := states + [AfterBreak(s, d, FAILED)];
    NobodyFails(s, d, x);
    assert !Clean(states[6].tasks, x, d);
  }

  /** Nothing is listed as depending on d, so its failure stays where it is. */
  lemma NobodyFails(s: State, d: Id, x: Id)
    requires d != x && s == State(map[x := Plain(PENDING, {d}), d := Plain(READY, {})], map[])
    ensures var after := AfterBreak(s, d, FAILED).tasks;
      x in after && after[x] == Plain(PENDING, {d}) && Broken(after, d)
  {
    var broken := WithStatus(s.tasks, d, FAILED);
    var g := FailureGraph(broken, s.dependents, d);
    ClosedUnderSucc(g, d, x, {d});
    assert x !in Victims(broken, s.dependents, d);
  }

  // ---------- Refused updates ----------

  /**
   * A refused update leaves no trace exactly when the guard refused it or it asked for the key the
   * task already had.
   */
  lemma RefusedUpdateAtomicIff(s: State, allowForwardRefs: bool, id: Id, u: Update)
    requires !UpdateAccepted(s, allowForwardRefs, id, u)
    ensures AfterRejectedUpdate(s, id, u) == s <==>
      || UpdateGuard(s.tasks, id, u).Some?
      || (GetOr(u.priority, s.tasks[id].priority) == s.tasks[id].priority
          && GetOr(u.executeTime, s.tasks[id].executeTime) == s.tasks[id].executeTime)
  {
    if UpdateGuard(s.tasks, id, u).None? {
      var after := AfterRejectedUpdate(s, id, u).tasks;
      assert after[id] == WithKeys(s.tasks[id], u);
      if after[id] == s.tasks[id] { assert after == s.tasks; }
    }
  }

  ghost predicate Queued(tasks: Tasks, k: Id) {
    k in tasks && (tasks[k].status == READY || tasks[k].status == FAILED)
  }

  /** However the heap is laid out, a written key that keeps the task's rank among the queued ones keeps the order. */
  lemma SameRankKeepsOrder(s: State, items: seq<Id>, id: Id, u: Update)
    requires QueueOk(s.tasks, items) && NoRepeats(items) && UpdateGuard(s.tasks, id, u).None?
    requires var after := AfterRejectedUpdate(s, id, u).tasks;
      forall k :: Queued(s.tasks, k) && k != id ==> (Before(after, id, k) <==> Before(s.tasks, id, k))
    ensures QueueOk(AfterRejectedUpdate(s, id, u).tasks, items)
  {
    var after := AfterRejectedUpdate(s, id, u).tasks;
    forall i | 0 < i < |items| ensures Settled(items, ById(after), i) {
      var k, p := items[i], items[Parent(i)];
      assert Settled(items, ById(s.tasks), i) && k in items && p in items && k != p;
      assert Queued(s.tasks, k) && Queued(s.tasks, p);
      if p == id {
        BeforeTotal(s.tasks, p, k);
        OrderIsStrict(after, {p, k});
      }
    }
  }

  function Ranked(priority: int): Task {
    Task(READY, priority, 0, 0, {})
  }

  function Four(w: Id, x: Id, y: Id, z: Id, priority: int): Tasks {
    map[w := Ranked(9), x := Ranked(7), y := Ranked(priority), z := Ranked(3)]
  }

  /** The four arranged so that x is nobody's parent, or z's only. */
  lemma CalmLayout(w: Id, x: Id, y: Id, z: Id, priority: int)
    requires w != x && w != y && w != z && x != y && x != z && y != z && 3 < priority < 9 && priority != 7
    ensures QueueOk(Four(w, x, y, z, priority), [w, x, y, z])
  {
  }

  /** The four arranged so that x is the parent of y. */
  lemma UpsetLayout(w: Id, x: Id, y: Id, z: Id, priority: int)
    requires w != x && w != y && w != z && x != y && x != z && y != z && 3 < priority < 9 && priority != 7
    ensures QueueOk(Four(w, x, y, z, priority), [w, x, z, y]) <==> priority < 7
  {
    var tasks, items := Four(w, x, y, z, priority), [w, x, z, y];
    assert Settled(items, ById(tasks), 3) <==> priority < 7;
  }

  /**
   * No condition on the tasks alone decides: the same refused update of the same tasks keeps one
   * layout of the same queue in order and disturbs another.
   */
  lemma LayoutDecides(w: Id, x: Id, y: Id, z: Id) returns (s: State, u: Update)
    requires w != x && w != y && w != z && x != y && x != z && y != z
    ensures s == State(Four(w, x, y, z, 5), map[]) && u == Update(Some(8), None, Some([y]))
    ensures UpdateGuard(s.tasks, y, u).None? && !UpdateAccepted(s, false, y, u)
    ensures QueueOk(s.tasks, [w, x, y, z]) && QueueOk(s.tasks, [w, x, z, y])
    ensures QueueOk(AfterRejectedUpdate(s, y, u).tasks, [w, x, y, z])
    ensures !QueueOk(AfterRejectedUpdate(s, y, u).tasks, [w, x, z, y])
  {
    s := State(Four(w, x, y, z, 5), map[]);
    u := Update(Some(8), None, Some([y]));
    assert y in [y] && !GoodDep(s.tasks, false, y, y);
    assert AfterRejectedUpdate(s, y, u).tasks == Four(w, x, y, z, 8);
    CalmLayout(w, x, y, z, 5);
    UpsetLayout(w, x, y, z, 5);
    CalmLayout(w, x, y, z, 8);
    UpsetLayout(w, x, y, z, 8);
  }

  lemma AddIndependent(s: State, id: Id, priority: int)
    requires id !in s.tasks
    ensures ToSet([]) == {}
    ensures AfterAdd(s, id, NewTask(Some(priority), Some(0), [], 0)) ==
      State(s.tasks[id := Ranked(priority)], s.dependents)
  {
    assert ToSet([]) == {};
    var tasks := s.tasks[id := Task(PENDING, priority, 0, 0, {})];
    assert Linked(s.dependents, id, {}) == s.dependents;
    assert WithStatus(tasks, id, READY) == s.tasks[id := Ranked(priority)];
  }

  function AddOf(id: Id, priority: int): Op {
    Add(id, Some(priority), Some(0), [], 0)
  }

  /** Ids with their priorities. */
  type Entries = seq<(Id, int)>

  function IdsOf(e: Entries): (ids: seq<Id>)
    ensures |ids| == |e| && forall i :: 0 <= i < |e| ==> ids[i] == e[i].0
  {
    seq(|e|, i requires 0 <= i < |e| => e[i].0)
  }

  function AddsOf(e: Entries): (ops: seq<Op>)
    ensures |ops| == |e| && forall i :: 0 <= i < |e| ==> ops[i] == AddOf(e[i].0, e[i].1)
  {
    seq(|e|, i requires 0 <= i < |e| => AddOf(e[i].0, e[i].1))
  }

  ghost function RecordsOf(e: Entries): Tasks {
    if e == [] then map[] else RecordsOf(e[..|e| - 1])[e[|e| - 1].0 := Ranked(e[|e| - 1].1)]
  }

  lemma {:induction false} RecordsAre(e: Entries)
    requires NoRepeats(IdsOf(e))
    ensures forall k :: k in RecordsOf(e) <==> k in IdsOf(e)
    ensures forall i :: 0 <= i < |e| ==> RecordsOf(e)[e[i].0] == Ranked(e[i].1)
  {
    if e != [] {
      var n := |e| - 1;
      assert IdsOf(e) == IdsOf(e[..n]) + [e[n].0];
      assert forall i :: 0 <= i < n ==> e[..n][i] == e[i] && IdsOf(e)[i] != IdsOf(e)[n];
      RecordsAre(e[..n]);
    }
  }

  /** Each is of lower priority than what is at its parent's slot, so each stays where it is put. */
  ghost predicate Descending(e: Entries) {
    && NoRepeats(IdsOf(e)) && (forall i :: 0 <= i < |e| ==> e[i].0 != "")
    && forall i :: 0 < i < |e| ==> e[i].1 < e[Parent(i)].1
  }

  lemma PrefixGrows(e: Entries, n: nat)
    requires n < |e|
    ensures RecordsOf(e[..n + 1]) == RecordsOf(e[..n])[e[n].0 := Ranked(e[n].1)]
    ensures IdsOf(e[..n + 1]) == IdsOf(e[..n]) + [e[n].0]
    ensures AddsOf(e[..n + 1]) == AddsOf(e[..n]) + [AddOf(e[n].0, e[n].1)]
  {
    assert e[..n + 1][..n] == e[..n];
  }

  lemma NextIsNew(e: Entries, n: nat)
    requires NoRepeats(IdsOf(e)) && n < |e|
    ensures NoRepeats(IdsOf(e[..n])) && e[n].0 !in IdsOf(e[..n])
  {
    assert IdsOf(e[..n]) == IdsOf(e)[..n];
    forall i, j | 0 <= i < j < n ensures IdsOf(e[..n])[i] != IdsOf(e[..n])[j] {
      assert IdsOf(e)[i] != IdsOf(e)[j];
    }
    forall i | 0 <= i < n ensures IdsOf(e[..n])[i] != e[n].0 { assert IdsOf(e)[i] != IdsOf(e)[n]; }
  }

  lemma NextComesLast(e: Entries, n: nat)
    requires Descending(e) && n < |e|
    ensures e[n].0 !in RecordsOf(e[..n])
    ensures ComesLast(IdsOf(e[..n]), ById(RecordsOf(e[..n + 1])), e[n].0)
  {
    NextIsNew(e, n);
    PrefixGrows(e, n);
    RecordsAre(e[..n]);
    if n > 0 {
      var p := Parent(n);
      assert e[..n][p] == e[p] && IdsOf(e[..n])[p] == e[p].0 && e[p].0 != e[n].0;
      assert RecordsOf(e[..n])[e[p].0] == Ranked(e[p].1);
    }
  }

  /** Tasks without dependencies, added in an order in which each stays where the heap puts it. */
  method AddInTurn(e: Entries) returns (s: TaskScheduler, ghost states: seq<State>)
    requires Descending(e)
    ensures fresh(s) && fresh(s.heap) && s.Valid() && s.InOrder() && s.Cfg() == C && s.heap.items == IdsOf(e)
    ensures Run(C, states, AddsOf(e)) && states[|e|] == s.Model() == State(RecordsOf(e), map[])
  {
    s := new TaskScheduler(None, false);
    states := [s.Model()];
    for n := 0 to |e|
      invariant fresh(s) && fresh(s.heap) && s.Valid() && s.InOrder() && s.Cfg() == C && s.heap.items == IdsOf(e[..n])
      invariant Run(C, states, AddsOf(e[..n])) && states[n] == s.Model() == State(RecordsOf(e[..n]), map[])
    {
      NextComesLast(e, n);
      PrefixGrows(e, n);
      AddIndependent(s.Model(), e[n].0, e[n].1);
      var _ := s.AddTask(e[n].0, Some(e[n].1), Some(0), [], 0);
      RunOn(C, states, AddsOf(e[..n]), AddOf(e[n].0, e[n].1), s.Model());
      states := states + [s.Model()];
    }
    assert e[..|e|] == e;
  }

  /** Two tasks without dependencies, the first to be preferred. */
  method TwoAdded(a: Id, b: Id) returns (s: TaskScheduler, ghost states: seq<State>)
    requires a != "" && b != "" && a != b
    ensures fresh(s) && fresh(s.heap) && s.Valid() && s.Cfg() == C && s.heap.items == [a, b]
    ensures Run(C, states, [AddOf(a, 5), AddOf(b, 3)])
    ensures s.Model() == states[2] == State(map[a := Ranked(5), b := Ranked(3)], map[])
  {
    var e: Entries := [(a, 5), (b, 3)];
    TwoRecords((a, 5), (b, 3));
    s, states := AddInTurn(e);
    assert AddsOf(e) == [AddOf(a, 5), AddOf(b, 3)] && IdsOf(e) == [a, b];
  }

  lemma TwoRecords(a: (Id, int), b: (Id, int))
    ensures RecordsOf([a, b]) == map[a.0 := Ranked(a.1), b.0 := Ranked(b.1)]
  {
    var one: Entries := [a];
    assert RecordsOf(one) == map[a.0 := Ranked(a.1)] by { assert one[..0] == []; }
    assert [a, b][..1] == one;
  }

  lemma FourRecords(a: (Id, int), b: (Id, int), c: (Id, int), d: (Id, int))
    ensures RecordsOf([a, b, c, d]) ==
      map[a.0 := Ranked(a.1), b.0 := Ranked(b.1), c.0 := Ranked(c.1), d.0 := Ranked(d.1)]
    ensures IdsOf([a, b, c, d]) == [a.0, b.0, c.0, d.0]
  {
    TwoRecords(a, b);
    assert [a, b, c, d][..3] == [a, b, c] && [a, b, c][..2] == [a, b];
  }

  lemma SelfRefused(s: State, y: Id)
    ensures !UpdateAccepted(s, false, y, Update(Some(8), None, Some([y])))
  {
    assert y in [y] && !GoodDep(s.tasks, false, y, y);
  }

  method Refuse(s: TaskScheduler, y: Id, u: Update)
    requires s.Valid() && s.Cfg() == C && !UpdateAccepted(s.Model(), false, y, u)
    modifies s, s.heap
    ensures s.Valid() && s.heap.items == old(s.heap.items) && s.Model() == AfterRejectedUpdate(old(s.Model()), y, u)
  {
    var _ := s.UpdateTask(y, u);
  }

  /** A refused update that asks for priority 8, after the adds. */
  method RefusedAfter(e: Entries, y: Id) returns (s: TaskScheduler)
    requires Descending(e) && y in RecordsOf(e) && RecordsOf(e)[y].status == READY
    ensures s.Valid() && s.heap.items == IdsOf(e)
    ensures s.Model() == AfterRejectedUpdate(State(RecordsOf(e), map[]), y, Update(Some(8), None, Some([y])))
  {
    ghost var states;
    s, states := AddInTurn(e);
    SelfRefused(s.Model(), y);
    Refuse(s, y, Update(Some(8), None, Some([y])));
  }

  method FourThenRefused(a: (Id, int), b: (Id, int), c: (Id, int), d: (Id, int), y: Id) returns (s: TaskScheduler)
    requires Descending([a, b, c, d]) && y in [a.0, b.0, c.0, d.0]
    ensures s.Valid() && s.heap.items == [a.0, b.0, c.0, d.0]
    ensures var tasks := map[a.0 := Ranked(a.1), b.0 := Ranked(b.1), c.0 := Ranked(c.1), d.0 := Ranked(d.1)];
      y in tasks && s.Model() == AfterRejectedUpdate(State(tasks, map[]), y, Update(Some(8), None, Some([y])))
  {
    FourRecords(a, b, c, d);
    s := RefusedAfter([a, b, c, d], y);
  }

  lemma FourDescend(w: Id, x: Id, y: Id, z: Id, i: int, j: int, k: int, l: int)
    requires w != "" && x != "" && y != "" && z != ""
    requires w != x && w != y && w != z && x != y && x != z && y != z && i > j && i > k && j > l
    ensures Descending([(w, i), (x, j), (y, k), (z, l)])
  {
    var e := [(w, i), (x, j), (y, k), (z, l)];
    assert IdsOf(e) == [w, x, y, z];
  }

  method CalmReached(w: Id, x: Id, y: Id, z: Id) returns (s: TaskScheduler)
    requires w != "" && x != "" && y != "" && z != ""
    requires w != x && w != y && w != z && x != y && x != z && y != z
    ensures s.Valid() && s.Model() == State(Four(w, x, y, z, 8), map[]) && s.heap.items == [w, x, y, z]
  {
    FourDescend(w, x, y, z, 9, 7, 5, 3);
    s := FourThenRefused((w, 9), (x, 7), (y, 5), (z, 3), y);
    assert s.tasks == Four(w, x, y, z, 8);
  }

  method UpsetReached(w: Id, x: Id, y: Id, z: Id) returns (s: TaskScheduler)
    requires w != "" && x != "" && y != "" && z != ""
    requires w != x && w != y && w != z && x != y && x != z && y != z
    ensures s.Valid() && s.Model() == State(Four(w, x, y, z, 8), map[]) && s.heap.items == [w, x, z, y]
  {
    FourDescend(w, x, z, y, 9, 7, 3, 5);
    s := FourThenRefused((w, 9), (x, 7), (z, 3), (y, 5), y);
    assert s.tasks == Four(w, x, y, z, 8);
  }

  /** Both layouts are reached: the same tasks, added in two orders, and then the same refused update. */
  method BothLayouts(w: Id, x: Id, y: Id, z: Id) returns (calm: TaskScheduler, upset: TaskScheduler)
    requires w != "" && x != "" && y != "" && z != ""
    requires w != x && w != y && w != z && x != y && x != z && y != z
    ensures calm.Valid() && upset.Valid() && calm.Model() == upset.Model()
    ensures calm.InOrder() && !upset.InOrder()
  {
    calm := CalmReached(w, x, y, z);
    upset := UpsetReached(w, x, y, z);
    CalmLayout(w, x, y, z, 8);
    UpsetLayout(w, x, y, z, 8);
  }

  /** A refused update that asks for priority 9. */
  function Raise(b: Id): Op {
    Change(b, Update(Some(9), None, Some([b])))
  }

  lemma Raised(a: Id, b: Id, s: State)
    requires a != b && s == State(map[a := Ranked(5), b := Ranked(3)], map[])
    ensures !UpdateAccepted(s, false, b, Raise(b).update)
    ensures var after := AfterRejectedUpdate(s, b, Raise(b).update);
      && after == State(map[a := Ranked(5), b := Ranked(9)], map[])
      && Executable(after.tasks, 0, a) && Chosen(after.tasks, 0, Some(b)) && !Chosen(after.tasks, 0, Some(a))
  {
    assert b in [b] && !GoodDep(s.tasks, false, b, b);
    var after := AfterRejectedUpdate(s, b, Raise(b).update).tasks;
    assert Executable(after, 0, a) && Executable(after, 0, b);
    assert Before(after, b, a) && !Before(after, a, b);
  }

  /**
   * Refused, and yet it misleads: after two adds, b's priority is raised above a's in an update
   * refused for its dependencies.  b is now the task to run; the scheduler reserves a.
   */
  method RefusedUpdateMisleads(a: Id, b: Id) returns (reserved: Option<Id>, ghost states: seq<State>)
    requires a != "" && b != "" && a != b
    ensures Run(C, states, [AddOf(a, 5), AddOf(b, 3), Raise(b), Execute(0, Manual)])
    ensures !UpdateAccepted(states[2], false, b, Raise(b).update)
    ensures reserved == Some(a) && Chosen(states[3].tasks, 0, Some(b)) && !Chosen(states[3].tasks, 0, Some(a))
    ensures a in states[4].tasks && states[4].tasks[a].status == RUNNING
  {
    var s;
    s, states := TwoAdded(a, b);
    ghost var adds := [AddOf(a, 5), AddOf(b, 3)];
    Raised(a, b, s.Model());
    var _ := s.UpdateTask(b, Raise(b).update);
    RunOn(C, states, adds, Raise(b), s.Model());
    states := states + [s.Model()];
    assert adds + [Raise(b)] + [Execute(0, Manual)] == [AddOf(a, 5), AddOf(b, 3), Raise(b), Execute(0, Manual)];
    reserved := s.ExecuteNextTask(0, Manual);
    RunOn(C, states, adds + [Raise(b)], Execute(0, Manual), s.Model());
    states := states + [s.Model()];
  }
}

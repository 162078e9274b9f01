/** What the lazy-heap scheduler's operations keep true. */
module LazyInvariant {
  import opened Graphs
  import opened LazyModel
  import opened Runs

  /** TaskOk, except that origin itself may be among the dependencies although it is gone. */
  ghost predicate TaskOkBut(s: State, k: Id, origin: Id) {
    k in s.tasks ==>
      var t := s.tasks[k];
      && (t.state == PENDING ==> Queued(t))
      && (Queued(t) ==> KeyOf(k, t) in s.heap && (t.state == PENDING || t.state == CANCELLED))
      && (t.state == WAITING <==> t.deps != {})
      && (forall d :: d in t.deps ==> (d == origin || Live(s.tasks, d)) && k in WatchersOf(s.watchers, d))
  }

  ghost predicate InvBut(s: State, origin: Id) {
    EntriesOk(s.heap, s.rseq) && forall k :: TaskOkBut(s, k, origin)
  }

  // ---------- Sweeping ----------

  lemma DownstreamSpreads(tasks: Tasks, origin: Id, k: Id, d: Id)
    requires k in tasks && k != origin && d in tasks && d in tasks[k].deps
    requires d == origin || d in Downstream(tasks, origin)
    ensures k in Downstream(tasks, origin)
  {
    var g := Unresolved(tasks);
    ReachesSelf(g, origin);
    assert k in Succ(g, d);
    ReachesStep(g, origin, d, k);
  }

  /** Giving everything downstream of a gone task a gone state leaves no task waiting on a gone one. */
  lemma SweepKeepsInv(s: State, origin: Id, st: TaskState)
    requires InvBut(s, origin) && origin in s.tasks && Gone(s.tasks[origin]) && Severity(st) > 0
    ensures Inv(s.(tasks := SweepAll(s.tasks, Downstream(s.tasks, origin), st)))
  {
    var down := Downstream(s.tasks, origin);
    var after := s.(tasks := SweepAll(s.tasks, down, st));
    forall k ensures TaskOk(after, k) {
      assert TaskOkBut(s, k, origin);
      if k in after.tasks && k !in down {
        forall d | d in after.tasks[k].deps ensures Live(after.tasks, d) {
          if k != origin && (d == origin || d in down) { DownstreamSpreads(s.tasks, origin, k, d); }
        }
      }
    }
  }

  // ---------- Releasing ----------

  lemma ReleasedKeeps(s: State, mid: Id, cid: Id)
    requires InvBut(s, mid) && mid in s.tasks && s.tasks[mid].deps == {}
    ensures InvBut(Released(s, mid, cid), mid)
    ensures forall k :: k in s.tasks && k != cid ==> Released(s, mid, cid).tasks[k] == s.tasks[k]
    ensures Released(s, mid, cid).tasks.Keys == s.tasks.Keys && Released(s, mid, cid).watchers == s.watchers
    ensures cid in s.tasks ==> mid !in Released(s, mid, cid).tasks[cid].deps
  {
    var s' := Released(s, mid, cid);
    assert TaskOkBut(s, cid, mid);
    forall k ensures TaskOkBut(s', k, mid) {
      assert TaskOkBut(s, k, mid);
    }
  }

  lemma {:induction false} ReleaseAllKeeps(s: State, mid: Id, list: seq<Id>)
    requires InvBut(s, mid) && mid in s.tasks && s.tasks[mid].deps == {}
    ensures var s' := ReleaseAll(s, mid, list);
      && InvBut(s', mid) && s'.tasks.Keys == s.tasks.Keys && s'.watchers == s.watchers
      && (forall k :: k in s.tasks && k !in list ==> s'.tasks[k] == s.tasks[k])
      && (forall k :: k in s.tasks && k in list ==> mid !in s'.tasks[k].deps)
      && s'.tasks[mid].deps == {}
    decreases |list|
  {
    if list != [] {
      var n := |list| - 1;
      ReleaseAllKeeps(s, mid, list[..n]);
      assert list == list[..n] + [list[n]];
      ReleasedKeeps(ReleaseAll(s, mid, list[..n]), mid, list[n]);
    }
  }

  /** Releasing all watchers of a finished task leaves nobody waiting on it. */
  lemma ReleaseKeepsInv(s: State, origin: Id)
    requires InvBut(s, origin) && origin in s.tasks && s.tasks[origin].deps == {}
    ensures Inv(ReleaseAll(s, origin, WatchersOf(s.watchers, origin)))
  {
    var list := WatchersOf(s.watchers, origin);
    var s' := ReleaseAll(s, origin, list);
    ReleaseAllKeeps(s, origin, list);
    forall k ensures TaskOk(s', k) {
      assert TaskOkBut(s', k, origin) && TaskOkBut(s, k, origin);
    }
  }

  lemma WokenKeepsInv(s: State, origin: Id)
    requires InvBut(s, origin) && origin in s.tasks && Gone(s.tasks[origin])
    ensures Inv(Woken(s, origin))
  {
    assert TaskOkBut(s, origin, origin);
    if s.tasks[origin].state == TaskState.DONE {
      ReleaseKeepsInv(s, origin);
    } else {
      SweepKeepsInv(s, origin, s.tasks[origin].state);
    }
  }

  // ---------- The other steps ----------

  /** A task reaches a gone state: for all others only the edge to it is out of line. */
  lemma LeaveLoosens(s: State, id: Id, st: TaskState)
    requires Inv(s) && id in s.tasks && (st == TaskState.DONE || Severity(st) > 0)
    ensures InvBut(WithTask(s, id, Swept(s.tasks[id], st)), id)
  {
    var s' := WithTask(s, id, Swept(s.tasks[id], st));
    forall k ensures TaskOkBut(s', k, id) { assert TaskOk(s, k); }
  }

  lemma LeaveAndWakeKeepsInv(s: State, id: Id, st: TaskState)
    requires Inv(s) && id in s.tasks && (st == TaskState.DONE || Severity(st) > 0)
    ensures Inv(Woken(WithTask(s, id, Swept(s.tasks[id], st)), id))
  {
    LeaveLoosens(s, id, st);
    WokenKeepsInv(WithTask(s, id, Swept(s.tasks[id], st)), id);
  }

  lemma WatchKeeps(watchers: map<Id, seq<Id>>, id: Id, deps: set<Id>, d: Id, k: Id)
    ensures k in WatchersOf(watchers, d) ==> k in WatchersOf(Watch(watchers, id, deps), d)
    ensures d in deps ==> id in WatchersOf(Watch(watchers, id, deps), d)
  {
  }

  /** A new record, not yet classified: everybody else is in order, and its edges are watched. */
  lemma AddedOthers(s: State, id: Id, t: Task, k: Id)
    requires Inv(s) && id !in s.tasks && id !in t.deps && k != id
    ensures TaskOk(s.(tasks := s.tasks[id := t], watchers := Watch(s.watchers[id := []], id, t.deps)), k)
  {
    assert TaskOk(s, k);
    if k in s.tasks {
      forall d | d in s.tasks[k].deps ensures k in WatchersOf(Watch(s.watchers[id := []], id, t.deps), d) {
        WatchKeeps(s.watchers[id := []], id, t.deps, d, k);
      }
    }
  }

  lemma AddKeepsInv(s: State, id: Id, priority: int, due: int, deps: set<Id>)
    requires Inv(s) && id !in s.tasks && id !in deps && deps <= s.tasks.Keys
    ensures Inv(AfterAdd(s, id, priority, due, deps))
  {
    var t := Task(PENDING, priority, due, deps, 0);
    var added := s.(tasks := s.tasks[id := t], watchers := Watch(s.watchers[id := []], id, deps));
    forall k | k != id ensures TaskOk(added, k) { AddedOthers(s, id, t, k); }
    forall d | d in deps ensures id in WatchersOf(added.watchers, d) {
      WatchKeeps(s.watchers[id := []], id, deps, d, id);
    }
    forall k | k in added.tasks ensures id !in added.tasks[k].deps { assert TaskOk(s, k); }
    ReclassifyKeepsInv(added, id);
  }

  lemma ReclassifyKeepsInv(s: State, id: Id)
    requires EntriesOk(s.heap, s.rseq) && id in s.tasks && s.tasks[id].mark == 0 && id !in s.tasks[id].deps
    requires forall k :: k != id ==> TaskOk(s, k)
    requires forall k :: k in s.tasks ==> id !in s.tasks[k].deps
    requires forall d :: d in s.tasks[id].deps ==> d in s.tasks && id in WatchersOf(s.watchers, d)
    ensures Inv(Reclassified(s, id))
  {
    var s' := Reclassified(s, id);
    forall k ensures TaskOk(s', k) {
      if k != id { assert TaskOk(s, k); }
    }
  }

  lemma UpdateKeepsInv(s: State, id: Id, priority: Option<int>, due: Option<int>)
    requires Inv(s) && UpdateError(s, id, priority).None?
    ensures Inv(AfterUpdate(s, id, priority, due))
  {
    var s' := AfterUpdate(s, id, priority, due);
    assert TaskOk(s, id);
    forall k ensures TaskOk(s', k) { assert TaskOk(s, k); }
  }

  /** Under the invariant the least valid entry belongs to the least queued task, whatever stale entries there are. */
  lemma NextIsLeast(s: State, now: int, r: Option<Id>, s': State)
    requires Inv(s) && NextStep(s, now, r, s')
    ensures IsNext(s.tasks, now, r)
  {
    forall k | k in s.tasks && Queued(s.tasks[k])
      ensures KeyOf(k, s.tasks[k]) in s.heap && ValidEntry(s.tasks, KeyOf(k, s.tasks[k]))
    {
      OneValidEntry(s, k, KeyOf(k, s.tasks[k]));
    }
    if r.Some? {
      var heap :| Pruned(s, heap) && exists e: Entry :: e.tid == r.value && Takes(s, now, heap, e, s');
      var e: Entry :| e.tid == r.value && Takes(s, now, heap, e, s');
      OneValidEntry(s, e.tid, e);
    }
  }

  lemma NextKeepsInv(s: State, now: int, r: Option<Id>, s': State)
    requires Inv(s) && NextStep(s, now, r, s')
    ensures Inv(s')
  {
    if r.Some? {
      var heap :| Pruned(s, heap) && exists e: Entry :: e.tid == r.value && Takes(s, now, heap, e, s');
      var e: Entry :| e.tid == r.value && Takes(s, now, heap, e, s');
      OneValidEntry(s, e.tid, e);
    }
    forall k ensures TaskOk(s', k) {
      assert TaskOk(s, k);
      if k in s.tasks { OneValidEntry(s, k, KeyOf(k, s.tasks[k])); }
    }
  }

  /** t with its edge to mid resolved; without edges left it is queued under a new mark. */
  ghost predicate EdgeResolved(t: Task, mid: Id, t': Task, rseq: nat) {
    if Gone(t) || mid !in t.deps then t' == t
    else
      && t'.deps == t.deps - {mid} && t'.priority == t.priority && t'.due == t.due
      && if t'.deps == {} then t'.state == PENDING && t'.mark > rseq else t'.state == WAITING && t'.mark == 0
  }

  /**
   * After a finished task is announced, each task that waited on it has lost that edge, and nothing
   * else has changed.
   */
  lemma {:induction false} ReleasesExactly(s: State, mid: Id, list: seq<Id>, k: Id)
    requires k in s.tasks
    ensures var s' := ReleaseAll(s, mid, list);
      k in s'.tasks && if k in list
        then EdgeResolved(s.tasks[k], mid, s'.tasks[k], s.rseq) else s'.tasks[k] == s.tasks[k]
    ensures ReleaseAll(s, mid, list).rseq >= s.rseq
    decreases |list|
  {
    if list != [] {
      var n := |list| - 1;
      assert list == list[..n] + [list[n]];
      ReleasesExactly(s, mid, list[..n], k);
    }
  }

  // ---------- A revived task ----------

  lemma FirstAdd(c: Id)
    ensures Step(State(map[], map[], {}, 0), Add(c, None, 0, []),
                 State(map[c := Task(PENDING, 0, 0, {}, 1)], map[c := []], {Entry(0, 0, 1, c)}, 1))
  {
  }

  /** Cancelling the only task. */
  lemma CancelOnly(s: State, c: Id, t: Task)
    requires s.tasks == map[c := t]
    ensures Step(s, Cancel(c), s.(tasks := map[c := Swept(t, CANCELLED)]))
  {
  }

  /** Taking the only task, whose valid entry is e. */
  lemma TakeOnly(s: State, c: Id, e: Entry)
    requires c in s.tasks && s.tasks.Keys == {c} && e in s.heap && e.tid == c && e.due <= 0 && ValidEntry(s.tasks, e)
    requires forall f :: f in s.heap && f.rseq == e.rseq ==> f == e
    ensures exists s' :: Step(s, Next(0), s') && c in s'.tasks && s'.tasks[c].state == RUNNING
  {
    var s' := s.(tasks := s.tasks[c := s.tasks[c].(mark := 0, state := RUNNING)], heap := s.heap - {e});
    assert Pruned(s, s.heap) && Takes(s, 0, s.heap, e, s');
    assert NextStep(s, 0, Some(c), s');
    assert Step(s, Next(0), s') && c in s'.tasks && s'.tasks[c].state == RUNNING;
  }

  /** A new priority queues a cancelled task. */
  lemma ReviveOnly(s: State, c: Id, t: Task)
    requires s.tasks == map[c := t] && t.state == CANCELLED && t.deps == {}
    ensures Step(s, Change(c, Some(1), None), Enqueued(WithTask(s, c, t.(priority := 1)), c))
  {
  }

  /** A cancelled task that is given a new priority runs again. */
  lemma CancelledRunsAgain(c: Id) returns (s1: State, s2: State, s3: State, s4: State)
    ensures Step(State(map[], map[], {}, 0), Add(c, None, 0, []), s1)
    ensures Step(s1, Cancel(c), s2) && c in s2.tasks && s2.tasks[c].state == CANCELLED
    ensures Step(s2, Change(c, Some(1), None), s3)
    ensures Step(s3, Next(0), s4) && c in s4.tasks && s4.tasks[c].state == RUNNING
  {
    var t := Task(PENDING, 0, 0, {}, 1);
    s1 := State(map[c := t], map[c := []], {Entry(0, 0, 1, c)}, 1);
    FirstAdd(c);
    CancelOnly(s1, c, t);
    s2 := s1.(tasks := map[c := Swept(t, CANCELLED)]);
    var cancelled := Swept(t, CANCELLED);
    ReviveOnly(s2, c, cancelled);
    s3 := Enqueued(WithTask(s2, c, cancelled.(priority := 1)), c);
    assert s3.heap == {Entry(0, 0, 1, c), Entry(0, -1, 2, c)};
    TakeOnly(s3, c, Entry(0, -1, 2, c));
    s4 :| Step(s3, Next(0), s4) && c in s4.tasks && s4.tasks[c].state == RUNNING;
  }

  // ---------- Runs ----------

  /** An update that gives a CANCELLED task a new key. */
  ghost predicate RevivesCancelled(s: State, op: Op) {
    && op.Change? && UpdateError(s, op.id, op.priority).None? && (op.priority.Some? || op.newDue.Some?)
    && s.tasks[op.id].state == CANCELLED
  }

  lemma StepKeepsInv(s: State, op: Op, s': State)
    requires Inv(s) && Step(s, op, s')
    ensures Inv(s')
  {
    match op
    case Add(id, priority, due, deps) =>
      if AddError(s, id, priority, deps).None? {
        assert forall i :: 0 <= i < |deps| ==> deps[i] in s.tasks;
        AddKeepsInv(s, id, GetOr(priority, 0), due, ToSet(deps));
      }
    case Next(now) =>
      var r :| NextStep(s, now, r, s');
      NextKeepsInv(s, now, r, s');
    case Done(id, deprecated) =>
      if id in s.tasks && s.tasks[id].state == RUNNING {
        LeaveAndWakeKeepsInv(s, id, if deprecated then DEPRECATED else TaskState.DONE);
      } else if id in s.tasks && s.tasks[id].state == TaskState.DONE && deprecated {
        LeaveAndWakeKeepsInv(s, id, DEPRECATED);
      }
    case Fail(id) => if id in s.tasks && s.tasks[id].state == RUNNING { LeaveAndWakeKeepsInv(s, id, FAILED); }
    case Cancel(id) => if id in s.tasks { LeaveAndWakeKeepsInv(s, id, CANCELLED); }
    case Change(id, priority, due) => if UpdateError(s, id, priority).None? { UpdateKeepsInv(s, id, priority, due); }
  }

  ghost predicate StepAt(states: seq<State>, ops: seq<Op>, i: nat)
    requires |states| == |ops| + 1 && i < |ops|
  {
    Step(states[i], ops[i], states[i + 1])
  }

  ghost predicate Run(states: seq<State>, ops: seq<Op>) {
    && |states| == |ops| + 1
    && states[0] == State(map[], map[], {}, 0)
    && forall i: nat :: i < |ops| ==> StepAt(states, ops, i)
  }

  lemma KeepsInvAt(states: seq<State>, ops: seq<Op>, i: nat)
    requires Run(states, ops) && i < |ops| && Inv(states[i])
    ensures Inv(states[i + 1])
  {
    assert StepAt(states, ops, i);
    StepKeepsInv(states[i], ops[i], states[i + 1]);
  }

  /** Every state of every run satisfies the invariant. */
  lemma {:induction false} EveryRunKeepsInv(states: seq<State>, ops: seq<Op>, n: nat)
    requires Run(states, ops) && n <= |ops|
    ensures Inv(states[n])
  {
    if n == 0 {
      assert forall k :: TaskOk(states[0], k);
    } else {
      EveryRunKeepsInv(states, ops, n - 1);
      KeepsInvAt(states, ops, n - 1);
      assert n - 1 + 1 == n;
    }
  }

  // ---------- Who is queued ----------

  /** Unless a CANCELLED task has been revived, to be queued is to be PENDING. */
  lemma QueuedIsPending(s: State, k: Id)
    requires Inv(s) && NoneRevived(s) && k in s.tasks
    ensures Queued(s.tasks[k]) <==> s.tasks[k].state == PENDING
  {
    assert TaskOk(s, k);
  }

  /** a's CANCELLED tasks in b are those of a, as they were, or out of the queue. */
  ghost predicate RevivesNone(a: State, b: State) {
    forall k :: k in b.tasks && b.tasks[k].state == CANCELLED && Queued(b.tasks[k]) ==>
      k in a.tasks && a.tasks[k].state == CANCELLED && Queued(a.tasks[k])
  }

  lemma {:induction false} ReleaseAllRevivesNone(s: State, mid: Id, list: seq<Id>)
    ensures RevivesNone(s, ReleaseAll(s, mid, list))
    decreases |list|
  {
    if list != [] { ReleaseAllRevivesNone(s, mid, list[..|list| - 1]); }
  }

  lemma LeftRevivesNone(s: State, id: Id, st: TaskState)
    requires id in s.tasks
    ensures RevivesNone(s, Left(s, id, st))
  {
    var swept := WithTask(s, id, Swept(s.tasks[id], st));
    ReleaseAllRevivesNone(swept, id, WatchersOf(swept.watchers, id));
  }

  lemma AddRevivesNone(s: State, id: Id, priority: int, due: int, deps: set<Id>)
    requires id !in s.tasks
    ensures RevivesNone(s, AfterAdd(s, id, priority, due, deps))
  {
  }

  lemma UpdateRevivesIff(s: State, id: Id, priority: Option<int>, due: Option<int>)
    requires Inv(s) && NoneRevived(s) && UpdateError(s, id, priority).None?
    ensures NoneRevived(AfterUpdate(s, id, priority, due)) <==>
      !(s.tasks[id].state == CANCELLED && (priority.Some? || due.Some?))
  {
    assert TaskOk(s, id);
    var after := AfterUpdate(s, id, priority, due);
    if s.tasks[id].state == CANCELLED {
      assert Queued(after.tasks[id]) <==> priority.Some? || due.Some?;
    }
    assert forall k :: k in after.tasks && k != id ==> after.tasks[k] == s.tasks[k];
  }

  /** A step queues a CANCELLED task, if none was before, just when it is an update that gives one a new key. */
  lemma StepRevivesIff(s: State, op: Op, s': State)
    requires Inv(s) && NoneRevived(s) && Step(s, op, s')
    ensures NoneRevived(s') <==> !RevivesCancelled(s, op)
  {
    match op
    case Add(id, priority, due, deps) =>
      if AddError(s, id, priority, deps).None? { AddRevivesNone(s, id, GetOr(priority, 0), due, ToSet(deps)); }
    case Next(now) =>
    case Done(id, deprecated) =>
      if id in s.tasks {
        LeftRevivesNone(s, id, DEPRECATED);
        LeftRevivesNone(s, id, TaskState.DONE);
      }
    case Fail(id) => if id in s.tasks { LeftRevivesNone(s, id, FAILED); }
    case Cancel(id) => if id in s.tasks { LeftRevivesNone(s, id, CANCELLED); }
    case Change(id, priority, due) => if UpdateError(s, id, priority).None? { UpdateRevivesIff(s, id, priority, due); }
  }

  lemma RevivesAt(states: seq<State>, ops: seq<Op>, i: nat)
    requires Run(states, ops) && i < |ops| && NoneRevived(states[i])
    ensures NoneRevived(states[i + 1]) <==> !RevivesCancelled(states[i], ops[i])
  {
    EveryRunKeepsInv(states, ops, i);
    assert StepAt(states, ops, i);
    StepRevivesIff(states[i], ops[i], states[i + 1]);
  }

  /** Throughout a run no CANCELLED task is queued exactly when no update of the run gives one a new key. */
  lemma RunRevivesIff(states: seq<State>, ops: seq<Op>, n: nat)
    requires Run(states, ops) && n <= |ops|
    ensures (forall i :: 0 <= i <= n ==> NoneRevived(states[i])) <==>
      (forall i :: 0 <= i < n ==> !RevivesCancelled(states[i], ops[i]))
  {
    var good := (i: nat) => i < |states| && NoneRevived(states[i]);
    var allowed := (i: nat) => i < |ops| && !RevivesCancelled(states[i], ops[i]);
    forall i: nat | i < n && good(i) ensures good(i + 1) <==> allowed(i) { RevivesAt(states, ops, i); }
    ThroughoutIff(good, allowed, n);
    assert forall i: nat :: i <= n ==> (good(i) <==> NoneRevived(states[i]));
    assert forall i: nat :: i < n ==> (allowed(i) <==> !RevivesCancelled(states[i], ops[i]));
  }
}

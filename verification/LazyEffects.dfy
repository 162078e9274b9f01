/** What the operations of the lazy-heap scheduler do and answer, read off the records field by field. */
module LazyEffects {
  import opened Graphs
  import opened LazyModel
  import opened LazyInvariant

  // ---------- Selection ----------

  /** What is taken, on the fields: due first, then higher priority, then queued earlier. */
  lemma NextIsFirst(tasks: Tasks, now: int, r: Option<Id>)
    ensures IsNext(tasks, now, r) <==>
      var queued := set k | k in tasks && tasks[k].mark > 0;
      match r
      case None => forall k :: k in queued ==> tasks[k].due > now
      case Some(id) =>
        && id in queued && tasks[id].due <= now
        && forall k :: k in queued && k != id ==>
          || tasks[id].due < tasks[k].due
          || (tasks[id].due == tasks[k].due && tasks[id].priority > tasks[k].priority)
          || (tasks[id].due == tasks[k].due && tasks[id].priority == tasks[k].priority
              && tasks[id].mark < tasks[k].mark)
  {
  }

  /** The task taken is RUNNING and no longer queued; of the heap only its entry and stale ones may go. */
  lemma NextWrites(s: State, now: int, r: Option<Id>, s': State)
    requires Inv(s) && NextStep(s, now, r, s')
    ensures s'.watchers == s.watchers && s'.rseq == s.rseq && s'.heap <= s.heap
    ensures r.Some? ==> r.value in s.tasks
    ensures s'.tasks == match r
      case None => s.tasks
      case Some(id) => s.tasks[id := s.tasks[id].(state := RUNNING, mark := 0)]
    ensures forall k :: k in s.tasks && s.tasks[k].mark > 0 && r != Some(k) ==>
      Entry(s.tasks[k].due, -s.tasks[k].priority, s.tasks[k].mark, k) in s'.heap
  {
    NextKeepsInv(s, now, r, s');
    forall k | k in s.tasks && s.tasks[k].mark > 0 && r != Some(k)
      ensures Entry(s.tasks[k].due, -s.tasks[k].priority, s.tasks[k].mark, k) in s'.heap
    {
      assert TaskOk(s', k);
    }
  }

  // ---------- Leaving ----------

  /** A walk to what is downstream, read backwards, is a chain of tasks each waiting on the next. */
  lemma Backwards(tasks: Tasks, p: seq<Id>) returns (q: seq<Id>)
    requires Walk(Unresolved(tasks), p)
    ensures |q| == |p| && q[0] == p[|p| - 1] && q[|q| - 1] == p[0]
    ensures forall i :: 0 <= i < |q| - 1 ==> q[i] in tasks && q[i + 1] in tasks[q[i]].deps
  {
    q := seq(|p|, i requires 0 <= i < |p| => p[|p| - 1 - i]);
    forall i | 0 <= i < |q| - 1 ensures q[i] in tasks && q[i + 1] in tasks[q[i]].deps {
      var j := |p| - 2 - i;
      assert p[j + 1] in Succ(Unresolved(tasks), p[j]);
    }
  }

  lemma Forwards(tasks: Tasks, q: seq<Id>) returns (p: seq<Id>)
    requires |q| > 0 && q[|q| - 1] in tasks
    requires forall i :: 0 <= i < |q| - 1 ==> q[i] in tasks && q[i + 1] in tasks[q[i]].deps
    ensures WalkFromTo(Unresolved(tasks), p, q[|q| - 1], q[0])
  {
    p := seq(|q|, i requires 0 <= i < |q| => q[|q| - 1 - i]);
    forall j | 0 <= j < |p| - 1 ensures p[j + 1] in Succ(Unresolved(tasks), p[j]) {
      var i := |q| - 2 - j;
      assert q[i] in tasks && q[i + 1] in tasks[q[i]].deps;
      assert i + 1 < |q| - 1 ==> q[i + 1] in tasks;
    }
  }

  /** What a cascade reaches: whatever waits on the origin over a chain of unresolved dependencies. */
  lemma DownstreamMeans(tasks: Tasks, origin: Id, k: Id)
    requires origin in tasks
    ensures k in Downstream(tasks, origin) <==>
      && k in tasks && k != origin
      && exists q: seq<Id> ::
        && |q| > 0 && q[0] == k && q[|q| - 1] == origin
        && forall i :: 0 <= i < |q| - 1 ==> q[i] in tasks && q[i + 1] in tasks[q[i]].deps
  {
    if p: seq<Id> :| WalkFromTo(Unresolved(tasks), p, origin, k) {
      var q := Backwards(tasks, p);
    }
    if q: seq<Id> :|
      && |q| > 0 && q[0] == k && q[|q| - 1] == origin
      && forall i :: 0 <= i < |q| - 1 ==> q[i] in tasks && q[i + 1] in tasks[q[i]].deps
    {
      var p := Forwards(tasks, q);
    }
  }

  /** Giving up the dependencies of the origin changes nothing about what is downstream of it. */
  lemma SameDownstream(tasks: Tasks, origin: Id, t: Task, k: Id)
    requires origin in tasks && t.deps == {}
    ensures k in Downstream(tasks[origin := t], origin) <==> k in Downstream(tasks, origin)
  {
    var g, h := Unresolved(tasks), Unresolved(tasks[origin := t]);
    if p: seq<Id> :| WalkFromTo(h, p, origin, k) {
      forall i | 0 <= i < |p| - 1 ensures p[i + 1] in Succ(g, p[i]) { assert p[i + 1] in Succ(h, p[i]); }
      assert WalkFromTo(g, p, origin, k);
    }
    if p: seq<Id> :| WalkFromTo(g, p, origin, k) && k != origin {
      LastVisit(g, h, origin, p);
    }
  }

  /** From the last visit to the origin on, a walk does not come back to it. */
  lemma {:induction false} LastVisit(g: Graph, h: Graph, origin: Id, p: seq<Id>)
    requires Walk(g, p) && p[0] == origin && p[|p| - 1] != origin
    requires forall u, v :: v in Succ(g, u) && v != origin ==> v in Succ(h, u)
    ensures Reaches(h, origin, p[|p| - 1])
    decreases |p|
  {
    if i :| 0 < i < |p| && p[i] == origin {
      assert Walk(g, p[i..]);
      LastVisit(g, h, origin, p[i..]);
    } else {
      forall i | 0 <= i < |p| - 1 ensures p[i + 1] in Succ(h, p[i]) { assert p[i + 1] in Succ(g, p[i]); }
      assert WalkFromTo(h, p, origin, p[|p| - 1]);
    }
  }

  /** A task that fails, is cancelled or is deprecated takes everything downstream with it. */
  lemma SweepWrites(s: State, id: Id, st: TaskState, s': State)
    requires id in s.tasks && st in {CANCELLED, DEPRECATED, FAILED} && s' == Left(s, id, st)
    ensures s'.tasks.Keys == s.tasks.Keys && s'.watchers == s.watchers && s'.heap == s.heap && s'.rseq == s.rseq
    ensures forall k :: k in s.tasks ==>
      s'.tasks[k] == if k == id || k in Downstream(s.tasks, id)
        then s.tasks[k].(state := st, deps := {}, mark := 0) else s.tasks[k]
  {
    var t := s.tasks[id].(state := st, deps := {}, mark := 0);
    forall k ensures k in Downstream(s.tasks[id := t], id) <==> k in Downstream(s.tasks, id) {
      SameDownstream(s.tasks, id, t, k);
    }
  }

  /**
   * A task that is done frees those that wait on it of that dependency, and queues those who had no
   * other.  Nothing else changes.
   */
  lemma DoneReleases(s: State, id: Id, s': State)
    requires Inv(s) && id in s.tasks && s' == Left(s, id, TaskState.DONE)
    ensures s'.tasks.Keys == s.tasks.Keys && s'.watchers == s.watchers
    ensures s'.tasks[id] == s.tasks[id].(state := TaskState.DONE, deps := {}, mark := 0)
    ensures forall k :: k in s.tasks && k != id ==>
      var t, t' := s.tasks[k], s'.tasks[k];
      if id !in t.deps then t' == t
      else
        && t'.deps == t.deps - {id} && t'.priority == t.priority && t'.due == t.due
        && if t.deps == {id} then t'.state == PENDING && t'.mark > s.rseq else t'.state == WAITING && t'.mark == 0
  {
    var left := WithTask(s, id, Swept(s.tasks[id], TaskState.DONE));
    var list := WatchersOf(s.watchers, id);
    LeaveLoosens(s, id, TaskState.DONE);
    ReleaseAllKeeps(left, id, list);
    forall k | k in s.tasks
      ensures k in s'.tasks
      ensures if k in list then EdgeResolved(left.tasks[k], id, s'.tasks[k], s.rseq) else s'.tasks[k] == left.tasks[k]
      ensures id in s.tasks[k].deps ==> k in list && s.tasks[k].state == WAITING
    {
      ReleasesExactly(left, id, list, k);
      assert TaskOk(s, k);
    }
  }

  lemma {:induction false} MarksBounded(s: State, mid: Id, list: seq<Id>, k: Id)
    requires k in s.tasks && s.tasks[k].mark <= s.rseq
    ensures var s' := ReleaseAll(s, mid, list); k in s'.tasks && s'.tasks[k].mark <= s'.rseq
    decreases |list|
  {
    if list != [] { MarksBounded(s, mid, list[..|list| - 1], k); }
  }

  /** Of two tasks freed together, the one that was watching first is queued first. */
  lemma {:induction false} ReleasedInOrder(s: State, mid: Id, list: seq<Id>, m: nat, k: Id)
    requires m < |list| && k in list && k !in list[..m + 1]
    requires forall i :: i in {list[m], k} ==>
      i in s.tasks && !Gone(s.tasks[i]) && s.tasks[i].deps == {mid} && s.tasks[i].mark <= s.rseq
    ensures var s' := ReleaseAll(s, mid, list);
      list[m] in s'.tasks && k in s'.tasks && s'.tasks[list[m]].mark < s'.tasks[k].mark
    decreases |list|
  {
    var n, j := |list| - 1, list[m];
    var rest := list[..n];
    assert list == rest + [list[n]];
    assert m != n;
    assert rest[..m + 1] == list[..m + 1] && rest[m] == j && j in rest;
    var before := ReleaseAll(s, mid, rest);
    ReleasesExactly(s, mid, rest, j);
    ReleasesExactly(s, mid, rest, k);
    MarksBounded(s, mid, rest, j);
    if k in rest { ReleasedInOrder(s, mid, rest, m, k); }
  }

  /** What done_task does: nothing unless the task runs, or is DONE and is to be deprecated. */
  lemma DoneWrites(s: State, id: Id, deprecated: bool, s': State)
    requires Inv(s) && Step(s, Done(id, deprecated), s')
    ensures id in s.tasks && s.tasks[id].state == RUNNING && !deprecated ==> s' == Left(s, id, TaskState.DONE)
    ensures id in s.tasks && s.tasks[id].state == RUNNING && deprecated ==> s' == Left(s, id, DEPRECATED)
    ensures id in s.tasks && s.tasks[id].state == TaskState.DONE && deprecated ==>
      s' == s.(tasks := s.tasks[id := s.tasks[id].(state := DEPRECATED, mark := 0)])
    ensures id in s.tasks && s.tasks[id].state == TaskState.DONE && !deprecated ==> s' == s
    ensures id !in s.tasks || s.tasks[id].state !in {RUNNING, TaskState.DONE} ==> s' == s
  {
    if id in s.tasks && s.tasks[id].state == TaskState.DONE && deprecated {
      SweepWrites(s, id, DEPRECATED, s');
      assert TaskOk(s, id);
      forall k ensures k !in Downstream(s.tasks, id) {
        if k in Downstream(s.tasks, id) { NobodyWaitsOnGone(s, id, k); }
      }
      assert s'.tasks == s.tasks[id := s.tasks[id].(state := DEPRECATED, mark := 0)];
    }
  }

  lemma NobodyWaitsOnGone(s: State, id: Id, k: Id)
    requires Inv(s) && id in s.tasks && Gone(s.tasks[id])
    ensures k !in Downstream(s.tasks, id)
  {
    forall v | v in s.tasks ensures id !in s.tasks[v].deps { assert TaskOk(s, v); }
    if k in Downstream(s.tasks, id) { var v := ReachedThrough(s.tasks, id, k); }
  }

  lemma ReachedThrough(tasks: Tasks, id: Id, k: Id) returns (v: Id)
    requires k in Downstream(tasks, id)
    ensures v in tasks && id in tasks[v].deps
  {
    var g := Unresolved(tasks);
    var p: seq<Id> :| WalkFromTo(g, p, id, k);
    assert p[0 + 1] in Succ(g, p[0]);
    v := p[1];
  }

  /** Failing a RUNNING task, and cancelling any task, sweeps what is downstream. */
  lemma FailWrites(s: State, id: Id, s': State)
    requires Step(s, Fail(id), s')
    ensures !(id in s.tasks && s.tasks[id].state == RUNNING) ==> s' == s
    ensures id in s.tasks && s.tasks[id].state == RUNNING ==>
      && s'.tasks.Keys == s.tasks.Keys && s' == s.(tasks := s'.tasks)
      && forall k :: k in s.tasks ==>
        s'.tasks[k] == if k == id || k in Downstream(s.tasks, id)
          then s.tasks[k].(state := FAILED, deps := {}, mark := 0) else s.tasks[k]
  {
    if id in s.tasks && s.tasks[id].state == RUNNING { SweepWrites(s, id, FAILED, s'); }
  }

  lemma CancelWrites(s: State, id: Id, s': State)
    requires Step(s, Cancel(id), s')
    ensures id !in s.tasks ==> s' == s
    ensures id in s.tasks ==>
      && s'.tasks.Keys == s.tasks.Keys && s' == s.(tasks := s'.tasks)
      && forall k :: k in s.tasks ==>
        s'.tasks[k] == if k == id || k in Downstream(s.tasks, id)
          then s.tasks[k].(state := CANCELLED, deps := {}, mark := 0) else s.tasks[k]
  {
    if id in s.tasks { SweepWrites(s, id, CANCELLED, s'); }
  }

  // ---------- Adding ----------

  /** When an add is accepted, and in which order the reasons to refuse it count. */
  lemma AddAnswer(s: State, id: Id, priority: Option<int>, deps: seq<Id>)
    ensures var e := AddError(s, id, priority, deps);
      var ranged := priority == None || -5 <= priority.value <= 5;
      && (e == None <==> ranged && id !in s.tasks && id !in deps && forall d :: d in deps ==> d in s.tasks)
      && (!ranged ==> e == Some(BadValue))
      && (ranged && id in s.tasks ==> e == Some(AlreadyExists))
      && (ranged && id !in s.tasks && id in deps ==> e == Some(BadValue))
      && (ranged && id !in s.tasks && id !in deps && (exists d :: d in deps && d !in s.tasks) ==> e == Some(NotFound))
  {
  }

  /** FAILED counts before CANCELLED, and that before DEPRECATED; other states do not spread. */
  lemma WorstMeans(tasks: Tasks, deps: set<Id>)
    ensures Worst(tasks, deps) ==
      if exists d :: d in deps && d in tasks && tasks[d].state == FAILED then Some(FAILED)
      else if exists d :: d in deps && d in tasks && tasks[d].state == CANCELLED then Some(CANCELLED)
      else if exists d :: d in deps && d in tasks && tasks[d].state == DEPRECATED then Some(DEPRECATED)
      else None
  {
  }

  /**
   * A new task shares at once the end that the worst of its dependencies has come to; else it waits
   * on those not yet DONE; else it is queued.
   */
  lemma AddWrites(s: State, id: Id, priority: Option<int>, due: int, deps: seq<Id>, s': State)
    requires Step(s, Add(id, priority, due, deps), s')
    ensures AddError(s, id, priority, deps).Some? ==> s' == s
    ensures AddError(s, id, priority, deps).None? ==>
      var rank, all := if priority.Some? then priority.value else 0, set d | d in deps;
      var left := set d | d in all && d in s.tasks && s.tasks[d].state != TaskState.DONE;
      && id !in s.tasks && all <= s.tasks.Keys && s'.tasks.Keys == s.tasks.Keys + {id} && s'.tasks - {id} == s.tasks
      && match Worst(s.tasks, all)
         case Some(st) => s'.tasks[id] == Task(st, rank, due, {}, 0) && SameQueue(s, s')
         case None =>
           if left != {} then s'.tasks[id] == Task(WAITING, rank, due, left, 0) && SameQueue(s, s')
           else
             && s'.tasks[id] == Task(PENDING, rank, due, {}, s.rseq + 1) && s'.rseq == s.rseq + 1
             && s'.heap == s.heap + {Entry(due, -rank, s.rseq + 1, id)}
  {
    if AddError(s, id, priority, deps).None? {
      AddedUnclassified(s, id, priority, due, deps, s');
      NewRecord(s, id, if priority.Some? then priority.value else 0, due, (set d | d in deps), s');
    }
  }

  lemma NewRecord(s: State, id: Id, rank: int, due: int, all: set<Id>, s': State)
    requires id !in s.tasks && all <= s.tasks.Keys
    requires var added := s.(tasks := s.tasks[id := Task(PENDING, rank, due, all, 0)], watchers := s'.watchers);
      s' == Reclassified(added, id)
    ensures var left := set d | d in all && d in s.tasks && s.tasks[d].state != TaskState.DONE;
      && s'.tasks.Keys == s.tasks.Keys + {id} && s'.tasks - {id} == s.tasks
      && match Worst(s.tasks, all)
         case Some(st) => s'.tasks[id] == Task(st, rank, due, {}, 0) && SameQueue(s, s')
         case None =>
           if left != {} then s'.tasks[id] == Task(WAITING, rank, due, left, 0) && SameQueue(s, s')
           else
             && s'.tasks[id] == Task(PENDING, rank, due, {}, s.rseq + 1) && s'.rseq == s.rseq + 1
             && s'.heap == s.heap + {Entry(due, -rank, s.rseq + 1, id)}
  {
    var t := Task(PENDING, rank, due, all, 0);
    var added := s.(tasks := s.tasks[id := t], watchers := s'.watchers);
    ClassifiedWrites(added, id, s');
    SameWorst(s.tasks, id, t);
    assert (set d | d in all && (d in added.tasks ==> added.tasks[d].state != TaskState.DONE)) ==
      set d | d in all && d in s.tasks && s.tasks[d].state != TaskState.DONE;
  }

  lemma AddedUnclassified(s: State, id: Id, priority: Option<int>, due: int, deps: seq<Id>, s': State)
    requires Step(s, Add(id, priority, due, deps), s') && AddError(s, id, priority, deps).None?
    ensures id !in s.tasks && forall d :: d in deps ==> d in s.tasks
    ensures var t := Task(PENDING, if priority.Some? then priority.value else 0, due, set d | d in deps, 0);
      s' == Reclassified(s.(tasks := s.tasks[id := t], watchers := s'.watchers), id)
  {
  }

  /** Where a task that is not queued belongs, given its dependencies. */
  lemma ClassifiedWrites(s: State, id: Id, s': State)
    requires id in s.tasks && s.tasks[id].mark == 0 && s' == Reclassified(s, id)
    ensures var t, bad := s.tasks[id], Worst(s.tasks, s.tasks[id].deps);
      var left := set d | d in t.deps && (d in s.tasks ==> s.tasks[d].state != TaskState.DONE);
      && id in s'.tasks && s'.tasks == s.tasks[id := s'.tasks[id]]
      && match bad
         case Some(st) => s'.tasks[id] == t.(state := st, deps := {}) && SameQueue(s, s')
         case None =>
           if left != {} then s'.tasks[id] == t.(state := WAITING, deps := left) && SameQueue(s, s')
           else
             && s'.tasks[id] == t.(state := PENDING, deps := {}, mark := s.rseq + 1) && s'.rseq == s.rseq + 1
             && s'.heap == s.heap + {Entry(t.due, -t.priority, s.rseq + 1, id)}
  {
    assert (set d | d in s.tasks[id].deps && (d in s.tasks ==> s.tasks[d].state != TaskState.DONE)) ==
      set d | d in s.tasks[id].deps && !(d in s.tasks && s.tasks[d].state == TaskState.DONE);
  }

  lemma SameWorst(tasks: Tasks, id: Id, t: Task)
    requires id !in t.deps
    ensures Worst(tasks[id := t], t.deps) == Worst(tasks, t.deps)
  {
    forall st ensures SomeIn(tasks[id := t], t.deps, st) <==> SomeIn(tasks, t.deps, st) {}
  }

  predicate SameQueue(s: State, s': State) {
    s'.heap == s.heap && s'.rseq == s.rseq
  }

  /** A new task is put at the end of the list of each of its dependencies; no other list changes but its own. */
  lemma AddWatches(s: State, id: Id, priority: Option<int>, due: int, deps: seq<Id>, s': State, d: Id)
    requires Step(s, Add(id, priority, due, deps), s') && AddError(s, id, priority, deps).None?
    ensures var was := if d in s.watchers then s.watchers[d] else [];
      var now := if d in s'.watchers then s'.watchers[d] else [];
      now == if d == id then [] else if d in deps && id !in was then was + [id] else was
  {
  }

  // ---------- Updating ----------

  lemma UpdateAnswer(s: State, id: Id, priority: Option<int>)
    ensures var e := UpdateError(s, id, priority);
      if id !in s.tasks then e == Some(NotFound)
      else if s.tasks[id].state in {TaskState.DONE, FAILED, DEPRECATED} then e == Some(NotUpdatable)
      else e == if priority == None || -5 <= priority.value <= 5 then None else Some(BadValue)
  {
  }

  /**
   * An accepted update writes the priority and due time it was given.  If it was given any, a task
   * without unresolved dependencies is queued afresh, a RUNNING one as PENDING.
   */
  lemma UpdateWrites(s: State, id: Id, priority: Option<int>, due: Option<int>, s': State)
    requires Step(s, Change(id, priority, due), s')
    ensures UpdateError(s, id, priority).Some? ==> s' == s
    ensures UpdateError(s, id, priority).None? ==>
      && id in s.tasks && id in s'.tasks && s'.tasks - {id} == s.tasks - {id} && s'.watchers == s.watchers
      && var t, t' := s.tasks[id], s'.tasks[id];
         var afresh := (priority.Some? || due.Some?) && t.deps == {};
         && t'.priority == (if priority.Some? then priority.value else t.priority)
         && t'.due == (if due.Some? then due.value else t.due) && t'.deps == t.deps
         && t'.state == (if afresh && t.state == RUNNING then PENDING else t.state)
         && if afresh
            then
              && t'.mark == s'.rseq == s.rseq + 1
              && s'.heap == s.heap + {Entry(t'.due, -t'.priority, s.rseq + 1, id)}
            else t'.mark == t.mark && SameQueue(s, s')
  {
  }
}

/** The lazy-heap scheduler itself, updated in place. */
module LazyScheduler {
  import opened Graphs
  import opened GraphSearch
  import opened LazyModel
  import opened LazyInvariant
  import opened LazyEffects

  ghost predicate IsTop(heap: set<Entry>, top: Entry) {
    top in heap && forall e :: e in heap && e != top ==> Before(top, e)
  }

  lemma {:induction false} LeastExists(heap: set<Entry>) returns (e: Entry)
    requires heap != {}
    requires forall a, b :: a in heap && b in heap && a.rseq == b.rseq ==> a == b
    ensures e in heap && forall f :: f in heap && f != e ==> Before(e, f)
    decreases heap
  {
    e :| e in heap;
    if heap != {e} {
      var rest := heap - {e};
      var g :| g in heap && g != e;
      assert g in rest;
      var f := LeastExists(rest);
      assert e.rseq != f.rseq && forall h :: h in heap ==> h == e || h in rest;
      if !Before(e, f) { e := f; }
    }
  }

  /** Of the dependencies read so far, the most severe one. */
  lemma WorstOne(tasks: Tasks, deps: set<Id>, d: Id)
    ensures Worst(tasks, deps + {d}) ==
      var before := Worst(tasks, deps);
      var sev := if before.Some? then Severity(before.value) else 0;
      if d in tasks && Severity(tasks[d].state) > sev then Some(tasks[d].state) else before
  {
  }

  /**
   * How far a cascade has come: everything done is downstream, and what is done and no longer
   * stacked has been expanded.
   */
  ghost predicate Cascading(tasks: Tasks, origin: Id, done: set<Id>, stack: seq<Id>) {
    && done <= Downstream(tasks, origin)
    && (forall v :: v in stack ==> v in done || v == origin)
    && forall v, k :: (v in done || v == origin) && v !in stack && k in tasks && k != origin && v in tasks[k].deps ==>
      k in done
  }

  lemma CascadeComplete(tasks: Tasks, origin: Id, done: set<Id>)
    requires Cascading(tasks, origin, done, []) && origin in tasks && tasks[origin].deps == {}
    ensures done == Downstream(tasks, origin)
  {
    var g := Unresolved(tasks);
    var all := done + {origin};
    forall v | v in all ensures Succ(g, v) <= all {}
    forall k | k in Downstream(tasks, origin) ensures k in done {
      if k !in done { ClosedUnderSucc(g, origin, k, all); }
    }
  }

  lemma WatchOne(watchers: map<Id, seq<Id>>, id: Id, ids: set<Id>, d: Id)
    requires d !in ids
    ensures var now := Watch(watchers, id, ids);
      && WatchersOf(now, d) == WatchersOf(watchers, d)
      && Watch(watchers, id, ids + {d}) ==
           if id !in WatchersOf(now, d) then now[d := WatchersOf(now, d) + [id]] else now[d := WatchersOf(now, d)]
  {
  }

  class Scheduler {
    var tasks: Tasks
    var watchers: map<Id, seq<Id>>
    var readyHeap: set<Entry>
    var rseq: nat

    ghost function Model(): State
      reads this
    {
      State(tasks, watchers, readyHeap, rseq)
    }

    ghost predicate Valid()
      reads this
    {
      Inv(Model())
    }

    constructor ()
      ensures Valid() && Model() == State(map[], map[], {}, 0)
    {
      tasks, watchers, readyHeap, rseq := map[], map[], {}, 0;
      new;
      forall k ensures TaskOk(Model(), k) {}
    }

    // ---------- The heap, taken as a priority queue ----------

    /** heap[0] */
    method HeapTop() returns (top: Entry)
      requires readyHeap != {} && EntriesOk(readyHeap, rseq)
      ensures IsTop(readyHeap, top)
    {
      ghost var least := LeastExists(readyHeap);
      top :| top in readyHeap && forall e :: e in readyHeap && e != top ==> Before(top, e);
    }

    method Enqueue(id: Id)
      requires id in tasks
      modifies this`tasks, this`readyHeap, this`rseq
      ensures Model() == Enqueued(old(Model()), id)
      ensures old(EntriesOk(readyHeap, rseq)) ==>
        && EntriesOk(readyHeap, rseq)
        && (forall e :: e in old(readyHeap) && e.tid == id ==> !ValidEntry(tasks, e))
        && (forall e :: e in old(readyHeap) && e.tid != id ==> (ValidEntry(tasks, e) <==> ValidEntry(old(tasks), e)))
        && (exists e :: e in readyHeap && e.tid == id && ValidEntry(tasks, e) && e == KeyOf(id, tasks[id]))
    {
      rseq := rseq + 1;
      tasks := tasks[id := tasks[id].(mark := rseq)];
      var entry := Entry(tasks[id].due, -tasks[id].priority, rseq, id);
      readyHeap := readyHeap + {entry};
      assert ValidEntry(tasks, entry) && entry == KeyOf(id, tasks[id]);
    }

    /** Drops stale entries from the top until the top is valid. */
    method PruneTop()
      requires EntriesOk(readyHeap, rseq)
      modifies this`readyHeap
      ensures Pruned(old(Model()), readyHeap) && EntriesOk(readyHeap, rseq)
      ensures readyHeap != {} ==> exists top :: ValidEntry(tasks, top) && IsTop(readyHeap, top)
    {
      while readyHeap != {}
        invariant Pruned(old(Model()), readyHeap) && EntriesOk(readyHeap, rseq)
        decreases readyHeap
      {
        var top := HeapTop();
        if ValidEntry(tasks, top) {
          return;
        }
        readyHeap := readyHeap - {top};
      }
    }

    // ---------- Classification ----------

    method PickTerminal(deps: set<Id>) returns (best: Option<TaskState>)
      ensures best == Worst(tasks, deps)
    {
      best := None;
      var todo := deps;
      while todo != {}
        invariant todo <= deps && best == Worst(tasks, deps - todo)
      {
        var d :| d in todo;
        WorstOne(tasks, deps - todo, d);
        assert deps - (todo - {d}) == deps - todo + {d};
        todo := todo - {d};
        if d in tasks && Severity(tasks[d].state) > 0 {
          if best.None? || Severity(tasks[d].state) > Severity(best.value) {
            best := Some(tasks[d].state);
          }
        }
      }
      assert deps - {} == deps;
    }

    method PruneDone(deps: set<Id>) returns (left: set<Id>)
      ensures left == set d | d in deps && !(d in tasks && tasks[d].state == TaskState.DONE)
    {
      left := deps;
      var todo := deps;
      while todo != {}
        invariant todo <= deps
        invariant left == set d | d in deps && (d in todo || !(d in tasks && tasks[d].state == TaskState.DONE))
      {
        var d :| d in todo;
        todo := todo - {d};
        if d in tasks && tasks[d].state == TaskState.DONE {
          left := left - {d};
        }
      }
    }

    method Reclassify(id: Id)
      requires id in tasks
      modifies this`tasks, this`readyHeap, this`rseq
      ensures Model() == Reclassified(old(Model()), id)
    {
      var task := tasks[id];
      var bad := PickTerminal(task.deps);
      if bad.Some? {
        tasks := tasks[id := Swept(task, bad.value)];
        return;
      }
      var left := PruneDone(task.deps);
      if left != {} {
        tasks := tasks[id := task.(deps := left, state := WAITING, mark := 0)];
      } else {
        tasks := tasks[id := task.(deps := {}, state := PENDING)];
        if task.mark == 0 {
          Enqueue(id);
        }
      }
    }

    // ---------- Insertion ----------

    method Register(id: Id, deps: set<Id>)
      modifies this`watchers
      ensures watchers == Watch(old(watchers)[id := []], id, deps)
    {
      watchers := watchers[id := []];
      ghost var before, read: set<Id> := watchers, {};
      var todo := deps;
      assert watchers == Watch(before, id, {});
      while todo != {}
        invariant read + todo == deps && read !! todo && watchers == Watch(before, id, read)
      {
        var d :| d in todo;
        WatchOne(before, id, read, d);
        todo, read := todo - {d}, read + {d};
        if id !in WatchersOf(watchers, d) {
          watchers := watchers[d := WatchersOf(watchers, d) + [id]];
        } else {
          watchers := watchers[d := WatchersOf(watchers, d)];
        }
      }
    }

    method AddTask(id: Id, priority: Option<int>, due: int, deps: seq<Id>) returns (r: Result<Id>)
      requires Valid()
      modifies this
      ensures Valid() && Step(old(Model()), Add(id, priority, due, deps), Model())
      ensures r == match AddError(old(Model()), id, priority, deps) case Some(e) => Err(e) case None => Ok(id)
    {
      if !PriorityOk(priority) {
        return Err(BadValue);
      }
      if id in tasks {
        return Err(AlreadyExists);
      }
      if id in deps {
        return Err(BadValue);
      }
      if exists i :: 0 <= i < |deps| && deps[i] !in tasks {
        return Err(NotFound);
      }
      var all := ToSet(deps);
      assert all <= tasks.Keys;
      AddKeepsInv(Model(), id, GetOr(priority, 0), due, all);
      tasks := tasks[id := Task(PENDING, GetOr(priority, 0), due, all, 0)];
      Register(id, all);
      Reclassify(id);
      return Ok(id);
    }

    // ---------- Wakeups ----------

    /** One dependent of a gone task; tells whether it has been swept along. */
    method WakeChild(mid: Id, cid: Id) returns (swept: bool)
      requires mid in tasks && Gone(tasks[mid])
      modifies this`tasks, this`readyHeap, this`rseq
      ensures swept == SweepsAlong(old(tasks), mid, cid).Some?
      ensures Model() == AfterWake(old(Model()), mid, cid)
    {
      if cid !in tasks || Gone(tasks[cid]) {
        return false;
      }
      if mid !in tasks[cid].deps {
        return false;
      }
      var child := tasks[cid];
      var bad := PickTerminal(child.deps - {mid});
      var overall := Merge(bad, tasks[mid].state);
      if overall.Some? {
        tasks := tasks[cid := Swept(child, overall.value)];
        return true;
      }
      var deps := child.deps - {mid};
      if deps != {} {
        tasks := tasks[cid := child.(deps := deps, state := WAITING, mark := 0)];
      } else {
        tasks := tasks[cid := child.(deps := {}, state := PENDING)];
        Enqueue(cid);
      }
      return false;
    }

    /** The dependents of a gone task, in watcher order; returns those swept along. */
    method WakeAll(mid: Id, ghost origin: Id, ghost before: State, ghost done: set<Id>)
      returns (pushed: seq<Id>, ghost more: set<Id>)
      requires InvBut(before, origin) && origin in before.tasks && Gone(before.tasks[origin])
      requires CascadeAt(before, origin, done, Model()) && (mid == origin || mid in done)
      requires before.tasks[origin].state == TaskState.DONE ==> mid == origin
      modifies this`tasks, this`readyHeap, this`rseq
      ensures before.tasks[origin].state == TaskState.DONE ==>
        pushed == [] && Model() == ReleaseAll(old(Model()), origin, WatchersOf(watchers, origin))
      ensures before.tasks[origin].state != TaskState.DONE ==>
        && CascadeAt(before, origin, more, Model()) && done <= more
        && (forall k :: k in pushed <==> k in more - done)
        && (forall k :: k in before.tasks && k != origin && mid in before.tasks[k].deps ==> k in more)
    {
      pushed, more := [], done;
      ghost var start := Model();
      var list := WatchersOf(watchers, mid);
      WakingStarts(before, origin, mid, done, start, list);
      for i := 0 to |list|
        invariant Waking(before, origin, mid, done, start, list[..i], more, pushed, Model())
      {
        assert list[..i + 1] == list[..i] + [list[i]];
        WakingNext(before, origin, mid, done, start, list[..i], more, pushed, Model(), list[i]);
        var swept := WakeChild(mid, list[i]);
        if swept {
          pushed := pushed + [list[i]];
          more := more + {list[i]};
        }
      }
      assert list[..|list|] == list;
      forall k | k in before.tasks && mid in before.tasks[k].deps ensures k in list {
        assert TaskOkBut(before, k, origin);
      }
    }

    /** Propagates a task's arrival in a gone state, with an explicit stack of tasks still to be announced. */
    method WakeupDependents(origin: Id)
      requires InvBut(Model(), origin) && origin in tasks && Gone(tasks[origin])
      modifies this`tasks, this`readyHeap, this`rseq
      ensures Valid() && Model() == Woken(old(Model()), origin)
    {
      ghost var before, done: set<Id> := Model(), {};
      WokenKeepsInv(before, origin);
      CascadeStart(before, origin);
      var stack := [origin];
      while |stack| > 0
        invariant before.tasks[origin].state == TaskState.DONE ==>
          if |stack| > 0 then stack == [origin] && Model() == before && done == {} else Model() == Woken(before, origin)
        invariant before.tasks[origin].state != TaskState.DONE ==>
          CascadeAt(before, origin, done, Model()) && Cascading(before.tasks, origin, done, stack)
        decreases Downstream(before.tasks, origin) - done, |stack|
      {
        var mid := stack[|stack| - 1];
        ghost var was, rest := done, stack[..|stack| - 1];
        assert mid in stack && stack == rest + [mid];
        stack := stack[..|stack| - 1];
        assert mid in tasks && Gone(tasks[mid]);
        if mid in tasks && Gone(tasks[mid]) {
          var pushed;
          pushed, done := WakeAll(mid, origin, before, done);
          stack := stack + pushed;
          if before.tasks[origin].state != TaskState.DONE {
            CascadeNext(before.tasks, origin, was, rest, mid, done, pushed);
          }
        }
      }
      if before.tasks[origin].state != TaskState.DONE {
        assert stack == [] && TaskOkBut(before, origin, origin);
        CascadeComplete(before.tasks, origin, done);
      }
    }

    /** Puts a task into a gone state and announces it. */
    method Leave(id: Id, st: TaskState)
      requires Valid() && id in tasks && (st == TaskState.DONE || Severity(st) > 0)
      modifies this`tasks, this`readyHeap, this`rseq
      ensures Valid() && Model() == Left(old(Model()), id, st)
    {
      LeaveLoosens(Model(), id, st);
      tasks := tasks[id := Swept(tasks[id], st)];
      WakeupDependents(id);
    }

    // ---------- Lifecycle ----------

    /** Takes the next task: the earliest due, then the most urgent, then the first queued. */
    method NextTask(now: int) returns (r: Option<Id>)
      requires EntriesOk(readyHeap, rseq)
      modifies this`readyHeap, this`tasks
      ensures NextStep(old(Model()), now, r, Model()) && Step(old(Model()), Next(now), Model())
      ensures old(Valid()) ==> Valid() && IsNext(old(tasks), now, r)
      ensures old(Valid()) && r.Some? ==>
        && r.value in old(tasks) && tasks == old(tasks)[r.value := old(tasks)[r.value].(state := RUNNING, mark := 0)]
        && forall k :: k in old(tasks) && Queued(old(tasks)[k]) && k != r.value ==>
          var t, u := old(tasks)[r.value], old(tasks)[k];
          || t.due < u.due
          || (t.due == u.due && t.priority > u.priority)
          || (t.due == u.due && t.priority == u.priority && t.mark < u.mark)
    {
      ghost var s := Model();
      PruneTop();
      ghost var pruned := readyHeap;
      if readyHeap == {} {
        r := None;
      } else {
        var top := HeapTop();
        assert ValidEntry(tasks, top);
        TopIsFirst(s, pruned, top);
        if top.due <= now {
          readyHeap := readyHeap - {top};
          tasks := tasks[top.tid := tasks[top.tid].(mark := 0, state := RUNNING)];
          r := Some(top.tid);
          assert Takes(s, now, pruned, top, Model());
        } else {
          r := None;
        }
      }
      assert Pruned(s, pruned);
      assert NextStep(s, now, r, Model());
      if Inv(s) {
        NextKeepsInv(s, now, r, Model());
        NextIsLeast(s, now, r, Model());
        NextIsFirst(s.tasks, now, r);
        NextWrites(s, now, r, Model());
      }
    }

    /** A finished task marked deprecated is changed, and then the call is refused all the same. */
    method DoneTask(id: Id, deprecated: bool) returns (r: Result<Id>)
      requires Valid()
      modifies this
      ensures Valid() && Step(old(Model()), Done(id, deprecated), Model())
      ensures r == if id !in old(tasks) then Err(NotFound)
                   else if old(tasks)[id].state == RUNNING then Ok(id)
                   else if old(tasks)[id].state == DEPRECATED then Err(BadValue)
                   else if old(tasks)[id].state == TaskState.DONE && !deprecated then Err(BadValue)
                   else Err(NotRunning)
      ensures r.Ok? ==>
        && id in tasks && tasks.Keys == old(tasks).Keys
        && tasks[id] ==
             old(tasks)[id].(state := if deprecated then DEPRECATED else TaskState.DONE, deps := {}, mark := 0)
      ensures r.Ok? && !deprecated ==> forall k :: k in tasks && k != id ==>
        var t, t' := old(tasks)[k], tasks[k];
        if id !in t.deps then t' == t
        else
          && t'.deps == t.deps - {id} && t'.priority == t.priority && t'.due == t.due
          && if t.deps == {id} then t'.state == PENDING && Queued(t') else t'.state == WAITING && !Queued(t')
      ensures r.Ok? && deprecated ==> forall k :: k in tasks && k != id ==>
        tasks[k] == if k in Downstream(old(tasks), id)
          then old(tasks)[k].(state := DEPRECATED, deps := {}, mark := 0) else old(tasks)[k]
    {
      if id !in tasks {
        return Err(NotFound);
      }
      if tasks[id].state == DEPRECATED {
        return Err(BadValue);
      }
      if tasks[id].state == TaskState.DONE {
        if deprecated {
          assert TaskOk(Model(), id);
          Leave(id, DEPRECATED);
        } else {
          return Err(BadValue);
        }
      }
      if tasks[id].state != RUNNING {
        return Err(NotRunning);
      }
      assert TaskOk(Model(), id);
      Leave(id, if deprecated then DEPRECATED else TaskState.DONE);
      if deprecated {
        SweepWrites(old(Model()), id, DEPRECATED, Model());
      } else {
        DoneReleases(old(Model()), id, Model());
      }
      return Ok(id);
    }

    method FailTask(id: Id) returns (r: Result<Id>)
      requires Valid()
      modifies this
      ensures Valid() && Step(old(Model()), Fail(id), Model())
      ensures r == if id !in old(tasks) then Err(NotFound)
                   else if old(tasks)[id].state == RUNNING then Ok(id)
                   else if old(tasks)[id].state == FAILED || old(tasks)[id].state == DEPRECATED then Err(BadValue)
                   else Err(NotRunning)
    {
      if id !in tasks {
        return Err(NotFound);
      }
      if tasks[id].state == FAILED || tasks[id].state == DEPRECATED {
        return Err(BadValue);
      }
      if tasks[id].state != RUNNING {
        return Err(NotRunning);
      }
      Leave(id, FAILED);
      return Ok(id);
    }

    method CancelTask(id: Id) returns (r: Result<Id>)
      requires Valid()
      modifies this
      ensures Valid() && Step(old(Model()), Cancel(id), Model())
      ensures r == if id in old(tasks) then Ok(id) else Err(NotFound)
    {
      if id !in tasks {
        return Err(NotFound);
      }
      Leave(id, CANCELLED);
      return Ok(id);
    }

    /** The priority and due part of update_task; a CANCELLED task is let through. */
    method UpdateTask(id: Id, priority: Option<int>, due: Option<int>) returns (r: Result<Id>)
      requires Valid()
      modifies this
      ensures Valid() && Step(old(Model()), Change(id, priority, due), Model())
      ensures r == match UpdateError(old(Model()), id, priority) case Some(e) => Err(e) case None => Ok(id)
    {
      if id !in tasks {
        return Err(NotFound);
      }
      if tasks[id].state == TaskState.DONE || tasks[id].state == FAILED || tasks[id].state == DEPRECATED {
        return Err(NotUpdatable);
      }
      if !PriorityOk(priority) {
        return Err(BadValue);
      }
      UpdateKeepsInv(Model(), id, priority, due);
      var task := tasks[id].(priority := GetOr(priority, tasks[id].priority), due := GetOr(due, tasks[id].due));
      if (priority.Some? || due.Some?) && task.deps == {} {
        tasks := tasks[id := task.(state := if task.state == RUNNING then PENDING else task.state)];
        Enqueue(id);
      } else {
        tasks := tasks[id := task];
      }
      return Ok(id);
    }
  }

  /** No valid entry was pruned, so the valid top is the least of them all. */
  lemma TopIsFirst(s: State, heap: set<Entry>, top: Entry)
    requires Pruned(s, heap) && IsTop(heap, top) && ValidEntry(s.tasks, top)
    ensures FirstValid(s, top)
    ensures forall e :: e in s.heap && ValidEntry(s.tasks, e) ==> e.due >= top.due
  {
  }

  lemma CascadeStart(s: State, origin: Id)
    requires origin in s.tasks
    ensures SweepAll(s.tasks, {}, s.tasks[origin].state) == s.tasks
    ensures Cascading(s.tasks, origin, {}, [origin])
  {
  }

  lemma CascadeNext(tasks: Tasks, origin: Id, was: set<Id>, rest: seq<Id>, mid: Id, done: set<Id>, pushed: seq<Id>)
    requires Cascading(tasks, origin, was, rest + [mid])
    requires was <= done <= Downstream(tasks, origin) && forall k :: k in pushed <==> k in done - was
    requires forall k :: k in tasks && k != origin && mid in tasks[k].deps ==> k in done
    ensures Cascading(tasks, origin, done, rest + pushed)
    ensures pushed == [] || Downstream(tasks, origin) - done < Downstream(tasks, origin) - was
  {
    forall v ensures v in rest + pushed <==> v in rest || v in pushed {}
    forall v ensures v in rest + [mid] <==> v in rest || v == mid {}
    if pushed != [] {
      assert pushed[0] in pushed;
      RoomShrinks(Downstream(tasks, origin), was, done);
    }
  }

  /** Midway through a cascade of a spreading state: exactly the tasks in done have been swept. */
  ghost predicate CascadeAt(before: State, origin: Id, done: set<Id>, s: State)
  {
    && origin in before.tasks
    && done <= Downstream(before.tasks, origin)
    && s == before.(tasks := SweepAll(before.tasks, done, before.tasks[origin].state))
    && (before.tasks[origin].state == TaskState.DONE ==> done == {})
  }

  /**
   * Midway through the dependents of mid, those in read having been visited: released, or swept
   * into more and pushed.
   */
  ghost predicate Waking(before: State, origin: Id, mid: Id, done: set<Id>, start: State, read: seq<Id>,
                         more: set<Id>, pushed: seq<Id>, s: State)
  {
    && origin in before.tasks && mid in s.tasks && Gone(s.tasks[mid]) && s.watchers == start.watchers
    && if before.tasks[origin].state == TaskState.DONE then
         && mid == origin && pushed == [] && more == done
         && s == ReleaseAll(start, origin, read) && InvBut(s, origin) && s.tasks[origin] == before.tasks[origin]
       else
         && CascadeAt(before, origin, more, s) && done <= more && (forall k :: k in pushed <==> k in more - done)
         && forall k :: k in before.tasks && k != origin && mid in before.tasks[k].deps && k in read ==> k in more
  }

  lemma WakingStarts(before: State, origin: Id, mid: Id, done: set<Id>, start: State, list: seq<Id>)
    requires InvBut(before, origin) && origin in before.tasks && Gone(before.tasks[origin])
    requires CascadeAt(before, origin, done, start) && (mid == origin || mid in done)
    requires before.tasks[origin].state == TaskState.DONE ==> mid == origin
    ensures Waking(before, origin, mid, done, start, list[..0], done, [], start)
  {
    if done == {} { assert SweepAll(before.tasks, done, before.tasks[origin].state) == before.tasks; }
  }

  /** One more dependent. */
  lemma WakingNext(before: State, origin: Id, mid: Id, done: set<Id>, start: State, read: seq<Id>,
                   more: set<Id>, pushed: seq<Id>, s: State, cid: Id)
    requires Waking(before, origin, mid, done, start, read, more, pushed, s)
    requires InvBut(before, origin) && Gone(before.tasks[origin]) && (mid == origin || mid in done)
    ensures if SweepsAlong(s.tasks, mid, cid).Some?
      then Waking(before, origin, mid, done, start, read + [cid], more + {cid}, pushed + [cid], AfterWake(s, mid, cid))
      else Waking(before, origin, mid, done, start, read + [cid], more, pushed, AfterWake(s, mid, cid))
  {
    if before.tasks[origin].state == TaskState.DONE {
      ReleaseNotSweep(s, origin, cid);
      assert (read + [cid])[..|read|] == read;
    } else {
      SweepOne(before, origin, more, s, mid, cid);
    }
  }

  lemma ReleaseNotSweep(s: State, origin: Id, cid: Id)
    requires InvBut(s, origin) && origin in s.tasks && s.tasks[origin].state == TaskState.DONE
    ensures SweepsAlong(s.tasks, origin, cid) == None
    ensures s.tasks[origin].deps == {} && InvBut(Released(s, origin, cid), origin)
    ensures Released(s, origin, cid).tasks.Keys == s.tasks.Keys &&
      Released(s, origin, cid).tasks[origin] == s.tasks[origin]
  {
    assert TaskOkBut(s, cid, origin) && TaskOkBut(s, origin, origin);
    ReleasedKeeps(s, origin, cid);
  }

  lemma SweepOne(before: State, origin: Id, done: set<Id>, s: State, mid: Id, cid: Id)
    requires InvBut(before, origin) && CascadeAt(before, origin, done, s) && (mid == origin || mid in done)
    requires Severity(before.tasks[origin].state) > 0
    ensures mid in s.tasks
    ensures var st := before.tasks[origin].state;
      if cid in before.tasks && cid !in done && mid in before.tasks[cid].deps
      then
        && SweepsAlong(s.tasks, mid, cid) == Some(st)
        && CascadeAt(before, origin, done + {cid}, WithTask(s, cid, Swept(s.tasks[cid], st)))
      else SweepsAlong(s.tasks, mid, cid) == None && Released(s, mid, cid) == s
  {
    var st := before.tasks[origin].state;
    assert TaskOkBut(before, cid, origin) && TaskOkBut(before, origin, origin);
    if cid in before.tasks && cid !in done && mid in before.tasks[cid].deps {
      DownstreamSpreads(before.tasks, origin, cid, mid);
      assert SweepAll(before.tasks, done + {cid}, st) == s.tasks[cid := Swept(s.tasks[cid], st)];
    }
  }

  /** A child's other broken dependencies combined with the state its dependency has just reached. */
  function Merge(bad: Option<TaskState>, marker: TaskState): Option<TaskState> {
    if marker == TaskState.DONE then bad
    else if bad.None? then Some(marker)
    else if Severity(bad.value) >= Severity(marker) then bad
    else Some(marker)
  }

  ghost function SweepsAlong(tasks: Tasks, mid: Id, cid: Id): Option<TaskState>
    requires mid in tasks
  {
    if cid in tasks && !Gone(tasks[cid]) && mid in tasks[cid].deps
    then Merge(Worst(tasks, tasks[cid].deps - {mid}), tasks[mid].state)
    else None
  }

  ghost function AfterWake(s: State, mid: Id, cid: Id): State
    requires mid in s.tasks
  {
    var st := SweepsAlong(s.tasks, mid, cid);
    if st.Some? then WithTask(s, cid, Swept(s.tasks[cid], st.value)) else Released(s, mid, cid)
  }
}

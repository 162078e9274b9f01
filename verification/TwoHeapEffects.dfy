/** What the operations of the two-heap scheduler do and answer, read off the records field by field. */
module TwoHeapEffects {
  import opened Graphs
  import opened TwoHeapModel

  // ---------- Selection ----------

  /** What a search answers, on the fields: higher priority first, then earlier, then added earlier. */
  lemma SearchFinds(tasks: Tasks, clock: int, r: Option<Id>)
    ensures FindsBest(tasks, clock, r) <==>
      var free := set k | k in tasks && tasks[k].status == READY && tasks[k].executeTime <= clock &&
        forall d :: d in tasks[k].dependencies ==> d in tasks && tasks[d].status == COMPLETED;
      match r
      case None => free == {}
      case Some(id) => id in free && forall k :: k in free && k != id ==>
        || tasks[id].priority > tasks[k].priority
        || (tasks[id].priority == tasks[k].priority && tasks[id].executeTime < tasks[k].executeTime)
        || (tasks[id].priority == tasks[k].priority && tasks[id].executeTime == tasks[k].executeTime
            && tasks[id].sequence < tasks[k].sequence)
  {
    var free := set k | k in tasks && tasks[k].status == READY && tasks[k].executeTime <= clock &&
      forall d :: d in tasks[k].dependencies ==> d in tasks && tasks[d].status == COMPLETED;
    forall k ensures k in free <==> Executable(tasks, clock, k) {}
  }

  /**
   * What a search and a claim write.  The clock goes forward to now; due READY tasks with a
   * dependency missing or unfinished that come before the answer are PENDING with a fresh count;
   * the task claimed is RUNNING; nothing else changes.
   */
  lemma ClaimWrites(s: State, now: Option<int>, r: Option<Id>)
    requires FindsBest(s.tasks, Advanced(s.clock, now), r)
    ensures var clock := if now.Some? && now.value > s.clock then now.value else s.clock;
      var peeked, claimed := AfterSearch(s, now, r), AfterClaim(s, now, r);
      && peeked == State(peeked.tasks, clock, s.sequence, s.maxTasks)
      && claimed == State(claimed.tasks, clock, s.sequence, s.maxTasks)
      && peeked.tasks.Keys == claimed.tasks.Keys == s.tasks.Keys
      && forall k :: k in s.tasks ==>
        var t := s.tasks[k];
        var unmet := set d | d in t.dependencies && !(d in s.tasks && s.tasks[d].status == COMPLETED);
        && peeked.tasks[k] == (
          if t.status == READY && t.executeTime <= clock && unmet != {} && (r.Some? ==>
            var best := s.tasks[r.value];
            || t.priority > best.priority
            || (t.priority == best.priority && t.executeTime < best.executeTime)
            || (t.priority == best.priority && t.executeTime == best.executeTime && t.sequence < best.sequence))
          then t.(status := PENDING, unmet := |unmet|) else t)
        && claimed.tasks[k] == if r == Some(k) then t.(status := RUNNING) else peeked.tasks[k]
  {
    forall k | k in s.tasks
      ensures var t := s.tasks[k];
        var unmet := set d | d in t.dependencies && !(d in s.tasks && s.tasks[d].status == COMPLETED);
        Recount(s.tasks, t.dependencies) == |unmet| && (Satisfied(s.tasks, t) <==> unmet == {})
    {
      var unmet := set d |
        d in s.tasks[k].dependencies && !(d in s.tasks && s.tasks[d].status == COMPLETED);
      assert unmet == UnmetOf(s.tasks, s.tasks[k].dependencies);
      assert forall d :: d in unmet <==> d in s.tasks[k].dependencies && !Done(s.tasks, d);
    }
  }

  /** The clock if a READY task is due, else the least executeTime of a READY task, else nothing. */
  lemma WakeMeans(s: State, wake: Option<int>)
    requires IsWakeTime(s, wake)
    ensures var times := set k | k in s.tasks && s.tasks[k].status == READY :: s.tasks[k].executeTime;
      && (wake.None? <==> times == {})
      && (wake.Some? && (exists t :: t in times && t <= s.clock) ==> wake.value == s.clock)
      && (wake.Some? && (forall t :: t in times ==> t > s.clock) ==>
            wake.value in times && forall t :: t in times ==> wake.value <= t)
  {
    var times := set k | k in s.tasks && s.tasks[k].status == READY :: s.tasks[k].executeTime;
    forall k | ReadyTask(s, k) ensures s.tasks[k].executeTime in times {}
    forall t | t in times ensures exists k :: ReadyTask(s, k) && s.tasks[k].executeTime == t {}
  }

  /** The future heap is ordered by time, then priority, then age. */
  lemma FutureOrder(j: Id, k: Id, t: Task, u: Task)
    ensures FutureBefore(EntryOf(j, t), EntryOf(k, u)) <==>
      && t.executeTime <= u.executeTime
      && (t.executeTime == u.executeTime ==>
            t.priority >= u.priority && (t.priority == u.priority ==> t.sequence < u.sequence))
  {
  }

  // ---------- Dependency lists ----------

  /** The code points that trim removes: those of white space and line ends. */
  lemma SpaceCodes(c: char)
    ensures IsSpace(c) <==>
      var n := c as int;
      || 9 <= n <= 13 || 8192 <= n <= 8202
      || n in {32, 160, 5760, 8232, 8233, 8239, 8287, 12288, 65279}
  {
  }

  /** The first bad entry decides the error. */
  lemma FirstBadDep(tasks: Tasks, id: Id, raw: seq<Id>, i: nat)
    requires i < |raw|
    requires forall j :: 0 <= j < i ==>
      raw[j] in tasks && raw[j] != id && exists c :: 0 <= c < |raw[j]| && !IsSpace(raw[j][c])
    requires raw[i] in tasks && raw[i] != id ==> forall c :: 0 <= c < |raw[i]| ==> IsSpace(raw[i][c])
    ensures DepError(tasks, id, raw) == Some(
      if raw[i] == id && exists c :: 0 <= c < |id| && !IsSpace(id[c]) then CycleFound([id, id]) else InvalidTask)
  {
    forall j | 0 <= j < i ensures GoodDep(tasks, id, raw[..i][j]) {}
    assert raw[..i + 1][..i] == raw[..i];
    LaterErrors(tasks, id, raw, i + 1);
  }

  /** Of two entries kept, the one listed first comes first. */
  lemma {:induction false} DedupInOrder(raw: seq<Id>, i: nat, j: nat)
    requires i < j < |Dedup(raw)|
    ensures exists m :: 0 <= m < |raw| && raw[m] == Dedup(raw)[i] && Dedup(raw)[j] !in raw[..m + 1]
    decreases |raw|
  {
    var n := |raw| - 1;
    var out := Dedup(raw[..n]);
    if j < |out| {
      DedupInOrder(raw[..n], i, j);
      var m :| 0 <= m < n && raw[..n][m] == out[i] && out[j] !in raw[..n][..m + 1];
      assert raw[..n][..m + 1] == raw[..m + 1];
    } else {
      assert out[i] in ToSet(out) && out[i] in ToSet(raw[..n]);
      var m :| 0 <= m < n && raw[m] == out[i];
      assert forall d :: d in raw[..m + 1] ==> d in raw[..n];
      assert raw[n] !in ToSet(raw[..n]);
    }
  }

  lemma WalkOnRecords(tasks: Tasks, p: seq<Id>)
    requires |p| > 0
    ensures Walk(Forward(tasks), p) <==>
      forall i :: 0 <= i < |p| - 1 ==> p[i] in tasks && p[i + 1] in tasks[p[i]].dependencies
  {
    var g := Forward(tasks);
    if Walk(g, p) {
      forall i | 0 <= i < |p| - 1 ensures p[i] in tasks && p[i + 1] in tasks[p[i]].dependencies {
        assert p[i + 1] in Succ(g, p[i]);
      }
    }
    if forall i :: 0 <= i < |p| - 1 ==> p[i] in tasks && p[i + 1] in tasks[p[i]].dependencies {
      forall i | 0 <= i < |p| - 1 ensures p[i + 1] in Succ(g, p[i]) {
        assert p[i] in tasks && p[i + 1] in tasks[p[i]].dependencies;
      }
    }
  }

  lemma ReachesOnRecords(tasks: Tasks, a: Id, b: Id)
    ensures Reaches(Forward(tasks), a, b) <==>
      exists p: seq<Id> :: |p| > 0 && p[0] == a && p[|p| - 1] == b &&
        forall i :: 0 <= i < |p| - 1 ==> p[i] in tasks && p[i + 1] in tasks[p[i]].dependencies
  {
    forall p: seq<Id> | |p| > 0
      ensures Walk(Forward(tasks), p) <==>
        forall i :: 0 <= i < |p| - 1 ==> p[i] in tasks && p[i + 1] in tasks[p[i]].dependencies
    {
      WalkOnRecords(tasks, p);
    }
    if p: seq<Id> :| |p| > 0 && p[0] == a && p[|p| - 1] == b && Walk(Forward(tasks), p) {
      assert WalkFromTo(Forward(tasks), p, a, b);
    }
  }

  /** The audit finds a cycle just when tasks depend on each other in a circle. */
  lemma CyclicOnRecords(tasks: Tasks)
    ensures !Acyclic(Forward(tasks)) <==>
      exists p: seq<Id> :: |p| > 1 && p[0] == p[|p| - 1] &&
        forall i :: 0 <= i < |p| - 1 ==> p[i] in tasks && p[i + 1] in tasks[p[i]].dependencies
  {
    forall p: seq<Id> | |p| > 0
      ensures Walk(Forward(tasks), p) <==>
        forall i :: 0 <= i < |p| - 1 ==> p[i] in tasks && p[i + 1] in tasks[p[i]].dependencies
    {
      WalkOnRecords(tasks, p);
    }
    if p: seq<Id> :| |p| > 1 && p[0] == p[|p| - 1] && Walk(Forward(tasks), p) {
      assert ClosedWalk(Forward(tasks), p);
    }
  }

  // ---------- Adding ----------

  /** When an add is accepted, and in which order the reasons to refuse it count. */
  lemma AddAnswer(s: State, input: AddInput)
    ensures var id, e := input.id, AddError(s, input);
      var named := exists c :: 0 <= c < |id| && !IsSpace(id[c]);
      var sound := input.dependencies.Some? ==> forall d :: d in input.dependencies.value ==>
        d in s.tasks && d != id && exists c :: 0 <= c < |d| && !IsSpace(d[c]);
      var room := s.maxTasks == 0 || |s.tasks| < s.maxTasks;
      && (e == None <==> named && sound && room && id !in s.tasks)
      && (!named ==> e == Some(InvalidTask))
      && (named && !sound ==> e == DepError(s.tasks, id, input.dependencies.value))
      && (named && sound && !room ==> e == Some(CapacityExceeded))
      && (named && sound && room && id in s.tasks ==> e == Some(DuplicateTask))
  {
    var raw := if input.dependencies.Some? then input.dependencies.value else [];
    assert GoodDeps(s.tasks, input.id, raw) <==> forall d :: d in raw ==> GoodDep(s.tasks, input.id, d);
    forall d ensures !Blank(d) <==> exists c :: 0 <= c < |d| && !IsSpace(d[c]) {}
  }

  /**
   * An accepted add records the task, READY just when everything it lists is COMPLETED, and sends
   * the waiting tasks that list the new id back to PENDING; a refused one does nothing.
   */
  lemma AddWrites(s: State, input: AddInput, s': State)
    requires Step(s, Add(input), s')
    ensures AddError(s, input).Some? ==> s' == s
    ensures AddError(s, input).None? ==>
      var id, raw := input.id, if input.dependencies.Some? then input.dependencies.value else [];
      && id !in s.tasks && s'.tasks.Keys == s.tasks.Keys + {id}
      && s' == State(s'.tasks, s.clock, s.sequence + 1, s.maxTasks)
      && (var t, unmet := s'.tasks[id], set d | d in raw && s.tasks[d].status != COMPLETED;
          && t.priority == (if input.priority.Some? then input.priority.value else 0)
          && t.executeTime == (if input.executeTime.Some? then input.executeTime.value else s.clock)
          && t.dependencies == Dedup(raw) && t.unmet == |unmet| && t.version == 0 && t.sequence == s.sequence
          && t.status == if unmet == {} then READY else PENDING)
      && forall k :: k in s.tasks ==>
        var t := s.tasks[k];
        var unmet := set d | d in t.dependencies && (d in s.tasks ==> s.tasks[d].status != COMPLETED);
        s'.tasks[k] == if id in t.dependencies && (t.status == PENDING || t.status == READY)
          then t.(status := PENDING, unmet := |unmet|) else t
  {
    if AddError(s, input).None? {
      var id, raw := input.id, GetOr(input.dependencies, []);
      forall d | d in raw ensures d in s.tasks && d != id {
        var i :| 0 <= i < |raw| && raw[i] == d;
        assert GoodDep(s.tasks, id, raw[i]);
      }
      AddedTask(s, id, input, raw);
      var tasks := s.tasks[id := NewTask(s, input, Dedup(raw))];
      forall k | k in s.tasks && id in s.tasks[k].dependencies
        ensures Recount(tasks, s.tasks[k].dependencies) ==
          |set d | d in s.tasks[k].dependencies && (d in s.tasks ==> s.tasks[d].status != COMPLETED)|
      {
        assert UnmetOf(tasks, s.tasks[k].dependencies) ==
          set d | d in s.tasks[k].dependencies && (d in s.tasks ==> s.tasks[d].status != COMPLETED);
      }
    }
  }

  lemma AddedTask(s: State, id: Id, input: AddInput, raw: seq<Id>)
    requires forall d :: d in raw ==> d in s.tasks && d != id
    ensures id !in Dedup(raw)
    ensures var t, unmet := NewTask(s, input, Dedup(raw)), set d | d in raw && s.tasks[d].status != COMPLETED;
      t.unmet == |unmet| && t.status == if unmet == {} then READY else PENDING
  {
    forall d ensures d in Dedup(raw) <==> d in raw { assert d in ToSet(Dedup(raw)) <==> d in ToSet(raw); }
    var unmet := set d | d in raw && s.tasks[d].status != COMPLETED;
    assert UnmetOf(s.tasks, Dedup(raw)) == unmet;
  }

  // ---------- Updating ----------

  /** When an update is refused before its edges are searched, and for which reason. */
  lemma UpdateAnswer(s: State, id: Id, u: UpdateInput, v: Option<nat>)
    ensures var e := UpdateError(s, id, u, v);
      if id !in s.tasks then e == Some(TaskNotFound)
      else
        var t := s.tasks[id];
        var current := v == None || v == Some(t.version);
        var waiting := t.status != RUNNING && t.status != COMPLETED && t.status != FAILED && t.status != CANCELLED;
        && (!current ==> e == Some(StaleVersion))
        && (current && !waiting ==> e == Some(InvalidTask))
        && (current && waiting ==>
              e == if u.dependencies.Some? then DepError(s.tasks, id, u.dependencies.value) else None)
  {
  }

  /** The edges are refused just when a dependency that is not among the old ones leads back to the task. */
  lemma ClosesCycleMeans(tasks: Tasks, id: Id, u: UpdateInput)
    requires id in tasks
    ensures ClosesCycle(tasks, id, NewDeps(u)) <==>
      u.dependencies.Some? && exists d, p: seq<Id> ::
        && d in u.dependencies.value && d !in tasks[id].dependencies
        && |p| > 0 && p[0] == d && p[|p| - 1] == id
        && forall i :: 0 <= i < |p| - 1 ==> p[i] in tasks && p[i + 1] in tasks[p[i]].dependencies
  {
    if u.dependencies.Some? {
      var raw := u.dependencies.value;
      forall d ensures d in Dedup(raw) <==> d in raw { assert d in ToSet(Dedup(raw)) <==> d in ToSet(raw); }
      forall d ensures Reaches(Forward(tasks), d, id) <==>
        exists p: seq<Id> :: |p| > 0 && p[0] == d && p[|p| - 1] == id &&
          forall i :: 0 <= i < |p| - 1 ==> p[i] in tasks && p[i + 1] in tasks[p[i]].dependencies
      {
        ReachesOnRecords(tasks, d, id);
      }
    }
  }

  /** An accepted update writes what it was given and nothing else; a refused one writes nothing. */
  lemma UpdateWrites(s: State, id: Id, u: UpdateInput, v: Option<nat>, s': State)
    requires Step(s, Update(id, u, v), s')
    ensures UpdateError(s, id, u, v).Some? || ClosesCycle(s.tasks, id, NewDeps(u)) ==> s' == s
    ensures UpdateError(s, id, u, v).None? && !ClosesCycle(s.tasks, id, NewDeps(u)) ==>
      && id in s.tasks && id in s'.tasks && s' == s.(tasks := s'.tasks) && s'.tasks - {id} == s.tasks - {id}
      && var t, t' := s.tasks[id], s'.tasks[id];
        && t'.priority == (if u.priority.Some? then u.priority.value else t.priority)
        && t'.executeTime == (if u.executeTime.Some? then u.executeTime.value else t.executeTime)
        && t'.version == t.version + 1 && t'.sequence == t.sequence
        && match u.dependencies
           case None => t'.dependencies == t.dependencies && t'.unmet == t.unmet && t'.status == t.status
           case Some(raw) =>
             var unmet := set d | d in raw && (d in s.tasks ==> s.tasks[d].status != COMPLETED);
             && t'.dependencies == Dedup(raw) && t'.unmet == |unmet|
             && t'.status == if unmet == {} then READY else PENDING
  {
    if u.dependencies.Some? {
      var raw := u.dependencies.value;
      forall d ensures d in Dedup(raw) <==> d in raw { assert d in ToSet(Dedup(raw)) <==> d in ToSet(raw); }
      assert UnmetOf(s.tasks, Dedup(raw)) ==
        set d | d in raw && (d in s.tasks ==> s.tasks[d].status != COMPLETED);
    }
  }

  /** The same, with the dependencies and the new status told by what the task now lists. */
  lemma UpdatedFields(tasks: Tasks, id: Id, u: UpdateInput, after: Tasks)
    requires id in tasks && after == tasks[id := UpdatedTask(tasks, tasks[id], u, NewDeps(u))]
    ensures after - {id} == tasks - {id}
    ensures var t, t' := tasks[id], after[id];
      && t'.priority == (if u.priority.Some? then u.priority.value else t.priority)
      && t'.executeTime == (if u.executeTime.Some? then u.executeTime.value else t.executeTime)
      && t'.version == t.version + 1 && t'.sequence == t.sequence
      && (u.dependencies.None? ==>
            t'.dependencies == t.dependencies && t'.unmet == t.unmet && t'.status == t.status)
      && (u.dependencies.Some? ==>
            && ToSet(t'.dependencies) == ToSet(u.dependencies.value) && NoDup(t'.dependencies)
            && t'.status == if Satisfied(tasks, t') then READY else PENDING)
  {
    var t' := after[id];
    assert Satisfied(tasks, t') <==> UnmetOf(tasks, t'.dependencies) == {} by {
      assert forall d :: d in UnmetOf(tasks, t'.dependencies) <==> d in t'.dependencies && !Done(tasks, d);
    }
  }

  // ---------- The other operations ----------

  lemma DeleteWrites(s: State, id: Id, s': State)
    requires Step(s, Delete(id), s')
    ensures s'.tasks.Keys == s.tasks.Keys - {id} && forall k :: k in s'.tasks ==> s'.tasks[k] == s.tasks[k]
    ensures s' == State(s'.tasks, s.clock, s.sequence, s.maxTasks)
  {
  }

  /** A completion counts off one dependency of each PENDING task that lists it; at zero the task is READY. */
  lemma CompleteWrites(s: State, id: Id, s': State)
    requires Step(s, Complete(id), s')
    ensures s' == State(s'.tasks, s.clock, s.sequence, s.maxTasks) && s'.tasks.Keys == s.tasks.Keys
    ensures forall k :: k in s.tasks ==>
      var t, completes := s.tasks[k], id in s.tasks && s.tasks[id].status in {PENDING, READY, RUNNING};
      s'.tasks[k] ==
        if completes && k == id then t.(status := COMPLETED)
        else if completes && id in t.dependencies && t.status == PENDING then
          if t.unmet <= 1 then t.(unmet := 0, status := READY) else t.(unmet := t.unmet - 1)
        else t
    ensures CompleteResult(s, id) ==
      if id !in s.tasks then Err(TaskNotFound)
      else if s.tasks[id].status == FAILED || s.tasks[id].status == CANCELLED then Err(InvalidTask)
      else Ok(s.tasks[id].(status := COMPLETED))
  {
  }

  /** Failing a task touches nobody else. */
  lemma FailWrites(s: State, id: Id, s': State)
    requires Step(s, Fail(id), s')
    ensures s' == if id in s.tasks && s.tasks[id].status != COMPLETED && s.tasks[id].status != CANCELLED
      then s.(tasks := s.tasks[id := s.tasks[id].(status := FAILED)]) else s
    ensures FailResult(s, id) ==
      if id !in s.tasks then Err(TaskNotFound)
      else if s.tasks[id].status == COMPLETED || s.tasks[id].status == CANCELLED then Err(InvalidTask)
      else Ok(s.tasks[id].(status := FAILED))
  {
    if id in s.tasks && s.tasks[id].status == FAILED { assert s.tasks[id := s.tasks[id]] == s.tasks; }
  }

  lemma CancelWrites(s: State, id: Id, s': State)
    requires Step(s, Cancel(id), s')
    ensures var ended := {COMPLETED, FAILED, CANCELLED};
      && s' == (if id in s.tasks && s.tasks[id].status !in ended
                then s.(tasks := s.tasks[id := s.tasks[id].(status := CANCELLED)]) else s)
      && CancelResult(s, id) == (if id in s'.tasks then Ok(s'.tasks[id]) else Err(TaskNotFound))
  {
  }

  /** What the end of an executor is answered with. */
  lemma SettleAnswer(s: State, id: Id, succeeds: bool)
    ensures var r := SettleResult(s, id, succeeds);
      if id !in s.tasks then r == Err(TaskNotFound)
      else match s.tasks[id].status
        case COMPLETED => r == if succeeds then Ok(s.tasks[id]) else Err(InvalidTask)
        case FAILED => r == if succeeds then Err(InvalidTask) else Err(ExecutorFailed)
        case CANCELLED => r == Err(InvalidTask)
        case _ => r == if succeeds then Ok(s.tasks[id].(status := COMPLETED)) else Err(ExecutorFailed)
  {
  }

  lemma ClearWrites(s: State, s': State)
    requires Step(s, Op.Clear, s')
    ensures s' == State(map[], s.clock, 0, s.maxTasks)
  {
  }
}

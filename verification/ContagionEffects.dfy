/** What the operations of the single-heap scheduler do and answer, read off the records field by field. */
module ContagionEffects {
  import opened Graphs
  import opened ContagionModel

  // ---------- Selection ----------

  /** String order: a is a proper prefix of b, or smaller where they first differ. */
  lemma {:induction false} IdOrder(a: Id, b: Id)
    ensures IdLess(a, b) <==>
      || (|a| < |b| && b[..|a|] == a)
      || exists i :: 0 <= i < |a| && i < |b| && a[..i] == b[..i] && a[i] < b[i]
    decreases |a|
  {
    if |a| > 0 && |b| > 0 {
      var x, y := a[1..], b[1..];
      assert a == [a[0]] + x && b == [b[0]] + y;
      IdOrder(x, y);
      if a[0] == b[0] {
        assert |x| < |y| ==> b[..|a|] == [b[0]] + y[..|x|];
        if i :| 0 <= i < |x| && i < |y| && x[..i] == y[..i] && x[i] < y[i] {
          assert a[..i + 1] == [a[0]] + x[..i] && b[..i + 1] == [b[0]] + y[..i] && a[i + 1] < b[i + 1];
        }
        if i :| 0 < i < |a| && i < |b| && a[..i] == b[..i] && a[i] < b[i] {
          assert x[..i - 1] == a[..i][1..] && y[..i - 1] == b[..i][1..] && x[i - 1] < y[i - 1];
        }
      } else {
        forall i | 0 < i <= |a| && i <= |b| ensures a[..i] != b[..i] {
          assert a[..i][0] == a[0] && b[..i][0] == b[0];
        }
        assert a[0] < b[0] ==> a[..0] == b[..0];
      }
    }
  }

  /** What the selection answers with the heap in order, on the fields. */
  lemma ChosenIsFirst(tasks: Tasks, now: int, r: Option<Id>)
    ensures Chosen(tasks, now, r) <==>
      var free := set k | k in tasks && tasks[k].status == READY && tasks[k].executeTime <= now &&
        forall d :: d in tasks[k].dependencies ==> d in tasks && tasks[d].status == COMPLETED;
      match r
      case None => free == {}
      case Some(id) => id in free && forall k :: k in free && k != id ==>
        var t, u := tasks[id], tasks[k];
        || t.priority > u.priority
        || (t.priority == u.priority && t.executeTime < u.executeTime)
        || (t.priority == u.priority && t.executeTime == u.executeTime && t.createdAt < u.createdAt)
        || (t.priority == u.priority && t.executeTime == u.executeTime && t.createdAt == u.createdAt &&
            ((|id| < |k| && k[..|id|] == id) ||
             exists i :: 0 <= i < |id| && i < |k| && id[..i] == k[..i] && id[i] < k[i]))
  {
    var free := set k | k in tasks && tasks[k].status == READY && tasks[k].executeTime <= now &&
      forall d :: d in tasks[k].dependencies ==> d in tasks && tasks[d].status == COMPLETED;
    forall k ensures k in free <==> Executable(tasks, now, k) {}
    if r.Some? {
      forall k ensures IdLess(r.value, k) <==>
        || (|r.value| < |k| && k[..|r.value|] == r.value)
        || exists i :: 0 <= i < |r.value| && i < |k| && r.value[..i] == k[..i] && r.value[i] < k[i]
      {
        IdOrder(r.value, k);
      }
    }
  }

  /** The same, of one chosen task and every other executable one. */
  lemma ChosenOutranks(tasks: Tasks, now: int, id: Id)
    requires Chosen(tasks, now, Some(id))
    ensures forall k :: Executable(tasks, now, k) && k != id ==>
      var t, u := tasks[id], tasks[k];
      || t.priority > u.priority
      || (t.priority == u.priority && t.executeTime < u.executeTime)
      || (t.priority == u.priority && t.executeTime == u.executeTime && t.createdAt < u.createdAt)
      || (t.priority == u.priority && t.executeTime == u.executeTime && t.createdAt == u.createdAt &&
          ((|id| < |k| && k[..|id|] == id) ||
           exists i :: 0 <= i < |id| && i < |k| && id[..i] == k[..i] && id[i] < k[i]))
  {
    forall k | Executable(tasks, now, k) && k != id && IdLess(id, k)
      ensures (|id| < |k| && k[..|id|] == id) ||
        exists i :: 0 <= i < |id| && i < |k| && id[..i] == k[..i] && id[i] < k[i]
    {
      IdOrder(id, k);
    }
  }

  /** What it answers in any order. */
  lemma PicksSomeFree(tasks: Tasks, now: int, r: Option<Id>)
    ensures Picks(tasks, now, r) <==>
      var free := set k | k in tasks && tasks[k].status == READY && tasks[k].executeTime <= now &&
        forall d :: d in tasks[k].dependencies ==> d in tasks && tasks[d].status == COMPLETED;
      if r.Some? then r.value in free else free == {}
  {
    var free := set k | k in tasks && tasks[k].status == READY && tasks[k].executeTime <= now &&
      forall d :: d in tasks[k].dependencies ==> d in tasks && tasks[d].status == COMPLETED;
    forall k ensures k in free <==> Executable(tasks, now, k) {}
  }

  // ---------- Contagion ----------

  /**
   * Whom a failure reaches: a task not yet COMPLETED, FAILED or CANCELLED at the end of a chain of
   * reverse edges whose links are all recorded and not COMPLETED.
   */
  lemma VictimMeans(tasks: Tasks, dependents: Graph, origin: Id, k: Id)
    ensures Victim(tasks, dependents, origin, k) <==>
      && k in tasks && k != origin && tasks[k].status in {PENDING, READY, RUNNING}
      && (exists p: seq<Id> ::
            && |p| > 0 && p[0] == origin && p[|p| - 1] == k
            && (forall i :: 0 <= i < |p| - 1 ==>
                  && (p[i] == origin || (p[i] in tasks && tasks[p[i]].status != COMPLETED))
                  && p[i] in dependents && p[i + 1] in dependents[p[i]]))
  {
    var g := FailureGraph(tasks, dependents, origin);
    if p: seq<Id> :| WalkFromTo(g, p, origin, k) {
      forall i | 0 <= i < |p| - 1 ensures p[i] in g && p[i + 1] in dependents[p[i]] {
        assert p[i + 1] in Succ(g, p[i]);
      }
    }
    if p: seq<Id> :| (
      && |p| > 0 && p[0] == origin && p[|p| - 1] == k
      && (forall i :: 0 <= i < |p| - 1 ==>
            && (p[i] == origin || (p[i] in tasks && tasks[p[i]].status != COMPLETED))
            && p[i] in dependents && p[i + 1] in dependents[p[i]]))
    {
      forall i | 0 <= i < |p| - 1 ensures p[i + 1] in Succ(g, p[i]) {
        assert p[i] in dependents && p[i + 1] in dependents[p[i]];
      }
      assert WalkFromTo(g, p, origin, k);
    }
  }

  /** The status of the origin itself makes no difference to whom its failure reaches. */
  lemma SameVictims(tasks: Tasks, dependents: Graph, origin: Id, t: Task, k: Id)
    ensures Victim(tasks[origin := t], dependents, origin, k) <==> Victim(tasks, dependents, origin, k)
  {
    assert FailureGraph(tasks[origin := t], dependents, origin) == FailureGraph(tasks, dependents, origin);
  }

  /**
   * A reconciled task that is not over: FAILED with its victims if a dependency is FAILED or
   * CANCELLED; else a PENDING one becomes READY if all are COMPLETED, and a READY one PENDING if not.
   */
  lemma ReconcileWrites(tasks: Tasks, dependents: Graph, id: Id)
    requires id in tasks && tasks[id].status in {PENDING, READY, RUNNING}
    ensures var t, after := tasks[id], Reconciled(tasks, dependents, id);
      var broken := exists d :: d in t.dependencies && d in tasks && tasks[d].status in {FAILED, CANCELLED};
      var met := forall d :: d in t.dependencies ==> d in tasks && tasks[d].status == COMPLETED;
      && after.Keys == tasks.Keys
      && after[id] == t.(status :=
           if broken then FAILED
           else if met && t.status == PENDING then READY
           else if !met && t.status == READY then PENDING
           else t.status)
      && forall k :: k in tasks && k != id ==>
           after[k] == if broken && Victim(tasks, dependents, id, k) then tasks[k].(status := FAILED) else tasks[k]
  {
    forall k ensures
      Victim(WithStatus(tasks, id, FAILED), dependents, id, k) <==> Victim(tasks, dependents, id, k)
    {
      SameVictims(tasks, dependents, id, tasks[id].(status := FAILED), k);
    }
  }

  // ---------- Validation ----------

  lemma WalkOnRecords(tasks: Tasks, p: seq<Id>)
    requires |p| > 0
    ensures Walk(Forward(tasks), p) <==>
      forall i :: 0 <= i < |p| - 1 ==> p[i] in tasks && p[i + 1] in tasks[p[i]].dependencies
  {
    var g := Forward(tasks);
    if Walk(g, p) {
      forall i | 0 <= i < |p| - 1 ensures p[i] in tasks && p[i + 1] in tasks[p[i]].dependencies {
        assert p[i + 1] in Succ(g, p[i]);
      }
    }
    if forall i :: 0 <= i < |p| - 1 ==> p[i] in tasks && p[i + 1] in tasks[p[i]].dependencies {
      forall i | 0 <= i < |p| - 1 ensures p[i + 1] in Succ(g, p[i]) {
        assert p[i] in tasks && p[i + 1] in tasks[p[i]].dependencies;
      }
    }
  }

  /** The audit finds a cycle just when tasks depend on each other in a circle. */
  lemma CyclicOnRecords(tasks: Tasks)
    ensures !Acyclic(Forward(tasks)) <==>
      exists p: seq<Id> :: |p| > 1 && p[0] == p[|p| - 1] &&
        forall i :: 0 <= i < |p| - 1 ==> p[i] in tasks && p[i + 1] in tasks[p[i]].dependencies
  {
    forall p: seq<Id> | |p| > 0
      ensures Walk(Forward(tasks), p) <==>
        forall i :: 0 <= i < |p| - 1 ==> p[i] in tasks && p[i + 1] in tasks[p[i]].dependencies
    {
      WalkOnRecords(tasks, p);
    }
    if p: seq<Id> :| |p| > 1 && p[0] == p[|p| - 1] && Walk(Forward(tasks), p) {
      assert ClosedWalk(Forward(tasks), p);
    }
  }

  /** Which dependencies are let through. */
  lemma GoodDepMeans(tasks: Tasks, allowForwardRefs: bool, id: Id, d: Id)
    ensures GoodDep(tasks, allowForwardRefs, id, d) <==>
      && |d| > 0 && d != id && (d in tasks || allowForwardRefs)
      && !(exists p: seq<Id> ::
             && |p| > 1 && p[0] == d && p[|p| - 1] == id
             && forall i :: 0 <= i < |p| - 1 ==> p[i] in tasks && p[i + 1] in tasks[p[i]].dependencies)
  {
    forall p: seq<Id> | |p| > 0
      ensures Walk(Forward(tasks), p) <==>
        forall i :: 0 <= i < |p| - 1 ==> p[i] in tasks && p[i + 1] in tasks[p[i]].dependencies
    {
      WalkOnRecords(tasks, p);
    }
    if p: seq<Id> :| |p| > 1 && p[0] == d && p[|p| - 1] == id && Walk(Forward(tasks), p) {
      assert WalkFromTo(Forward(tasks), p, d, id);
      assert p[0] in tasks && p[0 + 1] in tasks[p[0]].dependencies;
    }
  }

  /** The first dependency that is not let through decides the error. */
  lemma BlameMeans(tasks: Tasks, allowForwardRefs: bool, id: Id, deps: seq<Id>, e: Error) returns (i: nat)
    requires FirstBlamed(tasks, allowForwardRefs, id, deps, e)
    ensures i < |deps| && !GoodDep(tasks, allowForwardRefs, id, deps[i])
    ensures forall j :: 0 <= j < i ==> GoodDep(tasks, allowForwardRefs, id, deps[j])
    ensures var d := deps[i];
      if d == "" then e == InvalidDependency(d)
      else if d == id then e == CycleFound([id, id])
      else if d !in tasks then e == InvalidDependency(d)
      else match e
        case CycleFound(p) =>
          && |p| > 1 && p[0] == p[|p| - 1]
          && forall j {:trigger p[j]} :: 0 <= j < |p| - 1 && (p[j] == id ==> p[j + 1] != d) ==>
            p[j] in tasks && p[j + 1] in tasks[p[j]].dependencies
        case _ => false
  {
    i :| 0 <= i < |deps| && !GoodDep(tasks, allowForwardRefs, id, deps[i])
      && GoodDeps(tasks, allowForwardRefs, id, deps[..i]) && Blamed(tasks, id, deps[i], e);
    forall j | 0 <= j < i ensures GoodDep(tasks, allowForwardRefs, id, deps[j]) { assert deps[j] in deps[..i]; }
    if deps[i] != "" && deps[i] != id && deps[i] in tasks { WalkWithEdge(tasks, id, deps[i], e.path); }
  }

  /** A walk through the graph with one edge more. */
  lemma WalkWithEdge(tasks: Tasks, id: Id, d: Id, p: seq<Id>)
    requires Walk(Forward(tasks)[id := Succ(Forward(tasks), id) + {d}], p)
    ensures forall j {:trigger p[j]} :: 0 <= j < |p| - 1 && (p[j] == id ==> p[j + 1] != d) ==>
      p[j] in tasks && p[j + 1] in tasks[p[j]].dependencies
  {
    var g := Forward(tasks)[id := Succ(Forward(tasks), id) + {d}];
    forall j {:trigger p[j]} | 0 <= j < |p| - 1 && (p[j] == id ==> p[j + 1] != d)
      ensures p[j] in tasks && p[j + 1] in tasks[p[j]].dependencies
    {
      assert p[j + 1] in Succ(g, p[j]);
    }
  }

  /** In which order the checks on a new task count. */
  lemma AddGuardAnswer(tasks: Tasks, maxTasks: Option<nat>, id: Id)
    ensures var e := AddGuard(tasks, maxTasks, id);
      var room := maxTasks.Some? ==> |tasks| < maxTasks.value;
      && (e == None <==> |id| > 0 && id !in tasks && room)
      && (|id| == 0 ==> e == Some(InvalidTask))
      && (|id| > 0 && id in tasks ==> e == Some(DuplicateTask))
      && (|id| > 0 && id !in tasks && !room ==> e == Some(CapacityExceeded))
  {
  }

  lemma UpdateGuardAnswer(tasks: Tasks, id: Id, u: Update)
    ensures var e := UpdateGuard(tasks, id, u);
      if id !in tasks then e == Some(UnknownTask)
      else match tasks[id].status
        case PENDING => e == None
        case READY => e == None
        case RUNNING => e == if u.dependencies.Some? then Some(InvalidStatus) else None
        case _ => e == Some(TerminalTask)
  {
  }

  // ---------- Adding and changing ----------

  /**
   * An accepted add records the task with the status that its dependencies call for, lists it under
   * each of them, and lets a failure spread to those who already list it; a refused one does nothing.
   */
  lemma AddWrites(c: Config, s: State, id: Id, priority: Option<int>, executeTime: Option<int>, deps: seq<Id>,
                  now: int, s': State)
    requires Step(c, s, Add(id, priority, executeTime, deps, now), s')
    ensures !AddAccepted(s, c.maxTasks, c.allowForwardRefs, id, deps) ==> s' == s
    ensures AddAccepted(s, c.maxTasks, c.allowForwardRefs, id, deps) ==>
      var broken := exists d :: d in deps && d in s.tasks && s.tasks[d].status in {FAILED, CANCELLED};
      var met := forall d :: d in deps ==> d in s.tasks && s.tasks[d].status == COMPLETED;
      && id !in s.tasks && s'.tasks.Keys == s.tasks.Keys + {id}
      && (var t := s'.tasks[id];
          && t.priority == (if priority.Some? then priority.value else 0)
          && t.executeTime == (if executeTime.Some? then executeTime.value else now)
          && t.createdAt == now && t.dependencies == (set d | d in deps)
          && t.status == if broken then FAILED else if met then READY else PENDING)
      && (forall k :: k in s.tasks ==>
            s'.tasks[k] == if broken && Victim(s.tasks, s'.dependents, id, k)
              then s.tasks[k].(status := FAILED) else s.tasks[k])
      && forall d, k :: d in s'.dependents && k in s'.dependents[d] <==>
           (d in s.dependents && k in s.dependents[d]) || (d in deps && k == id)
  {
    if AddAccepted(s, c.maxTasks, c.allowForwardRefs, id, deps) {
      var t := NewTask(priority, executeTime, deps, now);
      forall d | d in deps ensures d != id { assert GoodDep(s.tasks, c.allowForwardRefs, id, d); }
      AddedWrites(s, id, t, s');
      forall k | k in s.tasks
        ensures Victim(s.tasks[id := t], s'.dependents, id, k) <==> Victim(s.tasks, s'.dependents, id, k)
      {
        SameVictims(s.tasks, s'.dependents, id, t, k);
      }
    }
  }

  lemma AddedWrites(s: State, id: Id, t: Task, s': State)
    requires id !in s.tasks && id !in t.dependencies && t.status == PENDING && s' == AfterAdd(s, id, t)
    ensures var broken := exists d :: d in t.dependencies && d in s.tasks && s.tasks[d].status in {FAILED, CANCELLED};
      var met := forall d :: d in t.dependencies ==> d in s.tasks && s.tasks[d].status == COMPLETED;
      && s'.tasks.Keys == s.tasks.Keys + {id}
      && s'.tasks[id] == t.(status := if broken then FAILED else if met then READY else PENDING)
      && (forall k :: k in s.tasks ==>
            s'.tasks[k] == if broken && Victim(s.tasks[id := t], s'.dependents, id, k)
              then s.tasks[k].(status := FAILED) else s.tasks[k])
      && forall d, k :: d in s'.dependents && k in s'.dependents[d] <==>
           (d in s.dependents && k in s.dependents[d]) || (d in t.dependencies && k == id)
  {
    ReconcileWrites(s.tasks[id := t], s'.dependents, id);
  }

  /** An accepted update writes the key and the dependencies it was given and reconciles the task. */
  lemma ChangeWrites(c: Config, s: State, id: Id, u: Update, s': State)
    requires Step(c, s, Change(id, u), s') && UpdateAccepted(s, c.allowForwardRefs, id, u)
    ensures id in s.tasks && s'.tasks.Keys == s.tasks.Keys
    ensures var t, t' := s.tasks[id], s'.tasks[id];
      var deps := if u.dependencies.Some? then (set d | d in u.dependencies.value) else t.dependencies;
      var broken := exists d :: d in deps && d in s.tasks && s.tasks[d].status in {FAILED, CANCELLED};
      var met := forall d :: d in deps ==> d in s.tasks && s.tasks[d].status == COMPLETED;
      && t'.priority == (if u.priority.Some? then u.priority.value else t.priority)
      && t'.executeTime == (if u.executeTime.Some? then u.executeTime.value else t.executeTime)
      && t'.createdAt == t.createdAt && t'.dependencies == deps
      && t'.status == (
           if broken then FAILED
           else if met && t.status == PENDING then READY
           else if !met && t.status == READY then PENDING
           else t.status)
      && (forall k :: k in s.tasks && k != id ==>
            s'.tasks[k] == if broken && Victim(s.tasks, s'.dependents, id, k)
              then s.tasks[k].(status := FAILED) else s.tasks[k])
  {
    var t := WithKeys(s.tasks[id], u);
    if u.dependencies.Some? { t := t.(dependencies := ToSet(u.dependencies.value)); }
    RewrittenWrites(s.tasks, s'.dependents, id, t);
  }

  /** Reconciling a task whose record, but for the status, has just been rewritten. */
  lemma RewrittenWrites(tasks: Tasks, dependents: Graph, id: Id, t: Task)
    requires id in tasks && t.status == tasks[id].status && t.status in {PENDING, READY, RUNNING}
    ensures var after := Reconciled(tasks[id := t], dependents, id);
      var broken := exists d :: d in t.dependencies && d in tasks && tasks[d].status in {FAILED, CANCELLED};
      var met := forall d :: d in t.dependencies ==> d in tasks && tasks[d].status == COMPLETED;
      && after.Keys == tasks.Keys
      && after[id] == t.(status :=
           if broken then FAILED
           else if met && t.status == PENDING then READY
           else if !met && t.status == READY then PENDING
           else t.status)
      && forall k :: k in tasks && k != id ==>
           after[k] == if broken && Victim(tasks, dependents, id, k) then tasks[k].(status := FAILED) else tasks[k]
  {
    ReconcileWrites(tasks[id := t], dependents, id);
    forall k ensures Victim(tasks[id := t], dependents, id, k) <==> Victim(tasks, dependents, id, k) {
      SameVictims(tasks, dependents, id, t, k);
    }
  }

  /** A new dependency lists the task, one given up no longer does, and no other list changes. */
  lemma ChangeRelinks(c: Config, s: State, id: Id, u: Update, s': State)
    requires Step(c, s, Change(id, u), s') && UpdateAccepted(s, c.allowForwardRefs, id, u)
    ensures u.dependencies.None? ==> s'.dependents == s.dependents
    ensures u.dependencies.Some? ==>
      var had, has := s.tasks[id].dependencies, u.dependencies.value;
      forall d, k :: d in s'.dependents && k in s'.dependents[d] <==>
        if k == id && d in has && d !in had then true
        else if k == id && d in had && d !in has then false
        else d in s.dependents && k in s.dependents[d]
  {
    if u.dependencies.Some? {
      RelinkWrites(s.dependents, id, s.tasks[id].dependencies, ToSet(u.dependencies.value));
    }
  }

  lemma RelinkWrites(g: Graph, id: Id, oldDeps: set<Id>, newDeps: set<Id>)
    ensures var h := Relinked(g, id, oldDeps, newDeps);
      forall d, k :: d in h && k in h[d] <==>
        if k == id && d in newDeps && d !in oldDeps then true
        else if k == id && d in oldDeps && d !in newDeps then false
        else d in g && k in g[d]
  {
  }

  /** A refused update writes the key all the same, unless the guard refused it; and nothing else. */
  lemma RefusedChangeWrites(c: Config, s: State, id: Id, u: Update, s': State)
    requires Step(c, s, Change(id, u), s') && !UpdateAccepted(s, c.allowForwardRefs, id, u)
    ensures s' == s.(tasks := s'.tasks) && s'.tasks.Keys == s.tasks.Keys
    ensures forall k :: k in s.tasks && (k != id || UpdateGuard(s.tasks, id, u).Some?) ==> s'.tasks[k] == s.tasks[k]
    ensures UpdateGuard(s.tasks, id, u).None? ==>
      var t, t' := s.tasks[id], s'.tasks[id];
      && t'.priority == (if u.priority.Some? then u.priority.value else t.priority)
      && t'.executeTime == (if u.executeTime.Some? then u.executeTime.value else t.executeTime)
      && t'.createdAt == t.createdAt && t'.dependencies == t.dependencies && t'.status == t.status
  {
  }

  // ---------- The other operations ----------

  /** A deletion fails the victims first, and takes the id out of the lists of its dependencies. */
  lemma DeleteWrites(c: Config, s: State, id: Id, s': State)
    requires Step(c, s, Delete(id), s')
    ensures id !in s.tasks ==> s' == s
    ensures s'.tasks.Keys == s.tasks.Keys - {id}
    ensures forall k :: k in s'.tasks ==>
      s'.tasks[k] ==
        if id in s.tasks && Victim(s.tasks, s.dependents, id, k) then s.tasks[k].(status := FAILED) else s.tasks[k]
    ensures id in s.tasks ==>
      forall d, k :: d in s'.dependents && k in s'.dependents[d] <==>
        d in s.dependents && k in s.dependents[d] && d != id && !(k == id && d in s.tasks[id].dependencies)
  {
  }

  /** A completion makes READY the PENDING tasks on its list whose other dependencies are all COMPLETED. */
  lemma CompleteWrites(c: Config, s: State, id: Id, s': State)
    requires Step(c, s, Complete(id), s')
    ensures s'.dependents == s.dependents && s'.tasks.Keys == s.tasks.Keys
    ensures forall k :: k in s.tasks ==>
      var t, completes := s.tasks[k], id in s.tasks && s.tasks[id].status in {READY, RUNNING};
      s'.tasks[k] == (
        if completes && k == id then t.(status := COMPLETED)
        else if completes && t.status == PENDING && id in s.dependents && k in s.dependents[id] &&
          (forall d :: d in t.dependencies && d != id ==> d in s.tasks && s.tasks[d].status == COMPLETED)
        then t.(status := READY)
        else t)
  {
    if CompleteAccepted(s.tasks, id) {
      var done := WithStatus(s.tasks, id, COMPLETED);
      forall k | k in s.tasks
        ensures Satisfied(done, s.tasks[k]) <==>
          forall d :: d in s.tasks[k].dependencies && d != id ==> d in s.tasks && s.tasks[d].status == COMPLETED
      {
        assert forall d :: Done(done, d) <==> d == id || (d in s.tasks && s.tasks[d].status == COMPLETED);
      }
    }
  }

  /** A task failed or cancelled takes its victims with it, who are FAILED either way. */
  lemma BreakWrites(c: Config, s: State, id: Id, cancels: bool, s': State)
    requires Step(c, s, if cancels then Cancel(id) else Fail(id), s')
    ensures s'.dependents == s.dependents && s'.tasks.Keys == s.tasks.Keys
    ensures forall k :: k in s.tasks ==>
      var t, breaks := s.tasks[k], id in s.tasks && s.tasks[id].status in {PENDING, READY, RUNNING};
      s'.tasks[k] == (
        if breaks && k == id then t.(status := if cancels then CANCELLED else FAILED)
        else if breaks && Victim(s.tasks, s.dependents, id, k) then t.(status := FAILED)
        else t)
  {
    if id in s.tasks {
      var t := s.tasks[id].(status := if cancels then CANCELLED else FAILED);
      forall k ensures
        Victim(s.tasks[id := t], s.dependents, id, k) <==> Victim(s.tasks, s.dependents, id, k)
      {
        SameVictims(s.tasks, s.dependents, id, t, k);
      }
    }
  }

  /** A reset task that was over becomes what its dependencies call for, PENDING if they call for nothing. */
  lemma ResetWrites(c: Config, s: State, id: Id, s': State)
    requires Step(c, s, Reset(id), s')
    ensures !(id in s.tasks && s.tasks[id].status in {COMPLETED, FAILED, CANCELLED}) ==> s' == s
    ensures id in s.tasks && s.tasks[id].status in {COMPLETED, FAILED, CANCELLED} ==>
      var t := s.tasks[id];
      var broken :=
        exists d :: d in t.dependencies && d != id && d in s.tasks && s.tasks[d].status in {FAILED, CANCELLED};
      var met := forall d :: d in t.dependencies ==> d != id && d in s.tasks && s.tasks[d].status == COMPLETED;
      && s'.dependents == s.dependents && s'.tasks.Keys == s.tasks.Keys
      && s'.tasks[id] == t.(status := if broken then FAILED else if met then READY else PENDING)
      && forall k :: k in s.tasks && k != id ==>
           s'.tasks[k] == if broken && Victim(s.tasks, s.dependents, id, k)
             then s.tasks[k].(status := FAILED) else s.tasks[k]
  {
    if id in s.tasks && Terminal(s.tasks[id]) {
      var t := s.tasks[id].(status := PENDING);
      ReconcileWrites(s.tasks[id := t], s.dependents, id);
      forall k ensures
        Victim(s.tasks[id := t], s.dependents, id, k) <==> Victim(s.tasks, s.dependents, id, k)
      {
        SameVictims(s.tasks, s.dependents, id, t, k);
      }
    }
  }

  /** Executing a task comes to reserving it, completing it or failing it, as its runner says. */
  lemma ExecuteWrites(c: Config, s: State, now: int, r: Option<Id>, outcome: Outcome)
    requires Picks(s.tasks, now, r)
    ensures var s' := AfterExecute(s, r, outcome);
      match r
      case None => s' == s
      case Some(id) =>
        match outcome
        case Manual => s' == s.(tasks := s.tasks[id := s.tasks[id].(status := RUNNING)])
        case Succeeds => Step(c, s, Complete(id), s')
        case Fails => Step(c, s, Fail(id), s')
  {
    if r.Some? {
      var running := WithStatus(s.tasks, r.value, RUNNING);
      assert WithStatus(running, r.value, COMPLETED) == WithStatus(s.tasks, r.value, COMPLETED);
      assert WithStatus(running, r.value, FAILED) == WithStatus(s.tasks, r.value, FAILED);
    }
  }

  lemma ClearWrites(c: Config, s: State, s': State)
    requires Step(c, s, Op.Clear, s')
    ensures s'.tasks == map[] && s'.dependents == map[]
  {
  }
}

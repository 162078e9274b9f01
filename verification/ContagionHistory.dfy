/** Which reverse edges are missing, told from the history of a run alone. */
module ContagionHistory {
  import opened Graphs
  import opened ContagionModel
  import opened ContagionRuns
  import opened ContagionSafety
  import opened ContagionExact

  ghost predicate Lists(tasks: Tasks, k: Id, d: Id) {
    k in tasks && d in tasks[k].dependencies
  }

  /** k lists d and is on d's dependent list only if it does. */
  ghost predicate ListedAt(s: State, k: Id, d: Id) {
    k in Succ(s.dependents, d) ==> Lists(s.tasks, k, d)
  }

  /** The dependent lists name nobody wrongly; they may leave somebody out. */
  ghost predicate ReverseSound(s: State) {
    forall k, d :: ListedAt(s, k, d)
  }

  ghost predicate Missing(s: State, k: Id, d: Id) {
    Lists(s.tasks, k, d) && k !in Succ(s.dependents, d)
  }

  /** What becomes of one reverse edge. */
  ghost predicate EdgeMoves(s: State, op: Op, s': State, k: Id, d: Id) {
    && ListedAt(s', k, d)
    && (Missing(s', k, d) <==>
          Lists(s'.tasks, k, d) &&
            (Missing(s, k, d) || (Lists(s.tasks, k, d) && op.Delete? && op.id == d && d in s.tasks)))
  }

  lemma QuietMoves(s: State, op: Op, s': State, k: Id, d: Id)
    requires ListedAt(s, k, d) && SameDeps(s.tasks, s'.tasks) && s'.dependents == s.dependents
    requires !(op.Delete? && op.id in s.tasks)
    ensures EdgeMoves(s, op, s', k, d)
  {
  }

  /** A record is replaced and its reverse edges are moved accordingly. */
  lemma EditMoves(s: State, op: Op, id: Id, t: Task, dependents: Graph, tasks: Tasks, k: Id, d: Id)
    requires ListedAt(s, k, d) && !op.Delete? && SameDeps(s.tasks[id := t], tasks)
    requires var oldDeps := if id in s.tasks then s.tasks[id].dependencies else {};
      Succ(dependents, d) == Succ(s.dependents, d) - (if d in oldDeps - t.dependencies then {id} else {})
                             + (if d in t.dependencies - oldDeps then {id} else {})
    ensures EdgeMoves(s, op, State(tasks, dependents), k, d)
  {
  }

  lemma AddMoves(s: State, op: Op, id: Id, t: Task, k: Id, d: Id)
    requires ListedAt(s, k, d) && op.Add? && id !in s.tasks
    ensures EdgeMoves(s, op, AfterAdd(s, id, t), k, d)
  {
    var dependents := Linked(s.dependents, id, t.dependencies);
    LinkedSucc(s.dependents, id, t.dependencies, d);
    ReconciledSameDeps(s.tasks[id := t], dependents, id);
    EditMoves(s, op, id, t, dependents, AfterAdd(s, id, t).tasks, k, d);
  }

  lemma UpdateMoves(s: State, op: Op, id: Id, u: Update, k: Id, d: Id)
    requires ListedAt(s, k, d) && op.Change? && id in s.tasks
    ensures EdgeMoves(s, op, AfterUpdate(s, id, u), k, d)
  {
    var t := WithKeys(s.tasks[id], u);
    var after := AfterUpdate(s, id, u);
    if u.dependencies.Some? {
      var oldDeps, deps := t.dependencies, ToSet(u.dependencies.value);
      t := t.(dependencies := deps);
      UnlinkedSucc(s.dependents, id, oldDeps - deps, d);
      LinkedSucc(Unlinked(s.dependents, id, oldDeps - deps), id, deps - oldDeps, d);
    }
    ReconciledSameDeps(s.tasks[id := t], after.dependents, id);
    EditMoves(s, op, id, t, after.dependents, after.tasks, k, d);
  }

  lemma DeleteMoves(s: State, op: Op, id: Id, k: Id, d: Id)
    requires ListedAt(s, k, d) && op.Delete? && op.id == id && id in s.tasks
    ensures EdgeMoves(s, op, AfterDelete(s, id), k, d)
  {
    UnlinkedSucc(s.dependents, id, s.tasks[id].dependencies, d);
    var after := AfterDelete(s, id);
    assert Succ(after.dependents, d) == if d == id
      then {} else Succ(Unlinked(s.dependents, id, s.tasks[id].dependencies), d);
  }

  /** An edge goes missing just when its dependency is deleted, and stays missing while it is listed. */
  lemma StepMoves(c: Config, s: State, op: Op, s': State, k: Id, d: Id)
    requires ListedAt(s, k, d) && Step(c, s, op, s')
    ensures EdgeMoves(s, op, s', k, d)
  {
    match op
    case Add(id, priority, executeTime, deps, now) =>
      if AddAccepted(s, c.maxTasks, c.allowForwardRefs, id, deps) {
        AddMoves(s, op, id, NewTask(priority, executeTime, deps, now), k, d);
      }
    case Change(id, u) =>
      if UpdateAccepted(s, c.allowForwardRefs, id, u) {
        UpdateMoves(s, op, id, u, k, d);
      } else {
        QuietMoves(s, op, s', k, d);
      }
    case Delete(id) => if id in s.tasks { DeleteMoves(s, op, id, k, d); }
    case Reset(id) =>
      if id in s.tasks && Terminal(s.tasks[id]) {
        ReconciledSameDeps(WithStatus(s.tasks, id, PENDING), s.dependents, id);
      }
      QuietMoves(s, op, s', k, d);
    case Execute(now, outcome) =>
      var r :| Picks(s.tasks, now, r) && s' == AfterExecute(s, r, outcome);
      ExecuteSameDeps(s, r, outcome);
      QuietMoves(s, op, s', k, d);
    case Clear =>
    case _ => QuietMoves(s, op, s', k, d);
  }

  // ---------- Runs ----------

  lemma MovesAt(c: Config, states: seq<State>, ops: seq<Op>, i: nat, k: Id, d: Id)
    requires Run(c, states, ops) && i < |ops| && ListedAt(states[i], k, d)
    ensures EdgeMoves(states[i], ops[i], states[i + 1], k, d)
  {
    assert StepAt(c, states, ops, i);
    StepMoves(c, states[i], ops[i], states[i + 1], k, d);
  }

  /** At step j d is deleted while k lists it, and k has listed d ever since. */
  ghost predicate LostAt(states: seq<State>, ops: seq<Op>, j: nat, n: nat, k: Id, d: Id)
    requires |states| == |ops| + 1 && j < n <= |ops|
  {
    && ops[j].Delete? && ops[j].id == d && d in states[j].tasks && Lists(states[j].tasks, k, d)
    && forall i :: j < i <= n ==> Lists(states[i].tasks, k, d)
  }

  ghost predicate Lost(states: seq<State>, ops: seq<Op>, n: nat, k: Id, d: Id)
    requires |states| == |ops| + 1 && n <= |ops|
  {
    exists j: nat :: j < n && LostAt(states, ops, j, n, k, d)
  }

  lemma LostNext(states: seq<State>, ops: seq<Op>, n: nat, k: Id, d: Id)
    requires |states| == |ops| + 1 && n < |ops|
    ensures Lost(states, ops, n + 1, k, d) <==>
      Lists(states[n + 1].tasks, k, d) && (Lost(states, ops, n, k, d) || LostAt(states, ops, n, n + 1, k, d))
  {
    if Lists(states[n + 1].tasks, k, d) && Lost(states, ops, n, k, d) {
      var j: nat :| j < n && LostAt(states, ops, j, n, k, d);
      assert LostAt(states, ops, j, n + 1, k, d);
    }
    if Lost(states, ops, n + 1, k, d) {
      var j: nat :| j < n + 1 && LostAt(states, ops, j, n + 1, k, d);
      if j < n { assert LostAt(states, ops, j, n, k, d); }
    }
  }

  /**
   * In every run: a dependent list never names anybody wrongly, and it leaves out k exactly when
   * the dependency has been deleted while k listed it, and k has listed it ever since.
   */
  lemma {:induction false} MissingIff(c: Config, states: seq<State>, ops: seq<Op>, n: nat, k: Id, d: Id)
    requires Run(c, states, ops) && n <= |ops|
    ensures ListedAt(states[n], k, d)
    ensures Missing(states[n], k, d) <==> Lost(states, ops, n, k, d)
  {
    if n > 0 {
      MissingIff(c, states, ops, n - 1, k, d);
      assert n - 1 + 1 == n;
      MovesAt(c, states, ops, n - 1, k, d);
      LostNext(states, ops, n - 1, k, d);
    }
  }

  /** No run puts anybody on a dependent list wrongly. */
  lemma EveryRunIsSound(c: Config, states: seq<State>, ops: seq<Op>, n: nat)
    requires Run(c, states, ops) && n <= |ops|
    ensures ReverseSound(states[n])
  {
    forall k, d ensures ListedAt(states[n], k, d) { MissingIff(c, states, ops, n, k, d); }
  }

  /** Whom a completion forgets, without looking at the dependent lists. */
  lemma ForgottenIff(c: Config, states: seq<State>, ops: seq<Op>, n: nat, id: Id)
    requires Run(c, states, ops) && n <= |ops| && id in states[n].tasks
    ensures Forgotten(states[n], id) <==>
      exists k :: k in states[n].tasks && states[n].tasks[k].status == PENDING && Lost(states, ops, n, k, id)
        && Satisfied(WithStatus(states[n].tasks, id, COMPLETED), states[n].tasks[k])
  {
    var s := states[n];
    forall k ensures Missing(s, k, id) <==> Lost(states, ops, n, k, id) { MissingIff(c, states, ops, n, k, id); }
    if Forgotten(s, id) {
      var k :| k in s.tasks && s.tasks[k].status == PENDING && id in s.tasks[k].dependencies &&
        k !in Succ(s.dependents, id)
        && Satisfied(WithStatus(s.tasks, id, COMPLETED), s.tasks[k]);
      assert Missing(s, k, id);
    }
    if k :| (k in s.tasks && s.tasks[k].status == PENDING && Lost(states, ops, n, k, id)
             && Satisfied(WithStatus(s.tasks, id, COMPLETED), s.tasks[k])) {
      assert Missing(s, k, id);
    }
  }
}

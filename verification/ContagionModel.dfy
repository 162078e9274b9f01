/**
 * The single-heap scheduler with failure contagion as a plain state machine: task records and
 * reverse edges, and what each operation does to them.
 */
module ContagionModel {
  import opened Graphs

  datatype Status = PENDING | READY | RUNNING | COMPLETED | FAILED | CANCELLED

  datatype Task = Task(status: Status, priority: int, executeTime: int, createdAt: int, dependencies: set<Id>)

  type Tasks = map<Id, Task>

  /** dependents is kept in the state: after a delete it no longer follows from the records. */
  datatype State = State(tasks: Tasks, dependents: Graph)

  datatype Error =
    | InvalidTask
    | DuplicateTask
    | CapacityExceeded
    | UnknownTask
    | TerminalTask
    | InvalidStatus
    | InvalidDependency(dep: Id)
    | CycleFound(path: seq<Id>)

  datatype Result<+T> = Ok(value: T) | Err(error: Error)

  predicate Terminal(t: Task) {
    t.status == COMPLETED || t.status == FAILED || t.status == CANCELLED
  }

  predicate Done(tasks: Tasks, d: Id) {
    d in tasks && tasks[d].status == COMPLETED
  }

  predicate Broken(tasks: Tasks, d: Id) {
    d in tasks && (tasks[d].status == FAILED || tasks[d].status == CANCELLED)
  }

  ghost predicate Satisfied(tasks: Tasks, t: Task) {
    forall d :: d in t.dependencies ==> Done(tasks, d)
  }

  ghost predicate Doomed(tasks: Tasks, t: Task) {
    exists d :: d in t.dependencies && Broken(tasks, d)
  }

  function Forward(tasks: Tasks): Graph {
    map id | id in tasks :: tasks[id].dependencies
  }

  ghost predicate SameDeps(a: Tasks, b: Tasks) {
    a.Keys == b.Keys && forall k :: k in a ==> a[k].dependencies == b[k].dependencies
  }

  lemma SameDepsForward(a: Tasks, b: Tasks)
    requires SameDeps(a, b)
    ensures Forward(a) == Forward(b)
  {
  }

  function WithStatus(tasks: Tasks, id: Id, status: Status): Tasks
    requires id in tasks
  {
    tasks[id := tasks[id].(status := status)]
  }

  // ---------- The heap's order ----------

  /** String order, character by character. */
  predicate IdLess(a: Id, b: Id) {
    |b| > 0 && (|a| == 0 || a[0] < b[0] || (a[0] == b[0] && IdLess(a[1..], b[1..])))
  }

  /**
   * compareIds(a, b) < 0: priority, then executeTime, then createdAt, then the id; just the id if a
   * record is missing.
   */
  predicate Before(tasks: Tasks, a: Id, b: Id) {
    if a !in tasks || b !in tasks then IdLess(a, b)
    else
      var ta, tb := tasks[a], tasks[b];
      if ta.priority != tb.priority then ta.priority > tb.priority
      else if ta.executeTime != tb.executeTime then ta.executeTime < tb.executeTime
      else if ta.createdAt != tb.createdAt then ta.createdAt < tb.createdAt
      else IdLess(a, b)
  }

  function ById(tasks: Tasks): (Id, Id) -> bool {
    (a, b) => Before(tasks, a, b)
  }

  lemma {:induction false} IdLessAsym(a: Id, b: Id)
    requires IdLess(a, b)
    ensures !IdLess(b, a)
    decreases |a|
  {
    if |a| > 0 && a[0] == b[0] { IdLessAsym(a[1..], b[1..]); }
  }

  lemma {:induction false} IdLessTrans(a: Id, b: Id, c: Id)
    requires IdLess(a, b) && IdLess(b, c)
    ensures IdLess(a, c)
    decreases |a|
  {
    if |a| > 0 && a[0] == b[0] == c[0] { IdLessTrans(a[1..], b[1..], c[1..]); }
  }

  lemma {:induction false} IdLessTotal(a: Id, b: Id)
    requires a != b
    ensures IdLess(a, b) || IdLess(b, a)
    decreases |a|
  {
    if |a| > 0 && |b| > 0 && a[0] == b[0] {
      assert a == [a[0]] + a[1..] && b == [b[0]] + b[1..];
      IdLessTotal(a[1..], b[1..]);
    }
  }

  // ---------- Failure propagation ----------

  /** A failure passes through every existing task that is not COMPLETED. */
  predicate Passes(tasks: Tasks, n: Id) {
    n in tasks && tasks[n].status != COMPLETED
  }

  /** The reverse edges along which a failure of origin spreads. */
  ghost function FailureGraph(tasks: Tasks, dependents: Graph, origin: Id): Graph {
    map n | n in dependents && (n == origin || Passes(tasks, n)) :: dependents[n]
  }

  ghost predicate Victim(tasks: Tasks, dependents: Graph, origin: Id, n: Id) {
    n in tasks && n != origin && !Terminal(tasks[n]) && Reaches(FailureGraph(tasks, dependents, origin), origin, n)
  }

  ghost function Victims(tasks: Tasks, dependents: Graph, origin: Id): set<Id> {
    set n | n in tasks && Victim(tasks, dependents, origin, n)
  }

  ghost function MarkFailed(tasks: Tasks, ids: set<Id>): Tasks {
    map k | k in tasks :: if k in ids then tasks[k].(status := FAILED) else tasks[k]
  }

  ghost function Propagated(tasks: Tasks, dependents: Graph, origin: Id): Tasks {
    if origin in tasks then MarkFailed(tasks, Victims(tasks, dependents, origin)) else tasks
  }

  // ---------- Unblocking and reconciling ----------

  ghost function Unblocked(tasks: Tasks, ids: set<Id>): Tasks {
    map k | k in tasks ::
      if k in ids && tasks[k].status == PENDING && Satisfied(tasks, tasks[k])
        then tasks[k].(status := READY) else tasks[k]
  }

  ghost function Reconciled(tasks: Tasks, dependents: Graph, id: Id): Tasks
    requires id in tasks
  {
    var t := tasks[id];
    if Terminal(t) then tasks
    else if Doomed(tasks, t) then Propagated(WithStatus(tasks, id, FAILED), dependents, id)
    else if Satisfied(tasks, t) then (if t.status == PENDING then WithStatus(tasks, id, READY) else tasks)
    else if t.status == READY then WithStatus(tasks, id, PENDING)
    else tasks
  }

  // ---------- Reverse edges ----------

  function Linked(g: Graph, id: Id, deps: set<Id>): Graph {
    map d | d in g.Keys + deps :: if d in deps then Succ(g, d) + {id} else g[d]
  }

  /** A dependent list that becomes empty is dropped. */
  function Unlinked(g: Graph, id: Id, deps: set<Id>): Graph {
    map d | d in g && !(d in deps && g[d] == {id}) :: if d in deps then g[d] - {id} else g[d]
  }

  // ---------- Validation ----------

  /** A dependency that may be registered: well-formed, not the task itself, and not leading back to it. */
  ghost predicate GoodDep(tasks: Tasks, allowForwardRefs: bool, id: Id, d: Id) {
    d != "" && d != id && if d in tasks then !Reaches(Forward(tasks), d, id) else allowForwardRefs
  }

  ghost predicate GoodDeps(tasks: Tasks, allowForwardRefs: bool, id: Id, deps: seq<Id>) {
    forall d :: d in deps ==> GoodDep(tasks, allowForwardRefs, id, d)
  }

  /** The error a bad dependency is answered with; a cycle comes with a closed walk through the new edge. */
  ghost predicate Blamed(tasks: Tasks, id: Id, d: Id, e: Error) {
    if d == "" then e == InvalidDependency(d)
    else if d == id then e == CycleFound([id, id])
    else if d !in tasks then e == InvalidDependency(d)
    else e.CycleFound? && ClosedWalk(Forward(tasks)[id := Succ(Forward(tasks), id) + {d}], e.path)
  }

  /** e answers the first bad dependency of the list. */
  ghost predicate FirstBlamed(tasks: Tasks, allowForwardRefs: bool, id: Id, deps: seq<Id>, e: Error) {
    exists i :: 0 <= i < |deps| && !GoodDep(tasks, allowForwardRefs, id, deps[i])
      && GoodDeps(tasks, allowForwardRefs, id, deps[..i]) && Blamed(tasks, id, deps[i], e)
  }

  function ToSet(s: seq<Id>): set<Id> {
    set d | d in s
  }

  // ---------- Operations ----------

  datatype Update = Update(priority: Option<int>, executeTime: Option<int>, dependencies: Option<seq<Id>>)

  /** How a runner ends, or that there is none and the caller reports later. */
  datatype Outcome = Manual | Succeeds | Fails

  function GetOr<T>(o: Option<T>, default: T): T {
    match o
    case Some(v) => v
    case None => default
  }

  function NewTask(priority: Option<int>, executeTime: Option<int>, deps: seq<Id>, now: int): Task {
    Task(PENDING, GetOr(priority, 0), GetOr(executeTime, now), now, ToSet(deps))
  }

  /** The checks on a new task that come before its dependencies are looked at. */
  function AddGuard(tasks: Tasks, maxTasks: Option<nat>, id: Id): Option<Error> {
    if id == "" then Some(InvalidTask)
    else if id in tasks then Some(DuplicateTask)
    else if maxTasks.Some? && |tasks| >= maxTasks.value then Some(CapacityExceeded)
    else None
  }

  ghost predicate AddAccepted(s: State, maxTasks: Option<nat>, allowForwardRefs: bool, id: Id, deps: seq<Id>) {
    AddGuard(s.tasks, maxTasks, id).None? && GoodDeps(s.tasks, allowForwardRefs, id, deps)
  }

  /** The checks that come before anything is written. */
  function UpdateGuard(tasks: Tasks, id: Id, u: Update): Option<Error> {
    if id !in tasks then Some(UnknownTask)
    else if Terminal(tasks[id]) then Some(TerminalTask)
    else if tasks[id].status == RUNNING && u.dependencies.Some? then Some(InvalidStatus)
    else None
  }

  ghost predicate UpdateAccepted(s: State, allowForwardRefs: bool, id: Id, u: Update) {
    && UpdateGuard(s.tasks, id, u).None?
    && (u.dependencies.Some? ==> GoodDeps(s.tasks, allowForwardRefs, id, u.dependencies.value))
  }

  /** An update whose dependency list is refused has already written its priority and executeTime. */
  ghost function AfterRejectedUpdate(s: State, id: Id, u: Update): State {
    if UpdateGuard(s.tasks, id, u).None? then s.(tasks := s.tasks[id := WithKeys(s.tasks[id], u)]) else s
  }

  ghost function AfterAdd(s: State, id: Id, t: Task): State {
    var dependents := Linked(s.dependents, id, t.dependencies);
    State(Reconciled(s.tasks[id := t], dependents, id), dependents)
  }

  function WithKeys(t: Task, u: Update): Task {
    t.(priority := GetOr(u.priority, t.priority), executeTime := GetOr(u.executeTime, t.executeTime))
  }

  ghost function Relinked(g: Graph, id: Id, oldDeps: set<Id>, newDeps: set<Id>): Graph {
    Linked(Unlinked(g, id, oldDeps - newDeps), id, newDeps - oldDeps)
  }

  ghost function AfterUpdate(s: State, id: Id, u: Update): State
    requires id in s.tasks
  {
    var t := WithKeys(s.tasks[id], u);
    if u.dependencies.None? then State(Reconciled(s.tasks[id := t], s.dependents, id), s.dependents)
    else
      var deps := ToSet(u.dependencies.value);
      var dependents := Relinked(s.dependents, id, t.dependencies, deps);
      State(Reconciled(s.tasks[id := t.(dependencies := deps)], dependents, id), dependents)
  }

  ghost function AfterDelete(s: State, id: Id): State
    requires id in s.tasks
  {
    State(Propagated(s.tasks, s.dependents, id) - {id}, Unlinked(s.dependents, id, s.tasks[id].dependencies) - {id})
  }

  predicate CompleteAccepted(tasks: Tasks, id: Id) {
    id in tasks && (tasks[id].status == READY || tasks[id].status == RUNNING)
  }

  ghost function AfterComplete(s: State, id: Id): State
    requires id in s.tasks
  {
    s.(tasks := Unblocked(WithStatus(s.tasks, id, COMPLETED), Succ(s.dependents, id)))
  }

  /** Failing, or cancelling, with the contagion that follows. */
  ghost function AfterBreak(s: State, id: Id, status: Status): State
    requires id in s.tasks
  {
    s.(tasks := Propagated(WithStatus(s.tasks, id, status), s.dependents, id))
  }

  ghost function AfterReset(s: State, id: Id): State
    requires id in s.tasks
  {
    s.(tasks := Reconciled(WithStatus(s.tasks, id, PENDING), s.dependents, id))
  }

  ghost predicate Executable(tasks: Tasks, now: int, id: Id) {
    id in tasks && tasks[id].status == READY && Satisfied(tasks, tasks[id]) && tasks[id].executeTime <= now
  }

  /** Some executable task, or None just when there is none. */
  ghost predicate Picks(tasks: Tasks, now: int, r: Option<Id>) {
    match r
    case None => forall k :: !Executable(tasks, now, k)
    case Some(id) => Executable(tasks, now, id)
  }

  /** The executable task that compareIds ranks before every other, or None if there is none. */
  ghost predicate Chosen(tasks: Tasks, now: int, r: Option<Id>) {
    match r
    case None => forall k :: !Executable(tasks, now, k)
    case Some(id) =>
      && Executable(tasks, now, id)
      && forall k :: Executable(tasks, now, k) && k != id ==> Before(tasks, id, k)
  }

  ghost function AfterExecute(s: State, r: Option<Id>, outcome: Outcome): State
    requires r.Some? ==> r.value in s.tasks
  {
    if r.None? then s
    else
      var running := s.(tasks := WithStatus(s.tasks, r.value, RUNNING));
      match outcome
      case Manual => running
      case Succeeds => AfterComplete(running, r.value)
      case Fails => AfterBreak(running, r.value, FAILED)
  }

  // ---------- Steps ----------

  datatype Config = Config(maxTasks: Option<nat>, allowForwardRefs: bool)

  datatype Op =
    | Add(id: Id, priority: Option<int>, executeTime: Option<int>, deps: seq<Id>, now: int)
    | Change(id: Id, update: Update)
    | Delete(id: Id)
    | Complete(id: Id)
    | Fail(id: Id)
    | Cancel(id: Id)
    | Reset(id: Id)
    | Execute(now: int, outcome: Outcome)
    | Clear

  /** What one public operation, accepted or refused, does to the state. */
  ghost predicate Step(c: Config, s: State, op: Op, s': State) {
    match op
    case Add(id, priority, executeTime, deps, now) =>
      s' == if AddAccepted(s, c.maxTasks, c.allowForwardRefs, id, deps)
            then AfterAdd(s, id, NewTask(priority, executeTime, deps, now)) else s
    case Change(id, u) =>
      s' == if UpdateAccepted(s, c.allowForwardRefs, id, u)
        then AfterUpdate(s, id, u) else AfterRejectedUpdate(s, id, u)
    case Delete(id) => s' == if id in s.tasks then AfterDelete(s, id) else s
    case Complete(id) => s' == if CompleteAccepted(s.tasks, id) then AfterComplete(s, id) else s
    case Fail(id) => s' == if id in s.tasks && !Terminal(s.tasks[id]) then AfterBreak(s, id, FAILED) else s
    case Cancel(id) => s' == if id in s.tasks && !Terminal(s.tasks[id]) then AfterBreak(s, id, CANCELLED) else s
    case Reset(id) => s' == if id in s.tasks && Terminal(s.tasks[id]) then AfterReset(s, id) else s
    case Execute(now, outcome) => exists r :: Picks(s.tasks, now, r) && s' == AfterExecute(s, r, outcome)
    case Clear => s' == State(map[], map[])
  }
}

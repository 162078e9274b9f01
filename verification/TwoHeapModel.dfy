/**
 * The two-heap scheduler as a plain state machine: the task records and the clock, with every
 * operation given by what it does to them and no heap in sight.
 */
module TwoHeapModel {
  import opened Graphs
  import opened IndexedHeap

  datatype Status = PENDING | READY | RUNNING | COMPLETED | FAILED | CANCELLED

  datatype Task = Task(
    priority: int,
    executeTime: int,
    dependencies: seq<Id>,
    status: Status,
    unmet: nat,
    version: nat,
    sequence: nat)

  type Tasks = map<Id, Task>

  datatype State = State(tasks: Tasks, clock: int, sequence: nat, maxTasks: nat)

  datatype Error =
    | InvalidTask
    | TaskNotFound
    | DuplicateTask
    | CapacityExceeded
    | CycleFound(path: seq<Id>)
    | StaleVersion
    | ExecutorFailed

  datatype Result<+T> = Ok(value: T) | Err(error: Error)

  datatype AddInput = AddInput(
    id: Id,
    priority: Option<int>,
    executeTime: Option<int>,
    dependencies: Option<seq<Id>>)

  /** dependencies: None leaves them alone; an explicit null is Some([]). */
  datatype UpdateInput = UpdateInput(
    priority: Option<int>,
    executeTime: Option<int>,
    dependencies: Option<seq<Id>>)

  function GetOr<T>(o: Option<T>, default: T): T {
    match o
    case Some(v) => v
    case None => default
  }

  // ---------- Ids and dependency lists ----------

  /** White space as String.prototype.trim understands it. */
  predicate IsSpace(c: char) {
    || '\t' <= c <= '\r' || c == ' ' || c == '\U{A0}' || c == '\U{1680}' || '\U{2000}' <= c <= '\U{200A}'
    || c == '\U{2028}' || c == '\U{2029}' || c == '\U{202F}' || c == '\U{205F}' || c == '\U{3000}' || c == '\U{FEFF}'
  }

  predicate Blank(id: Id) {
    forall i :: 0 <= i < |id| ==> IsSpace(id[i])
  }

  /** A dependency that validation lets through. */
  predicate GoodDep(tasks: Tasks, id: Id, d: Id) {
    !Blank(d) && d != id && d in tasks
  }

  ghost predicate GoodDeps(tasks: Tasks, id: Id, raw: seq<Id>) {
    forall i :: 0 <= i < |raw| ==> GoodDep(tasks, id, raw[i])
  }

  /** The error raised for the first bad dependency, in list order. */
  function DepError(tasks: Tasks, id: Id, raw: seq<Id>): (e: Option<Error>)
    ensures e.None? <==> GoodDeps(tasks, id, raw)
  {
    if raw == [] then None
    else
      var n := |raw| - 1;
      assert raw == raw[..n] + [raw[n]];
      var e := DepError(tasks, id, raw[..n]);
      var d := raw[n];
      if e.Some? then e
      else if Blank(d) then Some(InvalidTask)
      else if d == id then Some(CycleFound([id, id]))
      else if d !in tasks then Some(InvalidTask)
      else None
  }

  lemma {:induction false} LaterErrors(tasks: Tasks, id: Id, raw: seq<Id>, n: nat)
    requires n <= |raw| && DepError(tasks, id, raw[..n]).Some?
    ensures DepError(tasks, id, raw) == DepError(tasks, id, raw[..n])
  {
    if n == |raw| {
      assert raw[..n] == raw;
    } else {
      var m := |raw| - 1;
      assert raw[..m][..n] == raw[..n];
      LaterErrors(tasks, id, raw[..m], n);
    }
  }

  /** The list without repetitions, first occurrences kept in order. */
  function Dedup(raw: seq<Id>): (out: seq<Id>)
    ensures NoDup(out) && ToSet(out) == ToSet(raw)
  {
    if raw == [] then []
    else
      var n := |raw| - 1;
      assert raw == raw[..n] + [raw[n]];
      var out := Dedup(raw[..n]);
      ToSetAppend(raw[..n], raw[n]);
      ToSetAppend(out, raw[n]);
      if raw[n] in out then out else out + [raw[n]]
  }

  ghost predicate NoDup(s: seq<Id>) {
    forall i, j :: 0 <= i < j < |s| ==> s[i] != s[j]
  }

  function ToSet(s: seq<Id>): set<Id> {
    set d | d in s
  }

  lemma ToSetAppend(s: seq<Id>, d: Id)
    ensures ToSet(s + [d]) == ToSet(s) + {d}
  {
  }

  lemma DedupGood(tasks: Tasks, id: Id, raw: seq<Id>)
    requires DepError(tasks, id, raw).None?
    ensures GoodDeps(tasks, id, Dedup(raw))
  {
  }

  lemma ListOfOne(tasks: Tasks, id: Id, d: Id)
    requires GoodDep(tasks, id, d)
    ensures DepError(tasks, id, [d]).None? && Dedup([d]) == [d] && ToSet([d]) == {d}
  {
    assert [d][..0] == [];
  }

  // ---------- Dependencies met and unmet ----------

  predicate Done(tasks: Tasks, d: Id) {
    d in tasks && tasks[d].status == COMPLETED
  }

  ghost predicate Satisfied(tasks: Tasks, t: Task) {
    forall d :: d in t.dependencies ==> Done(tasks, d)
  }

  ghost function UnmetOf(tasks: Tasks, deps: seq<Id>): set<Id> {
    set d | d in deps && !Done(tasks, d)
  }

  /** The unmet dependencies that still exist; the other unmet ones are dangling. */
  ghost function LiveUnmetOf(tasks: Tasks, deps: seq<Id>): set<Id> {
    set d | d in deps && d in tasks && tasks[d].status != COMPLETED
  }

  /** What _countUnmet computes. */
  ghost function Recount(tasks: Tasks, deps: seq<Id>): nat {
    |UnmetOf(tasks, deps)|
  }

  predicate Waiting(t: Task) {
    t.status == PENDING || t.status == READY
  }

  predicate PreExecution(t: Task) {
    Waiting(t) || t.status == RUNNING
  }

  ghost function Forward(tasks: Tasks): Graph {
    map id | id in tasks :: ToSet(tasks[id].dependencies)
  }

  // ---------- Heap keys ----------

  function EntryOf(id: Id, t: Task): Entry {
    Entry(id, t.priority, t.executeTime, t.sequence)
  }

  predicate DueBefore(a: Entry, b: Entry) {
    || a.priority > b.priority
    || (a.priority == b.priority &&
        (a.executeTime < b.executeTime || (a.executeTime == b.executeTime && a.sequence < b.sequence)))
  }

  predicate FutureBefore(a: Entry, b: Entry) {
    || a.executeTime < b.executeTime
    || (a.executeTime == b.executeTime &&
      (a.priority > b.priority || (a.priority == b.priority && a.sequence < b.sequence)))
  }

  lemma Comparators()
    ensures Comparator(DueBefore) && Comparator(FutureBefore)
  {
  }

  // ---------- What claimNextExecutable looks for ----------

  /** READY, due and with every dependency COMPLETED: the scan of getExecutableTasks. */
  ghost predicate Executable(tasks: Tasks, clock: int, id: Id) {
    id in tasks && tasks[id].status == READY && tasks[id].executeTime <= clock && Satisfied(tasks, tasks[id])
  }

  /** The executable task that dueComparator ranks before every other one. */
  ghost predicate BestExecutable(tasks: Tasks, clock: int, id: Id) {
    && Executable(tasks, clock, id)
    && forall k :: Executable(tasks, clock, k) && k != id ==> DueBefore(EntryOf(id, tasks[id]), EntryOf(k, tasks[k]))
  }

  ghost predicate FindsBest(tasks: Tasks, clock: int, r: Option<Id>) {
    match r
    case None => forall k :: !Executable(tasks, clock, k)
    case Some(id) => BestExecutable(tasks, clock, id)
  }

  /** READY and due, but a dependency was deleted since: met on the way to r, and to be blocked again. */
  ghost predicate Dangles(tasks: Tasks, clock: int, r: Option<Id>, k: Id) {
    && k in tasks && tasks[k].status == READY && tasks[k].executeTime <= clock && !Satisfied(tasks, tasks[k])
    && (r.Some? && r.value in tasks ==> DueBefore(EntryOf(k, tasks[k]), EntryOf(r.value, tasks[r.value])))
  }

  ghost function Reblock(tasks: Tasks, t: Task): Task {
    t.(unmet := Recount(tasks, t.dependencies), status := PENDING)
  }

  ghost function ReblockAll(tasks: Tasks, ids: set<Id>): Tasks {
    map k | k in tasks :: if k in ids then Reblock(tasks, tasks[k]) else tasks[k]
  }

  ghost function Dangling(tasks: Tasks, clock: int, r: Option<Id>): set<Id> {
    set k | k in tasks && Dangles(tasks, clock, r, k)
  }

  ghost function Advanced(clock: int, now: Option<int>): int {
    if now.Some? && now.value > clock then now.value else clock
  }

  // ---------- Operations ----------

  ghost function NewTask(s: State, input: AddInput, deps: seq<Id>): Task {
    var unmet := Recount(s.tasks, deps);
    Task(GetOr(input.priority, 0), GetOr(input.executeTime, s.clock), deps,
         if unmet == 0 then READY else PENDING, unmet, 0, s.sequence)
  }

  /** Waiting tasks that still list a newly added id are blocked on it again. */
  ghost function Readded(tasks: Tasks, id: Id): set<Id> {
    set k | k in tasks && Waiting(tasks[k]) && id in tasks[k].dependencies
  }

  /** Why an add is refused; None when it is accepted. */
  function AddError(s: State, input: AddInput): Option<Error> {
    var depError := DepError(s.tasks, input.id, GetOr(input.dependencies, []));
    if Blank(input.id) then Some(InvalidTask)
    else if depError.Some? then depError
    else if s.maxTasks > 0 && |s.tasks| >= s.maxTasks then Some(CapacityExceeded)
    else if input.id in s.tasks then Some(DuplicateTask)
    else None
  }

  ghost function AfterAdd(s: State, input: AddInput, deps: seq<Id>): State {
    var tasks := s.tasks[input.id := NewTask(s, input, deps)];
    s.(tasks := ReblockAll(tasks, Readded(tasks, input.id)), sequence := s.sequence + 1)
  }

  /** Why an update is refused before its new edges are searched for cycles. */
  function UpdateError(s: State, id: Id, u: UpdateInput, expectedVersion: Option<nat>): Option<Error> {
    if id !in s.tasks then Some(TaskNotFound)
    else if expectedVersion.Some? && s.tasks[id].version != expectedVersion.value then Some(StaleVersion)
    else if !Waiting(s.tasks[id]) then Some(InvalidTask)
    else if u.dependencies.Some? then DepError(s.tasks, id, u.dependencies.value)
    else None
  }

  function NewDeps(u: UpdateInput): Option<seq<Id>> {
    if u.dependencies.Some? then Some(Dedup(u.dependencies.value)) else None
  }

  /** A dependency the task did not have before already leads to the task. */
  ghost predicate ClosesCycle(tasks: Tasks, id: Id, deps: Option<seq<Id>>)
    requires id in tasks
  {
    deps.Some? && exists d :: d in deps.value && d !in tasks[id].dependencies && Reaches(Forward(tasks), d, id)
  }

  ghost function UpdatedTask(tasks: Tasks, t: Task, u: UpdateInput, deps: Option<seq<Id>>): Task {
    var t1 := t.(priority := GetOr(u.priority, t.priority), executeTime := GetOr(u.executeTime, t.executeTime),
                 version := t.version + 1);
    if deps.None? then t1
    else
      var unmet := Recount(tasks, deps.value);
      t1.(dependencies := deps.value, unmet := unmet, status := if unmet == 0 then READY else PENDING)
  }

  ghost function AfterUpdate(s: State, id: Id, u: UpdateInput, deps: Option<seq<Id>>): State
    requires id in s.tasks
  {
    s.(tasks := s.tasks[id := UpdatedTask(s.tasks, s.tasks[id], u, deps)])
  }

  ghost function AfterDelete(s: State, id: Id): State {
    s.(tasks := s.tasks - {id})
  }

  function Decrement(t: Task): Task {
    var n := if t.unmet > 0 then t.unmet - 1 else 0;
    t.(unmet := n, status := if n == 0 then READY else t.status)
  }

  /** The PENDING tasks among ids have one unmet dependency fewer. */
  ghost function Unblock(tasks: Tasks, ids: set<Id>): Tasks {
    map k | k in tasks :: if k in ids && tasks[k].status == PENDING then Decrement(tasks[k]) else tasks[k]
  }

  ghost function Dependents(tasks: Tasks, id: Id): set<Id> {
    set k | k in tasks && id in tasks[k].dependencies
  }

  ghost function WithStatus(tasks: Tasks, id: Id, status: Status): Tasks
    requires id in tasks
  {
    tasks[id := tasks[id].(status := status)]
  }

  ghost function AfterComplete(s: State, id: Id): State
    requires id in s.tasks
  {
    var tasks := WithStatus(s.tasks, id, COMPLETED);
    s.(tasks := Unblock(tasks, Dependents(tasks, id)))
  }

  ghost function CompleteResult(s: State, id: Id): Result<Task> {
    if id !in s.tasks then Err(TaskNotFound)
    else if Done(s.tasks, id) then Ok(s.tasks[id])
    else if PreExecution(s.tasks[id]) then Ok(s.tasks[id].(status := COMPLETED))
    else Err(InvalidTask)
  }

  ghost function FailResult(s: State, id: Id): Result<Task> {
    if id !in s.tasks then Err(TaskNotFound)
    else if PreExecution(s.tasks[id]) || s.tasks[id].status == FAILED then Ok(s.tasks[id].(status := FAILED))
    else Err(InvalidTask)
  }

  ghost function AfterFail(s: State, id: Id): State {
    if id in s.tasks && PreExecution(s.tasks[id]) then s.(tasks := WithStatus(s.tasks, id, FAILED)) else s
  }

  ghost function CancelResult(s: State, id: Id): Result<Task> {
    if id !in s.tasks then Err(TaskNotFound)
    else if PreExecution(s.tasks[id]) then Ok(s.tasks[id].(status := CANCELLED))
    else Ok(s.tasks[id])
  }

  ghost function AfterCancel(s: State, id: Id): State {
    if id in s.tasks && PreExecution(s.tasks[id]) then s.(tasks := WithStatus(s.tasks, id, CANCELLED)) else s
  }

  /**
   * What the end of an executor is answered with: a success is completed; a failed executor, or a
   * completion that is refused, goes on to failTask, whose own refusal takes precedence.
   */
  ghost function SettleResult(s: State, id: Id, succeeds: bool): Result<Task> {
    if succeeds && CompleteResult(s, id).Ok? then CompleteResult(s, id)
    else if FailResult(s, id).Err? then FailResult(s, id)
    else if succeeds then CompleteResult(s, id)
    else Err(ExecutorFailed)
  }

  ghost function AfterSearch(s: State, now: Option<int>, r: Option<Id>): State {
    var clock := Advanced(s.clock, now);
    s.(clock := clock, tasks := ReblockAll(s.tasks, Dangling(s.tasks, clock, r)))
  }

  ghost function AfterClaim(s: State, now: Option<int>, r: Option<Id>): State {
    var s1 := AfterSearch(s, now, r);
    if r.Some? && r.value in s1.tasks then s1.(tasks := WithStatus(s1.tasks, r.value, RUNNING)) else s1
  }

  ghost predicate ReadyTask(s: State, k: Id) {
    k in s.tasks && s.tasks[k].status == READY
  }

  ghost predicate SomeDue(s: State) {
    exists k :: ReadyTask(s, k) && s.tasks[k].executeTime <= s.clock
  }

  /** The clock if something READY is due; else the earliest executeTime of a READY task; else nothing. */
  ghost predicate IsWakeTime(s: State, wake: Option<int>) {
    match wake
    case None => forall k :: !ReadyTask(s, k)
    case Some(w) =>
      if SomeDue(s) then w == s.clock
      else
        && (exists k :: ReadyTask(s, k) && s.tasks[k].executeTime == w)
        && (forall k :: ReadyTask(s, k) ==> w <= s.tasks[k].executeTime)
  }

  // ---------- Steps ----------

  datatype Op =
    | Add(input: AddInput)
    | Update(id: Id, update: UpdateInput, expectedVersion: Option<nat>)
    | Delete(id: Id)
    | Complete(id: Id)
    | Fail(id: Id)
    | Cancel(id: Id)
    | Peek(now: Option<int>)
    | Claim(now: Option<int>)
    | Clear

  ghost predicate AddAccepted(s: State, input: AddInput) {
    AddError(s, input).None?
  }

  ghost predicate UpdateAccepted(s: State, id: Id, u: UpdateInput, expectedVersion: Option<nat>) {
    UpdateError(s, id, u, expectedVersion).None? && !ClosesCycle(s.tasks, id, NewDeps(u))
  }

  /** What one public operation, accepted or refused, does to the state. */
  ghost predicate Step(s: State, op: Op, s': State) {
    match op
    case Add(input) =>
      s' == if AddAccepted(s, input) then AfterAdd(s, input, Dedup(GetOr(input.dependencies, []))) else s
    case Update(id, u, v) => s' == if UpdateAccepted(s, id, u, v) then AfterUpdate(s, id, u, NewDeps(u)) else s
    case Delete(id) => s' == AfterDelete(s, id)
    case Complete(id) => s' == if id in s.tasks && PreExecution(s.tasks[id]) then AfterComplete(s, id) else s
    case Fail(id) => s' == AfterFail(s, id)
    case Cancel(id) => s' == AfterCancel(s, id)
    case Peek(now) => exists r :: FindsBest(s.tasks, Advanced(s.clock, now), r) && s' == AfterSearch(s, now, r)
    case Claim(now) => exists r :: FindsBest(s.tasks, Advanced(s.clock, now), r) && s' == AfterClaim(s, now, r)
    case Clear => s' == s.(tasks := map[], sequence := 0)
  }

  ghost predicate StepAt(states: seq<State>, ops: seq<Op>, i: nat)
    requires |states| == |ops| + 1 && i < |ops|
  {
    Step(states[i], ops[i], states[i + 1])
  }

  /** The states that a sequence of operations passes through. */
  ghost predicate Path(states: seq<State>, ops: seq<Op>) {
    |states| == |ops| + 1 && forall i: nat :: i < |ops| ==> StepAt(states, ops, i)
  }

  lemma PathOn(states: seq<State>, ops: seq<Op>, op: Op, s: State)
    requires Path(states, ops) && Step(states[|ops|], op, s)
    ensures Path(states + [s], ops + [op])
  {
    var more, done := states + [s], ops + [op];
    forall i: nat | i < |done| ensures StepAt(more, done, i) {
      if i < |ops| {
        assert StepAt(states, ops, i);
        assert more[i] == states[i] && more[i + 1] == states[i + 1] && done[i] == ops[i];
      }
    }
  }
}

/**
 * The lazy-heap scheduler as a state machine: heap entries go stale in place and are recognised
 * by a mark that no longer matches.
 */
module LazyModel {
  import opened Graphs

  datatype TaskState = PENDING | RUNNING | WAITING | DONE | CANCELLED | DEPRECATED | FAILED

  /** deps are the dependencies not yet resolved; mark is the rseq of the valid heap entry, 0 if there is none. */
  datatype Task = Task(state: TaskState, priority: int, due: int, deps: set<Id>, mark: nat)

  datatype Entry = Entry(due: int, negPriority: int, rseq: nat, tid: Id)

  type Tasks = map<Id, Task>

  datatype State = State(tasks: Tasks, watchers: map<Id, seq<Id>>, heap: set<Entry>, rseq: nat)

  datatype Error = AlreadyExists | NotFound | BadValue | NotRunning | NotUpdatable

  datatype Result<+T> = Ok(value: T) | Err(error: Error)

  predicate Gone(t: Task) {
    t.state == TaskState.DONE || t.state == CANCELLED || t.state == DEPRECATED || t.state == FAILED
  }

  predicate Live(tasks: Tasks, d: Id) {
    d in tasks && !Gone(tasks[d])
  }

  /** The terminal states that spread to dependents, by severity. */
  function Severity(s: TaskState): nat {
    match s
    case DEPRECATED => 1
    case CANCELLED => 2
    case FAILED => 3
    case _ => 0
  }

  function KeyOf(id: Id, t: Task): Entry {
    Entry(t.due, -t.priority, t.mark, id)
  }

  /** Tuple order; two entries never share an rseq, so ids are never compared. */
  predicate Before(a: Entry, b: Entry) {
    || a.due < b.due
    || (a.due == b.due && (a.negPriority < b.negPriority || (a.negPriority == b.negPriority && a.rseq < b.rseq)))
  }

  predicate ValidEntry(tasks: Tasks, e: Entry) {
    e.tid in tasks && tasks[e.tid].mark == e.rseq
  }

  function WatchersOf(watchers: map<Id, seq<Id>>, id: Id): seq<Id> {
    if id in watchers then watchers[id] else []
  }

  // ---------- The invariant ----------

  /** Has a heap entry that counts. */
  predicate Queued(t: Task) {
    t.mark > 0
  }

  /**
   * What one record promises: every PENDING task is queued, and besides those only CANCELLED tasks
   * that an update has revived; a queued task's entry has its current key; who has unresolved
   * dependencies is WAITING, and those are live.
   */
  ghost predicate TaskOk(s: State, k: Id) {
    k in s.tasks ==>
      var t := s.tasks[k];
      && (t.state == PENDING ==> Queued(t))
      && (Queued(t) ==> KeyOf(k, t) in s.heap && (t.state == PENDING || t.state == CANCELLED))
      && (t.state == WAITING <==> t.deps != {})
      && (forall d :: d in t.deps ==> Live(s.tasks, d) && k in WatchersOf(s.watchers, d))
  }

  /** No two entries share an rseq, and none is 0 or from the future. */
  ghost predicate EntriesOk(heap: set<Entry>, rseq: nat) {
    && (forall e :: e in heap ==> 0 < e.rseq <= rseq)
    && (forall e, f :: e in heap && f in heap && e.rseq == f.rseq ==> e == f)
  }

  ghost predicate Inv(s: State) {
    EntriesOk(s.heap, s.rseq) && forall k :: TaskOk(s, k)
  }

  /** No CANCELLED task is queued. */
  ghost predicate NoneRevived(s: State) {
    forall k :: k in s.tasks && s.tasks[k].state == CANCELLED ==> !Queued(s.tasks[k])
  }

  /** A queued task has exactly one valid entry, which carries its current key; no other task has one. */
  lemma OneValidEntry(s: State, k: Id, e: Entry)
    requires Inv(s) && k in s.tasks
    ensures e in s.heap && e.tid == k && ValidEntry(s.tasks, e) <==> Queued(s.tasks[k]) && e == KeyOf(k, s.tasks[k])
  {
    assert TaskOk(s, k);
  }

  // ---------- Enqueueing ----------

  function Enqueued(s: State, id: Id): State
    requires id in s.tasks
  {
    var t := s.tasks[id].(mark := s.rseq + 1);
    s.(tasks := s.tasks[id := t], heap := s.heap + {KeyOf(id, t)}, rseq := s.rseq + 1)
  }

  function WithTask(s: State, id: Id, t: Task): State {
    s.(tasks := s.tasks[id := t])
  }

  // ---------- Cascades ----------

  /** From a task to the tasks that have it as an unresolved dependency. */
  ghost function Unresolved(tasks: Tasks): Graph {
    map d | d in tasks :: set k | k in tasks && d in tasks[k].deps
  }

  /** Everything that waits on origin, directly or through others. */
  ghost function Downstream(tasks: Tasks, origin: Id): set<Id> {
    set k | k in tasks && k != origin && Reaches(Unresolved(tasks), origin, k)
  }

  function Swept(t: Task, st: TaskState): Task {
    t.(state := st, deps := {}, mark := 0)
  }

  ghost function SweepAll(tasks: Tasks, ids: set<Id>, st: TaskState): Tasks {
    map k | k in tasks :: if k in ids then Swept(tasks[k], st) else tasks[k]
  }

  /** One dependent of a finished task: the edge is resolved, and without edges left it is queued. */
  function Released(s: State, mid: Id, cid: Id): State {
    if cid in s.tasks && !Gone(s.tasks[cid]) && mid in s.tasks[cid].deps then
      var deps := s.tasks[cid].deps - {mid};
      if deps == {} then Enqueued(WithTask(s, cid, s.tasks[cid].(deps := {}, state := PENDING)), cid)
      else WithTask(s, cid, s.tasks[cid].(deps := deps, state := WAITING, mark := 0))
    else s
  }

  /** The dependents in watcher order. */
  function ReleaseAll(s: State, mid: Id, list: seq<Id>): State {
    if list == [] then s else Released(ReleaseAll(s, mid, list[..|list| - 1]), mid, list[|list| - 1])
  }

  /** What _wakeup_dependents leaves behind when origin has just reached a gone state. */
  ghost function Woken(s: State, origin: Id): State
    requires origin in s.tasks
  {
    var st := s.tasks[origin].state;
    if st == TaskState.DONE then ReleaseAll(s, origin, WatchersOf(s.watchers, origin))
    else s.(tasks := SweepAll(s.tasks, Downstream(s.tasks, origin), st))
  }

  // ---------- Operations ----------

  function GetOr<T>(o: Option<T>, default: T): T {
    match o
    case Some(v) => v
    case None => default
  }

  function ToSet(s: seq<Id>): set<Id> {
    set d | d in s
  }

  predicate PriorityOk(priority: Option<int>) {
    priority.Some? ==> -5 <= priority.value <= 5
  }

  /** Some dependency is in this state. */
  ghost predicate SomeIn(tasks: Tasks, deps: set<Id>, st: TaskState) {
    exists d :: d in deps && d in tasks && tasks[d].state == st
  }

  /** The most severe spreading state among the dependencies. */
  ghost function Worst(tasks: Tasks, deps: set<Id>): Option<TaskState> {
    if SomeIn(tasks, deps, FAILED) then Some(FAILED)
    else if SomeIn(tasks, deps, CANCELLED) then Some(CANCELLED)
    else if SomeIn(tasks, deps, DEPRECATED) then Some(DEPRECATED)
    else None
  }

  function Watch(watchers: map<Id, seq<Id>>, id: Id, deps: set<Id>): map<Id, seq<Id>> {
    map d | d in watchers.Keys + deps ::
      if d in deps && id !in WatchersOf(watchers, d) then WatchersOf(watchers, d) + [id] else WatchersOf(watchers, d)
  }

  /** Where a task belongs, given its dependencies: swept, waiting on the live ones, or queued. */
  ghost function Reclassified(s: State, id: Id): State
    requires id in s.tasks
  {
    var t := s.tasks[id];
    var bad := Worst(s.tasks, t.deps);
    var left := set d | d in t.deps && !(d in s.tasks && s.tasks[d].state == TaskState.DONE);
    if bad.Some? then WithTask(s, id, Swept(t, bad.value))
    else if left != {} then WithTask(s, id, t.(deps := left, state := WAITING, mark := 0))
    else if t.mark == 0 then Enqueued(WithTask(s, id, t.(deps := {}, state := PENDING)), id)
    else WithTask(s, id, t.(deps := {}, state := PENDING))
  }

  function AddError(s: State, id: Id, priority: Option<int>, deps: seq<Id>): Option<Error> {
    if !PriorityOk(priority) then Some(BadValue)
    else if id in s.tasks then Some(AlreadyExists)
    else if id in deps then Some(BadValue)
    else if exists i :: 0 <= i < |deps| && deps[i] !in s.tasks then Some(NotFound)
    else None
  }

  ghost function AfterAdd(s: State, id: Id, priority: int, due: int, deps: set<Id>): State {
    var t := Task(PENDING, priority, due, deps, 0);
    Reclassified(s.(tasks := s.tasks[id := t], watchers := Watch(s.watchers[id := []], id, deps)), id)
  }

  function UpdateError(s: State, id: Id, priority: Option<int>): Option<Error> {
    if id !in s.tasks then Some(NotFound)
    else if s.tasks[id].state == TaskState.DONE || s.tasks[id].state == FAILED || s.tasks[id].state == DEPRECATED
    then Some(NotUpdatable)
    else if !PriorityOk(priority) then Some(BadValue)
    else None
  }

  /** A new priority or due time; without unresolved dependencies the task is queued afresh. */
  function AfterUpdate(s: State, id: Id, priority: Option<int>, due: Option<int>): State
    requires id in s.tasks
  {
    var t := s.tasks[id].(priority := GetOr(priority, s.tasks[id].priority), due := GetOr(due, s.tasks[id].due));
    var written := WithTask(s, id, t);
    if (priority.Some? || due.Some?) && t.deps == {}
    then Enqueued(WithTask(s, id, t.(state := if t.state == RUNNING then PENDING else t.state)), id)
    else written
  }

  /** The queued task with the least (due, -priority, mark), if it is due; None if no queued task is due. */
  ghost predicate IsNext(tasks: Tasks, now: int, r: Option<Id>) {
    match r
    case None => forall k :: k in tasks && Queued(tasks[k]) ==> tasks[k].due > now
    case Some(id) =>
      && id in tasks && Queued(tasks[id]) && tasks[id].due <= now
      && forall k :: k in tasks && Queued(tasks[k]) && k != id ==> Before(KeyOf(id, tasks[id]), KeyOf(k, tasks[k]))
  }

  /** Some stale entries may have been dropped, but no valid one. */
  ghost predicate Pruned(s: State, heap: set<Entry>) {
    heap <= s.heap && forall e :: e in s.heap && ValidEntry(s.tasks, e) ==> e in heap
  }

  /** The least valid entry. */
  ghost predicate FirstValid(s: State, e: Entry) {
    && e in s.heap && ValidEntry(s.tasks, e)
    && forall f :: f in s.heap && ValidEntry(s.tasks, f) && f != e ==> Before(e, f)
  }

  ghost predicate Takes(s: State, now: int, heap: set<Entry>, e: Entry, s': State) {
    && FirstValid(s, e) && e.due <= now
    && s' == s.(tasks := s.tasks[e.tid := s.tasks[e.tid].(mark := 0, state := RUNNING)], heap := heap - {e})
  }

  /** next_task looks at heap entries only: it takes the least valid one if that is due. */
  ghost predicate NextStep(s: State, now: int, r: Option<Id>, s': State) {
    exists heap :: Pruned(s, heap) &&
      match r
      case None => (forall e :: e in s.heap && ValidEntry(s.tasks, e) ==> e.due > now) && s' == s.(heap := heap)
      case Some(id) => exists e: Entry :: e.tid == id && Takes(s, now, heap, e, s')
  }

  ghost function Left(s: State, id: Id, st: TaskState): State
    requires id in s.tasks
  {
    Woken(WithTask(s, id, Swept(s.tasks[id], st)), id)
  }

  // ---------- Steps ----------

  datatype Op =
    | Add(id: Id, priority: Option<int>, due: int, deps: seq<Id>)
    | Next(now: int)
    | Done(id: Id, deprecated: bool)
    | Fail(id: Id)
    | Cancel(id: Id)
    | Change(id: Id, priority: Option<int>, newDue: Option<int>)

  ghost predicate Step(s: State, op: Op, s': State) {
    match op
    case Add(id, priority, due, deps) =>
      s' == if AddError(s, id, priority, deps).None? then AfterAdd(s, id, GetOr(priority, 0), due, ToSet(deps)) else s
    case Next(now) => exists r :: NextStep(s, now, r, s')
    case Done(id, deprecated) =>
      // A finished task marked deprecated changes state before the call is refused.
      s' == if id in s.tasks && s.tasks[id].state == RUNNING
            then Left(s, id, if deprecated then DEPRECATED else TaskState.DONE)
            else if id in s.tasks && s.tasks[id].state == TaskState.DONE && deprecated then Left(s, id, DEPRECATED)
            else s
    case Fail(id) => s' == if id in s.tasks && s.tasks[id].state == RUNNING then Left(s, id, FAILED) else s
    case Cancel(id) => s' == if id in s.tasks then Left(s, id, CANCELLED) else s
    case Change(id, priority, due) =>
      s' == if UpdateError(s, id, priority).None? then AfterUpdate(s, id, priority, due) else s
  }
}

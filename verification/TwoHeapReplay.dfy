/** The two-heap scheduler driven through whole sequences of operations. */
module TwoHeapReplay {
  import opened TwoHeapModel
  import opened TwoHeapRuns
  import opened TwoHeapScheduler

  /** Every sequence of operations on a new scheduler is a run. */
  method Replay(now: int, maxTasks: nat, ops: seq<Op>) returns (s: TaskScheduler, ghost states: seq<State>)
    ensures fresh(s) && fresh(s.dueHeap) && fresh(s.futureHeap) && s.Valid()
    ensures Run(states, ops) && states[0] == State(map[], now, 0, maxTasks) && s.Model() == states[|ops|]
  {
    s := new TaskScheduler(now, maxTasks);
    states := s.PerformAll(ops);
  }
}

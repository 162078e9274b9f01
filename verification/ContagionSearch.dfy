/** The breadth-first searches of the single-heap scheduler: reachability, witnesses, failure propagation. */
module ContagionSearch {
  import opened Graphs
  import opened GraphSearch

  /** Does depId lead to taskId along existing dependency edges? */
  method WouldCreateCycle(g: Graph, taskId: Id, depId: Id) returns (yes: bool)
    ensures yes <==> Reaches(g, depId, taskId)
  {
    if depId == taskId {
      ReachesSelf(g, depId);
      return true;
    }
    ReachesSelf(g, depId);
    var visited, queue, head := {depId}, [depId], 0;
    ghost var nodes := Universe(g, depId);
    while head < |queue|
      invariant head <= |queue| && depId in visited && visited <= nodes
      invariant Explored(g, taskId, visited, queue[head..])
      invariant forall v :: v in visited ==> Reaches(g, depId, v)
      decreases nodes - visited, |queue| - head
    {
      var node := queue[head];
      ghost var rest, was := queue[head + 1..], visited;
      assert queue[head..] == [node] + rest;
      head := head + 1;
      if node == taskId {
        return true;
      }
      ghost var before := queue;
      visited, queue := Enqueue(Succ(g, node), g, depId, node, visited, queue);
      QueueMoves(before, head, queue);
      ExploredNext(g, taskId, was, before[head - 1..], node, rest, visited, queue[head..]);
      if visited != was { RoomShrinks(nodes, was, visited); }
    }
    ClosedUnderSucc(g, depId, taskId, visited);
    return false;
  }

  lemma QueueMoves(before: seq<Id>, head: nat, queue: seq<Id>)
    requires 0 < head <= |before| && before <= queue
    ensures before[head - 1..] == [before[head - 1]] + before[head..]
    ensures before[head..] <= queue[head..] && queue[head..][|before[head..]|..] == queue[|before|..]
  {
  }

  lemma QueueTail(before: seq<Id>, head: nat, queue: seq<Id>)
    requires head <= |before| && before <= queue
    ensures queue[head..] == before[head..] + queue[|before|..]
  {
  }

  /** Queues the successors of node that were not visited before. */
  method Enqueue(succ: set<Id>, ghost g: Graph, ghost root: Id, ghost node: Id, visited0: set<Id>, queue0: seq<Id>)
    returns (visited: set<Id>, queue: seq<Id>)
    requires forall v :: v in visited0 ==> Reaches(g, root, v)
    requires node in visited0 && succ == Succ(g, node)
    ensures visited == visited0 + succ && queue0 <= queue
    ensures forall v :: v in queue[|queue0|..] <==> v in visited - visited0
    ensures visited == visited0 ==> queue == queue0
    ensures forall v :: v in visited ==> Reaches(g, root, v)
  {
    visited, queue := visited0, queue0;
    var deps := succ;
    while deps != {}
      invariant deps <= succ && visited == visited0 + (succ - deps) && queue0 <= queue
      invariant forall v :: v in queue[|queue0|..] <==> v in visited - visited0
      invariant visited == visited0 ==> queue == queue0
      invariant forall v :: v in visited ==> Reaches(g, root, v)
    {
      var d :| d in deps;
      deps := deps - {d};
      if d !in visited {
        ReachesStep(g, root, node, d);
        visited := visited + {d};
        assert (queue + [d])[|queue0|..] == queue[|queue0|..] + [d];
        queue := queue + [d];
      }
    }
  }

  /** The witness for a cycle that the edge taskId to depId would close; None when there is none. */
  method WitnessPath(g: Graph, taskId: Id, depId: Id) returns (r: Option<seq<Id>>)
    requires taskId != depId
    ensures r.None? <==> !Reaches(g, depId, taskId)
    ensures r.Some? ==> ClosedWalk(g[taskId := Succ(g, taskId) + {depId}], r.value)
  {
    var parent: map<Id, Id>, visited, queue, head := map[], {depId}, [depId], 0;
    ghost var trail := map[depId := [depId]];
    ghost var nodes := Universe(g, depId);
    while head < |queue|
      invariant head <= |queue| && visited <= nodes
      invariant Trails(g, depId, taskId, visited, parent, trail)
      invariant Explored(g, taskId, visited, queue[head..])
      decreases nodes - visited, |queue| - head
    {
      var node := queue[head];
      ghost var rest, was, before := queue[head + 1..], visited, queue;
      assert queue[head..] == [node] + rest;
      head := head + 1;
      if node == taskId {
        var path := Rebuild(g, depId, taskId, visited, parent, trail, node);
        ClosesWitness(g, taskId, depId, path);
        return Some(path + [depId]);
      }
      visited, parent, trail, queue := Expand(g, depId, taskId, node, visited, parent, trail, queue);
      QueueMoves(before, head, queue);
      ExploredNext(g, taskId, was, before[head - 1..], node, rest, visited, queue[head..]);
      if visited != was { RoomShrinks(nodes, was, visited); }
    }
    ClosedUnderSucc(g, depId, taskId, visited);
    return None;
  }

  lemma ClosesWitness(g: Graph, taskId: Id, depId: Id, path: seq<Id>)
    requires WalkFromTo(g, path, depId, taskId)
    ensures ClosedWalk(g[taskId := Succ(g, taskId) + {depId}], path + [depId])
  {
  }

  // ---------- The audit with parent pointers ----------

  /** Each frame was pushed from the one below it. */
  ghost predicate ParentsOk(stack: seq<Frame>, parent: map<Id, Id>) {
    forall i :: 0 < i < |stack| ==> stack[i].node in parent && parent[stack[i].node] == stack[i - 1].node
  }

  /** Follows the parent pointers from the top of the stack down to the ancestor, and closes the cycle. */
  method ExtractCycle(descendant: Id, ancestor: Id, parent: map<Id, Id>, ghost nodes: seq<Id>, ghost k: nat)
    returns (cycle: seq<Id>)
    requires k < |nodes| && nodes[k] == ancestor && nodes[|nodes| - 1] == descendant
    requires forall i, j :: 0 <= i < j < |nodes| ==> nodes[i] != nodes[j]
    requires forall i :: 0 < i < |nodes| ==> nodes[i] in parent && parent[nodes[i]] == nodes[i - 1]
    ensures cycle == nodes[k..] + [ancestor]
  {
    var path := [descendant];
    var cur := descendant;
    ghost var j := |nodes| - 1;
    while cur != ancestor
      invariant k <= j < |nodes| && cur == nodes[j] && Reversed(path) == nodes[j..]
      decreases j
    {
      var p := parent[cur];
      assert (path + [p])[..|path|] == path;
      path := path + [p];
      cur := p;
      j := j - 1;
    }
    assert j == k;
    cycle := Reversed(path) + [ancestor];
  }

  /** A gray successor of the top of the stack: the stretch of the stack above it is a cycle. */
  method CloseCycle(ghost g: Graph, ghost color: map<Id, Color>, ghost stack: seq<Frame>, parent: map<Id, Id>, top: Id,
                    d: Id)
    returns (cycle: seq<Id>)
    requires StackOk(g, color, stack) && ParentsOk(stack, parent) && |stack| > 0
    requires top == stack[|stack| - 1].node && Gray(color, d) && d in Succ(g, top)
    ensures ClosedWalk(g, cycle)
  {
    ghost var nodes := NodesOf(stack);
    assert Gray(color, d) <==> d in nodes;
    ghost var k: nat :| k < |nodes| && nodes[k] == d;
    BackEdgeCloses(g, color, stack, k);
    cycle := ExtractCycle(top, d, parent, nodes, k);
    assert cycle == [nodes[k]] + nodes[k + 1..] + [nodes[k]];
  }

  /** The search from one root: the cycle it closes, or the colouring once all of it is black. */
  method DfsFrom(g: Graph, color0: map<Id, Color>, parent0: map<Id, Id>, root: Id, ghost finish0: map<Id, nat>,
                 ghost next0: nat)
    returns (color: map<Id, Color>, parent: map<Id, Id>, cycle: Option<seq<Id>>,
             ghost finish: map<Id, nat>, ghost next: nat)
    requires StackOk(g, color0, []) && Finished(g, color0, finish0, next0) && root !in color0
    ensures cycle.Some? ==> ClosedWalk(g, cycle.value)
    ensures cycle.None? ==> StackOk(g, color, []) && Finished(g, color, finish, next)
    ensures cycle.None? ==> color0.Keys + {root} <= color.Keys
  {
    color, parent, cycle, finish, next := color0[root := GRAY], parent0, None, finish0, next0;
    StartStack(g, color0, root);
    ghost var nodes := Universe(g, root);
    var stack := [Frame(root, Succ(g, root))];
    while |stack| > 0
      invariant StackOk(g, color, stack) && ParentsOk(stack, parent) && Finished(g, color, finish, next)
      invariant color0.Keys + {root} <= color.Keys
      decreases nodes - color.Keys, |stack|, if |stack| > 0 then stack[|stack| - 1].rest else {}
    {
      var top := stack[|stack| - 1];
      assert FrameOk(g, color, stack, |stack| - 1);
      if top.rest != {} {
        var d :| d in top.rest;
        if d !in color {
          PushWhite(g, color, stack, d);
          WhiteShrinks(g, nodes, color, top.node, d);
          ParentsPush(stack, parent, color, d, Succ(g, d));
          color := color[d := GRAY];
          parent := parent[d := top.node];
          stack := Advance(stack, d) + [Frame(d, Succ(g, d))];
        } else if color[d] == GRAY {
          var found := CloseCycle(g, color, stack, parent, top.node, d);
          cycle := Some(found);
          return;
        } else {
          SkipBlack(g, color, stack, d);
          stack := Advance(stack, d);
        }
      } else {
        PopBlack(g, color, stack, finish, next);
        color := color[top.node := BLACK];
        finish, next := finish[top.node := next], next + 1;
        stack := stack[..|stack| - 1];
      }
    }
  }

  lemma ParentsPush(stack: seq<Frame>, parent: map<Id, Id>, color: map<Id, Color>, d: Id, succ: set<Id>)
    requires |stack| > 0 && ParentsOk(stack, parent) && GrayIs(color, NodesOf(stack)) && d !in color
    ensures ParentsOk(Advance(stack, d) + [Frame(d, succ)], parent[d := stack[|stack| - 1].node])
  {
    var r, n := Advance(stack, d) + [Frame(d, succ)], |stack|;
    var parent1 := parent[d := stack[n - 1].node];
    forall i | 0 < i < |r| ensures r[i].node in parent1 && parent1[r[i].node] == r[i - 1].node {
      if i < n {
        assert NodesOf(stack)[i] in NodesOf(stack);
        assert Gray(color, stack[i].node);
      }
    }
  }

  /** Full-graph audit: None exactly when the graph is acyclic, else a closed walk. */
  method FindCycleByParents(g: Graph) returns (r: Option<seq<Id>>)
    ensures r.None? <==> Acyclic(g)
    ensures r.Some? ==> ClosedWalk(g, r.value)
  {
    var color: map<Id, Color>, parent: map<Id, Id> := map[], map[];
    ghost var finish: map<Id, nat>, next := map[], 0;
    var ids := g.Keys;
    while ids != {}
      invariant StackOk(g, color, []) && Finished(g, color, finish, next)
      invariant g.Keys - ids <= color.Keys
    {
      var id :| id in ids;
      ids := ids - {id};
      if id in color {
        continue;
      }
      var cycle;
      color, parent, cycle, finish, next := DfsFrom(g, color, parent, id, finish, next);
      if cycle.Some? {
        return cycle;
      }
    }
    forall v | v in g ensures Black(color, v) { NoGrayLeft(g, color, v); }
    RankedAcyclic(g, color, finish, next);
    return None;
  }
}

/** The searches over the dependency graph: paths, and the three-colour cycle audits. */
module GraphSearch {
  import opened Graphs

  ghost function Nodes(g: Graph): set<Id> {
    g.Keys + set v, w | v in g && w in g[v] :: w
  }

  /** Everything a search from root can meet. */
  lemma Universe(g: Graph, root: Id) returns (nodes: set<Id>)
    ensures root in nodes && forall v :: Succ(g, v) <= nodes
  {
    nodes := Nodes(g) + {root};
  }

  function Reversed(s: seq<Id>): (r: seq<Id>)
    ensures |r| == |s|
  {
    if s == [] then [] else [s[|s| - 1]] + Reversed(s[..|s| - 1])
  }

  /** The walk meets v only at its end. */
  ghost predicate Shuns(p: seq<Id>, v: Id) {
    forall i :: 0 <= i < |p| - 1 ==> p[i] != v
  }

  /** v was reached by this walk from the root, which goes through v's parent and does not pass the target. */
  ghost predicate Trail(g: Graph, root: Id, target: Id, seen: set<Id>, parent: map<Id, Id>, trail: map<Id, seq<Id>>,
                        v: Id) {
    && v in trail && WalkFromTo(g, trail[v], root, v) && Shuns(trail[v], target)
    && (if v == root then trail[v] == [root]
        else v in parent && parent[v] in seen && parent[v] in trail && trail[v] == trail[parent[v]] + [v])
  }

  ghost predicate Trails(g: Graph, root: Id, target: Id, seen: set<Id>, parent: map<Id, Id>, trail: map<Id, seq<Id>>) {
    root in seen && forall v :: v in seen ==> Trail(g, root, target, seen, parent, trail, v)
  }

  lemma TrailsExtend(g: Graph, root: Id, target: Id, seen: set<Id>, parent: map<Id, Id>, trail: map<Id, seq<Id>>,
                     v: Id, d: Id)
    requires Trails(g, root, target, seen, parent, trail)
    requires v in seen && v != target && d !in seen && d in Succ(g, v)
    ensures Trails(g, root, target, seen + {d}, parent[d := v], trail[d := trail[v] + [d]])
  {
  }

  /** Follows the parent pointers back to the root and turns the result round. */
  method Rebuild(ghost g: Graph, root: Id, ghost target: Id, ghost seen: set<Id>, parent: map<Id, Id>,
                 ghost trail: map<Id, seq<Id>>, node: Id)
    returns (path: seq<Id>)
    requires Trails(g, root, target, seen, parent, trail) && node in seen
    ensures WalkFromTo(g, path, root, node) && Shuns(path, target)
  {
    path := [node];
    var cur := node;
    assert Trail(g, root, target, seen, parent, trail, cur);
    while cur != root
      invariant cur in seen && Trail(g, root, target, seen, parent, trail, cur)
      invariant trail[node] == trail[cur][..|trail[cur]| - 1] + Reversed(path)
      decreases |trail[cur]|
    {
      var p := parent[cur];
      assert Trail(g, root, target, seen, parent, trail, p);
      assert (path + [p])[..|path|] == path;
      path := path + [p];
      cur := p;
    }
    path := Reversed(path);
    assert path == trail[node];
    assert Trail(g, root, target, seen, parent, trail, node);
  }

  /** What has been seen has been expanded, except for what still waits on the stack. */
  ghost predicate Explored(g: Graph, to: Id, seen: set<Id>, stack: seq<Id>) {
    && (forall v :: v in stack ==> v in seen)
    && forall v :: v in seen && v !in stack ==> v != to && Succ(g, v) <= seen
  }

  lemma PushedTail(stack0: seq<Id>, stack: seq<Id>, dep: Id)
    requires stack0 <= stack
    ensures stack0 <= stack + [dep]
    ensures forall v :: v in (stack + [dep])[|stack0|..] <==> v in stack[|stack0|..] || v == dep
  {
    assert (stack + [dep])[|stack0|..] == stack[|stack0|..] + [dep];
  }

  /** Pushes the successors of node that were not seen before. */
  method Expand(g: Graph, ghost root: Id, ghost to: Id, node: Id, seen0: set<Id>, parent0: map<Id, Id>,
                ghost trail0: map<Id, seq<Id>>, stack0: seq<Id>)
    returns (seen: set<Id>, parent: map<Id, Id>, ghost trail: map<Id, seq<Id>>, stack: seq<Id>)
    requires Trails(g, root, to, seen0, parent0, trail0) && node in seen0 && node != to
    ensures Trails(g, root, to, seen, parent, trail) && seen == seen0 + Succ(g, node)
    ensures stack0 <= stack && forall v :: v in stack[|stack0|..] <==> v in seen - seen0
    ensures seen == seen0 ==> stack == stack0
  {
    seen, parent, trail, stack := seen0, parent0, trail0, stack0;
    var deps := Succ(g, node);
    ghost var read: set<Id> := {};
    while deps != {}
      invariant Trails(g, root, to, seen, parent, trail) && node in seen
      invariant read + deps == Succ(g, node) && seen == seen0 + read
      invariant stack0 <= stack && forall v :: v in stack[|stack0|..] <==> v in seen && v !in seen0
      invariant seen == seen0 ==> stack == stack0
    {
      var dep :| dep in deps;
      deps, read := deps - {dep}, read + {dep};
      if dep !in seen {
        TrailsExtend(g, root, to, seen, parent, trail, node, dep);
        trail := trail[dep := trail[node] + [dep]];
        seen := seen + {dep};
        parent := parent[dep := node];
        PushedTail(stack0, stack, dep);
        stack := stack + [dep];
      }
    }
  }

  /** One node is taken from the pending ones and its new successors are put behind them. */
  lemma ExploredNext(g: Graph, to: Id, seen: set<Id>, pending: seq<Id>, node: Id, rest: seq<Id>,
                     seen1: set<Id>, pending1: seq<Id>)
    requires Explored(g, to, seen, pending) && (pending == rest + [node] || pending == [node] + rest)
    requires node != to && seen1 == seen + Succ(g, node)
    requires rest <= pending1 && forall v :: v in pending1[|rest|..] <==> v in seen1 - seen
    ensures Explored(g, to, seen1, pending1)
  {
    assert forall v :: v in pending <==> v == node || v in rest;
    assert pending1 == rest + pending1[|rest|..];
  }

  lemma RoomShrinks(nodes: set<Id>, seen: set<Id>, seen1: set<Id>)
    requires seen <= seen1 <= nodes && seen != seen1
    ensures nodes - seen1 < nodes - seen
  {
  }

  /** Iterative reachability along dependency edges, with the path as witness. */
  method DepPath(g: Graph, from: Id, to: Id) returns (r: Option<seq<Id>>)
    ensures r.None? <==> !Reaches(g, from, to)
    ensures r.Some? ==> WalkFromTo(g, r.value, from, to) && Shuns(r.value, to)
  {
    var parent: map<Id, Id> := map[];
    var seen := {from};
    var stack := [from];
    ghost var trail := map[from := [from]];
    ghost var nodes := Universe(g, from);
    while |stack| > 0
      invariant Trails(g, from, to, seen, parent, trail) && seen <= nodes
      invariant Explored(g, to, seen, stack)
      decreases nodes - seen, |stack|
    {
      var node := stack[|stack| - 1];
      var rest := stack[..|stack| - 1];
      ghost var before := stack;
      assert stack == rest + [node];
      if node == to {
        var path := Rebuild(g, from, to, seen, parent, trail, node);
        return Some(path);
      }
      ghost var was := seen;
      seen, parent, trail, stack := Expand(g, from, to, node, seen, parent, trail, rest);
      ExploredNext(g, to, was, before, node, rest, seen, stack);
      if seen != was { RoomShrinks(nodes, was, seen); }
    }
    ClosedUnderSucc(g, from, to, seen);
    return None;
  }

  lemma {:induction false} StaysInside(g: Graph, p: seq<Id>, S: set<Id>)
    requires Walk(g, p) && p[0] in S && forall v :: v in S ==> Succ(g, v) <= S
    ensures p[|p| - 1] in S
  {
    if |p| > 1 {
      assert p[1] in Succ(g, p[0]);
      assert Walk(g, p[1..]);
      StaysInside(g, p[1..], S);
    }
  }

  lemma ClosedUnderSucc(g: Graph, from: Id, to: Id, S: set<Id>)
    requires from in S && to !in S && forall v :: v in S ==> Succ(g, v) <= S
    ensures !Reaches(g, from, to)
  {
    forall p | WalkFromTo(g, p, from, to) ensures false {
      StaysInside(g, p, S);
    }
  }

  // ---------- The three-colour audit ----------

  /** A node without a colour is WHITE. */
  datatype Color = GRAY | BLACK

  datatype Frame = Frame(node: Id, rest: set<Id>)

  predicate Gray(color: map<Id, Color>, v: Id) {
    v in color && color[v] == GRAY
  }

  predicate Black(color: map<Id, Color>, v: Id) {
    v in color && color[v] == BLACK
  }

  /** Black nodes only lead to black nodes that were finished before them. */
  ghost predicate Finished(g: Graph, color: map<Id, Color>, finish: map<Id, nat>, next: nat) {
    forall v :: Black(color, v) ==>
      && v in finish && finish[v] < next
      && forall d :: d in Succ(g, v) ==> Black(color, d) && d in finish && finish[d] < finish[v]
  }

  function NodesOf(stack: seq<Frame>): (r: seq<Id>)
    ensures |r| == |stack|
    ensures forall i :: 0 <= i < |stack| ==> r[i] == stack[i].node
  {
    seq(|stack|, i requires 0 <= i < |stack| => stack[i].node)
  }

  /** Frame i has only its unread successors, the black ones and the next frame's node ahead of it. */
  ghost predicate FrameOk(g: Graph, color: map<Id, Color>, stack: seq<Frame>, i: nat)
    requires i < |stack|
  {
    && stack[i].rest <= Succ(g, stack[i].node)
    && (i + 1 < |stack| ==> stack[i + 1].node in Succ(g, stack[i].node))
    && forall d :: d in Succ(g, stack[i].node) && d !in stack[i].rest ==>
         Black(color, d) || (i + 1 < |stack| && d == stack[i + 1].node)
  }

  ghost predicate FramesOk(g: Graph, color: map<Id, Color>, stack: seq<Frame>) {
    forall i :: 0 <= i < |stack| ==> FrameOk(g, color, stack, i)
  }

  /** The gray nodes are the nodes on the stack, each once. */
  ghost predicate GrayIs(color: map<Id, Color>, nodes: seq<Id>) {
    && (forall v :: Gray(color, v) <==> v in nodes)
    && (forall i, j :: 0 <= i < j < |nodes| ==> nodes[i] != nodes[j])
  }

  ghost predicate StackOk(g: Graph, color: map<Id, Color>, stack: seq<Frame>) {
    GrayIs(color, NodesOf(stack)) && FramesOk(g, color, stack)
  }

  /** The stack after dep has been read from its top frame. */
  function Advance(stack: seq<Frame>, dep: Id): (r: seq<Frame>)
    requires |stack| > 0
    ensures |r| == |stack| && NodesOf(r) == NodesOf(stack)
  {
    var n := |stack| - 1;
    stack[n := Frame(stack[n].node, stack[n].rest - {dep})]
  }

  lemma GrayPush(color: map<Id, Color>, nodes: seq<Id>, v: Id)
    requires GrayIs(color, nodes) && v !in color
    ensures GrayIs(color[v := GRAY], nodes + [v])
  {
    var after := color[v := GRAY];
    assert !Gray(color, v) && v !in nodes;
    forall w ensures Gray(after, w) <==> w in nodes + [v] {
      assert Gray(color, w) <==> w in nodes;
    }
  }

  lemma GrayPop(color: map<Id, Color>, nodes: seq<Id>)
    requires GrayIs(color, nodes) && |nodes| > 0
    ensures GrayIs(color[nodes[|nodes| - 1] := BLACK], nodes[..|nodes| - 1])
  {
    var v := nodes[|nodes| - 1];
    var after := color[v := BLACK];
    forall w ensures Gray(after, w) <==> w in nodes[..|nodes| - 1] {
      assert Gray(color, w) <==> w in nodes;
      assert nodes == nodes[..|nodes| - 1] + [v];
    }
  }

  lemma StartStack(g: Graph, color: map<Id, Color>, v: Id)
    requires StackOk(g, color, []) && v !in color
    ensures StackOk(g, color[v := GRAY], [Frame(v, Succ(g, v))])
  {
    GrayPush(color, [], v);
    assert NodesOf([Frame(v, Succ(g, v))]) == [] + [v];
  }

  lemma SkipBlack(g: Graph, color: map<Id, Color>, stack: seq<Frame>, dep: Id)
    requires StackOk(g, color, stack) && |stack| > 0 && Black(color, dep)
    ensures StackOk(g, color, Advance(stack, dep))
  {
    var r := Advance(stack, dep);
    forall i | 0 <= i < |r| ensures FrameOk(g, color, r, i) {
      assert FrameOk(g, color, stack, i);
    }
  }

  lemma PushWhite(g: Graph, color: map<Id, Color>, stack: seq<Frame>, dep: Id)
    requires StackOk(g, color, stack) && |stack| > 0
    requires dep !in color && dep in stack[|stack| - 1].rest
    ensures StackOk(g, color[dep := GRAY], Advance(stack, dep) + [Frame(dep, Succ(g, dep))])
  {
    var n := |stack|;
    var r := Advance(stack, dep) + [Frame(dep, Succ(g, dep))];
    GrayPush(color, NodesOf(stack), dep);
    assert NodesOf(r) == NodesOf(stack) + [dep];
    var after := color[dep := GRAY];
    forall i | 0 <= i < |r| ensures FrameOk(g, after, r, i) {
      if i < n { assert FrameOk(g, color, stack, i); }
    }
  }

  lemma PopBlack(g: Graph, color: map<Id, Color>, stack: seq<Frame>, finish: map<Id, nat>, next: nat)
    requires StackOk(g, color, stack) && Finished(g, color, finish, next)
    requires |stack| > 0 && stack[|stack| - 1].rest == {}
    ensures var v := stack[|stack| - 1].node;
      && StackOk(g, color[v := BLACK], stack[..|stack| - 1])
      && Finished(g, color[v := BLACK], finish[v := next], next + 1)
  {
    var n := |stack| - 1;
    var v := stack[n].node;
    var r := stack[..n];
    var after := color[v := BLACK];
    GrayPop(color, NodesOf(stack));
    assert NodesOf(r) == NodesOf(stack)[..n];
    forall i | 0 <= i < n ensures FrameOk(g, after, r, i) {
      assert FrameOk(g, color, stack, i);
    }
    assert FrameOk(g, color, stack, n);
    assert NodesOf(stack)[n] == v && Gray(color, v);
  }

  /** A gray successor of the top closes the part of the stack above it. */
  lemma BackEdgeCloses(g: Graph, color: map<Id, Color>, stack: seq<Frame>, k: nat)
    requires StackOk(g, color, stack) && k < |stack| && stack[k].node in Succ(g, stack[|stack| - 1].node)
    ensures var path := NodesOf(stack);
      ClosedWalk(g, [path[k]] + path[k + 1..] + [path[k]])
  {
    var path := NodesOf(stack);
    forall i | 0 <= i < |path| - 1 ensures path[i + 1] in Succ(g, path[i]) {
      assert FrameOk(g, color, stack, i);
    }
  }

  /** A ranking that falls along every edge rules out closed walks. */
  lemma RankedAcyclic(g: Graph, color: map<Id, Color>, finish: map<Id, nat>, next: nat)
    requires Finished(g, color, finish, next) && forall v :: v in g ==> Black(color, v)
    ensures Acyclic(g)
  {
    forall p | ClosedWalk(g, p) ensures false {
      assert p[0 + 1] in Succ(g, p[0]);
      Falling(g, color, finish, next, p);
    }
  }

  lemma {:induction false} Falling(g: Graph, color: map<Id, Color>, finish: map<Id, nat>, next: nat, p: seq<Id>)
    requires Finished(g, color, finish, next) && Walk(g, p) && Black(color, p[0])
    ensures Black(color, p[|p| - 1])
    ensures p[|p| - 1] in finish && p[0] in finish && (|p| > 1 ==> finish[p[|p| - 1]] < finish[p[0]])
  {
    if |p| > 1 {
      assert p[0 + 1] in Succ(g, p[0]);
      assert Walk(g, p[1..]);
      Falling(g, color, finish, next, p[1..]);
    }
  }

  /** Colouring a white successor leaves fewer nodes uncoloured. */
  lemma WhiteShrinks(g: Graph, nodes: set<Id>, color: map<Id, Color>, v: Id, dep: Id)
    requires dep in Succ(g, v) && Succ(g, v) <= nodes && dep !in color
    ensures nodes - color[dep := GRAY].Keys < nodes - color.Keys
  {
    assert dep in nodes - color.Keys && dep !in nodes - color[dep := GRAY].Keys;
  }

  method IndexOf(path: seq<Id>, v: Id) returns (k: nat)
    requires v in path
    ensures k < |path| && path[k] == v
  {
    k := 0;
    while path[k] != v
      invariant k < |path| && v in path[k..]
      decreases |path| - k
    {
      k := k + 1;
    }
  }

  /** The search from one start node: the cycle it closes, or the colouring once all of it is black. */
  method Explore(g: Graph, color0: map<Id, Color>, start: Id, ghost finish0: map<Id, nat>, ghost next0: nat)
    returns (color: map<Id, Color>, cycle: Option<seq<Id>>, ghost finish: map<Id, nat>, ghost next: nat)
    requires StackOk(g, color0, []) && Finished(g, color0, finish0, next0) && start !in color0
    ensures cycle.Some? ==> ClosedWalk(g, cycle.value)
    ensures cycle.None? ==> StackOk(g, color, []) && Finished(g, color, finish, next)
    ensures cycle.None? ==> color0.Keys + {start} <= color.Keys
  {
    color, cycle, finish, next := color0[start := GRAY], None, finish0, next0;
    StartStack(g, color0, start);
    ghost var nodes := Universe(g, start);
    var stack := [Frame(start, Succ(g, start))];
    while |stack| > 0
      invariant StackOk(g, color, stack) && Finished(g, color, finish, next)
      invariant color0.Keys + {start} <= color.Keys
      decreases nodes - color.Keys, |stack|, if |stack| > 0 then stack[|stack| - 1].rest else {}
    {
      var top := stack[|stack| - 1];
      assert FrameOk(g, color, stack, |stack| - 1);
      if top.rest != {} {
        var dep :| dep in top.rest;
        if Gray(color, dep) {
          var path := NodesOf(stack);
          var k := IndexOf(path, dep);
          BackEdgeCloses(g, color, stack, k);
          cycle := Some([dep] + path[k + 1..] + [dep]);
          return;
        }
        if dep !in color {
          PushWhite(g, color, stack, dep);
          WhiteShrinks(g, nodes, color, top.node, dep);
          color := color[dep := GRAY];
          stack := Advance(stack, dep) + [Frame(dep, Succ(g, dep))];
        } else {
          SkipBlack(g, color, stack, dep);
          stack := Advance(stack, dep);
        }
      } else {
        PopBlack(g, color, stack, finish, next);
        color := color[top.node := BLACK];
        finish, next := finish[top.node := next], next + 1;
        stack := stack[..|stack| - 1];
      }
    }
  }

  lemma NoGrayLeft(g: Graph, color: map<Id, Color>, v: Id)
    requires StackOk(g, color, []) && v in color
    ensures Black(color, v)
  {
    assert Gray(color, v) <==> v in NodesOf([]);
  }

  /** Iterative three-colour depth-first search over the forward edges. */
  method FindCycle(g: Graph) returns (r: Option<seq<Id>>)
    ensures r.None? <==> Acyclic(g)
    ensures r.Some? ==> ClosedWalk(g, r.value)
  {
    var color: map<Id, Color> := map[];
    ghost var finish: map<Id, nat>, next := map[], 0;
    var starts := g.Keys;
    while starts != {}
      invariant StackOk(g, color, []) && Finished(g, color, finish, next)
      invariant g.Keys - starts <= color.Keys
    {
      var start :| start in starts;
      starts := starts - {start};
      if Black(color, start) {
        continue;
      }
      assert start !in color by { if start in color { NoGrayLeft(g, color, start); } }
      var cycle;
      color, cycle, finish, next := Explore(g, color, start, finish, next);
      if cycle.Some? {
        return cycle;
      }
    }
    forall v | v in g ensures Black(color, v) { NoGrayLeft(g, color, v); }
    RankedAcyclic(g, color, finish, next);
    return None;
  }
}

/** Task ids and the dependency graphs drawn over them. */
module Graphs {

  type Id = string

  datatype Option<+T> = None | Some(value: T)

  /** Outgoing edges by node.  A node without an entry has no outgoing edges. */
  type Graph = map<Id, set<Id>>

  function Succ(g: Graph, v: Id): set<Id> {
    if v in g then g[v] else {}
  }

  ghost predicate Walk(g: Graph, p: seq<Id>) {
    && |p| > 0
    && forall i :: 0 <= i < |p| - 1 ==> p[i + 1] in Succ(g, p[i])
  }

  ghost predicate WalkFromTo(g: Graph, p: seq<Id>, a: Id, b: Id) {
    Walk(g, p) && p[0] == a && p[|p| - 1] == b
  }

  /** b is a, or can be reached from a along edges. */
  ghost predicate Reaches(g: Graph, a: Id, b: Id) {
    exists p :: WalkFromTo(g, p, a, b)
  }

  /** A closed walk: at least one edge, and back where it started. */
  ghost predicate ClosedWalk(g: Graph, p: seq<Id>) {
    |p| >= 2 && Walk(g, p) && p[0] == p[|p| - 1]
  }

  ghost predicate Acyclic(g: Graph) {
    forall p :: !ClosedWalk(g, p)
  }

  lemma ReachesSelf(g: Graph, a: Id)
    ensures Reaches(g, a, a)
  {
    assert WalkFromTo(g, [a], a, a);
  }

  lemma ReachesStep(g: Graph, a: Id, b: Id, c: Id)
    requires Reaches(g, a, b) && c in Succ(g, b)
    ensures Reaches(g, a, c)
  {
    var p :| WalkFromTo(g, p, a, b);
    assert WalkFromTo(g, p + [c], a, c);
  }

  lemma StepReaches(g: Graph, a: Id, b: Id, c: Id)
    requires b in Succ(g, a) && Reaches(g, b, c)
    ensures Reaches(g, a, c)
  {
    var p :| WalkFromTo(g, p, b, c);
    assert WalkFromTo(g, [a] + p, a, c);
  }

  lemma EdgeBackCloses(g: Graph, a: Id, b: Id)
    requires b in Succ(g, a) && Reaches(g, b, a)
    ensures !Acyclic(g)
  {
    var p :| WalkFromTo(g, p, b, a);
    assert ClosedWalk(g, [a] + p);
  }

  lemma ReachedIsListed(g: Graph, a: Id, b: Id) returns (v: Id)
    requires Reaches(g, a, b) && a != b
    ensures b in Succ(g, v)
  {
    var p :| WalkFromTo(g, p, a, b);
    var n := |p| - 2;
    v := p[n];
    assert p[n + 1] in Succ(g, p[n]);
  }

  lemma UnlistedUnreached(g: Graph, a: Id, b: Id)
    requires a != b && forall v :: b !in Succ(g, v)
    ensures !Reaches(g, a, b)
  {
    if Reaches(g, a, b) { var v := ReachedIsListed(g, a, b); }
  }

  lemma EmptyAcyclic()
    ensures Acyclic(map[])
  {
    forall p ensures !ClosedWalk(map[], p) {
      assert |p| >= 2 ==> p[0 + 1] !in Succ(map[], p[0]);
    }
  }

  lemma SmallerSet(a: set<Id>, b: set<Id>, id: Id)
    requires id in b && a <= b - {id}
    ensures |a| < |b| && a < b
  {
    assert b == a + (b - a) && id in b - a;
  }

  /** g and h have the same edges, except perhaps those leaving v. */
  ghost predicate SameExceptFrom(g: Graph, h: Graph, v: Id) {
    forall u :: u != v ==> Succ(g, u) == Succ(h, u)
  }

  /** What reaches v does so without using v's own edges. */
  lemma {:induction false} ReachWithoutOwnEdges(g: Graph, h: Graph, v: Id, p: seq<Id>)
    requires SameExceptFrom(g, h, v)
    requires Walk(g, p) && p[|p| - 1] == v
    ensures Reaches(h, p[0], v)
    decreases |p|
  {
    if p[0] == v {
      ReachesSelf(h, v);
    } else {
      assert Walk(g, p[1..]);
      ReachWithoutOwnEdges(g, h, v, p[1..]);
      StepReaches(h, p[0], p[1], v);
    }
  }

  /** A closed walk, entered behind its i-th node and followed once round to that node. */
  lemma Turned(g: Graph, p: seq<Id>, i: nat) returns (q: seq<Id>)
    requires ClosedWalk(g, p) && i < |p| - 1
    ensures Walk(g, q) && q[0] == p[i + 1] && q[|q| - 1] == p[i]
  {
    var n := |p| - 1 - i;
    q := p[i + 1..] + p[1..i + 1];
    forall j | 0 <= j < |q| - 1 ensures q[j + 1] in Succ(g, q[j]) {
      var m := if j < n then i + 1 + j else j - n + 1;
      assert j != n - 1 ==> q[j] == p[m] && q[j + 1] == p[m + 1];
      assert j == n - 1 ==> q[j] == p[0] && q[j + 1] == p[0 + 1];
    }
  }

  /**
   * Giving v the outgoing edges D keeps an acyclic graph acyclic exactly when no member of D
   * reaches v in the graph as it was.
   */
  lemma ReplaceEdges(g: Graph, v: Id, D: set<Id>)
    requires Acyclic(g)
    ensures Acyclic(g[v := D]) <==> forall d :: d in D ==> !Reaches(g, d, v)
  {
    var h := g[v := D];
    if d :| d in D && Reaches(g, d, v) {
      var p :| WalkFromTo(g, p, d, v);
      ReachWithoutOwnEdges(g, h, v, p);
      EdgeBackCloses(h, v, d);
    } else if p :| ClosedWalk(h, p) {
      if i :| 0 <= i < |p| - 1 && p[i] == v {
        var q := Turned(h, p, i);
        ReachWithoutOwnEdges(h, g, v, q);
        assert false;
      } else {
        assert ClosedWalk(g, p);
        assert false;
      }
    }
  }

  /** Dropping edges keeps a graph acyclic. */
  lemma SubgraphAcyclic(g: Graph, h: Graph)
    requires Acyclic(g)
    requires forall u :: Succ(h, u) <= Succ(g, u)
    ensures Acyclic(h)
  {
    forall p ensures !ClosedWalk(h, p) {
      if ClosedWalk(h, p) { assert ClosedWalk(g, p); }
    }
  }

  /** A nonempty set of nodes of an acyclic graph has a member with no edge into the set. */
  lemma {:induction false} SinkExists(g: Graph, S: set<Id>) returns (v: Id)
    requires Acyclic(g) && S != {}
    ensures v in S && Succ(g, v) !! S
    decreases S
  {
    v :| v in S;
    if d :| d in Succ(g, v) && d in S {
      var R := set w | w in S && exists e :: e in Succ(g, v) && Reaches(g, e, w);
      ReachesSelf(g, d);
      assert d in R;
      if v in R {
        var e :| e in Succ(g, v) && Reaches(g, e, v);
        EdgeBackCloses(g, v, e);
      }
      assert R < S;
      var w := SinkExists(g, R);
      var e :| e in Succ(g, v) && Reaches(g, e, w);
      forall x | x in Succ(g, w) ensures x !in S {
        ReachesStep(g, e, w, x);
      }
      v := w;
    }
  }
}

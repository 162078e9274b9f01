/** Counting the edges of a graph, and how the count moves with one node. */
module Tallies {
  import opened Graphs

  /** The sum of the out-degrees. */
  ghost function EdgeCount(g: Graph): nat {
    if g == map[] then 0
    else
      var k :| k in g;
      |g[k]| + EdgeCount(g - {k})
  }

  lemma {:induction false} EdgeCountDrop(g: Graph, k: Id)
    requires k in g
    ensures EdgeCount(g) == |g[k]| + EdgeCount(g - {k})
    decreases |g|
  {
    var j :| j in g && EdgeCount(g) == |g[j]| + EdgeCount(g - {j});
    if j != k {
      EdgeCountDrop(g - {j}, k);
      EdgeCountDrop(g - {k}, j);
      assert g - {j} - {k} == g - {k} - {j};
    }
  }

  lemma EdgeCountSet(g: Graph, k: Id, D: set<Id>)
    ensures EdgeCount(g[k := D]) == EdgeCount(g) - |Succ(g, k)| + |D|
  {
    var h := g[k := D];
    EdgeCountDrop(h, k);
    assert h - {k} == g - {k};
    if k in g { EdgeCountDrop(g, k); } else { assert g - {k} == g; }
  }
}

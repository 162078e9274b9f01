/** The two-heap scheduler's binary heap: entries in an array, and a map from entry id to slot. */
module IndexedHeap {
  import opened Graphs
  import opened HeapOrder

  /** What the heap holds of a task: its id and the three key fields. */
  datatype Entry = Entry(id: Id, priority: int, executeTime: int, sequence: nat)

  ghost predicate Comparator(before: (Entry, Entry) -> bool) {
    && (forall a, b :: before(a, b) ==> !before(b, a))
    && (forall a, b, c :: !before(a, b) && !before(b, c) ==> !before(a, c))
  }

  /** The position map sends exactly the ids present, each to its one slot. */
  ghost predicate Indexed(items: seq<Entry>, positions: map<Id, nat>) {
    && (forall i :: 0 <= i < |items| ==> items[i].id in positions && positions[items[i].id] == i)
    && (forall id :: id in positions ==> positions[id] < |items| && items[positions[id]].id == id)
  }

  ghost predicate DistinctIds(items: seq<Entry>) {
    forall i, j :: 0 <= i < j < |items| ==> items[i].id != items[j].id
  }

  ghost predicate UniqueIds(es: set<Entry>) {
    forall a, b :: a in es && b in es && a.id == b.id ==> a == b
  }

  /** e is in the set and nothing in the set beats it. */
  ghost predicate IsBest(before: (Entry, Entry) -> bool, e: Entry, es: set<Entry>) {
    e in es && forall f :: f in es ==> !before(f, e)
  }

  lemma WithoutContents(items: seq<Entry>, positions: map<Id, nat>, idx: nat)
    requires idx < |items| && Indexed(items, positions)
    ensures Elements(Without(items, idx)) == Elements(items) - {items[idx]}
  {
    var r := Without(items, idx);
    forall e | e in Elements(items) - {items[idx]} ensures e in r {
      var k :| 0 <= k < |items| && items[k] == e;
      assert r[if k == |r| then idx else k] == e;
    }
    forall k | 0 <= k < |r| ensures r[k] in Elements(items) - {items[idx]} {
      assert r[k] == items[if k == idx then |r| else k];
    }
  }

  /** Filling a hole with the last entry leaves it either too low or too high there, never both. */
  lemma FilledHole(items: seq<Entry>, before: (Entry, Entry) -> bool, idx: nat)
    requires Comparator(before) && Ordered(items, before, 0) && idx < |items| - 1
    ensures var r := Without(items, idx);
      if idx > 0 && before(r[idx], r[Parent(idx)]) then MayRise(r, before, idx) else MaySink(r, before, 0, idx)
  {
    var r := Without(items, idx);
    forall k | 0 < k < |r| && k != idx && Parent(k) != idx ensures Settled(r, before, k) {
      assert Settled(items, before, k);
    }
    if idx > 0 {
      assert Settled(items, before, idx);
      forall k | (k == 2 * idx + 1 || k == 2 * idx + 2) && k < |r|
        ensures !before(r[k], r[Parent(idx)])
        ensures before(r[idx], r[Parent(idx)]) ==> !before(r[k], r[idx])
      {
        assert Settled(items, before, k);
      }
    }
  }

  lemma Membership(items: seq<Entry>, positions: map<Id, nat>, id: Id)
    requires Indexed(items, positions)
    ensures id in positions ==> items[positions[id]] in Elements(items)
    ensures id in positions <==> exists e :: e in Elements(items) && e.id == id
    ensures UniqueIds(Elements(items))
  {
  }

  lemma RootIsBestEntry(items: seq<Entry>, before: (Entry, Entry) -> bool)
    requires Comparator(before) && Ordered(items, before, 0) && |items| > 0
    ensures IsBest(before, items[0], Elements(items))
  {
    forall e | e in items ensures !before(e, items[0]) {
      var i :| 0 <= i < |items| && items[i] == e;
      RootIsBest(items, before, i);
    }
  }

  lemma LastRemoved(items: seq<Entry>, before: (Entry, Entry) -> bool)
    requires Ordered(items, before, 0) && |items| > 0
    ensures Ordered(Without(items, |items| - 1), before, 0)
  {
  }

  /** The same entries in another order. */
  ghost predicate Rearranged(was: seq<Entry>, items: seq<Entry>) {
    Permuted(was, items) && (DistinctIds(items) <==> DistinctIds(was))
  }

  lemma SwapRearranges(items: seq<Entry>, i: nat, j: nat)
    requires i < |items| && j < |items|
    ensures Rearranged(items, Swapped(items, i, j))
  {
    var r := Swapped(items, i, j);
    SwapPermutes(items, i, j);
    forall k, l | 0 <= k < l < |items|
      ensures DistinctIds(items) ==> r[k].id != r[l].id
      ensures DistinctIds(r) ==> items[k].id != items[l].id
    {
      var k1 := if k == i then j else if k == j then i else k;
      var l1 := if l == i then j else if l == j then i else l;
      assert r[k] == items[k1] && r[l] == items[l1] && items[k] == r[k1] && items[l] == r[l1] && k1 != l1;
    }
  }

  lemma SwapIndexed(items: seq<Entry>, positions: map<Id, nat>, i: nat, j: nat)
    requires i < |items| && j < |items| && Indexed(items, positions)
    ensures Indexed(Swapped(items, i, j), positions[items[i].id := j][items[j].id := i])
  {
  }

  lemma IndexedDistinct(items: seq<Entry>, positions: map<Id, nat>)
    requires Indexed(items, positions)
    ensures DistinctIds(items)
  {
  }

  class BinaryHeap {
    const before: (Entry, Entry) -> bool
    var items: seq<Entry>
    var positions: map<Id, nat>

    ghost predicate Valid()
      reads this
    {
      Comparator(before) && Indexed(items, positions) && Ordered(items, before, 0)
    }

    ghost function Contents(): (es: set<Entry>)
      reads this
    {
      Elements(items)
    }

    constructor (before: (Entry, Entry) -> bool)
      requires Comparator(before)
      ensures Valid() && this.before == before && Contents() == {}
    {
      this.before := before;
      items := [];
      positions := map[];
    }

    /** The best entry, left in place. */
    method Peek() returns (top: Option<Entry>)
      requires Valid()
      ensures top == None <==> Contents() == {}
      ensures top.Some? ==> IsBest(before, top.value, Contents())
    {
      if |items| == 0 {
        return None;
      }
      RootIsBestEntry(items, before);
      return Some(items[0]);
    }

    predicate Contains(id: Id)
      requires Valid()
      reads this
      ensures Contains(id) <==> exists e :: e in Contents() && e.id == id
    {
      Membership(items, positions, id);
      id in positions
    }

    /** Adds an entry; refuses, changing nothing, when its id is already present. */
    method Push(e: Entry) returns (ok: bool)
      requires Valid()
      modifies this
      ensures Valid()
      ensures ok <==> forall f :: f in old(Contents()) ==> f.id != e.id
      ensures Contents() == if ok then old(Contents()) + {e} else old(Contents())
    {
      Membership(items, positions, e.id);
      if e.id in positions {
        return false;
      }
      ghost var was := items;
      items := items + [e];
      positions := positions[e.id := |items| - 1];
      forall i | 0 < i < |items| - 1 ensures Settled(items, before, i) {
        assert Settled(was, before, i);
      }
      SiftUp(|items| - 1);
      return true;
    }

    /** Removes and returns the best entry; None when there is none. */
    method Pop() returns (top: Option<Entry>)
      requires Valid()
      modifies this
      ensures Valid()
      ensures top == None <==> old(Contents()) == {}
      ensures top.Some? ==> IsBest(before, top.value, old(Contents()))
      ensures Contents() == if top.Some? then old(Contents()) - {top.value} else {}
    {
      var n := |items|;
      if n == 0 {
        return None;
      }
      RootIsBestEntry(items, before);
      if n > 1 { FilledHole(items, before, 0); }
      top := Some(items[0]);
      TakeOut(0);
      if n > 1 {
        SiftDown(0, 0);
      }
    }

    /** Removes the entry with this id, wherever it is. */
    method Remove(id: Id) returns (removed: Option<Entry>)
      requires Valid()
      modifies this
      ensures Valid()
      ensures removed == None <==> forall e :: e in old(Contents()) ==> e.id != id
      ensures removed.Some? ==> removed.value in old(Contents()) && removed.value.id == id
      ensures Contents() == if removed.Some? then old(Contents()) - {removed.value} else old(Contents())
    {
      Membership(items, positions, id);
      if id !in positions {
        return None;
      }
      var idx := positions[id];
      var n := |items|;
      removed := Some(items[idx]);
      if idx != n - 1 { FilledHole(items, before, idx); } else { LastRemoved(items, before); }
      TakeOut(idx);
      if idx != n - 1 {
        // The displaced entry can be too high or too low, never both: one sift is enough.
        if idx > 0 && before(items[idx], items[Parent(idx)]) {
          SiftUp(idx);
        } else {
          SiftDown(idx, 0);
        }
      }
    }

    /** Takes the entry at idx out of both structures and moves the last entry into its slot. */
    method TakeOut(idx: nat)
      requires idx < |items| && Indexed(items, positions)
      modifies this
      ensures items == Without(old(items), idx) && Indexed(items, positions)
      ensures Contents() == old(Contents()) - {old(items)[idx]}
    {
      WithoutContents(items, positions, idx);
      var n := |items|;
      var target, last := items[idx], items[n - 1];
      items := items[..n - 1];
      positions := positions - {target.id};
      if idx != n - 1 {
        items := items[idx := last];
        positions := positions[last.id := idx];
      }
    }

    /**
     * Replaces whatever the heap held by the given entries (Floyd's build). Repeated ids are not
     * refused: they are heap-ordered like the rest, but the position map cannot hold them all.
     */
    method Heapify(elements: seq<Entry>)
      requires Comparator(before)
      modifies this
      ensures Ordered(items, before, 0) && multiset(items) == multiset(elements)
      ensures Contents() == Elements(elements)
      ensures Valid() <==> DistinctIds(elements)
    {
      items := [];
      positions := map[];
      for i := 0 to |elements|
        invariant items == elements[..i] && (DistinctIds(elements[..i]) ==> Indexed(items, positions))
      {
        assert DistinctIds(elements[..i + 1]) ==> DistinctIds(elements[..i]);
        items := items + [elements[i]];
        positions := positions[elements[i].id := i];
      }
      assert elements[..|elements|] == elements;
      var i: nat := |items| / 2;
      while i > 0
        invariant i <= |items| / 2 && Ordered(items, before, i)
        invariant multiset(items) == multiset(elements) && Contents() == Elements(elements)
        invariant DistinctIds(items) <==> DistinctIds(elements)
        invariant DistinctIds(elements) ==> Indexed(items, positions)
      {
        i := i - 1;
        SiftDown(i, i);
      }
      if Indexed(items, positions) { IndexedDistinct(items, positions); }
    }

    method Clear()
      requires Valid()
      modifies this
      ensures Valid() && Contents() == {}
    {
      items := [];
      positions := map[];
    }

    method Swap(i: nat, j: nat)
      requires i < |items| && j < |items|
      modifies this
      ensures items == Swapped(old(items), i, j) && Rearranged(old(items), items)
      ensures old(Indexed(items, positions)) ==> Indexed(items, positions)
    {
      SwapRearranges(items, i, j);
      if Indexed(items, positions) { SwapIndexed(items, positions, i, j); }
      var a, b := items[i], items[j];
      items := items[i := b][j := a];
      positions := positions[a.id := j][b.id := i];
    }

    method SiftUp(start: nat)
      requires start < |items|
      requires Comparator(before) && Indexed(items, positions) && MayRise(items, before, start)
      modifies this
      ensures Valid() && Rearranged(old(items), items)
    {
      var idx: nat := start;
      while idx > 0
        invariant idx < |items| && Rearranged(old(items), items)
        invariant Indexed(items, positions) && MayRise(items, before, idx)
      {
        var parent := Parent(idx);
        if !before(items[idx], items[parent]) {
          break;
        }
        RiseStep(items, before, idx);
        Swap(idx, parent);
        idx := parent;
      }
    }

    /** The child that beats the entry at idx and the other child, or idx itself if none beats it. */
    method BestChild(idx: nat) returns (best: nat)
      requires idx < |items| && Comparator(before)
      ensures best == idx ==>
        && (2 * idx + 1 < |items| ==> Settled(items, before, 2 * idx + 1))
        && (2 * idx + 2 < |items| ==> Settled(items, before, 2 * idx + 2))
      ensures best != idx ==>
        && idx < best < |items| && Parent(best) == idx && before(items[best], items[idx])
        && forall k :: 0 < k < |items| && Parent(k) == idx ==> !before(items[k], items[best])
    {
      var n, left, right := |items|, 2 * idx + 1, 2 * idx + 2;
      best := idx;
      if left < n && before(items[left], items[best]) {
        best := left;
      }
      if right < n && before(items[right], items[best]) {
        best := right;
      }
      BestOfThree(items, before, idx, best);
    }

    method SiftDown(start: nat, ghost lo: nat)
      requires lo <= start < |items|
      requires Comparator(before) && MaySink(items, before, lo, start)
      modifies this
      ensures Ordered(items, before, lo) && Rearranged(old(items), items)
      ensures old(Indexed(items, positions)) ==> Indexed(items, positions)
    {
      var n := |items|;
      var idx: nat := start;
      while true
        invariant lo <= idx < |items| == n && MaySink(items, before, lo, idx)
        invariant Rearranged(old(items), items)
        invariant old(Indexed(items, positions)) ==> Indexed(items, positions)
        decreases n - idx
      {
        var best := BestChild(idx);
        if best == idx {
          SinkDone(items, before, lo, idx);
          break;
        }
        SinkStep(items, before, lo, idx, best);
        Swap(idx, best);
        idx := best;
      }
    }
  }

  /** No later entry beats an earlier one. */
  ghost predicate Sorted(before: (Entry, Entry) -> bool, out: seq<Entry>) {
    forall i, j :: 0 <= i < j < |out| ==> !before(out[j], out[i])
  }

  /** Everything taken so far comes before everything that is left. */
  ghost predicate Ahead(before: (Entry, Entry) -> bool, out: seq<Entry>, left: set<Entry>) {
    forall i, e :: 0 <= i < |out| && e in left ==> out[i].id != e.id && !before(e, out[i])
  }

  lemma TakeNext(before: (Entry, Entry) -> bool, all: set<Entry>, out: seq<Entry>, left: set<Entry>, e: Entry)
    requires Sorted(before, out) && Ahead(before, out, left) && DistinctIds(out) && UniqueIds(left)
    requires Elements(out) + left == all && IsBest(before, e, left)
    ensures Sorted(before, out + [e]) && Ahead(before, out + [e], left - {e}) && DistinctIds(out + [e])
    ensures Elements(out + [e]) + (left - {e}) == all
  {
  }

  /** Popping until the heap is empty yields its contents, each entry once, in order. */
  method PopAll(h: BinaryHeap) returns (out: seq<Entry>)
    requires h.Valid()
    modifies h
    ensures h.Valid() && h.Contents() == {}
    ensures Elements(out) == old(h.Contents()) && DistinctIds(out) && Sorted(h.before, out)
  {
    out := [];
    while true
      invariant h.Valid() && Elements(out) + h.Contents() == old(h.Contents())
      invariant Sorted(h.before, out) && Ahead(h.before, out, h.Contents()) && DistinctIds(out)
      decreases h.Contents()
    {
      Membership(h.items, h.positions, "");
      ghost var left := h.Contents();
      var top := h.Pop();
      if top.None? {
        return;
      }
      TakeNext(h.before, old(h.Contents()), out, left, top.value);
      out := out + [top.value];
    }
  }
}

/**
 * The single-heap scheduler's indexed heap.  It holds bare ids; the order is computed from task
 * records that live elsewhere and may change while the id is in the heap, so every operation is
 * told the order as it stands.  Index and contents are exact whatever has happened to the order;
 * what each operation makes of the order is promised separately.
 */
module ContagionHeap {
  import opened Graphs
  import opened HeapOrder

  /** The index map sends exactly the ids present, each to its one slot. */
  ghost predicate Indexed(items: seq<Id>, index: map<Id, nat>) {
    && (forall i :: 0 <= i < |items| ==> items[i] in index && index[items[i]] == i)
    && (forall id :: id in index ==> index[id] < |items| && items[index[id]] == id)
  }

  /** Heap order, except that the key of item may have changed in any way since it was placed. */
  ghost predicate OrderedBut(items: seq<Id>, before: (Id, Id) -> bool, item: Id) {
    if item in items then exists i :: 0 <= i < |items| && items[i] == item && Loose(items, before, i)
    else Ordered(items, before, 0)
  }

  lemma IndexedMembers(items: seq<Id>, index: map<Id, nat>, item: Id)
    requires Indexed(items, index)
    ensures item in items <==> item in index
  {
  }

  lemma LooseAtItem(items: seq<Id>, index: map<Id, nat>, before: (Id, Id) -> bool, item: Id)
    requires Indexed(items, index) && OrderedBut(items, before, item) && item in items
    ensures item in index && Loose(items, before, index[item])
  {
  }

  lemma SubOrder(before: (Id, Id) -> bool, big: set<Id>, small: set<Id>)
    requires StrictWeakOrder(before, big) && small <= big
    ensures StrictWeakOrder(before, small)
  {
  }

  lemma OrderedIsLoose(items: seq<Id>, before: (Id, Id) -> bool, i: nat)
    requires StrictWeakOrder(before, Elements(items)) && Ordered(items, before, 0) && i < |items|
    ensures Loose(items, before, i)
  {
    if i > 0 {
      assert Settled(items, before, i);
      forall k | (k == 2 * i + 1 || k == 2 * i + 2) && k < |items| ensures !before(items[k], items[Parent(i)]) {
        assert Settled(items, before, k);
      }
    }
  }

  lemma WithoutElements(items: seq<Id>, index: map<Id, nat>, idx: nat)
    requires idx < |items| && Indexed(items, index)
    ensures Elements(Without(items, idx)) == Elements(items) - {items[idx]}
  {
    var r := Without(items, idx);
    forall e | e in Elements(items) - {items[idx]} ensures e in r {
      assert r[if index[e] == |r| then idx else index[e]] == e;
    }
    forall k | 0 <= k < |r| ensures r[k] in Elements(items) - {items[idx]} {
      assert r[k] == items[if k == idx then |r| else k];
    }
  }

  /** A new item that does not beat what is at the parent of the next free slot. */
  ghost predicate ComesLast(items: seq<Id>, before: (Id, Id) -> bool, item: Id) {
    item !in items && (items == [] || !before(item, items[Parent(|items|)]))
  }

  lemma RootBeatenByNone(items: seq<Id>, before: (Id, Id) -> bool)
    ensures |items| > 0 && Ordered(items, before, 0) && StrictWeakOrder(before, Elements(items)) ==>
      forall e :: e in Elements(items) ==> !before(e, items[0])
  {
    if |items| > 0 && Ordered(items, before, 0) && StrictWeakOrder(before, Elements(items)) {
      forall e | e in Elements(items) ensures !before(e, items[0]) {
        var i :| 0 <= i < |items| && items[i] == e;
        RootIsBest(items, before, i);
      }
    }
  }

  /** A step up, from a slot whose entry is arbitrary or can only rise. */
  lemma RiseOnce(items: seq<Id>, before: (Id, Id) -> bool, i: nat)
    requires StrictWeakOrder(before, Elements(items)) && 0 < i < |items|
    requires Loose(items, before, i) || MayRise(items, before, i)
    requires before(items[i], items[Parent(i)])
    ensures MayRise(Swapped(items, i, Parent(i)), before, Parent(i))
  {
    if Loose(items, before, i) { LooseRiseStep(items, before, i); } else { RiseStep(items, before, i); }
  }

  lemma RiseEnds(items: seq<Id>, before: (Id, Id) -> bool, i: nat)
    requires StrictWeakOrder(before, Elements(items)) && i < |items|
    requires Loose(items, before, i) || MayRise(items, before, i)
    requires i > 0 ==> Settled(items, before, i)
    ensures MaySink(items, before, 0, i)
    ensures MayRise(items, before, i) ==> Ordered(items, before, 0)
  {
    if MayRise(items, before, i) { RisenIsOrdered(items, before, i); } else { LooseStays(items, before, i); }
  }

  class BinaryHeap {
    var items: seq<Id>
    var index: map<Id, nat>

    ghost predicate Valid()
      reads this
    {
      Indexed(items, index)
    }

    ghost function Contents(): (es: set<Id>)
      reads this
    {
      Elements(items)
    }

    constructor ()
      ensures Valid() && items == []
    {
      items := [];
      index := map[];
    }

    /** The root, left in place: with the heap in order, an item that nothing beats. */
    method Peek(before: (Id, Id) -> bool) returns (top: Option<Id>)
      ensures top == if items == [] then None else Some(items[0])
      ensures top.Some? && Ordered(items, before, 0) && StrictWeakOrder(before, Contents()) ==>
        forall e :: e in Contents() ==> !before(e, top.value)
    {
      if |items| == 0 {
        return None;
      }
      RootBeatenByNone(items, before);
      return Some(items[0]);
    }

    predicate Contains(item: Id)
      requires Valid()
      reads this
      ensures Contains(item) <==> item in Contents()
    {
      IndexedMembers(items, index, item);
      item in index
    }

    /** Inserts the item, or puts it where its key now belongs. */
    method Push(item: Id, before: (Id, Id) -> bool)
      requires Valid()
      modifies this
      ensures Valid() && Contents() == old(Contents()) + {item}
      ensures OrderedBut(old(items), before, item) && StrictWeakOrder(before, Contents()) ==> Ordered(items, before, 0)
      ensures ComesLast(old(items), before, item) ==> items == old(items) + [item]
    {
      IndexedMembers(items, index, item);
      if item in index {
        assert Contents() + {item} == Contents();
        var existing := index[item];
        items := items[existing := item];
        assert items == old(items);
        ghost var sound := OrderedBut(items, before, item) && StrictWeakOrder(before, Contents());
        if sound { LooseAtItem(items, index, before, item); }
        var afterUp := SiftUp(existing, before);
        var _ := SiftDown(afterUp, before, 0);
        return;
      }
      Append(item, before);
      var _ := SiftUp(|items| - 1, before);
    }

    /** Puts a new item in the last slot. */
    method Append(item: Id, ghost before: (Id, Id) -> bool)
      requires Valid() && item !in items
      modifies this
      ensures Valid() && items == old(items) + [item] && Contents() == old(Contents()) + {item}
      ensures Ordered(old(items), before, 0) ==> MayRise(items, before, |items| - 1)
    {
      ghost var was := items;
      IndexedMembers(items, index, item);
      items := items + [item];
      index := index[item := |items| - 1];
      if Ordered(was, before, 0) {
        forall i | 0 < i < |items| - 1 ensures Settled(items, before, i) {
          assert Settled(was, before, i);
        }
      }
    }

    /** Removes and returns the root; with the heap in order it stays so, and nothing beat the root. */
    method Pop(before: (Id, Id) -> bool) returns (top: Option<Id>)
      requires Valid()
      modifies this
      ensures Valid() && top == if old(items) == [] then None else Some(old(items)[0])
      ensures Contents() == if top.Some? then old(Contents()) - {top.value} else old(Contents())
      ensures if top.Some? then top.value in old(Contents()) else items == []
      ensures Ordered(old(items), before, 0) && StrictWeakOrder(before, old(Contents())) ==>
        && Ordered(items, before, 0)
        && (top.Some? ==> forall e :: e in old(Contents()) ==> !before(e, top.value))
    {
      if |items| == 0 {
        return None;
      }
      RootBeatenByNone(items, before);
      top := Some(items[0]);
      assert items[0] in Contents();
      ghost var sound := Ordered(items, before, 0) && StrictWeakOrder(before, Contents());
      if sound {
        OrderedIsLoose(items, before, 0);
        WithoutIsLoose(items, before, 0);
      }
      TakeOut(0);
      if |items| > 0 {
        if sound {
          SubOrder(before, old(Contents()), Contents());
          LooseStays(items, before, 0);
        }
        var _ := SiftDown(0, before, 0);
      }
    }

    /** Removes the item wherever it is, and repairs an order that only its changed key disturbed. */
    method Remove(item: Id, before: (Id, Id) -> bool) returns (found: bool)
      requires Valid()
      modifies this
      ensures Valid() && (found <==> item in old(Contents()))
      ensures Contents() == old(Contents()) - {item}
      ensures OrderedBut(old(items), before, item) && StrictWeakOrder(before, Contents()) ==> Ordered(items, before, 0)
    {
      IndexedMembers(items, index, item);
      if item !in index {
        return false;
      }
      var at := index[item];
      if OrderedBut(items, before, item) {
        LooseAtItem(items, index, before, item);
        WithoutIsLoose(items, before, at);
      }
      TakeOut(at);
      if at < |items| {
        var afterUp := SiftUp(at, before);
        var _ := SiftDown(afterUp, before, 0);
      }
      return true;
    }

    /** Takes the entry at a slot out of both structures and moves the last entry there. */
    method TakeOut(at: nat)
      requires at < |items| && Valid()
      modifies this
      ensures Valid() && items == Without(old(items), at)
      ensures Contents() == old(Contents()) - {old(items)[at]}
    {
      WithoutElements(items, index, at);
      var n := |items|;
      index := index - {items[at]};
      var last := items[n - 1];
      items := items[..n - 1];
      index := index - {last};
      if at < |items| {
        items := items[at := last];
        index := index[last := at];
      }
    }

    method Clear()
      modifies this
      ensures Valid() && items == []
    {
      items := [];
      index := map[];
    }

    /**
     * Replaces whatever the heap held by the given entries (Floyd's build). Repeated entries are
     * not refused: they are heap-ordered like the rest, but the index cannot hold them all.
     */
    method Heapify(entries: seq<Id>, before: (Id, Id) -> bool)
      requires StrictWeakOrder(before, Elements(entries))
      modifies this
      ensures Ordered(items, before, 0) && multiset(items) == multiset(entries)
      ensures Valid() <==> NoRepeats(entries)
    {
      Clear();
      for i := 0 to |entries|
        invariant items == entries[..i] && (NoRepeats(entries[..i]) ==> Valid())
      {
        assert NoRepeats(entries[..i + 1]) ==> NoRepeats(entries[..i]);
        items := items + [entries[i]];
        index := index[entries[i] := |items| - 1];
      }
      assert entries[..|entries|] == entries;
      var i: nat := |items| / 2;
      while i > 0
        invariant i <= |items| / 2 && Ordered(items, before, i) && Permuted(entries, items)
        invariant NoRepeats(entries) ==> Valid()
      {
        i := i - 1;
        var _ := SiftDown(i, before, i);
      }
    }

    method Swap(a: nat, b: nat)
      requires a < |items| && b < |items|
      modifies this
      ensures items == Swapped(old(items), a, b) && Permuted(old(items), items)
      ensures old(Valid()) ==> Valid()
    {
      SwapPermutes(items, a, b);
      var ka, kb := items[a], items[b];
      items := items[a := kb][b := ka];
      index := index[ka := b][kb := a];
    }

    /** Moves the entry toward the root; returns where it ends up. */
    method SiftUp(start: nat, before: (Id, Id) -> bool) returns (end: nat)
      requires start < |items| && Valid()
      modifies this
      ensures Valid() && Contents() == old(Contents()) && end < |items| == old(|items|)
      ensures StrictWeakOrder(before, Contents()) && Loose(old(items), before, start) ==> MaySink(items, before, 0, end)
      ensures StrictWeakOrder(before, Contents()) && MayRise(old(items), before, start) ==> Ordered(items, before, 0)
      ensures start == 0 || !before(old(items)[start], old(items)[Parent(start)]) ==> items == old(items)
    {
      ghost var sound := StrictWeakOrder(before, Contents()) &&
        (Loose(items, before, start) || MayRise(items, before, start));
      end := start;
      while end > 0
        invariant end < |items| == old(|items|) && Valid() && Contents() == old(Contents())
        invariant end <= start && (end == start ==> items == old(items))
        invariant end < start ==> before(old(items)[start], old(items)[Parent(start)])
        invariant sound ==> if end == start then items == old(items) else MayRise(items, before, end)
      {
        var p := Parent(end);
        if before(items[end], items[p]) {
          if sound { RiseOnce(items, before, end); }
          Swap(end, p);
          end := p;
        } else {
          break;
        }
      }
      if sound { RiseEnds(items, before, end); }
    }

    /** The child that beats the entry at slot i and the other child, or i itself if none beats it. */
    method BestChild(i: nat, before: (Id, Id) -> bool) returns (best: nat)
      requires i < |items|
      ensures best == i || (i < best < |items| && Parent(best) == i)
      ensures StrictWeakOrder(before, Contents()) && best == i ==>
        && (2 * i + 1 < |items| ==> Settled(items, before, 2 * i + 1))
        && (2 * i + 2 < |items| ==> Settled(items, before, 2 * i + 2))
      ensures StrictWeakOrder(before, Contents()) && best != i ==>
        && before(items[best], items[i])
        && forall k :: 0 < k < |items| && Parent(k) == i ==> !before(items[k], items[best])
    {
      var n, l, r := |items|, 2 * i + 1, 2 * i + 2;
      best := i;
      if l < n && before(items[l], items[best]) {
        best := l;
      }
      if r < n && before(items[r], items[best]) {
        best := r;
      }
      if StrictWeakOrder(before, Contents()) { BestOfThree(items, before, i, best); }
    }

    /** Moves the entry toward the leaves; returns where it ends up. */
    method SiftDown(start: nat, before: (Id, Id) -> bool, ghost lo: nat) returns (end: nat)
      requires lo <= start < |items|
      modifies this
      ensures Permuted(old(items), items) && (old(Valid()) ==> Valid())
      ensures StrictWeakOrder(before, Contents()) && MaySink(old(items), before, lo, start) ==>
        Ordered(items, before, lo)
    {
      ghost var sound := StrictWeakOrder(before, Contents()) && MaySink(items, before, lo, start);
      var n := |items|;
      end := start;
      while true
        invariant lo <= end < |items| == n && Permuted(old(items), items) && (old(Valid()) ==> Valid())
        invariant sound ==> MaySink(items, before, lo, end)
        decreases n - end
      {
        var best := BestChild(end, before);
        if best == end {
          if sound { SinkDone(items, before, lo, end); }
          return end;
        }
        if sound { SinkStep(items, before, lo, end, best); }
        Swap(end, best);
        end := best;
      }
    }
  }
}

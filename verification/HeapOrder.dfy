/** The order theory that the two indexed binary heaps share. */
module HeapOrder {

  /** before(a, b): a belongs closer to the root than b. */
  ghost predicate StrictWeakOrder<T>(before: (T, T) -> bool, s: set<T>) {
    && (forall a, b :: a in s && b in s && before(a, b) ==> !before(b, a))
    && (forall a, b, c :: a in s && b in s && c in s && !before(a, b) && !before(b, c) ==> !before(a, c))
  }

  ghost function Elements<T>(items: seq<T>): set<T> {
    set e | e in items
  }

  function Parent(i: nat): (p: nat)
    requires i > 0
    ensures p < i
  {
    (i - 1) / 2
  }

  function Swapped<T>(items: seq<T>, i: nat, j: nat): (r: seq<T>)
    requires i < |items| && j < |items|
    ensures |r| == |items|
  {
    items[i := items[j]][j := items[i]]
  }

  /** The entry at slot i does not beat the one in its parent's slot. */
  ghost predicate Settled<T>(items: seq<T>, before: (T, T) -> bool, i: nat)
    requires 0 < i < |items|
  {
    !before(items[i], items[Parent(i)])
  }

  /** Heap order among the slots whose parent is at or below lo; lo == 0 is the whole heap. */
  ghost predicate Ordered<T>(items: seq<T>, before: (T, T) -> bool, lo: nat) {
    forall i :: 0 < i < |items| && Parent(i) >= lo ==> Settled(items, before, i)
  }

  /** No child of the hole beats the hole's parent. */
  ghost predicate Bridged<T>(items: seq<T>, before: (T, T) -> bool, hole: nat) {
    hole > 0 ==>
      && (2 * hole + 1 < |items| ==> !before(items[2 * hole + 1], items[Parent(hole)]))
      && (2 * hole + 2 < |items| ==> !before(items[2 * hole + 2], items[Parent(hole)]))
  }

  /** Heap order, except that the entry at the hole may beat its parent. */
  ghost predicate MayRise<T>(items: seq<T>, before: (T, T) -> bool, hole: nat) {
    && (forall i :: 0 < i < |items| && i != hole ==> Settled(items, before, i))
    && Bridged(items, before, hole)
  }

  /** Heap order from lo on, except that the entry at the hole may be beaten by its children. */
  ghost predicate MaySink<T>(items: seq<T>, before: (T, T) -> bool, lo: nat, hole: nat) {
    && (forall i :: 0 < i < |items| && Parent(i) >= lo && Parent(i) != hole ==> Settled(items, before, i))
    && (hole > 0 && Parent(hole) >= lo ==> Bridged(items, before, hole))
  }

  lemma RiseStep<T>(items: seq<T>, before: (T, T) -> bool, i: nat)
    requires StrictWeakOrder(before, Elements(items)) && 0 < i < |items| && MayRise(items, before, i)
    requires before(items[i], items[Parent(i)])
    ensures MayRise(Swapped(items, i, Parent(i)), before, Parent(i))
  {
    var p := Parent(i);
    var r := Swapped(items, i, p);
    forall k | 0 < k < |r| && k != p ensures Settled(r, before, k) {
      if k != i {
        assert Settled(items, before, k);
      }
    }
    if p > 0 {
      assert Settled(items, before, p);
      forall k | k == 2 * p + 1 || k == 2 * p + 2 
        ensures k < |r| ==> !before(r[k], r[Parent(p)])
      {
        if k < |r| && k != i { assert Settled(items, before, k); }
      }
    }
  }

  lemma SinkStep<T>(items: seq<T>, before: (T, T) -> bool, lo: nat, i: nat, best: nat)
    requires StrictWeakOrder(before, Elements(items)) && lo <= i < best < |items| && MaySink(items, before, lo, i)
    requires Parent(best) == i && before(items[best], items[i])
    requires forall k :: 0 < k < |items| && Parent(k) == i ==> !before(items[k], items[best])
    ensures MaySink(Swapped(items, i, best), before, lo, best)
  {
    var r := Swapped(items, i, best);
    forall k | 0 < k < |r| && Parent(k) >= lo && Parent(k) != best ensures Settled(r, before, k) {
      if k != i && Parent(k) != i {
        assert Settled(items, before, k);
      }
    }
    forall k | (k == 2 * best + 1 || k == 2 * best + 2) && k < |r| 
      ensures !before(r[k], r[i])
    {
      assert Settled(items, before, k);
    }
  }

  /** Heap order among all pairs that leave the hole out, and across it. */
  ghost predicate Loose<T>(items: seq<T>, before: (T, T) -> bool, hole: nat) {
    && (forall i :: 0 < i < |items| && i != hole && Parent(i) != hole ==> Settled(items, before, i))
    && Bridged(items, before, hole)
  }

  /** The first step up from a hole whose entry is arbitrary: from then on it can only rise. */
  lemma LooseRiseStep<T>(items: seq<T>, before: (T, T) -> bool, i: nat)
    requires StrictWeakOrder(before, Elements(items)) && 0 < i < |items| && Loose(items, before, i)
    requires before(items[i], items[Parent(i)])
    ensures MayRise(Swapped(items, i, Parent(i)), before, Parent(i))
  {
    var p := Parent(i);
    var r := Swapped(items, i, p);
    forall k | 0 < k < |r| && k != p ensures Settled(r, before, k) {
      if k != i && Parent(k) != i {
        assert Settled(items, before, k);
      }
    }
    if p > 0 {
      assert Settled(items, before, p);
      forall k | k == 2 * p + 1 || k == 2 * p + 2
        ensures k < |r| ==> !before(r[k], r[Parent(p)])
      {
        if k < |r| && k != i { assert Settled(items, before, k); }
      }
    }
  }

  /** An entry that does not beat its parent can only sink. */
  lemma LooseStays<T>(items: seq<T>, before: (T, T) -> bool, i: nat)
    requires i < |items| && Loose(items, before, i) && (i > 0 ==> Settled(items, before, i))
    ensures MaySink(items, before, 0, i)
  {
  }

  lemma RisenIsOrdered<T>(items: seq<T>, before: (T, T) -> bool, i: nat)
    requires StrictWeakOrder(before, Elements(items)) && i < |items|
    requires MayRise(items, before, i) && (i > 0 ==> Settled(items, before, i))
    ensures Ordered(items, before, 0) && MaySink(items, before, 0, i)
  {
  }

  /** The array after the entry at idx is taken out and the last entry put in its place. */
  ghost function Without<T>(items: seq<T>, idx: nat): (r: seq<T>)
    requires idx < |items|
    ensures |r| == |items| - 1
  {
    var n := |items| - 1;
    if idx == n then items[..n] else items[..n][idx := items[n]]
  }

  /** Filling a loose hole with the last entry leaves a loose hole. */
  lemma WithoutIsLoose<T>(items: seq<T>, before: (T, T) -> bool, idx: nat)
    requires idx < |items| && Loose(items, before, idx)
    ensures if idx == |items| - 1
      then Ordered(Without(items, idx), before, 0) else Loose(Without(items, idx), before, idx)
  {
  }

  lemma SwapKeeps<T>(items: seq<T>, i: nat, j: nat)
    requires i < |items| && j < |items|
    ensures Elements(Swapped(items, i, j)) == Elements(items)
  {
    var r := Swapped(items, i, j);
    forall k | 0 <= k < |items| ensures items[k] in r && r[k] in items {
      assert r[if k == i then j else if k == j then i else k] == items[k];
    }
  }

  ghost predicate NoRepeats<T>(items: seq<T>) {
    forall i, j :: 0 <= i < j < |items| ==> items[i] != items[j]
  }

  /** The same entries in another order. */
  ghost predicate Permuted<T>(was: seq<T>, items: seq<T>) {
    && multiset(items) == multiset(was) && |items| == |was|
    && Elements(items) == Elements(was) && (NoRepeats(items) <==> NoRepeats(was))
  }

  lemma {:induction false} CountElements<T>(items: seq<T>)
    requires NoRepeats(items)
    ensures |Elements(items)| == |items|
  {
    if items != [] {
      var n := |items| - 1;
      CountElements(items[..n]);
      assert items == items[..n] + [items[n]];
      assert Elements(items) == Elements(items[..n]) + {items[n]};
    } else {
      assert Elements(items) == {};
    }
  }

  lemma SwapPermutes<T>(items: seq<T>, i: nat, j: nat)
    requires i < |items| && j < |items|
    ensures Permuted(items, Swapped(items, i, j))
  {
    var r := Swapped(items, i, j);
    SwapKeeps(items, i, j);
    forall k, l | 0 <= k < l < |items|
      ensures NoRepeats(items) ==> r[k] != r[l]
      ensures NoRepeats(r) ==> items[k] != items[l]
    {
      var k1 := if k == i then j else if k == j then i else k;
      var l1 := if l == i then j else if l == j then i else l;
      assert r[k] == items[k1] && r[l] == items[l1] && items[k] == r[k1] && items[l] == r[l1] && k1 != l1;
    }
  }

  lemma BestOfThree<T>(items: seq<T>, before: (T, T) -> bool, i: nat, best: nat)
    requires StrictWeakOrder(before, Elements(items)) && i < |items|
    requires var l := if 2 * i + 1 < |items| && before(items[2 * i + 1], items[i]) then 2 * i + 1 else i;
      best == if 2 * i + 2 < |items| && before(items[2 * i + 2], items[l]) then 2 * i + 2 else l
    ensures best == i ==>
      && (2 * i + 1 < |items| ==> Settled(items, before, 2 * i + 1))
      && (2 * i + 2 < |items| ==> Settled(items, before, 2 * i + 2))
    ensures best != i ==>
      && before(items[best], items[i])
      && forall k :: 0 < k < |items| && Parent(k) == i ==> !before(items[k], items[best])
  {
  }

  /** Nothing left to sink: both children of the hole are settled. */
  lemma SinkDone<T>(items: seq<T>, before: (T, T) -> bool, lo: nat, i: nat)
    requires MaySink(items, before, lo, i)
    requires 2 * i + 1 < |items| ==> Settled(items, before, 2 * i + 1)
    requires 2 * i + 2 < |items| ==> Settled(items, before, 2 * i + 2)
    ensures Ordered(items, before, lo)
  {
  }

  /** The root of a heap is beaten by nobody. */
  lemma {:induction false} RootIsBest<T>(items: seq<T>, before: (T, T) -> bool, i: nat)
    requires StrictWeakOrder(before, Elements(items)) && Ordered(items, before, 0) && i < |items|
    ensures !before(items[i], items[0])
  {
    if i > 0 {
      RootIsBest(items, before, Parent(i));
      assert Settled(items, before, i);
    }
  }
}

/**
 * Batch removal of Original control points. The editor collects the indices
 * whose remove button was pressed, in ascending order, and then erases them
 * one at a time from the vector, which shrinks after every erase.
 */
module Removal {

  /** The vector after `erase(begin() + i)`. */
  function EraseAt<T>(s: seq<T>, i: nat): (r: seq<T>)
    requires i < |s|
    ensures |r| == |s| - 1
  {
    s[..i] + s[i + 1..]
  }

  /** Every erase in the batch hits an element of the vector as it is by then. */
  predicate ErasableInOrder(n: nat, batch: seq<nat>) {
    forall j :: 0 <= j < |batch| ==> batch[j] + j < n
  }

  predicate StrictlyAscending(batch: seq<nat>) {
    forall j, k :: 0 <= j < k < |batch| ==> batch[j] < batch[k]
  }

  /** The vector after erasing `batch[0]`, then `batch[1]`, ... from the current vector. */
  function EraseInOrder<T>(s: seq<T>, batch: seq<nat>): (r: seq<T>)
    requires ErasableInOrder(|s|, batch)
    ensures |r| == |s| - |batch|
    decreases |batch|
  {
    if batch == [] then s
    else
      var k := |batch| - 1;
      EraseAt(EraseInOrder(s, batch[..k]), batch[k])
  }

  /** Reference definition: the elements of `s` whose position is not in `drop`, in order. */
  function Keep<T>(s: seq<T>, drop: set<nat>): seq<T>
    decreases |s|
  {
    if s == [] then []
    else
      var last := |s| - 1;
      Keep(s[..last], drop) + (if last in drop then [] else [s[last]])
  }

  /** The original positions that an ascending batch erases: `batch[j] + j`. */
  function ShiftedPositions(batch: seq<nat>): set<nat> {
    set j | 0 <= j < |batch| :: batch[j] + j
  }

  lemma {:induction false} KeepNothing<T>(s: seq<T>)
    ensures Keep(s, {}) == s
    decreases |s|
  {
    if s != [] {
      KeepNothing(s[..|s| - 1]);
    }
  }

  /** Positions at or after `n` are all kept. */
  lemma {:induction false} KeepSplit<T>(s: seq<T>, drop: set<nat>, n: nat)
    requires n <= |s|
    requires forall d :: d in drop ==> d < n
    ensures Keep(s, drop) == Keep(s[..n], drop) + s[n..]
    decreases |s| - n
  {
    if n < |s| {
      var last := |s| - 1;
      KeepSplit(s[..last], drop, n);
      assert s[..last][..n] == s[..n];
      assert s[..last][n..] + [s[last]] == s[n..];
    } else {
      assert s[..n] == s;
    }
  }

  /** Only the members of `drop` below `|s|` matter. */
  lemma {:induction false} KeepAgree<T>(s: seq<T>, d1: set<nat>, d2: set<nat>)
    requires forall i :: 0 <= i < |s| ==> (i in d1 <==> i in d2)
    ensures Keep(s, d1) == Keep(s, d2)
    decreases |s|
  {
    if s != [] {
      KeepAgree(s[..|s| - 1], d1, d2);
    }
  }

  /** The last index of a batch adds one position, above all earlier ones. */
  lemma ShiftedPositionsSnoc(batch: seq<nat>)
    requires StrictlyAscending(batch) && batch != []
    ensures var k := |batch| - 1;
      && ShiftedPositions(batch) == ShiftedPositions(batch[..k]) + {batch[k] + k}
      && forall d :: d in ShiftedPositions(batch[..k]) ==> d < batch[k] + k
  {
    var k := |batch| - 1;
    var init := batch[..k];
    forall d | d in ShiftedPositions(init) ensures d < batch[k] + k {
      var j :| 0 <= j < k && d == init[j] + j;
    }
    forall d | d in ShiftedPositions(batch) ensures d in ShiftedPositions(init) + {batch[k] + k} {
      var j :| 0 <= j < |batch| && d == batch[j] + j;
      if j < k { assert d == init[j] + j; }
    }
    forall d | d in ShiftedPositions(init) ensures d in ShiftedPositions(batch) {
      var j :| 0 <= j < k && d == init[j] + j;
      assert d == batch[j] + j;
    }
  }

  /**
   * Once the positions in `drop`, all below `p`, are gone, the element at
   * original position `p` sits at index `p - (number dropped)`; erasing it
   * drops `p` as well.
   */
  lemma EraseNextKept<T>(s: seq<T>, drop: set<nat>, p: nat, i: nat)
    requires p < |s|
    requires forall d :: d in drop ==> d < p
    requires |Keep(s, drop)| == |s| - (p - i) && i <= p
    ensures i < |Keep(s, drop)|
    ensures EraseAt(Keep(s, drop), i) == Keep(s, drop + {p})
  {
    var head := Keep(s[..p], drop);
    var tail := s[p..];
    KeepSplit(s, drop, p);
    assert Keep(s, drop) == head + tail;
    assert |head| == i;
    assert EraseAt(head + tail, i) == head + tail[1..] by {
      assert (head + tail)[..i] == head;
      assert (head + tail)[i + 1..] == tail[1..];
    }
    assert tail[1..] == s[p + 1..];
    var more := drop + {p};
    KeepSplit(s, more, p + 1);
    assert Keep(s[..p + 1], more) == Keep(s[..p], more) by {
      assert s[..p + 1][..p] == s[..p];
    }
    KeepAgree(s[..p], more, drop);
  }

  /**
   * Erasing a strictly ascending batch one index at a time removes the
   * elements at original positions `batch[j] + j`, not at `batch[j]`.
   */
  lemma {:induction false} EraseInOrderKeeps<T>(s: seq<T>, batch: seq<nat>)
    requires StrictlyAscending(batch) && ErasableInOrder(|s|, batch)
    ensures EraseInOrder(s, batch) == Keep(s, ShiftedPositions(batch))
    decreases |batch|
  {
    if batch == [] {
      assert ShiftedPositions(batch) == {};
      KeepNothing(s);
    } else {
      var k := |batch| - 1;
      var init := batch[..k];
      assert ErasableInOrder(|s|, init);
      EraseInOrderKeeps(s, init);
      ShiftedPositionsSnoc(batch);
      EraseNextKept(s, ShiftedPositions(init), batch[k] + k, batch[k]);
    }
  }

  /** A one-index batch removes exactly that position. */
  lemma EraseSingle<T>(s: seq<T>, i: nat)
    requires i < |s|
    ensures EraseInOrder(s, [i]) == s[..i] + s[i + 1..]
    ensures EraseInOrder(s, [i]) == Keep(s, {i})
  {
    assert [i][..0] == [];
    assert EraseInOrder(s, [i]) == EraseAt(s, i);
    EraseInOrderKeeps(s, [i]);
    assert ShiftedPositions([i]) == {i} by {
      assert [i][0] + 0 == i;
    }
  }

  /** Removing {1, 3} from [A, B, C, D, E] yields [A, C, D]: D is not removed, E is. */
  lemma TwoIndexScenario()
    ensures EraseInOrder(['A', 'B', 'C', 'D', 'E'], [1, 3]) == ['A', 'C', 'D']
    ensures Keep(['A', 'B', 'C', 'D', 'E'], {1, 3}) == ['A', 'C', 'E']
  {
    var s := ['A', 'B', 'C', 'D', 'E'];
    assert [1, 3][..1] == [1];
    assert [1][..0] == [];
    assert EraseAt(s, 1) == ['A', 'C', 'D', 'E'];
    assert EraseAt(['A', 'C', 'D', 'E'], 3) == ['A', 'C', 'D'];
    assert s[..4] == ['A', 'B', 'C', 'D'];
    assert s[..4][..3] == ['A', 'B', 'C'];
    assert s[..4][..3][..2] == ['A', 'B'];
    assert s[..4][..3][..2][..1] == ['A'];
    assert s[..4][..3][..2][..1][..0] == [];
    var drop: set<nat> := {1, 3};
    assert s[..1][..0] == [];
    assert s[..2][..1] == s[..1];
    assert s[..3][..2] == s[..2];
    assert s[..4][..3] == s[..3];
    assert s[..5] == s;
    assert Keep(s[..1], drop) == ['A'];
    assert Keep(s[..2], drop) == ['A'];
    assert Keep(s[..3], drop) == ['A', 'C'];
    assert Keep(s[..4], drop) == ['A', 'C'];
  }

  /** In a strictly ascending batch of naturals, the j-th index is at least j. */
  lemma {:induction false} AscendingAtLeastPosition(batch: seq<nat>, j: nat)
    requires StrictlyAscending(batch) && j < |batch|
    ensures batch[j] >= j
  {
    if j > 0 {
      AscendingAtLeastPosition(batch, j - 1);
    }
  }

  /**
   * An ascending batch empties the vector only when it held a single point,
   * so the Polar curve, which is then already empty, is never left stale.
   */
  lemma ErasedToEmptyOnlyFromOne<T>(s: seq<T>, batch: seq<nat>)
    requires StrictlyAscending(batch) && ErasableInOrder(|s|, batch)
    requires EraseInOrder(s, batch) == []
    ensures |s| <= 1
  {
    if batch != [] {
      var k := |batch| - 1;
      AscendingAtLeastPosition(batch, k);
      assert batch[k] + k < |s|;
    }
  }

  /** Erasing never introduces an element. */
  lemma {:induction false} EraseInOrderSubset<T>(s: seq<T>, batch: seq<nat>)
    requires ErasableInOrder(|s|, batch)
    ensures forall x :: x in EraseInOrder(s, batch) ==> x in s
    decreases |batch|
  {
    if batch != [] {
      var k := |batch| - 1;
      EraseInOrderSubset(s, batch[..k]);
      var prev := EraseInOrder(s, batch[..k]);
      forall x | x in EraseAt(prev, batch[k]) ensures x in s {
        assert x in prev[..batch[k]] || x in prev[batch[k] + 1..];
      }
    }
  }

  /**
   * The loop that collects the pressed remove buttons: one flag per point,
   * visited in order.
   */
  method CollectRemovals(pressed: seq<bool>) returns (batch: seq<nat>)
    ensures StrictlyAscending(batch)
    ensures forall i: nat :: i in batch <==> i < |pressed| && pressed[i]
  {
    batch := [];
    var i := 0;
    while i < |pressed|
      invariant 0 <= i <= |pressed|
      invariant StrictlyAscending(batch)
      invariant forall m :: 0 <= m < |batch| ==> batch[m] < i
      invariant forall j: nat :: j in batch <==> j < i && pressed[j]
    {
      if pressed[i] {
        batch := batch + [i];
      }
      i := i + 1;
    }
  }
}

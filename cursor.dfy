/**
 * The playback cursor shared by WatchList.next and TVShow.next: after
 * returning the element at the cursor, the cursor moves one step and wraps
 * to 0 when it reaches the size of the sequence.
 */
module Cursor {

  /** One step of the cursor over a sequence of `size` elements. */
  function Advance(cursor: nat, size: nat): (r: nat)
    requires cursor < size
    ensures r < size
    ensures r == (cursor + 1) % size
  {
    if cursor + 1 >= size then 0 else cursor + 1
  }

  /** The cursor after `k` calls of next starting from `cursor`. */
  function AdvanceTimes(cursor: nat, size: nat, k: nat): (r: nat)
    requires cursor < size
    ensures r < size
    decreases k
  {
    if k == 0 then cursor else AdvanceTimes(Advance(cursor, size), size, k - 1)
  }

  /** The positions read by `k` calls of next starting from `cursor`, in call order. */
  function Visited(cursor: nat, size: nat, k: nat): (r: seq<nat>)
    requires cursor < size
    ensures |r| == k
    decreases k
  {
    if k == 0 then [] else [cursor] + Visited(Advance(cursor, size), size, k - 1)
  }

  /**
   * From a fresh cursor, `k <= size` calls of next read positions 0, 1, ..., k-1
   * in order; after exactly `size` calls the cursor is back at 0.
   */
  lemma {:induction false} VisitsInOrder(size: nat, k: nat)
    requires 0 < size && k <= size
    ensures forall i :: 0 <= i < k ==> Visited(0, size, k)[i] == i
    ensures k < size ==> AdvanceTimes(0, size, k) == k
    ensures k == size ==> AdvanceTimes(0, size, k) == 0
  {
    VisitedFrom(0, size, k);
    AdvancedFrom(0, size, k);
  }

  /** From position `start`, `k` steps that do not pass the end land on `start + k`, or on 0 at the end. */
  lemma {:induction false} AdvancedFrom(start: nat, size: nat, k: nat)
    requires start + k <= size && start < size
    ensures AdvanceTimes(start, size, k) == if start + k < size then start + k else 0
    decreases k
  {
    if k > 0 && start + 1 < size {
      AdvancedFrom(start + 1, size, k - 1);
    }
  }

  /** From position `start`, `k` steps that do not pass the end read `start`, `start + 1`, and so on. */
  lemma {:induction false} VisitedFrom(start: nat, size: nat, k: nat)
    requires start + k <= size && start < size
    ensures forall i :: 0 <= i < k ==> Visited(start, size, k)[i] == start + i
    decreases k
  {
    if k > 0 {
      if start + 1 < size {
        VisitedFrom(start + 1, size, k - 1);
      } else {
        assert k == 1;
      }
    }
  }
}

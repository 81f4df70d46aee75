/**
 * The container's operations stated on values: the element sequence each one
 * produces from the old one, and the capacity rule each growth path follows.
 * The `Vector` methods are proved against these functions.
 */
module VectorSpec {
  import opened Memory

  /** `s` with `v` spliced in before position `p` (`Emplace`, `Insert`). */
  function Inserted(s: seq<int>, p: nat, v: int): (r: seq<int>)
    requires p <= |s|
    ensures |r| == |s| + 1 && r[p] == v
    ensures forall i :: 0 <= i < p ==> r[i] == s[i]
    ensures forall i :: p < i < |r| ==> r[i] == s[i - 1]
  {
    s[..p] + [v] + s[p..]
  }

  /** `s` without the element at position `p` (`Erase`). */
  function Erased(s: seq<int>, p: nat): (r: seq<int>)
    requires p < |s|
    ensures |r| == |s| - 1
    ensures forall i :: 0 <= i < p ==> r[i] == s[i]
    ensures forall i :: p <= i < |r| ==> r[i] == s[i + 1]
  {
    s[..p] + s[p + 1..]
  }

  /** Erasing at `p` undoes inserting at `p`. */
  lemma {:induction false} EraseUndoesInsert(s: seq<int>, p: nat, v: int)
    requires p <= |s|
    ensures Erased(Inserted(s, p, v), p) == s
  {
    var r := Erased(Inserted(s, p, v), p);
    assert forall i :: 0 <= i < |s| ==> r[i] == s[i];
  }

  /** Re-inserting the erased element at its old position restores the sequence. */
  lemma {:induction false} InsertUndoesErase(s: seq<int>, p: nat)
    requires p < |s|
    ensures Inserted(Erased(s, p), p, s[p]) == s
  {
    var r := Inserted(Erased(s, p), p, s[p]);
    assert forall i :: 0 <= i < |s| ==> r[i] == s[i];
  }

  /**
   * `s` cut down to its first `n` elements, or padded with value-initialised
   * elements up to length `n` (`Resize`).
   */
  function Resized(s: seq<int>, n: nat): (r: seq<int>)
    ensures |r| == n
    ensures forall i :: 0 <= i < n && i < |s| ==> r[i] == s[i]
    ensures forall i :: |s| <= i < n ==> r[i] == ValueInit
  {
    if n < |s| then s[..n] else s + seq(n - |s|, _ => ValueInit)
  }

  /** Resizing to the current length changes nothing. */
  lemma ResizeToSameLength(s: seq<int>)
    ensures Resized(s, |s|) == s
  {
    assert Resized(s, |s|) == s + [];
  }

  /** Resizing to `m` and then down to `n <= m` is resizing to `n` directly. */
  lemma {:induction false} ResizeThenShrink(s: seq<int>, m: nat, n: nat)
    requires n <= m
    ensures Resized(Resized(s, m), n) == Resized(s, n)
  {
    var a, b := Resized(Resized(s, m), n), Resized(s, n);
    assert forall i :: 0 <= i < n ==> a[i] == b[i];
  }

  /** The capacity a full container allocates to make room for one more element. */
  function GrowthCapacity(size: nat): (c: nat)
    ensures c > size
    ensures c <= 2 * size + 1
  {
    if size == 0 then 1 else 2 * size
  }

  /**
   * The capacity after adding one element to a container of `size` elements in
   * `capacity` slots (`PushBack`, `EmplaceBack`, `Emplace`): it grows only when
   * the container is full.
   */
  function PushCapacity(capacity: nat, size: nat): (c: nat)
    requires size <= capacity
    ensures c > size
    ensures size < capacity ==> c == capacity
    ensures size == capacity ==> c == GrowthCapacity(size)
  {
    if capacity <= size then GrowthCapacity(size) else capacity
  }

  /**
   * The capacity after an operation that needs room for `n` elements and, when
   * `capacity` is too small, reallocates to exactly `n` (`Reserve`, `Assign`,
   * copy assignment).
   */
  function ExactFitCapacity(capacity: nat, n: nat): (c: nat)
    ensures c >= capacity && c >= n
    ensures c == capacity || c == n
  {
    if n <= capacity then capacity else n
  }

  /**
   * The capacity after `Resize(n)`: unchanged unless `n` exceeds it, and then at
   * least double.
   */
  function ResizeCapacity(capacity: nat, n: nat): (c: nat)
    ensures c >= n && c >= capacity
    ensures n <= capacity ==> c == capacity
    ensures n > capacity ==> c >= 2 * capacity && (c == n || c == 2 * capacity)
  {
    if n > capacity then (if 2 * capacity >= n then 2 * capacity else n) else capacity
  }

  /** The capacity after `n` consecutive `PushBack` calls on a container with no storage. */
  function CapacityAfterPushes(n: nat): (c: nat)
    ensures c >= n
  {
    if n == 0 then 0 else PushCapacity(CapacityAfterPushes(n - 1), n - 1)
  }

  /**
   * How many existing elements those `n` calls transfer into new blocks: a call
   * on a full container of `k` elements transfers all `k`.
   */
  function TransfersAfterPushes(n: nat): (t: nat)
  {
    if n == 0 then 0
    else TransfersAfterPushes(n - 1) + (if CapacityAfterPushes(n - 1) <= n - 1 then n - 1 else 0)
  }

  /**
   * Doubling gives amortised constant-time appends: after `n > 0` pushes the
   * capacity is less than `2 * n`, and fewer than `2 * n` element transfers have
   * been made in all.
   */
  lemma {:induction false} PushGrowthIsAmortised(n: nat)
    requires n > 0
    ensures n <= CapacityAfterPushes(n) < 2 * n
    ensures TransfersAfterPushes(n) == CapacityAfterPushes(n) - 1
    ensures TransfersAfterPushes(n) < 2 * n
  {
    if n > 1 {
      PushGrowthIsAmortised(n - 1);
    }
  }
}

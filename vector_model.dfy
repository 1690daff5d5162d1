/**
 * The abstract state of a SimpleVector and what each mutating operation does to it.
 * `elems` are the live elements (slots [0, size_)), `cap` is capacity_.
 * The class in module Vector is proved to follow these transitions exactly.
 */
module VectorModel {

  datatype State = State(elems: seq<int>, cap: nat)

  /** The container invariant: size_ <= capacity_. */
  predicate Inv(s: State)
  {
    |s.elems| <= s.cap
  }

  /** `Type()`, the value-initialised element, for `int` elements. */
  const Default: int := 0

  /** The doubling policy `max(2 * capacity_, 1)` used when a full vector grows. */
  function GrownCapacity(cap: nat): (r: nat)
    ensures r > cap
    ensures r == if cap == 0 then 1 else 2 * cap
  {
    if 2 * cap > 1 then 2 * cap else 1
  }

  /** `Reserve(n)`: a no-op unless `n` exceeds the capacity, which then becomes exactly `n`. */
  function Reserved(s: State, n: nat): (r: State)
    ensures r.elems == s.elems
    ensures n <= s.cap ==> r == s
    ensures n > s.cap ==> r.cap == n
    ensures Inv(s) ==> Inv(r)
  {
    if n > s.cap then State(s.elems, n) else s
  }

  /** The growth step shared by PushBack and Insert: reserve by the doubling policy when full. */
  function GrownIfFull(s: State): (r: State)
    ensures r.elems == s.elems
    ensures |s.elems| < s.cap ==> r == s
    ensures Inv(s) ==> |r.elems| < r.cap
  {
    if |s.elems| == s.cap then Reserved(s, GrownCapacity(s.cap)) else s
  }

  /** `PushBack(x)`. */
  function PushedBack(s: State, x: int): (r: State)
    ensures |r.elems| == |s.elems| + 1
    ensures r.elems[|s.elems|] == x
    ensures forall j :: 0 <= j < |s.elems| ==> r.elems[j] == s.elems[j]
    ensures |s.elems| < s.cap ==> r.cap == s.cap
    ensures |s.elems| == s.cap ==> r.cap == GrownCapacity(s.cap)
    ensures Inv(s) ==> Inv(r)
  {
    var g := GrownIfFull(s);
    State(g.elems + [x], g.cap)
  }

  /** `PopBack()`, defined only on a non-empty vector. */
  function PoppedBack(s: State): (r: State)
    requires |s.elems| > 0
    ensures |r.elems| == |s.elems| - 1
    ensures forall j :: 0 <= j < |r.elems| ==> r.elems[j] == s.elems[j]
    ensures r.cap == s.cap
    ensures Inv(s) ==> Inv(r)
  {
    State(s.elems[..|s.elems| - 1], s.cap)
  }

  /** `Insert(begin() + i, x)`, for a position in [begin(), end()]. */
  function Inserted(s: State, i: nat, x: int): (r: State)
    requires i <= |s.elems|
    ensures |r.elems| == |s.elems| + 1
    ensures r.elems[i] == x
    ensures forall j :: 0 <= j < i ==> r.elems[j] == s.elems[j]
    ensures forall j :: i < j < |r.elems| ==> r.elems[j] == s.elems[j - 1]
    ensures |s.elems| < s.cap ==> r.cap == s.cap
    ensures |s.elems| == s.cap ==> r.cap == GrownCapacity(s.cap)
    ensures Inv(s) ==> Inv(r)
  {
    var g := GrownIfFull(s);
    State(g.elems[..i] + [x] + g.elems[i..], g.cap)
  }

  /**
   * `Insert(begin() + i, v[j])` as written, where the value argument is a reference to element
   * `j` of the same vector and the vector is not full: `std::move_backward` shifts the tail
   * first, and only then is the referenced slot read, so for `j > i` the value inserted is the
   * element that has just been shifted into slot `j`, which was at `j - 1` before the call.
   */
  function InsertedFromOwnElement(s: State, i: nat, j: nat): (r: State)
    requires i <= |s.elems| && j < |s.elems| && |s.elems| < s.cap
    ensures |r.elems| == |s.elems| + 1 && r.cap == s.cap
    ensures forall k :: 0 <= k < i ==> r.elems[k] == s.elems[k]
    ensures forall k :: i < k < |r.elems| ==> r.elems[k] == s.elems[k - 1]
  {
    // Slots [0, size + 1) after the shift; at end() there is no shift and slot `i` is about
    // to be overwritten, so its old content is immaterial.
    var shifted := if i < |s.elems| then s.elems[..i + 1] + s.elems[i..] else s.elems + [Default];
    State(shifted[i := shifted[j]], s.cap)
  }

  /**
   * What the as-written Insert stores for a reference to its own element: the intended element
   * when it lies at or before the insertion point, its left neighbour when it lies after.
   */
  lemma InsertFromOwnElementReads(s: State, i: nat, j: nat)
    requires i <= |s.elems| && j < |s.elems| && |s.elems| < s.cap
    ensures j <= i ==> InsertedFromOwnElement(s, i, j) == Inserted(s, i, s.elems[j])
    ensures i < j ==> InsertedFromOwnElement(s, i, j) == Inserted(s, i, s.elems[j - 1])
    ensures i < j && s.elems[j - 1] != s.elems[j] ==>
              InsertedFromOwnElement(s, i, j) != Inserted(s, i, s.elems[j])
  {
    var r := InsertedFromOwnElement(s, i, j);
    var v := if j <= i then s.elems[j] else s.elems[j - 1];
    var shifted := if i < |s.elems| then s.elems[..i + 1] + s.elems[i..] else s.elems + [Default];
    assert shifted[j] == v;
    assert r.elems == Inserted(s, i, v).elems;
  }

  /** The concrete input: inserting `v[1]` at the front of {1, 2, 3} with capacity 4. */
  lemma InsertFromOwnElementExample()
    ensures InsertedFromOwnElement(State([1, 2, 3], 4), 0, 1).elems == [1, 1, 2, 3]
    ensures Inserted(State([1, 2, 3], 4), 0, 2).elems == [2, 1, 2, 3]
  {
    InsertFromOwnElementReads(State([1, 2, 3], 4), 0, 1);
  }

  /** `Erase(begin() + i)`, for a position in [begin(), end()). */
  function Erased(s: State, i: nat): (r: State)
    requires i < |s.elems|
    ensures |r.elems| == |s.elems| - 1
    ensures forall j :: 0 <= j < i ==> r.elems[j] == s.elems[j]
    ensures forall j :: i <= j < |r.elems| ==> r.elems[j] == s.elems[j + 1]
    ensures r.cap == s.cap
    ensures Inv(s) ==> Inv(r)
  {
    State(s.elems[..i] + s.elems[i + 1..], s.cap)
  }

  /**
   * `Resize(n)`: truncation when shrinking; otherwise an exact Reserve(n) (no doubling)
   * followed by default-valued elements up to size n.
   */
  function Resized(s: State, n: nat): (r: State)
    ensures |r.elems| == n
    ensures forall j :: 0 <= j < n && j < |s.elems| ==> r.elems[j] == s.elems[j]
    ensures forall j :: |s.elems| <= j < n ==> r.elems[j] == Default
    ensures Inv(s) ==> Inv(r) && r.cap == if n > s.cap then n else s.cap
  {
    if n <= |s.elems| then State(s.elems[..n], s.cap)
    else
      var g := Reserved(s, n);
      State(g.elems + seq(n - |s.elems|, _ => Default), g.cap)
  }

  /** `Clear()`: no live elements, capacity kept. */
  function Cleared(s: State): (r: State)
    ensures r.elems == [] && r.cap == s.cap
    ensures Inv(r)
  {
    State([], s.cap)
  }

  /** PopBack undoes PushBack on the contents (the capacity may have grown). */
  lemma PushBackPopBack(s: State, x: int)
    ensures PoppedBack(PushedBack(s, x)).elems == s.elems
    ensures PoppedBack(PushedBack(s, x)).cap >= s.cap
  {
  }

  /** Erasing at the position Insert returned restores the contents. */
  lemma InsertThenErase(s: State, i: nat, x: int)
    requires i <= |s.elems|
    ensures Erased(Inserted(s, i, x), i).elems == s.elems
  {
  }

  /** Inserting at end() is the same operation as PushBack. */
  lemma InsertAtEndIsPushBack(s: State, x: int)
    ensures Inserted(s, |s.elems|, x) == PushedBack(s, x)
  {
  }

  /** Resizing to the current size changes nothing; resizing twice to `n` is resizing once. */
  lemma ResizeIdempotent(s: State, n: nat)
    requires Inv(s)
    ensures Resized(s, |s.elems|) == s
    ensures Resized(Resized(s, n), n) == Resized(s, n)
  {
  }

  /** Growing by Resize and shrinking back restores the contents. */
  lemma ResizeGrowThenShrink(s: State, n: nat)
    requires |s.elems| <= n
    ensures Resized(Resized(s, n), |s.elems|).elems == s.elems
  {
  }

  /** The state after pushing `xs` one by one onto `s`. */
  function PushedAll(s: State, xs: seq<int>): State
  {
    if xs == [] then s else PushedBack(PushedAll(s, xs[..|xs| - 1]), xs[|xs| - 1])
  }

  predicate IsPowerOfTwo(n: nat)
  {
    n == 1 || (n > 1 && n % 2 == 0 && IsPowerOfTwo(n / 2))
  }

  lemma DoubleIsPowerOfTwo(n: nat)
    requires IsPowerOfTwo(n)
    ensures IsPowerOfTwo(2 * n)
  {
  }

  /**
   * The amortised-growth bound of the doubling policy: pushing `xs` onto a default-constructed
   * vector leaves exactly `xs`, with a power-of-two capacity that is less than twice the size.
   */
  lemma {:induction false} DoublingFromEmpty(xs: seq<int>)
    ensures PushedAll(State([], 0), xs).elems == xs
    ensures Inv(PushedAll(State([], 0), xs))
    ensures xs != [] ==> IsPowerOfTwo(PushedAll(State([], 0), xs).cap)
    ensures xs != [] ==> PushedAll(State([], 0), xs).cap < 2 * |xs|
  {
    if xs != [] {
      var init := xs[..|xs| - 1];
      DoublingFromEmpty(init);
      var s := PushedAll(State([], 0), init);
      assert s.elems == init;
      if |init| == s.cap && s.cap > 0 {
        DoubleIsPowerOfTwo(s.cap);
      }
      assert PushedAll(State([], 0), xs).elems == init + [xs[|xs| - 1]];
      assert init + [xs[|xs| - 1]] == xs;
    }
  }
}

/**
 * The standard algorithms the vector runs over its block: `std::fill`, `std::copy` /
 * `std::move` into a fresh block, `std::move_backward` and `std::move` within a block.
 * Elements are `int`, so a move leaves the moved-from slot holding its old value.
 */
module ArrayAlgorithms {

  /** `std::fill(a, a + n, value)`. */
  method Fill(a: array<int>, n: nat, value: int)
    requires n <= a.Length
    modifies a
    ensures a[..n] == seq(n, _ => value)
    ensures a[n..] == old(a[n..])
  {
    for i := 0 to n
      invariant forall k :: 0 <= k < i ==> a[k] == value
      invariant forall k :: i <= k < a.Length ==> a[k] == old(a[k])
    {
      a[i] := value;
    }
  }

  /** `std::copy(src.begin(), src.end(), dst)`: the first |src| slots of `dst` receive `src`. */
  method CopyInto(src: seq<int>, dst: array<int>)
    requires |src| <= dst.Length
    modifies dst
    ensures dst[..|src|] == src
    ensures dst[|src|..] == old(dst[|src|..])
  {
    for i := 0 to |src|
      invariant forall k :: 0 <= k < i ==> dst[k] == src[k]
      invariant forall k :: i <= k < dst.Length ==> dst[k] == old(dst[k])
    {
      dst[i] := src[i];
    }
  }

  /**
   * `std::move_backward(a + first, a + last, a + last + 1)`: slots [first, last) move one place
   * to the right, highest first so that nothing is overwritten before it is read.
   */
  method MoveBackward(a: array<int>, first: nat, last: nat)
    requires first <= last < a.Length
    modifies a
    ensures forall k :: 0 <= k <= first ==> a[k] == old(a[k])
    ensures forall k :: first < k <= last ==> a[k] == old(a[k - 1])
    ensures forall k :: last < k < a.Length ==> a[k] == old(a[k])
  {
    var j := last;
    while j > first
      invariant first <= j <= last
      invariant forall k :: 0 <= k <= j ==> a[k] == old(a[k])
      invariant forall k :: j < k <= last ==> a[k] == old(a[k - 1])
      invariant forall k :: last < k < a.Length ==> a[k] == old(a[k])
    {
      a[j] := a[j - 1];
      j := j - 1;
    }
  }

  /**
   * `std::move(a + first + 1, a + last, a + first)`: slots (first, last) move one place to the
   * left, lowest first; slot `last - 1` keeps its moved-from value.
   */
  method MoveForward(a: array<int>, first: nat, last: nat)
    requires first < last <= a.Length
    modifies a
    ensures forall k :: 0 <= k < first ==> a[k] == old(a[k])
    ensures forall k :: first <= k < last - 1 ==> a[k] == old(a[k + 1])
    ensures forall k :: last - 1 <= k < a.Length ==> a[k] == old(a[k])
  {
    for j := first to last - 1
      invariant forall k :: 0 <= k < first ==> a[k] == old(a[k])
      invariant forall k :: first <= k < j ==> a[k] == old(a[k + 1])
      invariant forall k :: j <= k < a.Length ==> a[k] == old(a[k])
    {
      a[j] := a[j + 1];
    }
  }
}

/**
 * SimpleVector: a growable array of `int` over a block of `capacity` slots, of which the
 * first `size` hold the live elements. The storage owner is flattened into the `data`
 * field; an empty array stands for a null owner (capacity 0). Iterators are indices:
 * begin() is 0 and end() is `size`.
 */
module Vector {
  import opened Wrappers
  import opened VectorModel
  import ArrayAlgorithms
  import Lexicographic

  /** The reservation token: a requested capacity and nothing else. */
  datatype ReserveProxyObj = ReserveProxyObj(capacity: nat)
  {
    /** The requested capacity; a token is determined by it. */
    function GetCapacity(): (n: nat)
      ensures ReserveProxyObj(n) == this
    {
      capacity
    }
  }

  /** The free function `Reserve(n)` that builds a token for the reserving constructor. */
  function Reserve(capacityToReserve: nat): (token: ReserveProxyObj)
    ensures token.GetCapacity() == capacityToReserve
  {
    ReserveProxyObj(capacityToReserve)
  }

  class SimpleVector {
    var size: nat
    var capacity: nat
    var data: array<int>

    /** size_ <= capacity_, and the block has exactly capacity_ slots. */
    ghost predicate Valid()
      reads this
    {
      size <= capacity && data.Length == capacity
    }

    /** The live elements, slots [0, size). */
    function Elements(): (s: seq<int>)
      requires Valid()
      reads this, data
      ensures |s| == size
    {
      data[..size]
    }

    /** The abstract state the operations of VectorModel act on. */
    ghost function Model(): (s: State)
      requires Valid()
      reads this, data
      ensures Inv(s)
    {
      State(Elements(), capacity)
    }

    /** The default constructor: no elements, no block. */
    constructor ()
      ensures Valid() && fresh(data)
      ensures Model() == State([], 0)
    {
      size, capacity := 0, 0;
      data := new int[0];
    }

    /** Construction from a reservation token: empty, with the token's capacity reserved. */
    constructor WithReserve(token: ReserveProxyObj)
      ensures Valid() && fresh(data)
      ensures Model() == State([], token.GetCapacity())
    {
      size, capacity := 0, 0;
      data := new int[0];
      new;
      Reserve(token.GetCapacity());
    }

    /** `SimpleVector(n)`: `n` default-valued elements, capacity exactly `n`. */
    constructor OfSize(n: nat)
      ensures Valid() && fresh(data)
      ensures Model() == State(seq(n, _ => Default), n)
    {
      var block := new int[n];
      ArrayAlgorithms.Fill(block, n, Default);
      size, capacity, data := n, n, block;
    }

    /** `SimpleVector(n, value)`: `n` copies of `value`, capacity exactly `n`. */
    constructor Filled(n: nat, value: int)
      ensures Valid() && fresh(data)
      ensures Model() == State(seq(n, _ => value), n)
    {
      var block := new int[n];
      ArrayAlgorithms.Fill(block, n, value);
      size, capacity, data := n, n, block;
    }

    /** Construction from an initializer list: its elements in order, capacity its length. */
    constructor FromList(init: seq<int>)
      ensures Valid() && fresh(data)
      ensures Model() == State(init, |init|)
    {
      var block := new int[|init|];
      ArrayAlgorithms.CopyInto(init, block);
      size, capacity, data := |init|, |init|, block;
    }

    /**
     * Copy construction: the same elements and the source's capacity, in a fresh block,
     * so that later changes to either vector never reach the other.
     */
    constructor Copy(other: SimpleVector)
      requires other.Valid()
      ensures Valid() && fresh(data)
      ensures Model() == other.Model()
    {
      var block := new int[other.capacity];
      ArrayAlgorithms.CopyInto(other.data[..other.size], block);
      size, capacity, data := other.size, other.capacity, block;
    }

    /** Move construction: takes the source's block, size and capacity; the source is left empty. */
    constructor Move(other: SimpleVector)
      requires other.Valid()
      modifies other
      ensures Valid() && other.Valid()
      ensures data == old(other.data) && Model() == old(other.Model())
      ensures other.Model() == State([], 0) && fresh(other.data)
    {
      size, capacity, data := other.size, other.capacity, other.data;
      new;
      other.size, other.capacity := 0, 0;
      other.data := new int[0];
    }

    /**
     * Copy assignment by copy-and-swap: this vector ends up with the source's elements and
     * capacity in a fresh block; assigning a vector to itself changes nothing.
     */
    method CopyAssign(rhs: SimpleVector)
      requires Valid() && rhs.Valid()
      modifies this
      ensures Valid() && rhs.Valid()
      ensures Model() == old(rhs.Model()) && rhs.Model() == old(rhs.Model())
      ensures rhs != this ==> fresh(data)
      ensures rhs == this ==> data == old(data)
    {
      if this != rhs {
        var tmp := new SimpleVector.Copy(rhs);
        Swap(tmp);
      }
    }

    /**
     * Move assignment: for distinct vectors this one takes over the source's block, size and
     * capacity and the source is left empty; self-assignment changes nothing.
     */
    method MoveAssign(other: SimpleVector)
      requires Valid() && other.Valid()
      modifies this, other
      ensures Valid() && other.Valid()
      ensures other == this ==> data == old(data) && Model() == old(Model())
      ensures other != this ==> data == old(other.data) && Model() == old(other.Model())
      ensures other != this ==> other.Model() == State([], 0) && fresh(other.data)
    {
      if this != other {
        size, other.size := other.size, 0;
        capacity, other.capacity := other.capacity, 0;
        data := other.data;
        other.data := new int[0];
      }
    }

    /** Exchanges size, capacity and block with `other`; no element is touched. */
    method Swap(other: SimpleVector)
      requires Valid() && other.Valid()
      modifies this, other
      ensures Valid() && other.Valid()
      ensures data == old(other.data) && other.data == old(data)
      ensures Model() == old(other.Model()) && other.Model() == old(Model())
    {
      var s, c, d := size, capacity, data;
      size, capacity, data := other.size, other.capacity, other.data;
      other.size, other.capacity, other.data := s, c, d;
    }

    function GetSize(): (n: nat)
      requires Valid()
      reads this, data
      ensures n == |Elements()|
    {
      size
    }

    function GetCapacity(): (n: nat)
      requires Valid()
      reads this, data
      ensures n == Model().cap && n >= GetSize()
    {
      capacity
    }

    function IsEmpty(): (b: bool)
      requires Valid()
      reads this, data
      ensures b <==> Elements() == []
    {
      size == 0
    }

    /** begin(): together with end(), the range covers exactly the live elements. */
    function Begin(): (it: nat)
      requires Valid()
      reads this, data
      ensures it <= End() && Elements()[it..End()] == Elements()
    {
      0
    }

    /** end(): one past the last live element. */
    function End(): (it: nat)
      requires Valid()
      reads this, data
      ensures it == |Elements()|
    {
      size
    }

    /** Unchecked `operator[]` read; the caller must keep `index` below the size. */
    function Get(index: nat): (x: int)
      requires Valid() && index < size
      reads this, data
      ensures x == Elements()[index]
    {
      data[index]
    }

    /** Unchecked `operator[]` as an lvalue: element `index` becomes `x`, nothing else changes. */
    method Set(index: nat, x: int)
      requires Valid() && index < size
      modifies data
      ensures Valid()
      ensures Model() == State(old(Elements())[index := x], capacity)
    {
      data[index] := x;
    }

    /** Checked `At` read: an out-of-range failure exactly when `index >= size`. */
    function At(index: nat): (r: Result<int>)
      requires Valid()
      reads this, data
      ensures r.Failure? <==> index >= |Elements()|
      ensures r.Failure? ==> r.error == OutOfRange
      ensures r.Success? ==> r.value == Elements()[index]
    {
      if index >= size then Failure(OutOfRange) else Success(data[index])
    }

    /** Checked `At` as an lvalue: fails out of range and changes nothing, else writes element `index`. */
    method SetAt(index: nat, x: int) returns (r: Outcome)
      requires Valid()
      modifies data
      ensures Valid()
      ensures r.Fail? <==> index >= old(size)
      ensures r.Fail? ==> r.error == OutOfRange && Model() == old(Model())
      ensures r.Pass? ==> Model() == State(old(Elements())[index := x], capacity)
    {
      if index >= size {
        r := Fail(OutOfRange);
      } else {
        data[index] := x;
        r := Pass;
      }
    }

    /** Destroys every live element: the size becomes 0, the capacity and block stay. */
    method Clear()
      requires Valid()
      modifies this
      ensures Valid() && data == old(data)
      ensures Model() == Cleared(old(Model()))
    {
      size := 0;
    }

    /**
     * Grows the block to exactly `newCapacity` slots when that is more than the capacity,
     * relocating the live elements into a fresh block; otherwise does nothing.
     */
    method Reserve(newCapacity: nat)
      requires Valid()
      modifies this
      ensures Valid()
      ensures Model() == Reserved(old(Model()), newCapacity)
      ensures newCapacity > old(capacity) ==> fresh(data)
      ensures newCapacity <= old(capacity) ==> data == old(data)
    {
      if newCapacity > capacity {
        var block := new int[newCapacity];
        ArrayAlgorithms.CopyInto(data[..size], block);
        data := block;
        capacity := newCapacity;
      }
    }

    /**
     * Sets the size to `newSize`: truncates when shrinking; otherwise reserves exactly
     * `newSize` slots (no doubling) and fills the new positions with `Default`.
     */
    method Resize(newSize: nat)
      requires Valid()
      modifies this, data
      ensures Valid()
      ensures Model() == Resized(old(Model()), newSize)
      ensures newSize > old(capacity) ==> fresh(data)
      ensures newSize <= old(capacity) ==> data == old(data)
    {
      if newSize > size {
        Reserve(newSize);
        for i := size to newSize
          invariant Valid() && newSize <= capacity && size == old(size)
          invariant capacity == Reserved(old(Model()), newSize).cap
          invariant newSize > old(capacity) ==> fresh(data)
          invariant newSize <= old(capacity) ==> data == old(data)
          invariant data[..size] == old(Elements())
          invariant forall k :: size <= k < i ==> data[k] == Default
        {
          data[i] := Default;
        }
      }
      size := newSize;
      assert Elements() == Resized(old(Model()), newSize).elems;
    }

    /** Appends `x`, growing by the doubling policy when the vector is full. */
    method PushBack(x: int)
      requires Valid()
      modifies this, data
      ensures Valid()
      ensures Model() == PushedBack(old(Model()), x)
      ensures old(size) == old(capacity) ==> fresh(data)
      ensures old(size) < old(capacity) ==> data == old(data)
    {
      if size == capacity {
        Reserve(GrownCapacity(capacity));
      }
      data[size] := x;
      size := size + 1;
    }

    /** Removes the last element; the vector must not be empty. */
    method PopBack()
      requires Valid() && size > 0
      modifies this
      ensures Valid() && data == old(data)
      ensures Model() == PoppedBack(old(Model()))
    {
      size := size - 1;
    }

    /**
     * Inserts `value` before position `pos` (0 <= pos <= size), shifting the tail right, and
     * returns the position of the new element.
     */
    method Insert(pos: nat, value: int) returns (it: nat)
      requires Valid() && pos <= size
      modifies this, data
      ensures Valid() && it == pos
      ensures Model() == Inserted(old(Model()), pos, value)
      ensures Elements()[it] == value
      ensures old(size) == old(capacity) ==> fresh(data)
      ensures old(size) < old(capacity) ==> data == old(data)
    {
      if size == capacity {
        Reserve(GrownCapacity(capacity));
      }
      if pos != size {
        ArrayAlgorithms.MoveBackward(data, pos, size);
      }
      data[pos] := value;
      size := size + 1;
      it := pos;
    }

    /**
     * Insert with a value argument that refers to element `j` of this same vector, on a vector
     * that is not full, in the order the source performs the steps: the tail is shifted first
     * and the referenced slot is read afterwards. The result is `InsertedFromOwnElement`, not
     * `Inserted(..., old(Elements())[j])` (see `InsertFromOwnElementReads`).
     */
    method InsertOwnElement(pos: nat, j: nat) returns (it: nat)
      requires Valid() && pos <= size && j < size && size < capacity
      modifies this, data
      ensures Valid() && it == pos && data == old(data)
      ensures Model() == InsertedFromOwnElement(old(Model()), pos, j)
    {
      if pos != size {
        ArrayAlgorithms.MoveBackward(data, pos, size);
      }
      data[pos] := data[j];
      size := size + 1;
      it := pos;
    }

    /**
     * Removes the element at `pos` (0 <= pos < size), shifting the tail left, and returns the
     * position that now holds the element after the erased one (end() if it was the last).
     */
    method Erase(pos: nat) returns (it: nat)
      requires Valid() && pos < size
      modifies this, data
      ensures Valid() && data == old(data) && it == pos
      ensures Model() == Erased(old(Model()), pos)
      ensures it < End() ==> Elements()[it] == old(Elements())[pos + 1]
    {
      ArrayAlgorithms.MoveForward(data, pos, size);
      size := size - 1;
      it := pos;
    }
  }

  /** `operator==`: equal sizes and pairwise equal elements, i.e. the same contents. */
  function Equal(lhs: SimpleVector, rhs: SimpleVector): (r: bool)
    requires lhs.Valid() && rhs.Valid()
    reads lhs, lhs.data, rhs, rhs.data
    ensures r <==> lhs.Elements() == rhs.Elements()
  {
    var a, b := lhs.Elements(), rhs.Elements();
    if |a| == |b| then
      Lexicographic.SameSizeRangesEqual(a, b);
      Lexicographic.RangesEqual(a, b)
    else false
  }

  /** `operator!=`. */
  function NotEqual(lhs: SimpleVector, rhs: SimpleVector): (r: bool)
    requires lhs.Valid() && rhs.Valid()
    reads lhs, lhs.data, rhs, rhs.data
    ensures r <==> lhs.Elements() != rhs.Elements()
  {
    !Equal(lhs, rhs)
  }

  /** `operator<`: lexicographic order, decided at the first differing position. */
  function Less(lhs: SimpleVector, rhs: SimpleVector): (r: bool)
    requires lhs.Valid() && rhs.Valid()
    reads lhs, lhs.data, rhs, rhs.data
    ensures r <==> Lexicographic.LessAtFirstDifference(lhs.Elements(), rhs.Elements())
  {
    Lexicographic.LexLessMeaning(lhs.Elements(), rhs.Elements());
    Lexicographic.LexLess(lhs.Elements(), rhs.Elements())
  }

  /** `operator<=`, written as `!(rhs < lhs)`: less or equal. */
  function LessOrEqual(lhs: SimpleVector, rhs: SimpleVector): (r: bool)
    requires lhs.Valid() && rhs.Valid()
    reads lhs, lhs.data, rhs, rhs.data
    ensures r <==> Less(lhs, rhs) || lhs.Elements() == rhs.Elements()
  {
    Lexicographic.LexLessTotal(lhs.Elements(), rhs.Elements());
    Lexicographic.LexLessAsymmetric(lhs.Elements(), rhs.Elements());
    !Less(rhs, lhs)
  }

  /** `operator>`, written as `rhs < lhs`. */
  function Greater(lhs: SimpleVector, rhs: SimpleVector): (r: bool)
    requires lhs.Valid() && rhs.Valid()
    reads lhs, lhs.data, rhs, rhs.data
    ensures r <==> Lexicographic.LessAtFirstDifference(rhs.Elements(), lhs.Elements())
  {
    Less(rhs, lhs)
  }

  /** `operator>=`, written as `!(lhs < rhs)`: greater or equal. */
  function GreaterOrEqual(lhs: SimpleVector, rhs: SimpleVector): (r: bool)
    requires lhs.Valid() && rhs.Valid()
    reads lhs, lhs.data, rhs, rhs.data
    ensures r <==> Greater(lhs, rhs) || lhs.Elements() == rhs.Elements()
  {
    Lexicographic.LexLessTotal(lhs.Elements(), rhs.Elements());
    Lexicographic.LexLessAsymmetric(lhs.Elements(), rhs.Elements());
    !Less(lhs, rhs)
  }
}

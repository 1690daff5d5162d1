/**
 * The storage owner: a move-only holder of at most one contiguous block.
 * A raw pointer is an `Option<array<T>>`; `None` is the null pointer.
 * Freeing a block (`delete[]`) has no observable effect on values and is not modelled.
 */
module ArrayPointer {
  import opened Wrappers

  class ArrayPtr<T(0)> {
    /** The held block, or `None` when the owner is null. */
    var buf: Option<array<T>>

    /** The default constructor: an owner that holds nothing. */
    constructor ()
      ensures !IsHeld()
    {
      buf := None;
    }

    /** Allocates `size` slots, or stays null when `size` is zero. */
    constructor OfSize(size: nat)
      ensures IsHeld() <==> size > 0
      ensures IsHeld() ==> fresh(buf.value) && buf.value.Length == size
    {
      if size == 0 {
        buf := None;
      } else {
        var block := new T[size];
        buf := Some(block);
      }
    }

    /** Adopts a raw pointer without allocating: the owner now holds exactly `raw`. */
    constructor Adopt(raw: Option<array<T>>)
      ensures Get() == raw
    {
      buf := raw;
    }

    /** Move construction: the new owner takes the block and the source becomes null. */
    constructor Move(other: ArrayPtr<T>)
      modifies other
      ensures Get() == old(other.Get())
      ensures !other.IsHeld()
    {
      buf := other.buf;
      new;
      other.buf := None;
    }

    /**
     * Move assignment. For two distinct owners the block passes to this one and the
     * source becomes null; assigning an owner to itself changes nothing.
     */
    method MoveAssign(other: ArrayPtr<T>)
      modifies this, other
      ensures other == this ==> Get() == old(Get())
      ensures other != this ==> Get() == old(other.Get()) && !other.IsHeld()
    {
      if this != other {
        buf := other.buf;
        other.buf := None;
      }
    }

    /** Gives up ownership: returns the block held before (possibly null) and becomes null. */
    method Release() returns (raw: Option<array<T>>)
      modifies this
      ensures raw == old(Get())
      ensures !IsHeld()
    {
      raw := buf;
      buf := None;
    }

    /** `operator bool`: whether a block is held, i.e. whether `Get` is non-null. */
    predicate IsHeld()
      reads this
      ensures IsHeld() <==> Get() != None
    {
      buf != None
    }

    /** The held raw pointer; reading it leaves ownership as it was. */
    function Get(): (raw: Option<array<T>>)
      reads this
      ensures raw.Some? <==> buf.Some?
      ensures raw.Some? ==> raw.value == buf.value
    {
      buf
    }

    /** Unchecked `operator[]` used as a value: slot `index` of the held block. */
    function ElementAt(index: nat): (x: T)
      requires IsHeld() && index < buf.value.Length
      reads this, buf.value
      ensures x == Get().value[index]
    {
      buf.value[index]
    }

    /** Unchecked `operator[]` used as an lvalue: overwrites slot `index`, nothing else. */
    method SetElementAt(index: nat, x: T)
      requires IsHeld() && index < buf.value.Length
      modifies buf.value
      ensures Get() == old(Get())
      ensures buf.value[..] == old(buf.value[..])[index := x]
    {
      buf.value[index] := x;
    }

    /** Exchanges the blocks held by the two owners and changes nothing else. */
    method Swap(other: ArrayPtr<T>)
      modifies this, other
      ensures Get() == old(other.Get())
      ensures other.Get() == old(Get())
    {
      var mine := buf;
      buf := other.buf;
      other.buf := mine;
    }
  }
}

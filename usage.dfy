/**
 * Client code that relies on the contracts alone: the worked usage scenarios of the
 * container, each outcome asserted.
 */
module Usage {
  import opened Wrappers
  import opened VectorModel
  import opened Vector

  /** Three pushes from empty (capacity 0, 1, 2, 4), an insert, an erase, a failed checked access. */
  method PushInsertErase()
  {
    var v := new SimpleVector();
    v.PushBack(1);
    v.PushBack(2);
    v.PushBack(3);
    assert v.Elements() == [1, 2, 3];
    assert v.GetCapacity() == 4;
    var it := v.Insert(1, 9);
    assert v.Elements() == [1, 9, 2, 3];
    it := v.Erase(2);
    assert v.Elements() == [1, 9, 3];
    assert v.At(5) == Failure(OutOfRange);
  }

  /** A filled vector grown with default values, then truncated. */
  method FillThenResize()
  {
    var v := new SimpleVector.Filled(3, 7);
    assert v.Elements() == [7, 7, 7];
    v.Resize(5);
    assert v.Elements() == [7, 7, 7, Default, Default];
    v.Resize(2);
    assert v.Elements() == [7, 7];
  }

  /** Copies compare equal and are independent; a moved-from vector is empty and can be reused. */
  method CopyAndMove()
  {
    var a := new SimpleVector.FromList([1, 2, 3]);
    var b := new SimpleVector.Copy(a);
    assert Equal(a, b);
    b.PushBack(4);
    assert a.Elements() == [1, 2, 3];
    assert Lexicographic.FirstDifferenceFavours(a.Elements(), b.Elements(), 3);
    assert Less(a, b);
    var c := new SimpleVector.Move(b);
    assert c.Elements() == [1, 2, 3, 4] && b.Elements() == [];
    b.PushBack(5);
    assert b.Elements() == [5];
    c.MoveAssign(b);
    assert c.Elements() == [5] && b.Elements() == [];
    b.PushBack(6);
    assert b.Elements() == [6] && c.Elements() == [5];
  }

  /** Orderings: a smaller element decides, and a proper prefix comes first. */
  method Orderings()
  {
    var x := new SimpleVector.FromList([1, 2, 3]);
    var y := new SimpleVector.FromList([1, 2, 4]);
    var z := new SimpleVector.FromList([1, 2]);
    assert Lexicographic.FirstDifferenceFavours(x.Elements(), y.Elements(), 2);
    assert Less(x, y);
    assert Lexicographic.FirstDifferenceFavours(z.Elements(), x.Elements(), 2);
    assert Less(z, x) && !Less(x, z);
  }
}

/**
 * The two element-range algorithms behind the vector's comparison operators:
 * `std::equal` and `std::lexicographical_compare`, over the live elements
 * of two vectors given as sequences.
 */
module Lexicographic {

  /** `std::equal(a.begin(), a.end(), b.begin())`: each element of `a` equals the one at the same position in `b`. */
  function RangesEqual(a: seq<int>, b: seq<int>): (r: bool)
    requires |a| <= |b|
    ensures r <==> forall k :: 0 <= k < |a| ==> a[k] == b[k]
  {
    if a == [] then true else a[0] == b[0] && RangesEqual(a[1..], b[1..])
  }

  /** Pairwise equality over the shorter range is exactly "`a` is a prefix of `b`". */
  lemma {:induction false} RangesEqualIsPrefix(a: seq<int>, b: seq<int>)
    requires |a| <= |b|
    ensures RangesEqual(a, b) <==> a == b[..|a|]
  {
    if a != [] {
      RangesEqualIsPrefix(a[1..], b[1..]);
      assert a == [a[0]] + a[1..];
      assert b[..|a|] == [b[0]] + b[1..][..|a| - 1];
    }
  }

  /** Equal sizes and pairwise equal elements is plain sequence equality. */
  lemma SameSizeRangesEqual(a: seq<int>, b: seq<int>)
    requires |a| == |b|
    ensures RangesEqual(a, b) <==> a == b
  {
    RangesEqualIsPrefix(a, b);
    assert b[..|a|] == b;
  }

  /**
   * `std::lexicographical_compare(a.begin(), a.end(), b.begin(), b.end())`, step by step:
   * running out of `b` first answers false, a smaller element answers true, a larger
   * one false; running out of `a` answers whether `b` still has elements.
   */
  function LexLess(a: seq<int>, b: seq<int>): (r: bool)
    ensures r ==> a != b
  {
    if a == [] then b != []
    else if b == [] then false
    else if a[0] < b[0] then true
    else if b[0] < a[0] then false
    else LexLess(a[1..], b[1..])
  }

  /**
   * The textbook definition, independent of the step-by-step one: `a` and `b` agree on
   * their first `k` elements, and at position `k` either `a` has ended while `b` has not,
   * or both go on and `a` holds the smaller element.
   */
  ghost predicate FirstDifferenceFavours(a: seq<int>, b: seq<int>, k: nat)
  {
    k <= |a| && k <= |b| && a[..k] == b[..k] &&
    if k == |a| then k < |b| else k < |b| && a[k] < b[k]
  }

  ghost predicate LessAtFirstDifference(a: seq<int>, b: seq<int>)
  {
    exists k: nat :: FirstDifferenceFavours(a, b, k)
  }

  lemma {:induction false} LexLessWitness(a: seq<int>, b: seq<int>) returns (k: nat)
    requires LexLess(a, b)
    ensures FirstDifferenceFavours(a, b, k)
  {
    if a == [] || a[0] < b[0] {
      k := 0;
    } else {
      var rest := LexLessWitness(a[1..], b[1..]);
      k := rest + 1;
      assert a[..k] == [a[0]] + a[1..][..rest];
      assert b[..k] == [b[0]] + b[1..][..rest];
    }
  }

  lemma {:induction false} WitnessGivesLexLess(a: seq<int>, b: seq<int>, k: nat)
    requires FirstDifferenceFavours(a, b, k)
    ensures LexLess(a, b)
  {
    if k > 0 {
      assert a[0] == a[..k][0] && b[0] == b[..k][0];
      assert a[1..][..k - 1] == a[..k][1..];
      assert b[1..][..k - 1] == b[..k][1..];
      WitnessGivesLexLess(a[1..], b[1..], k - 1);
    }
  }

  /** `std::lexicographical_compare` computes exactly the first-difference order. */
  lemma LexLessMeaning(a: seq<int>, b: seq<int>)
    ensures LexLess(a, b) <==> LessAtFirstDifference(a, b)
  {
    if LexLess(a, b) {
      var k := LexLessWitness(a, b);
    }
    if LessAtFirstDifference(a, b) {
      var k: nat :| FirstDifferenceFavours(a, b, k);
      WitnessGivesLexLess(a, b, k);
    }
  }

  /** Two ranges are never each less than the other. */
  lemma {:induction false} LexLessAsymmetric(a: seq<int>, b: seq<int>)
    ensures !(LexLess(a, b) && LexLess(b, a))
  {
    if a != [] && b != [] && a[0] == b[0] {
      LexLessAsymmetric(a[1..], b[1..]);
    }
  }

  lemma {:induction false} LexLessTransitive(a: seq<int>, b: seq<int>, c: seq<int>)
    requires LexLess(a, b) && LexLess(b, c)
    ensures LexLess(a, c)
  {
    if a != [] && b != [] && c != [] && a[0] == b[0] && b[0] == c[0] {
      LexLessTransitive(a[1..], b[1..], c[1..]);
    }
  }

  /** Any two ranges are ordered one way or the other, or are equal. */
  lemma {:induction false} LexLessTotal(a: seq<int>, b: seq<int>)
    ensures LexLess(a, b) || a == b || LexLess(b, a)
  {
    if a != [] && b != [] && a[0] == b[0] {
      LexLessTotal(a[1..], b[1..]);
      if a[1..] == b[1..] {
        assert a == [a[0]] + a[1..] && b == [b[0]] + b[1..];
      }
    }
  }

  /** A proper prefix comes first. */
  lemma {:induction false} ProperPrefixIsLess(a: seq<int>, b: seq<int>)
    requires |a| < |b| && a == b[..|a|]
    ensures LexLess(a, b)
  {
    if a != [] {
      assert a[0] == b[0];
      assert a[1..] == b[1..][..|a| - 1];
      ProperPrefixIsLess(a[1..], b[1..]);
    }
  }
}

/**
 * The range algorithms the container's comparison operators are built on
 * (`std::equal`, `std::lexicographical_compare`,
 * `std::lexicographical_compare_three_way`), over the element sequences of two
 * containers, with the order properties of lexicographic comparison.
 */
module Lexicographic {

  /** The result of a three-way comparison (`std::strong_ordering`). */
  datatype StrongOrdering = OrderLess | OrderEqual | OrderGreater

  /**
   * Reference definition of "`a` comes before `b`": at the first position where
   * they differ `a` holds the smaller element, or `a` is a proper prefix of `b`.
   */
  ghost predicate LexBefore(a: seq<int>, b: seq<int>)
  {
    exists k :: 0 <= k <= |a| && k <= |b| && a[..k] == b[..k] &&
      ((k == |a| && k < |b|) || (k < |a| && k < |b| && a[k] < b[k]))
  }

  /** `std::equal` over two ranges: equal lengths, then pairwise equal elements. */
  function RangesEqual(a: seq<int>, b: seq<int>): (r: bool)
    ensures r <==> a == b
  {
    if |a| != |b| then false
    else if |a| == 0 then true
    else a[0] == b[0] && RangesEqual(a[1..], b[1..])
  }

  /**
   * `std::lexicographical_compare`: walk both ranges while neither is exhausted;
   * the first unequal pair decides; otherwise `a` is less exactly when it ran out
   * first.  A sequence never comes before an equal one.
   */
  function LexCompare(a: seq<int>, b: seq<int>): (r: bool)
    ensures r ==> a != b
  {
    if |a| == 0 || |b| == 0 then |a| == 0 && |b| != 0
    else if a[0] < b[0] then true
    else if b[0] < a[0] then false
    else LexCompare(a[1..], b[1..])
  }

  /**
   * `std::lexicographical_compare_three_way`, which agrees with `LexCompare` in
   * both directions and with sequence equality.
   */
  function LexCompareThreeWay(a: seq<int>, b: seq<int>): (r: StrongOrdering)
    ensures r == OrderLess <==> LexCompare(a, b)
    ensures r == OrderGreater <==> LexCompare(b, a)
    ensures r == OrderEqual <==> a == b
  {
    if |a| == 0 then (if |b| == 0 then OrderEqual else OrderLess)
    else if |b| == 0 then OrderGreater
    else if a[0] < b[0] then OrderLess
    else if b[0] < a[0] then OrderGreater
    else
      assert a == [a[0]] + a[1..] && b == [b[0]] + b[1..];
      LexCompareThreeWay(a[1..], b[1..])
  }

  /** `LexCompare` is exactly the reference definition `LexBefore`. */
  lemma {:induction false} LexCompareIsLexBefore(a: seq<int>, b: seq<int>)
    ensures LexCompare(a, b) <==> LexBefore(a, b)
  {
    if |a| == 0 || |b| == 0 {
      if LexCompare(a, b) {
        assert a[..0] == b[..0];
      }
    } else if a[0] < b[0] {
      assert a[..0] == b[..0];
    } else if b[0] < a[0] {
      if LexBefore(a, b) {
        var k :| 0 <= k <= |a| && k <= |b| && a[..k] == b[..k] &&
          ((k == |a| && k < |b|) || (k < |a| && k < |b| && a[k] < b[k]));
      }
    } else {
      var a', b' := a[1..], b[1..];
      LexCompareIsLexBefore(a', b');
      if LexBefore(a', b') {
        var k :| 0 <= k <= |a'| && k <= |b'| && a'[..k] == b'[..k] &&
          ((k == |a'| && k < |b'|) || (k < |a'| && k < |b'| && a'[k] < b'[k]));
        assert a[..k + 1] == [a[0]] + a'[..k];
        assert b[..k + 1] == [b[0]] + b'[..k];
      }
      if LexBefore(a, b) {
        var k :| 0 <= k <= |a| && k <= |b| && a[..k] == b[..k] &&
          ((k == |a| && k < |b|) || (k < |a| && k < |b| && a[k] < b[k]));
        assert k > 0;
        assert a'[..k - 1] == a[..k][1..];
        assert b'[..k - 1] == b[..k][1..];
      }
    }
  }

  /** No sequence comes before itself. */
  lemma {:induction false} LexCompareIrreflexive(a: seq<int>)
    ensures !LexCompare(a, a)
  {
    if |a| > 0 {
      LexCompareIrreflexive(a[1..]);
    }
  }

  /** Lexicographic order is transitive. */
  lemma {:induction false} LexCompareTransitive(a: seq<int>, b: seq<int>, c: seq<int>)
    requires LexCompare(a, b) && LexCompare(b, c)
    ensures LexCompare(a, c)
  {
    if |a| > 0 && |b| > 0 && |c| > 0 && a[0] == b[0] == c[0] {
      LexCompareTransitive(a[1..], b[1..], c[1..]);
    }
  }

  /**
   * Lexicographic order is a strict total order: for any two sequences exactly
   * one of `a < b`, `a == b`, `b < a` holds.
   */
  lemma {:induction false} LexCompareTrichotomy(a: seq<int>, b: seq<int>)
    ensures LexCompare(a, b) || a == b || LexCompare(b, a)
    ensures !(LexCompare(a, b) && LexCompare(b, a))
    ensures a == b ==> !LexCompare(a, b)
  {
    if |a| > 0 && |b| > 0 && a[0] == b[0] {
      LexCompareTrichotomy(a[1..], b[1..]);
      assert a == [a[0]] + a[1..] && b == [b[0]] + b[1..];
    }
  }
}

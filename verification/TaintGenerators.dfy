/** Marks handed out round robin. */
module TaintGenerators {
  import opened MachineIntegers

  /** The remainder of machine division, which truncates toward zero. */
  function Remainder(a: int, b: int): int
    requires b > 0
  {
    if a >= 0 then a % b else -((-a) % b)
  }

  /** The k-th mark from a generator's counter. */
  function MarkAt(current: int, max: int, k: nat): int
    requires max > 0
  {
    Remainder(current + k, max)
  }

  /** The k-th mark in terms of the counter: its remainder, from a counter that is not negative by then, and else the
      negated remainder of its magnitude. */
  lemma MarkIs(current: int, max: int, k: nat)
    requires max > 0
    ensures current + k >= 0 ==> MarkAt(current, max, k) == (current + k) % max
    ensures current + k < 0 ==> MarkAt(current, max, k) == -((-current - k) % max)
    ensures -max < MarkAt(current, max, k) < max
    ensures exists q: int :: current + k == max * q + MarkAt(current, max, k)
  {
    var a := current + k;
    if a >= 0 {
      assert a == max * (a / max) + a % max;
    } else {
      assert -a == max * (-a / max) + -a % max;
      Negated(max, -a / max);
      assert a == max * -(-a / max) + MarkAt(current, max, k);
    }
  }

  lemma Negated(b: int, q: int)
    ensures b * -q == -(b * q)
  {
  }

  class TaintGenerator {
    var current: int
    var max: int

    constructor (start: int, max: int)
      ensures current == start && this.max == max
    {
      current, this.max := start, max;
    }

    method NextTaintMark() returns (mark: int)
      requires max > 0 && current < INT_MAX
      modifies `current
      ensures current == old(current) + 1 && mark == MarkAt(old(current), max, 1)
    {
      current := current + 1;
      mark := Remainder(current, max);
    }
  }

  /** Marks are proper exactly when the counter has not been negative or is a multiple of max. */
  lemma MarkIsProperIff(current: int, max: int, k: nat)
    requires max > 0
    ensures MarkAt(current, max, k) < max
    ensures MarkAt(current, max, k) >= 0 <==> current + k >= 0 || (current + k) % max == 0
  {
    if current + k < 0 {
      NegatedRemainder(current + k, max);
    }
  }

  lemma NegatedRemainder(a: int, b: int)
    requires b > 0 && a < 0
    ensures (-a) % b == 0 <==> a % b == 0
  {
    if (-a) % b == 0 {
      RemainderIs(a, b, -((-a) / b), 0);
    }
    if a % b == 0 {
      RemainderIs(-a, b, -(a / b), 0);
    }
  }

  lemma RemainderIs(a: int, b: int, q: int, r: int)
    requires b > 0 && a == b * q + r && 0 <= r < b
    ensures a % b == r
  {
    SameParts(b, a / b, a % b, q, r);
  }

  lemma SameParts(b: int, p: int, t: int, q: int, r: int)
    requires b > 0 && 0 <= r < b && 0 <= t < b && b * p + t == b * q + r
    ensures t == r
  {
    if p < q {
      AtLeastOnce(b, p, q);
    } else if p > q {
      AtLeastOnce(b, q, p);
    }
  }

  lemma {:induction false} AtLeastOnce(b: int, p: int, q: int)
    requires b > 0 && p < q
    ensures b * q >= b * p + b
    decreases q - p
  {
    OneMore(b, q - 1);
    if p < q - 1 {
      AtLeastOnce(b, p, q - 1);
    }
  }

  lemma OneMore(b: int, p: int)
    ensures b * (p + 1) == b * p + b
  {
  }

  /** Two marks are the same exactly when their numbers differ by a multiple of max. */
  lemma SameMarkIff(current: int, max: int, j: nat, k: nat)
    requires max > 0 && current + j >= 0 && j <= k
    ensures MarkAt(current, max, j) == MarkAt(current, max, k) <==> (k - j) % max == 0
  {
    var a, b := current + j, current + k;
    if a % max == b % max {
      RemainderIs(k - j, max, b / max - a / max, 0);
    }
    if (k - j) % max == 0 {
      RemainderIs(b, max, a / max + (k - j) / max, a % max);
    }
  }

  /** Any max consecutive marks are pairwise distinct. */
  lemma WindowIsDistinct(current: int, max: int, j: nat, k: nat)
    requires max > 0 && current + j >= 0 && j < k < j + max
    ensures MarkAt(current, max, j) != MarkAt(current, max, k)
  {
    SameMarkIff(current, max, j, k);
  }

  /** Any max consecutive marks cover 0 to max - 1. */
  lemma WindowCovers(current: int, max: int, k: nat, mark: nat) returns (j: nat)
    requires max > 0 && current + k >= 0 && mark < max
    ensures k <= j < k + max && MarkAt(current, max, j) == mark
  {
    var a := current + k;
    var r := a % max;
    var d := if mark >= r then mark - r else mark - r + max;
    j := k + d;
    RemainderIs(a + d, max, a / max + (if mark >= r then 0 else 1), mark);
  }

  /** The first n marks are pairwise distinct if and only if n is at most max. */
  lemma FirstMarksDistinctIff(current: int, max: int, n: nat)
    requires max > 0 && current >= -1
    ensures (forall j, k | 1 <= j < k <= n :: MarkAt(current, max, j) != MarkAt(current, max, k)) <==> n <= max
  {
    if n <= max {
      forall j, k | 1 <= j < k <= n ensures MarkAt(current, max, j) != MarkAt(current, max, k) {
        WindowIsDistinct(current, max, j, k);
      }
    } else {
      SameMarkIff(current, max, 1, 1 + max);
      assert max % max == 0;
    }
  }
}

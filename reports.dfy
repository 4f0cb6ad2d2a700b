/** The arithmetic of the aggregate reports. The source computes in `float`;
    here values are exact reals, and the one float outcome the reports can
    reach besides a number, 0/0 = NaN, is a value of its own. */
module Reports {
  import opened Queries

  /** The result of a float division in a report. */
  datatype Number = Finite(value: real) | NaN

  /** `(part / total) * 100`, NaN when the total is 0 (0/0). */
  function Percentage(part: nat, total: nat): (p: Number)
    requires part <= total
    ensures p.NaN? <==> total == 0
    ensures p.Finite? ==> 0.0 <= p.value <= 100.0
    ensures p.Finite? ==> (p.value == 0.0 <==> part == 0)
    ensures p.Finite? ==> (p.value == 100.0 <==> part == total)
  {
    if total == 0 then NaN else Finite(part as real / total as real * 100.0)
  }

  /** `100 - p`; NaN stays NaN. */
  function Complement(p: Number): (q: Number)
    ensures q.NaN? <==> p.NaN?
    ensures q.Finite? ==> p.value + q.value == 100.0
  {
    match p
    case NaN => NaN
    case Finite(v) => Finite(100.0 - v)
  }

  /** `sum / count`, NaN when the count is 0 (0/0). */
  function Mean(sum: int, count: nat): (m: Number)
    ensures m.NaN? <==> count == 0
    ensures m.Finite? ==> m.value * count as real == sum as real
  {
    if count == 0 then NaN else Finite(sum as real / count as real)
  }

  /** Three shares of their own total add up to 100 percent. */
  lemma PercentagesOfThree(a: nat, b: nat, c: nat)
    requires a + b + c > 0
    ensures var t := a + b + c;
      Percentage(a, t).value + Percentage(b, t).value + Percentage(c, t).value == 100.0
  {
    var t := (a + b + c) as real;
    SharesAdd(a as real, b as real, t);
    SharesAdd((a + b) as real, c as real, t);
  }

  /** Five shares of their own total add up to 100 percent. */
  lemma PercentagesOfFive(a: nat, b: nat, c: nat, d: nat, e: nat)
    requires a + b + c + d + e > 0
    ensures var t := a + b + c + d + e;
      Percentage(a, t).value + Percentage(b, t).value + Percentage(c, t).value
      + Percentage(d, t).value + Percentage(e, t).value == 100.0
  {
    var t := (a + b + c + d + e) as real;
    SharesAdd(a as real, b as real, t);
    SharesAdd((a + b) as real, c as real, t);
    SharesAdd((a + b + c) as real, d as real, t);
    SharesAdd((a + b + c + d) as real, e as real, t);
  }

  /** Percentages of one total add like their parts. */
  lemma SharesAdd(x: real, y: real, t: real)
    requires t > 0.0
    ensures x / t * 100.0 + y / t * 100.0 == (x + y) / t * 100.0
  {
  }

  /** Deriving the negative share as `100 - positive share` gives exactly the
      negative tally's own percentage. */
  lemma ComplementOfShare(positive: nat, negative: nat)
    requires positive + negative > 0
    ensures var t := positive + negative;
      Complement(Percentage(positive, t)) == Percentage(negative, t)
  {
    var t := (positive + negative) as real;
    assert positive as real / t + negative as real / t == 1.0;
  }

  /** The mean of values in `[lo, hi]` lies in `[lo, hi]`. */
  lemma MeanWithin(xs: seq<int>, lo: int, hi: int)
    requires |xs| > 0
    requires forall i | 0 <= i < |xs| :: lo <= xs[i] <= hi
    ensures lo as real <= Mean(Sum(xs), |xs|).value <= hi as real
  {
    SumBounds(xs, lo, hi);
    QuotientWithin(Sum(xs), lo, hi, |xs|);
  }

  lemma QuotientWithin(s: int, lo: int, hi: int, k: nat)
    requires k > 0 && lo * k <= s <= hi * k
    ensures lo as real <= s as real / k as real <= hi as real
  {
    var n := k as real;
    var m := s as real / n;
    assert m * n == s as real;
    assert (lo * k) as real == lo as real * n;
    assert (hi * k) as real == hi as real * n;
    ScaleCancels(lo as real, m, n);
    ScaleCancels(m, hi as real, n);
  }

  lemma ScaleCancels(a: real, b: real, n: real)
    requires n > 0.0 && a * n <= b * n
    ensures a <= b
  {
  }
}

/** Small arithmetic shared by the modules: absolute value, the
    probability a pmf table gives a point, and sums of a real-valued
    function over a list of points or over an interval of integers. */
module Sums {
  import opened Dicts

  function Abs(x: real): real {
    if x < 0.0 then -x else x
  }

  /** pmf[y], or 0 off the support. */
  function Prob(pmf: map<int, real>, y: int): real {
    if y in pmf then pmf[y] else 0.0
  }

  /** The probability of each point, as a function of the point. */
  function Weight(pmf: map<int, real>): int -> real {
    y => Prob(pmf, y)
  }

  /** Σ_{y in ys} f(y), in the order of ys. */
  function SumOf(ys: seq<int>, f: int -> real): real {
    if ys == [] then 0.0 else f(ys[0]) + SumOf(ys[1..], f)
  }

  /** Total probability mass Σ pmf[y]. */
  function Mass(pmf: Dict<int, real>): real {
    SumOf(pmf.keys, Weight(pmf.table))
  }

  /** Σ_{x=a..b} f(x), 0 when b < a. */
  function RangeSum(a: int, b: int, f: int -> real): real
    decreases b - a
  {
    if b < a then 0.0 else RangeSum(a, b - 1, f) + f(b)
  }

  /** The interval sum taken from its lowest point. */
  lemma {:induction false} RangeSumFront(a: int, b: int, f: int -> real)
    requires a <= b
    ensures RangeSum(a, b, f) == f(a) + RangeSum(a + 1, b, f)
    decreases b - a
  {
    if a < b {
      RangeSumFront(a, b - 1, f);
    }
  }

  /** Functions that agree on the interval have the same sum over it. */
  lemma {:induction false} RangeSumExt(a: int, b: int, f: int -> real, g: int -> real)
    requires forall x :: a <= x <= b ==> f(x) == g(x)
    ensures RangeSum(a, b, f) == RangeSum(a, b, g)
    decreases b - a
  {
    if a <= b {
      RangeSumExt(a, b - 1, f, g);
    }
  }

  /** Terms that vanish outside [a, b] add nothing to a wider interval
      [L, H]; [a, b] may be empty (a == b + 1). */
  lemma {:induction false} RangeSumWiden(a: int, b: int, L: int, H: int, f: int -> real)
    requires L <= a <= b + 1 <= H + 1
    requires forall x :: (L <= x < a || b < x <= H) ==> f(x) == 0.0
    ensures RangeSum(L, H, f) == RangeSum(a, b, f)
    decreases (H - b) + (a - L)
  {
    if b < H {
      RangeSumWiden(a, b, L, H - 1, f);
    } else if L < a {
      RangeSumFront(L, H, f);
      RangeSumWiden(a, b, L + 1, H, f);
    }
  }

  /** Summing F(y - d) over d in [lo, hi] is summing F over [y-hi, y-lo]. */
  lemma {:induction false} RangeSumReflect(lo: int, hi: int, y: int, F: int -> real, G: int -> real)
    requires forall d :: G(d) == F(y - d)
    ensures RangeSum(lo, hi, G) == RangeSum(y - hi, y - lo, F)
    decreases hi - lo
  {
    if lo <= hi {
      RangeSumReflect(lo, hi - 1, y, F, G);
      RangeSumFront(y - hi, y - lo, F);
    }
  }
}

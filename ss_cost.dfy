/** Exact cost of an (s,S) policy under discrete demand (pyinv/ss.py,
    s_s_cost_discrete), following Zheng and Federgruen (1991):

      g(s,S) = (K + sum_{d=0}^{S-s-1} m(d) g(S-d)) / M(S-s)

    where m is the renewal density of the demand pmf, M the renewal function
    and g the single-period (newsvendor) cost. The newsvendor cost is not part
    of this model: it is the function `g` of an `Instance`. */
module SsCost {
  import opened Results

  /** Why s_s_cost_discrete or s_s_discrete_exact fails. */
  datatype SsError =
    | NonPositiveCost    // holding, stockout or fixed cost is not > 0
    | EmptyGap           // S - s <= 0: the array m has no entry m[0]
    | PmfTooShort        // the pmf has fewer than S - s entries
    | DegenerateDemand   // pmf[0] == 1: m[0] = 1 / (1 - pmf[0]) divides by zero
    | StepLimit          // the search ran past its iteration bound

  /** The parameters of one (s,S) problem: holding cost h, stockout cost p,
      fixed order cost K, the demand pmf pmf[d] = P(D = d), and the
      single-period cost g(y) of starting a period with y units. */
  datatype Instance = Instance(holding: real, stockout: real, fixed: real,
                               pmf: seq<real>, g: int -> real)

  /** Every pmf entry is a probability. */
  predicate IsPmf(pmf: seq<real>) {
    forall i :: 0 <= i < |pmf| ==> 0.0 <= pmf[i] <= 1.0
  }

  predicate CostsPositive(inst: Instance) {
    inst.holding > 0.0 && inst.stockout > 0.0 && inst.fixed > 0.0
  }

  // ---------------------------------------------------------------------
  // Specification: renewal density, renewal function, average cost

  /** Conv(pmf, m, j, u) = sum_{l=1..u} pmf[l] * m[j-l], the inner sum of the
      renewal recursion; it reads only m[j-u .. j-1]. */
  function Conv(pmf: seq<real>, m: seq<real>, j: nat, u: nat): real
    requires u <= j <= |m| && u < |pmf|
    decreases u
  {
    if u == 0 then 0.0 else Conv(pmf, m, j, u - 1) + pmf[u] * m[j - u]
  }

  /** The renewal density m[0..k-1]:
        m[0] = 1 / (1 - pmf[0]),  m[j] = m[0] * sum_{l=1..j} pmf[l] m[j-l]. */
  function Density(pmf: seq<real>, k: nat): (m: seq<real>)
    requires 1 <= k <= |pmf| && pmf[0] != 1.0
    ensures |m| == k
  {
    if k == 1 then [1.0 / (1.0 - pmf[0])]
    else
      var prev := Density(pmf, k - 1);
      prev + [NextDensity(pmf, prev)]
  }

  /** The density that follows prev: m[j] = m[0] * sum_{l=1..j} pmf[l] m[j-l]
      with j = |prev|. */
  function NextDensity(pmf: seq<real>, prev: seq<real>): real
    requires 1 <= |prev| < |pmf|
  {
    prev[0] * Conv(pmf, prev, |prev|, |prev|)
  }

  /** Sum of a sequence, accumulated from the left. */
  function Sum(xs: seq<real>): real {
    if xs == [] then 0.0 else Sum(xs[..|xs| - 1]) + xs[|xs| - 1]
  }

  /** The renewal function M[0..|m|]: M[j] is the sum of the first j densities. */
  function Renewal(m: seq<real>): (M: seq<real>)
    ensures |M| == |m| + 1
  {
    seq(|m| + 1, j requires 0 <= j <= |m| => Sum(m[..j]))
  }

  /** sum_{d < |m|} m[d] * g(S - d): expected holding and stockout cost of
      one order cycle. */
  function CycleCost(m: seq<real>, S: int, g: int -> real): real {
    if m == [] then 0.0
    else CycleCost(m[..|m| - 1], S, g) + m[|m| - 1] * g(S - (|m| - 1))
  }

  /** The inputs on which s_s_cost_discrete returns a cost. */
  predicate CostDefined(inst: Instance, s: int, S: int) {
    CostsPositive(inst) && s < S && S - s <= |inst.pmf| && inst.pmf[0] != 1.0
  }

  /** Equation (5.7): (K + sum_d m[d] g(S-d)) / M[S-s]. */
  function AverageCost(inst: Instance, s: int, S: int): real
    requires IsPmf(inst.pmf) && CostDefined(inst, s, S)
  {
    var m := Density(inst.pmf, S - s);
    DensityNonNegative(inst.pmf, S - s);
    SumAtLeastFirst(m);
    (inst.fixed + CycleCost(m, S, inst.g)) / Sum(m)
  }

  /** What s_s_cost_discrete returns or raises, checks in the source's order. */
  function Cost(inst: Instance, s: int, S: int): (r: Result<real, SsError>)
    requires IsPmf(inst.pmf)
    ensures r.Ok? <==> CostDefined(inst, s, S)
    ensures r.Err? && CostsPositive(inst) ==> r.error != NonPositiveCost
    ensures r.Err? ==> r.error != StepLimit
  {
    if !CostsPositive(inst) then Err(NonPositiveCost)
    else if S - s <= 0 then Err(EmptyGap)
    else if |inst.pmf| == 0 then Err(PmfTooShort)
    else if inst.pmf[0] == 1.0 then Err(DegenerateDemand)
    else if |inst.pmf| < S - s then Err(PmfTooShort)
    else Ok(AverageCost(inst, s, S))
  }

  // ---------------------------------------------------------------------
  // Properties of the renewal arrays

  /** Conv reads only the entries of m below j. */
  lemma {:induction false} ConvPrefix(pmf: seq<real>, m: seq<real>, m': seq<real>, j: nat, u: nat)
    requires u <= j <= |m| && j <= |m'| && u < |pmf|
    requires m[..j] == m'[..j]
    ensures Conv(pmf, m, j, u) == Conv(pmf, m', j, u)
  {
    if u > 0 {
      ConvPrefix(pmf, m, m', j, u - 1);
      assert m[j - u] == m[..j][j - u] == m'[..j][j - u] == m'[j - u];
    }
  }

  /** Conv reads only the pmf entries up to u. */
  lemma {:induction false} ConvPmfPrefix(pmf: seq<real>, pmf': seq<real>, m: seq<real>, j: nat, u: nat)
    requires u <= j <= |m| && u < |pmf| && u < |pmf'|
    requires pmf[..u + 1] == pmf'[..u + 1]
    ensures Conv(pmf, m, j, u) == Conv(pmf', m, j, u)
  {
    if u > 0 {
      assert pmf[u] == pmf[..u + 1][u] == pmf'[..u + 1][u] == pmf'[u];
      assert pmf[..u] == pmf[..u + 1][..u] && pmf'[..u] == pmf'[..u + 1][..u];
      ConvPmfPrefix(pmf, pmf', m, j, u - 1);
    }
  }

  /** Shorter horizons give a prefix of the same density. */
  lemma {:induction false} DensityPrefix(pmf: seq<real>, k: nat, j: nat)
    requires 1 <= j <= k <= |pmf| && pmf[0] != 1.0
    ensures Density(pmf, k)[..j] == Density(pmf, j)
  {
    if j < k {
      DensityPrefix(pmf, k - 1, j);
      assert Density(pmf, k)[..k - 1] == Density(pmf, k - 1);
      assert Density(pmf, k)[..j] == Density(pmf, k)[..k - 1][..j];
    }
  }

  /** m obeys the renewal recursion at every index j in 1..|m|-1. */
  ghost predicate ObeysRecurrence(pmf: seq<real>, m: seq<real>)
    requires |m| <= |pmf|
  {
    forall j :: 1 <= j < |m| ==> m[j] == m[0] * Conv(pmf, m, j, j)
  }

  /** The recursion that defines m, stated index by index (ss.py:118-120). */
  lemma {:induction false} DensityRecurrence(pmf: seq<real>, k: nat)
    requires 1 <= k <= |pmf| && pmf[0] != 1.0
    ensures Density(pmf, k)[0] == 1.0 / (1.0 - pmf[0])
    ensures ObeysRecurrence(pmf, Density(pmf, k))
  {
    if k > 1 {
      DensityRecurrence(pmf, k - 1);
      DensityStep(pmf, k - 1);
      RecurrenceExtends(pmf, Density(pmf, k - 1), Density(pmf, k));
    }
  }

  /** One step of the recursion defining the density. */
  lemma DensityStep(pmf: seq<real>, j: nat)
    requires 1 <= j < |pmf| && pmf[0] != 1.0
    ensures Density(pmf, j + 1) == Density(pmf, j) + [NextDensity(pmf, Density(pmf, j))]
  {
  }

  /** Appending NextDensity keeps the recursion satisfied. */
  lemma RecurrenceExtends(pmf: seq<real>, prev: seq<real>, m: seq<real>)
    requires 1 <= |prev| < |pmf| && m == prev + [NextDensity(pmf, prev)]
    requires ObeysRecurrence(pmf, prev)
    ensures ObeysRecurrence(pmf, m)
  {
    forall j | 1 <= j < |m|
      ensures m[j] == m[0] * Conv(pmf, m, j, j)
    {
      var c := Conv(pmf, prev, j, j);
      assert m[..j] == prev[..j];
      ConvPrefix(pmf, prev, m, j, j);
      assert m[0] == prev[0];
      if j < |prev| {
        assert m[j] == prev[j] == prev[0] * c;
      } else {
        assert m[j] == NextDensity(pmf, prev) == prev[0] * c;
      }
    }
  }

  /** Only pmf[0..k-1] is read: equal prefixes give equal densities. */
  lemma {:induction false} DensityIgnoresTail(pmf: seq<real>, pmf': seq<real>, k: nat)
    requires 1 <= k <= |pmf| && k <= |pmf'| && pmf[0] != 1.0
    requires pmf[..k] == pmf'[..k]
    ensures pmf'[0] != 1.0 && Density(pmf, k) == Density(pmf', k)
  {
    assert pmf[0] == pmf[..k][0] == pmf'[..k][0] == pmf'[0];
    if k > 1 {
      assert pmf[..k - 1] == pmf[..k][..k - 1] && pmf'[..k - 1] == pmf'[..k][..k - 1];
      DensityIgnoresTail(pmf, pmf', k - 1);
      var prev := Density(pmf, k - 1);
      ConvPmfPrefix(pmf, pmf', prev, k - 1, k - 1);
      assert NextDensity(pmf, prev) == NextDensity(pmf', prev);
      assert Density(pmf, k) == prev + [NextDensity(pmf, prev)];
      assert Density(pmf', k) == prev + [NextDensity(pmf', prev)];
    }
  }

  lemma {:induction false} ConvNonNegative(pmf: seq<real>, m: seq<real>, j: nat, u: nat)
    requires u <= j <= |m| && u < |pmf| && IsPmf(pmf)
    requires forall i :: 0 <= i < j ==> m[i] >= 0.0
    ensures Conv(pmf, m, j, u) >= 0.0
  {
    if u > 0 {
      ConvNonNegative(pmf, m, j, u - 1);
      assert pmf[u] * m[j - u] >= 0.0;
    }
  }

  /** With pmf entries in [0,1] and pmf[0] < 1: m[0] >= 1 and every m[j] >= 0. */
  lemma {:induction false} DensityNonNegative(pmf: seq<real>, k: nat)
    requires 1 <= k <= |pmf| && IsPmf(pmf) && pmf[0] != 1.0
    ensures Density(pmf, k)[0] >= 1.0
    ensures forall j :: 0 <= j < k ==> Density(pmf, k)[j] >= 0.0
  {
    if k == 1 {
      var q := 1.0 - pmf[0];
      assert 0.0 < q <= 1.0;
      assert (1.0 / q) * q == 1.0;
      assert 1.0 / q >= 1.0;
    } else {
      var prev := Density(pmf, k - 1);
      DensityNonNegative(pmf, k - 1);
      ConvNonNegative(pmf, prev, k - 1, k - 1);
      assert NextDensity(pmf, prev) >= 0.0;
    }
  }

  lemma {:induction false} SumPrefixStep(xs: seq<real>, j: nat)
    requires 1 <= j <= |xs|
    ensures Sum(xs[..j]) == Sum(xs[..j - 1]) + xs[j - 1]
  {
    assert xs[..j][..j - 1] == xs[..j - 1];
  }

  /** A sum of non-negative terms is at least its first term. */
  lemma {:induction false} SumAtLeastFirst(xs: seq<real>)
    requires |xs| >= 1 && forall i :: 0 <= i < |xs| ==> xs[i] >= 0.0
    ensures Sum(xs) >= xs[0]
  {
    if |xs| > 1 {
      SumAtLeastFirst(xs[..|xs| - 1]);
    }
  }

  /** The renewal function satisfies M[0] = 0, M[j] - M[j-1] = m[j-1], and
      M[|m|] is the total density (ss.py:125-128). */
  lemma RenewalIdentity(m: seq<real>)
    ensures Renewal(m)[0] == 0.0
    ensures forall j :: 1 <= j <= |m| ==> Renewal(m)[j] - Renewal(m)[j - 1] == m[j - 1]
    ensures Renewal(m)[|m|] == Sum(m)
  {
    assert m[..|m|] == m;
    forall j | 1 <= j <= |m|
      ensures Renewal(m)[j] - Renewal(m)[j - 1] == m[j - 1]
    {
      SumPrefixStep(m, j);
    }
  }

  /** The denominator M[S-s] is at least 1, so line 145 never divides by zero. */
  lemma RenewalAtLeastOne(pmf: seq<real>, k: nat)
    requires 1 <= k <= |pmf| && IsPmf(pmf) && pmf[0] != 1.0
    ensures Renewal(Density(pmf, k))[k] >= 1.0
  {
    var m := Density(pmf, k);
    DensityNonNegative(pmf, k);
    SumAtLeastFirst(m);
    RenewalIdentity(m);
  }

  lemma {:induction false} CycleCostNonNegative(m: seq<real>, S: int, g: int -> real)
    requires forall i :: 0 <= i < |m| ==> m[i] >= 0.0
    requires forall y :: g(y) >= 0.0
    ensures CycleCost(m, S, g) >= 0.0
  {
    if m != [] {
      CycleCostNonNegative(m[..|m| - 1], S, g);
      assert m[|m| - 1] * g(S - (|m| - 1)) >= 0.0;
    }
  }

  /** Renewal-reward reading of (5.7): cost times the expected cycle length
      M[S-s] = sum of m equals the fixed cost plus the expected cycle cost. */
  lemma CostTimesCycleLength(inst: Instance, s: int, S: int)
    requires IsPmf(inst.pmf) && Cost(inst, s, S).Ok?
    ensures Cost(inst, s, S).value * Sum(Density(inst.pmf, S - s))
            == inst.fixed + CycleCost(Density(inst.pmf, S - s), S, inst.g)
  {
    var m := Density(inst.pmf, S - s);
    var num := inst.fixed + CycleCost(m, S, inst.g);
    var den := Sum(m);
    CostValue(inst, s, S);
    var c := Cost(inst, s, S).value;
    assert c == num / den;
    DivTimes(num, den);
  }

  lemma DivTimes(x: real, y: real)
    requires y != 0.0
    ensures (x / y) * y == x
  {
  }

  /** The value Cost returns, spelled out: (5.7) with m the renewal density.
      An unfolding lemma: callers use it instead of opening Cost and
      AverageCost themselves, which keeps their proofs cheap. */
  lemma CostValue(inst: Instance, s: int, S: int)
    requires IsPmf(inst.pmf) && CostDefined(inst, s, S)
    ensures Sum(Density(inst.pmf, S - s)) >= 1.0
    ensures Cost(inst, s, S) == Ok((inst.fixed + CycleCost(Density(inst.pmf, S - s), S, inst.g))
                                   / Sum(Density(inst.pmf, S - s)))
  {
    var m := Density(inst.pmf, S - s);
    DensityNonNegative(inst.pmf, S - s);
    SumAtLeastFirst(m);
  }

  /** With K > 0 and g >= 0 the average cost is strictly positive. */
  lemma CostPositive(inst: Instance, s: int, S: int)
    requires IsPmf(inst.pmf) && Cost(inst, s, S).Ok?
    requires forall y :: inst.g(y) >= 0.0
    ensures Cost(inst, s, S).value > 0.0
  {
    var m := Density(inst.pmf, S - s);
    DensityNonNegative(inst.pmf, S - s);
    SumAtLeastFirst(m);
    CycleCostNonNegative(m, S, inst.g);
  }

  /** Lowering the reorder point by one adds the term m[K]·g(s) to the cycle
      cost and m[K] to the cycle length (K = S - s), so g(s-1, S) moves from
      g(s, S) towards g(s) with weight m[K] / (M[K] + m[K]). This is the
      identity behind the scans of Zheng and Federgruen (1991). */
  lemma CostShift(inst: Instance, lower: int, s: int, S: int) returns (W: real, w: real)
    requires IsPmf(inst.pmf) && lower == s - 1 && s < S && CostDefined(inst, lower, S)
    ensures CostDefined(inst, s, S)
    ensures W == Sum(Density(inst.pmf, S - s)) && w == Density(inst.pmf, S - lower)[S - s]
    ensures Shifted(Cost(inst, s, S).value, Cost(inst, lower, S).value, inst.g(s), W, w)
  {
    var m := Density(inst.pmf, S - s);
    var m1 := Density(inst.pmf, S - lower);
    W, w := Sum(m), m1[S - s];
    DensityGrows(inst.pmf, S - s, S - lower, m, m1);
    LongerCycle(m, m1, w, S, s, inst.g);
    CycleEquation(inst, s, S, m);
    CycleEquation(inst, lower, S, m1);
    ShiftAlgebra(Cost(inst, s, S).value, Cost(inst, lower, S).value, inst.fixed,
                 CycleCost(m, S, inst.g), CycleCost(m1, S, inst.g), inst.g(s), W, Sum(m1), w);
  }

  /** The density for one more period extends the shorter one by a
      non-negative entry; the shorter one sums to at least 1. */
  lemma DensityGrows(pmf: seq<real>, k: nat, k1: nat, m: seq<real>, m1: seq<real>)
    requires 1 <= k && k1 == k + 1 && k1 <= |pmf| && IsPmf(pmf) && pmf[0] != 1.0
    requires m == Density(pmf, k) && m1 == Density(pmf, k1)
    ensures |m| == k && |m1| == k1 && m1 == m + [m1[k]]
    ensures Sum(m) >= 1.0 && m1[k] >= 0.0
  {
    DensityStep(pmf, k);
    DensityNonNegative(pmf, k1);
    DensityNonNegative(pmf, k);
    SumAtLeastFirst(m);
  }

  /** Appending x to the density m adds x to the cycle length and x·g(s)
      to the cycle cost, s being the stock level |m| periods below S. */
  lemma LongerCycle(m: seq<real>, m1: seq<real>, x: real, S: int, s: int, g: int -> real)
    requires m1 == m + [x] && s == S - |m|
    ensures Sum(m1) == Sum(m) + x
    ensures CycleCost(m1, S, g) == CycleCost(m, S, g) + x * g(s)
  {
    assert m1[..|m|] == m;
  }

  /** CostTimesCycleLength for a density already at hand. */
  lemma CycleEquation(inst: Instance, s: int, S: int, m: seq<real>)
    requires IsPmf(inst.pmf) && CostDefined(inst, s, S) && m == Density(inst.pmf, S - s)
    ensures Renews(Cost(inst, s, S).value, Sum(m), inst.fixed, CycleCost(m, S, inst.g))
  {
    CostTimesCycleLength(inst, s, S);
  }

  /** Average cost c over a cycle of length W: c·W = F + C. */
  predicate Renews(c: real, W: real, F: real, C: real) {
    c * W == F + C
  }

  /** The algebra of CostShift, over plain reals: if c·W = F + C and
      c'·W' = F + C' with W' = W + w and C' = C + w·g, then
      (c' - c)·(W + w) = w·(g - c). */
  lemma ShiftAlgebra(c: real, c': real, F: real, C: real, C': real, g: real, W: real, W': real, w: real)
    requires Renews(c, W, F, C) && Renews(c', W', F, C')
    requires W' == W + w && C' == C + w * g && W >= 1.0 && w >= 0.0
    ensures Shifted(c, c', g, W, w)
  {
    assert (c' - c) * (W + w) == c' * (W + w) - c * W - c * w;
  }

  /** The shift identity with cycle length W >= 1 and added density w >= 0:
      (c' - c)·(W + w) = w·(g - c). */
  predicate Shifted(c: real, c': real, g: real, W: real, w: real) {
    W >= 1.0 && w >= 0.0 && (c' - c) * (W + w) == w * (g - c)
  }

  /** What the shift identity says about order, over plain reals: the new
      cost c' lies on the side of the old cost c where g lies, and c' <= g
      implies c <= c'. */
  lemma TowardsAlgebra(c: real, c': real, g: real, W: real, w: real)
    requires Shifted(c, c', g, W, w)
    ensures g >= c ==> c' >= c
    ensures g <= c ==> c' <= c
    ensures c' <= g ==> c <= c'
  {
    if g >= c {
      assert w * (g - c) >= 0.0;
    }
    if g <= c {
      assert w * (g - c) <= 0.0;
    }
    SignOf(c' - c, W + w, w * (g - c));
    assert (c' - c) * (W + w) == c' * W + c' * w - c * W - c * w;
    assert (c - c') * W == w * (c' - g);
    if c' <= g {
      assert w * (c' - g) <= 0.0;
    }
    SignOf(c - c', W, w * (c' - g));
  }

  /** A product with a positive factor has the sign of its other factor. */
  lemma SignOf(x: real, y: real, z: real)
    requires y > 0.0 && x * y == z
    ensures z >= 0.0 ==> x >= 0.0
    ensures z <= 0.0 ==> x <= 0.0
  {
  }

  /** Lowering s moves the cost towards g(s): it does not fall when
      g(s) >= g(s, S) and does not rise when g(s) <= g(s, S). */
  lemma CostMovesTowardsG(inst: Instance, s: int, S: int)
    requires IsPmf(inst.pmf) && s < S && CostDefined(inst, s - 1, S)
    ensures CostDefined(inst, s, S)
    ensures inst.g(s) >= Cost(inst, s, S).value ==> Cost(inst, s - 1, S).value >= Cost(inst, s, S).value
    ensures inst.g(s) <= Cost(inst, s, S).value ==> Cost(inst, s - 1, S).value <= Cost(inst, s, S).value
  {
    var W, w := CostShift(inst, s - 1, s, S);
    TowardsAlgebra(Cost(inst, s, S).value, Cost(inst, s - 1, S).value, inst.g(s), W, w);
  }

  /** Raising s does not raise the cost once the current cost is at most the
      single-period cost at s + 1: if g(t, S) <= g(t+1) then
      g(t+1, S) <= g(t, S). This is why the inner scan of ss.py:286-296 only
      improves the incumbent. */
  lemma RaiseDoesNotIncrease(inst: Instance, t: int, S: int)
    requires IsPmf(inst.pmf) && CostDefined(inst, t, S) && t + 1 < S
    requires Cost(inst, t, S).value <= inst.g(t + 1)
    ensures Cost(inst, t + 1, S).Ok? && Cost(inst, t + 1, S).value <= Cost(inst, t, S).value
  {
    var W, w := CostShift(inst, t, t + 1, S);
    TowardsAlgebra(Cost(inst, t + 1, S).value, Cost(inst, t, S).value, inst.g(t + 1), W, w);
  }

  /** Only pmf[0..S-s-1] is read: pmfs that agree there give the same cost
      (ss.py:111-112). */
  lemma CostIgnoresTail(inst: Instance, pmf': seq<real>, s: int, S: int)
    requires IsPmf(inst.pmf) && IsPmf(pmf') && Cost(inst, s, S).Ok?
    requires S - s <= |pmf'| && inst.pmf[..S - s] == pmf'[..S - s]
    ensures Cost(inst.(pmf := pmf'), s, S) == Cost(inst, s, S)
  {
    DensityIgnoresTail(inst.pmf, pmf', S - s);
  }

  // ---------------------------------------------------------------------
  // The computation, as the source performs it

  /** Fills m[0..k-1] by index, as ss.py:117-120 does. */
  method BuildDensity(pmf: seq<real>, k: nat) returns (m: array<real>)
    requires 1 <= k <= |pmf| && pmf[0] != 1.0
    ensures m[..] == Density(pmf, k)
  {
    m := new real[k];
    m[0] := 1.0 / (1.0 - pmf[0]);
    var j := 1;
    while j < k
      invariant 1 <= j <= k
      invariant m[..j] == Density(pmf, j)
    {
      ghost var prev := m[..j];
      var next := m[0] * Conv(pmf, m[..j], j, j);
      assert next == NextDensity(pmf, prev);
      m[j] := next;
      assert m[..j + 1] == prev + [NextDensity(pmf, prev)];
      j := j + 1;
    }
    assert m[..] == m[..k];
  }

  /** Fills M[0..|m|] by index, as ss.py:125-128 does. */
  method BuildRenewal(m: array<real>) returns (M: array<real>)
    ensures M[..] == Renewal(m[..])
  {
    M := new real[m.Length + 1];
    M[0] := 0.0;
    var j := 1;
    while j <= m.Length
      invariant 1 <= j <= m.Length + 1
      invariant forall i :: 0 <= i < j ==> M[i] == Sum(m[..i])
    {
      SumPrefixStep(m[..], j);
      assert m[..][..j] == m[..j] && m[..][..j - 1] == m[..j - 1];
      M[j] := M[j - 1] + m[j - 1];
      j := j + 1;
    }
  }

  /** s_s_cost_discrete (ss.py:30-147): the exact average cost per period of
      the (s,S) policy, or the error the source raises. */
  method PolicyCost(inst: Instance, s: int, S: int) returns (r: Result<real, SsError>)
    requires IsPmf(inst.pmf)
    ensures r == Cost(inst, s, S)
  {
    if !CostsPositive(inst) {
      return Err(NonPositiveCost);
    }
    var k := S - s;
    if k <= 0 {
      return Err(EmptyGap);
    }
    var pmf := inst.pmf;
    if |pmf| == 0 {
      return Err(PmfTooShort);
    }
    if pmf[0] == 1.0 {
      return Err(DegenerateDemand);
    }
    if |pmf| < k {
      return Err(PmfTooShort);
    }
    var m := BuildDensity(pmf, k);
    var M := BuildRenewal(m);
    var cost := CycleTotal(m, S, inst.fixed, inst.g);
    RenewalIdentity(m[..]);
    CostFrom(inst, s, S, m[..], cost, M[k]);
    r := Ok(cost / M[k]);
  }

  /** Cost in terms of the numerator and the denominator computed from the
      density m. */
  lemma CostFrom(inst: Instance, s: int, S: int, m: seq<real>, num: real, den: real)
    requires IsPmf(inst.pmf) && CostDefined(inst, s, S) && m == Density(inst.pmf, S - s)
    requires num == inst.fixed + CycleCost(m, S, inst.g) && den == Sum(m)
    ensures den >= 1.0
    ensures Cost(inst, s, S) == Ok(num / den)
  {
    CostValue(inst, s, S);
  }

  /** The numerator of ss.py:145, K + sum_d m[d] g(S - d), accumulated by
      index. */
  method CycleTotal(m: array<real>, S: int, fixed: real, g: int -> real) returns (cost: real)
    ensures cost == fixed + CycleCost(m[..], S, g)
  {
    cost := fixed;
    var d := 0;
    while d < m.Length
      invariant 0 <= d <= m.Length
      invariant cost == fixed + CycleCost(m[..d], S, g)
    {
      assert m[..d + 1][..d] == m[..d];
      cost := cost + m[d] * g(S - d);
      d := d + 1;
    }
    assert m[..m.Length] == m[..];
  }
}

/** The discrete loss function n(x) and complementary loss function n̄(x)
    of a demand distribution given as a pmf dict, as discrete_loss computes
    them (pyinv/loss_functions.py:396-458, the branch where `pmf` is given):

      n(x) = Σ_{y >= x} (y - x)·pmf[y]        n̄(x) = Σ_{y <= x} (x - y)·pmf[y]

    summed over the support in ascending order. */
module LossFunctions {
  import opened Results
  import opened Sorting
  import opened Dicts
  import opened Sums

  datatype LossError = NoDistribution

  /** n(x) and n̄(x). */
  datatype Loss = Loss(n: real, nBar: real)

  /** The term of n(x) for support point y. */
  function UpperTerm(pmf: map<int, real>, x: int, y: int): real {
    if y >= x then (y - x) as real * Prob(pmf, y) else 0.0
  }

  /** The term of n̄(x) for support point y. */
  function LowerTerm(pmf: map<int, real>, x: int, y: int): real {
    if y <= x then (x - y) as real * Prob(pmf, y) else 0.0
  }

  /** The summands of n(x), n̄(x), the mass and the mean, as functions of y. */
  function Upper(pmf: map<int, real>, x: int): int -> real {
    y => UpperTerm(pmf, x, y)
  }

  function Lower(pmf: map<int, real>, x: int): int -> real {
    y => LowerTerm(pmf, x, y)
  }

  function Scaled(pmf: map<int, real>, x: int): int -> real {
    y => x as real * Prob(pmf, y)
  }

  function Moment(pmf: map<int, real>): int -> real {
    y => y as real * Prob(pmf, y)
  }

  /** The mean Σ y·pmf[y]. */
  function Mean(pmf: Dict<int, real>): real {
    SumOf(pmf.keys, Moment(pmf.table))
  }

  /** Every probability in the dict is non-negative. */
  predicate NonNegative(pmf: Dict<int, real>) {
    forall y :: y in pmf.table ==> pmf.table[y] >= 0.0
  }

  /** discrete_loss(x, pmf=pmf) (loss_functions.py:428-458). A missing pmf
      is the assertion failure of line 431; x is an integer by type, so the
      check of line 428 always passes. */
  function DiscreteLoss(x: int, pmf: Option<Dict<int, real>>): (r: Result<Loss, LossError>)
    requires pmf.Some? ==> pmf.value.Valid()
    ensures r.Ok? <==> pmf.Some?
    ensures r.Ok? && NonNegative(pmf.value) ==> r.value.n >= 0.0 && r.value.nBar >= 0.0
    ensures r.Ok? ==> r.value.nBar - r.value.n == x as real * Mass(pmf.value) - Mean(pmf.value)
  {
    if pmf.None? then Err(NoDistribution) else Ok(Losses(x, pmf.value))
  }

  /** The pmf-dict branch (loss_functions.py:450-456): both sums taken over
      the sorted support. */
  function Losses(x: int, d: Dict<int, real>): (r: Loss)
    requires d.Valid()
    ensures NonNegative(d) ==> r.n >= 0.0 && r.nBar >= 0.0
    ensures r.nBar - r.n == x as real * Mass(d) - Mean(d)
  {
    var ys := Sort(d.keys);
    LossFacts(d, x, ys);
    Loss(SumOf(ys, Upper(d.table, x)), SumOf(ys, Lower(d.table, x)))
  }

  /** What DiscreteLoss promises, for the support listed in any order. */
  lemma LossFacts(d: Dict<int, real>, x: int, ys: seq<int>)
    requires multiset(ys) == multiset(d.keys)
    ensures NonNegative(d) ==>
              SumOf(ys, Upper(d.table, x)) >= 0.0 && SumOf(ys, Lower(d.table, x)) >= 0.0
    ensures SumOf(ys, Lower(d.table, x)) - SumOf(ys, Upper(d.table, x))
            == x as real * Mass(d) - Mean(d)
  {
    LossesNonNegative(d.table, x, ys);
    LossIdentity(d.table, x, ys);
    SumOfPermutation(ys, d.keys, Scaled(d.table, x));
    SumOfPermutation(ys, d.keys, Moment(d.table));
    MassScaled(d, x);
    var L, U := SumOf(ys, Lower(d.table, x)), SumOf(ys, Upper(d.table, x));
    var xM, E := SumOf(d.keys, Scaled(d.table, x)), SumOf(d.keys, Moment(d.table));
    assert L - U == xM - E;
  }

  lemma MassScaled(d: Dict<int, real>, x: int)
    ensures SumOf(d.keys, Scaled(d.table, x)) == x as real * Mass(d)
  {
    SumOfScaled(d.table, x, d.keys);
  }

  /** With non-negative probabilities, both loss sums are non-negative. */
  lemma LossesNonNegative(pmf: map<int, real>, x: int, ys: seq<int>)
    ensures (forall y :: y in pmf ==> pmf[y] >= 0.0) ==>
              SumOf(ys, Upper(pmf, x)) >= 0.0 && SumOf(ys, Lower(pmf, x)) >= 0.0
  {
    if forall y :: y in pmf ==> pmf[y] >= 0.0 {
      UpperNonNegative(pmf, x, ys);
      LowerNonNegative(pmf, x, ys);
    }
  }

  lemma {:induction false} UpperNonNegative(pmf: map<int, real>, x: int, ys: seq<int>)
    requires forall y :: y in pmf ==> pmf[y] >= 0.0
    ensures SumOf(ys, Upper(pmf, x)) >= 0.0
  {
    if ys != [] {
      UpperNonNegative(pmf, x, ys[1..]);
      assert UpperTerm(pmf, x, ys[0]) >= 0.0;
    }
  }

  lemma {:induction false} LowerNonNegative(pmf: map<int, real>, x: int, ys: seq<int>)
    requires forall y :: y in pmf ==> pmf[y] >= 0.0
    ensures SumOf(ys, Lower(pmf, x)) >= 0.0
  {
    if ys != [] {
      LowerNonNegative(pmf, x, ys[1..]);
      assert LowerTerm(pmf, x, ys[0]) >= 0.0;
    }
  }

  /** n̄(x) - n(x) = Σ x·pmf[y] - Σ y·pmf[y], term by term: each y
      contributes (x - y)·pmf[y] to exactly one side, and y = x to
      neither. */
  lemma {:induction false} LossIdentity(pmf: map<int, real>, x: int, ys: seq<int>)
    ensures SumOf(ys, Lower(pmf, x)) - SumOf(ys, Upper(pmf, x))
            == SumOf(ys, Scaled(pmf, x)) - SumOf(ys, Moment(pmf))
  {
    forall y ensures Lower(pmf, x)(y) - Upper(pmf, x)(y) == Scaled(pmf, x)(y) - Moment(pmf)(y) {
      TermIdentity(pmf, x, y);
    }
    SumOfDifference(ys, Lower(pmf, x), Upper(pmf, x), Scaled(pmf, x), Moment(pmf));
  }

  /** Sums whose terms differ alike differ alike. */
  lemma {:induction false} SumOfDifference(ys: seq<int>, f: int -> real, g: int -> real, h: int -> real, k: int -> real)
    requires forall y :: f(y) - g(y) == h(y) - k(y)
    ensures SumOf(ys, f) - SumOf(ys, g) == SumOf(ys, h) - SumOf(ys, k)
  {
    if ys != [] {
      SumOfDifference(ys[1..], f, g, h, k);
    }
  }

  /** One support point's share of LossIdentity. */
  lemma TermIdentity(pmf: map<int, real>, x: int, y: int)
    ensures LowerTerm(pmf, x, y) - UpperTerm(pmf, x, y) == x as real * Prob(pmf, y) - y as real * Prob(pmf, y)
  {
    var p := Prob(pmf, y);
    assert (x - y) as real * p == x as real * p - y as real * p;
    assert (y - x) as real * p == y as real * p - x as real * p;
  }

  /** Σ x·pmf[y] = x·Σ pmf[y]. */
  lemma {:induction false} SumOfScaled(pmf: map<int, real>, x: int, ys: seq<int>)
    ensures SumOf(ys, Scaled(pmf, x)) == x as real * SumOf(ys, Weight(pmf))
  {
    if ys != [] {
      SumOfScaled(pmf, x, ys[1..]);
      var p, P := Prob(pmf, ys[0]), SumOf(ys[1..], Weight(pmf));
      assert x as real * (p + P) == x as real * p + x as real * P;
    }
  }

  /** Removing position i from the list removes exactly the term f(ys[i]). */
  lemma {:induction false} SumOfRemove(ys: seq<int>, i: int, f: int -> real)
    requires 0 <= i < |ys|
    ensures SumOf(ys, f) == f(ys[i]) + SumOf(ys[..i] + ys[i + 1..], f)
  {
    if i > 0 {
      SumOfRemove(ys[1..], i - 1, f);
      assert ys[1..][..i - 1] + ys[1..][i..] == (ys[..i] + ys[i + 1..])[1..];
    } else {
      assert ys[..i] + ys[i + 1..] == ys[1..];
    }
  }

  /** A sum does not depend on the order of its terms. */
  lemma {:induction false} SumOfPermutation(xs: seq<int>, ys: seq<int>, f: int -> real)
    requires multiset(xs) == multiset(ys)
    ensures SumOf(xs, f) == SumOf(ys, f)
    decreases |xs|
  {
    if xs != [] {
      assert xs[0] in multiset(ys);
      var i :| 0 <= i < |ys| && ys[i] == xs[0];
      var rest := ys[..i] + ys[i + 1..];
      MultisetRemove(xs, ys, i);
      SumOfPermutation(xs[1..], rest, f);
      SumOfRemove(ys, i, f);
    } else {
      assert |multiset(ys)| == 0;
    }
  }

  lemma MultisetRemove(xs: seq<int>, ys: seq<int>, i: int)
    requires xs != [] && 0 <= i < |ys| && ys[i] == xs[0]
    requires multiset(xs) == multiset(ys)
    ensures multiset(xs[1..]) == multiset(ys[..i] + ys[i + 1..])
  {
    assert ys == ys[..i] + [ys[i]] + ys[i + 1..];
    assert multiset(ys) == multiset(ys[..i]) + multiset{ys[i]} + multiset(ys[i + 1..]);
    assert xs == [xs[0]] + xs[1..];
    assert multiset(xs) == multiset{xs[0]} + multiset(xs[1..]);
    assert multiset(ys[..i] + ys[i + 1..]) == multiset(ys[..i]) + multiset(ys[i + 1..]);
    var rest := ys[..i] + ys[i + 1..];
    assert multiset(ys) == multiset{xs[0]} + multiset(rest);
    forall z ensures multiset(xs[1..])[z] == multiset(rest)[z] {
      assert multiset(xs)[z] == multiset{xs[0]}[z] + multiset(xs[1..])[z];
      assert multiset(ys)[z] == multiset{xs[0]}[z] + multiset(rest)[z];
    }
  }

  /** With total mass 1, n̄(x) = x - E[X] + n(x): identity (C.14) of the
      module (loss_functions.py:259, 358). */
  lemma ComplementaryLoss(x: int, d: Dict<int, real>)
    requires d.Valid() && Mass(d) == 1.0
    ensures Losses(x, d).nBar == x as real - Mean(d) + Losses(x, d).n
  {
    var l := Losses(x, d);
    UnitMass(x as real, Mass(d));
  }

  lemma UnitMass(x: real, m: real)
    requires m == 1.0
    ensures x * m == x
  {
  }

  /** If no support point lies below x, the complementary loss is 0. */
  lemma NoMassBelow(x: int, d: Dict<int, real>)
    requires d.Valid() && forall y :: y in d.table ==> y >= x
    ensures Losses(x, d).nBar == 0.0
  {
    var ys := Sort(d.keys);
    forall i | 0 <= i < |ys| ensures ys[i] >= x {
      assert ys[i] in multiset(d.keys);
      assert ys[i] in d.keys;
    }
    LowerVanishes(d.table, x, ys);
  }

  /** If no support point lies above x, the loss is 0. */
  lemma NoMassAbove(x: int, d: Dict<int, real>)
    requires d.Valid() && forall y :: y in d.table ==> y <= x
    ensures Losses(x, d).n == 0.0
  {
    var ys := Sort(d.keys);
    forall i | 0 <= i < |ys| ensures ys[i] <= x {
      assert ys[i] in multiset(d.keys);
      assert ys[i] in d.keys;
    }
    UpperVanishes(d.table, x, ys);
  }

  lemma {:induction false} LowerVanishes(pmf: map<int, real>, x: int, ys: seq<int>)
    requires forall i :: 0 <= i < |ys| ==> ys[i] >= x
    ensures SumOf(ys, Lower(pmf, x)) == 0.0
  {
    if ys != [] {
      LowerVanishes(pmf, x, ys[1..]);
    }
  }

  lemma {:induction false} UpperVanishes(pmf: map<int, real>, x: int, ys: seq<int>)
    requires forall i :: 0 <= i < |ys| ==> ys[i] <= x
    ensures SumOf(ys, Upper(pmf, x)) == 0.0
  {
    if ys != [] {
      UpperVanishes(pmf, x, ys[1..]);
    }
  }

  /** The order in which the dict lists its keys does not matter: the sort
      at loss_functions.py:453 only fixes the order of summation. */
  lemma LossIgnoresKeyOrder(x: int, d1: Dict<int, real>, d2: Dict<int, real>)
    requires d1.Valid() && d2.Valid() && d1.table == d2.table
    ensures Losses(x, d1) == Losses(x, d2)
  {
    SameElementsPermutation(d1.keys, d2.keys);
    var ys1, ys2 := Sort(d1.keys), Sort(d2.keys);
    SumOfPermutation(ys1, ys2, Upper(d1.table, x));
    SumOfPermutation(ys1, ys2, Lower(d1.table, x));
  }
}

/** The pmf of the sum of n independent discrete uniform random variables
    on {lo, ..., hi}, built one summand at a time as a dict from sums to
    probabilities (src/stockpyl/helpers.py:680-718). */
module UniformSums {
  import opened Sorting
  import opened Dicts
  import opened Sums

  /** The integers a, a+1, ..., b in ascending order (empty when b < a). */
  function Range(a: int, b: int): (r: seq<int>)
    ensures |r| == if a <= b then b - a + 1 else 0
    ensures forall i :: 0 <= i < |r| ==> r[i] == a + i
  {
    seq(if a <= b then b - a + 1 else 0, i => a + i)
  }

  /** keys is the ascending run a, a+1, ..., b (empty when b < a). */
  ghost predicate IsRun(keys: seq<int>, a: int, b: int) {
    && |keys| == (if a <= b then b - a + 1 else 0)
    && forall i :: 0 <= i < |keys| ==> keys[i] == a + i
  }

  lemma RunIsRange(keys: seq<int>, a: int, b: int)
    requires IsRun(keys, a, b)
    ensures keys == Range(a, b)
  {
  }

  /** A run holds each of a..b once. */
  lemma RunMembers(keys: seq<int>, a: int, b: int)
    requires IsRun(keys, a, b)
    ensures Distinct(keys)
    ensures forall k :: k in keys <==> a <= k <= b
  {
    forall k ensures k in keys <==> a <= k <= b {
      if a <= k <= b {
        assert keys[k - a] == k;
      }
    }
  }

  /** Storing the sum key into a dict whose keys run from lowest up to
      key-1 or beyond keeps the keys a run: an existing sum keeps its place
      and a new one is the next integer, appended. */
  lemma StoreFace(d: Dict<int, real>, lowest: int, top: int, key: int, v: real)
    requires d.Valid() && IsRun(d.keys, lowest, Max(top, key - 1)) && lowest <= key
    ensures IsRun(Store(d, key, v).keys, lowest, Max(top, key))
  {
    RunMembers(d.keys, lowest, Max(top, key - 1));
  }

  // ---------------------------------------------------------------------
  // The distribution the dict is meant to hold

  /** The probability 1/(hi-lo+1) of each face (helpers.py:709). */
  function FaceProb(lo: int, hi: int): real {
    if lo <= hi then 1.0 / ((hi - lo + 1) as real) else 0.0
  }

  /** P(X_1 + ... + X_k = y) for independent X_i uniform on lo..hi, by the
      convolution recurrence: P_0(y) = [y == 0] and
      P_{k+1}(y) = Σ_{d=lo..hi} P_k(y - d)·FaceProb(lo, hi). */
  function SumPmf(k: nat, lo: int, hi: int, y: int): real
    decreases k, 0
  {
    if k == 0 then (if y == 0 then 1.0 else 0.0)
    else FaceSum(k - 1, lo, hi, y, hi)
  }

  /** Σ_{d=lo..top} P_k(y - d)·FaceProb(lo, hi). */
  function FaceSum(k: nat, lo: int, hi: int, y: int, top: int): real
    decreases k, if top < lo then 1 else top - lo + 2
  {
    if top < lo then 0.0
    else FaceSum(k, lo, hi, y, top - 1) + SumPmf(k, lo, hi, y - top) * FaceProb(lo, hi)
  }

  /** One die: each face has probability 1/(hi-lo+1), every other value 0. */
  lemma OneDie(lo: int, hi: int, y: int)
    ensures SumPmf(1, lo, hi, y) == if lo <= y <= hi then FaceProb(lo, hi) else 0.0
  {
    OneDieFaces(lo, hi, y, hi);
  }

  lemma {:induction false} OneDieFaces(lo: int, hi: int, y: int, top: int)
    ensures FaceSum(0, lo, hi, y, top) == if lo <= y <= top then FaceProb(lo, hi) else 0.0
    decreases top - lo
  {
    if lo <= top {
      OneDieFaces(lo, hi, y, top - 1);
    }
  }

  /** What the row of prev sum x adds at sum y: p·q when y - x is a face. */
  function Hit(y: int, x: int, lo: int, hi: int, pq: real): real {
    if lo <= y - x <= hi then pq else 0.0
  }

  /** t[x]·q: the mass of prev sum x times the probability of one face. */
  function Scaled(t: map<int, real>, x: int, q: real): real {
    Prob(t, x) * q
  }

  /** The contribution of each prev sum x to sum y. */
  function SpreadTerm(t: map<int, real>, lo: int, hi: int, q: real, y: int): int -> real {
    x => Hit(y, x, lo, hi, Scaled(t, x, q))
  }

  /** The table at sum y after the rows of prev sums a..b:
      Σ_{x=a..b} [lo <= y - x <= hi]·t[x]·q. */
  function Spread(t: map<int, real>, lo: int, hi: int, q: real, y: int, a: int, b: int): real {
    RangeSum(a, b, SpreadTerm(t, lo, hi, q, y))
  }

  /** The faces' contributions to sum y. */
  function ConvTerm(t: map<int, real>, q: real, y: int): int -> real {
    d => Scaled(t, y - d, q)
  }

  /** The convolution of t with the uniform on lo..hi at y:
      Σ_{d=lo..hi} t[y - d]·q. */
  function Convolved(t: map<int, real>, lo: int, hi: int, q: real, y: int): real {
    RangeSum(lo, hi, ConvTerm(t, q, y))
  }

  /** Scaled probabilities t[x]·q. */
  function ScaledProb(t: map<int, real>, q: real): int -> real {
    x => Scaled(t, x, q)
  }

  /** A prev sum where t has no mass contributes nothing. */
  lemma SpreadTermZero(t: map<int, real>, lo: int, hi: int, q: real, y: int, x: int)
    requires Prob(t, x) == 0.0
    ensures SpreadTerm(t, lo, hi, q, y)(x) == 0.0
  {
    assert Scaled(t, x, q) == 0.0;
  }

  /** A prev sum x with y - x not a face contributes nothing; otherwise it
      contributes t[x]·q. */
  lemma SpreadTermFace(t: map<int, real>, lo: int, hi: int, q: real, y: int, x: int)
    ensures SpreadTerm(t, lo, hi, q, y)(x) == if y - hi <= x <= y - lo then ScaledProb(t, q)(x) else 0.0
  {
  }

  /** Summing the rows over every prev sum, where t vanishes outside a..b,
      gives the convolution: the order of the double sum does not matter. */
  lemma SpreadIsConvolution(t: map<int, real>, lo: int, hi: int, q: real, y: int, a: int, b: int)
    requires lo <= hi && a <= b + 1
    requires forall x :: x < a || b < x ==> Prob(t, x) == 0.0
    ensures Spread(t, lo, hi, q, y, a, b) == Convolved(t, lo, hi, q, y)
  {
    var g := SpreadTerm(t, lo, hi, q, y);
    var F := ScaledProb(t, q);
    RangeSumReflect(lo, hi, y, F, ConvTerm(t, q, y));
    forall x | y - hi <= x <= y - lo ensures F(x) == g(x) {
      SpreadTermFace(t, lo, hi, q, y, x);
    }
    RangeSumExt(y - hi, y - lo, F, g);
    var L := if a < y - hi then a else y - hi;
    var H := if b < y - lo then y - lo else b;
    forall x | x < a || b < x ensures g(x) == 0.0 {
      SpreadTermZero(t, lo, hi, q, y, x);
    }
    forall x | x < y - hi || y - lo < x ensures g(x) == 0.0 {
      SpreadTermFace(t, lo, hi, q, y, x);
    }
    RangeSumWiden(a, b, L, H, g);
    RangeSumWiden(y - hi, y - lo, L, H, g);
  }

  /** The convolution of P_k with the uniform is P_{k+1}, up to face top. */
  lemma {:induction false} ConvolvedIsFaceSum(t: map<int, real>, k: nat, lo: int, hi: int, y: int, top: int)
    requires forall x :: Prob(t, x) == SumPmf(k, lo, hi, x)
    ensures RangeSum(lo, top, ConvTerm(t, FaceProb(lo, hi), y)) == FaceSum(k, lo, hi, y, top)
    decreases top - lo
  {
    if lo <= top {
      ConvolvedIsFaceSum(t, k, lo, hi, y, top - 1);
      assert ConvTerm(t, FaceProb(lo, hi), y)(top) == Scaled(t, y - top, FaceProb(lo, hi));
      assert Prob(t, y - top) == SumPmf(k, lo, hi, y - top);
    }
  }

  /** x added to itself n times. */
  function Times(x: real, n: nat): real {
    if n == 0 then 0.0 else Times(x, n - 1) + x
  }

  /** Adding p·q once for each of the faces of a die whose faces have
      probability q each adds p. */
  lemma {:induction false} TimesFaces(p: real, q: real, n: nat)
    requires Times(q, n) == 1.0
    ensures Times(p * q, n) == p
  {
    TimesProduct(q, n);
    TimesProduct(p * q, n);
    assert p * q * (n as real) == p * (q * (n as real));
  }

  lemma {:induction false} TimesProduct(x: real, n: nat)
    ensures Times(x, n) == x * (n as real)
  {
    if n > 0 {
      TimesProduct(x, n - 1);
    }
  }

  /** Σ t[y] over the listed keys (0 where t has no entry): the mass of a
      pmf dict, written without a summand function so that loop proofs stay
      cheap; TotalIsMass equates it with Sums.Mass. */
  function Total(ys: seq<int>, t: map<int, real>): real {
    if ys == [] then 0.0 else Prob(t, ys[0]) + Total(ys[1..], t)
  }

  lemma {:induction false} TotalIsMass(ys: seq<int>, t: map<int, real>)
    ensures Total(ys, t) == SumOf(ys, Weight(t))
  {
    if ys != [] {
      TotalIsMass(ys[1..], t);
    }
  }

  lemma {:induction false} TotalAppend(ys: seq<int>, y: int, t: map<int, real>)
    ensures Total(ys + [y], t) == Total(ys, t) + Prob(t, y)
  {
    if ys != [] {
      assert (ys + [y])[1..] == ys[1..] + [y];
      TotalAppend(ys[1..], y, t);
    }
  }

  /** Changing the table at a key the list does not visit leaves the sum. */
  lemma {:induction false} TotalUnvisited(ys: seq<int>, t: map<int, real>, k: int, v: real)
    requires k !in ys
    ensures Total(ys, t[k := v]) == Total(ys, t)
  {
    if ys != [] {
      assert k !in ys[1..];
      TotalUnvisited(ys[1..], t, k, v);
    }
  }

  /** Adding x at a key the list visits once adds x to the sum. */
  lemma {:induction false} TotalBump(ys: seq<int>, t: map<int, real>, k: int, x: real)
    requires Distinct(ys) && k in ys
    ensures Total(ys, t[k := Prob(t, k) + x]) == Total(ys, t) + x
  {
    var rest := ys[1..];
    assert k !in rest <== ys[0] == k by {
      forall i | 0 <= i < |rest| ensures ys[0] == k ==> rest[i] != k {
        assert rest[i] == ys[i + 1];
      }
    }
    if ys[0] == k {
      TotalUnvisited(rest, t, k, Prob(t, k) + x);
    } else {
      assert k in rest;
      assert Distinct(rest) by {
        forall i, j | 0 <= i < j < |rest| ensures rest[i] != rest[j] {
          assert rest[i] == ys[i + 1] && rest[j] == ys[j + 1];
        }
      }
      TotalBump(rest, t, k, x);
    }
  }

  /** `d[k] += x` on a defaultdict(float) adds x to the total mass. */
  lemma MassAdd(d: Dict<int, real>, k: int, x: real)
    requires d.Valid()
    ensures MassOf(Store(d, k, Prob(d.table, k) + x)) == MassOf(d) + x
  {
    var v := Prob(d.table, k) + x;
    if k in d.table {
      TotalBump(d.keys, d.table, k, x);
    } else {
      TotalAppend(d.keys, k, d.table[k := v]);
      TotalUnvisited(d.keys, d.table, k, v);
    }
  }

  function MassOf(d: Dict<int, real>): real {
    Total(d.keys, d.table)
  }

  function Max(a: int, b: int): int {
    if a < b then b else a
  }

  /** The largest sum present after i rows (the sums start at base+lo). */
  function RowTop(base: int, i: int, lo: int, hi: int): int {
    if i == 0 || hi < lo then base + lo - 1 else base + i - 1 + hi
  }

  /** Adding pq at the sum `key` (`d[key] += pq`) when the keys run from
      lowest up to key-1 or beyond: the keys stay a run, now reaching key,
      and the mass grows by pq. */
  lemma FaceAdded(d: Dict<int, real>, stored: Dict<int, real>, key: int, pq: real, lowest: int, top: int)
    requires d.Valid() && IsRun(d.keys, lowest, Max(top, key - 1)) && lowest <= key
    requires stored == Store(d, key, Prob(d.table, key) + pq)
    ensures stored.Valid() && IsRun(stored.keys, lowest, Max(top, key))
    ensures MassOf(stored) == MassOf(d) + pq
  {
    StoreFace(d, lowest, top, key, Prob(d.table, key) + pq);
    MassAdd(d, key, pq);
  }

  /** The table after `d[x + face] += pq` for the faces lo..top in turn. */
  function Bumped(t: map<int, real>, x: int, lo: int, top: int, pq: real): map<int, real>
    decreases top - lo
  {
    if top < lo then t
    else
      var u := Bumped(t, x, lo, top - 1, pq);
      u[x + top := Prob(u, x + top) + pq]
  }

  lemma BumpedStep(t: map<int, real>, u: map<int, real>, x: int, lo: int, dice: int, pq: real)
    requires lo <= dice && u == Bumped(t, x, lo, dice - 1, pq)
    ensures u[x + dice := Prob(u, x + dice) + pq] == Bumped(t, x, lo, dice, pq)
  {
  }

  /** Each face lo..top adds pq at its own sum x + face, and nothing else
      changes. */
  lemma {:induction false} BumpedProb(t: map<int, real>, x: int, lo: int, top: int, pq: real, y: int)
    ensures Prob(Bumped(t, x, lo, top, pq), y) == Prob(t, y) + Hit(y, x, lo, top, pq)
    decreases top - lo
  {
    if lo <= top {
      BumpedProb(t, x, lo, top - 1, pq, y);
    }
  }

  /** The shape of AddRow's dict after the faces lo..dice-1: the keys
      still run from lowest, past every sum added so far, and the mass grew
      by pq per face. */
  ghost predicate RowShape(acc: Dict<int, real>, next: Dict<int, real>, prevSum: int, lo: int, hi: int,
                           pq: real, lowest: int, top: int, dice: int)
  {
    && lo <= dice
    && next.Valid()
    && (lo <= hi ==> IsRun(next.keys, lowest, Max(top, prevSum + dice - 1)))
    && MassOf(next) == MassOf(acc) + Times(pq, dice - lo)
  }

  /** RowShape, and each face lo..dice-1 has added pq at its own sum. */
  ghost predicate RowSoFar(acc: Dict<int, real>, next: Dict<int, real>, prevSum: int, lo: int, hi: int,
                           pq: real, lowest: int, top: int, dice: int)
  {
    RowShape(acc, next, prevSum, lo, hi, pq, lowest, top, dice)
    && next.table == Bumped(acc.table, prevSum, lo, dice - 1, pq)
  }

  /** `d[prevSum + dice] += pq` takes RowShape from dice to dice + 1. */
  lemma ShapeStep(acc: Dict<int, real>, next: Dict<int, real>, stored: Dict<int, real>, prevSum: int,
                  lo: int, hi: int, pq: real, lowest: int, top: int, dice: int)
    requires RowShape(acc, next, prevSum, lo, hi, pq, lowest, top, dice) && dice <= hi
    requires lowest <= prevSum + lo && prevSum + lo - 1 <= top
    requires stored == Store(next, prevSum + dice, Prob(next.table, prevSum + dice) + pq)
    ensures RowShape(acc, stored, prevSum, lo, hi, pq, lowest, top, dice + 1)
  {
    var key := prevSum + dice;
    FaceAdded(next, stored, key, pq, lowest, top);
    assert prevSum + (dice + 1) - 1 == key;
    assert Times(pq, dice + 1 - lo) == Times(pq, dice - lo) + pq;
  }

  /** ... and RowSoFar likewise. */
  lemma RowStep(acc: Dict<int, real>, next: Dict<int, real>, stored: Dict<int, real>, prevSum: int,
                lo: int, hi: int, pq: real, lowest: int, top: int, dice: int)
    requires RowSoFar(acc, next, prevSum, lo, hi, pq, lowest, top, dice) && dice <= hi
    requires lowest <= prevSum + lo && prevSum + lo - 1 <= top
    requires stored == Store(next, prevSum + dice, Prob(next.table, prevSum + dice) + pq)
    ensures RowSoFar(acc, stored, prevSum, lo, hi, pq, lowest, top, dice + 1)
  {
    ShapeStep(acc, next, stored, prevSum, lo, hi, pq, lowest, top, dice);
    BumpedStep(acc.table, next.table, prevSum, lo, dice, pq);
  }

  /** One value prevSum of the running sum, with probability p, combined
      with every face lo..hi of the die (probability q each): the inner
      part of the `product(du_sum_pmf, du_pmf)` loop at helpers.py:714-715.
      Sums already present keep their place; new ones are appended, so the
      keys stay the ascending run lowest..prevSum+hi. */
  method AddRow(acc: Dict<int, real>, prevSum: int, p: real, lo: int, hi: int, q: real,
                ghost lowest: int, ghost top: int) returns (next: Dict<int, real>)
    requires acc.Valid() && IsRun(acc.keys, lowest, top)
    requires lowest <= prevSum + lo && (lo <= hi ==> prevSum + lo - 1 <= top <= prevSum + hi)
    ensures next.Valid()
    ensures lo <= hi ==> IsRun(next.keys, lowest, prevSum + hi)
    ensures hi < lo ==> next == acc
    ensures forall y :: Prob(next.table, y) == Prob(acc.table, y) + Hit(y, prevSum, lo, hi, p * q)
    ensures MassOf(next) == MassOf(acc) + Times(p * q, Max(hi - lo + 1, 0))
  {
    next := acc;
    var pq := p * q;
    var dice := lo;
    assert lo <= hi ==> Max(top, prevSum + dice - 1) == top;
    while dice <= hi
      invariant lo <= hi ==> dice <= hi + 1
      invariant hi < lo ==> dice == lo && next == acc
      invariant RowSoFar(acc, next, prevSum, lo, hi, pq, lowest, top, dice)
      decreases hi - dice
    {
      var stored := Store(next, prevSum + dice, Prob(next.table, prevSum + dice) + pq);
      RowStep(acc, next, stored, prevSum, lo, hi, pq, lowest, top, dice);
      next := stored;
      dice := dice + 1;
    }
    forall y ensures Prob(next.table, y) == Prob(acc.table, y) + Hit(y, prevSum, lo, hi, pq) {
      BumpedProb(acc.table, prevSum, lo, hi, pq, y);
    }
  }

  /** The shape of AddUniform's dict after the rows of the first i prev
      sums: the keys run from base+lo to the last sum reached, and the mass
      is that of those prev sums. */
  ghost predicate UniformShape(prev: Dict<int, real>, next: Dict<int, real>, lo: int, hi: int, base: int, i: int)
    requires 0 <= i <= |prev.keys|
  {
    && next.Valid()
    && (lo <= hi ==> IsRun(next.keys, base + lo, RowTop(base, i, lo, hi)))
    && (hi < lo ==> next.keys == [] && next.table == map[])
    && (lo <= hi ==> MassOf(next) == Total(prev.keys[..i], prev.table))
  }

  /** UniformShape, and every sum holds the rows of those prev sums. */
  ghost predicate UniformSoFar(prev: Dict<int, real>, next: Dict<int, real>, lo: int, hi: int, q: real,
                               base: int, i: int)
    requires 0 <= i <= |prev.keys|
  {
    UniformShape(prev, next, lo, hi, base, i)
    && (lo <= hi ==> Spreads(next.table, prev.table, lo, hi, q, base, base + i - 1))
  }

  /** The row of prev.keys[i], of mass p, as AddRow promises it, takes
      UniformShape from i to i + 1. */
  lemma UniformShapeStep(prev: Dict<int, real>, next: Dict<int, real>, after: Dict<int, real>,
                         lo: int, hi: int, p: real, q: real, base: int, top: int, i: int)
    requires prev.Valid() && IsRun(prev.keys, base, top) && 0 <= i < |prev.keys|
    requires p == prev.table[prev.keys[i]]
    requires lo <= hi ==> Times(q, hi - lo + 1) == 1.0
    requires UniformShape(prev, next, lo, hi, base, i)
    requires after.Valid()
    requires lo <= hi ==> IsRun(after.keys, base + lo, prev.keys[i] + hi)
    requires hi < lo ==> after == next
    requires MassOf(after) == MassOf(next) + Times(p * q, Max(hi - lo + 1, 0))
    ensures UniformShape(prev, after, lo, hi, base, i + 1)
  {
    PrefixStep(prev.keys, i, prev.table);
    if lo <= hi {
      var faces := Max(hi - lo + 1, 0);
      assert faces == hi - lo + 1;
      TimesFaces(p, q, faces);
      assert prev.keys[i] == base + i;
    }
  }

  /** UniformShape before the row of prev.keys[i] gives what AddRow needs. */
  lemma RowReady(prev: Dict<int, real>, next: Dict<int, real>, lo: int, hi: int, base: int, top: int, i: int)
    requires prev.Valid() && IsRun(prev.keys, base, top) && 0 <= i < |prev.keys|
    requires UniformShape(prev, next, lo, hi, base, i)
    ensures prev.keys[i] in prev.table
    ensures next.Valid() && IsRun(next.keys, base + lo, RowTop(base, i, lo, hi))
    ensures base + lo <= prev.keys[i] + lo
    ensures lo <= hi ==> prev.keys[i] + lo - 1 <= RowTop(base, i, lo, hi) <= prev.keys[i] + hi
  {
    assert prev.keys[i] == base + i;
  }

  /** ... and UniformSoFar likewise. */
  lemma UniformStep(prev: Dict<int, real>, next: Dict<int, real>, after: Dict<int, real>,
                    lo: int, hi: int, p: real, q: real, base: int, top: int, i: int)
    requires prev.Valid() && IsRun(prev.keys, base, top) && 0 <= i < |prev.keys|
    requires p == prev.table[prev.keys[i]]
    requires lo <= hi ==> Times(q, hi - lo + 1) == 1.0
    requires UniformSoFar(prev, next, lo, hi, q, base, i)
    requires after.Valid()
    requires lo <= hi ==> IsRun(after.keys, base + lo, prev.keys[i] + hi)
    requires hi < lo ==> after == next
    requires forall y :: Prob(after.table, y) == Prob(next.table, y) + Hit(y, prev.keys[i], lo, hi, p * q)
    requires MassOf(after) == MassOf(next) + Times(p * q, Max(hi - lo + 1, 0))
    ensures UniformSoFar(prev, after, lo, hi, q, base, i + 1)
  {
    UniformShapeStep(prev, next, after, lo, hi, p, q, base, top, i);
    var x := prev.keys[i];
    assert Prob(prev.table, x) == p;
    if lo <= hi {
      SpreadGrows(prev.table, next.table, after.table, lo, hi, p, q, base, base + i - 1, x);
    }
  }

  /** One pass of `for i in range(n)` (helpers.py:712-716): the pmf of the
      running sum convolved with the uniform pmf on lo..hi. */
  method AddUniform(prev: Dict<int, real>, lo: int, hi: int, q: real, ghost base: int, ghost top: int)
    returns (next: Dict<int, real>)
    requires prev.Valid() && IsRun(prev.keys, base, top)
    requires lo <= hi ==> Times(q, hi - lo + 1) == 1.0
    ensures next.Valid()
    ensures lo <= hi && base <= top ==> IsRun(next.keys, base + lo, top + hi)
    ensures !(lo <= hi && base <= top) ==> next.keys == []
    ensures lo <= hi ==> MassOf(next) == MassOf(prev)
    ensures lo <= hi ==> forall y :: Prob(next.table, y) == Convolved(prev.table, lo, hi, q, y)
  {
    next := Empty();
    var i := 0;
    while i < |prev.keys|
      invariant 0 <= i <= |prev.keys|
      invariant UniformSoFar(prev, next, lo, hi, q, base, i)
    {
      RowReady(prev, next, lo, hi, base, top, i);
      var prevSum := prev.keys[i];
      var p := prev.table[prevSum];
      var after := AddRow(next, prevSum, p, lo, hi, q, base + lo, RowTop(base, i, lo, hi));
      UniformStep(prev, next, after, lo, hi, p, q, base, top, i);
      next := after;
      i := i + 1;
    }
    UniformDone(prev, next, lo, hi, q, base, top);
  }

  /** After the rows of all prev sums: the keys, the mass and the
      convolution AddUniform promises. */
  lemma UniformDone(prev: Dict<int, real>, next: Dict<int, real>, lo: int, hi: int, q: real, base: int, top: int)
    requires prev.Valid() && IsRun(prev.keys, base, top)
    requires UniformSoFar(prev, next, lo, hi, q, base, |prev.keys|)
    ensures next.Valid()
    ensures lo <= hi && base <= top ==> IsRun(next.keys, base + lo, top + hi)
    ensures !(lo <= hi && base <= top) ==> next.keys == []
    ensures lo <= hi ==> MassOf(next) == MassOf(prev)
    ensures lo <= hi ==> forall y :: Prob(next.table, y) == Convolved(prev.table, lo, hi, q, y)
  {
    var n := |prev.keys|;
    assert prev.keys[..n] == prev.keys;
    if lo <= hi {
      RunMembers(prev.keys, base, top);
      forall y ensures Prob(next.table, y) == Convolved(prev.table, lo, hi, q, y) {
        SpreadIsConvolution(prev.table, lo, hi, q, y, base, base + n - 1);
      }
    }
  }

  /** The table holds, at every sum y, the rows of the prev sums a..b. */
  ghost predicate Spreads(table: map<int, real>, t: map<int, real>, lo: int, hi: int, q: real, a: int, b: int) {
    forall y :: Prob(table, y) == Spread(t, lo, hi, q, y, a, b)
  }

  /** The rows of prev sums a..last, followed by the row of x = last + 1. */
  lemma SpreadGrows(t: map<int, real>, before: map<int, real>, after: map<int, real>,
                    lo: int, hi: int, p: real, q: real, a: int, last: int, x: int)
    requires a <= x == last + 1 && Prob(t, x) == p
    requires Spreads(before, t, lo, hi, q, a, last)
    requires forall y :: Prob(after, y) == Prob(before, y) + Hit(y, x, lo, hi, p * q)
    ensures Spreads(after, t, lo, hi, q, a, x)
  {
    assert Scaled(t, x, q) == p * q;
    forall y ensures Prob(after, y) == Spread(t, lo, hi, q, y, a, x) {
      assert SpreadTerm(t, lo, hi, q, y)(x) == Hit(y, x, lo, hi, Scaled(t, x, q));
      assert Spread(t, lo, hi, q, y, a, x) == Spread(t, lo, hi, q, y, a, last) + SpreadTerm(t, lo, hi, q, y)(x);
    }
  }

  lemma PrefixStep(ys: seq<int>, i: int, t: map<int, real>)
    requires 0 <= i < |ys|
    ensures Total(ys[..i + 1], t) == Total(ys[..i], t) + Prob(t, ys[i])
  {
    assert ys[..i + 1] == ys[..i] + [ys[i]];
    TotalAppend(ys[..i], ys[i], t);
  }

  /** t gives every sum y the probability SumPmf(k, lo, hi, y). */
  ghost predicate IsSumPmf(t: map<int, real>, k: nat, lo: int, hi: int) {
    forall y :: Prob(t, y) == SumPmf(k, lo, hi, y)
  }

  /** The state after k of the n summands: the keys run from k·lo to k·hi,
      the masses add up to 1 (before any summand, or when the die is not
      empty) and each sum has the probability of k dice adding up to it. */
  ghost predicate Partial(pmf: Dict<int, real>, n: int, k: int, lo: int, hi: int, low: int, high: int) {
    && (n > 0 ==> 0 <= k <= n) && (n <= 0 ==> k == 0)
    && low == k * lo && high == k * hi
    && (lo <= hi ==> low <= high)
    && (hi < lo && k > 0 ==> high < low)
    && (k == 0 ==> pmf == Dict([0], map[0 := 1.0]))
    && pmf.Valid() && IsRun(pmf.keys, low, high)
    && (k == 0 || lo <= hi ==> MassOf(pmf) == 1.0)
    && IsSumPmf(pmf.table, k, lo, hi)
  }

  /** Adding one more summand, as AddUniform promises, keeps Partial. */
  lemma PartialStep(pmf: Dict<int, real>, next: Dict<int, real>, n: int, k: int, lo: int, hi: int, low: int, high: int)
    requires Partial(pmf, n, k, lo, hi, low, high) && k < n
    requires next.Valid()
    requires lo <= hi && low <= high ==> IsRun(next.keys, low + lo, high + hi)
    requires !(lo <= hi && low <= high) ==> next.keys == []
    requires lo <= hi ==> MassOf(next) == MassOf(pmf)
    requires lo <= hi ==> forall y :: Prob(next.table, y) == Convolved(pmf.table, lo, hi, FaceProb(lo, hi), y)
    ensures Partial(next, n, k + 1, lo, hi, low + lo, high + hi)
  {
    assert (k + 1) * lo == k * lo + lo && (k + 1) * hi == k * hi + hi;
    SumPmfStep(pmf.table, next, k, lo, hi);
  }

  /** The convolution of the distribution of k dice with one more die is
      the distribution of k + 1 dice; with no faces nothing is left. */
  lemma SumPmfStep(t: map<int, real>, next: Dict<int, real>, k: nat, lo: int, hi: int)
    requires IsSumPmf(t, k, lo, hi) && next.Valid()
    requires hi < lo ==> next.keys == []
    requires lo <= hi ==> forall y :: Prob(next.table, y) == Convolved(t, lo, hi, FaceProb(lo, hi), y)
    ensures IsSumPmf(next.table, k + 1, lo, hi)
  {
    forall y ensures Prob(next.table, y) == SumPmf(k + 1, lo, hi, y) {
      if lo <= hi {
        ConvolvedIsFaceSum(t, k, lo, hi, y, hi);
      } else {
        assert y !in next.table;
      }
    }
  }

  /** sum_of_discrete_uniforms_pmf(n, lo, hi): the keys are the possible
      sums n·lo, ..., n·hi in ascending order, each sum has the probability
      that n independent uniform draws from lo..hi add up to it, and the
      masses add up to 1; n <= 0 gives {0: 1}; an empty die (hi < lo)
      leaves nothing once a die is added. */
  method SumOfDiscreteUniformsPmf(n: int, lo: int, hi: int) returns (pmf: Dict<int, real>)
    ensures pmf.Valid()
    ensures n <= 0 ==> pmf == Dict([0], map[0 := 1.0])
    ensures n > 0 ==> pmf.keys == Range(n * lo, n * hi)
    ensures n > 0 && hi < lo ==> pmf.keys == []
    ensures n > 0 ==> forall y :: Prob(pmf.table, y) == SumPmf(n, lo, hi, y)
    ensures n <= 0 || lo <= hi ==> Mass(pmf) == 1.0
  {
    var q := FaceProb(lo, hi);
    if lo <= hi {
      TimesProduct(q, hi - lo + 1);
    }
    pmf := Dict([0], map[0 := 1.0]);
    var k := 0;
    ghost var low, high := 0, 0;
    while k < n
      invariant Partial(pmf, n, k, lo, hi, low, high)
    {
      var next := AddUniform(pmf, lo, hi, q, low, high);
      PartialStep(pmf, next, n, k, lo, hi, low, high);
      pmf := next;
      low, high := low + lo, high + hi;
      k := k + 1;
    }
    TotalIsMass(pmf.keys, pmf.table);
    RunIsRange(pmf.keys, low, high);
  }
}

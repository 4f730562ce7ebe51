/** The exact (s,S) search of Zheng and Federgruen (1991) as
    s_s_discrete_exact (pyinv/ss.py:150-318) performs it: a downward scan
    for s(y*), then an upward scan over S that keeps an incumbent policy
    and stops at the first S whose single-period cost exceeds the
    incumbent's cost.

    The newsvendor solution y* and the single-period cost g are inputs
    (newsvendor_poisson is not part of this model). The source's loops rest
    on properties of g for termination; here each loop stops after
    `maxSteps` iterations with StepLimit. */
module SsSearch {
  import opened Results
  import opened SsCost

  /** A candidate (s, S) policy and its average cost g(s,S). */
  datatype Policy = Policy(s: int, S: int, cost: real)

  /** (s, S) evaluates without error to cost c. */
  ghost predicate CostIs(inst: Instance, s: int, S: int, c: real)
    requires IsPmf(inst.pmf)
  {
    Cost(inst, s, S) == Ok(c)
  }

  /** The policy's recorded cost is its exact average cost. */
  ghost predicate Evaluated(inst: Instance, pol: Policy)
    requires IsPmf(inst.pmf)
  {
    CostIs(inst, pol.s, pol.S, pol.cost)
  }

  /** g(t, S) is defined and exceeds the single-period cost g(t): the
      downward scan goes on past t (ss.py:245-247). */
  ghost predicate AboveAt(inst: Instance, t: int, S: int)
    requires IsPmf(inst.pmf)
  {
    Cost(inst, t, S).Ok? && Cost(inst, t, S).value > inst.g(t)
  }

  /** g(t, S) is defined and at most g(t+1): the upward scan raises s past
      t (ss.py:286-288). */
  ghost predicate RaisesPast(inst: Instance, t: int, S: int)
    requires IsPmf(inst.pmf)
  {
    Cost(inst, t, S).Ok? && Cost(inst, t, S).value <= inst.g(t + 1)
  }

  /** s is the first reorder point met scanning down from S0 - 1 at which
      g(s, S0) <= g(s) (ss.py:236-248). */
  ghost predicate FirstReorderPoint(inst: Instance, s: int, S0: int)
    requires IsPmf(inst.pmf)
  {
    && s < S0
    && Cost(inst, s, S0).Ok? && Cost(inst, s, S0).value <= inst.g(s)
    && forall t :: s < t < S0 ==> AboveAt(inst, t, S0)
  }

  /** Every reorder point in [lo, s) passed the test g(t, S) <= g(t+1), and
      s fails it: g(s, S) > g(s+1) (ss.py:286-296). */
  ghost predicate RaisedReorderPoint(inst: Instance, lo: int, s: int, S: int)
    requires IsPmf(inst.pmf)
  {
    && lo <= s
    && Cost(inst, s, S).Ok? && Cost(inst, s, S).value > inst.g(s + 1)
    && forall t :: lo <= t < s ==> RaisesPast(inst, t, S)
  }

  /** Order-up-to level S' was scanned and rejected against incumbent
      (s, _, c): its single-period cost did not stop the scan (ss.py:270)
      and g(s, S') was no strict improvement on c (ss.py:273-275). */
  ghost predicate Rejected(inst: Instance, s: int, c: real, S': int)
    requires IsPmf(inst.pmf)
  {
    inst.g(S') <= c && Cost(inst, s, S').Ok? && Cost(inst, s, S').value >= c
  }

  /** The incumbent moves from a to b only after every level strictly
      between a.S and b.S was scanned and rejected against a, and level b.S
      passed the bracket test g(b.S) <= a.cost (ss.py:270) and the strict
      improvement test g(a.s, b.S) < a.cost (ss.py:273-275), with b.s found
      by raising a.s (ss.py:286-299). */
  ghost predicate Improves(inst: Instance, a: Policy, b: Policy)
    requires IsPmf(inst.pmf)
  {
    && a.S < b.S
    && (forall S' :: a.S < S' < b.S ==> Rejected(inst, a.s, a.cost, S'))
    && inst.g(b.S) <= a.cost
    && Cost(inst, a.s, b.S).Ok? && Cost(inst, a.s, b.S).value < a.cost
    && RaisedReorderPoint(inst, a.s, b.s, b.S)
  }

  /** Every reorder point the downward scan passed costs at least as much as
      the one it stopped at: the scan's s0 is the best of s0..S0-1. */
  lemma {:induction false} FirstReorderPointIsBest(inst: Instance, s: int, S0: int, t: int)
    requires IsPmf(inst.pmf) && FirstReorderPoint(inst, s, S0) && s <= t < S0
    ensures Cost(inst, t, S0).Ok? && Cost(inst, s, S0).value <= Cost(inst, t, S0).value
    decreases t - s
  {
    if t > s {
      FirstReorderPointIsBest(inst, s, S0, t - 1);
      assert AboveAt(inst, t, S0);
      CostMovesTowardsG(inst, t, S0);
    }
  }

  /** The inner scan never makes things worse: the reorder point it stops at
      costs no more than the one it started from. */
  lemma {:induction false} RaisedNotWorse(inst: Instance, lo: int, s: int, S: int)
    requires IsPmf(inst.pmf) && RaisedReorderPoint(inst, lo, s, S)
    ensures Cost(inst, lo, S).Ok? && Cost(inst, s, S).value <= Cost(inst, lo, S).value
    decreases s - lo
  {
    if lo < s {
      assert RaisesPast(inst, lo, S);
      RaiseDoesNotIncrease(inst, lo, S);
      assert RaisedReorderPoint(inst, lo + 1, s, S);
      RaisedNotWorse(inst, lo + 1, s, S);
    }
  }

  /** Each new incumbent is strictly cheaper than the one it replaces. */
  lemma IncumbentImproves(inst: Instance, a: Policy, b: Policy)
    requires IsPmf(inst.pmf) && Improves(inst, a, b) && Evaluated(inst, b)
    ensures a.S < b.S && b.cost < a.cost
  {
    RaisedNotWorse(inst, a.s, b.s, b.S);
  }

  /** Along the incumbents of a successful search the order-up-to level
      strictly increases and the cost strictly decreases; the policy
      returned is the cheapest of them. */
  lemma {:induction false} IncumbentsImprove(inst: Instance, S0: int, pol: Policy, trace: seq<Policy>, stopS: int)
    requires IsPmf(inst.pmf) && SearchOutcome(inst, S0, pol, trace, stopS)
    ensures forall i, j :: 0 <= i < j < |trace| ==> trace[i].S < trace[j].S && trace[j].cost < trace[i].cost
    ensures forall i :: 0 <= i < |trace| ==> pol.cost <= trace[i].cost
  {
    forall j | 0 <= j < |trace| - 1
      ensures trace[j].S < trace[j + 1].S && trace[j + 1].cost < trace[j].cost
    {
      IncumbentImproves(inst, trace[j], trace[j + 1]);
    }
    forall i, j | 0 <= i < j < |trace|
      ensures trace[i].S < trace[j].S && trace[j].cost < trace[i].cost
    {
      ChainDecreases(trace, i, j);
    }
  }

  /** One-step strict improvement along a sequence extends to any two
      positions. */
  lemma {:induction false} ChainDecreases(trace: seq<Policy>, i: int, j: int)
    requires 0 <= i < j < |trace|
    requires forall k :: 0 <= k < |trace| - 1 ==> trace[k].S < trace[k + 1].S && trace[k + 1].cost < trace[k].cost
    ensures trace[i].S < trace[j].S && trace[j].cost < trace[i].cost
    decreases j - i
  {
    if i + 1 < j {
      ChainDecreases(trace, i + 1, j);
    }
  }

  /** How the downward scan from S0 ends in error e within maxSteps
      reorder points: StepLimit once every one of S0 - maxSteps .. S0 - 1
      passed the test of ss.py:245-247; any other error is the cost error of
      the first reorder point below S0 whose g(t, S0) is undefined. */
  ghost predicate DescentFails(inst: Instance, S0: int, maxSteps: nat, e: SsError)
    requires IsPmf(inst.pmf)
  {
    if e == StepLimit then
      forall t :: S0 - maxSteps <= t < S0 ==> AboveAt(inst, t, S0)
    else
      exists t :: S0 - maxSteps <= t < S0 && Cost(inst, t, S0) == Err(e)
                  && forall u :: t < u < S0 ==> AboveAt(inst, u, S0)
  }

  /** The downward scan of ss.py:231-251: the first s below S0 with
      g(s, S0) <= g(s). */
  method FindReorderPoint(inst: Instance, S0: int, maxSteps: nat) returns (r: Result<int, SsError>)
    requires IsPmf(inst.pmf)
    ensures r.Ok? ==> S0 - maxSteps <= r.value && FirstReorderPoint(inst, r.value, S0)
    ensures r.Err? ==> DescentFails(inst, S0, maxSteps, r.error)
  {
    var s := S0;
    var steps := 0;
    var done := false;
    while !done
      invariant 0 <= steps <= maxSteps && s == S0 - steps
      invariant done ==> FirstReorderPoint(inst, s, S0)
      invariant !done ==> forall t :: s <= t < S0 ==> AboveAt(inst, t, S0)
      decreases maxSteps - steps, !done
    {
      if steps == maxSteps {
        return Err(StepLimit);
      }
      steps := steps + 1;
      s := s - 1;
      var gs := inst.g(s);
      var c := PolicyCost(inst, s, S0);
      if c.Err? {
        return Err(c.error);
      }
      if c.value <= gs {
        done := true;
      }
    }
    r := Ok(s);
  }

  /** How raising s at level S ends in error e within maxSteps raises:
      StepLimit once every one of s .. s + maxSteps passed the test of
      ss.py:286-288; any other error is the cost error of the first reorder
      point from s up whose g(t, S) is undefined. */
  ghost predicate RaiseFails(inst: Instance, s: int, S: int, maxSteps: nat, e: SsError)
    requires IsPmf(inst.pmf)
  {
    if e == StepLimit then
      forall u :: s <= u <= s + maxSteps ==> RaisesPast(inst, u, S)
    else
      exists t :: s <= t <= s + maxSteps && Cost(inst, t, S) == Err(e)
                  && forall u :: s <= u < t ==> RaisesPast(inst, u, S)
  }

  /** The upward scan of ss.py:279-296 on s for a new order-up-to level S:
      raise s while g(s, S) <= g(s+1). */
  method RaiseReorderPoint(inst: Instance, s: int, S: int, maxSteps: nat) returns (r: Result<int, SsError>)
    requires IsPmf(inst.pmf)
    ensures r.Ok? ==> r.value <= s + maxSteps && RaisedReorderPoint(inst, s, r.value, S)
    ensures r.Err? ==> RaiseFails(inst, s, S, maxSteps, r.error)
  {
    var t := s;
    var gs := inst.g(t + 1);
    var c := PolicyCost(inst, t, S);
    if c.Err? {
      return Err(c.error);
    }
    var steps := 0;
    while c.value <= gs
      invariant 0 <= steps <= maxSteps && t == s + steps
      invariant gs == inst.g(t + 1) && c == Cost(inst, t, S) && c.Ok?
      invariant forall u :: s <= u < t ==> RaisesPast(inst, u, S)
      decreases maxSteps - steps
    {
      assert RaisesPast(inst, t, S);
      if steps == maxSteps {
        return Err(StepLimit);
      }
      steps := steps + 1;
      t := t + 1;
      gs := inst.g(t + 1);
      c := PolicyCost(inst, t, S);
      if c.Err? {
        assert Cost(inst, t, S) == Err(c.error);
        return Err(c.error);
      }
    }
    r := Ok(t);
  }

  /** The whole result of a successful search: `pol` is evaluated and was
      adopted last in `trace`; every incumbent improved on the one before;
      every level between pol.S and stopS was rejected, and g(stopS) ended
      the scan (ss.py:270). */
  ghost predicate SearchOutcome(inst: Instance, S0: int, pol: Policy, trace: seq<Policy>, stopS: int)
    requires IsPmf(inst.pmf)
  {
    && Evaluated(inst, pol)
    && S0 <= pol.S && pol.s < pol.S
    && pol.S < stopS && inst.g(stopS) > pol.cost
    && (forall S' :: pol.S < S' < stopS ==> Rejected(inst, pol.s, pol.cost, S'))
    && |trace| >= 1 && trace[|trace| - 1] == pol
    && trace[0].S == S0 && FirstReorderPoint(inst, trace[0].s, S0)
    && (forall i :: 0 <= i < |trace| ==> Evaluated(inst, trace[i]))
    && (forall i :: 0 <= i < |trace| - 1 ==> Improves(inst, trace[i], trace[i + 1]))
  }

  /** The state of the upward scan before it tries level S: the incumbent
      pol is evaluated and last in trace, and every level between pol.S and
      S was rejected. */
  ghost predicate Scanning(inst: Instance, S0: int, pol: Policy, trace: seq<Policy>, S: int)
    requires IsPmf(inst.pmf)
  {
    && Evaluated(inst, pol)
    && S0 <= pol.S < S && pol.s < pol.S
    && (forall S' :: pol.S < S' < S ==> Rejected(inst, pol.s, pol.cost, S'))
    && |trace| >= 1 && trace[|trace| - 1] == pol
    && trace[0].S == S0 && FirstReorderPoint(inst, trace[0].s, S0)
    && (forall i :: 0 <= i < |trace| ==> Evaluated(inst, trace[i]))
    && (forall i :: 0 <= i < |trace| - 1 ==> Improves(inst, trace[i], trace[i + 1]))
  }

  /** Rejecting level S moves the scan on to S + 1. */
  lemma ScanRejects(inst: Instance, S0: int, pol: Policy, trace: seq<Policy>, S: int)
    requires IsPmf(inst.pmf) && Scanning(inst, S0, pol, trace, S) && Rejected(inst, pol.s, pol.cost, S)
    ensures Scanning(inst, S0, pol, trace, S + 1)
  {
  }

  /** Adopting an improvement at level S makes it the incumbent. */
  lemma ScanAdopts(inst: Instance, S0: int, pol: Policy, trace: seq<Policy>, S: int, next: Policy)
    requires IsPmf(inst.pmf) && Scanning(inst, S0, pol, trace, S)
    requires next.S == S && Evaluated(inst, next) && Improves(inst, pol, next)
    ensures Scanning(inst, S0, next, trace + [next], S + 1)
  {
    var t := trace + [next];
    assert forall i :: 0 <= i < |trace| ==> t[i] == trace[i];
    assert Cost(inst, next.s, next.S).Ok?;
  }

  /** The scan stops at S once g(S) exceeds the incumbent's cost. */
  lemma ScanStops(inst: Instance, S0: int, pol: Policy, trace: seq<Policy>, S: int)
    requires IsPmf(inst.pmf) && Scanning(inst, S0, pol, trace, S) && inst.g(S) > pol.cost
    ensures SearchOutcome(inst, S0, pol, trace, S)
  {
  }

  /** How the upward scan ends in error e while trying level S against the
      incumbent pol, with maxSteps levels allowed: the state reached is
      Scanning and g(S) did not end the scan (ss.py:270); then either
      maxSteps levels S0 + 1 .. S0 + maxSteps were scanned and the scan
      stops with StepLimit, or e is the cost error of g(pol.s, S)
      (ss.py:273), or g(pol.s, S) improved on pol and raising pol.s at S
      failed with e (ss.py:279-296). */
  ghost predicate ScanFails(inst: Instance, S0: int, pol: Policy, trace: seq<Policy>, S: int, maxSteps: nat, e: SsError)
    requires IsPmf(inst.pmf)
  {
    && Scanning(inst, S0, pol, trace, S)
    && inst.g(S) <= pol.cost
    && ( (e == StepLimit && S == S0 + maxSteps + 1)
      || (S <= S0 + maxSteps && Cost(inst, pol.s, S) == Err(e))
      || (&& S <= S0 + maxSteps
          && Cost(inst, pol.s, S).Ok? && Cost(inst, pol.s, S).value < pol.cost
          && RaiseFails(inst, pol.s, S, maxSteps, e)))
  }

  /** The upward scan over S of ss.py:253-318, started from the incumbent
      (s(S0), S0). On error, `trace` lists the incumbents adopted so far and
      `stopS` is the level being tried. */
  method ScanOrderUpTo(inst: Instance, s0: int, S0: int, maxSteps: nat)
    returns (r: Result<Policy, SsError>, ghost trace: seq<Policy>, ghost stopS: int)
    requires IsPmf(inst.pmf) && CostsPositive(inst)
    requires FirstReorderPoint(inst, s0, S0)
    ensures |trace| >= 1 && trace[0].s == s0
    ensures r.Ok? ==> stopS <= S0 + maxSteps + 1 && SearchOutcome(inst, S0, r.value, trace, stopS)
    ensures r.Err? ==> ScanFails(inst, S0, trace[|trace| - 1], trace, stopS, maxSteps, r.error)
  {
    var s := s0;

    // Initialise the incumbent.
    var SHat, sHat := S0, s;
    var first := PolicyCost(inst, sHat, SHat);
    var gHat := first.value;
    trace := [Policy(sHat, SHat, gHat)];

    // Scan S upward until g(S) exceeds the incumbent's cost.
    var S := SHat + 1;
    var gS := inst.g(S);
    var steps := 0;
    while gS <= gHat
      invariant 0 <= steps <= maxSteps && S == S0 + 1 + steps
      invariant s == sHat && gS == inst.g(S)
      invariant Scanning(inst, S0, Policy(sHat, SHat, gHat), trace, S)
      invariant trace[0].s == s0
      decreases maxSteps - steps
    {
      stopS := S;
      if steps == maxSteps {
        return Err(StepLimit), trace, stopS;
      }
      steps := steps + 1;

      // Check for improvement (strict).
      var c := PolicyCost(inst, sHat, S);
      if c.Err? {
        return Err(c.error), trace, stopS;
      }
      if c.value < gHat {
        ghost var before := Policy(sHat, SHat, gHat);
        SHat := S;
        var raised := RaiseReorderPoint(inst, s, SHat, maxSteps);
        if raised.Err? {
          return Err(raised.error), trace, stopS;
        }
        s := raised.value;
        sHat := s;
        var next := PolicyCost(inst, sHat, SHat);
        gHat := next.value;
        ScanAdopts(inst, S0, before, trace, S, Policy(sHat, SHat, gHat));
        trace := trace + [Policy(sHat, SHat, gHat)];
      } else {
        ScanRejects(inst, S0, Policy(sHat, SHat, gHat), trace, S);
      }

      // Try the next order-up-to level.
      S := S + 1;
      gS := inst.g(S);
    }
    ScanStops(inst, S0, Policy(sHat, SHat, gHat), trace, S);
    stopS := S;
    r := Ok(Policy(sHat, SHat, gHat));
  }

  /** s_s_discrete_exact (ss.py:150-318) given y*: the policy it returns, or
      the error it raises. `trace` lists the incumbents in the order they
      were adopted (empty when the downward scan fails) and `stopS` is the
      order-up-to level whose single-period cost ended the scan, or the level
      being tried when the scan failed. */
  method FindOptimalPolicy(inst: Instance, yStar: int, maxSteps: nat)
    returns (r: Result<Policy, SsError>, ghost trace: seq<Policy>, ghost stopS: int)
    requires IsPmf(inst.pmf)
    ensures r == Err(NonPositiveCost) <==> !CostsPositive(inst)
    ensures r.Err? && CostsPositive(inst) && trace == [] ==> DescentFails(inst, yStar, maxSteps, r.error)
    ensures r.Err? && trace != [] ==> ScanFails(inst, yStar, trace[|trace| - 1], trace, stopS, maxSteps, r.error)
    ensures r.Ok? || trace != [] ==> |trace| >= 1 && yStar - maxSteps <= trace[0].s
    ensures r.Ok? ==> SearchOutcome(inst, yStar, r.value, trace, stopS)
  {
    trace, stopS := [], 0;
    if !CostsPositive(inst) {
      return Err(NonPositiveCost), trace, stopS;
    }

    // Find s(S0), S0 = y*.
    var found := FindReorderPoint(inst, yStar, maxSteps);
    if found.Err? {
      return Err(found.error), trace, stopS;
    }
    r, trace, stopS := ScanOrderUpTo(inst, found.value, yStar, maxSteps);
  }
}

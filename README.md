# (s,S) inventory policies, discrete loss functions and helpers — a Dafny model

This project models part of stockpyl, a Python library for inventory
optimisation. It covers three pieces.

- **The exact (s,S) policy of Zheng and Federgruen (1991)** (`pyinv/ss.py`).
  - `s_s_cost_discrete` gives the long-run average cost g(s,S) of the policy
    "when the inventory position falls to s or below, order up to S".
  - g(s,S) is built from the renewal density m of the demand pmf, the renewal
    function M and the single-period (newsvendor) cost g(y):
    g(s,S) = (K + Σ_{d<S-s} m(d)·g(S-d)) / M(S-s).
  - `s_s_discrete_exact` finds the optimal (s,S) in two scans.
    - A downward scan from y* finds s(y*).
    - An upward scan over S keeps an incumbent policy and raises its s each
      time it improves.
    - The upward scan stops at the first S whose single-period cost exceeds
      the incumbent's cost.
- **The discrete loss functions** n(x) and n̄(x) of a pmf given as a dict
  (`pyinv/loss_functions.py`, `discrete_loss`).
- **The helpers of `src/stockpyl/helpers.py`** that the rest of the library
  leans on:
  - the dict utilities `min_of_dict`, `dict_match`, `sort_dict_by_keys` and
    `change_dict_key`;
  - the shape normalisers `check_iterable_sizes` and `ensure_list_for_*` /
    `ensure_dict_for_nodes`;
  - `find_nearest`;
  - `sum_of_discrete_uniforms_pmf`.

How the model represents the source:

- Python dicts are `Dicts.Dict` values: the keys in insertion order plus the
  mapping, which keeps iteration order explicit.
- Floating-point numbers are `real`.
- Each module stands for one source file or one group of functions:

  | module | models |
  |---|---|
  | `SsCost` | cost of a policy |
  | `SsSearch` | the search |
  | `LossFunctions` | `discrete_loss` |
  | `DictHelpers`, `ListHelpers`, `Nearest`, `UniformSums` | the helpers |
  | `Sorting`, `Dicts`, `Results`, `Sums` | shared definitions |

- Loops in the source are methods with loop invariants, each proved against
  a specification function (`Density`, `Renewal`, `Cost`, `SortedKeyList`,
  `Range`, `SumPmf`, ...). The properties the source relies on are lemmas about those
  functions.

## Model

| member | source | states |
|---|---|---|
| SsCost.Cost | pyinv/ss.py:96-147 | s_s_cost_discrete returns a cost exactly when the costs are positive, S > s, the pmf has at least S-s entries and pmf[0] != 1; otherwise it reports the error, and never a positive-cost error when the costs are positive |
| SsCost.PolicyCost | pyinv/ss.py:110-147 | the array computation (m, M, the numerator loop, the division) yields exactly the average cost g(s,S) or the same error |
| SsCost.BuildDensity | pyinv/ss.py:117-120 | the array m filled by the loop equals the renewal density m[0] = 1/(1-pmf[0]), m[j] = m[0]·Σ_{l=1..j} pmf[l]·m[j-l] |
| SsCost.BuildRenewal | pyinv/ss.py:125-128 | the array M equals the renewal function: M[j] is the sum of the first j densities |
| SsCost.CycleTotal | pyinv/ss.py:131-144 | the accumulated numerator equals K + Σ_d m[d]·g(S-d) |
| SsCost.DensityRecurrence | pyinv/ss.py:118-120 | the density function obeys the recurrence of the source at every index, with m[0] = 1/(1-pmf[0]) |
| SsCost.DensityNonNegative | pyinv/ss.py:118-120 | for a pmf with entries in [0,1] and pmf[0] < 1, m[0] >= 1 and every m[j] >= 0 |
| SsCost.RenewalIdentity | pyinv/ss.py:126-128 | M[0] = 0, M[j] - M[j-1] = m[j-1], and M[S-s] is the total of m |
| SsCost.RenewalAtLeastOne | pyinv/ss.py:145 | the divisor M[S-s] is at least 1, so the division never fails |
| SsCost.CostValue | pyinv/ss.py:131-145 | on defined inputs the cost is the numerator divided by M[S-s] >= 1 |
| SsCost.CostTimesCycleLength | pyinv/ss.py:145 | g(s,S)·M(S-s) = K + Σ_d m[d]·g(S-d) |
| SsCost.CostPositive | pyinv/ss.py:131-145 | with K > 0 and a non-negative single-period cost, g(s,S) > 0 |
| SsCost.DensityIgnoresTail | pyinv/ss.py:111-112 | m[0..k-1] depends only on pmf[0..k-1]: truncating the pmf at S-s changes nothing |
| SsCost.CostIgnoresTail | pyinv/ss.py:111-114 | g(s,S) is the same for any two pmfs that agree on their first S-s entries |
| SsCost.CostShift | pyinv/ss.py:236-248 | lowering s by one changes the cost by the weight m(S-s) times g(s) - g(s,S): (g(s-1,S) - g(s,S))·M(S-s+1) = m(S-s)·(g(s) - g(s,S)) |
| SsCost.CostMovesTowardsG | pyinv/ss.py:236-248 | g(s-1,S) lies on the same side of g(s,S) as g(s): it is at least g(s,S) when g(s) >= g(s,S) and at most when g(s) <= g(s,S) |
| SsCost.RaiseDoesNotIncrease | pyinv/ss.py:286-289 | when g(t,S) <= g(t+1), g(t+1,S) <= g(t,S): each step of the inner upward scan does not raise the cost |
| SsSearch.FindReorderPoint | pyinv/ss.py:231-251 | the downward scan returns the first s < S0 with g(s,S0) <= g(s), every t in (s, S0) having g(t,S0) > g(t), and s >= S0 - maxSteps; it fails with the cost error of the first t below S0 whose g(t,S0) is undefined, every level between t and S0 having g(t,S0) > g(t); and it fails with the step limit exactly when all of S0-maxSteps..S0-1 passed that test |
| SsSearch.FirstReorderPointIsBest | pyinv/ss.py:231-251 | the reorder point the downward scan stops at costs no more than any reorder point it passed |
| SsSearch.RaiseReorderPoint | pyinv/ss.py:279-299 | the inner scan returns the first s' >= s with g(s',S) > g(s'+1), having passed only reorder points with g(t,S) <= g(t+1), and s' <= s + maxSteps; it fails with the cost error of the first t >= s whose g(t,S) is undefined, all reorder points before t having passed; and it fails with the step limit when all of s..s+maxSteps passed |
| SsSearch.RaisedNotWorse | pyinv/ss.py:286-299 | the reorder point the inner scan stops at costs no more than the one it started from |
| SsSearch.IncumbentImproves | pyinv/ss.py:270-302 | every new incumbent has a larger order-up-to level and a strictly smaller cost than the one it replaces |
| SsSearch.IncumbentsImprove | pyinv/ss.py:253-318 | along the incumbents of a search, S strictly increases and the cost strictly decreases; the returned policy is the cheapest of them |
| SsSearch.ScanOrderUpTo | pyinv/ss.py:253-318 | on success the result is evaluated exactly and the search started from (s(S0), S0); each adopted incumbent passed the tests of lines 270-299, and every level strictly between two consecutive incumbents was rejected against the earlier one; every level between the final S and the stopping level was rejected, and g at the stopping level exceeds the result's cost. On failure the same holds of the incumbents so far up to the level S being tried, g(S) did not end the scan, and the error is the step limit after levels S0+1..S0+maxSteps, or the cost error of g(s,S) for the incumbent s, or the inner scan's failure after g(s,S) improved on the incumbent |
| SsSearch.FindOptimalPolicy | pyinv/ss.py:150-318 | s_s_discrete_exact given y*: a non-positive cost is reported as its own error and exactly then; otherwise the result satisfies the whole search outcome above, or the error is the downward scan's failure (no incumbent yet) or the upward scan's failure as above; the starting reorder point lies within maxSteps of y* |
| LossFunctions.DiscreteLoss | pyinv/loss_functions.py:396-458 | no pmf is the error of line 431; with a pmf, n(x), n̄(x) >= 0 for non-negative probabilities, and n̄(x) - n(x) = x·Σpmf - E[X] |
| LossFunctions.Losses | pyinv/loss_functions.py:450-456 | the two sums over the sorted support satisfy n, n̄ >= 0 (for non-negative probabilities) and n̄(x) - n(x) = x·Σpmf - E[X] |
| LossFunctions.LossFacts | pyinv/loss_functions.py:452-456 | the same facts hold when the support is summed in any order |
| LossFunctions.LossIdentity | pyinv/loss_functions.py:455-456 | termwise, Σ(x-y)⁺p(y) - Σ(y-x)⁺p(y) = Σ x·p(y) - Σ y·p(y) over any list of support points |
| LossFunctions.ComplementaryLoss | pyinv/loss_functions.py:359 | for a pmf of total mass 1, n̄(x) = x - E[X] + n(x), identity (C.14) |
| LossFunctions.NoMassBelow | pyinv/loss_functions.py:456 | with no support point below x, n̄(x) = 0 |
| LossFunctions.NoMassAbove | pyinv/loss_functions.py:455 | with no support point above x, n(x) = 0 |
| LossFunctions.LossIgnoresKeyOrder | pyinv/loss_functions.py:452-453 | the result depends only on the pmf mapping, not on the dict's insertion order |
| Sorting.Sort | pyinv/loss_functions.py:453 | list.sort on the distinct keys of a dict: the result is strictly increasing and a permutation of the input |
| DictHelpers.FirstArgMin | src/stockpyl/helpers.py:50 | min(d, key=d.get) picks a key of least value, and every earlier key has a strictly larger value |
| DictHelpers.MinOfDict | src/stockpyl/helpers.py:28-53 | an empty dict is an error and only then; otherwise the returned value is d[key], no value is smaller, and no other key of that value comes earlier |
| DictHelpers.IsClose | src/stockpyl/helpers.py:83-86 | math.isclose raises exactly for a negative tolerance and otherwise holds for equal arguments |
| DictHelpers.CloseSymmetric | src/stockpyl/helpers.py:83 | isclose does not depend on argument order |
| DictHelpers.DictMatch | src/stockpyl/helpers.py:56-100 | as written: raises exactly when d1 is non-empty and a tolerance is negative; otherwise answers whether every key of d1 is close to d2's value (or to 0 when absent and presence is not required) |
| DictHelpers.ExtraKeysIgnored | src/stockpyl/helpers.py:91-98 | as written, with require_presence set, d1 = {} matches d2 = {7: 1.0} while the swapped call does not |
| DictHelpers.DictMatchBothWays | src/stockpyl/helpers.py:56-100 | corrected: also checks the keys only d2 has against 0 (and fails them under require_presence); raises exactly when some dict is non-empty and a tolerance is negative |
| DictHelpers.BothWaysSymmetric | src/stockpyl/helpers.py:56-61 | the corrected comparison does not depend on argument order |
| DictHelpers.BothWaysPresence | src/stockpyl/helpers.py:69-71 | a corrected match with require_presence implies the two dicts have the same keys |
| DictHelpers.SortedKeyList | src/stockpyl/helpers.py:484-505 | the keys listed are the dict's keys, each once; the integer keys are strictly ascending (or descending) and None comes first when ascending, last when descending |
| DictHelpers.SortDictByKeys | src/stockpyl/helpers.py:460-507 | returns the keys in that order, or the values at those keys in that order |
| DictHelpers.DictObject.constructor | src/stockpyl/helpers.py:510-511 | the shared dict object holds the given dict |
| DictHelpers.Renamed | src/stockpyl/helpers.py:529 | after d[new] = d.pop(old): new maps to old's value, old is gone (unless equal to new), every other entry is unchanged, and the entry is last exactly when new was not another key |
| DictHelpers.ChangeDictKey | src/stockpyl/helpers.py:510-529 | a missing old key is a KeyError that leaves the dict unchanged; otherwise the dict is renamed in place |
| ListHelpers.CheckIterableSizes | src/stockpyl/helpers.py:287-309 | true exactly when all iterables of length other than 1 share one length |
| ListHelpers.LengthsAtMostOne | src/stockpyl/helpers.py:306-309 | the set of such lengths has at most one element exactly when any two of them are equal |
| ListHelpers.EnsureListForTimePeriods | src/stockpyl/helpers.py:312-360 | a list of length T+1 is kept, a list of length T gets a leading 0, a singleton becomes [0] and T copies, other lengths are an error |
| ListHelpers.TimePeriodsDocExamples | src/stockpyl/helpers.py:326-329 | on the docstring's four example inputs the code returns [0,5,5,5], [0,0,5,2,1], an error and [0,5,2,1] |
| ListHelpers.TimePeriodsIdempotent | src/stockpyl/helpers.py:348-350 | a list this function produced is accepted again unchanged |
| ListHelpers.EnsureListForNodes | src/stockpyl/helpers.py:363-407 | None gives N copies of default, a singleton N copies of itself, a list of length N is kept, other lengths are an error |
| ListHelpers.NodesIdempotent | src/stockpyl/helpers.py:401-403 | a list this function produced is accepted again unchanged |
| ListHelpers.Zip | src/stockpyl/helpers.py:453 | the dict comprehension over node indices has exactly those keys, each mapped to the value of its last occurrence, in index order when the indices are distinct |
| ListHelpers.EnsureDictForNodes | src/stockpyl/helpers.py:410-457 | a dict is returned as is; otherwise the keys are the node indices, mapped to default, the singleton, or the list entry at the same position; a list of the wrong length is an error |
| Nearest.SearchSortedLeft | src/stockpyl/helpers.py:271 | searchsorted(side="left"): every entry before the index is below v, and the entry at it (if any) is at least v |
| Nearest.NearestSorted | src/stockpyl/helpers.py:271-276 | on a sorted array the chosen index has least distance to v; among equally near entries it holds the largest value, and among equal values it is the first copy of the right neighbour (every earlier entry < v) or the last copy of the left neighbour (every later entry >= v) |
| Nearest.FirstNearest | src/stockpyl/helpers.py:279-280 | argmin picks an index of least distance, every earlier index being strictly farther |
| Nearest.FindNearest | src/stockpyl/helpers.py:244-281 | one index per value, computed by the chosen branch; the unsorted branch fails on an empty array when there is a value to look up |
| UniformSums.OneDie | src/stockpyl/helpers.py:709 | the reference distribution of one die gives each face 1/(hi-lo+1) and every other value 0, as du_pmf does |
| UniformSums.BumpedProb | src/stockpyl/helpers.py:714-715 | adding p·q at prevSum+d for each face d changes the probability of sum y by p·q exactly when y - prevSum is a face, and leaves every other sum alone |
| UniformSums.AddRow | src/stockpyl/helpers.py:714-715 | the row of prevSum adds p·q at each of prevSum+lo .. prevSum+hi and nothing elsewhere; the keys stay an ascending run and the total mass grows by (hi-lo+1)·p·q |
| UniformSums.SpreadIsConvolution | src/stockpyl/helpers.py:714-715 | adding up the rows of all prev sums gives, at each sum y, the convolution Σ_d t[y-d]·q over the faces d |
| UniformSums.AddUniform | src/stockpyl/helpers.py:712-716 | one pass of the outer loop: every sum y gets Σ_{d=lo..hi} prev[y-d]·q, the keys run from base+lo to top+hi and the total mass is kept |
| UniformSums.ConvolvedIsFaceSum | src/stockpyl/helpers.py:712-716 | convolving the distribution of k dice with the uniform die gives the reference distribution of k+1 dice |
| UniformSums.SumPmfStep | src/stockpyl/helpers.py:712-716 | the table after one more pass holds the distribution of k+1 dice at every sum, including the empty-die case |
| UniformSums.SumOfDiscreteUniformsPmf | src/stockpyl/helpers.py:680-718 | the keys are exactly n·lo, ..., n·hi ascending; for n > 0 each sum y has the probability that n independent uniform draws from lo..hi add up to y, and 0 off the keys; the masses add up to 1; n <= 0 gives {0: 1}; an empty die leaves no keys |

## Left out

- newsvendor_poisson, newsvendor_discrete and newsvendor_poisson_cost are not part of this model.
  - The single-period cost g is the function field `g` of `SsCost.Instance`.
  - y* is a parameter of `SsSearch.FindOptimalPolicy`.
- scipy's `poisson.pmf` (ss.py:112) is not part of this model. The pmf is an input sequence of probabilities.
- Both the Poisson and the explicit-pmf paths of ss.py are modelled with one g and one pmf. Two quirks of the explicit path are not modelled:
  - ss.py:143 passes only pmf[0..demand_hi-1] to the newsvendor cost;
  - ss.py:256-258 passes `demand_pmf_dict` in the position of `demand_hi`.
- SsCost.Cost reports `PmfTooShort` when the pmf has fewer than S-s entries. On the Poisson path ss.py:112 builds the pmf with exactly S-s entries, so the source never meets that case there; `SsCost.CostIgnoresTail` shows that any pmf agreeing on its first S-s entries gives the same cost.
- SsCost.Cost: a pmf with pmf[0] = 1 is the error `DegenerateDemand`. The source divides by zero there: a Python list raises, while numpy gives inf.
- Floating point is modelled by exact reals.
  - Rounding in the sums and the division of ss.py, loss_functions.py and helpers.py is not captured.
  - `math.isclose` is modelled on exact reals.
- SsSearch.FindReorderPoint, SsSearch.RaiseReorderPoint and SsSearch.ScanOrderUpTo stop with `StepLimit` after `maxSteps` iterations. Termination of the source's loops rests on the convexity of g, which this model does not assume.
- UniformSums.SumOfDiscreteUniformsPmf, SsCost.Cost: n, reorder_point and order_up_to_level are `int` here, so the checks on them hold by type. These are the ValueError for a non-integer n at helpers.py:706-707 and the asserts at ss.py:97-98. Also left out: a float n such as 3.0 passes `is_integer` there, after which `range()` raises TypeError.
- SsSearch.FindOptimalPolicy: the optimality of the returned policy over all (s,S) is the theorem of Zheng and Federgruen and is not proved. What is proved is the scan's own invariants and the improvement lemmas.
- LossFunctions.DiscreteLoss: the `distrib` (rv_discrete) branch, loss_functions.py:433-449, is not modelled because it calls scipy. The check that x is an integer holds by type.
- The other functions of helpers.py are not part of this model: `is_iterable`, `is_list`, `is_integer`, `convolve_many`, the string and list utilities.
- The ensure_list functions: the `var_name` message text is not modelled. Neither is a dict passed where a list is expected (a dict is iterable in Python and is treated by length).
- ListHelpers.EnsureListForTimePeriods: a `None` scalar is not distinguished from other scalars.
- Nearest.FindNearest requires a sorted array when `sorted` is set. numpy's searchsorted on an unsorted array returns an unspecified position, which is not modelled. Casting the indices to float (`np.zeros`) is not modelled either.
- DictHelpers.SortDictByKeys models integer keys and None. Other comparable key types are not covered.

## Findings

Code and docstring disagree in two places; the model follows the code.

- The docstring of `ensure_list_for_time_periods` (helpers.py:319-322) speaks of lengths num_periods and num_periods-1, while the code (helpers.py:349-352) accepts num_periods+1 and num_periods. None of its four examples (helpers.py:326-329) is what the code returns; `ListHelpers.TimePeriodsDocExamples` states what it does return:
  - `(5, 3)` is documented as `[5, 5, 5]`; the code returns `[0, 5, 5, 5]`;
  - `([0, 5, 2, 1], 4)` is documented as returned unchanged; it has length 4 = T, so the code returns `[0, 0, 5, 2, 1]`;
  - `([5, 2, 1], 4)` is documented as `[0, 5, 2, 1]`; it has length 3, so the code raises ValueError;
  - `([0, 5, 2, 1], 3)` is documented as raising; it has length 4 = T+1, so the code returns it unchanged.
- The `change_dict_key` docstring (helpers.py:512) says the pair moves to the end. That holds only when the new key was absent or equal to the old key (see `DictHelpers.Renamed`).

| source | as written | input that shows it | evidently intended | confidence | as-written member | corrected member |
|---|---|---|---|---|---|---|
| src/stockpyl/helpers.py:91-98 | the second loop iterates over d2 and tests `key in d2`, which always holds, so keys present only in d2 are never checked | d1 = {}, d2 = {7: 1.0}, require_presence=True: returns True, while the swapped call returns False | keys of d2 missing from d1 are checked against 0 and fail under require_presence, making the comparison symmetric | not executed | DictHelpers.ExtraKeysIgnored | DictHelpers.DictMatchBothWays |

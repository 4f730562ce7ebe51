/** find_nearest (src/stockpyl/helpers.py:244-281): for each of a list of
    values, the index of the array entry closest to it. With `sorted` set
    the array is searched by bisection (numpy's searchsorted, side "left")
    and the closer of the two neighbours is taken; otherwise the first
    index of least distance (numpy's argmin) is taken. */
module Nearest {
  import opened Results
  import opened Sums

  datatype NearestError = EmptyArray

  /** a is in non-decreasing order. */
  predicate SortedSeq(a: seq<real>) {
    forall i, j :: 0 <= i < j < |a| ==> a[i] <= a[j]
  }

  /** |x - y| */
  function Dist(x: real, y: real): real {
    Abs(x - y)
  }

  /** np.searchsorted(a, v, side="left") on a sorted array: the first index
      whose entry is at least v, or |a| when there is none. */
  function SearchSortedLeft(a: seq<real>, v: real): (i: nat)
    ensures i <= |a|
    ensures forall j :: 0 <= j < i ==> a[j] < v
    ensures i < |a| ==> a[i] >= v
  {
    if a == [] then 0
    else if a[0] >= v then 0
    else 1 + SearchSortedLeft(a[1..], v)
  }

  /** The sorted branch (helpers.py:271-276): the left neighbour idx-1 is
      taken only when it is strictly closer than the right neighbour idx
      (or there is no right neighbour). The result is an index of least
      distance; among equal entries it is the first copy of the right
      neighbour a[idx] or the last copy of the left neighbour a[idx-1]; an
      empty array gives 0. */
  function NearestSorted(a: seq<real>, v: real): (r: nat)
    requires SortedSeq(a)
    ensures a == [] ==> r == 0
    ensures a != [] ==> r < |a|
    ensures a != [] ==> forall j :: 0 <= j < |a| ==> Dist(v, a[r]) <= Dist(v, a[j])
    ensures a != [] ==> forall j :: 0 <= j < |a| && Dist(v, a[j]) == Dist(v, a[r]) ==> a[j] <= a[r]
    ensures a != [] && a[r] >= v ==> forall j :: 0 <= j < r ==> a[j] < v
    ensures a != [] && a[r] < v ==> forall j :: r < j < |a| ==> a[j] >= v
  {
    var idx := SearchSortedLeft(a, v);
    if idx > 0 && (idx == |a| || Dist(v, a[idx - 1]) < Dist(v, a[idx])) then idx - 1 else idx
  }

  /** np.argmin(np.abs(a - v)): the first index of least distance. */
  function FirstNearest(a: seq<real>, v: real): (r: nat)
    requires a != []
    ensures r < |a|
    ensures forall j :: 0 <= j < |a| ==> Dist(v, a[r]) <= Dist(v, a[j])
    ensures forall j :: 0 <= j < r ==> Dist(v, a[j]) > Dist(v, a[r])
  {
    if |a| == 1 then 0
    else
      var rest := 1 + FirstNearest(a[1..], v);
      if Dist(v, a[rest]) < Dist(v, a[0]) then rest else 0
  }

  /** find_nearest(array, values, sorted): the loop over the values writing
      ind[v] (helpers.py:267-281). numpy's argmin raises on an empty array,
      so the unsorted branch fails when there is a value to look up in an
      empty array. */
  method FindNearest(a: array<real>, values: seq<real>, sorted: bool) returns (r: Result<seq<nat>, NearestError>)
    requires sorted ==> SortedSeq(a[..])
    ensures r.Err? <==> !sorted && a.Length == 0 && |values| > 0
    ensures r.Ok? ==> |r.value| == |values|
    ensures r.Ok? && sorted ==> forall v :: 0 <= v < |values| ==> r.value[v] == NearestSorted(a[..], values[v])
    ensures r.Ok? && !sorted && a.Length > 0 ==>
              forall v :: 0 <= v < |values| ==> r.value[v] == FirstNearest(a[..], values[v])
  {
    var arr := a[..];
    var ind := new nat[|values|];
    for v := 0 to |values|
      invariant !sorted && v > 0 ==> arr != []
      invariant forall u :: 0 <= u < v ==> ind[u] == NearestIndex(arr, values[u], sorted)
    {
      if sorted {
        ind[v] := NearestSorted(arr, values[v]);
      } else {
        if a.Length == 0 {
          return Err(EmptyArray);
        }
        ind[v] := FirstNearest(arr, values[v]);
      }
    }
    r := Ok(ind[..]);
  }

  /** The index find_nearest stores for one value. */
  function NearestIndex(a: seq<real>, x: real, sorted: bool): nat
    requires sorted ==> SortedSeq(a)
    requires !sorted ==> a != []
  {
    if sorted then NearestSorted(a, x) else FirstNearest(a, x)
  }
}

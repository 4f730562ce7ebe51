/** The list-handling helpers of src/stockpyl/helpers.py: they accept a
    parameter given as a singleton, a list or (for nodes) a dict or None,
    and return it in the shape the rest of the library indexes into. A
    Python value is a singleton when it is not iterable or is a string;
    such a value is `Scalar` here. */
module ListHelpers {
  import opened Results
  import opened Sorting
  import opened Dicts

  datatype ShapeError = WrongLength

  /** A parameter given either as one value or as a list of values. */
  datatype Shape<T> = Scalar(value: T) | Listed(items: seq<T>)

  /** `[x] * n`: n copies of x, none when n <= 0. */
  function Copies<T>(x: T, n: int): (r: seq<T>)
    ensures |r| == if n > 0 then n else 0
    ensures forall i :: 0 <= i < |r| ==> r[i] == x
  {
    seq(if n > 0 then n else 0, _ => x)
  }

  // ---------------------------------------------------------------------
  // check_iterable_sizes (helpers.py:287-309)

  /** An entry of the list handed to check_iterable_sizes: a singleton, or
      an iterable of the given length. */
  datatype Item = Singleton | Iterable(size: nat)

  /** Whether the i-th item takes part in the comparison: an iterable
      whose length is not 1. */
  predicate Sized(items: seq<Item>, i: int)
    requires 0 <= i < |items|
  {
    items[i].Iterable? && items[i].size != 1
  }

  /** The set of lengths built at helpers.py:306. */
  function Lengths(items: seq<Item>): set<nat> {
    set i | 0 <= i < |items| && Sized(items, i) :: items[i].size
  }

  /** check_iterable_sizes: true exactly when all iterable items of length
      other than 1 have one and the same length. */
  function CheckIterableSizes(items: seq<Item>): (r: bool)
    ensures r <==> forall i, j :: 0 <= i < |items| && 0 <= j < |items| && Sized(items, i) && Sized(items, j) ==>
                     items[i].size == items[j].size
  {
    LengthsAtMostOne(items);
    |Lengths(items)| <= 1
  }

  lemma LengthsAtMostOne(items: seq<Item>)
    ensures |Lengths(items)| <= 1 <==>
              forall i, j :: 0 <= i < |items| && 0 <= j < |items| && Sized(items, i) && Sized(items, j) ==>
                items[i].size == items[j].size
  {
    var s := Lengths(items);
    if |s| <= 1 {
      forall i, j | 0 <= i < |items| && 0 <= j < |items| && Sized(items, i) && Sized(items, j)
        ensures items[i].size == items[j].size
      {
        var a := items[i].size;
        assert a in s && items[j].size in s;
        assert |s - {a}| == |s| - 1;
      }
    } else if i :| 0 <= i < |items| && Sized(items, i) {
      if forall j :: 0 <= j < |items| && Sized(items, j) ==> items[j].size == items[i].size {
        assert s == {items[i].size};
      }
    }
  }

  // ---------------------------------------------------------------------
  // ensure_list_for_time_periods (helpers.py:312-360)

  /** ensure_list_for_time_periods(x, num_periods): a list of length
      num_periods+1 whose entry 0 is a placeholder. A list already of that
      length is kept, a list of length num_periods gets a leading 0, a
      singleton becomes [0] followed by num_periods copies of it, and a list
      of any other length is an error. */
  function EnsureListForTimePeriods(x: Shape<real>, numPeriods: int): (r: Result<seq<real>, ShapeError>)
    ensures r.Err? <==> x.Listed? && |x.items| != numPeriods + 1 && |x.items| != numPeriods
    ensures r.Ok? && numPeriods >= 0 ==> |r.value| == numPeriods + 1
    ensures x.Listed? && |x.items| == numPeriods + 1 ==> r == Ok(x.items)
    ensures x.Listed? && |x.items| == numPeriods ==> r.Ok? && r.value[0] == 0.0 && r.value[1..] == x.items
    ensures x.Scalar? ==> r.Ok? && |r.value| >= 1 && r.value[0] == 0.0 &&
                          forall t :: 1 <= t < |r.value| ==> r.value[t] == x.value
  {
    match x
    case Listed(xs) =>
      if |xs| == numPeriods + 1 then Ok(xs)
      else if |xs| == numPeriods then Ok([0.0] + xs)
      else Err(WrongLength)
    case Scalar(v) =>
      Ok([0.0] + Copies(v, numPeriods))
  }

  /** A list produced by ensure_list_for_time_periods is accepted again
      unchanged. */
  lemma TimePeriodsIdempotent(x: Shape<real>, numPeriods: int)
    requires numPeriods >= 0 && EnsureListForTimePeriods(x, numPeriods).Ok?
    ensures EnsureListForTimePeriods(Listed(EnsureListForTimePeriods(x, numPeriods).value), numPeriods)
              == EnsureListForTimePeriods(x, numPeriods)
  {
  }

  /** What the code returns on the four inputs of the docstring examples
      (helpers.py:326-329), none of which is the result the docstring gives:
      a singleton gains the leading 0, a list of length num_periods gains
      one too, a list of length num_periods-1 is an error and a list of
      length num_periods+1 is kept. */
  lemma TimePeriodsDocExamples()
    ensures EnsureListForTimePeriods(Scalar(5.0), 3) == Ok([0.0, 5.0, 5.0, 5.0])
    ensures EnsureListForTimePeriods(Listed([0.0, 5.0, 2.0, 1.0]), 4) == Ok([0.0, 0.0, 5.0, 2.0, 1.0])
    ensures EnsureListForTimePeriods(Listed([5.0, 2.0, 1.0]), 4) == Err(WrongLength)
    ensures EnsureListForTimePeriods(Listed([0.0, 5.0, 2.0, 1.0]), 3) == Ok([0.0, 5.0, 2.0, 1.0])
  {
    assert Copies(5.0, 3) == [5.0, 5.0, 5.0];
    assert [0.0] + [5.0, 5.0, 5.0] == [0.0, 5.0, 5.0, 5.0];
    var four, three := [0.0, 5.0, 2.0, 1.0], [5.0, 2.0, 1.0];
    assert |four| == 4 && |three| == 3;
    assert [0.0] + four == [0.0, 0.0, 5.0, 2.0, 1.0];
  }

  // ---------------------------------------------------------------------
  // ensure_list_for_nodes (helpers.py:363-407)

  /** ensure_list_for_nodes(x, num_nodes, default): None becomes num_nodes
      copies of default, a singleton num_nodes copies of itself, a list of
      length num_nodes is kept and a list of any other length is an
      error. */
  function EnsureListForNodes<T>(x: Option<Shape<T>>, numNodes: int, default: T): (r: Result<seq<T>, ShapeError>)
    ensures r.Err? <==> x.Some? && x.value.Listed? && |x.value.items| != numNodes
    ensures r.Ok? && numNodes >= 0 ==> |r.value| == numNodes
    ensures x.None? ==> r.Ok? && forall n :: 0 <= n < |r.value| ==> r.value[n] == default
    ensures x.Some? && x.value.Scalar? ==> r.Ok? && forall n :: 0 <= n < |r.value| ==> r.value[n] == x.value.value
    ensures x.Some? && x.value.Listed? && r.Ok? ==> r.value == x.value.items
  {
    match x
    case None => Ok(Copies(default, numNodes))
    case Some(Listed(xs)) => if |xs| == numNodes then Ok(xs) else Err(WrongLength)
    case Some(Scalar(v)) => Ok(Copies(v, numNodes))
  }

  /** A list produced by ensure_list_for_nodes is accepted again
      unchanged. */
  lemma NodesIdempotent<T>(x: Option<Shape<T>>, numNodes: int, default: T)
    requires numNodes >= 0 && EnsureListForNodes(x, numNodes, default).Ok?
    ensures EnsureListForNodes(Some(Listed(EnsureListForNodes(x, numNodes, default).value)), numNodes, default)
              == EnsureListForNodes(x, numNodes, default)
  {
  }

  // ---------------------------------------------------------------------
  // ensure_dict_for_nodes (helpers.py:410-457)

  /** The parameter of ensure_dict_for_nodes: a dict (tested first, with
      `type(x) == dict`), or None, a singleton or a list. */
  datatype NodeArg<K(!new), T> = AsDict(dict: Dict<K, T>) | Other(arg: Option<Shape<T>>)

  /** `{ks[i]: vs[i] for i in range(len(vs))}`: the pairs stored in order,
      so a repeated key keeps the place of its first occurrence and the
      value of its last. */
  function Zip<K(==,!new), T>(ks: seq<K>, vs: seq<T>): (d: Dict<K, T>)
    requires |ks| == |vs|
    ensures ZipOf(d, ks, vs)
  {
    if ks == [] then Empty()
    else
      var n := |ks| - 1;
      var prefix := Zip(ks[..n], vs[..n]);
      ZipStep(prefix, ks, vs);
      Store(prefix, ks[n], vs[n])
  }

  /** d is the dict built from the pairs (ks[i], vs[i]) in order: it holds
      exactly the keys ks, each with the value paired with its last
      occurrence, and lists them in the order of ks when they are
      distinct. */
  ghost predicate ZipOf<K(!new), T>(d: Dict<K, T>, ks: seq<K>, vs: seq<T>)
    requires |ks| == |vs|
  {
    && d.Valid()
    && (forall k :: k in d.table <==> k in ks)
    && LastValues(d, ks, vs)
    && (Distinct(ks) ==> d.keys == ks)
  }

  /** Each key of ks maps to the value paired with its last occurrence. */
  ghost predicate LastValues<K(!new), T>(d: Dict<K, T>, ks: seq<K>, vs: seq<T>)
    requires |ks| == |vs| && forall k :: k in ks ==> k in d.table
  {
    forall i :: 0 <= i < |ks| && (forall j :: i < j < |ks| ==> ks[j] != ks[i]) ==> d.table[ks[i]] == vs[i]
  }

  lemma ZipStep<K(!new), T>(prefix: Dict<K, T>, ks: seq<K>, vs: seq<T>)
    requires |ks| == |vs| > 0 && ZipOf(prefix, ks[..|ks| - 1], vs[..|ks| - 1])
    ensures ZipOf(Store(prefix, ks[|ks| - 1], vs[|ks| - 1]), ks, vs)
  {
    ZipStepValues(prefix, ks, vs);
    ZipStepOrder(prefix, ks, vs);
  }

  lemma ZipStepKeys<K(!new), T>(prefix: Dict<K, T>, ks: seq<K>, vs: seq<T>)
    requires |ks| == |vs| > 0 && prefix.Valid()
    requires forall k :: k in prefix.table <==> k in ks[..|ks| - 1]
    ensures forall k :: k in Store(prefix, ks[|ks| - 1], vs[|ks| - 1]).table <==> k in ks
  {
    assert ks == ks[..|ks| - 1] + [ks[|ks| - 1]];
  }

  lemma ZipStepOrder<K(!new), T>(prefix: Dict<K, T>, ks: seq<K>, vs: seq<T>)
    requires |ks| == |vs| > 0 && prefix.Valid()
    requires forall k :: k in prefix.table <==> k in ks[..|ks| - 1]
    requires Distinct(ks[..|ks| - 1]) ==> prefix.keys == ks[..|ks| - 1]
    ensures Distinct(ks) ==> Store(prefix, ks[|ks| - 1], vs[|ks| - 1]).keys == ks
  {
    var n := |ks| - 1;
    if Distinct(ks) {
      assert Distinct(ks[..n]);
      assert ks[n] !in ks[..n];
      assert ks == ks[..n] + [ks[n]];
    }
  }

  lemma ZipStepValues<K(!new), T>(prefix: Dict<K, T>, ks: seq<K>, vs: seq<T>)
    requires |ks| == |vs| > 0 && prefix.Valid()
    requires forall k :: k in prefix.table <==> k in ks[..|ks| - 1]
    requires LastValues(prefix, ks[..|ks| - 1], vs[..|ks| - 1])
    ensures forall k :: k in ks ==> k in Store(prefix, ks[|ks| - 1], vs[|ks| - 1]).table
    ensures LastValues(Store(prefix, ks[|ks| - 1], vs[|ks| - 1]), ks, vs)
  {
    ZipStepKeys(prefix, ks, vs);
    var n := |ks| - 1;
    forall i | 0 <= i < n && (forall j :: i < j < |ks| ==> ks[j] != ks[i])
      ensures prefix.table[ks[i]] == vs[i]
    {
      assert ks[..n][i] == ks[i] && vs[..n][i] == vs[i];
    }
  }

  /** ensure_dict_for_nodes(x, node_indices, default): a dict is returned
      as it is; otherwise the result has the node indices as keys, with
      default (x None), x (a singleton) or the list entry at the same
      position; a list whose length differs from the number of node
      indices is an error. */
  function EnsureDictForNodes<K(==,!new), T>(x: NodeArg<K, T>, nodeIndices: seq<K>, default: T)
    : (r: Result<Dict<K, T>, ShapeError>)
    ensures x.AsDict? ==> r == Ok(x.dict)
    ensures r.Err? <==> x.Other? && x.arg.Some? && x.arg.value.Listed? && |x.arg.value.items| != |nodeIndices|
    ensures x.Other? && r.Ok? ==> r.value.Valid() && forall k :: k in r.value.table <==> k in nodeIndices
    ensures x.Other? && r.Ok? && Distinct(nodeIndices) ==> r.value.keys == nodeIndices
    ensures x.Other? && x.arg.None? ==> r.Ok? && forall k :: k in r.value.table ==> r.value.table[k] == default
    ensures x.Other? && x.arg.Some? && x.arg.value.Scalar? ==>
              r.Ok? && forall k :: k in r.value.table ==> r.value.table[k] == x.arg.value.value
    ensures x.Other? && x.arg.Some? && x.arg.value.Listed? && r.Ok? ==> LastValues(r.value, nodeIndices, x.arg.value.items)
    ensures x.Other? && x.arg.Some? && x.arg.value.Listed? && r.Ok? && Distinct(nodeIndices) ==>
              forall i :: 0 <= i < |nodeIndices| ==> r.value.table[nodeIndices[i]] == x.arg.value.items[i]
  {
    match x
    case AsDict(d) => Ok(d)
    case Other(None) => Ok(Constant(nodeIndices, default))
    case Other(Some(Listed(xs))) =>
      if |xs| == |nodeIndices| then
        Ok(Zip(nodeIndices, xs))
      else Err(WrongLength)
    case Other(Some(Scalar(v))) => Ok(Constant(nodeIndices, v))
  }

  /** `{k: v for k in ks}` */
  function Constant<K(==,!new), T>(ks: seq<K>, v: T): (d: Dict<K, T>)
    ensures d.Valid() && (forall k :: k in d.table <==> k in ks) && (Distinct(ks) ==> d.keys == ks)
    ensures forall k :: k in d.table ==> d.table[k] == v
  {
    var d := Zip(ks, Copies(v, |ks|));
    forall k | k in d.table ensures d.table[k] == v {
      var i := LastOccurrence(ks, k);
    }
    d
  }

  /** The last position at which k occurs in ks. */
  lemma LastOccurrence<K>(ks: seq<K>, k: K) returns (i: nat)
    requires k in ks
    ensures i < |ks| && ks[i] == k && forall j :: i < j < |ks| ==> ks[j] != k
  {
    i := |ks| - 1;
    while ks[i] != k
      invariant 0 <= i < |ks| && k in ks[..i + 1]
      invariant forall j :: i < j < |ks| ==> ks[j] != k
      decreases i
    {
      assert ks[..i + 1] == ks[..i] + [ks[i]];
      i := i - 1;
    }
  }
}

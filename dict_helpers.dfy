/** The dict utilities of src/stockpyl/helpers.py: min_of_dict, dict_match,
    sort_dict_by_keys and change_dict_key. Dicts are the ordered `Dict`
    values of module Dicts; change_dict_key, the one that mutates its
    argument, works on a `DictObject` that holds one. */
module DictHelpers {
  import opened Results
  import opened Sorting
  import opened Dicts
  import opened Sums

  datatype HelperError =
    | EmptyDict           // ValueError from min() of an empty dict
    | MissingKey          // KeyError from dict.pop
    | NegativeTolerance   // ValueError from math.isclose

  // ---------------------------------------------------------------------
  // min_of_dict (helpers.py:28-53)

  /** The position of the first key, in iteration order, whose value is
      least: what `min(d, key=d.get)` picks, since min keeps the earlier of
      two equal values. */
  function FirstArgMin<K(==,!new)>(keys: seq<K>, table: map<K, real>): (i: nat)
    requires keys != [] && forall j :: 0 <= j < |keys| ==> keys[j] in table
    ensures i < |keys|
    ensures forall j :: 0 <= j < |keys| ==> table[keys[i]] <= table[keys[j]]
    ensures forall j :: 0 <= j < i ==> table[keys[j]] > table[keys[i]]
  {
    if |keys| == 1 then 0
    else
      var rest := 1 + FirstArgMin(keys[1..], table);
      if table[keys[rest]] < table[keys[0]] then rest else 0
  }

  /** min_of_dict: the least value and the first key that attains it, or
      the ValueError of an empty dict. */
  function MinOfDict<K(==,!new)>(d: Dict<K, real>): (r: Result<(real, K), HelperError>)
    requires d.Valid()
    ensures r.Err? <==> d.keys == []
    ensures r.Err? ==> r.error == EmptyDict
    ensures r.Ok? ==> r.value.1 in d.table && r.value.0 == d.table[r.value.1]
    ensures r.Ok? ==> forall k :: k in d.table ==> r.value.0 <= d.table[k]
    ensures r.Ok? ==> forall i :: 0 <= i < |d.keys| && d.keys[i] != r.value.1 && d.table[d.keys[i]] == r.value.0 ==>
                        exists j :: 0 <= j < i && d.keys[j] == r.value.1
  {
    if d.keys == [] then Err(EmptyDict)
    else
      var k := d.keys[FirstArgMin(d.keys, d.table)];
      Ok((d.table[k], k))
  }

  // ---------------------------------------------------------------------
  // dict_match (helpers.py:56-100)

  /** math.isclose(a, b, rel_tol, abs_tol) for finite a, b with
      non-negative tolerances: |a - b| is within rel_tol of |a| or of |b|,
      or within abs_tol. */
  predicate Close(a: real, b: real, relTol: real, absTol: real) {
    var diff := Abs(a - b);
    diff <= relTol * Abs(b) || diff <= relTol * Abs(a) || diff <= absTol
  }

  /** math.isclose, including the ValueError it raises for a negative
      tolerance. */
  function IsClose(a: real, b: real, relTol: real, absTol: real): (r: Result<bool, HelperError>)
    ensures r.Err? <==> relTol < 0.0 || absTol < 0.0
    ensures r.Err? ==> r.error == NegativeTolerance
    ensures r.Ok? && a == b ==> r.value
  {
    if relTol < 0.0 || absTol < 0.0 then Err(NegativeTolerance)
    else Ok(Close(a, b, relTol, absTol))
  }

  /** isclose does not depend on argument order. */
  lemma CloseSymmetric(a: real, b: real, relTol: real, absTol: real)
    ensures Close(a, b, relTol, absTol) <==> Close(b, a, relTol, absTol)
  {
    assert Abs(a - b) == Abs(b - a);
  }

  /** The test the d1 loop applies to one key of d1 (helpers.py:80-88): close
      to d2's value, or, when d2 lacks the key, close to 0 with
      require_presence off. */
  predicate KeyMatches<K(==,!new)>(d1: Dict<K, real>, d2: Dict<K, real>, k: K,
                                   requirePresence: bool, relTol: real, absTol: real)
    requires k in d1.table
  {
    if k in d2.table then Close(d1.table[k], d2.table[k], relTol, absTol)
    else Close(d1.table[k], 0.0, relTol, absTol) && !requirePresence
  }

  /** What dict_match returns as written: every key of d1 matches. */
  predicate Matches<K(==,!new)>(d1: Dict<K, real>, d2: Dict<K, real>,
                                requirePresence: bool, relTol: real, absTol: real)
  {
    forall k :: k in d1.table ==> KeyMatches(d1, d2, k, requirePresence, relTol, absTol)
  }

  /** dict_match as written. Its second loop (helpers.py:91-98) tests
      `key in d2` for keys of d2, which always holds, so it never changes
      the result. */
  method DictMatch<K(==,!new)>(d1: Dict<K, real>, d2: Dict<K, real>,
                               requirePresence: bool, relTol: real, absTol: real)
    returns (r: Result<bool, HelperError>)
    requires d1.Valid() && d2.Valid()
    ensures r.Err? <==> d1.keys != [] && (relTol < 0.0 || absTol < 0.0)
    ensures r.Ok? ==> (r.value <==> Matches(d1, d2, requirePresence, relTol, absTol))
  {
    var matched := true;
    for i := 0 to |d1.keys|
      invariant i > 0 ==> relTol >= 0.0 && absTol >= 0.0
      invariant matched <==> forall j :: 0 <= j < i ==> KeyMatches(d1, d2, d1.keys[j], requirePresence, relTol, absTol)
    {
      var key := d1.keys[i];
      var close;
      if key in d2.table {
        close := IsClose(d1.table[key], d2.table[key], relTol, absTol);
      } else {
        close := IsClose(d1.table[key], 0.0, relTol, absTol);
      }
      if close.Err? {
        return Err(close.error);
      }
      if !close.value || (key !in d2.table && requirePresence) {
        matched := false;
      }
    }
    for i := 0 to |d2.keys|
    {
      var key := d2.keys[i];
      if key in d2.table {
        // Already checked, says the source; the test is always true.
      } else {
        assert false;
      }
    }
    return Ok(matched);
  }

  /** As written, keys that only d2 has never cause a mismatch: dict_match
      with require_presence set accepts d1 = {} against d2 = {7: 1.0}, and
      answers differently with the arguments swapped. */
  lemma ExtraKeysIgnored()
    ensures var d1, d2 := Dict([], map[]), Dict([7], map[7 := 1.0]);
      && Matches(d1, d2, true, 0.000000001, 0.0)
      && !Matches(d2, d1, true, 0.000000001, 0.0)
  {
    var d1, d2 := Dict([], map[]), Dict([7], map[7 := 1.0]);
    assert 7 in d2.table && !KeyMatches(d2, d1, 7, true, 0.000000001, 0.0);
  }

  /** dict_match as its docstring describes it: the d1 loop, and a d2 loop
      that checks the keys of d2 missing from d1 against 0. */
  predicate MatchesBothWays<K(==,!new)>(d1: Dict<K, real>, d2: Dict<K, real>,
                                        requirePresence: bool, relTol: real, absTol: real)
  {
    && Matches(d1, d2, requirePresence, relTol, absTol)
    && forall k :: k in d2.table && k !in d1.table ==>
         Close(d2.table[k], 0.0, relTol, absTol) && !requirePresence
  }

  /** The corrected comparison does not depend on argument order. */
  lemma BothWaysSymmetric<K(!new)>(d1: Dict<K, real>, d2: Dict<K, real>,
                                      requirePresence: bool, relTol: real, absTol: real)
    ensures MatchesBothWays(d1, d2, requirePresence, relTol, absTol)
        <==> MatchesBothWays(d2, d1, requirePresence, relTol, absTol)
  {
    forall k | k in d1.table && k in d2.table
      ensures Close(d1.table[k], d2.table[k], relTol, absTol) <==> Close(d2.table[k], d1.table[k], relTol, absTol)
    {
      CloseSymmetric(d1.table[k], d2.table[k], relTol, absTol);
    }
  }

  /** With require_presence, a corrected match implies equal key sets. */
  lemma BothWaysPresence<K(!new)>(d1: Dict<K, real>, d2: Dict<K, real>, relTol: real, absTol: real)
    requires MatchesBothWays(d1, d2, true, relTol, absTol)
    ensures d1.table.Keys == d2.table.Keys
  {
    forall k | k in d1.table ensures k in d2.table {
      assert KeyMatches(d1, d2, k, true, relTol, absTol);
    }
  }

  /** dict_match with its second loop testing `key in d1`, as intended. */
  method DictMatchBothWays<K(==,!new)>(d1: Dict<K, real>, d2: Dict<K, real>,
                                       requirePresence: bool, relTol: real, absTol: real)
    returns (r: Result<bool, HelperError>)
    requires d1.Valid() && d2.Valid()
    ensures r.Err? <==> (d1.keys != [] || d2.keys != []) && (relTol < 0.0 || absTol < 0.0)
    ensures r.Ok? ==> (r.value <==> MatchesBothWays(d1, d2, requirePresence, relTol, absTol))
  {
    var first := DictMatch(d1, d2, requirePresence, relTol, absTol);
    if first.Err? {
      return first;
    }
    var matched := first.value;
    for i := 0 to |d2.keys|
      invariant i > 0 && d2.keys[i - 1] !in d1.table ==> relTol >= 0.0 && absTol >= 0.0
      invariant matched <==>
        Matches(d1, d2, requirePresence, relTol, absTol)
        && forall j :: 0 <= j < i && d2.keys[j] !in d1.table ==>
             Close(d2.table[d2.keys[j]], 0.0, relTol, absTol) && !requirePresence
    {
      var key := d2.keys[i];
      if key !in d1.table {
        var close := IsClose(d2.table[key], 0.0, relTol, absTol);
        if close.Err? {
          return Err(close.error);
        }
        if !close.value || requirePresence {
          matched := false;
        }
      }
    }
    return Ok(matched);
  }

  // ---------------------------------------------------------------------
  // sort_dict_by_keys (helpers.py:460-507)

  /** The integer keys of a key list, in order, with None left out. */
  function IntKeys(keys: seq<Option<int>>): (r: seq<int>)
    ensures forall z :: z in r <==> Some(z) in keys
    ensures Distinct(keys) ==> Distinct(r)
  {
    if keys == [] then []
    else
      var rest := IntKeys(keys[1..]);
      assert forall z :: Some(z) in keys <==> Some(z) == keys[0] || Some(z) in keys[1..];
      if keys[0].Some? then
        if Distinct(keys) then
          assert keys[0] !in keys[1..] by {
            forall i | 0 <= i < |keys[1..]| ensures keys[1..][i] != keys[0] {
              assert keys[1..][i] == keys[i + 1];
            }
          }
          ConsDistinct(keys[0].value, rest);
          [keys[0].value] + rest
        else [keys[0].value] + rest
      else rest
  }

  /** Integer keys as dict keys. */
  function Wrap(xs: seq<int>): (r: seq<Option<int>>)
    ensures |r| == |xs| && forall i :: 0 <= i < |xs| ==> r[i] == Some(xs[i])
  {
    seq(|xs|, i requires 0 <= i < |xs| => Some(xs[i]))
  }

  /** Distinct integers ascending, or descending. */
  function OrderedInts(ints: seq<int>, ascending: bool): (r: seq<int>)
    requires Distinct(ints)
    ensures Distinct(r) && forall z :: z in r <==> z in ints
    ensures ascending ==> StrictlyIncreasing(r)
    ensures !ascending ==> StrictlyDecreasing(r)
  {
    var r := if ascending then Sort(ints) else SortDescending(ints);
    assert forall z :: z in r <==> z in multiset(ints) by {
      forall z ensures z in r <==> z in multiset(ints) {
        assert z in r <==> z in multiset(r);
      }
    }
    r
  }

  /** The None key's place: first when ascending, last when descending. */
  function PlaceNone(some: seq<Option<int>>, hasNone: bool, ascending: bool): seq<Option<int>> {
    if !hasNone then some
    else if ascending then [None] + some
    else some + [None]
  }

  /** The integer keys of r are in increasing (or decreasing) order. */
  predicate KeysOrdered(r: seq<Option<int>>, ascending: bool) {
    forall i, j :: 0 <= i < j < |r| && r[i].Some? && r[j].Some? ==>
      if ascending then r[i].value < r[j].value else r[i].value > r[j].value
  }

  lemma WrapFacts(xs: seq<int>, ascending: bool)
    requires Distinct(xs)
    requires ascending ==> StrictlyIncreasing(xs)
    requires !ascending ==> StrictlyDecreasing(xs)
    ensures Distinct(Wrap(xs)) && None !in Wrap(xs)
    ensures forall z :: Some(z) in Wrap(xs) <==> z in xs
    ensures KeysOrdered(Wrap(xs), ascending)
  {
    var some := Wrap(xs);
    forall z ensures Some(z) in some <==> z in xs {
      if Some(z) in some {
        var i :| 0 <= i < |some| && some[i] == Some(z);
        assert xs[i] == z;
      }
    }
  }

  lemma PlaceNoneFacts(xs: seq<int>, hasNone: bool, ascending: bool)
    requires Distinct(xs)
    requires ascending ==> StrictlyIncreasing(xs)
    requires !ascending ==> StrictlyDecreasing(xs)
    ensures Distinct(PlaceNone(Wrap(xs), hasNone, ascending))
    ensures forall k :: k in PlaceNone(Wrap(xs), hasNone, ascending) <==>
              (k.None? && hasNone) || (k.Some? && k.value in xs)
    ensures KeysOrdered(PlaceNone(Wrap(xs), hasNone, ascending), ascending)
  {
    WrapFacts(xs, ascending);
    if hasNone && ascending {
      NoneFirst(Wrap(xs));
    } else if hasNone {
      NoneLast(Wrap(xs), ascending);
    }
  }

  lemma NoneFirst(some: seq<Option<int>>)
    requires Distinct(some) && None !in some && KeysOrdered(some, true)
    ensures Distinct([None] + some) && KeysOrdered([None] + some, true)
  {
    var r := [None] + some;
    ConsDistinct(None, some);
    forall i, j | 0 <= i < j < |r| && r[i].Some? && r[j].Some?
      ensures r[i].value < r[j].value
    {
      assert r[i] == some[i - 1] && r[j] == some[j - 1];
    }
  }

  lemma NoneLast(some: seq<Option<int>>, ascending: bool)
    requires Distinct(some) && None !in some && KeysOrdered(some, ascending)
    ensures Distinct(some + [None]) && KeysOrdered(some + [None], ascending)
  {
    var r := some + [None];
    assert forall i :: 0 <= i < |some| ==> r[i] == some[i];
  }

  /** The keys placed by PlaceNone are the dict's keys, rearranged. */
  lemma PlacedKeys<V>(d: Dict<Option<int>, V>, ascending: bool, ints: seq<int>)
    requires d.Valid() && Distinct(IntKeys(d.keys)) && ints == OrderedInts(IntKeys(d.keys), ascending)
    ensures Distinct(PlaceNone(Wrap(ints), None in d.table, ascending))
    ensures forall k :: k in PlaceNone(Wrap(ints), None in d.table, ascending) <==> k in d.table
    ensures multiset(PlaceNone(Wrap(ints), None in d.table, ascending)) == multiset(d.keys)
    ensures KeysOrdered(PlaceNone(Wrap(ints), None in d.table, ascending), ascending)
  {
    var r := PlaceNone(Wrap(ints), None in d.table, ascending);
    PlaceNoneFacts(ints, None in d.table, ascending);
    forall k ensures k in r <==> k in d.keys {
      if k.Some? {
        assert k in r <==> k.value in ints;
        assert k.value in ints <==> k.value in IntKeys(d.keys);
      }
    }
    SameElementsPermutation(r, d.keys);
  }

  /** The order in which sort_dict_by_keys lists the keys of d: a
      rearrangement of the keys, the integer keys ascending (or descending),
      and the None key first when ascending and last when descending. */
  function SortedKeyList<V>(d: Dict<Option<int>, V>, ascending: bool): (r: seq<Option<int>>)
    requires d.Valid()
    ensures Distinct(r) && (forall k :: k in r <==> k in d.table)
    ensures multiset(r) == multiset(d.keys)
    ensures None in d.table && ascending ==> r[0] == None
    ensures None in d.table && !ascending ==> r[|r| - 1] == None
    ensures KeysOrdered(r, ascending)
  {
    var ints := OrderedInts(IntKeys(d.keys), ascending);
    PlacedKeys(d, ascending, ints);
    PlaceNone(Wrap(ints), None in d.table, ascending)
  }

  /** The values of d at the listed keys. */
  function ValuesAt<V>(table: map<Option<int>, V>, ks: seq<Option<int>>): (r: seq<V>)
    requires forall k :: k in ks ==> k in table
    ensures |r| == |ks| && forall i :: 0 <= i < |ks| ==> r[i] == table[ks[i]]
  {
    seq(|ks|, i requires 0 <= i < |ks| => table[ks[i]])
  }

  lemma ValuesAtConcat<V>(table: map<Option<int>, V>, xs: seq<Option<int>>, ys: seq<Option<int>>)
    requires forall k :: k in xs + ys ==> k in table
    ensures ValuesAt(table, xs + ys) == ValuesAt(table, xs) + ValuesAt(table, ys)
  {
  }

  datatype Listing<V> = Values(values: seq<V>) | Keys(keys: seq<Option<int>>)

  /** sort_dict_by_keys: the dict's values (or keys) in key order, with the
      None key's entry inserted first when ascending and appended when
      descending. */
  method SortDictByKeys<V>(d: Dict<Option<int>, V>, ascending: bool, returnValues: bool) returns (r: Listing<V>)
    requires d.Valid()
    ensures returnValues ==> r == Values(ValuesAt(d.table, SortedKeyList(d, ascending)))
    ensures !returnValues ==> r == Keys(SortedKeyList(d, ascending))
  {
    var withoutNone := IntKeys(d.keys);
    var keys := Wrap(OrderedInts(withoutNone, ascending));
    ghost var order := PlaceNone(keys, None in d.table, ascending);
    assert order == SortedKeyList(d, ascending);
    assert forall k :: k in keys ==> k in d.table;
    if returnValues {
      var values := ValuesAt(d.table, keys);
      if None in d.table {
        if ascending {
          values := [d.table[None]] + values;
          NoneValueFirst(d.table, keys);
        } else {
          values := values + [d.table[None]];
          NoneValueLast(d.table, keys);
        }
      }
      r := Values(values);
    } else {
      if None in d.table {
        if ascending {
          keys := [None] + keys;
        } else {
          keys := keys + [None];
        }
      }
      r := Keys(keys);
    }
  }

  lemma NoneValueFirst<V>(table: map<Option<int>, V>, keys: seq<Option<int>>)
    requires None in table && forall k :: k in keys ==> k in table
    ensures ValuesAt(table, [None] + keys) == [table[None]] + ValuesAt(table, keys)
  {
    ValuesAtConcat(table, [None], keys);
  }

  lemma NoneValueLast<V>(table: map<Option<int>, V>, keys: seq<Option<int>>)
    requires None in table && forall k :: k in keys ==> k in table
    ensures ValuesAt(table, keys + [None]) == ValuesAt(table, keys) + [table[None]]
  {
    ValuesAtConcat(table, keys, [None]);
  }

  // ---------------------------------------------------------------------
  // change_dict_key (helpers.py:510-529)

  /** A dict object that callers share: change_dict_key changes it in
      place. */
  class DictObject<K(==,!new), V> {
    var contents: Dict<K, V>

    constructor(d: Dict<K, V>)
      ensures contents == d
    {
      contents := d;
    }
  }

  /** The dict after `d[newKey] = d.pop(oldKey)`: newKey maps to oldKey's
      former value, oldKey is gone unless it is newKey, every other entry is
      untouched, and the renamed entry comes last exactly when newKey was not
      already another key of the dict (the docstring's "at end of dict"
      holds only then). */
  function Renamed<K(==,!new), V>(d: Dict<K, V>, oldKey: K, newKey: K): (r: Dict<K, V>)
    requires d.Valid() && oldKey in d.table
    ensures r.Valid()
    ensures newKey in r.table && r.table[newKey] == d.table[oldKey]
    ensures oldKey != newKey ==> oldKey !in r.table
    ensures forall k :: k != oldKey && k != newKey ==>
              (k in r.table <==> k in d.table) && (k in d.table ==> r.table[k] == d.table[k])
    ensures newKey == oldKey || newKey !in d.table ==> r.keys == Without(d.keys, oldKey) + [newKey]
    ensures newKey != oldKey && newKey in d.table ==> r.keys == Without(d.keys, oldKey)
  {
    Store(Remove(d, oldKey), newKey, d.table[oldKey])
  }

  /** change_dict_key: renames the key in place, or raises KeyError (leaving
      the dict unchanged) when oldKey is absent. */
  method ChangeDictKey<K(==,!new), V>(obj: DictObject<K, V>, oldKey: K, newKey: K) returns (r: Result<(), HelperError>)
    requires obj.contents.Valid()
    modifies obj
    ensures obj.contents.Valid()
    ensures r.Err? <==> oldKey !in old(obj.contents.table)
    ensures r.Err? ==> r.error == MissingKey && obj.contents == old(obj.contents)
    ensures r.Ok? ==> obj.contents == Renamed(old(obj.contents), oldKey, newKey)
  {
    if oldKey !in obj.contents.table {
      return Err(MissingKey);
    }
    var value := obj.contents.table[oldKey];
    obj.contents := Remove(obj.contents, oldKey);
    obj.contents := Store(obj.contents, newKey, value);
    r := Ok(());
  }
}

/** Dimension handling: `_normalise_dimensions`, `_dict_as_list` and
    `_get_dimensions_as_list`. */
module Dimensions {
  import opened Wrappers
  import opened Dicts
  import opened Normaliser

  /** One `{'Name': name, 'Value': value}` entry of a request. */
  datatype Dimension = Dimension(name: string, value: string)

  /** Each key and value of `d` normalised, pair by pair, in order. */
  function NormalisedPairs(d: Dict<string>): (r: Dict<string>)
    ensures |r| == |d|
  {
    if d == [] then []
    else [(Normalise(d[0].0), Normalise(d[0].1))] + NormalisedPairs(d[1..])
  }

  /** The dict `_normalise_dimensions` builds: every normalised pair
      assigned in turn into an empty dict. */
  function NormalisedDimensions(d: Dict<string>): (r: Dict<string>)
    ensures DistinctKeys(r)
  {
    Merge([], NormalisedPairs(d))
  }

  /** `_normalise_dimensions`: a loop assigning `result[norm(key)] = norm(val)`. */
  method NormaliseDimensions(dimensions: Dict<string>) returns (result: Dict<string>)
    ensures result == NormalisedDimensions(dimensions)
  {
    result := [];
    var i := 0;
    while i < |dimensions|
      invariant 0 <= i <= |dimensions|
      invariant DistinctKeys(result)
      invariant result == Merge([], NormalisedPairs(dimensions[..i]))
    {
      var (key, val) := dimensions[i];
      PairsSnoc(dimensions[..i], dimensions[i]);
      assert dimensions[..i + 1] == dimensions[..i] + [dimensions[i]];
      MergeSnoc([], NormalisedPairs(dimensions[..i]), (Normalise(key), Normalise(val)));
      result := Put(result, Normalise(key), Normalise(val));
      i := i + 1;
    }
    assert dimensions[..i] == dimensions;
  }

  lemma {:induction false} PairsSnoc(d: Dict<string>, p: (string, string))
    ensures NormalisedPairs(d + [p]) == NormalisedPairs(d) + [(Normalise(p.0), Normalise(p.1))]
  {
    if d == [] {
      assert [p][1..] == [];
    } else {
      assert (d + [p])[1..] == d[1..] + [p];
      PairsSnoc(d[1..], p);
    }
  }

  /** Pair `i` of `d` normalises to `(k, v)` and no later key normalises
      to `k`. */
  predicate LastNormalisedPair(d: Dict<string>, i: int, k: string, v: string)
  {
    && 0 <= i < |d| && Normalise(d[i].0) == k && Normalise(d[i].1) == v
    && forall j :: i < j < |d| ==> Normalise(d[j].0) != k
  }

  /** A normalised key is bound to the normalised value of the LAST pair
      whose key normalises to it; no other key is bound. */
  lemma {:induction false} NormalisedPairsGet(d: Dict<string>, k: string, v: string)
    ensures Get(NormalisedPairs(d), k) == Some(v) <==> exists i :: LastNormalisedPair(d, i, k, v)
  {
    if d != [] {
      var t := d[1..];
      NormalisedPairsGet(t, k, v);
      var r := NormalisedPairs(d);
      assert r[1..] == NormalisedPairs(t);
      if Get(r, k) == Some(v) {
        if Get(NormalisedPairs(t), k).Some? {
          var i :| LastNormalisedPair(t, i, k, v);
          assert forall j :: i + 1 < j < |d| ==> d[j] == t[j - 1];
          assert LastNormalisedPair(d, i + 1, k, v);
        } else {
          NoLaterKey(t, k);
          assert forall j :: 0 < j < |d| ==> d[j] == t[j - 1];
          assert LastNormalisedPair(d, 0, k, v);
        }
      }
      if exists i :: LastNormalisedPair(d, i, k, v) {
        var i :| LastNormalisedPair(d, i, k, v);
        if i == 0 {
          assert forall j :: 0 <= j < |t| ==> t[j] == d[j + 1];
          NoLaterKeyConverse(t, k);
        } else {
          assert forall j :: i - 1 <= j < |t| ==> t[j] == d[j + 1];
          assert LastNormalisedPair(t, i - 1, k, v);
        }
      }
    }
  }

  lemma {:induction false} NoLaterKey(d: Dict<string>, k: string)
    requires Get(NormalisedPairs(d), k).None?
    ensures forall j :: 0 <= j < |d| ==> Normalise(d[j].0) != k
  {
    if d != [] {
      assert NormalisedPairs(d)[1..] == NormalisedPairs(d[1..]);
      NoLaterKey(d[1..], k);
      assert forall j :: 0 < j < |d| ==> d[j] == d[1..][j - 1];
    }
  }

  lemma {:induction false} NoLaterKeyConverse(d: Dict<string>, k: string)
    requires forall j :: 0 <= j < |d| ==> Normalise(d[j].0) != k
    ensures Get(NormalisedPairs(d), k).None?
  {
    if d != [] {
      assert NormalisedPairs(d)[1..] == NormalisedPairs(d[1..]);
      assert forall j :: 0 <= j < |d| - 1 ==> d[1..][j] == d[j + 1];
      NoLaterKeyConverse(d[1..], k);
    }
  }

  /** `_dict_as_list`: one `{Name, Value}` entry per pair, in order. */
  function DictAsList(d: Dict<string>): (r: seq<Dimension>)
    ensures |r| == |d|
  {
    seq(|d|, i requires 0 <= i < |d| => Dimension(d[i].0, d[i].1))
  }

  function Names(dims: seq<Dimension>): seq<string>
  {
    seq(|dims|, i requires 0 <= i < |dims| => dims[i].name)
  }

  /** The list of a dict with distinct keys names every key once, in the
      dict's order, and carries exactly its bindings. */
  lemma DictAsListEntries(d: Dict<string>)
    requires DistinctKeys(d)
    ensures Names(DictAsList(d)) == Keys(d)
    ensures forall i, j :: 0 <= i < j < |DictAsList(d)| ==> DictAsList(d)[i].name != DictAsList(d)[j].name
    ensures forall k, v :: Dimension(k, v) in DictAsList(d) <==> Get(d, k) == Some(v)
  {
    var r := DictAsList(d);
    forall k, v ensures Dimension(k, v) in r <==> Get(d, k) == Some(v) {
      PairIffGet(d, k, v);
      if Dimension(k, v) in r {
        var i :| 0 <= i < |r| && r[i] == Dimension(k, v);
        assert d[i] == (k, v);
      }
      if (k, v) in d {
        var i :| 0 <= i < |d| && d[i] == (k, v);
        assert r[i] == Dimension(k, v);
      }
    }
  }

  /** What `_get_dimensions_as_list(local)` returns for a client whose
      (already normalised) default dimensions are `defaults`. Python's
      `local or {}` treats `None` and the empty dict alike. */
  function DimensionsFor(defaults: Dict<string>, local: Option<Dict<string>>): seq<Dimension>
    requires DistinctKeys(defaults)
  {
    var overrides := if local.Some? then NormalisedDimensions(local.value) else [];
    DictAsList(Merge(defaults, overrides))
  }

  /** The merged dimension list: names are distinct; a name is there iff it
      is a default or a normalised call-time key; the call-time value wins on
      a collision; default names keep their places and new call-time names
      follow in call-time order. */
  lemma DimensionsForSpec(defaults: Dict<string>, local: Dict<string>)
    requires DistinctKeys(defaults)
    ensures var r := DimensionsFor(defaults, Some(local));
            var overrides := NormalisedDimensions(local);
            && (forall i, j :: 0 <= i < j < |r| ==> r[i].name != r[j].name)
            && (forall k :: k in Names(r) <==> k in Keys(defaults) || k in Keys(overrides))
            && (forall k, v :: Dimension(k, v) in r <==>
                  (Get(overrides, k) == Some(v) || (Get(overrides, k).None? && Get(defaults, k) == Some(v))))
            && Names(r) == Keys(defaults) + Appended(Keys(overrides), Keys(defaults))
  {
    var overrides := NormalisedDimensions(local);
    var merged := Merge(defaults, overrides);
    MergeKeys(defaults, overrides);
    MergeKeySet(defaults, overrides);
    DictAsListEntries(merged);
  }

  /** The call-time value of a dimension is the normalised value of the
      last call-time key that normalises to its name. */
  lemma NormalisedDimensionsGet(d: Dict<string>, k: string, v: string)
    ensures Get(NormalisedDimensions(d), k) == Some(v) <==> exists i :: LastNormalisedPair(d, i, k, v)
  {
    NormalisedPairsGet(d, k, v);
  }

  predicate AsciiPairs(d: Dict<string>)
  {
    forall p :: p in d ==> AllAscii(p.0) && AllAscii(p.1)
  }

  lemma {:induction false} NormalisedPairsAscii(d: Dict<string>)
    ensures AsciiPairs(NormalisedPairs(d))
  {
    if d != [] {
      NormaliseIsAscii(d[0].0);
      NormaliseIsAscii(d[0].1);
      NormalisedPairsAscii(d[1..]);
    }
  }

  /** `_normalise_dimensions` yields pure-ASCII keys and values. */
  lemma NormalisedDimensionsAscii(d: Dict<string>)
    ensures AsciiPairs(NormalisedDimensions(d))
  {
    NormalisedPairsAscii(d);
    MergeFrom([], NormalisedPairs(d));
  }

  /** Every pair `{**a, **b}` holds comes from `a` or from `b`. */
  lemma MergeFrom(a: Dict<string>, b: Dict<string>)
    requires DistinctKeys(a)
    ensures forall p :: p in Merge(a, b) ==> p in a || p in b
  {
    forall p | p in Merge(a, b) ensures p in a || p in b {
      PairIffGet(Merge(a, b), p.0, p.1);
      if Get(b, p.0).Some? {
        GetIn(b, p.0, p.1);
      } else {
        GetIn(a, p.0, p.1);
      }
    }
  }

  /** Every dimension name and value sent is pure ASCII, given ASCII
      defaults (which the client normalised at construction). */
  lemma DimensionsForAscii(defaults: Dict<string>, local: Option<Dict<string>>)
    requires DistinctKeys(defaults) && AsciiPairs(defaults)
    ensures forall dim :: dim in DimensionsFor(defaults, local) ==> AllAscii(dim.name) && AllAscii(dim.value)
  {
    var overrides := if local.Some? then NormalisedDimensions(local.value) else [];
    if local.Some? {
      NormalisedDimensionsAscii(local.value);
    }
    var merged := Merge(defaults, overrides);
    MergeFrom(defaults, overrides);
    forall dim | dim in DictAsList(merged) ensures AllAscii(dim.name) && AllAscii(dim.value) {
      var i :| 0 <= i < |DictAsList(merged)| && DictAsList(merged)[i] == dim;
      assert merged[i] in merged;
    }
  }

  /** A worked merge: defaults `{A: 1}` with call-time
      `{A: 2, B: 3}` give `[A=2, B=3]`. */
  lemma MergeExample()
    ensures DimensionsFor([("A", "1")], Some([("A", "2"), ("B", "3")])) ==
            [Dimension("A", "2"), Dimension("B", "3")]
  {
    assert Normalise("A") == "A" && Normalise("B") == "B";
    assert Normalise("2") == "2" && Normalise("3") == "3";
    var pairs := NormalisedPairs([("A", "2"), ("B", "3")]);
    assert pairs == [("A", "2"), ("B", "3")];
    var one: Dict<string> := [("B", "3")];
    assert pairs[1..] == one && one[1..] == [];
    assert Put([], "A", "2") == [("A", "2")];
    assert Put([("A", "2")], "B", "3") == [("A", "2"), ("B", "3")];
    assert Merge([("A", "2")], one) == [("A", "2"), ("B", "3")];
    assert Merge([], pairs) == pairs;
    assert Put([("A", "1")], "A", "2") == [("A", "2")];
    assert Merge([("A", "1")], pairs) == [("A", "2"), ("B", "3")];
  }

  /** `None` and the empty dict of call-time dimensions give the defaults. */
  lemma NoOverrides(defaults: Dict<string>)
    requires DistinctKeys(defaults)
    ensures DimensionsFor(defaults, None) == DimensionsFor(defaults, Some([])) == DictAsList(defaults)
  {
  }
}

/** Python dictionaries as association lists.

    A dict keeps its keys in insertion order; assigning to an existing key
    overwrites the value where it stands, assigning to a new key appends it.
    `Merge(a, b)` is the literal `{**a, **b}`. */
module Dicts {
  import opened Wrappers

  type Dict<V> = seq<(string, V)>

  function Keys<V>(d: Dict<V>): seq<string>
  {
    seq(|d|, i requires 0 <= i < |d| => d[i].0)
  }

  lemma KeysCons<V>(d: Dict<V>)
    requires d != []
    ensures Keys(d) == [d[0].0] + Keys(d[1..])
    ensures Keys(d)[0] == d[0].0 && Keys(d)[1..] == Keys(d[1..])
  {
  }

  /** A real Python dict never holds the same key twice. */
  predicate DistinctKeys<V>(d: Dict<V>)
  {
    forall i, j :: 0 <= i < j < |d| ==> d[i].0 != d[j].0
  }

  /** The value bound to `k`: the LAST pair with key `k` wins, as in
      `dict(pairs)`. On a dict with distinct keys that is its only pair. */
  function Get<V>(d: Dict<V>, k: string): Option<V>
  {
    if d == [] then None
    else
      var rest := Get(d[1..], k);
      if rest.Some? then rest
      else if d[0].0 == k then Some(d[0].1)
      else None
  }

  /** `d[k] = v` */
  function Put<V>(d: Dict<V>, k: string, v: V): (r: Dict<V>)
    requires DistinctKeys(d)
    ensures DistinctKeys(r)
    ensures Get(r, k) == Some(v)
    ensures forall k' :: k' != k ==> Get(r, k') == Get(d, k')
  {
    if d == [] then [(k, v)]
    else if d[0].0 == k then
      assert Keys(d) == [k] + Keys(d[1..]);
      GetAbsent(d[1..], k);
      [(k, v)] + d[1..]
    else
      var t := Put(d[1..], k, v);
      assert d[0].0 !in Keys(d[1..]);
      GetAbsent(d[1..], d[0].0);
      GetDefined(t, d[0].0);
      assert forall j :: 0 <= j < |t| ==> Keys(t)[j] == t[j].0;
      [d[0]] + t
  }

  /** `d[k] = v` on a new key appends the pair; on an existing key it
      changes no key. */
  lemma {:induction false} PutShape<V>(d: Dict<V>, k: string, v: V)
    requires DistinctKeys(d)
    ensures k !in Keys(d) ==> Put(d, k, v) == d + [(k, v)]
    ensures k in Keys(d) ==> |Put(d, k, v)| == |d| && forall i :: 0 <= i < |d| ==> Put(d, k, v)[i].0 == d[i].0
  {
    if d != [] {
      assert Keys(d) == [d[0].0] + Keys(d[1..]);
      if d[0].0 != k {
        PutShape(d[1..], k, v);
        var t := Put(d[1..], k, v);
        assert Put(d, k, v) == [d[0]] + t;
        if k in Keys(d) {
          assert forall i :: 1 <= i < |d| ==> Put(d, k, v)[i] == t[i - 1];
        }
      }
    }
  }

  /** `d[k] = v` keeps an existing key where it stands and appends a new one. */
  lemma PutKeys<V>(d: Dict<V>, k: string, v: V)
    requires DistinctKeys(d)
    ensures k in Keys(d) ==> Keys(Put(d, k, v)) == Keys(d)
    ensures k !in Keys(d) ==> Keys(Put(d, k, v)) == Keys(d) + [k]
  {
    PutShape(d, k, v);
    var r := Put(d, k, v);
    if k in Keys(d) {
      assert forall i :: 0 <= i < |d| ==> Keys(r)[i] == Keys(d)[i];
    } else {
      assert forall i :: 0 <= i <= |d| ==> Keys(r)[i] == (Keys(d) + [k])[i];
    }
  }

  /** `{**a, **b}`: a copy of `a`, then every pair of `b` assigned in turn. */
  function Merge<V>(a: Dict<V>, b: Dict<V>): (r: Dict<V>)
    requires DistinctKeys(a)
    ensures DistinctKeys(r)
    ensures forall k :: Get(r, k) == if Get(b, k).Some? then Get(b, k) else Get(a, k)
    decreases |b|
  {
    if b == [] then a
    else Merge(Put(a, b[0].0, b[0].1), b[1..])
  }

  /** A key neither `b` nor `c` has keeps its value from `a` in
      `{**a, **b, **c}`. */
  lemma MergeTwiceKeeps<V>(a: Dict<V>, b: Dict<V>, c: Dict<V>, k: string)
    requires DistinctKeys(a)
    requires k !in Keys(b) && k !in Keys(c)
    ensures Get(Merge(Merge(a, b), c), k) == Get(a, k)
  {
    GetAbsent(b, k);
    GetAbsent(c, k);
  }

  lemma GetAbsent<V>(d: Dict<V>, k: string)
    requires k !in Keys(d)
    ensures Get(d, k) == None
  {
    if d != [] {
      assert Keys(d) == [d[0].0] + Keys(d[1..]);
      GetAbsent(d[1..], k);
    }
  }

  /** A key has a value exactly when it is one of the dict's keys. */
  lemma {:induction false} GetDefined<V>(d: Dict<V>, k: string)
    ensures Get(d, k).Some? <==> k in Keys(d)
  {
    if d != [] {
      assert Keys(d) == [d[0].0] + Keys(d[1..]);
      GetDefined(d[1..], k);
    }
  }

  /** Pair `i` is the last one with its key, so it gives the key's value. */
  lemma {:induction false} GetAt<V>(d: Dict<V>, i: nat)
    requires i < |d|
    requires forall j :: i < j < |d| ==> d[j].0 != d[i].0
    ensures Get(d, d[i].0) == Some(d[i].1)
  {
    var k := d[i].0;
    if i == 0 {
      assert Keys(d[1..]) == Keys(d)[1..];
      assert forall j :: 0 <= j < |d| - 1 ==> Keys(d[1..])[j] == d[j + 1].0;
      GetAbsent(d[1..], k);
    } else {
      assert forall j :: i - 1 < j < |d| - 1 ==> d[1..][j] == d[j + 1];
      GetAt(d[1..], i - 1);
    }
  }

  /** A bound value comes from a pair of the dict. */
  lemma {:induction false} GetIn<V>(d: Dict<V>, k: string, v: V)
    requires Get(d, k) == Some(v)
    ensures (k, v) in d
  {
    if Get(d[1..], k).Some? {
      GetIn(d[1..], k, v);
    }
  }

  /** The pairs of a distinct-key dict are exactly its key/value bindings. */
  lemma {:induction false} PairIffGet<V>(d: Dict<V>, k: string, v: V)
    requires DistinctKeys(d)
    ensures (k, v) in d <==> Get(d, k) == Some(v)
  {
    if d != [] {
      PairIffGet(d[1..], k, v);
      if d[0].0 == k {
        assert Keys(d[1..]) == Keys(d)[1..];
        GetAbsent(d[1..], k);
      }
    }
  }

  /** The keys `ks` appends to a dict whose keys are `seen`, in order:
      each key not seen before, at its first occurrence. */
  function Appended(ks: seq<string>, seen: seq<string>): seq<string>
  {
    if ks == [] then []
    else if ks[0] in seen then Appended(ks[1..], seen)
    else [ks[0]] + Appended(ks[1..], seen + [ks[0]])
  }

  /** The appended keys are the keys of `ks` missing from `seen`. */
  lemma {:induction false} AppendedMember(ks: seq<string>, seen: seq<string>, k: string)
    ensures k in Appended(ks, seen) <==> k !in seen && k in ks
  {
    if ks != [] {
      assert ks == [ks[0]] + ks[1..];
      if ks[0] in seen {
        AppendedMember(ks[1..], seen, k);
      } else {
        AppendedMember(ks[1..], seen + [ks[0]], k);
      }
    }
  }

  /** `{**a, **b}` keeps `a`'s keys where they stand, then appends the keys
      of `b` that `a` lacks, in `b`'s order. */
  lemma {:induction false} MergeKeys<V>(a: Dict<V>, b: Dict<V>)
    requires DistinctKeys(a)
    ensures Keys(Merge(a, b)) == Keys(a) + Appended(Keys(b), Keys(a))
    decreases |b|
  {
    if b != [] {
      var a' := Put(a, b[0].0, b[0].1);
      MergeKeys(a', b[1..]);
      assert Keys(Merge(a, b)) == Keys(a') + Appended(Keys(b[1..]), Keys(a'));
      PutKeys(a, b[0].0, b[0].1);
      KeysCons(b);
      AppendedStep(Keys(a), Keys(b), Keys(a'));
    }
  }

  /** One key of `b` assigned: the keys seen so far become `seen'`. */
  lemma AppendedStep(seen: seq<string>, ks: seq<string>, seen': seq<string>)
    requires ks != []
    requires ks[0] in seen ==> seen' == seen
    requires ks[0] !in seen ==> seen' == seen + [ks[0]]
    ensures seen + Appended(ks, seen) == seen' + Appended(ks[1..], seen')
  {
    if ks[0] !in seen {
      assert seen + ([ks[0]] + Appended(ks[1..], seen')) == seen' + Appended(ks[1..], seen');
    }
  }

  /** The keys of `{**a, **b}` are those of `a` and `b` together. */
  lemma MergeKeySet<V>(a: Dict<V>, b: Dict<V>)
    requires DistinctKeys(a)
    ensures forall k :: k in Keys(Merge(a, b)) <==> k in Keys(a) || k in Keys(b)
  {
    MergeKeys(a, b);
    forall k {
      AppendedMember(Keys(b), Keys(a), k);
    }
  }

  /** Assigning the pairs of `b + [p]` one by one ends with `p`. */
  lemma {:induction false} MergeSnoc<V>(a: Dict<V>, b: Dict<V>, p: (string, V))
    requires DistinctKeys(a)
    ensures Merge(a, b + [p]) == Put(Merge(a, b), p.0, p.1)
    decreases |b|
  {
    if b == [] {
      assert [p][1..] == [];
    } else {
      assert (b + [p])[1..] == b[1..] + [p];
      MergeSnoc(Put(a, b[0].0, b[0].1), b[1..], p);
    }
  }
}

/** Python dicts with string keys, as lists of pairs in insertion order: a new
    key goes to the end, and assigning to an existing key replaces its value
    where it stands. */
module Dicts {
  import opened Results

  type Dict<V> = seq<(string, V)>

  function Keys<V>(d: Dict<V>): (ks: seq<string>)
    ensures |ks| == |d| && forall i :: 0 <= i < |d| ==> ks[i] == d[i].0
  {
    if d == [] then [] else [d[0].0] + Keys(d[1..])
  }

  predicate DistinctKeys<V>(d: Dict<V>) {
    forall i, j :: 0 <= i < j < |d| ==> d[i].0 != d[j].0
  }

  /** `d.get(key)` */
  function Get<V>(d: Dict<V>, key: string): (r: Option<V>)
    ensures r.None? <==> key !in Keys(d)
  {
    if d == [] then None
    else if d[0].0 == key then Some(d[0].1)
    else Get(d[1..], key)
  }

  /** `d[key] = value` */
  function Put<V>(d: Dict<V>, key: string, value: V): (r: Dict<V>)
    ensures Keys(r) == if key in Keys(d) then Keys(d) else Keys(d) + [key]
  {
    if d == [] then [(key, value)]
    else if d[0].0 == key then [(key, value)] + d[1..]
    else [d[0]] + Put(d[1..], key, value)
  }

  /** After `d[key] = value`, `key` maps to `value` and every other key is
      untouched. */
  lemma {:induction false} GetPut<V>(d: Dict<V>, key: string, value: V, k: string)
    ensures Get(Put(d, key, value), k) == if k == key then Some(value) else Get(d, k)
  {
    if d != [] && d[0].0 != key {
      GetPut(d[1..], key, value, k);
      assert Put(d, key, value)[1..] == Put(d[1..], key, value);
    }
  }

  lemma DistinctKeysPut<V>(d: Dict<V>, key: string, value: V)
    requires DistinctKeys(d)
    ensures DistinctKeys(Put(d, key, value))
  {
    var r := Put(d, key, value);
    assert forall i :: 0 <= i < |r| ==> r[i].0 == Keys(r)[i];
    assert forall i :: 0 <= i < |d| ==> d[i].0 == Keys(d)[i];
  }

  /** The last key of a dict with distinct keys is not among the others. */
  lemma DistinctKeysLast<V>(d: Dict<V>)
    requires |d| >= 1 && DistinctKeys(d)
    ensures d[|d| - 1].0 !in Keys(d[..|d| - 1]) && DistinctKeys(d[..|d| - 1])
  {
    var init := d[..|d| - 1];
    assert forall i :: 0 <= i < |init| ==> Keys(init)[i] == d[i].0;
  }

  /** A key not yet present is appended. */
  lemma {:induction false} PutNew<V>(d: Dict<V>, key: string, value: V)
    requires key !in Keys(d)
    ensures Put(d, key, value) == d + [(key, value)]
  {
    if d != [] {
      assert Keys(d)[0] == d[0].0 && d[0].0 != key;
      assert key !in Keys(d[1..]) by {
        assert Keys(d) == [d[0].0] + Keys(d[1..]);
      }
      PutNew(d[1..], key, value);
      assert Put(d, key, value) == [d[0]] + Put(d[1..], key, value);
      assert [d[0]] + (d[1..] + [(key, value)]) == d + [(key, value)];
    }
  }

  /** Reassigning the key that was added last replaces the last entry. */
  lemma {:induction false} PutLast<V>(d: Dict<V>, key: string, old_: V, value: V)
    requires key !in Keys(d)
    ensures Put(d + [(key, old_)], key, value) == d + [(key, value)]
  {
    if d != [] {
      assert Keys(d) == [d[0].0] + Keys(d[1..]);
      assert d[0].0 != key;
      var e := d + [(key, old_)];
      assert e[0] == d[0] && e[1..] == d[1..] + [(key, old_)];
      assert Put(e, key, value) == [d[0]] + Put(e[1..], key, value);
      PutLast(d[1..], key, old_, value);
      assert [d[0]] + (d[1..] + [(key, value)]) == d + [(key, value)];
    } else {
      assert [(key, old_)][1..] == [];
    }
  }

  /** The key added last maps to its value. */
  lemma GetLast<V>(d: Dict<V>, key: string, value: V)
    requires key !in Keys(d)
    ensures Get(d + [(key, value)], key) == Some(value)
  {
    PutNew(d, key, value);
    GetPut(d, key, value, key);
  }

  /** The distinct keys of a list of pairs, each at its first occurrence: the
      key order of a dict filled from those pairs. */
  function FirstKeys<V>(ps: seq<(string, V)>): (ks: seq<string>)
  {
    if ps == [] then []
    else
      var ks := FirstKeys(ps[..|ps| - 1]);
      var k := ps[|ps| - 1].0;
      if k in ks then ks else ks + [k]
  }

  /** The values paired with `key`, in order. */
  function ValuesOf<V>(ps: seq<(string, V)>, key: string): (vs: seq<V>)
    ensures |vs| <= |ps|
  {
    if ps == [] then []
    else
      var vs := ValuesOf(ps[..|ps| - 1], key);
      if ps[|ps| - 1].0 == key then vs + [ps[|ps| - 1].1] else vs
  }

  /** Decodes every part, or fails on the first part that does not decode. */
  function DecodeEach<T>(parts: seq<string>, decode: string -> Option<T>): (r: Option<seq<T>>)
    ensures r.Some? ==> |r.value| == |parts| && forall i :: 0 <= i < |parts| ==> decode(parts[i]) == Some(r.value[i])
    ensures r.None? ==> exists i :: 0 <= i < |parts| && decode(parts[i]).None?
  {
    if parts == [] then Some([])
    else
      match DecodeEach(parts[..|parts| - 1], decode)
      case None => None
      case Some(init) =>
        match decode(parts[|parts| - 1])
        case None => None
        case Some(x) => Some(init + [x])
  }

  /** When every part decodes, the decoded list is the parts' decodings in order. */
  lemma {:induction false} DecodeEachAll<T>(parts: seq<string>, decode: string -> Option<T>, xs: seq<T>)
    requires |parts| == |xs|
    requires forall i :: 0 <= i < |parts| ==> decode(parts[i]) == Some(xs[i])
    ensures DecodeEach(parts, decode) == Some(xs)
  {
    if parts != [] {
      var n := |parts|;
      DecodeEachAll(parts[..n - 1], decode, xs[..n - 1]);
      assert xs[..n - 1] + [xs[n - 1]] == xs;
    }
  }

  /** A failure on a prefix is a failure on the whole list. */
  lemma DecodeEachPrefixFails<T>(parts: seq<string>, n: nat, decode: string -> Option<T>)
    requires n <= |parts| && DecodeEach(parts[..n], decode).None?
    ensures DecodeEach(parts, decode).None?
  {
    var i :| 0 <= i < n && decode(parts[..n][i]).None?;
    assert parts[..n][i] == parts[i];
  }

  /** Decoding one more part extends the decoded prefix, or fails. */
  lemma DecodeEachStep<T>(parts: seq<string>, i: nat, decode: string -> Option<T>, xs: seq<T>)
    requires i < |parts| && DecodeEach(parts[..i], decode) == Some(xs)
    ensures DecodeEach(parts[..i + 1], decode) == if decode(parts[i]).None? then None else Some(xs + [decode(parts[i]).value])
  {
    assert parts[..i + 1][..i] == parts[..i];
  }
}

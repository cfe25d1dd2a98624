/** The GTF 2.2 attribute column of `biofiles/gtf.py`: `key "value"; ...`
    pairs.  Decoding trims, splits on ";", cuts each part at its first
    whitespace run, removes one layer of quotes and unescapes `\"`; a key seen
    again turns its value into the ordered list of all its values.  Encoding
    quotes each value with every `"` escaped. */
module GtfAttributes {
  import opened Results
  import opened Text
  import opened Dicts
  import opened Features

  /** `s.replace('"', '\\"')` */
  function EscapeQuotes(s: string): (r: string)
    ensures r == [] || r[0] != '"'
    ensures ';' !in s ==> ';' !in r
  {
    if s == [] then []
    else (if s[0] == '"' then "\\\"" else [s[0]]) + EscapeQuotes(s[1..])
  }

  /** `s.replace('\\"', '"')`, matching left to right without overlap. */
  function UnescapeQuotes(s: string): string {
    if |s| >= 2 && s[0] == '\\' && s[1] == '"' then "\"" + UnescapeQuotes(s[2..])
    else if s == [] then []
    else [s[0]] + UnescapeQuotes(s[1..])
  }

  /** Unescaping undoes escaping for every string. */
  lemma {:induction false} UnescapeEscape(s: string)
    ensures UnescapeQuotes(EscapeQuotes(s)) == s
  {
    if s != [] {
      var rest := EscapeQuotes(s[1..]);
      UnescapeEscape(s[1..]);
      if s[0] == '"' {
        assert EscapeQuotes(s) == "\\\"" + rest;
        assert (EscapeQuotes(s))[2..] == rest;
      } else {
        assert EscapeQuotes(s) == [s[0]] + rest;
        assert (EscapeQuotes(s))[1..] == rest;
      }
      assert [s[0]] + s[1..] == s;
    }
  }

  /** The value as the writer prints it: in double quotes, `"` escaped. */
  function Quote(v: string): (q: string)
    ensures |q| >= 2 && q[0] == '"' && q[|q| - 1] == '"'
    ensures ';' !in v ==> ';' !in q
  {
    "\"" + EscapeQuotes(v) + "\""
  }

  /** The reader's treatment of a raw value: at most one leading and one
      trailing `"` removed, then `\"` unescaped; an unquoted value is kept. */
  function Unquote(v: string): string {
    UnescapeQuotes(RemoveSuffix(RemovePrefix(v, "\""), "\""))
  }

  lemma QuoteRoundTrip(v: string)
    ensures Unquote(Quote(v)) == v
  {
    var e := EscapeQuotes(v);
    assert RemovePrefix(Quote(v), "\"") == e + "\"";
    assert RemoveSuffix(e + "\"", "\"") == e;
    UnescapeEscape(v);
  }

  /** `k, v = part.strip().split(None, 1)` followed by unquoting `v`; `None`
      where the unpacking raises (an empty part or a key without value). */
  function DecodePart(part: string): Option<(string, string)> {
    var pieces := SplitWhitespaceOnce(Strip(part, Space));
    if |pieces| == 2 then Some((pieces[0], Unquote(pieces[1]))) else None
  }

  /** The parts of the column: `s.strip().strip(";").split(";")`. */
  function Parts(s: string): seq<string> {
    Split(Strip(Strip(s, Space), Among({';'})), ';')
  }

  /** A value seen once more: a string becomes a two-element list, a list grows. */
  function Extend(x: AttrValue, v: string): (r: AttrValue)
    ensures r.Multi?
  {
    match x
    case Single(t) => Multi([t, v])
    case Multi(ts) => Multi(ts + [v])
  }

  /** One step of the loop at gtf.py:25-30. */
  function AddValue(acc: Attributes, k: string, v: string): Attributes {
    match Get(acc, k)
    case Some(x) => Put(acc, k, Extend(x, v))
    case None => Put(acc, k, Single(v))
  }

  /** The dict the loop builds from the decoded pairs, in order. */
  function Grouped(ps: seq<(string, string)>): Attributes {
    if ps == [] then []
    else AddValue(Grouped(ps[..|ps| - 1]), ps[|ps| - 1].0, ps[|ps| - 1].1)
  }

  /** What one key ends up holding: its only value, or the list of all of them. */
  function Collapse(vs: seq<string>): AttrValue
    requires |vs| >= 1
  {
    if |vs| == 1 then Single(vs[0]) else Multi(vs)
  }

  /** Keys keep the position of their first occurrence. */
  lemma {:induction false} GroupedKeys(ps: seq<(string, string)>)
    ensures Keys(Grouped(ps)) == FirstKeys(ps)
  {
    if ps != [] {
      GroupedKeys(ps[..|ps| - 1]);
    }
  }

  lemma {:induction false} GroupedDistinct(ps: seq<(string, string)>)
    ensures DistinctKeys(Grouped(ps))
  {
    if ps != [] {
      var init := ps[..|ps| - 1];
      var (k, v) := ps[|ps| - 1];
      var g := Grouped(init);
      GroupedDistinct(init);
      DistinctKeysPut(g, k, if Get(g, k).Some? then Extend(Get(g, k).value, v) else Single(v));
    }
  }

  /** What the pairs give `key`: nothing, its only value, or the list of all
      its values in order. */
  function Gathered(ps: seq<(string, string)>, key: string): Option<AttrValue> {
    var vs := ValuesOf(ps, key);
    if vs == [] then None else Some(Collapse(vs))
  }

  /** A key holds what the pairs give it. */
  lemma {:induction false} GroupedGet(ps: seq<(string, string)>, key: string)
    ensures Get(Grouped(ps), key) == Gathered(ps, key)
  {
    if ps != [] {
      var init := ps[..|ps| - 1];
      var (k, v) := ps[|ps| - 1];
      assert ps == init + [(k, v)];
      GroupedGet(init, key);
      GroupedGet(init, k);
      GroupedGetStep(init, k, v, key);
    }
  }

  lemma GroupedGetStep(init: seq<(string, string)>, k: string, v: string, key: string)
    requires Get(Grouped(init), key) == Gathered(init, key)
    requires Get(Grouped(init), k) == Gathered(init, k)
    ensures Get(Grouped(init + [(k, v)]), key) == Gathered(init + [(k, v)], key)
  {
    var ps := init + [(k, v)];
    assert ps[..|ps| - 1] == init && ps[|ps| - 1] == (k, v);
    assert Grouped(ps) == AddValue(Grouped(init), k, v);
    AddValueGet(Grouped(init), k, v, key);
    if key == k {
      GatheredSame(init, k, v);
    } else {
      assert ValuesOf(ps, key) == ValuesOf(init, key);
    }
  }

  /** What one step of the loop does to the value of any key. */
  lemma AddValueGet(acc: Attributes, k: string, v: string, key: string)
    ensures Get(AddValue(acc, k, v), key) ==
      if key != k then Get(acc, key)
      else if Get(acc, k).Some? then Some(Extend(Get(acc, k).value, v))
      else Some(Single(v))
  {
    var x := if Get(acc, k).Some? then Extend(Get(acc, k).value, v) else Single(v);
    assert AddValue(acc, k, v) == Put(acc, k, x);
    GetPut(acc, k, x, key);
  }

  /** One more pair for `k` extends what the pairs give `k`. */
  lemma GatheredSame(init: seq<(string, string)>, k: string, v: string)
    ensures Gathered(init + [(k, v)], k) ==
      if Gathered(init, k).Some? then Some(Extend(Gathered(init, k).value, v)) else Some(Single(v))
  {
    var ps := init + [(k, v)];
    assert ps[..|ps| - 1] == init && ps[|ps| - 1] == (k, v);
    var vs := ValuesOf(init, k);
    assert ValuesOf(ps, k) == vs + [v];
    if vs != [] {
      assert Extend(Collapse(vs), v) == Collapse(vs + [v]);
    }
  }

  /** The dict built from the pairs: keys in order of first occurrence, each
      holding its only value or the list of all its values. */
  lemma GroupedSpec(ps: seq<(string, string)>)
    ensures Keys(Grouped(ps)) == FirstKeys(ps)
    ensures DistinctKeys(Grouped(ps))
    ensures forall k :: Get(Grouped(ps), k) == Gathered(ps, k)
  {
    GroupedKeys(ps);
    GroupedDistinct(ps);
    forall k ensures Get(Grouped(ps), k) == Gathered(ps, k) {
      GroupedGet(ps, k);
    }
  }

  lemma GroupedAppend(ps: seq<(string, string)>, k: string, v: string)
    ensures Grouped(ps + [(k, v)]) == AddValue(Grouped(ps), k, v)
  {
    assert (ps + [(k, v)])[..|ps|] == ps;
  }

  /** `_parse_attributes` of the GTF reader as a value: the dict, or the whole
      attribute text when some part is malformed. */
  function Decode(s: string): (r: Result<Attributes, string>)
    ensures r.Ok? ==> DistinctKeys(r.value)
    ensures r.Err? ==> r.error == s
  {
    match DecodeEach(Parts(s), DecodePart)
    case None => Err(s)
    case Some(ps) => GroupedDistinct(ps); Ok(Grouped(ps))
  }

  /** The column is rejected exactly when one of its parts does not split into
      a key and a value. */
  lemma DecodeFails(s: string)
    ensures Decode(s).Err? <==> exists i :: 0 <= i < |Parts(s)| && DecodePart(Parts(s)[i]).None?
  {
  }

  /** gtf.py:17-35, the loop that fills the result dict in place. */
  method ParseAttributes(s: string) returns (r: Result<Attributes, string>)
    ensures r == Decode(s)
  {
    var parts := Parts(s);
    var result: Attributes := [];
    ghost var pairs: seq<(string, string)> := [];
    var i := 0;
    while i < |parts|
      invariant 0 <= i <= |parts|
      invariant DecodeEach(parts[..i], DecodePart) == Some(pairs)
      invariant result == Grouped(pairs)
    {
      DecodeEachStep(parts, i, DecodePart, pairs);
      var pieces := SplitWhitespaceOnce(Strip(parts[i], Space));
      assert DecodePart(parts[i]) == if |pieces| == 2 then Some((pieces[0], Unquote(pieces[1]))) else None;
      if |pieces| != 2 {
        DecodeEachPrefixFails(parts, i + 1, DecodePart);
        assert DecodeEach(parts, DecodePart).None?;
        return Err(s);
      }
      var k := pieces[0];
      var v := Unquote(pieces[1]);
      var existing := Get(result, k);
      ghost var before := result;
      if existing.Some? {
        result := Put(result, k, Extend(existing.value, v));
      } else {
        result := Put(result, k, Single(v));
      }
      assert result == AddValue(before, k, v);
      GroupedAppend(pairs, k, v);
      pairs := pairs + [(k, v)];
      i := i + 1;
    }
    assert parts[..i] == parts;
    assert DecodeEach(parts, DecodePart) == Some(pairs);
    r := Ok(result);
  }

  /** The text of one key/value pair: `f'{k} "' + escaped value + '"'`. */
  function RenderPair(k: string, v: string): string {
    k + " " + Quote(v)
  }

  /** The key/value pairs a dict expands to, a list giving one pair per value. */
  function ExpandedPairs(attrs: Attributes): (ps: seq<(string, string)>)
  {
    if attrs == [] then []
    else
      var (k, x) := attrs[|attrs| - 1];
      ExpandedPairs(attrs[..|attrs| - 1]) + ValuePairs(k, x)
  }

  function ValuePairs(k: string, x: AttrValue): (ps: seq<(string, string)>)
    ensures forall i :: 0 <= i < |ps| ==> ps[i].0 == k
  {
    match x
    case Single(v) => [(k, v)]
    case Multi(vs) => KeyedPairs(k, vs)
  }

  /** `k` paired with each of `vs`, in order. */
  function KeyedPairs(k: string, vs: seq<string>): (ps: seq<(string, string)>)
    ensures |ps| == |vs| && forall i :: 0 <= i < |vs| ==> ps[i] == (k, vs[i])
  {
    if vs == [] then [] else KeyedPairs(k, vs[..|vs| - 1]) + [(k, vs[|vs| - 1])]
  }

  function Rendered(ps: seq<(string, string)>): (r: seq<string>)
    ensures |r| == |ps| && forall i :: 0 <= i < |ps| ==> r[i] == RenderPair(ps[i].0, ps[i].1)
  {
    seq(|ps|, i requires 0 <= i < |ps| => RenderPair(ps[i].0, ps[i].1))
  }

  /** The attribute column the GTF writer prints, each value of a list
      written as a pair of its own (the corrected writer, see `EncodeAsWritten`). */
  function Encode(attrs: Attributes): string {
    Join(Rendered(ExpandedPairs(attrs)), "; ")
  }

  /** gtf.py:49-52 as written: `v.replace` on a list value raises
      `AttributeError`, reported here with the first such key. */
  function EncodeAsWritten(attrs: Attributes): (r: Result<string, string>)
    ensures r.Ok? <==> forall i :: 0 <= i < |attrs| ==> attrs[i].1.Single?
    ensures r.Ok? ==> r.value == Encode(attrs)
  {
    if forall i :: 0 <= i < |attrs| ==> attrs[i].1.Single? then Ok(Encode(attrs))
    else Err(attrs[FirstList(attrs)].0)
  }

  function FirstList(attrs: Attributes): (i: nat)
    requires exists i :: 0 <= i < |attrs| && attrs[i].1.Multi?
    ensures i < |attrs| && attrs[i].1.Multi?
  {
    if attrs[0].1.Multi? then 0 else 1 + FirstList(attrs[1..])
  }

  /** Keys and values the encoding can carry through a decode unchanged. */
  predicate Encodable(attrs: Attributes) {
    && |attrs| >= 1
    && DistinctKeys(attrs)
    && (forall i :: 0 <= i < |attrs| ==> PlainKey(attrs[i].0) && EncodableValue(attrs[i].1))
  }

  predicate PlainKey(k: string) {
    k != "" && ';' !in k && forall j :: 0 <= j < |k| ==> !IsSpace(k[j])
  }

  predicate EncodableValue(x: AttrValue) {
    match x
    case Single(v) => ';' !in v
    case Multi(vs) => |vs| >= 2 && forall j :: 0 <= j < |vs| ==> ';' !in vs[j]
  }

  predicate PlainPair(p: (string, string)) {
    PlainKey(p.0) && ';' !in p.1
  }

  lemma {:induction false} ExpandedPairsPlain(attrs: Attributes)
    requires forall i :: 0 <= i < |attrs| ==> PlainKey(attrs[i].0) && EncodableValue(attrs[i].1)
    ensures forall i :: 0 <= i < |ExpandedPairs(attrs)| ==> PlainPair(ExpandedPairs(attrs)[i])
    ensures |attrs| >= 1 ==> |ExpandedPairs(attrs)| >= 1
  {
    if attrs != [] {
      var init := attrs[..|attrs| - 1];
      var (k, x) := attrs[|attrs| - 1];
      ExpandedPairsPlain(init);
      var vp := ValuePairs(k, x);
      assert forall j :: 0 <= j < |vp| ==> PlainPair(vp[j]) by {
        match x
        case Single(v) =>
        case Multi(vs) =>
      }
      assert |vp| >= 1;
    }
  }

  /** Trimming a rendered pair, with or without the space the writer's "; "
      leaves in front of it, gives back the rendered pair. */
  lemma StripRendered(pre: string, k: string, v: string)
    requires pre == "" || pre == " "
    requires PlainKey(k)
    ensures Strip(pre + RenderPair(k, v), Space) == RenderPair(k, v)
  {
    var q := Quote(v);
    var body := RenderPair(k, v);
    assert body[0] == k[0] && body[|body| - 1] == q[|q| - 1] == '"';
    StripLeading(pre, body);
  }

  /** A trimmed rendered pair splits into its key and its quoted value. */
  lemma SplitRendered(pre: string, k: string, v: string)
    requires pre == "" || pre == " "
    requires PlainKey(k)
    ensures SplitWhitespaceOnce(Strip(pre + RenderPair(k, v), Space)) == [k, Quote(v)]
  {
    var q := Quote(v);
    var body := k + " " + q;
    assert Strip(pre + RenderPair(k, v), Space) == body by {
      StripRendered(pre, k, v);
    }
    assert SplitWhitespaceOnce(body) == [k, q] by {
      assert q[0] == '"';
      TokenSpaceRest(k, q);
    }
  }

  /** One rendered pair, with or without that space, decodes back to the pair. */
  lemma DecodeRendered(pre: string, k: string, v: string)
    requires pre == "" || pre == " "
    requires PlainKey(k)
    ensures DecodePart(pre + RenderPair(k, v)) == Some((k, v))
  {
    SplitRendered(pre, k, v);
    QuoteRoundTrip(v);
  }

  /** The pairs of a dict whose lists hold two or more values group back into
      that dict. */
  lemma {:induction false} GroupedExpanded(attrs: Attributes)
    requires DistinctKeys(attrs)
    requires forall i :: 0 <= i < |attrs| ==> attrs[i].1.Multi? ==> |attrs[i].1.texts| >= 2
    ensures Grouped(ExpandedPairs(attrs)) == attrs
  {
    if attrs != [] {
      var init := attrs[..|attrs| - 1];
      var (k, x) := attrs[|attrs| - 1];
      assert attrs == init + [(k, x)];
      DistinctKeysLast(attrs);
      assert forall i :: 0 <= i < |init| ==> init[i] == attrs[i];
      GroupedExpanded(init);
      GroupedExpandedLast(attrs, init, k, x);
    }
  }

  lemma GroupedExpandedLast(attrs: Attributes, init: Attributes, k: string, x: AttrValue)
    requires attrs == init + [(k, x)]
    requires Grouped(ExpandedPairs(init)) == init && k !in Keys(init)
    requires x.Multi? ==> |x.texts| >= 2
    ensures Grouped(ExpandedPairs(attrs)) == attrs
  {
    assert attrs[..|attrs| - 1] == init;
    assert ExpandedPairs(attrs) == ExpandedPairs(init) + ValuePairs(k, x);
    GroupedValue(ExpandedPairs(init), init, k, x);
  }

  /** Grouping the pairs of one value appends that value under a new key. */
  lemma GroupedValue(base: seq<(string, string)>, d: Attributes, k: string, x: AttrValue)
    requires Grouped(base) == d && k !in Keys(d)
    requires x.Multi? ==> |x.texts| >= 2
    ensures Grouped(base + ValuePairs(k, x)) == d + [(k, x)]
  {
    match x
    case Single(v) =>
      assert (base + [(k, v)])[..|base|] == base;
      PutNew(d, k, Single(v));
    case Multi(vs) =>
      GroupedMulti(base, d, k, vs);
  }

  /** Grouping the pairs of one list value, one value at a time. */
  lemma {:induction false} GroupedMulti(base: seq<(string, string)>, d: Attributes, k: string, vs: seq<string>)
    requires Grouped(base) == d && k !in Keys(d)
    requires |vs| >= 1
    ensures Grouped(base + KeyedPairs(k, vs)) == d + [(k, Collapse(vs))]
  {
    var init := vs[..|vs| - 1];
    var v := vs[|vs| - 1];
    assert init + [v] == vs;
    if |vs| == 1 {
      GroupedMultiFirst(base, d, k, v);
    } else {
      GroupedMulti(base, d, k, init);
      GroupedMultiStep(base, d, k, init, v);
    }
  }

  lemma GroupedMultiFirst(base: seq<(string, string)>, d: Attributes, k: string, v: string)
    requires Grouped(base) == d && k !in Keys(d)
    ensures Grouped(base + KeyedPairs(k, [v])) == d + [(k, Collapse([v]))]
  {
    assert KeyedPairs(k, [v]) == [(k, v)];
    GroupedAppend(base, k, v);
    PutNew(d, k, Single(v));
  }

  lemma KeyedPairsSnoc(k: string, init: seq<string>, v: string)
    ensures KeyedPairs(k, init + [v]) == KeyedPairs(k, init) + [(k, v)]
  {
    assert (init + [v])[..|init|] == init;
  }

  lemma GroupedMultiStep(base: seq<(string, string)>, d: Attributes, k: string, init: seq<string>, v: string)
    requires |init| >= 1 && k !in Keys(d)
    requires Grouped(base + KeyedPairs(k, init)) == d + [(k, Collapse(init))]
    ensures Grouped(base + KeyedPairs(k, init + [v])) == d + [(k, Collapse(init + [v]))]
  {
    var vs := init + [v];
    var c := Collapse(init);
    var before := base + KeyedPairs(k, init);
    assert base + KeyedPairs(k, vs) == before + [(k, v)] by {
      KeyedPairsSnoc(k, init, v);
    }
    assert Grouped(before + [(k, v)]) == AddValue(d + [(k, c)], k, v) by {
      GroupedAppend(before, k, v);
    }
    assert AddValue(d + [(k, c)], k, v) == Put(d + [(k, c)], k, Extend(c, v)) by {
      GetLast(d, k, c);
    }
    PutLast(d, k, c, Extend(c, v));
    assert Extend(c, v) == Collapse(vs) by {
      if |init| == 1 {
        assert [init[0], v] == vs;
      }
    }
  }

  /** The parts the reader sees in the writer's text: the rendered pairs, all
      but the first with the space of "; " in front. */
  function Spaced(items: seq<string>): (r: seq<string>)
    requires |items| >= 1
    ensures |r| == |items| && r[0] == items[0]
    ensures forall i :: 1 <= i < |items| ==> r[i] == " " + items[i]
  {
    [items[0]] + Prefixed(items[1..], " ")
  }

  /** The written column has no whitespace or ";" to trim at either end. */
  lemma RenderedEnds(ps: seq<(string, string)>)
    requires |ps| >= 1 && forall i :: 0 <= i < |ps| ==> PlainPair(ps[i])
    ensures var s := Join(Rendered(ps), "; ");
      s != [] && !IsSpace(s[0]) && s[0] != ';' && s[|s| - 1] == '"'
  {
    var items := Rendered(ps);
    var last := Quote(ps[|ps| - 1].1);
    assert items[|items| - 1] == ps[|ps| - 1].0 + " " + last;
    assert items[0][0] == ps[0].0[0];
    JoinEnds(items, "; ");
  }

  lemma SpacedPlain(ps: seq<(string, string)>)
    requires |ps| >= 1 && forall i :: 0 <= i < |ps| ==> PlainPair(ps[i])
    ensures forall i :: 0 <= i < |ps| ==> ';' !in Spaced(Rendered(ps))[i]
  {
    var items := Rendered(ps);
    var spaced := Spaced(items);
    forall i | 0 <= i < |ps| ensures ';' !in spaced[i] {
      var pre := if i == 0 then "" else " ";
      var (k, v) := ps[i];
      assert PlainPair((k, v));
      var q := Quote(v);
      assert ';' !in k + " " + q;
      assert spaced[i] == pre + (k + " " + q);
    }
  }

  /** Splitting the written column gives back the rendered pairs. */
  lemma PartsOfRendered(ps: seq<(string, string)>)
    requires |ps| >= 1 && forall i :: 0 <= i < |ps| ==> PlainPair(ps[i])
    ensures Parts(Join(Rendered(ps), "; ")) == Spaced(Rendered(ps))
  {
    var items := Rendered(ps);
    var s := Join(items, "; ");
    RenderedEnds(ps);
    StripUntouched(s, Space);
    StripUntouched(s, Among({';'}));
    JoinSpacedAll(items, ';');
    SpacedPlain(ps);
    SplitJoin(Spaced(items), ';');
  }

  /** Every part of the written column decodes to its pair. */
  lemma DecodeSpaced(ps: seq<(string, string)>)
    requires |ps| >= 1 && forall i :: 0 <= i < |ps| ==> PlainPair(ps[i])
    ensures DecodeEach(Spaced(Rendered(ps)), DecodePart) == Some(ps)
  {
    var items := Rendered(ps);
    var spaced := Spaced(items);
    forall i | 0 <= i < |ps| ensures DecodePart(spaced[i]) == Some(ps[i]) {
      var pre := if i == 0 then "" else " ";
      assert spaced[i] == pre + RenderPair(ps[i].0, ps[i].1) by {
        assert items[i] == RenderPair(ps[i].0, ps[i].1);
      }
      assert PlainKey(ps[i].0);
      DecodeRendered(pre, ps[i].0, ps[i].1);
    }
    DecodeEachAll(spaced, DecodePart, ps);
  }

  /** The written pairs decode back to the same pairs, in order. */
  lemma DecodeRenderedAll(ps: seq<(string, string)>)
    requires |ps| >= 1 && forall i :: 0 <= i < |ps| ==> PlainPair(ps[i])
    ensures DecodeEach(Parts(Join(Rendered(ps), "; ")), DecodePart) == Some(ps)
  {
    PartsOfRendered(ps);
    DecodeSpaced(ps);
  }

  /** Reading back what the corrected writer prints gives the same dict. */
  lemma EncodeDecode(attrs: Attributes)
    requires Encodable(attrs)
    ensures Decode(Encode(attrs)) == Ok(attrs)
  {
    var ps := ExpandedPairs(attrs);
    ExpandedPairsPlain(attrs);
    DecodeRenderedAll(ps);
    GroupedExpanded(attrs);
  }

  /** For single-valued attributes the writer as written prints the same text,
      and reading it back gives the same dict. */
  lemma WriteReadSingle(attrs: Attributes)
    requires Encodable(attrs)
    requires forall i :: 0 <= i < |attrs| ==> attrs[i].1.Single?
    ensures EncodeAsWritten(attrs).Ok? && Decode(EncodeAsWritten(attrs).value) == Ok(attrs)
  {
    EncodeDecode(attrs);
  }

  /** A tag repeated in one record, as GENCODE writes `tag`, is read as a list,
      and the writer as written then fails on that list. */
  lemma RepeatedTagNotWritable()
    ensures var attrs := [("gene_id", Single("G")), ("tag", Multi(["basic", "CCDS"]))];
      Decode(Encode(attrs)) == Ok(attrs) && EncodeAsWritten(attrs) == Err("tag")
  {
    var attrs := [("gene_id", Single("G")), ("tag", Multi(["basic", "CCDS"]))];
    TwoTagsEncodable(attrs);
    EncodeDecode(attrs);
    assert EncodeAsWritten(attrs) == Err("tag") by {
      assert !attrs[0].1.Multi? && attrs[1].1.Multi?;
      assert FirstList(attrs) == 1;
    }
  }

  lemma TwoTagsEncodable(attrs: Attributes)
    requires attrs == [("gene_id", Single("G")), ("tag", Multi(["basic", "CCDS"]))]
    ensures Encodable(attrs)
  {
    assert PlainKey("gene_id") && PlainKey("tag");
    assert EncodableValue(Multi(["basic", "CCDS"]));
    assert attrs[0].0 != attrs[1].0;
  }
}

/** The GFF3 reader and writer of `biofiles/gff.py`, and the record loop the
    GTF reader shares with it.  Input is the sequence of lines a text stream
    yields, each with its trailing "\n".  The reader returns the drafts it
    has registered, in arrival order; what the draft registry later builds
    from them is not part of this model.  Every error is raised before
    anything is yielded, so a failed read yields nothing. */
module Gff {
  import opened Results
  import opened Text
  import opened Dicts
  import opened Features
  import GtfAttributes

  /** `_VERSION_PREFIX` */
  const VersionPrefix: string := "##gff-version "

  /** The one line a GFF3 writer prints when it is created. */
  const Header: string := "##gff-version 3\n"

  /** The `ValueError`s the reader raises, with the text each one quotes. */
  datatype GffError =
    | UnsupportedVersion(version: string)
    | ExpectedVersion(line: string)
    | ColumnCount(line: string)
    | BadStrand(line: string)
    | BadPhase(line: string)
      /** `k, v = part.split("=", 1)` on a part without "=". */
    | AttributeUnpack
      /** The GTF attribute parser's error, quoting the whole column. */
    | AttributeList(text: string)
    | UnknownParent(line: string)
      /** `int()` on a start or end column that is not an integer. */
    | BadInteger(token: string)

  /** Which `_parse_attributes` the record loop calls: the GFF3 reader's own,
      or the override of the GTF reader. */
  datatype Dialect = Gff3 | Gtf

  /** A decoded record with its arrival index.  The score is kept as its
      text token. */
  datatype FeatureDraft = FeatureDraft(
    idx: nat,
    sequenceId: string,
    source: string,
    featureType: string,
    startOriginal: int,
    endOriginal: int,
    score: Option<string>,
    strand: Option<Strand>,
    phase: Option<int>,
    attributes: Attributes)

  // ---------------------------------------------------------------------
  // Column decoders

  /** `_parse_score`, keeping the number as its token: "." is no score. */
  function ParseScore(s: string): (r: Option<string>)
    ensures r.None? <==> s == "."
    ensures r.Some? ==> r.value == s
  {
    if s == "." then None else Some(s)
  }

  /** `_parse_strand` */
  function ParseStrand(line: string, s: string): (r: Result<Option<Strand>, GffError>)
    ensures r.Ok? <==> s == "+" || s == "-" || s == "."
    ensures r.Ok? && r.value.Some? ==> StrandText(r.value.value) == s
    ensures r.Ok? && r.value.None? ==> s == "."
    ensures r.Err? ==> r.error == BadStrand(line)
  {
    if s == "-" then Ok(Some(Minus))
    else if s == "+" then Ok(Some(Plus))
    else if s == "." then Ok(None)
    else Err(BadStrand(line))
  }

  /** `_parse_phase`: "." is no phase; anything else must be read by `int()`. */
  function ParsePhase(line: string, s: string): (r: Result<Option<int>, GffError>)
    ensures r.Ok? <==> s == "." || ParseInt(s).Some?
    ensures r.Ok? && r.value.Some? ==> Some(r.value.value) == ParseInt(s)
    ensures r.Err? ==> r.error == BadPhase(line)
  {
    if s == "." then Ok(None)
    else match ParseInt(s)
      case None => Err(BadPhase(line))
      case Some(p) => Ok(Some(p))
  }

  /** The columns of a record line: `line.split("\t", maxsplit=8)`. */
  function Columns(line: string): (cols: seq<string>)
    ensures 1 <= |cols| <= 9
  {
    SplitN(line, '\t', 8)
  }

  /** A line with fewer than eight tabs has fewer than nine columns. */
  lemma FewTabs(line: string)
    requires multiset(line)['\t'] < 8
    ensures |Columns(line)| == multiset(line)['\t'] + 1 < 9
  {
    SplitNCount(line, '\t', 8);
  }

  /** Tabs after the eighth stay inside the attribute column. */
  lemma ExtraTabsInAttributes(first: seq<string>, attributes: string)
    requires |first| == 8 && forall i :: 0 <= i < 8 ==> '\t' !in first[i]
    ensures Columns(Join(first + [attributes], "\t")) == first + [attributes]
  {
    SplitNJoin(first + [attributes], '\t', 8);
  }

  // ---------------------------------------------------------------------
  // The GFF3 attribute column, `key=value;key=value`

  /** `k, v = part.split("=", 1)`: `None` where the unpacking raises. */
  function KeyValue(part: string): (r: Option<(string, string)>)
    ensures r.Some? <==> '=' in part
    ensures r.Some? ==> part == r.value.0 + "=" + r.value.1 && '=' !in r.value.0
  {
    SplitOnce(part, '=');
    var pieces := SplitN(part, '=', 1);
    if |pieces| == 2 then Some((pieces[0], pieces[1])) else None
  }

  /** The value may hold further "=" characters; only the first one cuts. */
  lemma KeyValueOf(k: string, v: string)
    requires '=' !in k
    ensures KeyValue(k + "=" + v) == Some((k, v))
  {
    SplitNFirst(k, '=', v, 1);
    SplitNWhole(v, '=', 0);
  }

  /** `attributes_str.strip(";").split(";")` */
  function ColumnParts(s: string): seq<string> {
    Split(Strip(s, Among({';'})), ';')
  }

  /** The dict comprehension of gff.py:109-113 over the decoded pairs: each
      pair is assigned in turn, so a later value of a key replaces an
      earlier one while the key keeps its first position. */
  function Assigned(ps: seq<(string, string)>): Attributes {
    if ps == [] then []
    else Put(Assigned(ps[..|ps| - 1]), ps[|ps| - 1].0, Single(ps[|ps| - 1].1))
  }

  /** The GFF3 reader's `_parse_attributes`; `None` where some part has no "=". */
  function DecodeColumnar(s: string): (r: Option<Attributes>)
    ensures r.None? <==> exists i :: 0 <= i < |ColumnParts(s)| && '=' !in ColumnParts(s)[i]
  {
    match DecodeEach(ColumnParts(s), KeyValue)
    case None => None
    case Some(ps) => Some(Assigned(ps))
  }

  /** The last pair assigned decides its own key and leaves the others. */
  lemma AssignedGetLast(ps: seq<(string, string)>, key: string)
    requires ps != []
    ensures Get(Assigned(ps), key)
         == if ps[|ps| - 1].0 == key then Some(Single(ps[|ps| - 1].1)) else Get(Assigned(ps[..|ps| - 1]), key)
  {
    GetPut(Assigned(ps[..|ps| - 1]), ps[|ps| - 1].0, Single(ps[|ps| - 1].1), key);
  }

  /** What `AssignedGet` states of a list of pairs. */
  predicate HoldsLastValue(ps: seq<(string, string)>, key: string) {
    var vs := ValuesOf(ps, key);
    Get(Assigned(ps), key) == if vs == [] then None else Some(Single(vs[|vs| - 1]))
  }

  /** One more pair keeps each key holding its last value. */
  lemma AssignedGetStep(ps: seq<(string, string)>, key: string)
    requires ps != [] && HoldsLastValue(ps[..|ps| - 1], key)
    ensures HoldsLastValue(ps, key)
  {
    var init := ps[..|ps| - 1];
    var (k, v) := ps[|ps| - 1];
    AssignedGetLast(ps, key);
    if k == key {
      var vs := ValuesOf(ps, key);
      assert vs == ValuesOf(init, key) + [v];
      assert vs[|vs| - 1] == v;
    } else {
      assert ValuesOf(ps, key) == ValuesOf(init, key);
    }
  }

  /** A key ends up holding the last value given for it. */
  lemma {:induction false} AssignedGet(ps: seq<(string, string)>, key: string)
    ensures var vs := ValuesOf(ps, key);
      Get(Assigned(ps), key) == if vs == [] then None else Some(Single(vs[|vs| - 1]))
  {
    if ps != [] {
      AssignedGet(ps[..|ps| - 1], key);
      AssignedGetStep(ps, key);
    }
  }

  /** Keys keep the order of their first occurrence, each once. */
  lemma {:induction false} AssignedKeys(ps: seq<(string, string)>)
    ensures Keys(Assigned(ps)) == FirstKeys(ps)
    ensures DistinctKeys(Assigned(ps))
  {
    if ps != [] {
      var init := ps[..|ps| - 1];
      AssignedKeys(init);
      DistinctKeysPut(Assigned(init), ps[|ps| - 1].0, Single(ps[|ps| - 1].1));
    }
  }

  /** An empty attribute column is rejected: its one part has no "=". */
  lemma EmptyColumnRejected()
    ensures DecodeColumnar("") == None
  {
    assert ColumnParts("") == [""];
  }

  /** `str(v)` for the values a GFF3 writer formats: a string as itself, a
      list as a bracketed, comma-separated list of items in single quotes.
      That is Python's `repr` of each item only when the item holds no quote,
      backslash or non-printable character; the other quote choice and the
      escapes are not modelled. */
  function ValueText(x: AttrValue): string {
    match x
    case Single(t) => t
    case Multi(ts) => "[" + Join(seq(|ts|, i requires 0 <= i < |ts| => "'" + ts[i] + "'"), ", ") + "]"
  }

  /** The `k=v` items of the GFF3 writer, in dict order. */
  function Assignments(attrs: Attributes): (r: seq<string>)
    ensures |r| == |attrs|
    ensures forall i :: 0 <= i < |attrs| ==> r[i] == attrs[i].0 + "=" + ValueText(attrs[i].1)
  {
    seq(|attrs|, i requires 0 <= i < |attrs| => attrs[i].0 + "=" + ValueText(attrs[i].1))
  }

  /** The attribute column the GFF3 writer prints (gff.py:131). */
  function EncodeColumnar(attrs: Attributes): string {
    Join(Assignments(attrs), ";")
  }

  /** A pair the GFF3 encoding carries through a decode unchanged. */
  predicate ColumnarPair(p: (string, AttrValue)) {
    && '=' !in p.0 && ';' !in p.0
    && p.1.Single? && ';' !in p.1.text
  }

  predicate ColumnarEncodable(attrs: Attributes) {
    && |attrs| >= 1
    && DistinctKeys(attrs)
    && forall i :: 0 <= i < |attrs| ==> ColumnarPair(attrs[i])
  }

  /** The key/text pairs of single-valued attributes. */
  function TextPairs(attrs: Attributes): (ps: seq<(string, string)>)
    requires forall i :: 0 <= i < |attrs| ==> attrs[i].1.Single?
    ensures |ps| == |attrs|
    ensures forall i :: 0 <= i < |attrs| ==> ps[i] == (attrs[i].0, attrs[i].1.text)
  {
    seq(|attrs|, i requires 0 <= i < |attrs| => (attrs[i].0, attrs[i].1.text))
  }

  /** The last pair of a dict is assigned last. */
  lemma AssignedTextPairsLast(attrs: Attributes)
    requires attrs != [] && forall i :: 0 <= i < |attrs| ==> attrs[i].1.Single?
    ensures Assigned(TextPairs(attrs))
         == Put(Assigned(TextPairs(attrs[..|attrs| - 1])), attrs[|attrs| - 1].0, attrs[|attrs| - 1].1)
  {
    var n := |attrs|;
    var ps := TextPairs(attrs);
    assert ps[..n - 1] == TextPairs(attrs[..n - 1]);
  }

  /** Assigning the pairs of a dict with distinct keys rebuilds the dict. */
  lemma {:induction false} AssignedTextPairs(attrs: Attributes)
    requires DistinctKeys(attrs) && forall i :: 0 <= i < |attrs| ==> attrs[i].1.Single?
    ensures Assigned(TextPairs(attrs)) == attrs
  {
    if attrs != [] {
      var n := |attrs|;
      var init := attrs[..n - 1];
      assert attrs == init + [attrs[n - 1]];
      assert forall i :: 0 <= i < |init| ==> init[i] == attrs[i];
      AssignedTextPairsLast(attrs);
      DistinctKeysLast(attrs);
      AssignedTextPairs(init);
      PutNew(init, attrs[n - 1].0, attrs[n - 1].1);
    }
  }

  /** The items are non-empty, free of ";", and start and end with no ";". */
  lemma AssignmentsPlain(attrs: Attributes)
    requires ColumnarEncodable(attrs)
    ensures forall i :: 0 <= i < |attrs| ==> Assignments(attrs)[i] != "" && ';' !in Assignments(attrs)[i]
  {
    forall i | 0 <= i < |attrs|
      ensures Assignments(attrs)[i] != "" && ';' !in Assignments(attrs)[i]
    {
      assert ColumnarPair(attrs[i]);
    }
  }

  /** The column splits back into the items the writer joined. */
  lemma ColumnPartsOfEncoding(attrs: Attributes)
    requires ColumnarEncodable(attrs)
    ensures ColumnParts(EncodeColumnar(attrs)) == Assignments(attrs)
  {
    var items := Assignments(attrs);
    AssignmentsPlain(attrs);
    JoinUnstripped(items);
    SplitJoin(items, ';');
  }

  /** Items that are non-empty and free of ";" join into a text with no ";"
      at either end. */
  lemma JoinUnstripped(items: seq<string>)
    requires |items| >= 1 && forall i :: 0 <= i < |items| ==> items[i] != "" && ';' !in items[i]
    ensures Strip(Join(items, ";"), Among({';'})) == Join(items, ";")
  {
    var j := Join(items, ";");
    JoinEnds(items, ";");
    assert j[0] in items[0];
    assert j[|j| - 1] in items[|items| - 1];
    StripUntouched(j, Among({';'}));
  }

  /** Re-reading the GFF3 writer's attribute column gives back the same dict. */
  lemma ColumnarRoundTrip(attrs: Attributes)
    requires ColumnarEncodable(attrs)
    ensures DecodeColumnar(EncodeColumnar(attrs)) == Some(attrs)
  {
    var items := Assignments(attrs);
    var ps := TextPairs(attrs);
    ColumnPartsOfEncoding(attrs);
    forall i | 0 <= i < |items|
      ensures KeyValue(items[i]) == Some(ps[i])
    {
      assert ColumnarPair(attrs[i]);
      KeyValueOf(attrs[i].0, attrs[i].1.text);
    }
    DecodeEachAll(items, KeyValue, ps);
    AssignedTextPairs(attrs);
  }

  // ---------------------------------------------------------------------
  // Records

  /** The attribute column as the dialect's `_parse_attributes` reads it. */
  function DecodeAttributes(dialect: Dialect, s: string): (r: Result<Attributes, GffError>)
    ensures r.Ok? ==> DistinctKeys(r.value)
  {
    match dialect
    case Gff3 =>
      (match DecodeColumnar(s)
       case None => Err(AttributeUnpack)
       case Some(attrs) =>
         AssignedKeys(DecodeEach(ColumnParts(s), KeyValue).value);
         Ok(attrs))
    case Gtf =>
      (match GtfAttributes.Decode(s)
       case Err(text) => Err(AttributeList(text))
       case Ok(attrs) => Ok(attrs))
  }

  /** The attribute column the dialect's writer prints. */
  function AttributeText(dialect: Dialect, attrs: Attributes): string {
    match dialect
    case Gff3 => EncodeColumnar(attrs)
    case Gtf => GtfAttributes.Encode(attrs)
  }

  predicate Encodable(dialect: Dialect, attrs: Attributes) {
    match dialect
    case Gff3 => ColumnarEncodable(attrs)
    case Gtf => GtfAttributes.Encodable(attrs)
  }

  lemma AttributesRoundTrip(dialect: Dialect, attrs: Attributes)
    requires Encodable(dialect, attrs)
    ensures DecodeAttributes(dialect, AttributeText(dialect, attrs)) == Ok(attrs)
  {
    match dialect
    case Gff3 => ColumnarRoundTrip(attrs);
    case Gtf => GtfAttributes.EncodeDecode(attrs);
  }

  /** The `Parent` check of gff.py:53-60 against the IDs registered so far.
      A list-valued `Parent`, which only the GTF reader can produce, never
      matches a registered ID. */
  predicate ParentKnown(attrs: Attributes, byId: set<string>) {
    match Get(attrs, "Parent")
    case None => true
    case Some(x) => x.Single? && x.text in byId
  }

  /** What a data line yields before the `Parent` check: its nine columns and
      the parsed score, strand, phase and attributes. */
  datatype RecordHead = RecordHead(
    cols: seq<string>,
    score: Option<string>,
    strand: Option<Strand>,
    phase: Option<int>,
    attributes: Attributes)

  /** The checks of a data line that come before the `Parent` check, in the
      order the source makes them; none of them looks at `by_id`. */
  function DecodeHead(line: string, dialect: Dialect): (r: Result<RecordHead, GffError>)
    ensures r.Ok? ==> r.value.cols == Columns(line) && |r.value.cols| == 9
    ensures r.Ok? ==> DistinctKeys(r.value.attributes)
    ensures |Columns(line)| != 9 ==> r == Err(ColumnCount(line))
  {
    var cols := Columns(line);
    if |cols| != 9 then Err(ColumnCount(line))
    else
      match ParseStrand(line, cols[6])
      case Err(e) => Err(e)
      case Ok(strand) =>
        match ParsePhase(line, cols[7])
        case Err(e) => Err(e)
        case Ok(phase) =>
          match DecodeAttributes(dialect, cols[8])
          case Err(e) => Err(e)
          case Ok(attrs) => Ok(RecordHead(cols, ParseScore(cols[5]), strand, phase, attrs))
  }

  /** One data line, without its newline, decoded as `_read_gff3` does: the
      head, then the `Parent` check against `by_id`, then the coordinates. */
  function DecodeRecord(line: string, idx: nat, byId: set<string>, dialect: Dialect): (r: Result<FeatureDraft, GffError>)
    ensures r.Ok? ==> r.value.idx == idx && ParentKnown(r.value.attributes, byId)
    ensures r.Ok? ==> DistinctKeys(r.value.attributes)
    ensures r.Ok? ==> DecodeHead(line, dialect).Ok? && r.value.attributes == DecodeHead(line, dialect).value.attributes
    ensures |Columns(line)| != 9 ==> r == Err(ColumnCount(line))
  {
    match DecodeHead(line, dialect)
    case Err(e) => Err(e)
    case Ok(h) =>
      if !ParentKnown(h.attributes, byId) then Err(UnknownParent(line))
      else
        match ParseInt(h.cols[3])
        case None => Err(BadInteger(h.cols[3]))
        case Some(start) =>
          match ParseInt(h.cols[4])
          case None => Err(BadInteger(h.cols[4]))
          case Some(end) =>
            Ok(FeatureDraft(idx, h.cols[0], h.cols[1], h.cols[2], start, end, h.score, h.strand, h.phase, h.attributes))
  }

  /** A line with fewer than nine columns, an empty one included, is rejected. */
  lemma FewTabsRejected(line: string, idx: nat, byId: set<string>, dialect: Dialect)
    requires multiset(line)['\t'] < 8
    ensures DecodeRecord(line, idx, byId, dialect) == Err(ColumnCount(line))
  {
    FewTabs(line);
  }

  /** The registered IDs only matter to a record with a `Parent`. */
  lemma NoParentNoCheck(line: string, idx: nat, byId: set<string>, other: set<string>, dialect: Dialect)
    requires DecodeRecord(line, idx, byId, dialect).Ok?
    requires Get(DecodeRecord(line, idx, byId, dialect).value.attributes, "Parent").None?
    ensures DecodeRecord(line, idx, other, dialect) == DecodeRecord(line, idx, byId, dialect)
  {
    var h := DecodeHead(line, dialect);
    assert h.Ok? && Get(h.value.attributes, "Parent").None?;
  }

  /** The single `ID` a record registers under, if it has one. */
  function IdOf(attrs: Attributes): set<string> {
    match Get(attrs, "ID")
    case Some(x) => if x.Single? then {x.text} else {}
    case None => {}
  }

  /** The IDs of a list of drafts. */
  function IdsOf(ds: seq<FeatureDraft>): set<string> {
    if ds == [] then {} else IdsOf(ds[..|ds| - 1]) + IdOf(ds[|ds| - 1].attributes)
  }

  /** The draft registry the record loop fills: the drafts in arrival order,
      and `by_id`, the IDs registered so far. */
  datatype Registry = Registry(drafts: seq<FeatureDraft>, byId: set<string>)

  /** One line of the record loop: a line starting with "#" is skipped before
      its newline is stripped; any other line becomes the next draft. */
  function ReadStep(reg: Registry, raw: string, dialect: Dialect): Result<Registry, GffError> {
    if StartsWith(raw, "#") then Ok(reg)
    else match DecodeRecord(RStrip(raw, Among({'\n'})), |reg.drafts|, reg.byId, dialect)
      case Err(e) => Err(e)
      case Ok(d) => Ok(Registry(reg.drafts + [d], reg.byId + IdOf(d.attributes)))
  }

  /** `_read_gff3` over the remaining lines: the registry it fills, or the
      first error. */
  function Records(lines: seq<string>, dialect: Dialect): Result<Registry, GffError> {
    if lines == [] then Ok(Registry([], {}))
    else match Records(lines[..|lines| - 1], dialect)
      case Err(e) => Err(e)
      case Ok(reg) => ReadStep(reg, lines[|lines| - 1], dialect)
  }

  /** Once a prefix of the lines fails, the whole read fails the same way. */
  lemma {:induction false} RecordsFailure(lines: seq<string>, n: nat, dialect: Dialect)
    requires n <= |lines| && Records(lines[..n], dialect).Err?
    ensures Records(lines, dialect) == Records(lines[..n], dialect)
  {
    if n < |lines| {
      assert lines[..|lines| - 1][..n] == lines[..n];
      RecordsFailure(lines[..|lines| - 1], n, dialect);
    } else {
      assert lines[..n] == lines;
    }
  }

  /** gff.py:27-79: the record loop, registering drafts and counting indices. */
  method ReadRecords(lines: seq<string>, dialect: Dialect) returns (r: Result<Registry, GffError>)
    ensures r == Records(lines, dialect)
  {
    var drafts: seq<FeatureDraft> := [];
    var byId: set<string> := {};
    var idx: nat := 0;
    var i := 0;
    while i < |lines|
      invariant 0 <= i <= |lines|
      invariant Records(lines[..i], dialect) == Ok(Registry(drafts, byId))
      invariant idx == |drafts|
    {
      assert lines[..i + 1][..i] == lines[..i];
      assert Records(lines[..i + 1], dialect) == ReadStep(Registry(drafts, byId), lines[i], dialect);
      var line := lines[i];
      if StartsWith(line, "#") {
        i := i + 1;
        continue;
      }
      line := RStrip(line, Among({'\n'}));
      var draft := DecodeRecord(line, idx, byId, dialect);
      if draft.Err? {
        RecordsFailure(lines, i + 1, dialect);
        return Err(draft.error);
      }
      drafts := drafts + [draft.value];
      byId := byId + IdOf(draft.value.attributes);
      idx := idx + 1;
      i := i + 1;
    }
    assert lines[..i] == lines;
    r := Ok(Registry(drafts, byId));
  }

  /** Drafts are numbered 0, 1, 2, ... in arrival order; comments take no
      number.  `by_id` holds exactly the IDs of the registered drafts. */
  lemma {:induction false} RecordsIndexed(lines: seq<string>, dialect: Dialect)
    requires Records(lines, dialect).Ok?
    ensures var reg := Records(lines, dialect).value;
      (forall i :: 0 <= i < |reg.drafts| ==> reg.drafts[i].idx == i) && reg.byId == IdsOf(reg.drafts)
  {
    if lines != [] {
      var init := lines[..|lines| - 1];
      RecordsIndexed(init, dialect);
      ReadStepGrows(Records(init, dialect).value, lines[|lines| - 1], dialect);
    }
  }

  /** A step keeps the registry, or adds one draft numbered after the
      others and registers its ID. */
  lemma ReadStepGrows(reg: Registry, raw: string, dialect: Dialect)
    requires ReadStep(reg, raw, dialect).Ok?
    ensures var next := ReadStep(reg, raw, dialect).value;
      || next == reg
      || (&& |next.drafts| == |reg.drafts| + 1
          && next.drafts[..|reg.drafts|] == reg.drafts
          && next.drafts[|reg.drafts|].idx == |reg.drafts|
          && next.byId == reg.byId + IdOf(next.drafts[|reg.drafts|].attributes))
  {
    var next := ReadStep(reg, raw, dialect).value;
    if next != reg {
      assert next.drafts[..|reg.drafts|] == reg.drafts;
    }
  }

  /** The last line either adds no draft or adds one whose `Parent`, if
      any, is among the IDs registered before it. */
  lemma RecordsLastDraft(lines: seq<string>, dialect: Dialect)
    requires lines != [] && Records(lines, dialect).Ok?
    ensures Records(lines[..|lines| - 1], dialect).Ok?
    ensures var reg := Records(lines[..|lines| - 1], dialect).value;
      var all := Records(lines, dialect).value.drafts;
      || all == reg.drafts
      || (all == reg.drafts + [all[|reg.drafts|]] && ParentKnown(all[|reg.drafts|].attributes, reg.byId))
  {
    var reg := Records(lines[..|lines| - 1], dialect).value;
    assert Records(lines, dialect) == ReadStep(reg, lines[|lines| - 1], dialect);
    ReadStepGrows(reg, lines[|lines| - 1], dialect);
    var all := Records(lines, dialect).value.drafts;
    if all != reg.drafts {
      assert all == reg.drafts + [all[|reg.drafts|]];
    }
  }

  /** Every `Parent` names the `ID` of an earlier draft. */
  lemma {:induction false} RecordsParentsEarlier(lines: seq<string>, dialect: Dialect)
    requires Records(lines, dialect).Ok?
    ensures var ds := Records(lines, dialect).value.drafts;
      forall i :: 0 <= i < |ds| ==> ParentKnown(ds[i].attributes, IdsOf(ds[..i]))
  {
    if lines != [] {
      var init := lines[..|lines| - 1];
      RecordsLastDraft(lines, dialect);
      RecordsParentsEarlier(init, dialect);
      RecordsIndexed(init, dialect);
      var reg := Records(init, dialect).value;
      var ds := reg.drafts;
      var all := Records(lines, dialect).value.drafts;
      if all != ds {
        assert all[..|ds|] == ds;
        forall i | 0 <= i < |all|
          ensures ParentKnown(all[i].attributes, IdsOf(all[..i]))
        {
          if i < |ds| {
            assert all[..i] == ds[..i];
            assert all[i] == ds[i];
          } else {
            assert ParentKnown(all[|ds|].attributes, reg.byId);
          }
        }
      }
    }
  }

  /** A later "#" line, a repeated version directive included, is skipped. */
  lemma CommentSkipped(lines: seq<string>, comment: string, dialect: Dialect)
    requires StartsWith(comment, "#")
    ensures Records(lines + [comment], dialect) == Records(lines, dialect)
  {
    assert (lines + [comment])[..|lines|] == lines;
  }

  // ---------------------------------------------------------------------
  // The version directive

  /** `GFFReader.__iter__`: lines before the directive must be comments; the
      directive must name version 3, and the record loop takes the rest. */
  function ReadGffLines(lines: seq<string>): Result<Registry, GffError> {
    if lines == [] then Ok(Registry([], {}))
    else
      var line := RStrip(lines[0], Among({'\n'}));
      if StartsWith(line, VersionPrefix) then
        var version := RemovePrefix(line, VersionPrefix);
        if version == "3" then Records(lines[1..], Gff3) else Err(UnsupportedVersion(version))
      else if StartsWith(line, "#") then ReadGffLines(lines[1..])
      else Err(ExpectedVersion(line))
  }

  /** gff.py:14-25 */
  method ReadGff(lines: seq<string>) returns (r: Result<Registry, GffError>)
    ensures r == ReadGffLines(lines)
  {
    var i := 0;
    while i < |lines|
      invariant 0 <= i <= |lines|
      invariant ReadGffLines(lines[i..]) == ReadGffLines(lines)
    {
      assert lines[i..][1..] == lines[i + 1..];
      var line := RStrip(lines[i], Among({'\n'}));
      if StartsWith(line, VersionPrefix) {
        var version := RemovePrefix(line, VersionPrefix);
        if version == "3" {
          r := ReadRecords(lines[i + 1..], Gff3);
          return;
        }
        return Err(UnsupportedVersion(version));
      }
      if StartsWith(line, "#") {
        i := i + 1;
        continue;
      }
      return Err(ExpectedVersion(line));
    }
    r := Ok(Registry([], {}));
  }

  /** An input of comments only, or no input at all, yields nothing and
      raises nothing. */
  lemma {:induction false} OnlyComments(lines: seq<string>)
    requires forall i :: 0 <= i < |lines| ==> StartsWith(lines[i], "#") && !StartsWith(lines[i], VersionPrefix)
    ensures ReadGffLines(lines) == Ok(Registry([], {}))
  {
    if lines != [] {
      var line := RStrip(lines[0], Among({'\n'}));
      assert line == lines[0][..|line|];
      RStripKeepsFirst(lines[0], Among({'\n'}));
      assert StartsWith(line, "#");
      assert !StartsWith(line, VersionPrefix);
      OnlyComments(lines[1..]);
    }
  }

  /** Before the directive, a line that is not a comment is rejected, a blank
      one included. */
  lemma NotAComment(line: string, lines: seq<string>)
    requires '\n' !in line && !StartsWith(line, "#")
    requires lines != [] && lines[0] == line + "\n"
    ensures ReadGffLines(lines) == Err(ExpectedVersion(line))
  {
    RStripNewline(line);
    assert !StartsWith(line, VersionPrefix) by {
      assert line == [] || line[0] != '#';
    }
  }

  /** The directive is accepted only for version "3"; the record loop then
      reads every later line. */
  lemma Directive(version: string, rest: seq<string>)
    requires '\n' !in version
    ensures ReadGffLines([VersionPrefix + version + "\n"] + rest)
         == if version == "3" then Records(rest, Gff3) else Err(UnsupportedVersion(version))
  {
    var line := VersionPrefix + version;
    assert '\n' !in line;
    RStripNewline(line);
    assert RemovePrefix(line, VersionPrefix) == version;
    assert ([VersionPrefix + version + "\n"] + rest)[1..] == rest;
  }

  // ---------------------------------------------------------------------
  // Writing

  /** `str(x) if x is not None else "."` for the score, strand and phase. */
  function ScoreField(score: Option<string>): string {
    match score
    case None => "."
    case Some(t) => t
  }

  function StrandField(strand: Option<Strand>): string {
    match strand
    case None => "."
    case Some(s) => StrandText(s)
  }

  function PhaseField(phase: Option<int>): string {
    match phase
    case None => "."
    case Some(p) => IntToString(p)
  }

  /** The nine columns a writer prints for a feature: the start back in the
      1-based convention, the end as it is. */
  function Fields(f: Feature, attributeText: string): (r: seq<string>)
    ensures |r| == 9
  {
    [f.sequenceId, f.source, f.featureType, IntToString(f.startC + 1), IntToString(f.endC),
     ScoreField(f.score), StrandField(f.strand), PhaseField(f.phase), attributeText]
  }

  /** One written line: the columns joined by tabs, then a newline. */
  function FeatureLine(f: Feature, attributeText: string): string {
    Join(Fields(f, attributeText), "\t") + "\n"
  }

  /** The draft a reader makes of a written feature. */
  function DraftOf(f: Feature, idx: nat): (d: FeatureDraft)
    ensures CoordinatesAgree(f) ==> d.startOriginal == f.startOriginal && d.endOriginal == f.endOriginal
  {
    FeatureDraft(idx, f.sequenceId, f.source, f.featureType, f.startC + 1, f.endC,
                 f.score, f.strand, f.phase, f.attributes)
  }

  predicate PlainText(s: string) {
    '\t' !in s && '\n' !in s && '\r' !in s
  }

  /** A feature whose written line reads back as the same draft. */
  predicate Writable(f: Feature, dialect: Dialect) {
    && PlainText(f.sequenceId) && PlainText(f.source) && PlainText(f.featureType)
    && (f.sequenceId == [] || f.sequenceId[0] != '#')
    && (f.score.Some? ==> f.score.value != "." && PlainText(f.score.value))
    && Encodable(dialect, f.attributes)
    && '\n' !in AttributeText(dialect, f.attributes) && '\r' !in AttributeText(dialect, f.attributes)
  }

  lemma ScoreRoundTrip(score: Option<string>)
    requires score != Some(".")
    ensures ParseScore(ScoreField(score)) == score
  {
  }

  lemma StrandRoundTrip(line: string, strand: Option<Strand>)
    ensures ParseStrand(line, StrandField(strand)) == Ok(strand)
  {
  }

  lemma PhaseRoundTrip(line: string, phase: Option<int>)
    ensures ParsePhase(line, PhaseField(phase)) == Ok(phase)
  {
    if phase.Some? {
      IntRoundTrip(phase.value);
      IntToStringPlain(phase.value);
    }
  }

  /** `str(n)` holds neither a tab nor a line break. */
  lemma IntFieldPlain(n: int)
    ensures PlainText(IntToString(n))
  {
    IntToStringPlain(n);
    var s := IntToString(n);
    forall i | 0 <= i < |s|
      ensures s[i] != '\t' && s[i] != '\n' && s[i] != '\r'
    {
      assert !IsSpace(s[i]);
    }
  }

  /** The written columns hold no line break, and only the last may hold a tab. */
  lemma FieldsPlain(f: Feature, dialect: Dialect)
    requires Writable(f, dialect)
    ensures var fs := Fields(f, AttributeText(dialect, f.attributes));
      (forall i :: 0 <= i < 8 ==> PlainText(fs[i])) && '\n' !in fs[8] && '\r' !in fs[8]
  {
    IntFieldPlain(f.startC + 1);
    IntFieldPlain(f.endC);
    if f.phase.Some? {
      IntFieldPlain(f.phase.value);
    }
  }

  /** A written line, newline stripped, splits back into its nine columns. */
  lemma ColumnsOfWritten(f: Feature, dialect: Dialect)
    requires Writable(f, dialect)
    ensures var fs := Fields(f, AttributeText(dialect, f.attributes));
      '\n' !in Join(fs, "\t") && '\r' !in Join(fs, "\t") && Columns(Join(fs, "\t")) == fs
  {
    var fs := Fields(f, AttributeText(dialect, f.attributes));
    FieldsPlain(f, dialect);
    JoinFree(fs, "\t", '\n');
    JoinFree(fs, "\t", '\r');
    SplitNJoin(fs, '\t', 8);
  }

  /** The head of a written line, newline stripped, is the feature's own
      columns, score, strand, phase and attributes. */
  lemma HeadOfWritten(f: Feature, dialect: Dialect)
    requires Writable(f, dialect)
    ensures var fs := Fields(f, AttributeText(dialect, f.attributes));
      DecodeHead(Join(fs, "\t"), dialect) == Ok(RecordHead(fs, f.score, f.strand, f.phase, f.attributes))
  {
    var fs := Fields(f, AttributeText(dialect, f.attributes));
    ColumnsOfWritten(f, dialect);
    StrandRoundTrip(Join(fs, "\t"), f.strand);
    PhaseRoundTrip(Join(fs, "\t"), f.phase);
    AttributesRoundTrip(dialect, f.attributes);
  }

  /** `rstrip("\n")` of a written line leaves its tab-joined columns. */
  lemma WrittenStripped(f: Feature, dialect: Dialect)
    requires Writable(f, dialect)
    ensures RStrip(FeatureLine(f, AttributeText(dialect, f.attributes)), Among({'\n'}))
         == Join(Fields(f, AttributeText(dialect, f.attributes)), "\t")
  {
    ColumnsOfWritten(f, dialect);
    RStripNewline(Join(Fields(f, AttributeText(dialect, f.attributes)), "\t"));
  }

  /** Re-reading a written line gives the feature back as a draft, provided
      its `Parent`, if any, is already registered. */
  lemma LineRoundTrip(f: Feature, idx: nat, byId: set<string>, dialect: Dialect)
    requires Writable(f, dialect) && ParentKnown(f.attributes, byId)
    ensures var line := FeatureLine(f, AttributeText(dialect, f.attributes));
      DecodeRecord(RStrip(line, Among({'\n'})), idx, byId, dialect) == Ok(DraftOf(f, idx))
  {
    var fs := Fields(f, AttributeText(dialect, f.attributes));
    WrittenStripped(f, dialect);
    HeadOfWritten(f, dialect);
    var h := RecordHead(fs, f.score, f.strand, f.phase, f.attributes);
    assert h.cols[3] == IntToString(f.startC + 1) && h.cols[4] == IntToString(f.endC);
    IntRoundTrip(f.startC + 1);
    IntRoundTrip(f.endC);
  }

  /** The lines a writer prints for a list of features. */
  function Lines(fs: seq<Feature>, dialect: Dialect): (ls: seq<string>)
    ensures |ls| == |fs|
    ensures forall i :: 0 <= i < |fs| ==> ls[i] == FeatureLine(fs[i], AttributeText(dialect, fs[i].attributes))
  {
    if fs == [] then []
    else Lines(fs[..|fs| - 1], dialect) + [FeatureLine(fs[|fs| - 1], AttributeText(dialect, fs[|fs| - 1].attributes))]
  }

  /** The drafts a reader makes of a list of written features. */
  function Drafts(fs: seq<Feature>): (ds: seq<FeatureDraft>)
    ensures |ds| == |fs|
    ensures forall i :: 0 <= i < |fs| ==> ds[i] == DraftOf(fs[i], i)
  {
    if fs == [] then [] else Drafts(fs[..|fs| - 1]) + [DraftOf(fs[|fs| - 1], |fs| - 1)]
  }

  /** The IDs of a list of features. */
  function FeatureIds(fs: seq<Feature>): set<string> {
    if fs == [] then {} else FeatureIds(fs[..|fs| - 1]) + IdOf(fs[|fs| - 1].attributes)
  }

  /** Features whose lines read back, each `Parent` naming an earlier `ID`. */
  predicate WritableAll(fs: seq<Feature>, dialect: Dialect) {
    forall i :: 0 <= i < |fs| ==> Writable(fs[i], dialect) && ParentKnown(fs[i].attributes, FeatureIds(fs[..i]))
  }

  /** A written line is not taken for a comment. */
  lemma WrittenNotComment(f: Feature, dialect: Dialect)
    requires Writable(f, dialect)
    ensures !StartsWith(FeatureLine(f, AttributeText(dialect, f.attributes)), "#")
  {
    var fs := Fields(f, AttributeText(dialect, f.attributes));
    var line := FeatureLine(f, AttributeText(dialect, f.attributes));
    assert Join(fs, "\t") == f.sequenceId + "\t" + Join(fs[1..], "\t");
    if f.sequenceId == [] {
      assert line[0] == '\t';
    } else {
      assert line[0] == f.sequenceId[0];
    }
  }

  /** The written features before the last are written out just as well,
      and the last one's `Parent`, if any, names an earlier feature. */
  lemma WritableAllInit(fs: seq<Feature>, dialect: Dialect)
    requires WritableAll(fs, dialect) && fs != []
    ensures WritableAll(fs[..|fs| - 1], dialect)
    ensures Writable(fs[|fs| - 1], dialect)
    ensures ParentKnown(fs[|fs| - 1].attributes, FeatureIds(fs[..|fs| - 1]))
  {
    var init := fs[..|fs| - 1];
    forall i | 0 <= i < |init|
      ensures Writable(init[i], dialect) && ParentKnown(init[i].attributes, FeatureIds(init[..i]))
    {
      assert init[i] == fs[i] && init[..i] == fs[..i];
    }
    assert fs[..|fs| - 1] == init;
  }

  /** Appending one written line to lines that read back as drafts reads
      back as one more draft. */
  lemma RecordsOfWrittenStep(fs: seq<Feature>, dialect: Dialect)
    requires fs != []
    requires Records(Lines(fs[..|fs| - 1], dialect), dialect) == Ok(Registry(Drafts(fs[..|fs| - 1]), FeatureIds(fs[..|fs| - 1])))
    requires Writable(fs[|fs| - 1], dialect)
    requires ParentKnown(fs[|fs| - 1].attributes, FeatureIds(fs[..|fs| - 1]))
    ensures Records(Lines(fs, dialect), dialect) == Ok(Registry(Drafts(fs), FeatureIds(fs)))
  {
    var n := |fs|;
    var init := fs[..n - 1];
    var f := fs[n - 1];
    var ls := Lines(fs, dialect);
    assert ls[..n - 1] == Lines(init, dialect);
    assert Drafts(fs) == Drafts(init) + [DraftOf(f, n - 1)];
    var reg := Registry(Drafts(init), FeatureIds(init));
    assert Records(ls, dialect) == ReadStep(reg, ls[n - 1], dialect);
    ReadStepWritten(reg, f, dialect);
  }

  /** The record loop reads the written lines back as the features' drafts. */
  lemma {:induction false} RecordsOfWritten(fs: seq<Feature>, dialect: Dialect)
    requires WritableAll(fs, dialect)
    ensures Records(Lines(fs, dialect), dialect) == Ok(Registry(Drafts(fs), FeatureIds(fs)))
  {
    if fs != [] {
      WritableAllInit(fs, dialect);
      RecordsOfWritten(fs[..|fs| - 1], dialect);
      RecordsOfWrittenStep(fs, dialect);
    }
  }

  /** The record loop takes a written line as the next draft. */
  lemma ReadStepWritten(reg: Registry, f: Feature, dialect: Dialect)
    requires Writable(f, dialect) && ParentKnown(f.attributes, reg.byId)
    ensures ReadStep(reg, FeatureLine(f, AttributeText(dialect, f.attributes)), dialect)
         == Ok(Registry(reg.drafts + [DraftOf(f, |reg.drafts|)], reg.byId + IdOf(f.attributes)))
  {
    WrittenNotComment(f, dialect);
    LineRoundTrip(f, |reg.drafts|, reg.byId, dialect);
  }

  /** Each written line ends in its only newline. */
  lemma LinesTerminated(fs: seq<Feature>, dialect: Dialect)
    requires forall i :: 0 <= i < |fs| ==> Writable(fs[i], dialect)
    ensures forall i :: 0 <= i < |fs| ==> IsTerminatedLine(Lines(fs, dialect)[i])
  {
    forall i | 0 <= i < |fs|
      ensures IsTerminatedLine(Lines(fs, dialect)[i])
    {
      var body := Join(Fields(fs[i], AttributeText(dialect, fs[i].attributes)), "\t");
      ColumnsOfWritten(fs[i], dialect);
      assert (body + "\n")[..|body|] == body;
      assert '\r' !in body + "\n";
    }
  }

  /** Reading back the text a writer produced: the header, then one line per
      feature, gives the features as drafts in order. */
  lemma GffWriteRead(fs: seq<Feature>)
    requires WritableAll(fs, Gff3)
    ensures ReadGffLines(SplitLines(Header + Concat(Lines(fs, Gff3)))) == Ok(Registry(Drafts(fs), FeatureIds(fs)))
  {
    var body := Concat(Lines(fs, Gff3));
    LinesTerminated(fs, Gff3);
    SplitLinesConcat(Lines(fs, Gff3));
    HeaderFirst(body);
    RecordsOfWritten(fs, Gff3);
  }

  /** The header is read as the version 3 directive, and the record loop
      takes every line after it. */
  lemma HeaderFirst(body: string)
    ensures ReadGffLines(SplitLines(Header + body)) == Records(SplitLines(body), Gff3)
  {
    var directive := "##gff-version 3";
    assert directive + "\n" == Header && VersionPrefix + "3" == directive;
    assert Header + body == directive + "\n" + body;
    NewlinesPrefix(Header, body);
    assert Header + Newlines(body) == directive + "\n" + Newlines(body);
    LinesOfFirst(directive, Newlines(body));
    Directive("3", SplitLines(body));
  }

  /** `GFF3Writer`: the output stream as the text written to it so far. */
  class Gff3Writer {
    var output: string

    /** gff.py:117-119: the version directive, once, at construction. */
    constructor ()
      ensures output == Header
    {
      output := Header;
    }

    /** gff.py:121-134 */
    method Write(f: Feature)
      modifies this
      ensures output == old(output) + FeatureLine(f, EncodeColumnar(f.attributes))
    {
      var fields := Fields(f, EncodeColumnar(f.attributes));
      output := output + Join(fields, "\t");
      output := output + "\n";
    }
  }
}

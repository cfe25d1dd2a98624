/** The FASTA reader and writer of fasta.py: a header line `>id description`
    opens a record, the non-empty lines after it are its sequence, and the
    writer wraps the sequence at a fixed width. */
module Fasta {
  import opened Results
  import opened Text

  /** `FASTASequence` */
  datatype FastaRecord = FastaRecord(id: string, description: string, sequence: string)

  /** The two `ValueError`s the reader raises. */
  datatype FastaError =
    | NoIdentifier               // a header with nothing after ">"
    | ExpectedHeader(line: string)  // a sequence line before any header

  /** What iterating a reader observes: the records yielded, then the error
      that stopped the iteration, if any. */
  datatype Output = Output(records: seq<FastaRecord>, failure: Option<FastaError>)

  // ---------------------------------------------------------------------
  // The draft a reader fills

  /** `_FASTASequenceDraft`: the header fields and the sequence lines seen so
      far, appended in place. */
  class FastaDraft {
    var id: string
    var description: string
    var sequenceParts: seq<string>

    constructor (id: string, description: string)
      ensures this.id == id && this.description == description && sequenceParts == []
    {
      this.id := id;
      this.description := description;
      sequenceParts := [];
    }

    /** `draft.sequence_parts.append(line)` */
    method Append(part: string)
      modifies this
      ensures sequenceParts == old(sequenceParts) + [part]
      ensures id == old(id) && description == old(description)
      ensures Finalize() == old(Finalize()).(sequence := old(Finalize()).sequence + part)
    {
      ConcatSnoc(sequenceParts, part);
      sequenceParts := sequenceParts + [part];
    }

    /** `finalize`: the record whose sequence is the parts joined in order. */
    function Finalize(): (r: FastaRecord)
      reads this
    {
      FastaRecord(id, description, Concat(sequenceParts))
    }
  }

  // ---------------------------------------------------------------------
  // Reading

  /** `line.removeprefix(">").lstrip().split(maxsplit=1)` as the identifier
      and the description, `None` when there is no identifier. */
  function HeaderFields(text: string): Option<(string, string)> {
    var words := SplitWhitespaceOnce(LStrip(text, Space));
    if |words| == 0 then None
    else if |words| == 1 then Some((words[0], ""))
    else Some((words[0], words[1]))
  }

  /** A header has no identifier exactly when it is blank after ">"; an
      identifier is never empty and holds no whitespace, and a description
      does not start with whitespace. */
  lemma HeaderFieldsWords(text: string)
    ensures var r := HeaderFields(text);
      && (r.None? <==> forall i :: 0 <= i < |text| ==> IsSpace(text[i]))
      && (r.Some? ==> r.value.0 != "" && forall i :: 0 <= i < |r.value.0| ==> !IsSpace(r.value.0[i]))
      && (r.Some? ==> r.value.1 == "" || !IsSpace(r.value.1[0]))
  {
    var u := LStrip(text, Space);
    var words := SplitWhitespaceOnce(u);
    assert HeaderFields(text) == if |words| == 0 then None else if |words| == 1 then Some((words[0], "")) else Some((words[0], words[1]));
    LStripAllSpace(text);
    assert (forall i :: 0 <= i < |u| ==> IsSpace(u[i])) <==> u == [];
    SplitWhitespaceOnceWords(u);
  }

  /** The reader between two lines: the records yielded so far, the record
      being read, and the error that stopped it. */
  datatype ReadState = ReadState(done: seq<FastaRecord>, current: Option<FastaRecord>, failure: Option<FastaError>)

  const Start := ReadState([], None, None)

  /** The record being read, if any, as it is yielded. */
  function Pending(st: ReadState): (r: seq<FastaRecord>)
    ensures |r| <= 1
  {
    match st.current
    case None => []
    case Some(rec) => [rec]
  }

  /** One pass of the loop body of `FASTAReader.__iter__`. A draft is always
      truthy (the dataclass has no `__len__`), so `if draft` tests for a
      draft at all. */
  function Step(st: ReadState, raw: string): ReadState {
    StepLine(st, RStrip(raw, Among({'\n'})))
  }

  /** The loop body once the line's trailing newlines are stripped. */
  function StepLine(st: ReadState, line: string): ReadState {
    if st.failure.Some? then st
    else if StartsWith(line, ">") then
      var done := st.done + Pending(st);
      match HeaderFields(RemovePrefix(line, ">"))
      case None => ReadState(done, None, Some(NoIdentifier))
      case Some((id, description)) => ReadState(done, Some(FastaRecord(id, description, "")), None)
    else if line == "" then st
    else
      match st.current
      case None => ReadState(st.done, None, Some(ExpectedHeader(line)))
      case Some(rec) => ReadState(st.done, Some(rec.(sequence := rec.sequence + line)), None)
  }

  /** The loop over a list of lines from a given state. */
  function Run(st: ReadState, lines: seq<string>): ReadState {
    if lines == [] then st else Step(Run(st, lines[..|lines| - 1]), lines[|lines| - 1])
  }

  /** Reading one more line is one more pass of the loop body. */
  lemma RunStep(lines: seq<string>, i: nat)
    requires i < |lines|
    ensures Run(Start, lines[..i + 1]) == Step(Run(Start, lines[..i]), lines[i])
  {
    assert lines[..i + 1][..i] == lines[..i];
  }

  /** Everything iterating a reader over `lines` observes. */
  function Parse(lines: seq<string>): Output {
    var st := Run(Start, lines);
    Output(st.done + Pending(st), st.failure)
  }

  /** The record a reader's draft stands for, if it has one. */
  function Current(draft: FastaDraft?): Option<FastaRecord>
    reads draft
  {
    if draft == null then None else Some(draft.Finalize())
  }

  /** `FASTAReader.__iter__` (fasta.py:49-72): the lines in order, one loop
      body each, stopping at the first error; the draft still open at the end
      is yielded last. */
  method Read(lines: seq<string>) returns (out: Output)
    ensures out == Parse(lines)
  {
    var done: seq<FastaRecord> := [];
    var draft: FastaDraft? := null;
    var i := 0;
    while i < |lines|
      invariant 0 <= i <= |lines|
      invariant draft != null ==> fresh(draft)
      invariant Run(Start, lines[..i]) == ReadState(done, Current(draft), None)
    {
      RunStep(lines, i);
      var failure;
      done, draft, failure := ReadLine(done, draft, lines[i]);
      if failure.Some? {
        RunFailed(lines, i + 1);
        return Output(done, failure);
      }
      i := i + 1;
    }
    assert lines[..i] == lines;
    out := Output(done + (if draft == null then [] else [draft.Finalize()]), None);
  }

  /** One pass of the loop body of `FASTAReader.__iter__`, on the records
      yielded so far and the draft being filled. */
  method ReadLine(done: seq<FastaRecord>, draft: FastaDraft?, raw: string)
    returns (done': seq<FastaRecord>, draft': FastaDraft?, failure: Option<FastaError>)
    modifies draft
    ensures Step(ReadState(done, old(Current(draft)), None), raw) == ReadState(done', Current(draft'), failure)
    ensures draft' != null ==> draft' == draft || fresh(draft')
  {
    ghost var st := ReadState(done, Current(draft), None);
    done', draft', failure := done, draft, None;
    var line := RStrip(raw, Among({'\n'}));
    assert Step(st, raw) == StepLine(st, line);
    if StartsWith(line, ">") {
      if draft != null {
        done' := done + [draft.Finalize()];
      }
      match HeaderFields(RemovePrefix(line, ">")) {
        case None =>
          draft', failure := null, Some(NoIdentifier);
        case Some((id, description)) =>
          draft' := new FastaDraft(id, description);
          assert draft'.Finalize() == FastaRecord(id, description, "");
      }
    } else if line != "" {
      if draft == null {
        failure := Some(ExpectedHeader(line));
      } else {
        ghost var before := draft.Finalize();
        ConcatSnoc(draft.sequenceParts, line);
        draft.Append(line);
        assert draft.Finalize() == before.(sequence := before.sequence + line);
      }
    } else {
      assert StepLine(st, line) == st;
    }
  }

  /** Once the reader has failed, later lines change nothing. */
  lemma {:induction false} RunFailed(lines: seq<string>, n: nat)
    requires n <= |lines| && Run(Start, lines[..n]).failure.Some?
    ensures Run(Start, lines) == Run(Start, lines[..n])
    decreases |lines| - n
  {
    if n < |lines| {
      assert lines[..n + 1][..n] == lines[..n];
      RunFailed(lines, n + 1);
    } else {
      assert lines[..n] == lines;
    }
  }

  /** The loop over two stretches of lines is the loop over the second from
      where the first left off. */
  lemma {:induction false} RunAppend(st: ReadState, a: seq<string>, b: seq<string>)
    ensures Run(st, a + b) == Run(Run(st, a), b)
  {
    if b == [] {
      assert a + b == a;
    } else {
      assert (a + b)[..|a + b| - 1] == a + b[..|b| - 1];
      RunAppend(st, a, b[..|b| - 1]);
    }
  }

  /** An input with no non-empty line yields nothing and raises nothing. */
  lemma {:induction false} BlankInput(lines: seq<string>)
    requires forall i :: 0 <= i < |lines| ==> RStrip(lines[i], Among({'\n'})) == ""
    ensures Parse(lines) == Output([], None)
    ensures Run(Start, lines) == Start
  {
    if lines != [] {
      BlankInput(lines[..|lines| - 1]);
    }
  }

  /** A non-empty line before any header is rejected, whatever follows. */
  lemma SequenceBeforeHeader(line: string, rest: seq<string>)
    requires '\n' !in line && line != "" && !StartsWith(line, ">")
    ensures Parse([line + "\n"] + rest) == Output([], Some(ExpectedHeader(line)))
  {
    RStripNewline(line);
    assert Run(Start, [line + "\n"]) == Step(Start, line + "\n") by {
      assert [line + "\n"][..0] == [];
    }
    RunAppend(Start, [line + "\n"], rest);
    RunStaysFailed(Step(Start, line + "\n"), rest);
  }

  /** A header with no identifier is rejected; the record before it has
      already been yielded. */
  lemma NoIdentifierRejected(st: ReadState, blank: string)
    requires st.failure.None? && '\n' !in blank
    requires forall i :: 0 <= i < |blank| ==> IsSpace(blank[i])
    ensures Step(st, ">" + blank + "\n") == ReadState(st.done + Pending(st), None, Some(NoIdentifier))
  {
    RStripNewline(">" + blank);
    assert RemovePrefix(">" + blank, ">") == blank;
    HeaderFieldsWords(blank);
  }

  lemma {:induction false} RunStaysFailed(st: ReadState, lines: seq<string>)
    requires st.failure.Some?
    ensures Run(st, lines) == st
  {
    if lines != [] {
      RunStaysFailed(st, lines[..|lines| - 1]);
    }
  }

  // ---------------------------------------------------------------------
  // Writing

  /** `f">{id} {description}\n"`: the space is there even when the
      description is empty. */
  function HeaderLine(rec: FastaRecord): string {
    ">" + rec.id + " " + rec.description + "\n"
  }

  /** The pieces `sequence[offset : min(offset + width, len)]` for `offset`
      in `range(0, len, width)`. */
  function Chunks(s: string, width: nat): seq<string>
    requires width > 0
    decreases |s|
  {
    if s == [] then []
    else if |s| <= width then [s]
    else [s[..width]] + Chunks(s[width..], width)
  }

  /** The chunks concatenate to the sequence; each holds between one and
      `width` characters, exactly `width` but for the last; and each is made
      of the sequence's characters. */
  lemma {:induction false} ChunksSpec(s: string, width: nat)
    requires width > 0
    ensures var cs := Chunks(s, width);
      && Concat(cs) == s
      && (forall i :: 0 <= i < |cs| ==> 0 < |cs[i]| <= width)
      && (forall i :: 0 <= i < |cs| - 1 ==> |cs[i]| == width)
      && (forall i, c :: 0 <= i < |cs| && c in cs[i] ==> c in s)
    decreases |s|
  {
    var cs := Chunks(s, width);
    if s == [] {
    } else if |s| <= width {
      assert Concat([s]) == s + Concat([]);
    } else {
      var rest := Chunks(s[width..], width);
      ChunksSpec(s[width..], width);
      assert cs[1..] == rest;
      assert s == s[..width] + s[width..];
      forall i, c | 0 <= i < |cs| && c in cs[i]
        ensures c in s
      {
        if i > 0 {
          assert cs[i] == rest[i - 1];
        }
      }
    }
  }

  /** Every piece followed by a newline. */
  function Terminated(xs: seq<string>): (r: seq<string>)
    ensures |r| == |xs| && forall i :: 0 <= i < |xs| ==> r[i] == xs[i] + "\n"
  {
    seq(|xs|, i requires 0 <= i < |xs| => xs[i] + "\n")
  }

  /** The sequence lines the writer prints for a width of at least one. */
  function ChunkText(s: string, width: nat): string
    requires width > 0
  {
    Concat(Terminated(Chunks(s, width)))
  }

  /** The text one `write` prints, for a width of at least one. */
  function RecordText(rec: FastaRecord, width: nat): string
    requires width > 0
  {
    HeaderLine(rec) + ChunkText(rec.sequence, width)
  }

  /** The lines of that text. */
  function RecordLines(rec: FastaRecord, width: nat): seq<string>
    requires width > 0
  {
    [HeaderLine(rec)] + Terminated(Chunks(rec.sequence, width))
  }

  /** The first line of the sequence text, then the rest. */
  lemma ChunkTextFirst(s: string, width: nat)
    requires width > 0 && s != []
    ensures var k := if |s| <= width then |s| else width;
      ChunkText(s, width) == s[..k] + "\n" + ChunkText(s[k..], width)
  {
    var k := if |s| <= width then |s| else width;
    var cs := Chunks(s, width);
    assert cs == [s[..k]] + Chunks(s[k..], width) by {
      if |s| <= width {
        assert s[..k] == s && s[k..] == [];
      }
    }
    assert Terminated(cs) == [s[..k] + "\n"] + Terminated(Chunks(s[k..], width));
    assert Terminated(cs)[1..] == Terminated(Chunks(s[k..], width));
  }

  /** The sequence text from `offset` on: the chunk there, then the rest. */
  lemma ChunkTextAt(s: string, offset: nat, width: nat)
    requires width > 0 && offset < |s|
    ensures var end := if offset + width < |s| then offset + width else |s|;
      ChunkText(s[offset..], width) == s[offset..end] + "\n" + ChunkText(s[end..], width)
  {
    var end := if offset + width < |s| then offset + width else |s|;
    ChunkTextFirst(s[offset..], width);
    assert s[offset..][..end - offset] == s[offset..end];
    assert s[offset..][end - offset..] == s[end..];
  }

  /** `FASTAWriter`: the output stream as the text written to it so far. */
  class FastaWriter {
    var output: string
    const width: int

    constructor (width: int := 80)
      ensures output == "" && this.width == width
    {
      output := "";
      this.width := width;
    }

    /** fasta.py:94-101. The header is printed first; a zero width then
        fails (`range` with step 0), and a negative one prints no lines. */
    method Write(rec: FastaRecord) returns (ok: bool)
      modifies this
      ensures ok <==> width != 0
      ensures output == old(output) + if width > 0 then RecordText(rec, width) else HeaderLine(rec)
    {
      output := output + HeaderLine(rec);
      if width == 0 {
        return false;
      }
      if width > 0 {
        WriteChunks(rec.sequence);
      }
      return true;
    }

    /** The loop of fasta.py:96-101 over the offsets `0, width, 2 * width, …`
        below the sequence length. */
    method WriteChunks(s: string)
      requires width > 0
      modifies this
      ensures output == old(output) + ChunkText(s, width)
    {
      var n := |s|;
      var offset := 0;
      assert s[offset..] == s;
      while offset < n
        invariant 0 <= offset <= n
        invariant old(output) + ChunkText(s, width) == output + ChunkText(s[offset..], width)
      {
        var end := if offset + width < n then offset + width else n;
        ChunkTextAt(s, offset, width);
        output := output + s[offset..end];
        output := output + "\n";
        offset := end;
      }
      assert s[n..] == [] && Chunks([], width) == [];
      assert ChunkText(s[n..], width) == "";
    }
  }

  // ---------------------------------------------------------------------
  // Writing, then reading

  /** A record that reads back as itself from what the writer prints. */
  predicate Readable(rec: FastaRecord) {
    && rec.id != "" && (forall i :: 0 <= i < |rec.id| ==> !IsSpace(rec.id[i]))
    && '\n' !in rec.description && '\r' !in rec.description
    && (rec.description == "" || !IsSpace(rec.description[0]))
    && '\n' !in rec.sequence && '\r' !in rec.sequence && '>' !in rec.sequence
  }

  /** The header line reads as the record's identifier and description. */
  lemma HeaderRoundTrip(rec: FastaRecord)
    requires Readable(rec)
    ensures var line := RStrip(HeaderLine(rec), Among({'\n'}));
      && StartsWith(line, ">")
      && HeaderFields(RemovePrefix(line, ">")) == Some((rec.id, rec.description))
  {
    var text := rec.id + " " + rec.description;
    HeaderLineText(rec);
    assert RemovePrefix(">" + text, ">") == text;
    HeaderTextFields(rec.id, rec.description);
  }

  /** `rstrip("\n")` gives back the header line without its newline. */
  lemma HeaderLineText(rec: FastaRecord)
    requires Readable(rec)
    ensures RStrip(HeaderLine(rec), Among({'\n'})) == ">" + (rec.id + " " + rec.description)
  {
    var body := ">" + (rec.id + " " + rec.description);
    assert HeaderLine(rec) == body + "\n";
    assert '\n' !in body by {
      forall i | 0 <= i < |rec.id|
        ensures rec.id[i] != '\n'
      {
        assert !IsSpace(rec.id[i]);
      }
    }
    RStripNewline(body);
  }

  /** The text after ">" splits back into the identifier and the
      description. */
  lemma HeaderTextFields(id: string, description: string)
    requires id != "" && forall i :: 0 <= i < |id| ==> !IsSpace(id[i])
    requires description == "" || !IsSpace(description[0])
    ensures HeaderFields(id + " " + description) == Some((id, description))
  {
    var text := id + " " + description;
    assert LStrip(text, Space) == text by {
      assert text[0] == id[0];
    }
    TokenSpaceRest(id, description);
  }

  /** The sequence lines add their text to the record being read. */
  lemma {:induction false} SequenceLines(st: ReadState, parts: seq<string>)
    requires st.failure.None? && st.current.Some?
    requires forall i :: 0 <= i < |parts| ==> PlainChunk(parts[i])
    ensures Run(st, Terminated(parts))
         == ReadState(st.done, Some(st.current.value.(sequence := st.current.value.sequence + Concat(parts))), None)
  {
    var rec := st.current.value;
    if parts == [] {
      assert rec.(sequence := rec.sequence + "") == rec;
    } else {
      var init := parts[..|parts| - 1];
      var last := parts[|parts| - 1];
      SequenceLines(st, init);
      assert Terminated(parts)[..|parts| - 1] == Terminated(init);
      var mid := Run(st, Terminated(init));
      assert Run(st, Terminated(parts)) == Step(mid, last + "\n");
      RStripNewline(last);
      assert !StartsWith(last, ">");
      ConcatSnoc(init, last);
      assert init + [last] == parts;
      assert Step(mid, last + "\n") == mid.(current := Some(mid.current.value.(sequence := mid.current.value.sequence + last)));
      assert rec.sequence + Concat(parts) == (rec.sequence + Concat(init)) + last;
    }
  }

  /** The lines of one written record, taken from any state that has not
      failed: the record before it is done and this one is being read. */
  lemma RecordRead(st: ReadState, rec: FastaRecord, width: nat)
    requires width > 0 && st.failure.None? && Readable(rec)
    ensures Run(st, RecordLines(rec, width))
         == ReadState(st.done + Pending(st), Some(rec), None)
  {
    var cs := Chunks(rec.sequence, width);
    var started := ReadState(st.done + Pending(st), Some(FastaRecord(rec.id, rec.description, "")), None);
    HeaderOpens(st, rec);
    RunAppend(st, [HeaderLine(rec)], Terminated(cs));
    ChunkLinesRead(started, rec.sequence, width);
    assert started.current.value.(sequence := rec.sequence) == rec;
  }

  /** The chunk lines of a sequence without newline or ">" add exactly that
      sequence to the record being read. */
  lemma ChunkLinesRead(st: ReadState, s: string, width: nat)
    requires width > 0 && '\n' !in s && '>' !in s
    requires st.failure.None? && st.current.Some? && st.current.value.sequence == ""
    ensures Run(st, Terminated(Chunks(s, width)))
         == ReadState(st.done, Some(st.current.value.(sequence := s)), None)
  {
    var cs := Chunks(s, width);
    ChunksPlain(s, width);
    SequenceLines(st, cs);
    ChunksSpec(s, width);
    assert "" + Concat(cs) == s;
  }

  /** A written header line, from any state that has not failed, finishes
      the record being read and opens an empty one. */
  lemma HeaderOpens(st: ReadState, rec: FastaRecord)
    requires st.failure.None? && Readable(rec)
    ensures Run(st, [HeaderLine(rec)]) == ReadState(st.done + Pending(st), Some(FastaRecord(rec.id, rec.description, "")), None)
  {
    assert [HeaderLine(rec)][..0] == [];
    assert Run(st, [HeaderLine(rec)]) == Step(st, HeaderLine(rec));
    HeaderRoundTrip(rec);
  }

  /** The chunks of a sequence without newline or ">" are lines the reader
      takes as sequence lines. */
  lemma ChunksPlain(s: string, width: nat)
    requires width > 0 && '\n' !in s && '>' !in s
    ensures forall i :: 0 <= i < |Chunks(s, width)| ==> PlainChunk(Chunks(s, width)[i])
  {
    var cs := Chunks(s, width);
    ChunksSpec(s, width);
    forall i | 0 <= i < |cs|
      ensures PlainChunk(cs[i])
    {
      assert cs[i][0] in cs[i];
    }
  }

  /** A line the reader takes as a sequence line, once a newline is added. */
  predicate PlainChunk(line: string) {
    line != "" && '\n' !in line && line[0] != '>'
  }

  /** The header line ends in its only newline. */
  lemma HeaderLineTerminated(rec: FastaRecord)
    requires Readable(rec)
    ensures IsTerminatedLine(HeaderLine(rec))
  {
    var body := ">" + (rec.id + " " + rec.description);
    HeaderLineText(rec);
    assert HeaderLine(rec) == body + "\n";
    assert HeaderLine(rec)[..|body|] == body;
    assert '\r' !in rec.id by {
      forall i | 0 <= i < |rec.id|
        ensures rec.id[i] != '\r'
      {
        assert !IsSpace(rec.id[i]);
      }
    }
    assert '\r' !in body + "\n";
  }

  /** The lines the writer prints for a list of records. */
  function FileLines(recs: seq<FastaRecord>, width: nat): seq<string>
    requires width > 0
  {
    if recs == [] then []
    else FileLines(recs[..|recs| - 1], width) + RecordLines(recs[|recs| - 1], width)
  }

  /** The text the writer prints for a list of records. */
  function Written(recs: seq<FastaRecord>, width: nat): string
    requires width > 0
  {
    Concat(FileLines(recs, width))
  }

  lemma {:induction false} FileRead(recs: seq<FastaRecord>, width: nat)
    requires width > 0 && forall i :: 0 <= i < |recs| ==> Readable(recs[i])
    ensures var st := Run(Start, FileLines(recs, width)); st.done + Pending(st) == recs && st.failure.None?
  {
    if recs != [] {
      FileRead(recs[..|recs| - 1], width);
      FileReadStep(recs, width);
    }
  }

  /** One more record written after records read so far. */
  lemma FileReadStep(recs: seq<FastaRecord>, width: nat)
    requires width > 0 && recs != [] && Readable(recs[|recs| - 1])
    requires var st := Run(Start, FileLines(recs[..|recs| - 1], width));
      st.done + Pending(st) == recs[..|recs| - 1] && st.failure.None?
    ensures var st := Run(Start, FileLines(recs, width)); st.done + Pending(st) == recs && st.failure.None?
  {
    var init := recs[..|recs| - 1];
    var rec := recs[|recs| - 1];
    RunAppend(Start, FileLines(init, width), RecordLines(rec, width));
    RecordRead(Run(Start, FileLines(init, width)), rec, width);
    InitLast(recs);
  }

  /** Each line the writer prints ends in its only newline. */
  lemma {:induction false} FileLinesTerminated(recs: seq<FastaRecord>, width: nat)
    requires width > 0 && forall i :: 0 <= i < |recs| ==> Readable(recs[i])
    ensures forall i :: 0 <= i < |FileLines(recs, width)| ==> IsTerminatedLine(FileLines(recs, width)[i])
  {
    if recs != [] {
      var rec := recs[|recs| - 1];
      FileLinesTerminated(recs[..|recs| - 1], width);
      RecordLinesTerminated(rec, width);
    }
  }

  lemma RecordLinesTerminated(rec: FastaRecord, width: nat)
    requires width > 0 && Readable(rec)
    ensures var ls := RecordLines(rec, width);
      forall i :: 0 <= i < |ls| ==> IsTerminatedLine(ls[i])
  {
    HeaderLineTerminated(rec);
    var cs := Chunks(rec.sequence, width);
    ChunksPlain(rec.sequence, width);
    ChunksSpec(rec.sequence, width);
    forall i | 0 <= i < |cs|
      ensures IsTerminatedLine(cs[i] + "\n")
    {
      assert PlainChunk(cs[i]);
      assert (cs[i] + "\n")[..|cs[i]|] == cs[i];
      assert '\r' !in cs[i];
      assert '\r' !in cs[i] + "\n";
    }
  }

  /** Reading back the text the writer printed gives the same records, in
      order, and no error. */
  lemma WriteRead(recs: seq<FastaRecord>, width: nat)
    requires width > 0 && forall i :: 0 <= i < |recs| ==> Readable(recs[i])
    ensures Parse(SplitLines(Written(recs, width))) == Output(recs, None)
  {
    var ls := FileLines(recs, width);
    assert SplitLines(Written(recs, width)) == ls by {
      FileLinesTerminated(recs, width);
      SplitLinesConcat(ls);
    }
    FileRead(recs, width);
  }

  /** The writer prints the records' texts one after the other. */
  lemma WrittenSnoc(recs: seq<FastaRecord>, width: nat)
    requires width > 0 && recs != []
    ensures Written(recs, width) == Written(recs[..|recs| - 1], width) + RecordText(recs[|recs| - 1], width)
  {
    var rec := recs[|recs| - 1];
    ConcatAppend(FileLines(recs[..|recs| - 1], width), RecordLines(rec, width));
    assert RecordLines(rec, width)[1..] == Terminated(Chunks(rec.sequence, width));
  }

  /** A sequence no longer than the width is written on one line. */
  lemma ShortSequence(rec: FastaRecord, width: nat)
    requires 0 < |rec.sequence| <= width
    ensures RecordText(rec, width) == HeaderLine(rec) + rec.sequence + "\n"
  {
    var cs := Chunks(rec.sequence, width);
    assert cs == [rec.sequence];
    var t := Terminated(cs);
    assert t[0] == rec.sequence + "\n" && t[1..] == [];
    assert Concat(t) == rec.sequence + "\n" + Concat([]);
  }

  /** tests/fasta.py:62-66: the default width keeps a short sequence on one
      line. */
  lemma WriteShortExample()
    ensures RecordText(FastaRecord("SEQ", "A sequence.", "ATGC"), 80) == ">SEQ A sequence.\nATGC\n"
  {
    ShortSequence(FastaRecord("SEQ", "A sequence.", "ATGC"), 80);
    assert HeaderLine(FastaRecord("SEQ", "A sequence.", "ATGC")) == ">SEQ A sequence.\n";
  }

  /** tests/fasta.py:69-73: a width of 2 wraps the sequence. */
  lemma WriteLongExample()
    ensures RecordText(FastaRecord("SEQ", "A sequence.", "ATGC"), 2) == ">SEQ A sequence.\nAT\nGC\n"
  {
    var rec := FastaRecord("SEQ", "A sequence.", "ATGC");
    TwoLines(rec, 2);
    assert rec.sequence[..2] == "AT" && rec.sequence[2..] == "GC";
    assert HeaderLine(rec) == ">SEQ A sequence.\n";
  }

  /** A sequence longer than the width but no longer than twice the width is
      written on two lines, the first of exactly the width. */
  lemma TwoLines(rec: FastaRecord, width: nat)
    requires 0 < width < |rec.sequence| <= 2 * width
    ensures RecordText(rec, width) == HeaderLine(rec) + rec.sequence[..width] + "\n" + rec.sequence[width..] + "\n"
  {
    var s := rec.sequence;
    ChunkTextFirst(s, width);
    ChunkTextFirst(s[width..], width);
    assert s[width..][|s| - width..] == [] && Chunks([], width) == [];
  }

  /** tests/fasta.py:76-85: three records at the default width, one line
      each. */
  lemma WriteMultipleExample(recs: seq<FastaRecord>)
    requires recs == [FastaRecord("SEQ1", "Goose", "GAGAGA"), FastaRecord("SEQ2", "Walker", "ATAT"),
                      FastaRecord("SEQ3", "Moon landing", "CG")]
    ensures Written(recs, 80) == ">SEQ1 Goose\nGAGAGA\n" + ">SEQ2 Walker\nATAT\n" + ">SEQ3 Moon landing\nCG\n"
  {
    WrittenThree(recs, 80);
    FirstRecordExample();
    SecondRecordExample();
    ThirdRecordExample();
  }

  /** The three records of tests/fasta.py:76-85, each on one line. */
  lemma FirstRecordExample()
    ensures RecordText(FastaRecord("SEQ1", "Goose", "GAGAGA"), 80) == ">SEQ1 Goose\nGAGAGA\n"
  {
    ShortSequence(FastaRecord("SEQ1", "Goose", "GAGAGA"), 80);
  }

  lemma SecondRecordExample()
    ensures RecordText(FastaRecord("SEQ2", "Walker", "ATAT"), 80) == ">SEQ2 Walker\nATAT\n"
  {
    ShortSequence(FastaRecord("SEQ2", "Walker", "ATAT"), 80);
  }

  lemma ThirdRecordExample()
    ensures RecordText(FastaRecord("SEQ3", "Moon landing", "CG"), 80) == ">SEQ3 Moon landing\nCG\n"
  {
    ShortSequence(FastaRecord("SEQ3", "Moon landing", "CG"), 80);
  }

  /** tests/fasta.py:43-52: the same three records read back from that
      text. */
  lemma ReadMultipleExample(recs: seq<FastaRecord>)
    requires recs == [FastaRecord("SEQ1", "Goose", "GAGAGA"), FastaRecord("SEQ2", "Walker", "ATAT"),
                      FastaRecord("SEQ3", "Moon landing", "CG")]
    ensures Parse(SplitLines(">SEQ1 Goose\nGAGAGA\n" + ">SEQ2 Walker\nATAT\n" + ">SEQ3 Moon landing\nCG\n")) == Output(recs, None)
  {
    forall i | 0 <= i < |recs|
      ensures Readable(recs[i])
    {
      ReadableExample(recs[i]);
    }
    WriteRead(recs, 80);
    WriteMultipleExample(recs);
  }

  /** Three records written one after the other. */
  lemma WrittenThree(recs: seq<FastaRecord>, width: nat)
    requires width > 0 && |recs| == 3
    ensures Written(recs, width) == RecordText(recs[0], width) + RecordText(recs[1], width) + RecordText(recs[2], width)
  {
    var one := recs[..1];
    var two := recs[..2];
    assert Written(one, width) == RecordText(recs[0], width) by {
      WrittenSnoc(one, width);
      assert one[..0] == [];
    }
    assert Written(two, width) == Written(one, width) + RecordText(recs[1], width) by {
      WrittenSnoc(two, width);
      assert two[..1] == one;
    }
    assert Written(recs, width) == Written(two, width) + RecordText(recs[2], width) by {
      WrittenSnoc(recs, width);
    }
  }

  predicate Alphanumeric(c: char) {
    'A' <= c <= 'Z' || 'a' <= c <= 'z' || '0' <= c <= '9'
  }

  /** A record of letters and digits, with single spaces only inside its
      description, is readable. */
  lemma AlphanumericReadable(rec: FastaRecord)
    requires rec.id != "" && forall i :: 0 <= i < |rec.id| ==> Alphanumeric(rec.id[i])
    requires forall i :: 0 <= i < |rec.description| ==> Alphanumeric(rec.description[i]) || (i > 0 && rec.description[i] == ' ')
    requires forall i :: 0 <= i < |rec.sequence| ==> Alphanumeric(rec.sequence[i])
    ensures Readable(rec)
  {
  }

  lemma ReadableExample(rec: FastaRecord)
    requires rec in [FastaRecord("SEQ1", "Goose", "GAGAGA"), FastaRecord("SEQ2", "Walker", "ATAT"),
                     FastaRecord("SEQ3", "Moon landing", "CG")]
    ensures Readable(rec)
  {
    AlphanumericReadable(rec);
  }

  /** tests/fasta.py:55-59, for any identifier and sequence line: a header
      without a description, and a last line without a newline. */
  lemma ReadNoDescription(id: string, line: string)
    requires id != "" && forall i :: 0 <= i < |id| ==> !IsSpace(id[i])
    requires line != "" && '\n' !in line && '\r' !in line && line[0] != '>'
    ensures Parse(SplitLines(">" + id + "\n" + line)) == Output([FastaRecord(id, "", line)], None)
  {
    var lines := [">" + id + "\n", line];
    assert '\n' !in ">" + id && '\r' !in ">" + id + "\n" by {
      forall i | 0 <= i < |id|
        ensures id[i] != '\n' && id[i] != '\r'
      {
        assert !IsSpace(id[i]);
      }
    }
    assert SplitLines(">" + id + "\n" + line) == lines by {
      NewlinesPrefix(">" + id + "\n", line);
      NewlinesPlain(line);
      LinesOfFirst(">" + id, line);
      LinesOfUnterminated(line);
    }
    assert lines[..1] == [lines[0]] && lines[..1][..0] == [] && lines[..2] == lines;
    var header := ReadState([], Some(FastaRecord(id, "", "")), None);
    assert Run(Start, lines[..1]) == header by {
      HeaderStep(Start, id);
      IdentifierOnly(id);
    }
    assert Step(header, line) == ReadState([], Some(FastaRecord(id, "", line)), None) by {
      SequenceStep(header, line);
      assert "" + line == line;
    }
  }

  /** A sequence line without a newline adds its text to the record being
      read. */
  lemma SequenceStep(st: ReadState, line: string)
    requires st.failure.None? && st.current.Some?
    requires line != "" && '\n' !in line && line[0] != '>'
    ensures Step(st, line) == ReadState(st.done, Some(st.current.value.(sequence := st.current.value.sequence + line)), None)
  {
    assert line[|line| - 1] in line;
    assert RStrip(line, Among({'\n'})) == line;
    assert !StartsWith(line, ">");
  }

  /** A header line, from any state that has not failed: the record being
      read is done, and the fields after ">" open the next one or fail. */
  lemma HeaderStep(st: ReadState, text: string)
    requires st.failure.None? && '\n' !in text
    ensures var r := HeaderFields(text);
      Step(st, ">" + text + "\n")
        == if r.Some? then ReadState(st.done + Pending(st), Some(FastaRecord(r.value.0, r.value.1, "")), None)
           else ReadState(st.done + Pending(st), None, Some(NoIdentifier))
  {
    RStripNewline(">" + text);
    assert RemovePrefix(">" + text, ">") == text;
  }

  /** A header holding only an identifier has an empty description. */
  lemma IdentifierOnly(id: string)
    requires id != "" && forall i :: 0 <= i < |id| ==> !IsSpace(id[i])
    ensures HeaderFields(id) == Some((id, ""))
  {
    assert LStrip(id, Space) == id;
    TokenLengthOf(id, "");
    assert id + "" == id;
    assert id[|id|..] == "" && id[..|id|] == id;
  }
}

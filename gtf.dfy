/** The GTF reader and writer of gtf.py: the record loop of the GFF reader
    with the quoted attribute codec, and no version directive. */

module Gtf {
  import opened Results
  import opened Text
  import opened Features
  import opened Gff
  import GtfAttributes

  /** `GTFReader.__iter__`: straight into the record loop, no directive. */
  method Read(lines: seq<string>) returns (r: Result<Registry, GffError>)
    ensures r == Records(lines, Gtf)
  {
    r := ReadRecords(lines, Gtf);
  }

  /** The text the GTF writer prints for a list of features. */
  function Written(fs: seq<Feature>): string {
    Concat(Lines(fs, Gtf))
  }

  /** Reading back the text the GTF writer produced gives the features as
      drafts in order; no directive is needed. */
  lemma GtfWriteRead(fs: seq<Feature>)
    requires WritableAll(fs, Gtf)
    ensures Records(SplitLines(Written(fs)), Gtf) == Ok(Registry(Drafts(fs), FeatureIds(fs)))
  {
    LinesTerminated(fs, Gtf);
    SplitLinesConcat(Lines(fs, Gtf));
    RecordsOfWritten(fs, Gtf);
  }

  /** The same GTF lines that the GTF reader accepts are rejected by the GFF3
      reader, which wants the version directive before the first record. */
  lemma DirectiveNotNeeded(fs: seq<Feature>)
    requires WritableAll(fs, Gtf) && fs != []
    ensures Records(Lines(fs, Gtf), Gtf).Ok?
    ensures ReadGffLines(Lines(fs, Gtf)).Err? && ReadGffLines(Lines(fs, Gtf)).error.ExpectedVersion?
  {
    var ls := Lines(fs, Gtf);
    assert ReadGffLines(ls).Err? && ReadGffLines(ls).error.ExpectedVersion? by {
      var body := Join(Fields(fs[0], AttributeText(Gtf, fs[0].attributes)), "\t");
      WrittenBody(fs[0]);
      NotAComment(body, ls);
    }
    RecordsOfWritten(fs, Gtf);
  }

  /** A written GTF line is its columns, which hold no newline and do not
      start a comment, followed by one newline. */
  lemma WrittenBody(f: Feature)
    requires Writable(f, Gtf)
    ensures var body := Join(Fields(f, AttributeText(Gtf, f.attributes)), "\t");
      && FeatureLine(f, AttributeText(Gtf, f.attributes)) == body + "\n"
      && '\n' !in body && !StartsWith(body, "#")
  {
    var body := Join(Fields(f, AttributeText(Gtf, f.attributes)), "\t");
    ColumnsOfWritten(f, Gtf);
    WrittenNotComment(f, Gtf);
  }

  /** `GTFWriter`: the output stream as the text written to it so far. */
  class GtfWriter {
    var output: string

    /** The writer prints no header. */
    constructor ()
      ensures output == ""
    {
      output := "";
    }

    /** gtf.py:39-55, with each value of a list written as a pair of its own
        (see `GtfAttributes.EncodeAsWritten` for the text as written). */
    method Write(f: Feature)
      modifies this
      ensures output == old(output) + FeatureLine(f, GtfAttributes.Encode(f.attributes))
    {
      var fields := Fields(f, GtfAttributes.Encode(f.attributes));
      output := output + Join(fields, "\t");
      output := output + "\n";
    }
  }
}

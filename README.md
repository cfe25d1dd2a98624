# biofiles in Dafny

A model of the core of *biofiles*, a Python library that reads and writes
genome annotation and sequence files, together with proofs about it:

- **GFF3** (`gff.py`).
  - The reader waits for the `##gff-version 3` directive, then reads
    9-column tab-separated records.
  - It decodes the score, strand, phase and `key=value` attribute columns.
  - Each record gets an arrival index, and a record whose `Parent` was not
    seen earlier is rejected.
  - The writer turns the half-open coordinates of a feature back into the
    file's 1-based inclusive ones.
- **GTF** (`gtf.py`).
  - The same record loop runs with no directive.
  - Its attribute codec reads `key "value";` items: it unquotes one layer,
    unescapes `\"` and collapses a repeated key into a list of values.
  - The writer escapes quotes.
- **Features** (`types/feature.py`): immutable records that carry both
  coordinate conventions. Dafny datatype values are immutable, which matches
  the frozen dataclasses.
- **Relation schema** (`types/feature_v2.py`).
  - `relation()` creates a linked forward/inverse pair of objects.
  - Class creation finds the id attribute, attaches relation classes and
    sets the type, starts and ends filters.
- **GENCODE dialect** (`dialects/gencode.py`): the eight feature classes as a
  table of values. It comes with what that table implies for classification
  by type tag, ids and foreign keys.
- **FASTA** (`fasta.py`).
  - The reader splits a header into an id and a description and
    concatenates sequence lines.
  - The writer wraps the sequence at a fixed width.

Input files are modelled as the sequence of lines that Python's file
iteration yields on a file opened in text mode, each still ending in `"\n"`.
`Text.SplitLines` produces those lines from a text. It first translates
`"\r\n"` and a lone `"\r"` into `"\n"` (`Text.Newlines`), as text mode's
universal newlines do, and then breaks the text after each `"\n"`. A write-then-read round trip is proved for each
format:

- `Gff.GffWriteRead` for GFF3;
- `Gtf.GtfWriteRead` for GTF;
- `Fasta.WriteRead` for FASTA.

Python's `int()` is modelled as a concrete decimal parser. It strips
surrounding whitespace and accepts an optional sign and ASCII digits, with
single `_` separators allowed between digits. The whitespace it strips is
CPython's: `str.isspace()` characters except the four ASCII separators
U+001C to U+001F (`Text.IsIntSpace`).

A Python `dict` is modelled as a sequence of key/value pairs with distinct
keys, in insertion order (`Dicts`).

Errors are modelled as values of a `Result` datatype.

## Model

| member | source | states |
|---|---|---|
| Gff.ParseScore | biofiles/gff.py:81-89 | "." decodes to no score, and any other token is kept as the score |
| Gff.ParseStrand | biofiles/gff.py:91-96 | "+" and "-" decode to that strand and "." to none. Everything else is rejected with the strand error for the line |
| Gff.ParsePhase | biofiles/gff.py:98-106 | "." decodes to none, and otherwise to the value of `int()`. A token `int()` rejects gives the phase error for the line |
| Gff.FewTabs | biofiles/gff.py:34-36 | a line with fewer than 8 tabs splits into fewer than 9 columns, one more than its tab count |
| Gff.ExtraTabsInAttributes | biofiles/gff.py:34 | at most 8 splits are made, so tabs after the eighth stay inside the attribute column |
| Gff.KeyValue | biofiles/gff.py:112 | a part splits exactly when it holds "=". It splits at the first "=", so the key has none and the value may contain more |
| Gff.KeyValueOf | biofiles/gff.py:112 | splitting `k=v` gives back `k` and `v` whenever `k` has no "=" |
| Gff.DecodeColumnar | biofiles/gff.py:108-113 | the column is rejected exactly when some ";"-separated part of it has no "=" |
| Gff.AssignedGet | biofiles/gff.py:109-113 | a repeated key holds its last value, and an absent key has none |
| Gff.AssignedKeys | biofiles/gff.py:109-113 | keys keep the order of their first occurrence, each appearing once |
| Gff.EmptyColumnRejected | biofiles/gff.py:108-113 | an empty attribute column is an error, because its single empty part has no "=" |
| Gff.ColumnarRoundTrip | biofiles/gff.py:108-113 | decoding the writer's `k=v;...` text returns the same non-empty, single-valued attribute list. Keys must avoid "=" and ";", and values must avoid ";" |
| Gff.AttributesRoundTrip | biofiles/gff.py:108-113 | under either dialect's parser, decoding the written attribute text gives back the attributes |
| Gff.DecodeAttributes | biofiles/gff.py:51 | a decoded attribute list has distinct keys |
| Gff.DecodeHead | biofiles/gff.py:33-51 | a line that does not split into 9 columns is rejected with the column error, and a decoded head has distinct attribute keys |
| Gff.DecodeRecord | biofiles/gff.py:33-73 | a decoded record carries the given arrival index, and its `Parent`, if any, is among the earlier IDs. A line without 9 columns gives the column error |
| Gff.FewTabsRejected | biofiles/gff.py:34-36 | a data line with fewer than 8 tabs, the empty line included, is rejected |
| Gff.NoParentNoCheck | biofiles/gff.py:53-60 | a record without `Parent` decodes the same whatever IDs came before |
| Gff.ReadRecords | biofiles/gff.py:27-79 | the record loop returns exactly the registry that the line-by-line definition `Records` gives |
| Gff.RecordsFailure | biofiles/gff.py:27-79 | once a prefix of the input fails, the whole input fails with the same error |
| Gff.RecordsIndexed | biofiles/gff.py:29-75 | drafts are numbered 0, 1, 2, … in arrival order, and comments take no number. The known IDs are exactly the IDs of the registered drafts |
| Gff.ReadStepGrows | biofiles/gff.py:30-75 | one line either leaves the registry as it was (a comment) or adds one draft numbered after the others |
| Gff.RecordsLastDraft | biofiles/gff.py:53-75 | a prefix of an accepted input is accepted, and the last line adds at most one draft, checked against the earlier IDs |
| Gff.RecordsParentsEarlier | biofiles/gff.py:53-60 | in an accepted input, every draft's `Parent` is the ID of an earlier draft |
| Gff.CommentSkipped | biofiles/gff.py:31-32 | appending a line that starts with "#" changes nothing, and a later `##gff-version` line is one of these |
| Gff.ReadGff | biofiles/gff.py:13-25 | the directive loop returns exactly what the definition `ReadGffLines` gives |
| Gff.OnlyComments | biofiles/gff.py:14-25 | input made only of comments, or empty input, yields nothing and raises nothing |
| Gff.NotAComment | biofiles/gff.py:23-25 | before the directive, a line that is not a comment is rejected, the blank line included |
| Gff.Directive | biofiles/gff.py:17-22 | the directive is accepted only for version exactly "3", and the record loop then reads the rest. Any other version is rejected, naming that version |
| Gff.HeaderFirst | biofiles/gff.py:13-119 | text beginning with the writer's header line reads as the record loop over the rest |
| Gff.Fields | biofiles/gff.py:122-132 | the writer produces exactly 9 fields |
| Gff.DraftOf | biofiles/gff.py:62-73 | the draft a feature should read back as carries the feature's 1-based coordinates whenever its two coordinate pairs agree |
| Gff.ScoreRoundTrip | biofiles/gff.py:81-89 | the written score token reads back as itself, and "." reads back as none |
| Gff.StrandRoundTrip | biofiles/gff.py:91-96 | the written strand reads back as the same strand or none |
| Gff.PhaseRoundTrip | biofiles/gff.py:98-106 | the written phase reads back as the same integer or none |
| Gff.LineRoundTrip | biofiles/gff.py:33-134 | a written feature line decodes to the feature's draft |
| Gff.WrittenNotComment | biofiles/gff.py:31-134 | a written feature line never starts with "#" |
| Gff.RecordsOfWritten | biofiles/gff.py:27-134 | the lines written for a list of features, where each `Parent` names an earlier ID, read back as those features' drafts, numbered in order, with their IDs |
| Gff.GffWriteRead | biofiles/gff.py:13-134 | a whole GFF3 file written by the writer (header, then one line per feature) reads back as the features' drafts |
| Gff.Gff3Writer.constructor | biofiles/gff.py:117-119 | the version directive is written once, at construction |
| Gff.Gff3Writer.Write | biofiles/gff.py:121-134 | appends the feature's 9 tab-joined fields and a newline to the output |
| Gtf.Read | biofiles/gtf.py:13-15 | the GTF reader goes straight to the record loop and uses the GTF attribute parser |
| Gtf.DirectiveNotNeeded | biofiles/gtf.py:13-15 | written GTF lines are accepted by the GTF reader, and the same lines are rejected by the GFF reader for lack of a directive |
| Gtf.GtfWriteRead | biofiles/gtf.py:13-55 | a GTF file written by the writer reads back as the features' drafts (corrected writer, see Findings) |
| Gtf.GtfWriter.Write | biofiles/gtf.py:38-55 | appends the 9 tab-joined fields, with the quoted attribute text, and a newline (corrected writer, see Findings) |
| GtfAttributes.EscapeQuotes | biofiles/gtf.py:50 | escaping never produces a leading quote and never introduces ";" |
| GtfAttributes.UnescapeEscape | biofiles/gtf.py:24-50 | unescaping an escaped string returns the original, for every string |
| GtfAttributes.Quote | biofiles/gtf.py:50 | a quoted value starts and ends with a double quote, and quoting adds no ";" |
| GtfAttributes.QuoteRoundTrip | biofiles/gtf.py:24-50 | removing one leading and one trailing quote and unescaping returns the value that was quoted |
| GtfAttributes.Extend | biofiles/gtf.py:25-28 | adding a value to a key already present makes it a list |
| GtfAttributes.GroupedSpec | biofiles/gtf.py:21-30 | the grouped dict keeps each key at its first position, has distinct keys, and maps each key to its one value, or to the list of all its values in order when it is repeated |
| GtfAttributes.GroupedAppend | biofiles/gtf.py:25-30 | one more pair updates the grouped dict exactly as the loop body does |
| GtfAttributes.Decode | biofiles/gtf.py:17-35 | a decoded dict has distinct keys, and the error quotes the whole attribute string |
| GtfAttributes.DecodeFails | biofiles/gtf.py:20-35 | decoding fails exactly when some trimmed ";"-separated part has no value after its key, an empty part included |
| GtfAttributes.ParseAttributes | biofiles/gtf.py:17-35 | the in-place loop over the parts returns exactly the grouped dict, or the error |
| GtfAttributes.DecodeRendered | biofiles/gtf.py:23-50 | one rendered `key "value"` item, with or without its leading space, decodes to the pair |
| GtfAttributes.EncodeDecode | biofiles/gtf.py:17-52 | decoding the written attribute text returns the attributes. This needs non-empty keys without whitespace or ";", values without ";", and lists of at least two values |
| GtfAttributes.EncodeAsWritten | biofiles/gtf.py:49-52 | the writer as written succeeds exactly when every value is a single string, and then it writes `Encode` |
| GtfAttributes.WriteReadSingle | biofiles/gtf.py:24-52 | for single-valued attributes, the writer as written succeeds and its text decodes back |
| GtfAttributes.RepeatedTagNotWritable | biofiles/gtf.py:25-52 | a record with a repeated `tag` decodes to a list, which the writer as written cannot write back |
| Features.HalfOpen | biofiles/types/feature.py:12-18 | start_c = start_original − 1 and end_c = end_original, so end_c − start_c is the feature's length, and converting back gives the original pair |
| Features.Inclusive | biofiles/gff.py:126-127 | the writer's start_c + 1 and end_c span end_c − start_c positions |
| Features.HalfOpenInclusive | biofiles/types/feature.py:12-18 | converting half-open to inclusive and back is the identity |
| Features.Length | biofiles/types/feature.py:12-18 | on a feature whose two coordinate pairs agree, end_c − start_c = end_original − start_original + 1 |
| Fasta.FastaDraft.constructor | biofiles/fasta.py:17-21 | a new draft has the header's id and description and no sequence lines |
| Fasta.FastaDraft.Append | biofiles/fasta.py:17-28 | appends a line, keeps id and description, and extends the finalized sequence by exactly that line |
| Fasta.HeaderFieldsWords | biofiles/fasta.py:56-65 | a header has no identifier exactly when it is blank after ">". An identifier is never empty and holds no whitespace, and a description does not start with whitespace |
| Fasta.IdentifierOnly | biofiles/fasta.py:60-61 | a lone identifier gets the description "" |
| Fasta.ReadLine | biofiles/fasta.py:51-70 | one iteration of the reader loop, updating the draft in place, makes exactly the step the definition `Step` gives |
| Fasta.Read | biofiles/fasta.py:49-72 | the reader returns exactly the records and the failure that the definition `Parse` gives |
| Fasta.RunStep | biofiles/fasta.py:51-70 | reading one more line is one more step |
| Fasta.RunFailed | biofiles/fasta.py:63-69 | once reading fails, later lines change nothing |
| Fasta.BlankInput | biofiles/fasta.py:52-72 | input whose lines are all empty yields no records |
| Fasta.SequenceBeforeHeader | biofiles/fasta.py:67-69 | a non-empty line before any header is rejected |
| Fasta.NoIdentifierRejected | biofiles/fasta.py:53-65 | a header with no identifier first yields the pending record, then fails |
| Fasta.SequenceStep | biofiles/fasta.py:67-70 | a sequence line is appended to the current record |
| Fasta.HeaderStep | biofiles/fasta.py:53-66 | a header yields the pending record and opens a new one with the split id and description |
| Fasta.ReadNoDescription | biofiles/fasta.py:53-72 | `>SEQ` followed by a sequence line and no final newline reads as one record with description "" |
| Fasta.ChunksSpec | biofiles/fasta.py:96-101 | the chunks concatenate to the sequence. Each is non-empty and at most `width` long, and all but the last are exactly `width` |
| Fasta.FastaWriter.constructor | biofiles/fasta.py:76-80 | a new writer has the given width and has written nothing |
| Fasta.FastaWriter.Write | biofiles/fasta.py:94-101 | writes `>id description`, then the chunk lines. Width 0 fails after the header, and a negative width writes only the header |
| Fasta.FastaWriter.WriteChunks | biofiles/fasta.py:96-101 | the offset loop writes exactly the chunks, each followed by a newline |
| Fasta.ShortSequence | biofiles/fasta.py:94-101 | a sequence no longer than the width is written on one line |
| Fasta.TwoLines | biofiles/fasta.py:96-101 | a sequence of up to two widths is split after `width` characters |
| Fasta.WriteShortExample | tests/fasta.py:62-66 | the short-sequence writer example gives the expected text |
| Fasta.WriteLongExample | tests/fasta.py:69-73 | the width-2 writer example gives the expected text |
| Fasta.WriteMultipleExample | tests/fasta.py:76-85 | three records written one after another give the expected text |
| Fasta.ReadMultipleExample | tests/fasta.py:43-52 | the expected text reads back as the three records |
| Fasta.HeaderRoundTrip | biofiles/fasta.py:53-66 | a written header reads back as its id and description |
| Fasta.RecordRead | biofiles/fasta.py:49-101 | the lines written for one record read as that record |
| Fasta.FileRead | biofiles/fasta.py:49-101 | the lines of several written records read back as those records, in order, without failure |
| Fasta.WriteRead | biofiles/fasta.py:49-101 | reading a written file returns the same records. The id must be non-empty without whitespace, the description must not start with whitespace, and neither field nor the sequence may hold a newline or a carriage return. The sequence must hold no ">" |
| Schema.Relation.constructor | biofiles/types/feature_v2.py:7-18 | a new relation names its id attribute and has no inverse and no class yet |
| Schema.InverseRelation.constructor | biofiles/types/feature_v2.py:21-25 | a new inverse relation points at its forward relation, holds the one-to-one flag and has no class yet |
| Schema.NewRelation | biofiles/types/feature_v2.py:130-137 | `relation()` returns two new objects that point at each other. The forward one names the source attribute, the inverse one holds the one-to-one flag (default false), and neither has a class |
| Schema.FindIdAttribute | biofiles/types/feature_v2.py:61-72 | the loop over the namespace returns the id attribute: "" without an `id_field`, its attribute name with one, and an error for a second one |
| Schema.IdFieldsMembers | biofiles/types/feature_v2.py:64-66 | an attribute name is among the id fields exactly when some namespace entry is an `id_field` with it |
| Schema.AsWrittenAgrees | biofiles/types/feature_v2.py:61-72 | when no id field names "", the code as written and the intended check accept the same namespaces with the same result. The code as written fails by reading `__name__` from a string |
| Schema.EmptyIdNameSlipsThrough | biofiles/types/feature_v2.py:66-70 | an `id_field("")` before another id field is not noticed by the code as written |
| Schema.SecondIdFieldAsWritten | biofiles/types/feature_v2.py:66-69 | a second id field after a named one fails with an attribute error, not the intended type error |
| Schema.FillRelationClasses | biofiles/types/feature_v2.py:74-84 | every forward relation's class becomes the class, an annotated one also sets its inverse's class to the annotation, and every inverse relation's class becomes the class. It stops at the first annotated relation without an inverse |
| Schema.AttachEntry | biofiles/types/feature_v2.py:76-84 | one namespace entry changes the relation classes exactly as `Attach` says, and fails exactly when the entry is broken |
| Schema.Stop | biofiles/types/feature_v2.py:75-84 | the first broken entry, before which all entries are attached |
| Schema.InverseClassUniform | biofiles/types/feature_v2.py:74-84 | when all entries that set an inverse's class agree, that class is the result |
| Schema.BothSidesAgree | biofiles/types/feature_v2.py:74-84 | in the GENCODE pattern, where the forward side sets the inverse's class to the class that declares it, the inverse's class ends up the same whichever class is created first |
| Schema.FilterTypeInherited | biofiles/types/feature_v2.py:93-94 | without a type given, the type filter is the inherited one |
| Schema.FillFilters | biofiles/types/feature_v2.py:86-100 | the type filter is set only when given. The starts and ends filters are reset, then set to the relations of the given fields. A field without a relation stops it there |
| Schema.FeatureType.constructor | biofiles/types/feature_v2.py:42-54 | the class object holds the settled name, annotations, id attribute and filters |
| Schema.NewFeatureType | biofiles/types/feature_v2.py:42-59 | the id attribute comes first, and an id error changes no relation. Then come the relation classes, then the filters, and the class is returned only when all three succeed (with the corrected id check, see Findings) |
| Gencode.Def | biofiles/dialects/gencode.py:45-100 | the definition looked up for a class is the one that declares that class |
| Gencode.Classify | biofiles/dialects/gencode.py:103-112 | the class chosen for a tag is listed and has that tag |
| Gencode.ClassifyEach | biofiles/dialects/gencode.py:103-112 | a listed class whose tag no other class shares is chosen for its tag |
| Gencode.TagsDiffer | biofiles/dialects/gencode.py:45-100 | the eight type tags are pairwise distinct |
| Gencode.Listed | biofiles/dialects/gencode.py:45-112 | every class is in the dialect list and declares no starts or ends filter |
| Gencode.ClassOfTag | biofiles/dialects/gencode.py:45-112 | each class is what its own tag classifies to |
| Gencode.ClassifiedByTag | biofiles/dialects/gencode.py:45-112 | classification by tag alone is unambiguous for every class |
| Gencode.UnknownTag | biofiles/dialects/gencode.py:103-112 | a tag of no class classifies to nothing |
| Gencode.IdsByTag | biofiles/dialects/gencode.py:46-98 | gene is identified by gene_id and transcript by transcript_id. Exon, CDS, start and stop codons are identified by (transcript_id, exon_number). Selenocysteine and UTR have no id |
| Gencode.WellFormed | biofiles/dialects/gencode.py:19-100 | every field is an attribute, a forward end naming the class its pair points at, or a bound inverse end, each in the class the pairs say |
| Gencode.SlotShapes | biofiles/dialects/gencode.py:19-74 | an inverse slot holds one optional feature exactly when its pair is one-to-one, and a list exactly when it is not. So exon→cds and transcript→start_codon/stop_codon hold one feature, and gene→transcripts, transcript→exons and transcript→utrs hold lists. A forward field always names one class |
| Gencode.UnboundInverses | biofiles/dialects/gencode.py:20-49 | only bound inverses appear in a class, so a gene lists its transcripts and no exons or UTRs |
| Gencode.BothEndsAgree | biofiles/dialects/gencode.py:19-100 | a forward field names the class holding the matching inverse, and that inverse lists the declaring class |
| Gencode.ForeignKey | biofiles/dialects/gencode.py:19-70 | forward relations read gene_id, transcript_id or exon_id. The key is the target's single id except for exon_id, whose target, Exon, has a composite id |
| Gencode.UnusedPairs | biofiles/dialects/gencode.py:27-34 | the 5' and 3' UTR pairs are declared but used by no class |
| Graph.AttrTexts | biofiles/dialects/gencode.py:70 | all attributes of a composite key are read, or none; when read, entry k is the text of the k-th attribute |
| Graph.ReferenceUnique | biofiles/types/feature_v2.py:9-31 | with type-unique ids a foreign key refers to at most one feature |
| Graph.ReferrersDisjoint | biofiles/types/feature_v2.py:21-31 | different features have disjoint inverse slots |
| Graph.OneToOneEffective | biofiles/dialects/gencode.py:24-42 | of the seven one-to-one pairs only start_codon_transcript and stop_codon_transcript can fill a slot: the one-to-one constraint holds exactly when it holds for those two |
| Graph.KeyJoin | biofiles/types/feature_v2.py:9-13 | for gene_id and transcript_id pairs, a reference is a join: both features hold the same single value for the attribute |
| Graph.ExonKeyNeverRefers | biofiles/dialects/gencode.py:24-70 | under the foreign-key reading of a relation, a pair reading exon_id never refers to anything, so every exon's `cds` slot stays empty |
| Graph.AdmittedClass | biofiles/types/feature_v2.py:33-40 | in the GENCODE dialect a class admits a feature exactly when it is the class the feature's type tag classifies to |
| Text.SplitWhitespaceOnceWords | biofiles/fasta.py:57 | `split(maxsplit=1)` gives nothing for blank text. Otherwise it gives a token without whitespace, then possibly a rest that does not start with whitespace |
| Text.SplitOnce | biofiles/gff.py:112 | `split("=", 1)` gives two pieces exactly when "=" occurs, and the first piece has none |
| Text.SplitNCount | biofiles/gff.py:34 | `split(c, n)` gives one piece more than the number of separators, capped at n + 1 |
| Text.SplitNJoin | biofiles/gff.py:34 | splitting tab-joined fields (at most n splits) returns the fields |
| Text.SplitJoin | biofiles/gff.py:111 | splitting a joined list on a separator absent from its items returns the list |
| Text.SplitLinesConcat | biofiles/gff.py:30-134 | text-mode line iteration (universal newlines) over a text gives back the newline-terminated lines it was written from, when they hold no `"\r"` |
| Text.NewlinesPlain | biofiles/gff.py:30-134 | universal newline translation leaves a text without `"\r"` unchanged |
| Text.IntRoundTrip | biofiles/gff.py:67-127 | `int(str(n)) == n` for every integer (Python's digit limit is under Left out) |
| Text.IntSkipsSpace | biofiles/gff.py:67-68 | `int()` skips whitespace, non-ASCII whitespace included, on both sides of a number |
| Text.IntKeepsSeparator | biofiles/gff.py:67-68 | `int()` fails on text starting with one of U+001C to U+001F, although `isspace()` accepts them |
| Text.ParseSigned | biofiles/gff.py:67-68 | a minus sign followed by digits parses to the negated value |
| Text.RStripNewline | biofiles/gff.py:16-33 | `rstrip("\n")` removes exactly the line terminator |
| Text.LStrip | biofiles/fasta.py:56 | `lstrip` removes a prefix made only of stripped characters and leaves no leading stripped character |
| Text.RStrip | biofiles/fasta.py:52 | `rstrip` removes a suffix made only of stripped characters and leaves no trailing stripped character |
| Dicts.GetPut | biofiles/gtf.py:25-30 | after assigning a key, reading it gives the new value and other keys are unchanged |
| Dicts.Put | biofiles/gtf.py:25-30 | assigning a new key appends it, and assigning an existing key keeps the key order |
| Dicts.DistinctKeysPut | biofiles/gtf.py:25-30 | assignment keeps keys distinct |

## Left out

- The score's float parsing and printing are left out (gff.py:84-89, 128; gtf.py:46). The score is kept as its text token, and only "." ↔ none is modelled.
- `Parent` is read as one ID, as the code reads it, not as the comma-separated list of the GFF3 standard. Percent-decoding is not done either, as in the code.
- `drafts.by_id` is modelled as the set of single `ID` values of the earlier records. `FeatureDrafts`, `FeatureDraft`, `_finalize_drafts` and class dispatch live in `biofiles/utility/feature.py`, which is not part of this model. The GFF and GTF readers therefore yield the list of drafts, not finished features.
- The GENCODE feature graph (which feature is linked to which) is stated as predicates over a finished feature list (`Graph`). The source does not resolve relations yet (`types/feature_v2.py:56-57`), and the builder is not part of this model.
- `biofiles.common` (the `Reader`/`Writer` bases, `Strand`) is not part of this model. File handles, `open`, context managers and the streaming window that is commented out (gff.py:54-56, 77) are left out. Writers accumulate their output in a string field.
- Command-line `__main__` blocks (gff.py:140-176, gtf.py:58-87) are left out. They are file opening and printing.
- `tmap.py`, `types/transcript_mapping.py`, `dialects/genomic_base.py` and the RefSeq dialect are left out. They hold no logic of the core.
- Python's metaclass machinery is modelled with classes as names. `__annotations__` becomes a map from field names to annotation names, and the type filter's lookup through base classes is the list of base classes in order.
- Schema.NewFeatureType: Python allocates the class object before the id check. The model allocates it last, which no caller can tell apart, since every error drops it.
- Schema.NewFeatureType uses the pure `FilterOf` for its filters instead of calling `FillFilters` on the new object. `FillFilters` itself models `_fill_filters` on an existing object.
- gencode.py imports `no_id_field`, which feature_v2.py does not define (gencode.py:6). It also passes a tuple to `id_field`, which takes a string (gencode.py:70). The table models what these evidently mean: no id, and a composite id.
- Gff.ValueText: a list value is written as `['a', 'b']`, which is Python's `str` of a list only for items without quotes, backslashes or non-printable characters. `repr`'s choice of double quotes and its escapes are left out.
- Text.ParseInt: `int()` is modelled on ASCII digits. Python also accepts the other Unicode decimal digits, which are left out.
- Text.IntRoundTrip: Python 3.11 and later refuse to convert a number of more than 4300 digits, in `int()` and in `str()`. `Text.ParseInt` and `Text.IntToString` have no such limit, so the round trip also covers integers Python would refuse.
- Features: `parent`, `children` and `Exon.gene` are held as indices into a feature list rather than as object references, since datatype values cannot form cycles.

## Findings

| source | as written | input that shows it | evidently intended | confidence | as-written member | corrected member |
|---|---|---|---|---|---|---|
| biofiles/gtf.py:25-30, 49-52 | the reader turns a repeated key into a list, and the writer calls `v.replace` on each value, which fails on a list | a record with `tag "basic"; tag "CCDS";`, as GENCODE files have | each value of a list is written as its own `key "value"` item, so that reading it back gives the list again | not executed | GtfAttributes.EncodeAsWritten, GtfAttributes.RepeatedTagNotWritable | GtfAttributes.Encode, GtfAttributes.EncodeDecode |
| biofiles/types/feature_v2.py:64-70 | a second `id_field` is detected by the truthiness of the first one's name, and the error message reads `__name__` from that string | a namespace with `id_field("")` and then `id_field("gene_id")` is accepted; `id_field("a")` then `id_field("b")` fails with an attribute error | any second `id_field` is rejected with the intended type error | not executed | Schema.IdAttributeAsWritten, Schema.EmptyIdNameSlipsThrough, Schema.SecondIdFieldAsWritten | Schema.FindIdAttribute, Schema.IdFieldsMembers |

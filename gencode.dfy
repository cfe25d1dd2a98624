/** The GENCODE dialect of dialects/gencode.py as a schema table: the
    `relation()` pairs it declares, its eight feature classes with their type
    tags, ids, attribute fields and relation fields, and the ordered list of
    classes the reader chooses from. Classes, attributes and pairs are named
    by enumerations; tags and attribute keys keep their text. */
module Gencode {
  import opened Results

  /** The eight feature classes. */
  datatype FeatureClass = Gene | Transcript | Selenocysteine | Exon | Cds | Utr | StartCodon | StopCodon

  /** The GTF/GFF attributes the dialect reads. */
  datatype Attr = GeneId | GeneType | GeneName | TranscriptId | TranscriptType | TranscriptName | ExonId | ExonNumber

  /** The attribute key as it appears in a file. */
  function AttrKey(a: Attr): string {
    match a
    case GeneId => "gene_id"
    case GeneType => "gene_type"
    case GeneName => "gene_name"
    case TranscriptId => "transcript_id"
    case TranscriptType => "transcript_type"
    case TranscriptName => "transcript_name"
    case ExonId => "exon_id"
    case ExonNumber => "exon_number"
  }

  /** What a class says about its id: no id field, one attribute, or a tuple
      of attributes. The source passes the tuple to `id_field`, whose
      parameter is one attribute name, and imports a `no_id_field` that
      types/feature_v2.py does not define; this is the intent. */
  datatype IdSpec = NoId | Single(attr: Attr) | Composite(attrs: seq<Attr>)

  /** The `relation()` statements of gencode.py:19-42, each named by the
      name its forward end is bound to. */
  datatype PairName =
    | TranscriptGene | SelenocysteineGene | SelenocysteineTranscript | ExonTranscript | ExonGene | CdsExon
    | UtrTranscript | UtrGene | FivePrimeUtrTranscript | FivePrimeUtrGene | ThreePrimeUtrTranscript | ThreePrimeUtrGene
    | StartCodonTranscript | StartCodonExon | StopCodonTranscript | StopCodonExon

  /** The `source` of each pair: the attribute holding the related feature's id. */
  function Source(p: PairName): Attr {
    match p
    case TranscriptGene | SelenocysteineGene | ExonGene | UtrGene | FivePrimeUtrGene | ThreePrimeUtrGene => GeneId
    case SelenocysteineTranscript | ExonTranscript | UtrTranscript | FivePrimeUtrTranscript | ThreePrimeUtrTranscript
       | StartCodonTranscript | StopCodonTranscript => TranscriptId
    case CdsExon | StartCodonExon | StopCodonExon => ExonId
  }

  /** The `one_to_one` flag of each pair. */
  function OneToOne(p: PairName): bool {
    match p
    case CdsExon | FivePrimeUtrTranscript | ThreePrimeUtrTranscript | StartCodonTranscript | StartCodonExon
       | StopCodonTranscript | StopCodonExon => true
    case _ => false
  }

  /** Whether the inverse end is kept under a name rather than thrown into `_`. */
  function InverseBound(p: PairName): bool {
    match p
    case TranscriptGene | ExonTranscript | CdsExon | UtrTranscript | FivePrimeUtrTranscript | ThreePrimeUtrTranscript
       | StartCodonTranscript | StopCodonTranscript => true
    case _ => false
  }

  /** The type annotation of a class field. */
  datatype Annotation =
    | Plain(typeName: string)          // str, int, an enum
    | ClassRef(cls: FeatureClass)      // Gene
    | OptionalRef(cls: FeatureClass)   // "CDS | None"
    | ListOf(cls: FeatureClass)        // list["Transcript"]

  /** What a field of a class body is bound to. */
  datatype FieldKind =
    | AttributeField(attr: Attr)     // field(source=...)
    | ForwardField(pair: PairName)   // the forward end of a pair
    | InverseField(pair: PairName)   // the inverse end of a pair

  datatype FieldDef = FieldDef(name: string, annotation: Annotation, kind: FieldKind)

  /** A feature class: its `type=` tag, its id field, its other fields in
      order, and the relations of the `starts=`/`ends=` filter fields it
      passes to the metaclass. */
  datatype FeatureTypeDef = FeatureTypeDef(
    cls: FeatureClass,
    tag: string,
    idSpec: IdSpec,
    fields: seq<FieldDef>,
    startsFilter: Option<PairName>,
    endsFilter: Option<PairName>)

  // ---------------------------------------------------------------------
  // The classes, gencode.py:45-100

  const ExonIdPair := Composite([TranscriptId, ExonNumber])

  const GeneDef := FeatureTypeDef(Gene, "gene", Single(GeneId), [
    FieldDef("type", Plain("GeneType"), AttributeField(GeneType)),
    FieldDef("name", Plain("str"), AttributeField(GeneName)),
    FieldDef("transcripts", ListOf(Transcript), InverseField(TranscriptGene))], None, None)

  const TranscriptDef := FeatureTypeDef(Transcript, "transcript", Single(TranscriptId), [
    FieldDef("type", Plain("TranscriptType"), AttributeField(TranscriptType)),
    FieldDef("name", Plain("str"), AttributeField(TranscriptName)),
    FieldDef("gene", ClassRef(Gene), ForwardField(TranscriptGene)),
    FieldDef("exons", ListOf(Exon), InverseField(ExonTranscript)),
    FieldDef("utrs", ListOf(Utr), InverseField(UtrTranscript)),
    FieldDef("start_codon", OptionalRef(StartCodon), InverseField(StartCodonTranscript)),
    FieldDef("stop_codon", OptionalRef(StopCodon), InverseField(StopCodonTranscript))], None, None)

  const SelenocysteineDef := FeatureTypeDef(Selenocysteine, "selenocysteine", NoId, [
    FieldDef("gene", ClassRef(Gene), ForwardField(SelenocysteineGene)),
    FieldDef("transcript", ClassRef(Transcript), ForwardField(SelenocysteineTranscript))], None, None)

  const ExonDef := FeatureTypeDef(Exon, "exon", ExonIdPair, [
    FieldDef("number", Plain("int"), AttributeField(ExonNumber)),
    FieldDef("transcript", ClassRef(Transcript), ForwardField(ExonTranscript)),
    FieldDef("gene", ClassRef(Gene), ForwardField(ExonGene)),
    FieldDef("cds", OptionalRef(Cds), InverseField(CdsExon))], None, None)

  const CdsDef := FeatureTypeDef(Cds, "cds", ExonIdPair, [
    FieldDef("exon", ClassRef(Exon), ForwardField(CdsExon))], None, None)

  const UtrDef := FeatureTypeDef(Utr, "utr", NoId, [
    FieldDef("transcript", ClassRef(Transcript), ForwardField(UtrTranscript)),
    FieldDef("gene", ClassRef(Gene), ForwardField(UtrGene))], None, None)

  const StartCodonDef := FeatureTypeDef(StartCodon, "start_codon", ExonIdPair, [
    FieldDef("transcript", ClassRef(Transcript), ForwardField(StartCodonTranscript)),
    FieldDef("exon", ClassRef(Exon), ForwardField(StartCodonExon))], None, None)

  const StopCodonDef := FeatureTypeDef(StopCodon, "stop_codon", ExonIdPair, [
    FieldDef("transcript", ClassRef(Transcript), ForwardField(StopCodonTranscript)),
    FieldDef("exon", ClassRef(Exon), ForwardField(StopCodonExon))], None, None)

  /** The definition of each class. */
  function Def(c: FeatureClass): (d: FeatureTypeDef)
    ensures d.cls == c
  {
    match c
    case Gene => GeneDef
    case Transcript => TranscriptDef
    case Selenocysteine => SelenocysteineDef
    case Exon => ExonDef
    case Cds => CdsDef
    case Utr => UtrDef
    case StartCodon => StartCodonDef
    case StopCodon => StopCodonDef
  }

  /** `GENCODE_FEATURE_TYPES`, in the order given. */
  const FeatureTypes := [Gene, Transcript, Selenocysteine, Exon, Cds, Utr, StartCodon, StopCodon]

  /** The class a relation field refers to. */
  function Target(a: Annotation): Option<FeatureClass> {
    match a
    case Plain(_) => None
    case ClassRef(c) => Some(c)
    case OptionalRef(c) => Some(c)
    case ListOf(c) => Some(c)
  }

  // ---------------------------------------------------------------------
  // Classification by type tag

  /** The class a feature of type `tag` is built as: the first class in the
      list whose type filter is `tag`. */
  function Classify(order: seq<FeatureClass>, tag: string): (r: Option<FeatureClass>)
    ensures r.Some? ==> r.value in order && Def(r.value).tag == tag
  {
    if order == [] then None
    else if Def(order[0]).tag == tag then Some(order[0])
    else Classify(order[1..], tag)
  }

  /** When no other class has the tag of `c`, a listed `c` is what its tag
      classifies to, wherever it stands in the list. */
  lemma {:induction false} ClassifyEach(order: seq<FeatureClass>, c: FeatureClass)
    requires c in order
    requires forall d :: d != c ==> Def(d).tag != Def(c).tag
    ensures Classify(order, Def(c).tag) == Some(c)
  {
    if order[0] != c {
      assert c in order[1..];
      ClassifyEach(order[1..], c);
    }
  }

  /** Two classes never share a tag: the tags differ in length or in their
      first letter. */
  lemma TagsDiffer(c: FeatureClass, d: FeatureClass)
    requires c != d
    ensures Def(c).tag != Def(d).tag
  {
    assert |Def(c).tag| != |Def(d).tag| || Def(c).tag[0] != Def(d).tag[0];
  }

  /** Every class is listed, under one of the dialect's tags, and passes
      no starts or ends filter. */
  lemma Listed(c: FeatureClass)
    ensures c in FeatureTypes && Def(c).tag in DialectTagList
    ensures Def(c).startsFilter == None && Def(c).endsFilter == None
  {
    match c {
      case Gene => assert FeatureTypes[0] == c && DialectTagList[0] == Def(c).tag;
      case Transcript => assert FeatureTypes[1] == c && DialectTagList[1] == Def(c).tag;
      case Selenocysteine => assert FeatureTypes[2] == c && DialectTagList[2] == Def(c).tag;
      case Exon => assert FeatureTypes[3] == c && DialectTagList[3] == Def(c).tag;
      case Cds => assert FeatureTypes[4] == c && DialectTagList[4] == Def(c).tag;
      case Utr => assert FeatureTypes[5] == c && DialectTagList[5] == Def(c).tag;
      case StartCodon => assert FeatureTypes[6] == c && DialectTagList[6] == Def(c).tag;
      case StopCodon => assert FeatureTypes[7] == c && DialectTagList[7] == Def(c).tag;
    }
  }

  /** A class of the dialect is what its own tag classifies to. */
  lemma ClassOfTag(c: FeatureClass)
    ensures Classify(FeatureTypes, Def(c).tag) == Some(c)
  {
    forall d | d != c
      ensures Def(d).tag != Def(c).tag
    {
      TagsDiffer(d, c);
    }
    Listed(c);
    ClassifyEach(FeatureTypes, c);
  }

  /** Classification by tag alone is unambiguous: every class of the dialect
      is in the list, each is what its own tag classifies to (no two share a
      tag, see `TagsDiffer`), and none passes a starts or ends filter. */
  lemma ClassifiedByTag()
    ensures forall c :: c in FeatureTypes
    ensures forall c :: Classify(FeatureTypes, Def(c).tag) == Some(c)
    ensures forall c :: Def(c).startsFilter == None && Def(c).endsFilter == None
  {
    forall c
      ensures c in FeatureTypes && Classify(FeatureTypes, Def(c).tag) == Some(c)
      ensures Def(c).startsFilter == None && Def(c).endsFilter == None
    {
      Listed(c);
      ClassOfTag(c);
    }
  }

  /** The tags of the dialect, in the order of the list. */
  const DialectTagList := ["gene", "transcript", "selenocysteine", "exon", "cds", "utr", "start_codon", "stop_codon"]

  /** A tag outside the dialect is classified as nothing. */
  lemma UnknownTag(tag: string)
    requires tag !in DialectTagList
    ensures Classify(FeatureTypes, tag) == None
  {
    if Classify(FeatureTypes, tag).Some? {
      Listed(Classify(FeatureTypes, tag).value);
    }
  }

  /** The id each tag's class declares: gene_id for genes, transcript_id for
      transcripts, the pair (transcript_id, exon_number) for exons, CDS and
      start and stop codons, and none for selenocysteines and UTRs. */
  lemma IdsByTag()
    ensures Classify(FeatureTypes, "gene") == Some(Gene) && Def(Gene).idSpec == Single(GeneId)
    ensures Classify(FeatureTypes, "transcript") == Some(Transcript) && Def(Transcript).idSpec == Single(TranscriptId)
    ensures Classify(FeatureTypes, "exon") == Some(Exon) && Def(Exon).idSpec == Composite([TranscriptId, ExonNumber])
    ensures Classify(FeatureTypes, "cds") == Some(Cds) && Def(Cds).idSpec == Composite([TranscriptId, ExonNumber])
    ensures Classify(FeatureTypes, "start_codon") == Some(StartCodon) && Def(StartCodon).idSpec == Composite([TranscriptId, ExonNumber])
    ensures Classify(FeatureTypes, "stop_codon") == Some(StopCodon) && Def(StopCodon).idSpec == Composite([TranscriptId, ExonNumber])
    ensures Classify(FeatureTypes, "selenocysteine") == Some(Selenocysteine) && Def(Selenocysteine).idSpec == NoId
    ensures Classify(FeatureTypes, "utr") == Some(Utr) && Def(Utr).idSpec == NoId
  {
    ClassOfTag(Gene);
    ClassOfTag(Transcript);
    ClassOfTag(Exon);
    ClassOfTag(Cds);
    ClassOfTag(StartCodon);
    ClassOfTag(StopCodon);
    ClassOfTag(Selenocysteine);
    ClassOfTag(Utr);
  }

  // ---------------------------------------------------------------------
  // Where the ends of each pair live

  /** The class whose body holds the forward end of a pair. */
  function ForwardClass(p: PairName): Option<FeatureClass> {
    match p
    case TranscriptGene => Some(Transcript)
    case SelenocysteineGene | SelenocysteineTranscript => Some(Selenocysteine)
    case ExonTranscript | ExonGene => Some(Exon)
    case CdsExon => Some(Cds)
    case UtrTranscript | UtrGene => Some(Utr)
    case StartCodonTranscript | StartCodonExon => Some(StartCodon)
    case StopCodonTranscript | StopCodonExon => Some(StopCodon)
    case _ => None
  }

  /** The class whose body holds the inverse end of a pair. */
  function InverseClass(p: PairName): Option<FeatureClass> {
    match p
    case TranscriptGene => Some(Gene)
    case ExonTranscript | UtrTranscript | StartCodonTranscript | StopCodonTranscript => Some(Transcript)
    case CdsExon => Some(Exon)
    case _ => None
  }

  /** The class the forward end of a pair points at: the class whose id its
      source attribute is meant to hold. */
  function Referenced(p: PairName): FeatureClass {
    match p
    case TranscriptGene | SelenocysteineGene | ExonGene | UtrGene | FivePrimeUtrGene | ThreePrimeUtrGene => Gene
    case SelenocysteineTranscript | ExonTranscript | UtrTranscript | FivePrimeUtrTranscript | ThreePrimeUtrTranscript
       | StartCodonTranscript | StopCodonTranscript => Transcript
    case CdsExon | StartCodonExon | StopCodonExon => Exon
  }

  /** A field of class `c` is where the index says, with the shape its pair
      calls for: a forward end names the one class its pair points at, which
      holds the inverse when there is one; an inverse end is only ever a
      bound one, and holds one feature (`X | None`) for a one-to-one pair and
      a list otherwise, of the class holding the forward end. */
  predicate FieldOk(c: FeatureClass, f: FieldDef) {
    match f.kind
    case AttributeField(_) => f.annotation.Plain?
    case ForwardField(p) =>
      && ForwardClass(p) == Some(c)
      && f.annotation == ClassRef(Referenced(p))
      && (InverseClass(p).Some? ==> InverseClass(p) == Some(Referenced(p)))
    case InverseField(p) =>
      && InverseClass(p) == Some(c)
      && InverseBound(p)
      && (OneToOne(p) <==> f.annotation.OptionalRef?)
      && (!OneToOne(p) <==> f.annotation.ListOf?)
      && ForwardClass(p) == Target(f.annotation)
  }

  lemma GeneFieldsOk() ensures forall f :: f in GeneDef.fields ==> FieldOk(Gene, f) {}
  lemma TranscriptFieldsOk() ensures forall f :: f in TranscriptDef.fields ==> FieldOk(Transcript, f) {}
  lemma SelenocysteineFieldsOk() ensures forall f :: f in SelenocysteineDef.fields ==> FieldOk(Selenocysteine, f) {}
  lemma ExonFieldsOk() ensures forall f :: f in ExonDef.fields ==> FieldOk(Exon, f) {}
  lemma CdsFieldsOk() ensures forall f :: f in CdsDef.fields ==> FieldOk(Cds, f) {}
  lemma UtrFieldsOk() ensures forall f :: f in UtrDef.fields ==> FieldOk(Utr, f) {}
  lemma StartCodonFieldsOk() ensures forall f :: f in StartCodonDef.fields ==> FieldOk(StartCodon, f) {}
  lemma StopCodonFieldsOk() ensures forall f :: f in StopCodonDef.fields ==> FieldOk(StopCodon, f) {}

  /** Every field of every class of the dialect is well formed. */
  lemma WellFormed()
    ensures forall c, f :: f in Def(c).fields ==> FieldOk(c, f)
  {
    GeneFieldsOk();
    TranscriptFieldsOk();
    SelenocysteineFieldsOk();
    ExonFieldsOk();
    CdsFieldsOk();
    UtrFieldsOk();
    StartCodonFieldsOk();
    StopCodonFieldsOk();
  }

  // ---------------------------------------------------------------------
  // Facts about the dialect

  /** Exon→cds, transcript→start_codon and transcript→stop_codon hold one
      feature; gene→transcripts, transcript→exons and transcript→utrs hold
      lists. Every inverse slot of the dialect is one or the other, by the
      `one_to_one` flag of its pair. */
  lemma SlotShapes()
    ensures forall c, f :: f in Def(c).fields && f.kind.InverseField? ==>
      (OneToOne(f.kind.pair) <==> f.annotation.OptionalRef?) && (!OneToOne(f.kind.pair) <==> f.annotation.ListOf?)
    ensures forall c, f :: f in Def(c).fields && f.kind.ForwardField? ==> f.annotation.ClassRef?
  {
    WellFormed();
  }

  /** An inverse thrown into `_` gives the target class no back-reference:
      every inverse field of the dialect is the end of a bound pair, so a
      gene lists its transcripts but not its exons, UTRs or
      selenocysteines. */
  lemma UnboundInverses()
    ensures forall c, f :: f in Def(c).fields && f.kind.InverseField? ==> InverseBound(f.kind.pair)
    ensures forall f :: f in Def(Gene).fields && f.kind.InverseField? ==> f.kind.pair == TranscriptGene
  {
    WellFormed();
  }

  /** Both ends of a pair agree: a forward field of class `c` and an
      inverse field of class `d` for the same pair name each other's class,
      so the class the metaclass gives the inverse from the forward field's
      annotation is the class that declares it (see `Schema.BothSidesAgree`). */
  lemma BothEndsAgree(c: FeatureClass, f: FieldDef, d: FeatureClass, g: FieldDef)
    requires f in Def(c).fields && f.kind.ForwardField?
    requires g in Def(d).fields && g.kind == InverseField(f.kind.pair)
    ensures f.annotation == ClassRef(d)
    ensures Target(g.annotation) == Some(c)
  {
    WellFormed();
  }

  /** Forward relations read only gene_id, transcript_id or exon_id. Those
      reading gene_id or transcript_id point at the class whose id is that
      single attribute; those reading exon_id point at `Exon`, whose id is
      the pair (transcript_id, exon_number), so the key can never equal it. */
  lemma ForeignKey(p: PairName)
    ensures Source(p) in {GeneId, TranscriptId, ExonId}
    ensures Def(Referenced(p)).idSpec == Single(Source(p)) <==> Source(p) != ExonId
    ensures Source(p) == ExonId ==> Referenced(p) == Exon && Def(Exon).idSpec == Composite([TranscriptId, ExonNumber])
  {
  }

  /** The 5' and 3' UTR pairs are declared but no class uses either end of
      them: GENCODE does not tell the two kinds of UTR apart. */
  lemma UnusedPairs()
    ensures forall c, f :: f in Def(c).fields && !f.kind.AttributeField? ==>
      && f.kind.pair != FivePrimeUtrTranscript && f.kind.pair != FivePrimeUtrGene
      && f.kind.pair != ThreePrimeUtrTranscript && f.kind.pair != ThreePrimeUtrGene
  {
    WellFormed();
  }
}

/** What a finished list of GENCODE features is meant to satisfy, as the doc
    comments of types/feature_v2.py describe it: each feature has the class
    its type tag (and any starts/ends filter) admits, ids are unique within a
    class, and a relation is a foreign key, the related feature's id held in
    an attribute. The builder that links features is not part of this model;
    these are predicates over its result and what follows from them. */
module Graph {
  import opened Results
  import opened Dicts
  import opened Features
  import opened Gencode

  /** The class a finished feature has: the one its type column classifies to. */
  function ClassOf(f: Feature): Option<FeatureClass> {
    Classify(FeatureTypes, f.featureType)
  }

  /** The text of a single-valued attribute. */
  function AttrText(f: Feature, a: Attr): Option<string> {
    match Get(f.attributes, AttrKey(a))
    case Some(v) => if v.Single? then Some(v.text) else None
    case None => None
  }

  /** The texts of a list of attributes, when every one is present. */
  function AttrTexts(f: Feature, attrs: seq<Attr>): (r: Option<seq<string>>)
    ensures r.Some? ==> |r.value| == |attrs|
    ensures r.Some? <==> forall k :: 0 <= k < |attrs| ==> AttrText(f, attrs[k]).Some?
    ensures r.Some? ==> forall k :: 0 <= k < |attrs| ==> AttrText(f, attrs[k]) == Some(r.value[k])
  {
    if attrs == [] then Some([])
    else
      var rest := AttrTexts(f, attrs[1..]);
      assert forall k :: 1 <= k < |attrs| ==> attrs[k] == attrs[1..][k - 1];
      if AttrText(f, attrs[0]).Some? && rest.Some? then Some([AttrText(f, attrs[0]).value] + rest.value) else None
  }

  /** A feature's id under an id specification: none, the value of its id
      attribute, or the values of the attributes of a composite id in order. */
  function IdUnder(f: Feature, spec: IdSpec): Option<seq<string>> {
    match spec
    case NoId => None
    case Single(a) => if AttrText(f, a).Some? then Some([AttrText(f, a).value]) else None
    case Composite(attrs) => AttrTexts(f, attrs)
  }

  /** The id of a finished feature, under the id its class declares. */
  function FeatureId(f: Feature): Option<seq<string>> {
    match ClassOf(f)
    case None => None
    case Some(c) => IdUnder(f, Def(c).idSpec)
  }

  /** The key a feature holds for the forward end of a pair: the value of
      the pair's source attribute. */
  function Key(f: Feature, p: PairName): Option<seq<string>> {
    if AttrText(f, Source(p)).Some? then Some([AttrText(f, Source(p)).value]) else None
  }

  /** The id attribute is type-unique: no two features of the same class
      share an id. */
  predicate TypeUniqueIds(fs: seq<Feature>) {
    forall i, j :: 0 <= i < j < |fs| && ClassOf(fs[i]) == ClassOf(fs[j]) && FeatureId(fs[i]).Some? ==>
      FeatureId(fs[i]) != FeatureId(fs[j])
  }

  /** Feature `i`, of the class holding the forward end of `p`, refers to
      feature `j`, of the class `p` points at, when its key is `j`'s id: the
      SQL foreign key the `Relation` doc comment describes. */
  predicate Refers(fs: seq<Feature>, i: nat, p: PairName, j: nat) {
    && i < |fs| && j < |fs|
    && ForwardClass(p).Some?
    && ClassOf(fs[i]) == ForwardClass(p)
    && ClassOf(fs[j]) == Some(Referenced(p))
    && Key(fs[i], p).Some?
    && Key(fs[i], p) == FeatureId(fs[j])
  }

  /** With type-unique ids a key refers to at most one feature. */
  lemma ReferenceUnique(fs: seq<Feature>, i: nat, p: PairName, j: nat, k: nat)
    requires TypeUniqueIds(fs)
    requires Refers(fs, i, p, j) && Refers(fs, i, p, k)
    ensures j == k
  {
  }

  /** The features whose forward end of `p` refers to feature `j`: the
      contents of `j`'s inverse slot for `p`. */
  function Referrers(fs: seq<Feature>, p: PairName, j: nat): set<nat> {
    set i | 0 <= i < |fs| && Refers(fs, i, p, j)
  }

  /** With type-unique ids, different features have disjoint inverse slots:
      a feature sits in the slot of at most one feature per relation. */
  lemma ReferrersDisjoint(fs: seq<Feature>, p: PairName, j: nat, k: nat)
    requires TypeUniqueIds(fs) && j != k
    ensures Referrers(fs, p, j) !! Referrers(fs, p, k)
  {
    forall i | i in Referrers(fs, p, j) && i in Referrers(fs, p, k)
      ensures false
    {
      ReferenceUnique(fs, i, p, j, k);
    }
  }

  /** An inverse slot of a one-to-one pair holds at most one feature. */
  predicate OneToOneSlots(fs: seq<Feature>) {
    forall p, j: nat, i: nat, k: nat | j < |fs| && i < |fs| && k < |fs| :: OneToOne(p) && Refers(fs, i, p, j) && Refers(fs, k, p, j) ==> i == k
  }

  /** Of the seven one-to-one pairs only two can ever fill a slot: the UTR
      pairs have no forward end, and the three pairs reading exon_id never
      refer. So the one-to-one constraint is, in effect, that a transcript
      has at most one start codon and at most one stop codon. */
  lemma {:induction false} OneToOneEffective(fs: seq<Feature>)
    ensures OneToOneSlots(fs) <==>
      forall p, j: nat, i: nat, k: nat | j < |fs| && i < |fs| && k < |fs| ::
        (p == StartCodonTranscript || p == StopCodonTranscript) && Refers(fs, i, p, j) && Refers(fs, k, p, j) ==> i == k
  {
    forall p, j: nat, i: nat | OneToOne(p) && p != StartCodonTranscript && p != StopCodonTranscript
      ensures !Refers(fs, i, p, j)
    {
      if Source(p) == ExonId {
        ExonKeyNeverRefers(fs, i, p, j);
      }
    }
  }

  /** For a pair reading gene_id or transcript_id, a reference is a join on
      that attribute: both features hold the same single value for it. */
  lemma KeyJoin(fs: seq<Feature>, i: nat, p: PairName, j: nat)
    requires Source(p) != ExonId && i < |fs| && j < |fs|
    ensures Refers(fs, i, p, j) <==>
      && ForwardClass(p).Some?
      && ClassOf(fs[i]) == ForwardClass(p)
      && ClassOf(fs[j]) == Some(Referenced(p))
      && AttrText(fs[i], Source(p)).Some?
      && AttrText(fs[i], Source(p)) == AttrText(fs[j], Source(p))
  {
    ForeignKey(p);
    if ClassOf(fs[j]) == Some(Referenced(p)) {
      var spec := Def(Referenced(p)).idSpec;
      assert spec == IdSpec.Single(Source(p));
      assert FeatureId(fs[j]) == IdUnder(fs[j], spec);
    }
  }

  /** Under the foreign-key reading of `Refers`, a pair reading exon_id never
      refers to anything: its key is one value, while the exon it points at
      is identified by two (transcript_id and exon_number). Read that way, the
      `cds` slot of every exon stays empty. Whether the builder itself links
      these pairs otherwise is outside this model. */
  lemma ExonKeyNeverRefers(fs: seq<Feature>, i: nat, p: PairName, j: nat)
    requires Source(p) == ExonId
    ensures !Refers(fs, i, p, j)
    ensures Referrers(fs, p, j) == {}
  {
    ForeignKey(p);
    forall k | 0 <= k < |fs| && ClassOf(fs[k]) == Some(Exon) && FeatureId(fs[k]).Some?
      ensures |FeatureId(fs[k]).value| == 2
    {
      assert Def(Exon).idSpec == Composite([TranscriptId, ExonNumber]);
    }
  }

  /** A relation filter of a class, as the metaclass docs describe it: every
      feature the filter's relation refers to starts (for `starts`) or ends
      (for `ends`) where this feature does. */
  predicate FilterHolds(fs: seq<Feature>, i: nat, filter: Option<PairName>, starts: bool)
    requires i < |fs|
  {
    match filter
    case None => true
    case Some(p) =>
      forall j: nat | j < |fs| :: Refers(fs, i, p, j) ==> if starts then fs[i].startC == fs[j].startC else fs[i].endC == fs[j].endC
  }

  /** Class `c` admits feature `i`: its type tag matches the feature's type,
      and its starts and ends filters hold. */
  predicate Admits(fs: seq<Feature>, i: nat, c: FeatureClass)
    requires i < |fs|
  {
    && Def(c).tag == fs[i].featureType
    && FilterHolds(fs, i, Def(c).startsFilter, true)
    && FilterHolds(fs, i, Def(c).endsFilter, false)
  }

  /** In the GENCODE dialect a class admits a feature exactly when it is the
      class the feature's type tag classifies to: at most one class admits
      any feature, and a feature of an unknown type has none. */
  lemma AdmittedClass(fs: seq<Feature>, i: nat, c: FeatureClass)
    requires i < |fs|
    ensures Admits(fs, i, c) <==> ClassOf(fs[i]) == Some(c)
  {
    ClassifiedByTag();
    assert Classify(FeatureTypes, Def(c).tag) == Some(c);
    assert Def(c).startsFilter == None && Def(c).endsFilter == None;
  }
}

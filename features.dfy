/** The frozen feature records of `biofiles/types/feature.py` and the
    coordinate convention both writers rely on.  Features are immutable values;
    the parent, children and gene links, which are object references in the
    source and form cycles, are arena indices (positions in the parsed list). */
module Features {
  import opened Results
  import opened Dicts

  datatype Strand = Plus | Minus

  /** `str(strand)`: the strand literal as written in column 7. */
  function StrandText(s: Strand): string {
    match s
    case Plus => "+"
    case Minus => "-"
  }

  /** An attribute value.  The GFF3 reader only makes `Single`; the GTF
      reader turns a key repeated within one record into a `Multi` list. */
  datatype AttrValue = Single(text: string) | Multi(texts: seq<string>)

  /** A Python dict of attributes, in insertion order. */
  type Attributes = Dict<AttrValue>

  datatype FeatureKind =
    | Plain
    | GeneKind(name: string, biotype: string)
    | ExonKind(gene: nat)

  /** One annotation record.  `startOriginal`/`endOriginal` are the 1-based
      inclusive values of the file; `startC`/`endC` are the 0-based half-open
      ("C-style") values.  The score is kept as its text token. */
  datatype Feature = Feature(
    sequenceId: string,
    source: string,
    featureType: string,
    startOriginal: int,
    endOriginal: int,
    startC: int,
    endC: int,
    score: Option<string>,
    strand: Option<Strand>,
    phase: Option<int>,
    attributes: Attributes,
    parent: Option<nat>,
    children: seq<nat>,
    kind: FeatureKind)

  /** The 0-based half-open pair for a 1-based inclusive one. */
  function HalfOpen(startOriginal: int, endOriginal: int): (c: (int, int))
    ensures c.1 - c.0 == endOriginal - startOriginal + 1
    ensures Inclusive(c.0, c.1) == (startOriginal, endOriginal)
  {
    (startOriginal - 1, endOriginal)
  }

  /** The 1-based inclusive pair the writers print for a half-open one. */
  function Inclusive(startC: int, endC: int): (o: (int, int))
    ensures o.1 - o.0 + 1 == endC - startC
  {
    (startC + 1, endC)
  }

  lemma HalfOpenInclusive(startC: int, endC: int)
    ensures HalfOpen(Inclusive(startC, endC).0, Inclusive(startC, endC).1) == (startC, endC)
  {
  }

  /** The two coordinate pairs of a feature describe the same interval. */
  predicate CoordinatesAgree(f: Feature) {
    (f.startC, f.endC) == HalfOpen(f.startOriginal, f.endOriginal)
  }

  /** Number of bases covered, read off the half-open pair. */
  function Length(f: Feature): (n: int)
    requires CoordinatesAgree(f)
    ensures n == f.endOriginal - f.startOriginal + 1
  {
    f.endC - f.startC
  }
}

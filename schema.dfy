/** The declarative relation schema of types/feature_v2.py: relations between
    feature types as linked forward/inverse objects, the fields a feature class
    body declares, and the class attributes `FeatureMetaclass` computes from
    them when the class is created. Python classes are named by strings. */
module Schema {
  import opened Results
  import opened Dicts

  // ---------------------------------------------------------------------
  // Relations

  /** `Relation`: the declarative form of a foreign key. `idAttributeName`
      names the GTF/GFF attribute holding the related feature's ID;
      `classOf` is `class_`, filled in when a class declares the relation. */
  class Relation {
    var idAttributeName: string
    var inverse: InverseRelation?
    var classOf: Option<string>

    constructor (idAttributeName: string)
      ensures this.idAttributeName == idAttributeName && inverse == null && classOf == None
    {
      this.idAttributeName := idAttributeName;
      inverse := null;
      classOf := None;
    }
  }

  /** `InverseRelation`: the other end of a relation, the slot on the related
      type; `oneToOne` says whether it holds one feature or a list. */
  class InverseRelation {
    var inverse: Relation
    var oneToOne: bool
    var classOf: Option<string>

    constructor (inverse: Relation, oneToOne: bool)
      ensures this.inverse == inverse && this.oneToOne == oneToOne && classOf == None
    {
      this.inverse := inverse;
      this.oneToOne := oneToOne;
      classOf := None;
    }
  }

  /** The object a relation field's metadata holds under "relation". */
  datatype RelationRef = Forward(forward: Relation) | Backward(backward: InverseRelation)

  /** What a class body binds a name to: a dataclass field made by `id_field`,
      `field` or `relation`, whose metadata is the one entry these give it,
      or any other value. */
  datatype Member =
    | IdField(idAttributeName: string)      // metadata {"id_attribute_name": source}
    | AttributeField(attributeName: string) // metadata {"attribute_name": source}
    | RelationField(relation: RelationRef)  // metadata {"relation": r}
    | OtherMember

  /** The namespace dict of a class body, as its items in insertion order.
      Its names are distinct (`Dicts.DistinctKeys`): a name bound twice keeps
      the position of its first binding and the value of its last, so a list
      holding one name twice is not a namespace Python can pass. */
  type Namespace = Dict<Member>

  /** The exceptions class creation can raise. */
  datatype ClassError =
    | MissingAttribute(name: string)  // AttributeError
    | MissingKey(key: string)         // KeyError
    | DuplicateIdField(className: string)  // the TypeError for a second id field

  /** A forward relation and its inverse point at each other. */
  predicate Linked(forward: Relation, backward: InverseRelation)
    reads forward`inverse, backward`inverse
  {
    forward.inverse == backward && backward.inverse == forward
  }

  /** `relation(source, one_to_one=False)`: a fresh forward relation reading
      `source` and a fresh inverse holding the flag, linked to each other and
      not yet attached to any class, each wrapped in a field. */
  method NewRelation(source: string, oneToOne: bool := false) returns (forward: Member, backward: Member)
    ensures forward.RelationField? && forward.relation.Forward?
    ensures backward.RelationField? && backward.relation.Backward?
    ensures fresh(forward.relation.forward) && fresh(backward.relation.backward)
    ensures Linked(forward.relation.forward, backward.relation.backward)
    ensures forward.relation.forward.idAttributeName == source && forward.relation.forward.classOf == None
    ensures backward.relation.backward.oneToOne == oneToOne && backward.relation.backward.classOf == None
  {
    var f := new Relation(source);
    var b := new InverseRelation(f, oneToOne);
    f.inverse := b;
    forward, backward := RelationField(Forward(f)), RelationField(Backward(b));
  }

  // ---------------------------------------------------------------------
  // The id attribute

  /** The attribute names of the id fields of a class body, in order. */
  function IdFields(ns: Namespace): seq<string> {
    if ns == [] then []
    else
      var rest := IdFields(ns[..|ns| - 1]);
      match ns[|ns| - 1].1
      case IdField(name) => rest + [name]
      case _ => rest
  }

  /** What `_find_id_attribute` is meant to compute: "" for a class without an
      id field, the attribute of its id field, and an error naming the class
      when it declares more than one. */
  function IdAttribute(className: string, ns: Namespace): Result<string, ClassError> {
    var ids := IdFields(ns);
    if |ids| == 0 then Ok("")
    else if |ids| == 1 then Ok(ids[0])
    else Err(DuplicateIdField(className))
  }

  /** `_find_id_attribute` as written: "was an id field seen" is the
      truthiness of the attribute name found so far, and the error message
      reads `__name__` from that name, a string, which has none. */
  function IdAttributeAsWritten(ns: Namespace): Result<string, ClassError> {
    if ns == [] then Ok("")
    else
      match IdAttributeAsWritten(ns[..|ns| - 1])
      case Err(e) => Err(e)
      case Ok(result) =>
        match ns[|ns| - 1].1
        case IdField(name) => if result != "" then Err(MissingAttribute("__name__")) else Ok(name)
        case _ => Ok(result)
  }

  /** The id attribute a class gets, found by one pass over its body that
      remembers whether it has seen an id field. */
  method FindIdAttribute(className: string, ns: Namespace) returns (r: Result<string, ClassError>)
    ensures r == IdAttribute(className, ns)
  {
    var result := "";
    var found := false;
    var i := 0;
    while i < |ns|
      invariant 0 <= i <= |ns|
      invariant IdFields(ns[..i]) == if found then [result] else []
      invariant !found ==> result == ""
    {
      assert ns[..i + 1][..i] == ns[..i] && ns[..i + 1][i] == ns[i];
      match ns[i].1 {
        case IdField(name) =>
          assert IdFields(ns[..i + 1]) == IdFields(ns[..i]) + [name];
          if found {
            IdFieldsPrefix(ns, i + 1);
            assert |IdFields(ns[..i + 1])| == 2;
            assert |IdFields(ns)| >= 2;
            return Err(DuplicateIdField(className));
          }
          result, found := name, true;
        case _ =>
          assert IdFields(ns[..i + 1]) == IdFields(ns[..i]);
      }
      i := i + 1;
    }
    assert ns[..i] == ns;
    r := Ok(result);
  }

  /** The id fields of a prefix of the body come first among its id fields. */
  lemma {:induction false} IdFieldsPrefix(ns: Namespace, n: nat)
    requires n <= |ns|
    ensures IdFields(ns[..n]) <= IdFields(ns)
    decreases |ns| - n
  {
    if n < |ns| {
      IdFieldsPrefix(ns, n + 1);
      assert ns[..n + 1][..n] == ns[..n];
    } else {
      assert ns[..n] == ns;
    }
  }

  /** An attribute is among the id fields exactly when some member of the
      body is an id field for it. */
  lemma {:induction false} IdFieldsMembers(ns: Namespace, name: string)
    ensures name in IdFields(ns) <==> exists i :: 0 <= i < |ns| && ns[i].1 == IdField(name)
  {
    if ns != [] {
      var init := ns[..|ns| - 1];
      IdFieldsMembers(init, name);
      if exists i :: 0 <= i < |ns| && ns[i].1 == IdField(name) {
        var i :| 0 <= i < |ns| && ns[i].1 == IdField(name);
        if i < |init| {
          assert init[i] == ns[i];
        }
      }
      if exists i :: 0 <= i < |init| && init[i].1 == IdField(name) {
        var i :| 0 <= i < |init| && init[i].1 == IdField(name);
        assert ns[i] == init[i];
      }
    }
  }

  /** When no id field names the empty attribute, the code as written accepts
      the same bodies with the same result, and fails on the others with an
      AttributeError in place of the TypeError. */
  lemma {:induction false} AsWrittenAgrees(className: string, ns: Namespace)
    requires forall i :: 0 <= i < |IdFields(ns)| ==> IdFields(ns)[i] != ""
    ensures IdAttributeAsWritten(ns).Ok? <==> IdAttribute(className, ns).Ok?
    ensures IdAttributeAsWritten(ns).Ok? ==> IdAttributeAsWritten(ns) == IdAttribute(className, ns)
    ensures IdAttributeAsWritten(ns).Err? ==> IdAttributeAsWritten(ns).error == MissingAttribute("__name__")
  {
    if ns != [] {
      var init := ns[..|ns| - 1];
      var ids := IdFields(init);
      assert forall i :: 0 <= i < |ids| ==> ids[i] == IdFields(ns)[i];
      AsWrittenAgrees(className, init);
      match ns[|ns| - 1].1 {
        case IdField(name) =>
          assert IdFields(ns) == ids + [name];
          assert name == IdFields(ns)[|ids|];
        case _ =>
      }
    }
  }

  /** An id field on the empty attribute is not noticed by the truthiness
      test: a second id field after it is taken without complaint. */
  lemma EmptyIdNameSlipsThrough()
    ensures var ns := [("id", IdField("")), ("key", IdField("gene_id"))];
      IdAttributeAsWritten(ns) == Ok("gene_id") && IdAttribute("Gene", ns) == Err(DuplicateIdField("Gene"))
  {
    var ns := [("id", IdField("")), ("key", IdField("gene_id"))];
    assert ns[..1] == [("id", IdField(""))] && ns[..1][..0] == [];
  }

  /** A second id field after a named one stops class creation with an
      AttributeError rather than the intended TypeError. */
  lemma SecondIdFieldAsWritten(first: string, second: string)
    requires first != ""
    ensures var ns := [("id", IdField(first)), ("other", IdField(second))];
      IdAttributeAsWritten(ns) == Err(MissingAttribute("__name__"))
      && IdAttribute("C", ns) == Err(DuplicateIdField("C"))
  {
    var ns := [("id", IdField(first)), ("other", IdField(second))];
    assert ns[..1] == [("id", IdField(first))] && ns[..1][..0] == [];
    assert IdAttributeAsWritten(ns[..1]) == Ok(first);
    assert IdFields(ns[..1]) == [first];
    assert IdFields(ns) == [first, second];
  }

  // ---------------------------------------------------------------------
  // Feature classes

  /** A class `FeatureMetaclass` creates, by its own class attributes:
      `__id_attribute_name__`, `__filter_type__` when set on this class,
      `__filter_starts__` and `__filter_ends__`; `annotations` is its own
      `__annotations__`, field name to annotated class name. */
  class FeatureType {
    const name: string
    const annotations: map<string, string>
    var idAttributeName: string
    var ownFilterType: Option<string>
    var filterStarts: Option<RelationRef>
    var filterEnds: Option<RelationRef>

    constructor (name: string, annotations: map<string, string>, idAttributeName: string,
                 ownFilterType: Option<string>, filterStarts: Option<RelationRef>, filterEnds: Option<RelationRef>)
      ensures this.name == name && this.annotations == annotations && this.idAttributeName == idAttributeName
      ensures this.ownFilterType == ownFilterType && this.filterStarts == filterStarts && this.filterEnds == filterEnds
    {
      this.name := name;
      this.annotations := annotations;
      this.idAttributeName := idAttributeName;
      this.ownFilterType := ownFilterType;
      this.filterStarts := filterStarts;
      this.filterEnds := filterEnds;
    }
  }

  /** `__filter_type__` as Python looks it up: on the first class of the
      method resolution order that sets it. */
  function FilterType(mro: seq<FeatureType>): Option<string>
    reads mro
    decreases |mro|
  {
    if mro == [] then None
    else if mro[0].ownFilterType.Some? then mro[0].ownFilterType
    else FilterType(mro[1..])
  }

  /** A class that sets no type filter of its own filters as its bases do. */
  lemma FilterTypeInherited(cls: FeatureType, bases: seq<FeatureType>)
    requires cls.ownFilterType == None
    ensures FilterType([cls] + bases) == FilterType(bases)
  {
    assert ([cls] + bases)[1..] == bases;
  }

  /** `starts.metadata["relation"]`: the relation of a relation field; other
      fields have no such key, and other values no metadata. */
  function RelationOf(m: Member): Result<RelationRef, ClassError> {
    match m
    case RelationField(r) => Ok(r)
    case IdField(_) => Err(MissingKey("relation"))
    case AttributeField(_) => Err(MissingKey("relation"))
    case OtherMember => Err(MissingAttribute("metadata"))
  }

  /** The filter `_fill_filters` sets for an optional field argument. */
  function FilterOf(arg: Option<Member>): Result<Option<RelationRef>, ClassError> {
    match arg
    case None => Ok(None)
    case Some(m) =>
      match RelationOf(m)
      case Ok(r) => Ok(Some(r))
      case Err(e) => Err(e)
  }

  /** `_fill_filters`: the type filter is set only when a type is given (else
      the class keeps what it inherits); the start and end filters are reset
      and then set to the given fields' relations. A field without a relation
      stops it there: a failing start filter leaves the end filter as it
      was. */
  method FillFilters(cls: FeatureType, typeTag: Option<string>, starts: Option<Member>, ends: Option<Member>)
    returns (error: Option<ClassError>)
    modifies cls`ownFilterType, cls`filterStarts, cls`filterEnds
    ensures cls.ownFilterType == if typeTag.Some? then typeTag else old(cls.ownFilterType)
    ensures cls.filterStarts == if FilterOf(starts).Ok? then FilterOf(starts).value else None
    ensures FilterOf(starts).Err? ==> error == Some(FilterOf(starts).error) && cls.filterEnds == old(cls.filterEnds)
    ensures FilterOf(starts).Ok? ==>
      && cls.filterEnds == (if FilterOf(ends).Ok? then FilterOf(ends).value else None)
      && error == (if FilterOf(ends).Ok? then None else Some(FilterOf(ends).error))
  {
    if typeTag.Some? {
      cls.ownFilterType := typeTag;
    }
    cls.filterStarts := None;
    if starts.Some? {
      var r := RelationOf(starts.value);
      if r.Err? {
        return Some(r.error);
      }
      cls.filterStarts := Some(r.value);
    }
    cls.filterEnds := None;
    if ends.Some? {
      var r := RelationOf(ends.value);
      if r.Err? {
        return Some(r.error);
      }
      cls.filterEnds := Some(r.value);
    }
    error := None;
  }

  // ---------------------------------------------------------------------
  // Attaching relations to the class that declares them

  /** The forward relation an entry declares, if any. */
  function EntryForward(m: Member): set<Relation> {
    if m.RelationField? && m.relation.Forward? then {m.relation.forward} else {}
  }

  /** The inverse relation an entry declares, if any. */
  function EntryBackward(m: Member): set<InverseRelation> {
    if m.RelationField? && m.relation.Backward? then {m.relation.backward} else {}
  }

  /** The inverse of the forward relation an entry declares, if any. */
  function EntryInverse(m: Member): set<InverseRelation>
    reads EntryForward(m)`inverse
  {
    if m.RelationField? && m.relation.Forward? && m.relation.forward.inverse != null
    then {m.relation.forward.inverse} else {}
  }

  /** The forward relations a class body declares. */
  function Forwards(ns: Namespace): set<Relation> {
    set i | 0 <= i < |ns| && ns[i].1.RelationField? && ns[i].1.relation.Forward? :: ns[i].1.relation.forward
  }

  /** The inverse relations a class body declares. */
  function Backwards(ns: Namespace): set<InverseRelation> {
    set i | 0 <= i < |ns| && ns[i].1.RelationField? && ns[i].1.relation.Backward? :: ns[i].1.relation.backward
  }

  /** The inverses of the forward relations a class body declares. */
  function InversesOf(ns: Namespace): set<InverseRelation>
    reads Forwards(ns)`inverse
  {
    set f | f in Forwards(ns) && f.inverse != null :: f.inverse
  }

  /** Each entry's relations are among the body's. */
  lemma EntryDeclared(ns: Namespace, i: nat)
    requires i < |ns|
    ensures EntryForward(ns[i].1) <= Forwards(ns)
    ensures EntryBackward(ns[i].1) <= Backwards(ns)
    ensures EntryInverse(ns[i].1) <= InversesOf(ns)
  {
  }

  /** One more entry adds its forward relation, if it is one. */
  lemma ForwardsSnoc(ns: Namespace, i: nat)
    requires i < |ns|
    ensures Forwards(ns[..i + 1]) == Forwards(ns[..i]) + EntryForward(ns[i].1)
  {
    var front := ns[..i + 1];
    assert front[i] == ns[i];
    forall f | f in Forwards(front)
      ensures f in Forwards(ns[..i]) + EntryForward(ns[i].1)
    {
      var j :| 0 <= j < i + 1 && front[j].1.RelationField? && front[j].1.relation.Forward? && front[j].1.relation.forward == f;
      if j < i {
        assert ns[..i][j] == front[j];
      }
    }
    forall f | f in Forwards(ns[..i])
      ensures f in Forwards(front)
    {
      var j :| 0 <= j < i && ns[..i][j].1.RelationField? && ns[..i][j].1.relation.Forward? && ns[..i][j].1.relation.forward == f;
      assert front[j] == ns[..i][j];
    }
  }

  /** Where each forward relation of a body points: its `inverse`, which
      attaching relations to a class reads and never changes. */
  type Links = map<Relation, InverseRelation?>

  function LinksOf(ns: Namespace): (links: Links)
    reads Forwards(ns)`inverse
    ensures links.Keys == Forwards(ns)
  {
    map f | f in Forwards(ns) :: f.inverse
  }

  /** An annotated forward relation without an inverse, whose inverse's class
      cannot be assigned. */
  predicate Broken(entry: (string, Member), annotations: map<string, string>, links: Links) {
    var (key, m) := entry;
    m.RelationField? && m.relation.Forward? && key in annotations
    && m.relation.forward in links && links[m.relation.forward] == null
  }

  /** How far `_fill_relation_classes` gets: the first broken entry, or the
      end of the body. */
  function Stop(ns: Namespace, annotations: map<string, string>, links: Links): (n: nat)
    ensures n <= |ns|
    ensures forall j :: 0 <= j < n ==> !Broken(ns[j], annotations, links)
    ensures n < |ns| ==> Broken(ns[n], annotations, links)
  {
    StopFrom(ns, annotations, links, 0)
  }

  function StopFrom(ns: Namespace, annotations: map<string, string>, links: Links, i: nat): (n: nat)
    requires i <= |ns|
    ensures i <= n <= |ns|
    ensures forall j :: i <= j < n ==> !Broken(ns[j], annotations, links)
    ensures n < |ns| ==> Broken(ns[n], annotations, links)
    decreases |ns| - i
  {
    if i == |ns| then i
    else if Broken(ns[i], annotations, links) then i
    else StopFrom(ns, annotations, links, i + 1)
  }

  /** The classes of the relations of a body: `class_` of each forward
      relation and of each inverse relation. */
  datatype Classes = Classes(forward: map<Relation, Option<string>>, inverse: map<InverseRelation, Option<string>>)

  function ClassesOf(forwards: set<Relation>, inverses: set<InverseRelation>): (c: Classes)
    reads forwards`classOf, inverses`classOf
    ensures c.forward.Keys == forwards && c.inverse.Keys == inverses
  {
    Classes(map f | f in forwards :: f.classOf, map x | x in inverses :: x.classOf)
  }

  /** What one entry of the body does to the classes: a forward relation
      gets the class and, when annotated, its inverse the annotated class;
      an inverse relation gets the class. */
  function Attach(c: Classes, entry: (string, Member), annotations: map<string, string>, className: string,
                  links: Links): Classes
  {
    var (key, m) := entry;
    match m
    case RelationField(Forward(f)) =>
      var forward := c.forward[f := Some(className)];
      if key in annotations && f in links && links[f] != null
      then Classes(forward, c.inverse[links[f] := Some(annotations[key])])
      else Classes(forward, c.inverse)
    case RelationField(Backward(b)) => Classes(c.forward, c.inverse[b := Some(className)])
    case _ => c
  }

  /** The entries of `ns` attached one after the other. */
  function AttachAll(c: Classes, ns: Namespace, annotations: map<string, string>, className: string,
                     links: Links): Classes
  {
    if ns == [] then c
    else Attach(AttachAll(c, ns[..|ns| - 1], annotations, className, links), ns[|ns| - 1], annotations, className, links)
  }

  lemma AttachAllSnoc(c: Classes, ns: Namespace, i: nat, annotations: map<string, string>, className: string,
                      links: Links)
    requires i < |ns|
    ensures AttachAll(c, ns[..i + 1], annotations, className, links)
         == Attach(AttachAll(c, ns[..i], annotations, className, links), ns[i], annotations, className, links)
  {
    assert ns[..i + 1][..i] == ns[..i];
  }

  /** The class an inverse relation ends up with after the entries of `ns`
      assign it one after the other, `before` if none does. */
  function InverseClass(ns: Namespace, annotations: map<string, string>, className: string, links: Links,
                        x: InverseRelation, before: Option<string>): Option<string>
  {
    if ns == [] then before
    else Assigned(ns[|ns| - 1], annotations, className, links, x,
                  InverseClass(ns[..|ns| - 1], annotations, className, links, x, before))
  }

  /** The class one entry gives an inverse relation, or `prior` if the entry
      does not assign it: the declaring class for the inverse field itself,
      the annotated class for the annotated forward field it belongs to. */
  function Assigned(entry: (string, Member), annotations: map<string, string>, className: string, links: Links,
                    x: InverseRelation, prior: Option<string>): Option<string>
  {
    var (key, m) := entry;
    match m
    case RelationField(Forward(f)) =>
      if key in annotations && f in links && links[f] == x then Some(annotations[key]) else prior
    case RelationField(Backward(b)) => if b == x then Some(className) else prior
    case _ => prior
  }

  /** An entry that does not assign an inverse relation leaves it as it was;
      one that does gives it the same class whatever it had before. */
  lemma AssignedPrior(entry: (string, Member), annotations: map<string, string>, className: string, links: Links,
                      x: InverseRelation, prior: Option<string>)
    ensures Assigned(entry, annotations, className, links, x, prior)
         == if Assigned(entry, annotations, className, links, x, None).Some?
            then Assigned(entry, annotations, className, links, x, None) else prior
  {
  }

  /** A body none of whose entries assigns an inverse relation leaves its
      class alone. */
  lemma {:induction false} InverseClassUnassigned(ns: Namespace, annotations: map<string, string>, className: string,
                                                  links: Links, x: InverseRelation, before: Option<string>)
    requires forall j :: 0 <= j < |ns| ==> Assigned(ns[j], annotations, className, links, x, None) == None
    ensures InverseClass(ns, annotations, className, links, x, before) == before
  {
    if ns != [] {
      var n := |ns| - 1;
      assert forall j :: 0 <= j < n ==> ns[..n][j] == ns[j];
      InverseClassUnassigned(ns[..n], annotations, className, links, x, before);
      AssignedPrior(ns[n], annotations, className, links, x, InverseClass(ns[..n], annotations, className, links, x, before));
    }
  }

  /** A body whose entries all assign an inverse relation the same class `v`,
      at least one of them, leaves it with class `v`. */
  lemma {:induction false} InverseClassUniform(ns: Namespace, annotations: map<string, string>, className: string,
                                               links: Links, x: InverseRelation, before: Option<string>, v: string)
    requires forall j :: 0 <= j < |ns| ==> Assigned(ns[j], annotations, className, links, x, None) in {None, Some(v)}
    requires exists j :: 0 <= j < |ns| && Assigned(ns[j], annotations, className, links, x, None) == Some(v)
    ensures InverseClass(ns, annotations, className, links, x, before) == Some(v)
  {
    var n := |ns| - 1;
    var prior := InverseClass(ns[..n], annotations, className, links, x, before);
    AssignedPrior(ns[n], annotations, className, links, x, prior);
    if Assigned(ns[n], annotations, className, links, x, None) == None {
      var j :| 0 <= j < |ns| && Assigned(ns[j], annotations, className, links, x, None) == Some(v);
      assert forall k :: 0 <= k < n ==> ns[..n][k] == ns[k];
      assert ns[..n][j] == ns[j];
      InverseClassUniform(ns[..n], annotations, className, links, x, before, v);
    }
  }

  /** Both ends of a relation name the same class: the body that declares
      the inverse field and the body whose forward field is annotated with
      that class. Whichever class is created first, the inverse relation ends
      up with the class of the body that declares it. */
  lemma BothSidesAgree(nsA: Namespace, annA: map<string, string>, nameA: string, linksA: Links,
                       nsB: Namespace, annB: map<string, string>, nameB: string, linksB: Links,
                       x: InverseRelation, before: Option<string>)
    requires forall j :: 0 <= j < |nsA| ==> Assigned(nsA[j], annA, nameA, linksA, x, None) in {None, Some(nameB)}
    requires forall j :: 0 <= j < |nsB| ==> Assigned(nsB[j], annB, nameB, linksB, x, None) in {None, Some(nameB)}
    requires exists j :: 0 <= j < |nsB| && nsB[j].1 == RelationField(Backward(x))
    ensures InverseClass(nsB, annB, nameB, linksB, x, InverseClass(nsA, annA, nameA, linksA, x, before)) == Some(nameB)
    ensures InverseClass(nsA, annA, nameA, linksA, x, InverseClass(nsB, annB, nameB, linksB, x, before)) == Some(nameB)
  {
    var j :| 0 <= j < |nsB| && nsB[j].1 == RelationField(Backward(x));
    assert Assigned(nsB[j], annB, nameB, linksB, x, None) == Some(nameB);
    InverseClassUniform(nsB, annB, nameB, linksB, x, InverseClass(nsA, annA, nameA, linksA, x, before), nameB);
    InverseClassUniform(nsB, annB, nameB, linksB, x, before, nameB);
    if exists k :: 0 <= k < |nsA| && Assigned(nsA[k], annA, nameA, linksA, x, None) == Some(nameB) {
      InverseClassUniform(nsA, annA, nameA, linksA, x, Some(nameB), nameB);
    } else {
      InverseClassUnassigned(nsA, annA, nameA, linksA, x, Some(nameB));
    }
  }

  /** After attaching, exactly the forward relations the entries declare
      have the class; every other forward relation keeps its class. */
  lemma {:induction false} AttachAllForward(c: Classes, ns: Namespace, annotations: map<string, string>,
                                            className: string, links: Links, f: Relation)
    requires f in c.forward
    ensures f in AttachAll(c, ns, annotations, className, links).forward
    ensures AttachAll(c, ns, annotations, className, links).forward[f]
         == if f in Forwards(ns) then Some(className) else c.forward[f]
  {
    if ns != [] {
      var n := |ns| - 1;
      AttachAllForward(c, ns[..n], annotations, className, links, f);
      ForwardsSnoc(ns, n);
      assert ns[..n + 1] == ns;
    }
  }

  /** After attaching, each inverse relation has the class the last entry
      that assigns it gave it. */
  lemma {:induction false} AttachAllInverse(c: Classes, ns: Namespace, annotations: map<string, string>,
                                            className: string, links: Links, x: InverseRelation)
    requires x in c.inverse
    ensures x in AttachAll(c, ns, annotations, className, links).inverse
    ensures AttachAll(c, ns, annotations, className, links).inverse[x]
         == InverseClass(ns, annotations, className, links, x, c.inverse[x])
  {
    if ns != [] {
      AttachAllInverse(c, ns[..|ns| - 1], annotations, className, links, x);
    }
  }

  /** One pass of the loop of `_fill_relation_classes`, stated on the
      classes of the relations `forwards` and `inverses` of the whole body. */
  method AttachEntry(className: string, annotations: map<string, string>, entry: (string, Member), ghost links: Links,
                     ghost forwards: set<Relation>, ghost inverses: set<InverseRelation>)
    returns (error: Option<ClassError>)
    requires EntryForward(entry.1) <= forwards && EntryBackward(entry.1) <= inverses && EntryInverse(entry.1) <= inverses
    requires forall f :: f in EntryForward(entry.1) ==> f in links && links[f] == f.inverse
    modifies EntryForward(entry.1)`classOf, EntryBackward(entry.1)`classOf, EntryInverse(entry.1)`classOf
    ensures error.Some? <==> Broken(entry, annotations, links)
    ensures error.Some? ==> error.value == MissingAttribute("class_")
    ensures ClassesOf(forwards, inverses) == Attach(old(ClassesOf(forwards, inverses)), entry, annotations, className, links)
  {
    var (key, m) := entry;
    match m {
      case RelationField(Forward(f)) =>
        f.classOf := Some(className);
        if key in annotations {
          if f.inverse == null {
            return Some(MissingAttribute("class_"));
          }
          f.inverse.classOf := Some(annotations[key]);
        }
      case RelationField(Backward(b)) =>
        b.classOf := Some(className);
      case _ =>
    }
    error := None;
  }

  /** How many entries `_fill_relation_classes` attaches: all of them, or
      those up to and including the first broken one. */
  function Reached(ns: Namespace, annotations: map<string, string>, links: Links): (n: nat)
    ensures n <= |ns|
  {
    var stop := Stop(ns, annotations, links);
    if stop < |ns| then stop + 1 else stop
  }

  /** The relations of the body have the classes that attaching the entries
      `_fill_relation_classes` reaches gives them, from `before`. */
  predicate RelationsAttached(ns: Namespace, annotations: map<string, string>, className: string,
                              links: Links, inverses: set<InverseRelation>, before: Classes)
    reads Forwards(ns)`classOf, Backwards(ns)`classOf, inverses`classOf
  {
    ClassesOf(Forwards(ns), Backwards(ns) + inverses)
      == AttachAll(before, ns[..Reached(ns, annotations, links)], annotations, className, links)
  }

  /** `_fill_relation_classes`: the entries of the body are attached in
      order (see `Attach`); an annotated forward relation without an inverse
      stops it with an AttributeError, after its own class is set. */
  method FillRelationClasses(className: string, annotations: map<string, string>, ns: Namespace) returns (error: Option<ClassError>)
    modifies Forwards(ns)`classOf, Backwards(ns)`classOf, InversesOf(ns)`classOf
    ensures error.None? <==> Stop(ns, annotations, old(LinksOf(ns))) == |ns|
    ensures error.Some? ==> error.value == MissingAttribute("class_")
    ensures RelationsAttached(ns, annotations, className, old(LinksOf(ns)), old(InversesOf(ns)),
                              old(ClassesOf(Forwards(ns), Backwards(ns) + InversesOf(ns))))
  {
    ghost var links := LinksOf(ns);
    ghost var forwards := Forwards(ns);
    ghost var inverses := Backwards(ns) + InversesOf(ns);
    ghost var before := ClassesOf(forwards, inverses);
    var i := 0;
    while i < |ns|
      invariant 0 <= i <= |ns|
      invariant Stop(ns, annotations, links) == StopFrom(ns, annotations, links, i)
      invariant ClassesOf(forwards, inverses) == AttachAll(before, ns[..i], annotations, className, links)
    {
      EntryDeclared(ns, i);
      AttachAllSnoc(before, ns, i, annotations, className, links);
      var e := AttachEntry(className, annotations, ns[i], links, forwards, inverses);
      if e.Some? {
        return e;
      }
      i := i + 1;
    }
    error := None;
  }

  /** `FeatureMetaclass.__new__`: the id attribute is found, the relations
      attached and the filters set, in that order. A second id field stops it
      before any relation changes (the id check as evidently intended;
      `IdAttributeAsWritten` models the check as written); an annotated forward relation without an
      inverse stops it after the relations before it are attached; a filter
      field without a relation stops it after all relations are attached.
      The class object is allocated last, with the settled attributes; no
      caller sees the object that Python allocates first, since every error
      drops it. */
  method NewFeatureType(name: string, annotations: map<string, string>, ns: Namespace,
                        typeTag: Option<string> := None, starts: Option<Member> := None, ends: Option<Member> := None)
    returns (r: Result<FeatureType, ClassError>)
    modifies Forwards(ns)`classOf, Backwards(ns)`classOf, InversesOf(ns)`classOf
    ensures IdAttribute(name, ns).Err? ==>
      && r == Err(IdAttribute(name, ns).error)
      && ClassesOf(Forwards(ns), Backwards(ns) + old(InversesOf(ns))) == old(ClassesOf(Forwards(ns), Backwards(ns) + InversesOf(ns)))
    ensures IdAttribute(name, ns).Ok? ==>
      var stop := Stop(ns, annotations, old(LinksOf(ns)));
      && RelationsAttached(ns, annotations, name, old(LinksOf(ns)), old(InversesOf(ns)),
                           old(ClassesOf(Forwards(ns), Backwards(ns) + InversesOf(ns))))
      && (stop < |ns| ==> r == Err(MissingAttribute("class_")))
      && (stop == |ns| && FilterOf(starts).Err? ==> r == Err(FilterOf(starts).error))
      && (stop == |ns| && FilterOf(starts).Ok? && FilterOf(ends).Err? ==> r == Err(FilterOf(ends).error))
      && (stop == |ns| && FilterOf(starts).Ok? && FilterOf(ends).Ok? ==>
            && r.Ok? && fresh(r.value)
            && r.value.name == name && r.value.annotations == annotations
            && r.value.idAttributeName == IdAttribute(name, ns).value
            && r.value.ownFilterType == typeTag
            && r.value.filterStarts == FilterOf(starts).value
            && r.value.filterEnds == FilterOf(ends).value)
  {
    ghost var inverses := InversesOf(ns);
    ghost var links := LinksOf(ns);
    ghost var before := ClassesOf(Forwards(ns), Backwards(ns) + inverses);
    var id := FindIdAttribute(name, ns);
    if id.Err? {
      return Err(id.error);
    }
    assert InversesOf(ns) == inverses && LinksOf(ns) == links;
    assert ClassesOf(Forwards(ns), Backwards(ns) + inverses) == before;
    var relationError := FillRelationClasses(name, annotations, ns);
    if relationError.Some? {
      return Err(relationError.value);
    }
    var startsFilter := FilterOf(starts);
    if startsFilter.Err? {
      return Err(startsFilter.error);
    }
    var endsFilter := FilterOf(ends);
    if endsFilter.Err? {
      return Err(endsFilter.error);
    }
    var cls := new FeatureType(name, annotations, id.value, typeTag, startsFilter.value, endsFilter.value);
    r := Ok(cls);
  }
}

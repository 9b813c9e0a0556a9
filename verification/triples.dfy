/** The triple value type: three typed nodes, structural equality, the
    value getters and the N-Triples rendering of each node. */
module Triples {
  import opened Wrappers

  /** The node type that renders as an IRI; every other type renders as a literal. */
  const UriKind := "uri"

  /** A typed node `{type, value, datatype?}` as it arrives in a delta
      notification. `kind` is the node's `type` field. */
  datatype Node = Node(kind: string, value: string, dtype: Option<string>)

  /** The IRI and string escapers the rendering delegates to. They belong to a
      library outside this model, so they are parameters: nothing is assumed
      about them. */
  datatype Escapers = Escapers(escapeUri: string -> string, escapeString: string -> string)

  /** The rendering of a triple: one N-Triples term per position. */
  datatype NTriple = NTriple(subjectTerm: string, predicateTerm: string, objectTerm: string)

  /** What equality sees of the triple-level datatype: its type and value,
      or nothing when it is absent. */
  function DatatypeView(d: Option<Node>): Option<(string, string)>
  {
    match d
    case None => None
    case Some(n) => Some((n.kind, n.value))
  }

  /** A statement. `tripleDatatype` is the optional triple-level datatype field the
      constructor copies from its argument; it is distinct from the object
      node's own `dtype`. */
  datatype Triple = Triple(subjectNode: Node, predicateNode: Node, objectNode: Node, tripleDatatype: Option<Node>)
  {
    /** Structural equality: type and value of the three nodes and of the
        triple-level datatype. The nodes' own datatypes are not compared. */
    predicate IsEqual(other: Triple)
    {
      && subjectNode.kind == other.subjectNode.kind
      && subjectNode.value == other.subjectNode.value
      && predicateNode.kind == other.predicateNode.kind
      && predicateNode.value == other.predicateNode.value
      && objectNode.kind == other.objectNode.kind
      && objectNode.value == other.objectNode.value
      && DatatypeView(tripleDatatype) == DatatypeView(other.tripleDatatype)
    }

    /** The subject getter: the subject node's value string. */
    function Subject(): string { subjectNode.value }

    /** The predicate getter: the predicate node's value string. */
    function Predicate(): string { predicateNode.value }

    /** The object getter: the object node's value string. */
    function Object(): string { objectNode.value }

    function SubjectNt(esc: Escapers): string { NodeTerm(esc, subjectNode) }

    function PredicateNt(esc: Escapers): string { NodeTerm(esc, predicateNode) }

    function ObjectNt(esc: Escapers): string { NodeTerm(esc, objectNode) }

    /** The three renderings, position by position. */
    function ToNTriple(esc: Escapers): (r: NTriple)
      ensures r.subjectTerm == SubjectNt(esc)
      ensures r.predicateTerm == PredicateNt(esc)
      ensures r.objectTerm == ObjectNt(esc)
    {
      NTriple(SubjectNt(esc), PredicateNt(esc), ObjectNt(esc))
    }
  }

  /** JavaScript truthiness of the node's `datatype`: present and non-empty. */
  predicate HasDatatype(n: Node)
  {
    n.dtype.Some? && |n.dtype.value| > 0
  }

  /** `_toNtriple`, one node as an N-Triples term: an escaped IRI for a `uri` node, an
      escaped string otherwise, followed by `^^` and the escaped datatype IRI
      when the node has a datatype. */
  function NodeTerm(esc: Escapers, n: Node): (r: string)
    ensures n.kind == UriKind ==> r == esc.escapeUri(n.value)
    ensures n.kind != UriKind ==>
      && |esc.escapeString(n.value)| <= |r|
      && r[..|esc.escapeString(n.value)|] == esc.escapeString(n.value)
      && (|r| == |esc.escapeString(n.value)| <==> !HasDatatype(n))
      && (HasDatatype(n) ==> r[|esc.escapeString(n.value)|..] == "^^" + esc.escapeUri(n.dtype.value))
  {
    if n.kind == UriKind then esc.escapeUri(n.value)
    else
      var lexical := esc.escapeString(n.value);
      if HasDatatype(n) then lexical + "^^" + esc.escapeUri(n.dtype.value) else lexical
  }

  /** The fields equality compares, as one value. */
  function Compared(t: Triple): (string, string, string, string, string, string, Option<(string, string)>)
  {
    (t.subjectNode.kind, t.subjectNode.value, t.predicateNode.kind, t.predicateNode.value,
     t.objectNode.kind, t.objectNode.value, DatatypeView(t.tripleDatatype))
  }

  /** Equality holds exactly when the compared fields coincide. */
  lemma IsEqualIffSameCompared(a: Triple, b: Triple)
    ensures a.IsEqual(b) <==> Compared(a) == Compared(b)
  {
  }

  /** Equality is reflexive, symmetric and transitive. */
  lemma IsEqualIsEquivalence()
    ensures forall a: Triple :: a.IsEqual(a)
    ensures forall a: Triple, b: Triple :: a.IsEqual(b) ==> b.IsEqual(a)
    ensures forall a: Triple, b: Triple, c: Triple :: a.IsEqual(b) && b.IsEqual(c) ==> a.IsEqual(c)
  {
  }

  /** The nodes' own datatypes play no part in equality: two triples that
      differ only there are equal. */
  lemma IsEqualIgnoresNodeDatatypes(t: Triple, ds: Option<string>, dp: Option<string>, dob: Option<string>)
    ensures t.IsEqual(t.(subjectNode := t.subjectNode.(dtype := ds),
                          predicateNode := t.predicateNode.(dtype := dp),
                          objectNode := t.objectNode.(dtype := dob)))
  {
  }

  /** Equal triples agree on all three getters, so in particular on the
      (subject, predicate) pair. */
  lemma IsEqualSameValues(a: Triple, b: Triple)
    requires a.IsEqual(b)
    ensures a.Subject() == b.Subject() && a.Predicate() == b.Predicate() && a.Object() == b.Object()
  {
  }

  /** The getters read the node values only; node types and datatypes do not
      change them. */
  lemma GettersIgnoreKindAndDatatype(t: Triple, u: Triple)
    requires t.subjectNode.value == u.subjectNode.value
    requires t.predicateNode.value == u.predicateNode.value
    requires t.objectNode.value == u.objectNode.value
    ensures t.Subject() == u.Subject() && t.Predicate() == u.Predicate() && t.Object() == u.Object()
  {
  }

  /** An IRI node renders the same whatever its datatype. */
  lemma UriRenderingIgnoresDatatype(esc: Escapers, n: Node, d: Option<string>)
    requires n.kind == UriKind
    ensures NodeTerm(esc, n.(dtype := d)) == NodeTerm(esc, n) == esc.escapeUri(n.value)
  {
  }

  /** An empty datatype string is falsy, so it renders like a missing one. */
  lemma EmptyDatatypeRendersAsAbsent(esc: Escapers, n: Node)
    ensures NodeTerm(esc, n.(dtype := Some(""))) == NodeTerm(esc, n.(dtype := None))
  {
  }

  /** Equal triples whose nodes carry the same datatypes render identically. */
  lemma IsEqualSameRendering(esc: Escapers, a: Triple, b: Triple)
    requires a.IsEqual(b)
    requires a.subjectNode.dtype == b.subjectNode.dtype
    requires a.predicateNode.dtype == b.predicateNode.dtype
    requires a.objectNode.dtype == b.objectNode.dtype
    ensures a.ToNTriple(esc) == b.ToNTriple(esc)
  {
    assert a.subjectNode == b.subjectNode;
    assert a.predicateNode == b.predicateNode;
    assert a.objectNode == b.objectNode;
  }

  /** Escapers that leave their argument unchanged. */
  function Verbatim(): Escapers
  {
    Escapers(s => s, s => s)
  }

  /** Equality does not imply equal renderings: two typed literals with the
      same lexical value and different datatypes are equal, yet render with
      different `^^` suffixes. */
  lemma EqualTriplesMayRenderDifferently()
    ensures exists a: Triple, b: Triple :: a.IsEqual(b) && a.ToNTriple(Verbatim()) != b.ToNTriple(Verbatim())
  {
    var s := Node(UriKind, "ex:a", None);
    var p := Node(UriKind, "ex:age", None);
    var a := Triple(s, p, Node("typed-literal", "1", Some("xsd:integer")), None);
    var b := Triple(s, p, Node("typed-literal", "1", Some("xsd:string")), None);
    assert a.ToNTriple(Verbatim()).objectTerm == "1^^xsd:integer";
    assert b.ToNTriple(Verbatim()).objectTerm == "1^^xsd:string";
    assert a.IsEqual(b);
  }
}

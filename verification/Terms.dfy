/** Stock result types. */
module Wrappers {
  datatype Option<+T> = None | Some(value: T)

  datatype Result<+T, +E> = Ok(value: T) | Err(error: E)
}

/**
 The RDF vocabulary every other module speaks.

 An IRI is kept by what it is rather than by its spelling: the graph names the server
 mints (resource, auxiliary, system, shelf) and the skolem IRIs are constructors of their
 own. `GraphNames.RenderIsInjective` proves that spelling them out loses nothing, so comparing
 these values is comparing the strings the store compares.
 */
module Terms {
  datatype VocabTerm =
    | SysPresent | SysMediaType | SysHasSubgraph | SysGraphName | SysBinaryResource
    | RdfType | LdpContains | LdpContainer | LdpBasicContainer

  datatype Iri =
    | ResourceIri(path: string)          // the graph of the resource or container at `path`
    | AuxIri(subject: string)            // the graph of the ACL of the resource at `subject`
    | SysIri(of: Iri)                    // urn:quadpod:sys:<of>
    | ShelfIri(owner: Iri, name: Iri)    // urn:quadpod:subgraph:<hash of owner and name>
    | SkolemIri(suffix: string)          // urn:quadpod:bnode:<suffix>
    | Vocab(v: VocabTerm)
    | OtherIri(text: string)

  datatype Direction = Ltr | Rtl

  /** `Directional` is RDF 1.2's language-tagged string with a base direction. */
  datatype Literal =
    | Simple(lexical: string)
    | Typed(lexical: string, datatype_: Iri)
    | Tagged(lexical: string, language: string)
    | Directional(lexical: string, language: string, direction: Direction)

  // ----- stored form: no blank node can be written down -----

  datatype GroundTerm = Node(iri: Iri) | Lit(literal: Literal) | Quoted(triple: GroundTriple)
  datatype GroundTriple = GroundTriple(s: Iri, p: Iri, o: GroundTerm)
  datatype GroundGraph = DefaultGraph | Named(name: Iri)
  datatype GroundQuad = GroundQuad(triple: GroundTriple, graph: GroundGraph)

  // ----- client form: blank nodes intact -----

  datatype Name = IriName(iri: Iri) | BlankName(id: string)
  datatype Term = TName(name: Name) | TLit(literal: Literal) | TTriple(triple: Triple)
  datatype Triple = Triple(s: Name, p: Iri, o: Term)
  datatype Graph = Unnamed | In(name: Name)
  datatype Quad = Quad(triple: Triple, graph: Graph)

  // ----- the reserved namespace -----

  predicate ServerTerm(v: VocabTerm) {
    v.SysPresent? || v.SysMediaType? || v.SysHasSubgraph? || v.SysGraphName? || v.SysBinaryResource?
  }

  function AsciiLower(c: char): char { if 'A' <= c <= 'Z' then c - 'A' + 'a' else c }

  const RESERVED_PREFIX := "urn:quadpod:"

  /** `is_reserved_iri` on the text: the prefix in any ASCII case. */
  predicate ReservedText(text: string) {
    |text| >= |RESERVED_PREFIX| && forall i :: 0 <= i < |RESERVED_PREFIX| ==> AsciiLower(text[i]) == RESERVED_PREFIX[i]
  }

  /** The same by what the IRI is; `GraphNames.ReservedIsThePrefix` says it is the same. */
  predicate IsReserved(i: Iri) {
    match i
    case SysIri(_) => true
    case ShelfIri(_, _) => true
    case SkolemIri(_) => true
    case Vocab(v) => ServerTerm(v)
    case OtherIri(text) => ReservedText(text)
    case _ => false
  }
}

/** The five formats the pod reads and writes (src/rdf.rs). */
module Formats {
  import opened Wrappers

  datatype Format = Turtle | NTriples | JsonLd | TriG | NQuads {
    function MediaType(): string {
      match this
      case Turtle => "text/turtle"
      case NTriples => "application/n-triples"
      case JsonLd => "application/ld+json"
      case TriG => "application/trig"
      case NQuads => "application/n-quads"
    }

    predicate CarriesDataset() { JsonLd? || TriG? || NQuads? }
  }

  /** Both `Format::ALL` and the list of what `If-Match` is compared against. */
  const ALL: seq<Format> := [Turtle, NTriples, JsonLd, TriG, NQuads]

  /** `from_content_type`, on a media type already stripped and lower-cased. */
  function FromMediaType(mt: string): (f: Option<Format>)
    ensures f.Some? ==> f.value.MediaType() == mt
    ensures f.None? ==> forall g: Format :: g.MediaType() != mt
  {
    if mt == "text/turtle" then Some(Turtle)
    else if mt == "application/n-triples" then Some(NTriples)
    else if mt == "application/ld+json" then Some(JsonLd)
    else if mt == "application/trig" then Some(TriG)
    else if mt == "application/n-quads" then Some(NQuads)
    else None
  }

  lemma MediaTypesDiffer(f: Format, g: Format)
    requires f.MediaType() == g.MediaType()
    ensures f == g
  {
    var a, b := f.MediaType(), g.MediaType();
    assert a[0] == b[0] && (|a| > 14 && |b| > 14 ==> a[14] == b[14] && a[12] == b[12]);
  }
}

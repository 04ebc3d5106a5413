/**
 The strings behind `Terms.Iri`, and why treating IRIs by what they are is safe: two
 canonical IRIs that are spelled alike are the same IRI (src/space.rs, src/shelf.rs,
 `resource::sys_graph_iri`).
 */
module GraphNames {
  import opened Terms
  import opened Paths
  import opened Space

  /** Namespace and local part of each vocabulary term; the local part never holds a slash. */
  function Spelling(v: VocabTerm): (string, string) {
    match v
    case SysPresent => ("urn:quadpod:sys#", "present")
    case SysMediaType => ("urn:quadpod:sys#", "mediaType")
    case SysHasSubgraph => ("urn:quadpod:sys#", "hasSubgraph")
    case SysGraphName => ("urn:quadpod:sys#", "graphName")
    case SysBinaryResource => ("urn:quadpod:sys#", "BinaryResource")
    case RdfType => ("http://www.w3.org/1999/02/22-rdf-syntax-ns#", "type")
    case LdpContains => ("http://www.w3.org/ns/ldp#", "contains")
    case LdpContainer => ("http://www.w3.org/ns/ldp#", "Container")
    case LdpBasicContainer => ("http://www.w3.org/ns/ldp#", "BasicContainer")
  }

  const NUL: char := 0 as char

  /** The spellings only the server builds. A client may name another IRI of the reserved namespace. */
  predicate MintedText(text: string) {
    "urn:quadpod:sys:" <= text || "urn:quadpod:sys#" <= text || "urn:quadpod:subgraph:" <= text
    || "urn:quadpod:bnode:" <= text
  }

  /** `hash` stands for SHA-256 in hex, which the shelf key applies to owner, 0x00, name. */
  datatype Spelled = Spelled(space: StorageSpace, hash: string -> string) {
    ghost predicate Valid() {
      space.Valid() && NUL !in space.base &&
      (forall x, y :: hash(x) == hash(y) ==> x == y) && (forall x :: NUL !in hash(x))
    }

    function Render(i: Iri): string {
      match i
      case ResourceIri(path) => space.base + (if path == "" then "" else path[1..])
      case AuxIri(subject) => space.base + AuxPath(subject, Acl)[1..]
      case SysIri(of) => "urn:quadpod:sys:" + Render(of)
      case ShelfIri(owner, name) => "urn:quadpod:subgraph:" + hash(Render(owner) + [NUL] + Render(name))
      case SkolemIri(suffix) => "urn:quadpod:bnode:" + suffix
      case Vocab(v) => Spelling(v).0 + Spelling(v).1
      case OtherIri(text) => text
    }

    /** Built the way the server builds it, or, for any other text, not one of those spellings. */
    ghost predicate Canonical(i: Iri) {
      match i
      case ResourceIri(path) => Acceptable(path) && NUL !in path
      case AuxIri(subject) => Acceptable(subject) && NUL !in subject
      case SysIri(of) => Canonical(of)
      case ShelfIri(owner, name) => Canonical(owner) && Canonical(name)
      case SkolemIri(suffix) => NUL !in suffix
      case Vocab(_) => true
      case OtherIri(text) =>
        NUL !in text && !MintedText(text)
        && (forall v :: text != Render(Vocab(v)))
        && (forall p :: Acceptable(p) ==> text != Render(ResourceIri(p)) && text != Render(AuxIri(p)))
    }
  }

  lemma VocabFacts(v: VocabTerm)
    ensures var (ns, local) := Spelling(v); SlashFree(local) && |ns| > 15 && ns[|ns| - 1] == '#'
    ensures !ServerTerm(v) ==> "http" <= Spelling(v).0
    ensures ServerTerm(v) ==> Spelling(v).0 == "urn:quadpod:sys#"
    ensures NUL !in Spelling(v).0 + Spelling(v).1
  {
    SpellingIsPrintable(v);
    SpellingShape(v);
    assert NUL !in Spelling(v).0 + Spelling(v).1;
  }

  lemma SpellingShape(v: VocabTerm)
    ensures SlashFree(Spelling(v).1)
    ensures var ns := Spelling(v).0; |ns| > 15 && ns[|ns| - 1] == '#'
    ensures !ServerTerm(v) ==> "http" <= Spelling(v).0
  {
  }

  lemma SpellingIsPrintable(v: VocabTerm)
    ensures NUL !in Spelling(v).0 && NUL !in Spelling(v).1
  {
    NamespacesArePrintable();
    LocalNamesArePrintable();
  }

  lemma NamespacesArePrintable()
    ensures NUL !in "urn:quadpod:sys#" && NUL !in "http://www.w3.org/ns/ldp#"
    ensures NUL !in "http://www.w3.org/1999/02/22-rdf-syntax-ns#"
  {
  }

  lemma LocalNamesArePrintable()
    ensures NUL !in "present" && NUL !in "mediaType" && NUL !in "hasSubgraph" && NUL !in "graphName"
            && NUL !in "BinaryResource"
    ensures NUL !in "type" && NUL !in "contains" && NUL !in "Container" && NUL !in "BasicContainer"
  {
  }

  lemma {:induction false} RenderHasNoNul(c: Spelled, i: Iri)
    requires c.Valid() && c.Canonical(i)
    ensures NUL !in c.Render(i)
  {
    assert NUL < ' ';
    match i {
      case ResourceIri(path) =>
      case AuxIri(subject) => assert NUL !in AuxPath(subject, Acl);
      case SysIri(of) => RenderHasNoNul(c, of);
      case ShelfIri(_, _) =>
      case SkolemIri(_) =>
      case Vocab(v) => VocabFacts(v);
      case OtherIri(_) =>
    }
  }

  /** Server URLs begin with the base and leave no `#` after it. */
  lemma UrlFacts(c: Spelled, path: string)
    requires c.Valid() && Acceptable(path)
    ensures '#' !in path && path == "/" + path[1..]
    ensures '#' !in AuxPath(path, Acl) && AuxPath(path, Acl) == "/" + AuxPath(path, Acl)[1..]
    ensures SegmentRemainder(AuxPath(path, Acl), ".aux").Some?
  {
    assert "/.aux"[..1] == "/";
    assert AuxPath(path, Acl) == "/" + ".aux" + (path + ".acl");
    assert AuxPath(path, Acl)[|".aux"| + 1..] == path + ".acl";
  }

  /** A server URL is not a vocabulary term: the base ends in a slash, and no term has one after its `#`. */
  lemma UrlIsNotVocab(c: Spelled, rest: string, v: VocabTerm)
    requires c.Valid() && '#' !in rest
    ensures c.space.base + rest != c.Render(Vocab(v))
  {
    VocabFacts(v);
    var (ns, local) := Spelling(v);
    var b := c.space.base;
    var url, term := b + rest, ns + local;
    assert b[|b| - 1..] == "/" && url[|b| - 1] == '/';
    assert forall i :: |b| <= i < |url| ==> url[i] != '#';
    assert term[|ns| - 1] == '#';
    assert forall i :: |ns| <= i < |term| ==> term[i] != '/';
  }

  lemma {:induction false} SplitAtNul(a: string, b: string, x: string, y: string)
    requires NUL !in a && NUL !in x
    requires a + [NUL] + b == x + [NUL] + y
    ensures a == x && b == y
  {
    var s, t := a + [NUL] + b, x + [NUL] + y;
    assert s[|a|] == NUL && forall i :: 0 <= i < |a| ==> s[i] != NUL;
    assert t[|x|] == NUL && forall i :: 0 <= i < |x| ==> t[i] != NUL;
    assert a == s[..|a|] && x == t[..|x|];
    assert b == s[|a| + 1..] && y == t[|x| + 1..];
  }

  lemma SameUrl(c: Spelled, p: string, q: string)
    requires c.space.base + p == c.space.base + q
    ensures p == q
  {
    assert p == (c.space.base + p)[|c.space.base|..];
  }

  predicate Minted(i: Iri) {
    i.SysIri? || i.ShelfIri? || i.SkolemIri? || (i.Vocab? && ServerTerm(i.v))
  }

  lemma MintedPrefix(c: Spelled, i: Iri)
    requires c.Valid() && Minted(i)
    ensures "urn:quadpod:" <= c.Render(i) && |c.Render(i)| > 15 && MintedText(c.Render(i))
    ensures var t := c.Render(i);
            t[12] == (if i.SkolemIri? then 'b' else 's') &&
            t[13] == (if i.SkolemIri? then 'n' else if i.ShelfIri? then 'u' else 'y') &&
            (i.SysIri? ==> t[15] == ':') && (i.Vocab? ==> t[15] == '#')
  {
    match i {
      case SysIri(of) => assert c.Render(i) == "urn:quadpod:sys:" + c.Render(of);
      case ShelfIri(o, n) => assert c.Render(i)[..21] == "urn:quadpod:subgraph:";
      case SkolemIri(x) => assert c.Render(i) == "urn:quadpod:bnode:" + x;
      case Vocab(v) => VocabFacts(v);
    }
  }

  lemma UnmintedPrefix(c: Spelled, i: Iri)
    requires c.Valid() && c.Canonical(i) && !Minted(i)
    ensures !MintedText(c.Render(i))
    ensures !i.OtherIri? ==> c.Render(i) != "" && c.Render(i)[0] == 'h'
  {
    var b := c.space.base;
    assert "http" <= b && |b| >= 4 && b[0] == 'h';
    match i {
      case ResourceIri(_) => assert c.Render(i)[0] == b[0];
      case AuxIri(_) => assert c.Render(i)[0] == b[0];
      case Vocab(v) => VocabFacts(v); assert c.Render(i)[0] == 'h';
      case OtherIri(_) =>
    }
  }

  function TextLength(v: VocabTerm): nat {
    match v
    case SysPresent => 23
    case SysMediaType => 25
    case SysHasSubgraph => 27
    case SysGraphName => 25
    case SysBinaryResource => 30
    case RdfType => 47
    case LdpContains => 33
    case LdpContainer => 34
    case LdpBasicContainer => 39
  }

  lemma SpellingLength(v: VocabTerm)
    ensures |Spelling(v).0 + Spelling(v).1| == TextLength(v)
  {
  }

  /** The lengths tell all terms apart but two, and those two differ in the first letter of the local name. */
  lemma VocabIsInjective(v: VocabTerm, w: VocabTerm)
    requires Spelling(v).0 + Spelling(v).1 == Spelling(w).0 + Spelling(w).1
    ensures v == w
  {
    SpellingLength(v);
    SpellingLength(w);
    MediaTypeIsNotGraphName();
  }

  lemma MediaTypeIsNotGraphName()
    ensures Spelling(SysMediaType).0 + Spelling(SysMediaType).1 != Spelling(SysGraphName).0 + Spelling(SysGraphName).1
  {
    var s := Spelling(SysMediaType).0 + Spelling(SysMediaType).1;
    var t := Spelling(SysGraphName).0 + Spelling(SysGraphName).1;
    assert s[16] == 'm' && t[16] == 'g';
  }

  /** Spelling is faithful: canonical IRIs with one spelling are one IRI. In particular the resource,
      auxiliary, system and shelf graphs of a pod are pairwise different graphs of its store, and a
      shelf has one owner and one name. */
  lemma {:induction false} RenderIsInjective(c: Spelled, a: Iri, b: Iri)
    requires c.Valid() && c.Canonical(a) && c.Canonical(b)
    requires c.Render(a) == c.Render(b)
    ensures a == b
    decreases a
  {
    if Minted(a) || Minted(b) {
      if !Minted(a) { UnmintedPrefix(c, a); MintedPrefix(c, b); }
      else if !Minted(b) { UnmintedPrefix(c, b); MintedPrefix(c, a); }
      else { MintedIsInjective(c, a, b); }
    } else {
      UnmintedIsInjective(c, a, b);
    }
  }

  lemma {:induction false} MintedIsInjective(c: Spelled, a: Iri, b: Iri)
    requires c.Valid() && c.Canonical(a) && c.Canonical(b) && Minted(a) && Minted(b)
    requires c.Render(a) == c.Render(b)
    ensures a == b
    decreases a, 0
  {
    MintedPrefix(c, a);
    MintedPrefix(c, b);
    match a {
      case SysIri(x) =>
        assert c.Render(x) == c.Render(a)[16..] && c.Render(b.of) == c.Render(b)[16..];
        RenderIsInjective(c, x, b.of);
      case ShelfIri(o, n) =>
        var h, k := c.Render(o) + [NUL] + c.Render(n), c.Render(b.owner) + [NUL] + c.Render(b.name);
        assert c.hash(h) == c.Render(a)[21..] && c.hash(k) == c.Render(b)[21..];
        RenderHasNoNul(c, o);
        RenderHasNoNul(c, b.owner);
        SplitAtNul(c.Render(o), c.Render(n), c.Render(b.owner), c.Render(b.name));
        RenderIsInjective(c, o, b.owner);
        RenderIsInjective(c, n, b.name);
      case SkolemIri(x) =>
        assert x == c.Render(a)[18..] && b.suffix == c.Render(b)[18..];
      case Vocab(v) => VocabIsInjective(v, b.v);
    }
  }

  lemma UnmintedIsInjective(c: Spelled, a: Iri, b: Iri)
    requires c.Valid() && c.Canonical(a) && c.Canonical(b) && !Minted(a) && !Minted(b)
    requires c.Render(a) == c.Render(b)
    ensures a == b
  {
    match (a, b) {
      case (ResourceIri(p), ResourceIri(q)) =>
        UrlFacts(c, p); UrlFacts(c, q);
        SameUrl(c, p[1..], q[1..]);
      case (AuxIri(p), AuxIri(q)) =>
        UrlFacts(c, p); UrlFacts(c, q);
        SameUrl(c, AuxPath(p, Acl)[1..], AuxPath(q, Acl)[1..]);
        assert p == AuxPath(p, Acl)[5..|AuxPath(p, Acl)| - 4] && q == AuxPath(q, Acl)[5..|AuxPath(q, Acl)| - 4];
      case (ResourceIri(p), AuxIri(q)) => ResourceIsNotAux(c, p, q);
      case (AuxIri(q), ResourceIri(p)) => ResourceIsNotAux(c, p, q);
      case (ResourceIri(p), Vocab(v)) => UrlFacts(c, p); UrlIsNotVocab(c, p[1..], v);
      case (Vocab(v), ResourceIri(p)) => UrlFacts(c, p); UrlIsNotVocab(c, p[1..], v);
      case (AuxIri(p), Vocab(v)) => UrlFacts(c, p); UrlIsNotVocab(c, AuxPath(p, Acl)[1..], v);
      case (Vocab(v), AuxIri(p)) => UrlFacts(c, p); UrlIsNotVocab(c, AuxPath(p, Acl)[1..], v);
      case (Vocab(v), Vocab(w)) => VocabIsInjective(v, w);
      case _ =>
    }
  }

  /** The leading `/.aux` keeps the two URL spaces apart. */
  lemma ResourceIsNotAux(c: Spelled, p: string, q: string)
    requires c.Valid() && Acceptable(p) && Acceptable(q)
    ensures c.Render(ResourceIri(p)) != c.Render(AuxIri(q))
  {
    UrlFacts(c, p);
    UrlFacts(c, q);
    AcceptableIsUnreserved(p);
    if c.Render(ResourceIri(p)) == c.Render(AuxIri(q)) {
      SameUrl(c, p[1..], AuxPath(q, Acl)[1..]);
    }
  }

  /** The server's own test for its namespace, made on the spelling, is the test on what the IRI is. */
  lemma ReservedIsThePrefix(c: Spelled, i: Iri)
    requires c.Valid() && c.Canonical(i)
    ensures ReservedText(c.Render(i)) <==> IsReserved(i)
  {
    if Minted(i) {
      MintedPrefix(c, i);
      assert forall k :: 0 <= k < 12 ==> c.Render(i)[k] == "urn:quadpod:"[k];
    } else {
      UnmintedPrefix(c, i);
    }
  }
}

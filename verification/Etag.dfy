/**
 Validators (src/dataset.rs, `Skolemized::etag`; src/rdf.rs, `Format::serialize`). Rendering a
 quad as a line of N-Quads and hashing are parameters, both taken as injective.
 */
module Etag {
  import opened Collections
  import opened Wrappers
  import opened Terms
  import opened Skolem
  import opened Versions
  import opened Formats
  import opened LossChecks
  import opened GraphNames

  // ----- canonical order -----

  /** Lexicographic order by code point, which is what sorting UTF-8 strings comes to. */
  predicate Le(a: string, b: string) {
    a == "" || (b != "" && (a[0] < b[0] || (a[0] == b[0] && Le(a[1..], b[1..]))))
  }

  lemma {:induction false} LeIsTotal(a: string, b: string)
    ensures Le(a, b) || Le(b, a)
    ensures Le(a, b) && Le(b, a) ==> a == b
  {
    if a != "" && b != "" {
      LeIsTotal(a[1..], b[1..]);
      assert a == [a[0]] + a[1..] && b == [b[0]] + b[1..];
    }
  }

  lemma {:induction false} LeIsTransitive(a: string, b: string, c: string)
    requires Le(a, b) && Le(b, c)
    ensures Le(a, c)
  {
    if a != "" && a[0] == b[0] == c[0] { LeIsTransitive(a[1..], b[1..], c[1..]); }
  }

  /** That is: one is the start of the other, or it has the smaller character where they first differ. */
  lemma {:induction false} LeIsLexicographic(a: string, b: string)
    ensures Le(a, b) <==>
      a <= b || exists n :: 0 <= n < |a| && n < |b| && a[..n] == b[..n] && a[n] < b[n]
  {
    if a != "" && b != "" {
      LeIsLexicographic(a[1..], b[1..]);
      assert a == [a[0]] + a[1..] && b == [b[0]] + b[1..];
      if a[0] == b[0] {
        if n :| 0 <= n < |a[1..]| && n < |b[1..]| && a[1..][..n] == b[1..][..n] && a[1..][n] < b[1..][n] {
          assert a[..n + 1] == [a[0]] + a[1..][..n] && b[..n + 1] == [b[0]] + b[1..][..n];
          assert a[n + 1] < b[n + 1];
        }
        if n :| 0 <= n < |a| && n < |b| && a[..n] == b[..n] && a[n] < b[n] {
          assert a[1..][..n - 1] == a[..n][1..] && b[1..][..n - 1] == b[..n][1..];
          assert a[1..][n - 1] < b[1..][n - 1];
        }
      } else {
        assert a[..0] == b[..0];
        if n :| 0 <= n < |a| && n < |b| && a[..n] == b[..n] && a[n] < b[n] {
          assert n > 0 ==> a[..n][0] == b[..n][0];
        }
      }
    }
  }

  predicate KeyLe<A>(key: A -> string, a: A, b: A) { Le(key(a), key(b)) }

  function SortBy<A>(s: seq<A>, key: A -> string): seq<A> { Sort(s, (a, b) => KeyLe(key, a, b)) }

  ghost predicate SortedBy<A>(s: seq<A>, key: A -> string) {
    forall i, j :: 0 <= i < j < |s| ==> KeyLe(key, s[i], s[j])
  }

  lemma SortBySorts<A(!new)>(s: seq<A>, key: A -> string)
    ensures SortedBy(SortBy(s, key), key) && multiset(SortBy(s, key)) == multiset(s)
  {
    var le := (a, b) => KeyLe(key, a, b);
    forall x, y { LeIsTotal(key(x), key(y)); }
    forall x, y, z | le(x, y) && le(y, z) ensures le(x, z) { LeIsTransitive(key(x), key(y), key(z)); }
    SortOrders(s, le);
    SortKeepsElements(s, le);
  }

  /** The key tells the elements of `s` apart. */
  ghost predicate TellsApart<A(!new)>(key: A -> string, s: seq<A>) {
    forall x, y :: x in s && y in s && key(x) == key(y) ==> x == y
  }

  lemma SameElements<A>(a: seq<A>, b: seq<A>)
    requires multiset(a) == multiset(b)
    ensures forall x :: x in a <==> x in b
  {
    assert forall x :: (x in a <==> x in multiset(a)) && (x in b <==> x in multiset(b));
  }

  /** One multiset has one sorted order. */
  lemma {:induction false} SortedIsUnique<A(!new)>(a: seq<A>, b: seq<A>, key: A -> string)
    requires SortedBy(a, key) && SortedBy(b, key) && multiset(a) == multiset(b)
    requires TellsApart(key, a)
    ensures a == b
  {
    assert |multiset(a)| == |a| && |multiset(b)| == |b|;
    if a != [] {
      SameMultisetSameHead(a, b, key);
      HeadAndTail(a);
      HeadAndTail(b);
      SortedIsUnique(a[1..], b[1..], key);
    }
  }

  lemma HeadAndTail<A>(a: seq<A>)
    requires a != []
    ensures a == [a[0]] + a[1..] && multiset(a[1..]) == multiset(a) - multiset{a[0]}
  {
    assert a == [a[0]] + a[1..];
  }

  lemma SameMultisetSameHead<A(!new)>(a: seq<A>, b: seq<A>, key: A -> string)
    requires a != [] && b != [] && SortedBy(a, key) && SortedBy(b, key) && multiset(a) == multiset(b)
    requires TellsApart(key, a)
    ensures a[0] == b[0]
  {
    assert a[0] in multiset(b) by { assert a[0] in multiset(a); }
    assert b[0] in multiset(a) by { assert b[0] in multiset(b); }
    var i :| 0 <= i < |b| && b[i] == a[0];
    var j :| 0 <= j < |a| && a[j] == b[0];
    LeIsTotal(key(a[0]), key(b[0]));
  }

  lemma SortIgnoresOrder<A(!new)>(a: seq<A>, b: seq<A>, key: A -> string)
    requires TellsApart(key, a)
    ensures SortBy(a, key) == SortBy(b, key) <==> multiset(a) == multiset(b)
  {
    SortBySorts(a, key);
    SortBySorts(b, key);
    SameElements(SortBy(a, key), a);
    if multiset(a) == multiset(b) { SortedIsUnique(SortBy(a, key), SortBy(b, key), key); }
  }

  // ----- maps and filters respect multisets -----

  lemma RestOf<A>(s: seq<A>, i: nat)
    requires i < |s|
    ensures s == s[..i] + [s[i]] + s[i + 1..]
    ensures multiset(s[..i] + s[i + 1..]) == multiset(s) - multiset{s[i]}
  {
    assert s == s[..i] + [s[i]] + s[i + 1..];
  }

  lemma {:induction false} FilterMapRespects<A, B>(a: seq<A>, b: seq<A>, h: A -> Option<B>)
    requires multiset(a) == multiset(b)
    ensures multiset(FilterMap(a, h)) == multiset(FilterMap(b, h))
  {
    if a == [] {
      assert |multiset(b)| == |b|;
    } else {
      var init, last := a[..|a| - 1], a[|a| - 1];
      assert a == init + [last];
      assert last in multiset(b);
      var i :| 0 <= i < |b| && b[i] == last;
      var rest := b[..i] + b[i + 1..];
      WithoutOne(b[..i], last, b[i + 1..], h);
      RestOf(b, i);
      RestOf(a, |a| - 1);
      assert init + [] == init;
      FilterMapRespects(init, rest, h);
      FilterMapConcat(init, [last], h);
    }
  }

  lemma WithoutOne<A, B>(x: seq<A>, e: A, z: seq<A>, h: A -> Option<B>)
    ensures multiset(x + z) == multiset(x + [e] + z) - multiset{e}
    ensures multiset(FilterMap(x + [e] + z, h)) == multiset(FilterMap(x + z, h)) + multiset(FilterMap([e], h))
  {
    FilterMapConcat(x + [e], z, h);
    FilterMapConcat(x, [e], h);
    FilterMapConcat(x, z, h);
    MultisetConcat(x + [e], z);
    MultisetConcat(x, [e]);
    MultisetConcat(x, z);
    ThreeParts(FilterMap(x, h), FilterMap([e], h), FilterMap(z, h));
  }

  lemma ThreeParts<B>(x: seq<B>, y: seq<B>, z: seq<B>)
    ensures multiset(x + y + z) == multiset(x + z) + multiset(y)
  {
  }

  lemma MultisetConcat<A>(a: seq<A>, b: seq<A>)
    ensures multiset(a + b) == multiset(a) + multiset(b)
  {
  }

  // ----- the validator -----

  const XSD_STRING := OtherIri("http://www.w3.org/2001/XMLSchema#string")

  // Quads kept by what their IRIs are, where spelling those out loses nothing: `GraphNames.Spelled`
  // says which IRIs are, and a literal typed as a string is kept as a simple one.

  /** Letters, digits and single hyphens, as RDF 1.1 has them; the base direction follows two hyphens. */
  predicate LanguageTag(l: string) {
    (forall i :: 0 <= i < |l| ==> 'a' <= l[i] <= 'z' || 'A' <= l[i] <= 'Z' || '0' <= l[i] <= '9' || l[i] == '-')
    && forall i :: 0 < i < |l| ==> l[i] != '-' || l[i - 1] != '-'
  }

  ghost predicate CanonicalLiteral(c: Spelled, l: Literal) {
    match l
    case Simple(_) => true
    case Typed(_, datatype_) => c.Canonical(datatype_) && datatype_ != XSD_STRING
    case Tagged(_, language) => LanguageTag(language)
    case Directional(_, language, _) => LanguageTag(language)
  }

  ghost predicate CanonicalTerm(c: Spelled, t: GroundTerm) {
    match t
    case Node(i) => c.Canonical(i)
    case Lit(l) => CanonicalLiteral(c, l)
    case Quoted(tr) => c.Canonical(tr.s) && c.Canonical(tr.p) && CanonicalTerm(c, tr.o)
  }

  ghost predicate CanonicalQuad(c: Spelled, q: GroundQuad) {
    c.Canonical(q.triple.s) && c.Canonical(q.triple.p) && CanonicalTerm(c, q.triple.o)
    && (q.graph.Named? ==> c.Canonical(q.graph.name))
  }

  ghost predicate CanonicalState(c: Spelled, s: Stored) { forall q :: q in s ==> CanonicalQuad(c, q) }

  ghost predicate CanonicalName(c: Spelled, n: Name) { n.IriName? ==> c.Canonical(n.iri) }

  ghost predicate CanonicalVisibleTerm(c: Spelled, t: Term) {
    match t
    case TName(n) => CanonicalName(c, n)
    case TLit(l) => CanonicalLiteral(c, l)
    case TTriple(tr) => CanonicalName(c, tr.s) && c.Canonical(tr.p) && CanonicalVisibleTerm(c, tr.o)
  }

  ghost predicate CanonicalVisible(c: Spelled, q: Quad) {
    CanonicalName(c, q.triple.s) && c.Canonical(q.triple.p) && CanonicalVisibleTerm(c, q.triple.o)
    && (q.graph.In? ==> CanonicalName(c, q.graph.name))
  }

  /** A quad as a line of text, stored and visible, and SHA-256 in hex. */
  datatype Rendering =
    Rendering(spelled: Spelled, line: GroundQuad -> string, visibleLine: Quad -> string, hash: string -> string)
  {
    ghost predicate Valid() {
      (forall p, q | CanonicalQuad(spelled, p) && CanonicalQuad(spelled, q) :: line(p) == line(q) ==> p == q)
      && (forall q | CanonicalQuad(spelled, q) :: '\n' !in line(q))
      && (forall p, q | CanonicalVisible(spelled, p) && CanonicalVisible(spelled, q) ::
            visibleLine(p) == visibleLine(q) ==> p == q)
      && (forall x, y :: hash(x) == hash(y) ==> x == y)
    }

    ghost predicate Spells(s: Stored) { CanonicalState(spelled, s) }
  }

  function VersionLabel(v: RdfVersion): string {
    match v case Rdf11 => "1.1" case Rdf12Basic => "1.2-basic" case Rdf12 => "1.2"
  }

  function Terminated(lines: seq<string>): string {
    if lines == [] then "" else lines[0] + "\n" + Terminated(lines[1..])
  }

  function Lines(s: Stored, line: GroundQuad -> string): seq<string> { seq(|s|, i requires 0 <= i < |s| => line(s[i])) }

  function Preimage(fmt: Format, served: RdfVersion, lines: seq<string>): string {
    Terminated([fmt.MediaType(), VersionLabel(served)] + lines)
  }

  function Tag(s: Stored, fmt: Format, served: RdfVersion, r: Rendering): string {
    r.hash(Preimage(fmt, served, SortBy(Lines(s, r.line), (l: string) => l)))
  }

  lemma {:induction false} TerminatedConcat(a: seq<string>, last: string)
    ensures Terminated(a + [last]) == Terminated(a) + last + "\n"
  {
    if a == [] {
      assert ([] + [last])[1..] == [];
    } else {
      TerminatedConcat(a[1..], last);
      assert (a + [last])[1..] == a[1..] + [last];
    }
  }

  /** `Skolemized::etag`. */
  method ComputeTag(s: Stored, fmt: Format, served: RdfVersion, r: Rendering) returns (tag: string)
    ensures tag == Tag(s, fmt, served, r)
  {
    var lines: seq<string> := [];
    for i := 0 to |s|
      invariant lines == Lines(s[..i], r.line)
    {
      lines := lines + [r.line(s[i])];
    }
    assert s[..|s|] == s;
    lines := SortBy(lines, (l: string) => l);
    var head := [fmt.MediaType(), VersionLabel(served)];
    var h := fmt.MediaType() + "\n" + VersionLabel(served) + "\n";
    TerminatedConcat([], fmt.MediaType());
    TerminatedConcat([fmt.MediaType()], VersionLabel(served));
    assert [] + [fmt.MediaType()] == [fmt.MediaType()] && [fmt.MediaType()] + [VersionLabel(served)] == head;
    assert head + lines[..0] == head;
    for i := 0 to |lines|
      invariant h == Terminated(head + lines[..i])
    {
      TerminatedConcat(head + lines[..i], lines[i]);
      assert head + lines[..i] + [lines[i]] == head + lines[..i + 1];
      h := h + lines[i] + "\n";
    }
    assert lines[..|lines|] == lines;
    tag := r.hash(h);
  }

  predicate NoNewline(lines: seq<string>) { forall l :: l in lines ==> '\n' !in l }

  lemma FirstLine(a: string, x: string, b: string, y: string)
    requires '\n' !in a && '\n' !in b && a + "\n" + x == b + "\n" + y
    ensures a == b && x == y
  {
    var s, t := a + "\n" + x, b + "\n" + y;
    assert s[|a|] == '\n' && t[|b|] == '\n';
    assert (forall i :: 0 <= i < |a| ==> s[i] == a[i]) && (forall i :: 0 <= i < |b| ==> t[i] == b[i]);
    assert |a| == |b|;
    assert a == s[..|a|] && b == t[..|b|];
    assert x == s[|a| + 1..] && y == t[|b| + 1..];
  }

  /** Lines can be read back off their concatenation. */
  lemma {:induction false} TerminatedIsInjective(a: seq<string>, b: seq<string>)
    requires NoNewline(a) && NoNewline(b) && Terminated(a) == Terminated(b)
    ensures a == b
  {
    if a != [] && b != [] {
      FirstLine(a[0], Terminated(a[1..]), b[0], Terminated(b[1..]));
      TerminatedIsInjective(a[1..], b[1..]);
      assert a == [a[0]] + a[1..] && b == [b[0]] + b[1..];
    }
  }

  lemma {:induction false} LinesAreFilterMap(s: Stored, line: GroundQuad -> string)
    ensures Lines(s, line) == FilterMap(s, q => Some(line(q)))
  {
    if s != [] {
      LinesAreFilterMap(s[..|s| - 1], line);
      assert Lines(s, line) == Lines(s[..|s| - 1], line) + [line(s[|s| - 1])];
    }
  }

  ghost function Unline(line: GroundQuad -> string, among: Stored, l: string): Option<GroundQuad> {
    if exists q :: q in among && line(q) == l then var q :| q in among && line(q) == l; Some(q) else None
  }

  lemma {:induction false} LinesReadBack(s: Stored, line: GroundQuad -> string, among: Stored)
    requires TellsApart(line, among) && forall q :: q in s ==> q in among
    ensures FilterMap(Lines(s, line), l => Unline(line, among, l)) == s
  {
    if s != [] {
      var init, last := s[..|s| - 1], s[|s| - 1];
      LinesReadBack(init, line, among);
      assert Lines(s, line) == Lines(init, line) + [line(last)];
      assert Lines(s, line)[..|s| - 1] == Lines(init, line);
      assert Unline(line, among, line(last)) == Some(last);
      assert s == init + [last];
    }
  }

  /** The lines of two states are the same multiset exactly when the states are. */
  lemma LinesFollowQuads(a: Stored, b: Stored, line: GroundQuad -> string)
    requires TellsApart(line, a + b)
    ensures multiset(Lines(a, line)) == multiset(Lines(b, line)) <==> multiset(a) == multiset(b)
  {
    if multiset(a) == multiset(b) {
      LinesAreFilterMap(a, line);
      LinesAreFilterMap(b, line);
      FilterMapRespects(a, b, q => Some(line(q)));
    }
    if multiset(Lines(a, line)) == multiset(Lines(b, line)) {
      FilterMapRespects(Lines(a, line), Lines(b, line), l => Unline(line, a + b, l));
      LinesReadBack(a, line, a + b);
      LinesReadBack(b, line, a + b);
    }
  }

  lemma LabelsHaveNoNewline(fmt: Format, v: RdfVersion)
    ensures '\n' !in fmt.MediaType() && '\n' !in VersionLabel(v)
  {
  }

  lemma SortedLinesHaveNoNewline(s: Stored, r: Rendering)
    requires r.Valid() && r.Spells(s)
    ensures NoNewline(SortBy(Lines(s, r.line), (l: string) => l))
  {
    var lines := Lines(s, r.line);
    SortBySorts(lines, (l: string) => l);
    forall l | l in SortBy(lines, (l: string) => l) ensures '\n' !in l {
      assert l in multiset(SortBy(lines, (l: string) => l));
      assert l in lines;
    }
  }

  /** Two states share a validator exactly when they hold the same quads, as often, and are served in the
      same format at the same version. */
  lemma SameTagIffSameContent(a: Stored, f: Format, v: RdfVersion, b: Stored, g: Format, w: RdfVersion, r: Rendering)
    requires r.Valid() && r.Spells(a) && r.Spells(b)
    ensures Tag(a, f, v, r) == Tag(b, g, w, r) <==> f == g && v == w && multiset(a) == multiset(b)
  {
    var id := (l: string) => l;
    var x, y := SortBy(Lines(a, r.line), id), SortBy(Lines(b, r.line), id);
    assert TellsApart(r.line, a + b);
    LinesFollowQuads(a, b, r.line);
    SortIgnoresOrder(Lines(a, r.line), Lines(b, r.line), id);
    if Tag(a, f, v, r) == Tag(b, g, w, r) {
      SortedLinesHaveNoNewline(a, r);
      SortedLinesHaveNoNewline(b, r);
      PreimageIsInjective(f, v, x, g, w, y);
    }
  }

  lemma PreimageIsInjective(f: Format, v: RdfVersion, x: seq<string>, g: Format, w: RdfVersion, y: seq<string>)
    requires NoNewline(x) && NoNewline(y) && Preimage(f, v, x) == Preimage(g, w, y)
    ensures f == g && v == w && x == y
  {
    LabelsHaveNoNewline(f, v);
    LabelsHaveNoNewline(g, w);
    var p, q := [f.MediaType(), VersionLabel(v)] + x, [g.MediaType(), VersionLabel(w)] + y;
    TerminatedIsInjective(p, q);
    assert p[0] == q[0] && p[1] == q[1] && p[2..] == x && q[2..] == y;
    MediaTypesDiffer(f, g);
    assert |VersionLabel(v)| == |VersionLabel(w)| && VersionLabel(v)[2] == VersionLabel(w)[2];
  }

  // ----- the serializer agrees with the validator -----

  /** The quads in the order `Format::serialize` hands them to the writer. */
  function Serialized(d: Dataset, r: Rendering): Dataset { SortBy(d, r.visibleLine) }

  lemma {:induction false} VisibleIsFilterMap(s: Stored)
    ensures Visible(s) == FilterMap(s, q => Some(VisibleQuad(q)))
  {
    if s != [] {
      VisibleIsFilterMap(s[..|s| - 1]);
      assert Visible(s) == Visible(s[..|s| - 1]) + [VisibleQuad(s[|s| - 1])];
    }
  }

  lemma ServedRespects(a: Stored, b: Stored, fmt: Format, requested: RdfVersion)
    requires multiset(a) == multiset(b)
    ensures multiset(Served(a, fmt, requested)) == multiset(Served(b, fmt, requested))
  {
    VisibleIsFilterMap(a);
    VisibleIsFilterMap(b);
    FilterMapRespects(a, b, q => Some(VisibleQuad(q)));
    assert SameQuads(a, b) by {
      assert forall q :: (q in a <==> q in multiset(a)) && (q in b <==> q in multiset(b));
    }
    SameStoredSameVisible(a, b);
    var x, y := Visible(a), Visible(b);
    DefaultIsFilterMap(x);
    DefaultIsFilterMap(y);
    FilterMapRespects(x, y, (q: Quad) => if q.graph == Unnamed then Some(q) else None);
    var v := Min(requested, Held(a));
    var p := if fmt.CarriesDataset() then x else DefaultGraphOnly(x);
    var q := if fmt.CarriesDataset() then y else DefaultGraphOnly(y);
    ProjectToIsProjectQuads(p, v);
    ProjectToIsProjectQuads(q, v);
    ProjectionIsFilterMap(p, v);
    ProjectionIsFilterMap(q, v);
    FilterMapRespects(p, q, z => ProjectedQuad(z, v));
  }

  /** What the serializer is handed is the document itself, every quad as often, in the order of its lines. */
  lemma SerializedIsOrdered(d: Dataset, r: Rendering)
    ensures multiset(Serialized(d, r)) == multiset(d)
    ensures forall i, j :: 0 <= i < j < |Serialized(d, r)| ==>
              Le(r.visibleLine(Serialized(d, r)[i]), r.visibleLine(Serialized(d, r)[j]))
  {
    SortBySorts(d, r.visibleLine);
  }

  /** Two states a client cannot tell apart by validator reach the serializer as the same quads in the
      same order, so their representations are the same bytes. */
  lemma SameTagSameSerialization(a: Stored, b: Stored, fmt: Format, requested: RdfVersion, r: Rendering)
    requires r.Valid() && r.Spells(a) && r.Spells(b)
    requires Tag(a, fmt, Min(requested, Held(a)), r) == Tag(b, fmt, Min(requested, Held(b)), r)
    ensures Serialized(Served(a, fmt, requested), r) == Serialized(Served(b, fmt, requested), r)
  {
    SameTagIffSameContent(a, fmt, Min(requested, Held(a)), b, fmt, Min(requested, Held(b)), r);
    ServedRespects(a, b, fmt, requested);
    ServedIsCanonical(r.spelled, a, fmt, requested);
    SortIgnoresOrder(Served(a, fmt, requested), Served(b, fmt, requested), r.visibleLine);
  }

  /** Reading back, choosing the default graph and projecting leave canonical quads canonical. */
  lemma ServedIsCanonical(c: Spelled, s: Stored, fmt: Format, requested: RdfVersion)
    requires CanonicalState(c, s)
    ensures forall q :: q in Served(s, fmt, requested) ==> CanonicalVisible(c, q)
  {
    forall q | q in Visible(s) ensures CanonicalVisible(c, q) {
      var i :| 0 <= i < |s| && VisibleQuad(s[i]) == q;
      assert s[i] in s;
      VisibleTermIsCanonical(c, s[i].triple.o);
    }
    var d := if fmt.CarriesDataset() then Visible(s) else DefaultGraphOnly(Visible(s));
    ProjectToIsProjectQuads(d, Min(requested, Held(s)));
    ProjectionIsCanonical(c, d, Min(requested, Held(s)));
  }

  lemma {:induction false} VisibleTermIsCanonical(c: Spelled, t: GroundTerm)
    requires CanonicalTerm(c, t)
    ensures CanonicalVisibleTerm(c, VisibleTerm(t))
  {
    if t.Quoted? { VisibleTermIsCanonical(c, t.triple.o); }
  }

  lemma {:induction false} ProjectionIsCanonical(c: Spelled, d: Dataset, v: RdfVersion)
    requires forall q :: q in d ==> CanonicalVisible(c, q)
    ensures forall q :: q in ProjectQuads(d, v) ==> CanonicalVisible(c, q)
  {
    if d != [] {
      ProjectionIsCanonical(c, d[..|d| - 1], v);
      ProjectedIsCanonical(c, d[|d| - 1], v);
    }
  }

  lemma ProjectedIsCanonical(c: Spelled, q: Quad, v: RdfVersion)
    requires CanonicalVisible(c, q)
    ensures ProjectedQuad(q, v).Some? ==> CanonicalVisible(c, ProjectedQuad(q, v).value)
  {
  }
}

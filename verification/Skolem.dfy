/**
 Blank nodes on the way into the store and back (src/dataset.rs): skolemization with its
 recursive triple terms, its inverse, and the parse of what the store hands back.
 */
module Skolem {
  import opened Collections
  import opened Wrappers
  import opened Terms

  type Dataset = seq<Quad>
  type Stored = seq<GroundQuad>

  // ----- which blank nodes a dataset holds -----

  function BlanksOfName(n: Name): set<string> { if n.BlankName? then {n.id} else {} }

  function BlanksOfTerm(t: Term): set<string> {
    match t
    case TName(n) => BlanksOfName(n)
    case TLit(_) => {}
    case TTriple(tr) => BlanksOfName(tr.s) + BlanksOfTerm(tr.o)
  }

  function BlanksOfGraph(g: Graph): set<string> { if g.In? then BlanksOfName(g.name) else {} }

  function BlanksOfQuad(q: Quad): set<string> {
    BlanksOfName(q.triple.s) + BlanksOfTerm(q.triple.o) + BlanksOfGraph(q.graph)
  }

  function BlanksOf(d: Dataset): (blanks: set<string>)
    ensures forall i, b :: 0 <= i < |d| && b in BlanksOfQuad(d[i]) ==> b in blanks
  {
    if d == [] then {} else BlanksOf(d[..|d| - 1]) + BlanksOfQuad(d[|d| - 1])
  }

  // ----- what skolemizing with a given minting means -----

  /** Which suffix each blank node was given. */
  type Minting = string -> string

  function GroundName(n: Name, f: Minting): Iri {
    match n case IriName(i) => i case BlankName(b) => SkolemIri(f(b))
  }

  function GroundTermWith(t: Term, f: Minting): GroundTerm {
    match t
    case TName(n) => Node(GroundName(n, f))
    case TLit(l) => Lit(l)
    case TTriple(tr) => Quoted(GroundTriple(GroundName(tr.s, f), tr.p, GroundTermWith(tr.o, f)))
  }

  function GroundGraphWith(g: Graph, f: Minting): GroundGraph {
    match g case Unnamed => DefaultGraph case In(n) => Named(GroundName(n, f))
  }

  function GroundQuadWith(q: Quad, f: Minting): GroundQuad {
    GroundQuad(GroundTriple(GroundName(q.triple.s, f), q.triple.p, GroundTermWith(q.triple.o, f)),
               GroundGraphWith(q.graph, f))
  }

  function GroundAll(d: Dataset, f: Minting): Stored { seq(|d|, i requires 0 <= i < |d| => GroundQuadWith(d[i], f)) }

  ghost predicate Agree(f: Minting, g: Minting, blanks: set<string>) { forall b :: b in blanks ==> f(b) == g(b) }
  ghost predicate InjectiveOn(f: Minting, blanks: set<string>) {
    forall a, b :: a in blanks && b in blanks && f(a) == f(b) ==> a == b
  }

  lemma {:induction false} TermStable(t: Term, f: Minting, g: Minting)
    requires Agree(f, g, BlanksOfTerm(t))
    ensures GroundTermWith(t, f) == GroundTermWith(t, g)
  {
    if t.TTriple? { TermStable(t.triple.o, f, g); }
  }

  lemma QuadStable(q: Quad, f: Minting, g: Minting)
    requires Agree(f, g, BlanksOfQuad(q))
    ensures GroundQuadWith(q, f) == GroundQuadWith(q, g)
  {
    TermStable(q.triple.o, f, g);
  }

  // ----- skolemize -----

  const HYPHENS := {8, 13, 18, 23}

  predicate Alphanumeric(c: char) { 'a' <= c <= 'z' || 'A' <= c <= 'Z' || '0' <= c <= '9' }

  /** The 8-4-4-4-12 text form of a UUID. */
  predicate IsUuid(u: string) {
    |u| == 36 && forall i :: 0 <= i < 36 ==> if i in HYPHENS then u[i] == '-' else Alphanumeric(u[i])
  }

  predicate Distinct(uuids: seq<string>) { forall i, j :: 0 <= i < j < |uuids| ==> uuids[i] != uuids[j] }

  function Lookup(minted: map<string, string>): Minting { b => if b in minted then minted[b] else "" }

  ghost predicate Issued(uuids: seq<string>, n: nat, u: string) {
    exists k :: 0 <= k < n && k < |uuids| && uuids[k] == u
  }

  /** `minted` gave out the first UUIDs of the supply, each to one blank node. */
  ghost predicate DrawnFrom(minted: map<string, string>, uuids: seq<string>) {
    |minted| <= |uuids|
    && (forall b :: b in minted ==> Issued(uuids, |minted|, minted[b]))
    && (forall a, b :: a in minted && b in minted && minted[a] == minted[b] ==> a == b)
  }

  lemma DrawOneMore(minted: map<string, string>, uuids: seq<string>, b: string)
    requires DrawnFrom(minted, uuids) && Distinct(uuids) && |minted| < |uuids| && b !in minted
    ensures DrawnFrom(minted[b := uuids[|minted|]], uuids)
  {
    var n, u := |minted|, uuids[|minted|];
    var next := minted[b := u];
    assert next.Keys == minted.Keys + {b} && |next| == |next.Keys| && |minted| == |minted.Keys|;
    assert !Issued(uuids, n, u) && Issued(uuids, n + 1, u);
    forall x | x in minted ensures Issued(uuids, n + 1, minted[x]) && minted[x] != u {
      assert Issued(uuids, n, minted[x]);
    }
  }

  /** The closure state of one `skolemize` call: the map it fills, and the UUIDs the generator is
      going to return, which never repeat. */
  class Minter {
    var minted: map<string, string>
    const uuids: seq<string>
    ghost const universe: set<string>

    ghost predicate Valid()
      reads this
    {
      Distinct(uuids) && (forall u :: u in uuids ==> IsUuid(u))
      && |universe| <= |uuids| && minted.Keys <= universe && DrawnFrom(minted, uuids)
    }

    ghost predicate Extends(was: map<string, string>, needed: set<string>)
      reads this
    {
      was.Keys + needed <= minted.Keys && forall b :: b in was ==> minted[b] == was[b]
    }

    constructor (uuids: seq<string>, ghost universe: set<string>)
      requires Distinct(uuids) && |universe| <= |uuids| && (forall u :: u in uuids ==> IsUuid(u))
      ensures Valid() && minted == map[] && this.uuids == uuids && this.universe == universe
    {
      minted, this.uuids, this.universe := map[], uuids, universe;
    }

    /** One IRI per distinct blank node: minted on first sight, found again ever after. */
    method IriFor(b: string) returns (i: Iri)
      requires Valid() && b in universe
      modifies this`minted
      ensures Valid() && Extends(old(minted), {b}) && i == SkolemIri(Lookup(minted)(b))
    {
      if b !in minted {
        ProperSubsetIsSmaller(minted.Keys, universe, b);
        assert |minted| == |minted.Keys|;
        DrawOneMore(minted, uuids, b);
        minted := minted[b := uuids[|minted|]];
      }
      i := SkolemIri(minted[b]);
    }

    method NameOf(n: Name) returns (i: Iri)
      requires Valid() && BlanksOfName(n) <= universe
      modifies this`minted
      ensures Valid() && Extends(old(minted), BlanksOfName(n)) && i == GroundName(n, Lookup(minted))
    {
      match n {
        case IriName(x) => i := x;
        case BlankName(b) => i := IriFor(b);
      }
    }

    /** The inner `ground`: a triple term's own subject and object are terms too. */
    method TermOf(t: Term) returns (g: GroundTerm)
      requires Valid() && BlanksOfTerm(t) <= universe
      modifies this`minted
      ensures Valid() && Extends(old(minted), BlanksOfTerm(t)) && g == GroundTermWith(t, Lookup(minted))
      decreases t
    {
      match t {
        case TName(n) => var i := NameOf(n); g := Node(i);
        case TLit(l) => g := Lit(l);
        case TTriple(tr) =>
          var s := NameOf(tr.s);
          var o := TermOf(tr.o);
          g := Quoted(GroundTriple(s, tr.p, o));
      }
    }

    method QuadOf(q: Quad) returns (g: GroundQuad)
      requires Valid() && BlanksOfQuad(q) <= universe
      modifies this`minted
      ensures Valid() && Extends(old(minted), BlanksOfQuad(q)) && g == GroundQuadWith(q, Lookup(minted))
    {
      var s := NameOf(q.triple.s);
      ghost var m1 := minted;
      var o := TermOf(q.triple.o);
      ghost var m2 := minted;
      var graph := GraphOf(q.graph);
      assert Agree(Lookup(m1), Lookup(minted), m1.Keys) && Agree(Lookup(m2), Lookup(minted), m2.Keys);
      TermStable(q.triple.o, Lookup(m2), Lookup(minted));
      g := GroundQuad(GroundTriple(s, q.triple.p, o), graph);
    }

    method GraphOf(graph: Graph) returns (g: GroundGraph)
      requires Valid() && BlanksOfGraph(graph) <= universe
      modifies this`minted
      ensures Valid() && Extends(old(minted), BlanksOfGraph(graph)) && g == GroundGraphWith(graph, Lookup(minted))
    {
      match graph {
        case Unnamed => g := DefaultGraph;
        case In(name) => var n := NameOf(name); g := Named(n);
      }
    }
  }

  lemma ProperSubsetIsSmaller(a: set<string>, b: set<string>, x: string)
    requires a <= b && x in b && x !in a
    ensures |a| < |b|
  {
    SubsetIsNoLarger(a, b - {x});
  }

  /** `Skolemized::skolemize`: total, one suffix per blank node, no two blank nodes sharing one. */
  method Skolemize(d: Dataset, uuids: seq<string>) returns (stored: Stored, minted: map<string, string>)
    requires Distinct(uuids) && |BlanksOf(d)| <= |uuids| && forall u :: u in uuids ==> IsUuid(u)
    ensures stored == GroundAll(d, Lookup(minted))
    ensures minted.Keys == BlanksOf(d) && InjectiveOn(Lookup(minted), minted.Keys)
    ensures forall b :: b in minted ==> IsUuid(minted[b])
  {
    var m := new Minter(uuids, BlanksOf(d));
    stored := [];
    for i := 0 to |d|
      invariant m.Valid() && m.uuids == uuids && m.universe == BlanksOf(d) && fresh(m)
      invariant Done(d, i, stored, m.minted)
    {
      ghost var was := m.minted;
      var q := m.QuadOf(d[i]);
      DoneOneMore(d, i, stored, was, m.minted, q);
      stored := stored + [q];
    }
    minted := m.minted;
    BlanksComeFromQuads(d);
    assert stored == GroundAll(d, Lookup(minted));
    assert forall u :: Issued(uuids, |minted|, u) ==> u in uuids;
  }

  /** The first `n` quads are behind us, each grounded as the map now stands. */
  ghost predicate Done(d: Dataset, n: nat, stored: Stored, minted: map<string, string>) {
    n <= |d| && |stored| == n
    && forall j :: 0 <= j < n ==> BlanksOfQuad(d[j]) <= minted.Keys && stored[j] == GroundQuadWith(d[j], Lookup(minted))
  }

  lemma DoneOneMore(d: Dataset, n: nat, stored: Stored, was: map<string, string>, minted: map<string, string>,
                    q: GroundQuad)
    requires Done(d, n, stored, was) && n < |d|
    requires was.Keys + BlanksOfQuad(d[n]) <= minted.Keys && forall b :: b in was ==> minted[b] == was[b]
    requires q == GroundQuadWith(d[n], Lookup(minted))
    ensures Done(d, n + 1, stored + [q], minted)
  {
    forall j | 0 <= j < n
      ensures stored[j] == GroundQuadWith(d[j], Lookup(minted))
    {
      QuadStable(d[j], Lookup(was), Lookup(minted));
    }
  }

  lemma {:induction false} BlanksComeFromQuads(d: Dataset)
    ensures forall b :: b in BlanksOf(d) ==> exists i :: 0 <= i < |d| && b in BlanksOfQuad(d[i])
  {
    if d != [] {
      var init := d[..|d| - 1];
      BlanksComeFromQuads(init);
      forall b | b in BlanksOf(d)
        ensures exists i :: 0 <= i < |d| && b in BlanksOfQuad(d[i])
      {
        if b in BlanksOf(init) {
          var i :| 0 <= i < |init| && b in BlanksOfQuad(init[i]);
          assert d[i] == init[i];
        } else {
          assert b in BlanksOfQuad(d[|d| - 1]);
        }
      }
    }
  }

  // ----- deskolemize -----

  function Kept(c: char): string { if Alphanumeric(c) then [c] else "" }

  function Alnum(s: string): string {
    if s == "" then "" else Kept(s[0]) + Alnum(s[1..])
  }

  /** The label comes from the suffix, so two reads of one state agree. */
  function Label(suffix: string): string { "b" + Alnum(suffix) }

  function VisibleName(i: Iri): Name {
    match i case SkolemIri(suffix) => BlankName(Label(suffix)) case _ => IriName(i)
  }

  function VisibleTerm(t: GroundTerm): Term {
    match t
    case Node(i) => TName(VisibleName(i))
    case Lit(l) => TLit(l)
    case Quoted(tr) => TTriple(Triple(VisibleName(tr.s), tr.p, VisibleTerm(tr.o)))
  }

  function VisibleGraph(g: GroundGraph): Graph {
    match g case DefaultGraph => Unnamed case Named(i) => In(VisibleName(i))
  }

  /** No predicate position is looked at: a predicate cannot have been a blank node. */
  function VisibleQuad(q: GroundQuad): Quad {
    Quad(Triple(VisibleName(q.triple.s), q.triple.p, VisibleTerm(q.triple.o)), VisibleGraph(q.graph))
  }

  function Deskolemize(s: Stored): Dataset { seq(|s|, i requires 0 <= i < |s| => VisibleQuad(s[i])) }

  // ----- the round trip -----

  function RenamedName(n: Name, f: Minting): Name { if n.BlankName? then BlankName(f(n.id)) else n }

  function RenamedTerm(t: Term, f: Minting): Term {
    match t
    case TName(n) => TName(RenamedName(n, f))
    case TLit(l) => t
    case TTriple(tr) => TTriple(Triple(RenamedName(tr.s, f), tr.p, RenamedTerm(tr.o, f)))
  }

  function RenamedQuad(q: Quad, f: Minting): Quad {
    Quad(Triple(RenamedName(q.triple.s, f), q.triple.p, RenamedTerm(q.triple.o, f)),
         if q.graph.In? then In(RenamedName(q.graph.name, f)) else Unnamed)
  }

  /** The same document with its blank nodes called something else. */
  function Renamed(d: Dataset, f: Minting): Dataset { seq(|d|, i requires 0 <= i < |d| => RenamedQuad(d[i], f)) }

  predicate SkolemFreeName(n: Name) { n.IriName? ==> !n.iri.SkolemIri? }

  predicate SkolemFreeTerm(t: Term) {
    match t
    case TName(n) => SkolemFreeName(n)
    case TLit(_) => true
    case TTriple(tr) => SkolemFreeName(tr.s) && SkolemFreeTerm(tr.o)
  }

  predicate SkolemFreeQuad(q: Quad) {
    SkolemFreeName(q.triple.s) && SkolemFreeTerm(q.triple.o) && (q.graph.In? ==> SkolemFreeName(q.graph.name))
  }

  /** No skolem IRI where a blank node could stand, at any depth. */
  predicate SkolemFree(d: Dataset) { forall q :: q in d ==> SkolemFreeQuad(q) }

  lemma {:induction false} TermRoundTrip(t: Term, f: Minting, g: Minting)
    ensures VisibleTerm(GroundTermWith(t, f)) == RenamedTerm(t, g)
      <==> SkolemFreeTerm(t) && forall b :: b in BlanksOfTerm(t) ==> g(b) == Label(f(b))
  {
    if t.TTriple? { TermRoundTrip(t.triple.o, f, g); }
  }

  lemma QuadRoundTrip(q: Quad, f: Minting, g: Minting)
    ensures VisibleQuad(GroundQuadWith(q, f)) == RenamedQuad(q, g)
      <==> SkolemFreeQuad(q) && forall b :: b in BlanksOfQuad(q) ==> g(b) == Label(f(b))
  {
    TermRoundTrip(q.triple.o, f, g);
  }

  /** Exactly when reading back gives the document under the renaming `g`. */
  lemma RoundTripUnder(d: Dataset, f: Minting, g: Minting)
    ensures Deskolemize(GroundAll(d, f)) == Renamed(d, g)
      <==> SkolemFree(d) && forall b :: b in BlanksOf(d) ==> g(b) == Label(f(b))
  {
    forall i | 0 <= i < |d| { QuadRoundTrip(d[i], f, g); }
    BlanksComeFromQuads(d);
    var back, want := Deskolemize(GroundAll(d, f)), Renamed(d, g);
    if back == want {
      forall q | q in d ensures SkolemFreeQuad(q) {
        var i :| 0 <= i < |d| && d[i] == q;
        assert back[i] == want[i];
      }
      forall b | b in BlanksOf(d) ensures g(b) == Label(f(b)) {
        var i :| 0 <= i < |d| && b in BlanksOfQuad(d[i]);
        assert back[i] == want[i];
      }
    } else if SkolemFree(d) && forall b :: b in BlanksOf(d) ==> g(b) == Label(f(b)) {
      forall i | 0 <= i < |d| ensures back[i] == want[i] {
        assert d[i] in d;
      }
      assert false;
    }
  }

  // ----- labels are injective on UUIDs -----

  lemma {:induction false} AlnumConcat(a: string, b: string)
    ensures Alnum(a + b) == Alnum(a) + Alnum(b)
  {
    if a == "" {
      assert a + b == b;
    } else {
      AlnumConcat(a[1..], b);
      AlnumCons(a[0], a[1..] + b);
      AlnumCons(a[0], a[1..]);
      assert [a[0]] + (a[1..] + b) == a + b && [a[0]] + a[1..] == a;
      Associates(Kept(a[0]), Alnum(a[1..]), Alnum(b));
    }
  }

  lemma AlnumCons(c: char, s: string)
    ensures Alnum([c] + s) == Kept(c) + Alnum(s)
  {
    assert ([c] + s)[1..] == s;
  }

  lemma Associates(a: string, b: string, c: string)
    ensures a + (b + c) == (a + b) + c
  {
  }

  lemma {:induction false} AlnumIdentity(s: string)
    requires forall i :: 0 <= i < |s| ==> Alphanumeric(s[i])
    ensures Alnum(s) == s
  {
    if s != "" {
      AlnumIdentity(s[1..]);
      assert [s[0]] + s[1..] == s;
    }
  }

  lemma AlnumUpToHyphen(s: string, n: nat)
    requires n < |s| && s[n] == '-' && forall i :: 0 <= i < n ==> Alphanumeric(s[i])
    ensures Alnum(s) == s[..n] + Alnum(s[n + 1..])
  {
    var a, b := s[..n], s[n + 1..];
    SplitAround(s, n);
    AlnumConcat(a, ['-'] + b);
    AlnumIdentity(a);
    AlnumCons('-', b);
    assert Kept('-') + Alnum(b) == Alnum(b);
  }

  lemma SplitAround(s: string, n: nat)
    requires n < |s|
    ensures s == s[..n] + ([s[n]] + s[n + 1..])
  {
  }

  /** Dropping the hyphens of a UUID drops nothing else. */
  lemma AlnumOfUuid(u: string)
    requires IsUuid(u)
    ensures Alnum(u) == u[..8] + (u[9..13] + (u[14..18] + (u[19..23] + u[24..])))
  {
    assert 8 in HYPHENS && 13 in HYPHENS && 18 in HYPHENS && 23 in HYPHENS;
    assert forall i :: 0 <= i < 36 && i != 8 && i != 13 && i != 18 && i != 23 ==> i !in HYPHENS && Alphanumeric(u[i]);
    AlnumUpToHyphen(u, 8);
    UuidGroup(u, 9);
    UuidGroup(u, 14);
    UuidGroup(u, 19);
    AlnumIdentity(u[24..]);
  }

  lemma UuidGroup(u: string, at: nat)
    requires |u| == 36 && at + 4 < 36 && u[at + 4] == '-' && forall i :: at <= i < at + 4 ==> Alphanumeric(u[i])
    ensures Alnum(u[at..]) == u[at..at + 4] + Alnum(u[at + 5..])
  {
    AlnumUpToHyphen(u[at..], 4);
    assert u[at..][..4] == u[at..at + 4] && u[at..][5..] == u[at + 5..];
  }

  lemma LabelsDistinguishUuids(u: string, v: string)
    requires IsUuid(u) && IsUuid(v) && Label(u) == Label(v)
    ensures u == v
  {
    assert Alnum(u) == Label(u)[1..] && Alnum(v) == Label(v)[1..];
    assert 8 in HYPHENS && 13 in HYPHENS && 18 in HYPHENS && 23 in HYPHENS;
    UuidFromLabel(u);
    UuidFromLabel(v);
  }

  /** The hyphens go back where they were. */
  lemma UuidFromLabel(u: string)
    requires IsUuid(u)
    ensures |Alnum(u)| == 32
    ensures var x := Alnum(u); u == x[..8] + "-" + x[8..12] + "-" + x[12..16] + "-" + x[16..20] + "-" + x[20..]
  {
    AlnumOfUuid(u);
    var x := Alnum(u);
    assert 8 in HYPHENS && 13 in HYPHENS && 18 in HYPHENS && 23 in HYPHENS;
    assert x[..8] == u[..8] && x[8..12] == u[9..13] && x[12..16] == u[14..18] && x[16..20] == u[19..23]
           && x[20..] == u[24..];
  }

  function LabelsOf(f: Minting): Minting { b => Label(f(b)) }

  lemma LabelsAreInjective(minted: map<string, string>)
    requires InjectiveOn(Lookup(minted), minted.Keys) && forall b :: b in minted ==> IsUuid(minted[b])
    ensures InjectiveOn(LabelsOf(Lookup(minted)), minted.Keys)
  {
    forall a, b | a in minted && b in minted && Label(minted[a]) == Label(minted[b])
      ensures a == b
    {
      LabelsDistinguishUuids(minted[a], minted[b]);
      assert Lookup(minted)(a) == Lookup(minted)(b);
    }
  }

  ghost predicate SameUpToBlanks(d: Dataset, back: Dataset) {
    exists g: Minting :: InjectiveOn(g, BlanksOf(d)) && back == Renamed(d, g)
  }

  /** What is stored comes back as the same document under one injective renaming of its blank nodes,
      across subjects, objects, graph names and every depth of triple term, if and only if no skolem
      IRI stood in such a position. */
  lemma RoundTripIff(d: Dataset, minted: map<string, string>)
    requires minted.Keys == BlanksOf(d) && InjectiveOn(Lookup(minted), minted.Keys)
    requires forall b :: b in minted ==> IsUuid(minted[b])
    ensures SameUpToBlanks(d, Deskolemize(GroundAll(d, Lookup(minted)))) <==> SkolemFree(d)
  {
    var f := Lookup(minted);
    var back := Deskolemize(GroundAll(d, f));
    if SkolemFree(d) {
      var g := LabelsOf(f);
      RoundTripUnder(d, f, g);
      LabelsAreInjective(minted);
      assert back == Renamed(d, g);
    }
    if SameUpToBlanks(d, back) {
      var g: Minting :| InjectiveOn(g, BlanksOf(d)) && back == Renamed(d, g);
      RoundTripUnder(d, f, g);
    }
  }

  // ----- the reserved-namespace check, and what it misses -----

  predicate NameReserved(n: Name) { n.IriName? && IsReserved(n.iri) }

  /** `uses_reserved_namespace`: every position of every quad, but not inside a triple term. */
  predicate QuadUsesReserved(q: Quad) {
    NameReserved(q.triple.s)
    || (q.triple.o.TName? && NameReserved(q.triple.o.name))
    || (q.graph.In? && NameReserved(q.graph.name))
    || IsReserved(q.triple.p)
  }

  /** The IRI stands somewhere in the quad, outside any triple term. */
  predicate OccursAtTop(i: Iri, q: Quad) {
    i == q.triple.p || IriName(i) == q.triple.s || TName(IriName(i)) == q.triple.o || In(IriName(i)) == q.graph
  }

  lemma ReservedIffOneOccurs(q: Quad)
    ensures QuadUsesReserved(q) <==> exists i :: OccursAtTop(i, q) && IsReserved(i)
  {
    assert OccursAtTop(q.triple.p, q);
    if NameReserved(q.triple.s) { assert OccursAtTop(q.triple.s.iri, q); }
    if q.triple.o.TName? && NameReserved(q.triple.o.name) { assert OccursAtTop(q.triple.o.name.iri, q); }
    if q.graph.In? && NameReserved(q.graph.name) { assert OccursAtTop(q.graph.name.iri, q); }
  }

  method UsesReservedNamespace(d: Dataset) returns (used: bool)
    ensures used <==> exists q :: q in d && QuadUsesReserved(q)
    ensures used <==> exists q, i :: q in d && OccursAtTop(i, q) && IsReserved(i)
  {
    forall q { ReservedIffOneOccurs(q); }
    for i := 0 to |d|
      invariant forall j :: 0 <= j < i ==> !QuadUsesReserved(d[j])
    {
      if QuadUsesReserved(d[i]) { return true; }
    }
    return false;
  }

  /** A document that passes the check fails the round trip exactly if a triple term hides a skolem IRI. */
  lemma WhatTheReservedCheckLeaves(d: Dataset)
    requires forall q :: q in d ==> !QuadUsesReserved(q)
    ensures SkolemFree(d) <==> forall q :: q in d && q.triple.o.TTriple? ==> SkolemFreeTerm(q.triple.o)
  {
    forall q | q in d && !q.triple.o.TTriple?
      ensures SkolemFreeQuad(q)
    {
      assert !QuadUsesReserved(q);
    }
    forall q | q in d && q.triple.o.TTriple? && SkolemFreeTerm(q.triple.o)
      ensures SkolemFreeQuad(q)
    {
      assert !QuadUsesReserved(q);
    }
  }

  /** Such a document exists: accepted, and read back with a blank node its author never wrote. */
  lemma AHiddenSkolemIriIsNotReadBack() returns (d: Dataset)
    ensures forall q :: q in d ==> !QuadUsesReserved(q)
    ensures !SkolemFree(d) && !SameUpToBlanks(d, Deskolemize(GroundAll(d, Lookup(map[]))))
  {
    var s, p := OtherIri("http://e/s"), OtherIri("http://e/p");
    assert !IsReserved(s) && !IsReserved(p) by {
      assert AsciiLower(OtherIri("http://e/s").text[0]) != RESERVED_PREFIX[0];
      assert AsciiLower(OtherIri("http://e/p").text[0]) != RESERVED_PREFIX[0];
    }
    var q := Quad(Triple(IriName(s), p, TTriple(Triple(IriName(s), p, TName(IriName(SkolemIri("x")))))), Unnamed);
    d := [q];
    assert q in d && !SkolemFreeQuad(q);
    assert BlanksOf(d[..0]) == {} && BlanksOfQuad(q) == {};
    RoundTripIff(d, map[]);
  }

  // ----- from_store -----

  function ParseTerm(t: Term): Option<GroundTerm> {
    match t
    case TName(n) => if n.IriName? then Some(Node(n.iri)) else None
    case TLit(l) => Some(Lit(l))
    case TTriple(tr) =>
      if tr.s.BlankName? then None
      else match ParseTerm(tr.o)
        case None => None
        case Some(o) => Some(Quoted(GroundTriple(tr.s.iri, tr.p, o)))
  }

  function ParseQuad(q: Quad): Option<GroundQuad> {
    if q.triple.s.BlankName? || (q.graph.In? && q.graph.name.BlankName?) then None
    else match ParseTerm(q.triple.o)
      case None => None
      case Some(o) =>
        Some(GroundQuad(GroundTriple(q.triple.s.iri, q.triple.p, o),
                        if q.graph.In? then Named(q.graph.name.iri) else DefaultGraph))
  }

  function WidenedTerm(t: GroundTerm): Term {
    match t
    case Node(i) => TName(IriName(i))
    case Lit(l) => TLit(l)
    case Quoted(tr) => TTriple(Triple(IriName(tr.s), tr.p, WidenedTerm(tr.o)))
  }

  /** `From<&GroundQuad> for Quad`. */
  function WidenedQuad(q: GroundQuad): Quad {
    Quad(Triple(IriName(q.triple.s), q.triple.p, WidenedTerm(q.triple.o)),
         if q.graph.Named? then In(IriName(q.graph.name)) else Unnamed)
  }

  function Widened(s: Stored): Dataset { seq(|s|, i requires 0 <= i < |s| => WidenedQuad(s[i])) }

  /** Every quad parses, or nothing does. */
  function Parsed(quads: seq<Quad>): Option<Stored> {
    if quads == [] then Some([])
    else
      match (Parsed(quads[..|quads| - 1]), ParseQuad(quads[|quads| - 1]))
      case (Some(before), Some(q)) => Some(before + [q])
      case _ => None
  }

  lemma {:induction false} ParsedNeedsEvery(quads: seq<Quad>, i: nat)
    requires i < |quads| && ParseQuad(quads[i]).None?
    ensures Parsed(quads).None?
  {
    if i < |quads| - 1 { ParsedNeedsEvery(quads[..|quads| - 1], i); }
  }

  method FromStore(quads: seq<Quad>) returns (stored: Option<Stored>)
    ensures stored == Parsed(quads)
    ensures stored.Some? <==> BlanksOf(quads) == {}
    ensures stored.Some? ==> Widened(stored.value) == quads
  {
    var out: Stored := [];
    BlanksComeFromQuads(quads);
    for i := 0 to |quads|
      invariant Parsed(quads[..i]) == Some(out)
      invariant Widened(out) == quads[..i]
      invariant forall j :: 0 <= j < i ==> BlanksOfQuad(quads[j]) == {}
    {
      ParseQuadExact(quads[i]);
      var q := ParseQuad(quads[i]);
      assert quads[..i + 1][..i] == quads[..i];
      if q.None? {
        ParsedNeedsEvery(quads, i);
        var b :| b in BlanksOfQuad(quads[i]);
        assert b in BlanksOf(quads);
        return None;
      }
      out := out + [q.value];
    }
    assert quads[..|quads|] == quads;
    assert BlanksOf(quads) == {};
    return Some(out);
  }

  lemma {:induction false} ParseTermExact(t: Term)
    ensures ParseTerm(t).Some? <==> BlanksOfTerm(t) == {}
    ensures ParseTerm(t).Some? ==> WidenedTerm(ParseTerm(t).value) == t
  {
    if t.TTriple? {
      ParseTermExact(t.triple.o);
      assert t.triple.s.BlankName? ==> t.triple.s.id in BlanksOfTerm(t);
    } else if t.TName? && t.name.BlankName? {
      assert t.name.id in BlanksOfTerm(t);
    }
  }

  lemma ParseQuadExact(q: Quad)
    ensures ParseQuad(q).Some? <==> BlanksOfQuad(q) == {}
    ensures ParseQuad(q).Some? ==> WidenedQuad(ParseQuad(q).value) == q
  {
    ParseTermExact(q.triple.o);
    assert q.triple.s.BlankName? ==> q.triple.s.id in BlanksOfQuad(q);
    assert q.graph.In? && q.graph.name.BlankName? ==> q.graph.name.id in BlanksOfQuad(q);
  }

  lemma {:induction false} WidenedTermParses(t: GroundTerm)
    ensures ParseTerm(WidenedTerm(t)) == Some(t)
  {
    if t.Quoted? { WidenedTermParses(t.triple.o); }
  }

  /** What was stored is never mistaken for corruption: every ground dataset, triple terms included,
      parses, and to itself. */
  lemma {:induction false} EveryStoredStateParses(s: Stored)
    ensures Parsed(Widened(s)) == Some(s)
  {
    if s != [] {
      var init, last := s[..|s| - 1], s[|s| - 1];
      EveryStoredStateParses(init);
      WidenedTermParses(last.triple.o);
      assert Widened(s)[..|s| - 1] == Widened(init) && s == init + [last];
    }
  }

  // ----- graphs -----

  method NamedGraphs(s: Stored) returns (seen: seq<Iri>)
    ensures forall n :: n in seen <==> exists q :: q in s && q.graph == Named(n)
    ensures forall i, j :: 0 <= i < j < |seen| ==> seen[i] != seen[j]
    ensures seen == [] <==> forall q :: q in s ==> q.graph == DefaultGraph
  {
    seen := [];
    for i := 0 to |s|
      invariant forall n :: n in seen <==> exists q :: q in s[..i] && q.graph == Named(n)
      invariant forall j, k :: 0 <= j < k < |seen| ==> seen[j] != seen[k]
    {
      assert s[..i + 1] == s[..i] + [s[i]];
      match s[i].graph {
        case DefaultGraph =>
        case Named(n) => if n !in seen { seen := seen + [n]; }
      }
    }
    assert s[..|s|] == s;
    assert forall q :: q in s && q.graph.Named? ==> q.graph == Named(q.graph.name);
    if seen != [] { assert seen[0] in seen; }
  }
}

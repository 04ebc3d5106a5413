/**
 The two loss checks of a resource PUT against what a GET serves (src/http.rs): a write is let
 through over existing content exactly when a read in the same format at the same declared
 version would have shown all of it.
 */
module LossChecks {
  import opened Collections
  import opened Wrappers
  import opened Terms
  import opened Skolem
  import opened Versions
  import opened Formats

  function Visible(s: Stored): Dataset { Deskolemize(s) }
  function Held(s: Stored): RdfVersion { VersionOf(Visible(s)) }
  predicate HasNamedGraphs(s: Stored) { exists q :: q in s && q.graph != DefaultGraph }

  /** `get_impl`: the graph choice, then the lower of what was asked for and what is held. */
  function Served(s: Stored, fmt: Format, requested: RdfVersion): Dataset {
    ProjectTo(if fmt.CarriesDataset() then Visible(s) else DefaultGraphOnly(Visible(s)), Min(requested, Held(s)))
  }

  /** What a GET shows of one visible quad: nothing of a named graph in a format without them, a triple term
      only to a client that asked for RDF 1.2, and a base direction not to one that asked for 1.1. */
  function Shown(q: Quad, fmt: Format, requested: RdfVersion): Option<Quad> {
    if q.graph != Unnamed && (fmt == Turtle || fmt == NTriples) then None
    else match q.triple.o
      case TTriple(_) => if requested == Rdf12 then Some(q) else None
      case TLit(Directional(lexical, language, _)) =>
        if requested == Rdf11 then Some(q.(triple := q.triple.(o := TLit(Tagged(lexical, language))))) else Some(q)
      case _ => Some(q)
  }

  /** A GET serves exactly that of each visible quad, in the stored order and as often, and nothing else. What
      the resource holds elsewhere makes no difference to any of them. */
  lemma ServedIsExact(s: Stored, fmt: Format, requested: RdfVersion)
    ensures Served(s, fmt, requested) == FilterMap(Visible(s), q => Shown(q, fmt, requested))
    ensures forall p :: p in Served(s, fmt, requested) <==>
              exists q :: q in Visible(s) && Shown(q, fmt, requested) == Some(p)
  {
    ServedOneByOne(s, fmt, requested);
    FilterMapHas(Visible(s), q => Shown(q, fmt, requested));
  }

  lemma ServedOneByOne(s: Stored, fmt: Format, requested: RdfVersion)
    ensures Served(s, fmt, requested) == FilterMap(Visible(s), q => Shown(q, fmt, requested))
  {
    var all, v := Visible(s), Min(requested, Held(s));
    var chosen := (q: Quad) => if fmt.CarriesDataset() || q.graph == Unnamed then Some(q) else None;
    var d := if fmt.CarriesDataset() then all else DefaultGraphOnly(all);
    ChoiceIsFilterMap(all, fmt);
    ProjectToIsProjectQuads(d, v);
    ProjectionIsFilterMap(d, v);
    forall q | q in all
      ensures Shown(q, fmt, requested) == match chosen(q) case None => None case Some(x) => ProjectedQuad(x, v)
    {
      ShownIsProjected(q, fmt, requested, Held(s));
    }
    FilterMapTwice(all, chosen, q => ProjectedQuad(q, v), q => Shown(q, fmt, requested));
  }

  lemma ChoiceIsFilterMap(d: Dataset, fmt: Format)
    ensures (if fmt.CarriesDataset() then d else DefaultGraphOnly(d)) ==
            FilterMap(d, (q: Quad) => if fmt.CarriesDataset() || q.graph == Unnamed then Some(q) else None)
  {
    var chosen := (q: Quad) => if fmt.CarriesDataset() || q.graph == Unnamed then Some(q) else None;
    if fmt.CarriesDataset() {
      EverythingChosen(d);
      FilterMapSame(d, chosen, (q: Quad) => Some(q));
    } else {
      DefaultIsFilterMap(d);
      FilterMapSame(d, chosen, (q: Quad) => if q.graph == Unnamed then Some(q) else None);
    }
  }

  lemma {:induction false} EverythingChosen(d: Dataset)
    ensures FilterMap(d, (q: Quad) => Some(q)) == d
  {
    if d != [] { EverythingChosen(d[..|d| - 1]); }
  }

  /** Up to what is held, the lower of the two versions shows what the requested one does. */
  lemma ShownIsProjected(q: Quad, fmt: Format, requested: RdfVersion, held: RdfVersion)
    requires Needs(q.triple.o).AtMost(held)
    ensures Shown(q, fmt, requested) ==
      if fmt.CarriesDataset() || q.graph == Unnamed then ProjectedQuad(q, Min(requested, held)) else None
  {
  }

  datatype Verdict = BodyRicherThanDeclared | ReservedName | HidesTerms(held: RdfVersion) | HidesGraphs | Admitted

  predicate UsesReserved(d: Dataset) { exists q :: q in d && QuadUsesReserved(q) }

  /** What `Format::parse` and `put_write` decide about a body for a resource, in their order. */
  function PutVerdict(existing: Option<Stored>, body: Dataset, fmt: Format, declared: RdfVersion): Verdict {
    if !VersionOf(body).AtMost(declared) then BodyRicherThanDeclared
    else if UsesReserved(body) then ReservedName
    else match existing
      case None => Admitted
      case Some(s) =>
        if !Held(s).AtMost(declared) then HidesTerms(Held(s))
        else if !fmt.CarriesDataset() && HasNamedGraphs(s) then HidesGraphs
        else Admitted
  }

  /** The version cannot carry the object: a triple term needs 1.2, a base direction at least 1.2-basic. */
  predicate TooRich(t: Term, version: RdfVersion) {
    (t.TTriple? && version != Rdf12) || (t.TLit? && t.literal.Directional? && version == Rdf11)
  }

  lemma TooRichIffNeedsMore(d: Dataset, version: RdfVersion)
    ensures VersionOf(d).AtMost(version) <==> forall q :: q in d ==> !TooRich(q.triple.o, version)
  {
    VersionIsLeast(d, version);
  }

  /** Each verdict in its case and in no other: first what is wrong with the body, then what the write would
      destroy, terms before graphs; creating a resource can only fail for its body. */
  lemma VerdictsAreExact(existing: Option<Stored>, body: Dataset, fmt: Format, declared: RdfVersion)
    ensures var v := PutVerdict(existing, body, fmt, declared);
            var richer := exists q :: q in body && TooRich(q.triple.o, declared);
            var reserved := exists q, i :: q in body && OccursAtTop(i, q) && IsReserved(i);
            var hides := existing.Some? && exists q :: q in Visible(existing.value) && TooRich(q.triple.o, declared);
            var drops := existing.Some? && (fmt == Turtle || fmt == NTriples)
                         && exists q :: q in existing.value && q.graph.Named?;
            (v == BodyRicherThanDeclared <==> richer)
            && (v == ReservedName <==> !richer && reserved)
            && (v.HidesTerms? <==> !richer && !reserved && hides)
            && (v.HidesTerms? ==> v.held == VersionOf(Visible(existing.value)))
            && (v == HidesGraphs <==> !richer && !reserved && !hides && drops)
            && (v == Admitted <==> !richer && !reserved && !hides && !drops)
  {
    TooRichIffNeedsMore(body, declared);
    forall q { ReservedIffOneOccurs(q); }
    if existing.Some? { TooRichIffNeedsMore(Visible(existing.value), declared); }
  }

  lemma VisibleGraphs(s: Stored)
    ensures HasNamedGraphs(s) <==> exists q :: q in Visible(s) && q.graph != Unnamed
  {
    var d := Visible(s);
    if HasNamedGraphs(s) {
      var q :| q in s && q.graph != DefaultGraph;
      var i :| 0 <= i < |s| && s[i] == q;
      assert d[i] in d && d[i].graph != Unnamed;
    }
    if exists q :: q in d && q.graph != Unnamed {
      var q :| q in d && q.graph != Unnamed;
      var i :| 0 <= i < |d| && d[i] == q;
      assert s[i] in s;
    }
  }

  lemma ServedInDefaultGraph(s: Stored, fmt: Format, requested: RdfVersion)
    requires !fmt.CarriesDataset()
    ensures forall q :: q in Served(s, fmt, requested) ==> q.graph == Unnamed
  {
    var d, v := DefaultGraphOnly(Visible(s)), Min(requested, Held(s));
    ProjectToIsProjectQuads(d, v);
    ProjectionNeverInvents(d, v);
  }

  /** The loss checks pass exactly when the matching read hides nothing. */
  lemma ChecksPassIffReadIsComplete(s: Stored, body: Dataset, fmt: Format, declared: RdfVersion)
    requires VersionOf(body).AtMost(declared) && !UsesReserved(body)
    ensures PutVerdict(Some(s), body, fmt, declared) == Admitted <==> Served(s, fmt, declared) == Visible(s)
  {
    var v := Min(declared, Held(s));
    VisibleGraphs(s);
    LosslessIffAtLeastHeld(Visible(s), v);
    if !fmt.CarriesDataset() {
      ServedInDefaultGraph(s, fmt, declared);
      if !HasNamedGraphs(s) { assert DefaultGraphOnly(Visible(s)) == Visible(s); }
    }
  }

  // ----- GET, PUT what was read, GET again -----

  ghost predicate SameQuads<T(!new)>(a: seq<T>, b: seq<T>) { forall q :: q in a <==> q in b }

  lemma {:induction false} VisibleTermIsSkolemFree(t: GroundTerm)
    ensures SkolemFreeTerm(VisibleTerm(t))
  {
    if t.Quoted? { VisibleTermIsSkolemFree(t.triple.o); }
  }

  /** A client never sees a skolem IRI where a blank node can stand. */
  lemma VisibleIsSkolemFree(s: Stored)
    ensures SkolemFree(Visible(s))
  {
    forall q | q in Visible(s) ensures SkolemFreeQuad(q) {
      var i :| 0 <= i < |s| && q == VisibleQuad(s[i]);
      VisibleTermIsSkolemFree(s[i].triple.o);
    }
  }

  lemma SameStoredSameVisible(a: Stored, b: Stored)
    requires SameQuads(a, b)
    ensures SameQuads(Visible(a), Visible(b)) && Held(a) == Held(b) && HasNamedGraphs(a) == HasNamedGraphs(b)
  {
    forall q ensures q in Visible(a) <==> q in Visible(b) {
      if q in Visible(a) {
        var i :| 0 <= i < |a| && q == VisibleQuad(a[i]);
        assert a[i] in b;
        var j :| 0 <= j < |b| && b[j] == a[i];
        assert Visible(b)[j] == q;
      }
      if q in Visible(b) {
        var i :| 0 <= i < |b| && q == VisibleQuad(b[i]);
        assert b[i] in a;
        var j :| 0 <= j < |a| && a[j] == b[i];
        assert Visible(a)[j] == q;
      }
    }
    VersionIsLeast(Visible(a), Held(b));
    VersionIsLeast(Visible(b), Held(a));
  }

  lemma RenamedAt(d: Dataset, g: Minting, i: nat)
    requires i < |d|
    ensures d[i] in d && Renamed(d, g)[i] in Renamed(d, g)
    ensures Needs(Renamed(d, g)[i].triple.o) == Needs(d[i].triple.o)
            && (Renamed(d, g)[i].graph == Unnamed <==> d[i].graph == Unnamed)
  {
  }

  lemma RenamingKeepsVersion(d: Dataset, g: Minting)
    ensures VersionOf(Renamed(d, g)) == VersionOf(d)
  {
    var r := Renamed(d, g);
    forall q | q in d ensures Needs(q.triple.o).AtMost(VersionOf(r)) {
      var i :| 0 <= i < |d| && d[i] == q;
      RenamedAt(d, g, i);
    }
    forall q | q in r ensures Needs(q.triple.o).AtMost(VersionOf(d)) {
      var i :| 0 <= i < |r| && r[i] == q;
      RenamedAt(d, g, i);
    }
    VersionIsLeast(d, VersionOf(r));
    VersionIsLeast(r, VersionOf(d));
  }

  lemma RenamingKeepsGraphs(d: Dataset, g: Minting)
    ensures (exists q :: q in Renamed(d, g) && q.graph != Unnamed) <==> (exists q :: q in d && q.graph != Unnamed)
  {
    var r := Renamed(d, g);
    if q :| q in d && q.graph != Unnamed {
      var i :| 0 <= i < |d| && d[i] == q;
      RenamedAt(d, g, i);
    }
    if q :| q in r && q.graph != Unnamed {
      var i :| 0 <= i < |r| && r[i] == q;
      RenamedAt(d, g, i);
    }
  }

  /** If the checks let a client put back what it read, then nothing of the old state is lost and the
      next read shows the same document: all of `s`, under one injective renaming of its blank nodes.
      `again` is the state as the store returns it, in any order. */
  lemma GetPutGetIsIdentity(s: Stored, fmt: Format, declared: RdfVersion, minted: map<string, string>, again: Stored)
    returns (g: Minting)
    requires PutVerdict(Some(s), Served(s, fmt, declared), fmt, declared) == Admitted
    requires minted.Keys == BlanksOf(Served(s, fmt, declared)) && InjectiveOn(Lookup(minted), minted.Keys)
    requires forall b :: b in minted ==> IsUuid(minted[b])
    requires SameQuads(again, GroundAll(Served(s, fmt, declared), Lookup(minted)))
    ensures Served(s, fmt, declared) == Visible(s)
    ensures InjectiveOn(g, BlanksOf(Visible(s)))
    ensures SameQuads(Visible(again), Renamed(Visible(s), g))
    ensures Served(again, fmt, declared) == Visible(again)
    ensures Held(again) == Held(s) && HasNamedGraphs(again) == HasNamedGraphs(s)
  {
    var d := Served(s, fmt, declared);
    ChecksPassIffReadIsComplete(s, d, fmt, declared);
    VisibleIsSkolemFree(s);
    RoundTripIff(d, minted);
    var put := GroundAll(d, Lookup(minted));
    g :| InjectiveOn(g, BlanksOf(d)) && Visible(put) == Renamed(d, g);
    RenamingKeepsVersion(d, g);
    RenamingKeepsGraphs(d, g);
    VisibleGraphs(s);
    VisibleGraphs(put);
    SameStoredSameVisible(again, put);
    ChecksPassIffReadIsComplete(again, [], fmt, declared);
  }

  // ----- the validators a conditional write is compared against -----

  /** `etag_candidates`, as the format and version pairs it computes a tag for. */
  method EtagCandidates(s: Stored) returns (pairs: seq<(Format, RdfVersion)>)
    ensures forall f: Format, v: RdfVersion :: (f, v) in pairs <==> v == Rdf11 || v == Held(s)
  {
    var versions := if Held(s) == Rdf11 then [Rdf11] else [Rdf11, Held(s)];
    pairs := [];
    for i := 0 to |ALL|
      invariant forall f, v :: (f, v) in pairs <==> f in ALL[..i] && v in versions
    {
      var before := pairs;
      for j := 0 to |versions|
        invariant forall f, v :: (f, v) in pairs <==> (f, v) in before || (f == ALL[i] && v in versions[..j])
      {
        pairs := pairs + [(ALL[i], versions[j])];
      }
    }
    assert ALL[..|ALL|] == ALL;
    forall f: Format ensures f in ALL {
      match f {
        case Turtle => assert f == ALL[0];
        case NTriples => assert f == ALL[1];
        case JsonLd => assert f == ALL[2];
        case TriG => assert f == ALL[3];
        case NQuads => assert f == ALL[4];
      }
    }
  }

  /** The version a read's validator carries is among the candidates, except for a 1.2-basic read of
      a 1.2 state: that client's `If-Match` cannot succeed. */
  lemma IfMatchCoversEveryReadButOne(s: Stored, requested: RdfVersion)
    ensures var v := Min(requested, Held(s));
            (v == Rdf11 || v == Held(s)) <==> !(requested == Rdf12Basic && Held(s) == Rdf12)
  {
  }
}

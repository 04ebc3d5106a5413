/**
 Content negotiation (src/rdf.rs). An `Accept` entry is its quality in thousandths, its media
 range trimmed and in lower case, and its RDF version, `None` for a label the server does not know.
 An empty header is the empty list; any other header has at least one entry.
 */
module Negotiate {
  import opened Collections
  import opened Wrappers
  import opened Paths
  import opened Versions
  import opened Formats

  datatype Entry = Entry(q: int, range: string, version: Option<RdfVersion>)
  datatype Shape = Graph | Dataset

  // ----- ranked_accept -----

  datatype Ranked = Ranked(position: nat, entry: Entry)

  /** Higher quality first, the earlier entry on a tie. */
  predicate Before(a: Ranked, b: Ranked) {
    a.entry.q > b.entry.q || (a.entry.q == b.entry.q && a.position < b.position)
  }

  function Numbered(entries: seq<Entry>): seq<Ranked> {
    seq(|entries|, i requires 0 <= i < |entries| => Ranked(i, entries[i]))
  }

  function RankedAccept(entries: seq<Entry>): seq<Ranked> { Sort(Numbered(entries), Before) }

  ghost predicate InOrder(s: seq<Ranked>) { forall i, j :: 0 <= i < j < |s| ==> Before(s[i], s[j]) }

  /** The ranking holds every entry with its position and nothing else, best first. */
  lemma RankingIsExact(entries: seq<Entry>)
    ensures InOrder(RankedAccept(entries))
    ensures forall x :: x in RankedAccept(entries) <==> x.position < |entries| && entries[x.position] == x.entry
  {
    var all := Numbered(entries);
    SortOrders(all, Before);
    SortHas(all, Before);
    forall x ensures x in all <==> x.position < |entries| && entries[x.position] == x.entry {
      if x.position < |entries| && entries[x.position] == x.entry { assert all[x.position] == x; }
    }
  }

  // ----- resolving one entry -----

  predicate Usable(f: Format, shape: Shape, strict: bool) { !strict || shape == Graph || f.CarriesDataset() }

  // The media types named outright at q=0; a range such as `text/*` at q=0 is not among them.
  predicate Rejected(entries: seq<Entry>, f: Format) {
    exists e :: e in entries && e.q == 0 && !EndsWith(e.range, "/*") && e.range == f.MediaType()
  }

  predicate Fits(entries: seq<Entry>, f: Format, shape: Shape, strict: bool) {
    Usable(f, shape, strict) && !Rejected(entries, f)
  }

  function Fallback(entries: seq<Entry>, shape: Shape, strict: bool): Option<Format> {
    if Fits(entries, Turtle, shape, strict) then Some(Turtle)
    else if Fits(entries, JsonLd, shape, strict) then Some(JsonLd)
    else None
  }

  /** What one entry resolves to in one pass. */
  function Resolve(entries: seq<Entry>, e: Entry, shape: Shape, stored: Option<Format>, strict: bool): Option<Format> {
    if e.q == 0 || e.version.None? then None
    else if e.range == "*/*" then
      if stored.Some? && Fits(entries, stored.value, shape, strict) then stored else Fallback(entries, shape, strict)
    else if e.range == "text/*" then
      if Fits(entries, Turtle, shape, strict) then Some(Turtle) else None
    else if e.range == "application/*" then Fallback(entries, shape, strict)
    else
      match FromMediaType(e.range)
      case None => None
      case Some(f) => if (if strict then Usable(f, shape, strict) else !Rejected(entries, f)) then Some(f) else None
  }

  // ----- what each range resolves to -----

  /** The format keeps everything a resource of this shape has; the lossy pass does not ask. */
  predicate MayCarry(f: Format, shape: Shape, strict: bool) {
    !strict || shape == Graph || f == JsonLd || f == TriG || f == NQuads
  }

  predicate NamedAtZero(entries: seq<Entry>, f: Format) {
    exists e :: e in entries && e.q == 0 && e.range == f.MediaType()
  }

  /** A wildcard may stand for it. */
  predicate Offered(entries: seq<Entry>, f: Format, shape: Shape, strict: bool) {
    MayCarry(f, shape, strict) && !NamedAtZero(entries, f)
  }

  lemma OfferedIffFits(entries: seq<Entry>, f: Format, shape: Shape, strict: bool)
    ensures Offered(entries, f, shape, strict) <==> Fits(entries, f, shape, strict)
    ensures NamedAtZero(entries, f) <==> Rejected(entries, f)
  {
    NotAWildcard(f);
  }

  predicate Counts(e: Entry) { e.q != 0 && e.version.Some? }

  /** Turtle if a wildcard may stand for it, else JSON-LD if one may. */
  function TurtleOrJsonLd(entries: seq<Entry>, shape: Shape, strict: bool): Option<Format> {
    if Offered(entries, Turtle, shape, strict) then Some(Turtle)
    else if Offered(entries, JsonLd, shape, strict) then Some(JsonLd)
    else None
  }

  /** The range of everything resolves to the stored format if a wildcard may stand for it; that range otherwise,
      and the application range always, to Turtle or JSON-LD; the text range to Turtle alone. */
  lemma WildcardsAreExact(entries: seq<Entry>, e: Entry, shape: Shape, stored: Option<Format>, strict: bool)
    requires Counts(e)
    ensures var r := Resolve(entries, e, shape, stored, strict);
            (e.range == "*/*" ==>
               r == if stored.Some? && Offered(entries, stored.value, shape, strict) then stored
                    else TurtleOrJsonLd(entries, shape, strict))
            && (e.range == "application/*" ==> r == TurtleOrJsonLd(entries, shape, strict))
            && (e.range == "text/*" ==> r == if Offered(entries, Turtle, shape, strict) then Some(Turtle) else None)
  {
    OfferedIffFits(entries, Turtle, shape, strict);
    OfferedIffFits(entries, JsonLd, shape, strict);
    if stored.Some? { OfferedIffFits(entries, stored.value, shape, strict); }
  }

  /** A named type resolves to itself, the first pass asking only whether it can carry the resource and the
      second only whether it was named at q=0. */
  lemma NamedTypesAreExact(entries: seq<Entry>, e: Entry, f: Format, shape: Shape, stored: Option<Format>, strict: bool)
    requires Counts(e) && e.range == f.MediaType()
    ensures Resolve(entries, e, shape, stored, strict) ==
      if (if strict then MayCarry(f, shape, true) else !NamedAtZero(entries, f)) then Some(f) else None
  {
    MediaTypesAreNotWildcards(f);
    OfferedIffFits(entries, f, shape, strict);
    assert FromMediaType(e.range) == Some(f) by { FormatOfItsType(f); }
  }

  lemma FormatOfItsType(f: Format)
    ensures FromMediaType(f.MediaType()) == Some(f)
  {
    var g := FromMediaType(f.MediaType());
    if g.Some? { MediaTypesDiffer(f, g.value); }
  }

  /** Nothing else resolves to anything. */
  lemma NothingElseResolves(entries: seq<Entry>, e: Entry, shape: Shape, stored: Option<Format>, strict: bool)
    requires !Counts(e) || (!Wildcard(e.range) && forall f: Format :: e.range != f.MediaType())
    ensures Resolve(entries, e, shape, stored, strict) == None
  {
  }

  function FirstResolved(entries: seq<Entry>, ranked: seq<Ranked>, shape: Shape, stored: Option<Format>, strict: bool)
    : Option<(Format, RdfVersion)>
  {
    if ranked == [] then None
    else match Resolve(entries, ranked[0].entry, shape, stored, strict)
      case Some(f) => Some((f, ranked[0].entry.version.value))
      case None => FirstResolved(entries, ranked[1..], shape, stored, strict)
  }

  function NegotiateFormat(entries: seq<Entry>, shape: Shape, stored: Option<Format>): Option<(Format, RdfVersion)> {
    if entries == [] then
      if stored.Some? && Usable(stored.value, shape, true) then Some((stored.value, Rdf11))
      else match Fallback([], shape, true) case None => None case Some(f) => Some((f, Rdf11))
    else
      var ranked := RankedAccept(entries);
      match FirstResolved(entries, ranked, shape, stored, true)
      case Some(r) => Some(r)
      case None => FirstResolved(entries, ranked, shape, stored, false)
  }

  // ----- what the outcome is, without a ranking -----

  predicate Resolves(entries: seq<Entry>, k: nat, shape: Shape, stored: Option<Format>, strict: bool) {
    k < |entries| && Resolve(entries, entries[k], shape, stored, strict).Some?
  }

  predicate NothingResolves(entries: seq<Entry>, shape: Shape, stored: Option<Format>, strict: bool) {
    forall k | 0 <= k < |entries| :: !Resolves(entries, k, shape, stored, strict)
  }

  /** The best entry of a pass: it resolves, and whatever else resolves has lower quality or comes later. */
  predicate Wins(entries: seq<Entry>, k: nat, shape: Shape, stored: Option<Format>, strict: bool) {
    Resolves(entries, k, shape, stored, strict)
    && forall j | 0 <= j < |entries| :: Resolves(entries, j, shape, stored, strict) && j != k ==>
         entries[j].q < entries[k].q || (entries[j].q == entries[k].q && k < j)
  }

  /** `r` is the winner's format and the winner's version. */
  predicate Answers(entries: seq<Entry>, k: nat, shape: Shape, stored: Option<Format>, strict: bool,
                    r: (Format, RdfVersion)) {
    Wins(entries, k, shape, stored, strict)
    && Resolve(entries, entries[k], shape, stored, strict) == Some(r.0) && entries[k].version == Some(r.1)
  }

  lemma {:induction false} FirstResolvedIsFirst(entries: seq<Entry>, ranked: seq<Ranked>, shape: Shape,
                                                stored: Option<Format>, strict: bool) returns (i: nat)
    ensures FirstResolved(entries, ranked, shape, stored, strict).None? <==>
      forall x :: x in ranked ==> Resolve(entries, x.entry, shape, stored, strict).None?
    ensures var r := FirstResolved(entries, ranked, shape, stored, strict);
            r.Some? ==>
              i < |ranked| && Resolve(entries, ranked[i].entry, shape, stored, strict) == Some(r.value.0)
              && ranked[i].entry.version == Some(r.value.1)
              && forall j :: 0 <= j < i ==> Resolve(entries, ranked[j].entry, shape, stored, strict).None?
  {
    i := 0;
    if ranked != [] && Resolve(entries, ranked[0].entry, shape, stored, strict).None? {
      var j := FirstResolvedIsFirst(entries, ranked[1..], shape, stored, strict);
      i := j + 1;
      assert ranked == [ranked[0]] + ranked[1..];
    }
  }

  /** One pass: it answers with the winner's format and version, or with nothing because nothing resolves. */
  lemma PassPicksTheWinner(entries: seq<Entry>, shape: Shape, stored: Option<Format>, strict: bool)
    ensures var r := FirstResolved(entries, RankedAccept(entries), shape, stored, strict);
            (r.None? <==> NothingResolves(entries, shape, stored, strict))
            && (r.Some? ==> exists k: nat :: Answers(entries, k, shape, stored, strict, r.value))
  {
    var ranked := RankedAccept(entries);
    RankingIsExact(entries);
    var i := FirstResolvedIsFirst(entries, ranked, shape, stored, strict);
    forall k | 0 <= k < |entries| ensures Ranked(k, entries[k]) in ranked {}
    var r := FirstResolved(entries, ranked, shape, stored, strict);
    if r.Some? {
      var w := ranked[i];
      assert w in ranked;
      forall j | 0 <= j < |entries| && Resolves(entries, j, shape, stored, strict) && j != w.position
        ensures entries[j].q < w.entry.q || (entries[j].q == w.entry.q && w.position < j)
      {
        var x := Ranked(j, entries[j]);
        var n :| 0 <= n < |ranked| && ranked[n] == x;
        assert i < n;
      }
      assert Answers(entries, w.position, shape, stored, strict, r.value);
    } else {
      forall k | 0 <= k < |entries| ensures !Resolves(entries, k, shape, stored, strict) {
        assert Ranked(k, entries[k]) in ranked;
      }
    }
  }

  /** The winner among the entries that can carry the resource; only without one, the winner of the lossy
      pass; and nothing exactly when neither pass resolves anything. */
  lemma NegotiatePicksTheBest(entries: seq<Entry>, shape: Shape, stored: Option<Format>)
    requires entries != []
    ensures var r := NegotiateFormat(entries, shape, stored);
            r.None? <==> NothingResolves(entries, shape, stored, true) && NothingResolves(entries, shape, stored, false)
    ensures !NothingResolves(entries, shape, stored, true) ==>
              exists k: nat :: Answers(entries, k, shape, stored, true, NegotiateFormat(entries, shape, stored).value)
    ensures NothingResolves(entries, shape, stored, true) && !NothingResolves(entries, shape, stored, false) ==>
              exists k: nat :: Answers(entries, k, shape, stored, false, NegotiateFormat(entries, shape, stored).value)
  {
    PassPicksTheWinner(entries, shape, stored, true);
    PassPicksTheWinner(entries, shape, stored, false);
  }

  /** There is one winner at most, so the answer is determined by the entries alone. */
  lemma WinnerIsUnique(entries: seq<Entry>, j: nat, k: nat, shape: Shape, stored: Option<Format>, strict: bool)
    requires Wins(entries, j, shape, stored, strict) && Wins(entries, k, shape, stored, strict)
    ensures j == k
  {
  }

  /** With no `Accept` at all there is always an answer, it carries the whole resource, and it is RDF 1.1. */
  lemma NoHeaderAlwaysAnswers(shape: Shape, stored: Option<Format>)
    ensures var r := NegotiateFormat([], shape, stored);
            r.Some? && r.value.1 == Rdf11 && Usable(r.value.0, shape, true)
            && (stored.Some? && Usable(stored.value, shape, true) ==> r.value.0 == stored.value)
    ensures NegotiateFormat([], shape, stored) ==
            Some((if stored.Some? && MayCarry(stored.value, shape, true) then stored.value
                  else if shape == Graph then Turtle else JsonLd, Rdf11))
  {
    forall f { OfferedIffFits([], f, shape, true); }
    assert Fits([], JsonLd, shape, true);
  }

  // ----- the two passes -----

  lemma LossyAnswerWasAvailableStrictly(entries: seq<Entry>, k: nat, shape: Shape, stored: Option<Format>)
    requires Resolves(entries, k, shape, stored, false)
    requires Usable(Resolve(entries, entries[k], shape, stored, false).value, shape, true)
    ensures Resolves(entries, k, shape, stored, true)
  {
    var e := entries[k];
    var f := Resolve(entries, e, shape, stored, false).value;
    if e.range == "*/*" || e.range == "application/*" || e.range == "text/*" {
      assert !Rejected(entries, f);
      assert Fits(entries, f, shape, true);
    }
  }

  /** The lossy pass answers a dataset-shaped resource only with a format that carries no dataset, and it
      never answers a graph-shaped resource at all. */
  lemma LossyPassIsLossy(entries: seq<Entry>, shape: Shape, stored: Option<Format>)
    requires entries != [] && NothingResolves(entries, shape, stored, true)
    ensures var r := NegotiateFormat(entries, shape, stored);
            r.Some? ==> shape == Dataset && !r.value.0.CarriesDataset()
  {
    NegotiatePicksTheBest(entries, shape, stored);
    var r := NegotiateFormat(entries, shape, stored);
    if r.Some? {
      var k: nat :| Answers(entries, k, shape, stored, false, r.value);
      if Usable(r.value.0, shape, true) { LossyAnswerWasAvailableStrictly(entries, k, shape, stored); }
    }
  }

  // ----- wildcards -----

  predicate Wildcard(range: string) { range == "*/*" || range == "text/*" || range == "application/*" }

  /** No wildcard resolves to a format the client named at q=0; a format named twice is still reachable by name. */
  lemma WildcardsAvoidRejected(entries: seq<Entry>, e: Entry, shape: Shape, stored: Option<Format>, strict: bool)
    ensures var f := Resolve(entries, e, shape, stored, strict);
            f.Some? && Rejected(entries, f.value) ==> !Wildcard(e.range) && strict && e.range == f.value.MediaType()
  {
  }

  predicate Admits(range: string, f: Format) {
    range == "*/*" || range == f.MediaType()
    || (range == "text/*" && "text/" <= f.MediaType()) || (range == "application/*" && "application/" <= f.MediaType())
  }

  // What an entry resolves to is within its range, with one exception: `application/*` resolves to
  // Turtle, which is not an application type, exactly when Turtle can carry the resource and is not
  // named at q=0.
  lemma ResolvedIsAdmittedExceptApplication(entries: seq<Entry>, e: Entry, shape: Shape, stored: Option<Format>,
                                            strict: bool)
    requires Resolve(entries, e, shape, stored, strict).Some?
    ensures Admits(e.range, Resolve(entries, e, shape, stored, strict).value) <==>
      !(e.range == "application/*" && Fits(entries, Turtle, shape, strict))
  {
    var f := Resolve(entries, e, shape, stored, strict).value;
    assert "application/" <= JsonLd.MediaType() && "text/" <= Turtle.MediaType();
    assert Turtle.MediaType()[0] != "application/"[0];
    assert EndsWith("application/*", "/*") && EndsWith("*/*", "/*") && EndsWith("text/*", "/*");
    MediaTypesAreNotWildcards(f);
  }

  lemma MediaTypesAreNotWildcards(f: Format)
    ensures !Wildcard(f.MediaType())
  {
  }

  // ----- a type range at q=0 rejects nothing -----

  /** A range such as `text/` with a star after it, or the range of everything, at quality zero. */
  predicate ZeroRange(e: Entry) { e.q == 0 && EndsWith(e.range, "/*") }

  /** The positions of the other entries. */
  function Kept(entries: seq<Entry>): seq<nat> {
    if entries == [] then []
    else
      var n := |entries| - 1;
      Kept(entries[..n]) + (if ZeroRange(entries[n]) then [] else [n])
  }

  ghost predicate Increasing(s: seq<nat>) { forall i, j :: 0 <= i < j < |s| ==> s[i] < s[j] }

  lemma SnocIncreasing(s: seq<nat>, n: nat)
    requires Increasing(s) && forall k :: k in s ==> k < n
    ensures Increasing(s + [n])
  {
    assert forall i :: 0 <= i < |s| ==> s[i] in s;
  }

  lemma {:induction false} KeptIsExact(entries: seq<Entry>)
    ensures forall k: nat :: k in Kept(entries) <==> k < |entries| && !ZeroRange(entries[k])
    ensures Increasing(Kept(entries))
  {
    if entries != [] {
      var n := |entries| - 1;
      KeptIsExact(entries[..n]);
      SnocIncreasing(Kept(entries[..n]), n);
      forall k: nat ensures k in Kept(entries) <==> k < |entries| && !ZeroRange(entries[k]) {
        assert k < n ==> entries[..n][k] == entries[k];
      }
    }
  }

  function WithoutZeroRanges(entries: seq<Entry>): (r: seq<Entry>)
    ensures |r| == |Kept(entries)|
    ensures forall i :: 0 <= i < |r| ==> Kept(entries)[i] < |entries| && r[i] == entries[Kept(entries)[i]]
  {
    KeptIsExact(entries);
    assert forall i :: 0 <= i < |Kept(entries)| ==> Kept(entries)[i] in Kept(entries);
    seq(|Kept(entries)|, i requires 0 <= i < |Kept(entries)| => entries[Kept(entries)[i]])
  }

  /** Where an entry that stays ends up. */
  lemma NewPosition(entries: seq<Entry>, k: nat) returns (i: nat)
    requires k < |entries| && !ZeroRange(entries[k])
    ensures i < |Kept(entries)| && Kept(entries)[i] == k
  {
    KeptIsExact(entries);
    i :| 0 <= i < |Kept(entries)| && Kept(entries)[i] == k;
  }

  lemma SameRejected(entries: seq<Entry>, f: Format)
    ensures Rejected(WithoutZeroRanges(entries), f) == Rejected(entries, f)
  {
    var r := WithoutZeroRanges(entries);
    if Rejected(entries, f) {
      var k :| 0 <= k < |entries| && entries[k].q == 0 && !EndsWith(entries[k].range, "/*")
          && entries[k].range == f.MediaType();
      var i := NewPosition(entries, k);
      assert r[i] in r;
    }
    if Rejected(r, f) {
      var i :| 0 <= i < |r| && r[i].q == 0 && !EndsWith(r[i].range, "/*") && r[i].range == f.MediaType();
      assert entries[Kept(entries)[i]] in entries;
    }
  }

  lemma SameResolve(entries: seq<Entry>, e: Entry, shape: Shape, stored: Option<Format>, strict: bool)
    ensures Resolve(WithoutZeroRanges(entries), e, shape, stored, strict) == Resolve(entries, e, shape, stored, strict)
  {
    forall f { SameRejected(entries, f); }
  }

  lemma SameWinner(entries: seq<Entry>, k: nat, shape: Shape, stored: Option<Format>, strict: bool,
                   r: (Format, RdfVersion)) returns (i: nat)
    requires Answers(entries, k, shape, stored, strict, r)
    ensures Answers(WithoutZeroRanges(entries), i, shape, stored, strict, r)
  {
    var kept, rest := Kept(entries), WithoutZeroRanges(entries);
    i := NewPosition(entries, k);
    KeptIsExact(entries);
    SameResolve(entries, rest[i], shape, stored, strict);
    forall j | 0 <= j < |rest| && Resolves(rest, j, shape, stored, strict) && j != i
      ensures rest[j].q < rest[i].q || (rest[j].q == rest[i].q && i < j)
    {
      SameResolve(entries, rest[j], shape, stored, strict);
      assert Resolves(entries, kept[j], shape, stored, strict) && kept[j] != k;
    }
  }

  lemma SameNothing(entries: seq<Entry>, shape: Shape, stored: Option<Format>, strict: bool)
    ensures NothingResolves(WithoutZeroRanges(entries), shape, stored, strict) ==
        NothingResolves(entries, shape, stored, strict)
  {
    var kept, rest := Kept(entries), WithoutZeroRanges(entries);
    forall i | 0 <= i < |rest|
      ensures Resolves(rest, i, shape, stored, strict) == Resolves(entries, kept[i], shape, stored, strict)
    {
      SameResolve(entries, rest[i], shape, stored, strict);
    }
    forall k | 0 <= k < |entries| && Resolves(entries, k, shape, stored, strict)
      ensures !NothingResolves(rest, shape, stored, strict)
    {
      var i := NewPosition(entries, k);
      assert Resolves(rest, i, shape, stored, strict);
    }
  }

  lemma SamePass(entries: seq<Entry>, shape: Shape, stored: Option<Format>, strict: bool)
    ensures FirstResolved(WithoutZeroRanges(entries), RankedAccept(WithoutZeroRanges(entries)), shape, stored, strict)
         == FirstResolved(entries, RankedAccept(entries), shape, stored, strict)
  {
    var rest := WithoutZeroRanges(entries);
    PassPicksTheWinner(entries, shape, stored, strict);
    PassPicksTheWinner(rest, shape, stored, strict);
    SameNothing(entries, shape, stored, strict);
    var r := FirstResolved(entries, RankedAccept(entries), shape, stored, strict);
    if r.Some? {
      var k: nat :| Answers(entries, k, shape, stored, strict, r.value);
      var i := SameWinner(entries, k, shape, stored, strict, r.value);
      var q := FirstResolved(rest, RankedAccept(rest), shape, stored, strict);
      var j: nat :| Answers(rest, j, shape, stored, strict, q.value);
      WinnerIsUnique(rest, i, j, shape, stored, strict);
    }
  }

  /** For every header: leaving out all type ranges at q=0 changes no answer while an entry is left, and
      a header of nothing else is answered with nothing. */
  lemma ZeroRangesChangeNothing(entries: seq<Entry>, shape: Shape, stored: Option<Format>)
    requires entries != []
    ensures NegotiateFormat(entries, shape, stored) ==
      if WithoutZeroRanges(entries) == [] then None else NegotiateFormat(WithoutZeroRanges(entries), shape, stored)
  {
    SamePass(entries, shape, stored, true);
    SamePass(entries, shape, stored, false);
    var rest := WithoutZeroRanges(entries);
    if rest == [] { assert FirstResolved(rest, RankedAccept(rest), shape, stored, true).None?; }
  }

  // ----- accept_allows -----

  function TypeOf(essence: string): string {
    if essence == "" || essence[0] == '/' then "" else [essence[0]] + TypeOf(essence[1..])
  }

  function Specificity(range: string, essence: string): nat {
    if range == essence then 3 else if range == TypeOf(essence) + "/*" then 2 else if range == "*/*" then 1 else 0
  }

  /** Admissible when no header was sent, or some entry of the most specific kind that applies has q above 0. */
  predicate Allowed(entries: seq<Entry>, essence: string) {
    entries == [] ||
    exists k :: 0 <= k < |entries| && Specificity(entries[k].range, essence) > 0 && entries[k].q > 0
      && forall j | 0 <= j < |entries| ::
        Specificity(entries[j].range, essence) <= Specificity(entries[k].range, essence)
  }

  method AcceptAllows(entries: seq<Entry>, essence: string) returns (allowed: bool)
    ensures allowed <==> Allowed(entries, essence)
  {
    if entries == [] { return true; }
    var ranked := RankedAccept(entries);
    RankingIsExact(entries);
    var best: Option<(nat, int)> := None;
    ghost var at := 0;
    for i := 0 to |ranked|
      invariant best.None? ==> forall j :: 0 <= j < i ==> Specificity(ranked[j].entry.range, essence) == 0
      invariant best.Some? ==>
          at < i && best.value == (Specificity(ranked[at].entry.range, essence), ranked[at].entry.q) && best.value.0 > 0
      invariant best.Some? ==> forall j :: 0 <= j < i ==> Specificity(ranked[j].entry.range, essence) <= best.value.0
      invariant best.Some? ==> forall j :: 0 <= j < at ==> Specificity(ranked[j].entry.range, essence) < best.value.0
    {
      var e := ranked[i].entry;
      var specificity := Specificity(e.range, essence);
      if specificity > 0 && (best.None? || specificity > best.value.0) {
        best := Some((specificity, e.q));
        at := i;
      }
    }
    allowed := best.Some? && best.value.1 > 0;
    AllowedByRanking(entries, ranked, essence, best, at);
  }

  lemma AllowedByRanking(entries: seq<Entry>, ranked: seq<Ranked>, essence: string, best: Option<(nat, int)>, at: nat)
    requires entries != [] && ranked == RankedAccept(entries)
    requires best.None? ==> forall j :: 0 <= j < |ranked| ==> Specificity(ranked[j].entry.range, essence) == 0
    requires best.Some? ==>
        at < |ranked| && best.value == (Specificity(ranked[at].entry.range, essence), ranked[at].entry.q)
        && best.value.0 > 0
    requires best.Some? ==>
        forall j :: 0 <= j < |ranked| ==> Specificity(ranked[j].entry.range, essence) <= best.value.0
    requires best.Some? ==> forall j :: 0 <= j < at ==> Specificity(ranked[j].entry.range, essence) < best.value.0
    ensures best.Some? && best.value.1 > 0 <==> Allowed(entries, essence)
  {
    if best.Some? {
      assert ranked[at] in ranked;
      RankingIsExact(entries);
      var p := ranked[at].position;
      forall j | 0 <= j < |entries|
        ensures Specificity(entries[j].range, essence) <= Specificity(entries[p].range, essence)
      {
        var n := WhereRanked(entries, j);
      }
      if Allowed(entries, essence) {
        var k :| 0 <= k < |entries| && Specificity(entries[k].range, essence) > 0 && entries[k].q > 0
          && forall j | 0 <= j < |entries| ::
            Specificity(entries[j].range, essence) <= Specificity(entries[k].range, essence);
        var n := WhereRanked(entries, k);
        assert Specificity(entries[p].range, essence) <= Specificity(entries[k].range, essence);
        assert at <= n;
        assert at < n ==> Before(ranked[at], ranked[n]);
      }
    } else {
      forall k | 0 <= k < |entries| ensures Specificity(entries[k].range, essence) == 0 {
        var n := WhereRanked(entries, k);
      }
    }
  }

  lemma WhereRanked(entries: seq<Entry>, k: nat) returns (n: nat)
    requires k < |entries|
    ensures n < |RankedAccept(entries)| && RankedAccept(entries)[n] == Ranked(k, entries[k])
  {
    RankingIsExact(entries);
    assert Ranked(k, entries[k]) in RankedAccept(entries);
    n :| 0 <= n < |RankedAccept(entries)| && RankedAccept(entries)[n] == Ranked(k, entries[k]);
  }

  // ----- when the answer is one the header does not admit -----

  function TypeRange(f: Format): string { if f == Turtle then "text/*" else "application/*" }

  predicate Mentions(entries: seq<Entry>, range: string) { exists e :: e in entries && e.range == range }
  predicate Admitted(entries: seq<Entry>, range: string) { exists e :: e in entries && e.range == range && e.q > 0 }

  /** The most specific range that applies to `f` occurs at no positive quality. */
  predicate Unwelcome(entries: seq<Entry>, f: Format) {
    if Mentions(entries, f.MediaType()) then !Admitted(entries, f.MediaType())
    else if Mentions(entries, TypeRange(f)) then !Admitted(entries, TypeRange(f))
    else !Admitted(entries, "*/*")
  }

  lemma {:induction false} TypeOfPrefix(s: string, n: nat)
    requires n < |s| && s[n] == '/' && forall i :: 0 <= i < n ==> s[i] != '/'
    ensures TypeOf(s) == s[..n]
  {
    if n > 0 {
      TypeOfPrefix(s[1..], n - 1);
      assert s[..n] == [s[0]] + s[1..][..n - 1];
    }
  }

  lemma TypeRangeOf(f: Format)
    ensures TypeOf(f.MediaType()) + "/*" == TypeRange(f)
  {
    var mt, n := f.MediaType(), if f == Turtle then 4 else 11;
    MediaTypeShape(f, n);
    TypeOfPrefix(mt, n);
  }

  lemma MediaTypeShape(f: Format, n: nat)
    requires n == if f == Turtle then 4 else 11
    ensures var mt := f.MediaType();
            n < |mt| && mt[n] == '/' && mt[..n] == (if f == Turtle then "text" else "application")
            && forall i :: 0 <= i < n ==> mt[i] != '/'
  {
  }

  lemma RangesDiffer(f: Format)
    ensures f.MediaType() != TypeRange(f) && f.MediaType() != "*/*"
  {
    NotAWildcard(f);
    assert EndsWith(TypeRange(f), "/*") && EndsWith("*/*", "/*");
  }

  /** By the three ranges that can apply to a media type, whatever they are. */
  lemma AllowedByRanges(entries: seq<Entry>, mt: string, range: string)
    requires entries != [] && range == TypeOf(mt) + "/*" && mt != range && mt != "*/*" && range != "*/*"
    ensures Allowed(entries, mt) <==>
      if Mentions(entries, mt) then Admitted(entries, mt)
      else if Mentions(entries, range) then Admitted(entries, range)
      else Admitted(entries, "*/*")
  {
    var top := if Mentions(entries, mt) then mt else if Mentions(entries, range) then range else "*/*";
    forall j | 0 <= j < |entries| ensures Specificity(entries[j].range, mt) <= Specificity(top, mt) {
      assert entries[j] in entries;
    }
    if Allowed(entries, mt) {
      var k :| 0 <= k < |entries| && Specificity(entries[k].range, mt) > 0 && entries[k].q > 0
        && forall j | 0 <= j < |entries| :: Specificity(entries[j].range, mt) <= Specificity(entries[k].range, mt);
      assert entries[k] in entries;
      if Mentions(entries, top) {
        var e :| e in entries && e.range == top;
        var j :| 0 <= j < |entries| && entries[j] == e;
      }
      assert entries[k].range == top;
    }
    if Admitted(entries, top) {
      var e :| e in entries && e.range == top && e.q > 0;
      var k :| 0 <= k < |entries| && entries[k] == e;
    }
  }

  lemma AllowedUnlessUnwelcome(entries: seq<Entry>, f: Format)
    requires entries != []
    ensures Allowed(entries, f.MediaType()) <==> !Unwelcome(entries, f)
  {
    RangesDiffer(f);
    TypeRangeOf(f);
    assert TypeRange(f)[0] != '*';
    AllowedByRanges(entries, f.MediaType(), TypeRange(f));
  }

  /** Exactly when negotiation answers with a format that the same header, read by `accept_allows`, does not
      admit. A format the header names is only ever unwelcome at a negative quality. Without negative
      qualities and without a mention of its type it is Turtle, reached through the application range. */
  lemma WhenTheAnswerIsUnwelcome(entries: seq<Entry>, shape: Shape, stored: Option<Format>)
    requires entries != [] && NegotiateFormat(entries, shape, stored).Some?
    ensures var f := NegotiateFormat(entries, shape, stored).value.0;
            !Allowed(entries, f.MediaType()) <==> Unwelcome(entries, f)
    ensures var f := NegotiateFormat(entries, shape, stored).value.0;
            Mentions(entries, f.MediaType()) && Unwelcome(entries, f) ==>
              exists e :: e in entries && e.range == f.MediaType() && e.q < 0
    ensures var f := NegotiateFormat(entries, shape, stored).value.0;
            (forall e :: e in entries ==> e.q >= 0) ==>
              (Unwelcome(entries, f) <==>
                 !Mentions(entries, f.MediaType())
                 && if Mentions(entries, TypeRange(f)) then !Admitted(entries, TypeRange(f))
                    else f == Turtle && !Admitted(entries, "*/*") && Admitted(entries, "application/*"))
  {
    var f := NegotiateFormat(entries, shape, stored).value.0;
    AllowedUnlessUnwelcome(entries, f);
    NegotiatePicksTheBest(entries, shape, stored);
    var strict := !NothingResolves(entries, shape, stored, true);
    var k: nat :| Answers(entries, k, shape, stored, strict, NegotiateFormat(entries, shape, stored).value);
    HowItGotThere(entries, entries[k], shape, stored, strict, f);
    if Mentions(entries, f.MediaType()) && Unwelcome(entries, f) { NamedOnlyBelowZero(entries, entries[k], f); }
  }

  /** The entry that resolved to `f` says most of what the header thinks of it. */
  lemma HowItGotThere(entries: seq<Entry>, e: Entry, shape: Shape, stored: Option<Format>, strict: bool, f: Format)
    requires e in entries && Resolve(entries, e, shape, stored, strict) == Some(f)
    ensures e.q != 0 && (e.range == f.MediaType() || !Rejected(entries, f))
    ensures e.range == f.MediaType() || e.range == "*/*" || e.range == TypeRange(f)
            || (e.range == "application/*" && f == Turtle)
  {
    if e.range == "*/*" {
      if stored.Some? && Fits(entries, stored.value, shape, strict) {
      } else {
        FallbackFits(entries, shape, strict);
      }
    } else if e.range == "text/*" {
    } else if e.range == "application/*" {
      FallbackFits(entries, shape, strict);
    }
  }

  lemma FallbackFits(entries: seq<Entry>, shape: Shape, strict: bool)
    ensures var f := Fallback(entries, shape, strict);
            f.Some? ==> Fits(entries, f.value, shape, strict) && (f.value == Turtle || f.value == JsonLd)
  {
  }

  lemma NamedOnlyBelowZero(entries: seq<Entry>, e: Entry, f: Format)
    requires e in entries && e.q != 0 && (e.range == f.MediaType() || !Rejected(entries, f))
    requires Mentions(entries, f.MediaType()) && !Admitted(entries, f.MediaType())
    ensures exists x :: x in entries && x.range == f.MediaType() && x.q < 0
  {
    NotAWildcard(f);
    if !Rejected(entries, f) {
      var x :| x in entries && x.range == f.MediaType();
      assert x.q < 0;
    }
  }

  lemma NotAWildcard(f: Format)
    ensures !EndsWith(f.MediaType(), "/*")
  {
    var mt := f.MediaType();
    assert mt[|mt| - 2..][1] != '*';
  }
}

/**
 RDF versions and the projection between them (src/dataset.rs, src/rdf.rs). The two additions
 of RDF 1.2 degrade unequally: a base direction is stripped off its literal, a triple term
 takes its whole quad with it.
 */
module Versions {
  import opened Collections
  import opened Wrappers
  import opened Terms
  import opened Skolem

  datatype RdfVersion = Rdf11 | Rdf12Basic | Rdf12 {
    function Rank(): nat { match this case Rdf11 => 0 case Rdf12Basic => 1 case Rdf12 => 2 }
    predicate AtMost(other: RdfVersion) { Rank() <= other.Rank() }
  }

  function Min(a: RdfVersion, b: RdfVersion): RdfVersion { if a.AtMost(b) then a else b }
  function Max(a: RdfVersion, b: RdfVersion): RdfVersion { if a.AtMost(b) then b else a }

  /** What one object needs. */
  function Needs(t: Term): RdfVersion {
    match t
    case TTriple(_) => Rdf12
    case TLit(Directional(_, _, _)) => Rdf12Basic
    case _ => Rdf11
  }

  /** The least version every term is expressible under. */
  function VersionOf(d: Dataset): (v: RdfVersion)
    ensures forall q :: q in d ==> Needs(q.triple.o).AtMost(v)
    ensures v == Rdf11 || exists q :: q in d && Needs(q.triple.o) == v
  {
    if d == [] then Rdf11
    else
      var init, last := d[..|d| - 1], d[|d| - 1];
      assert d == init + [last];
      Max(VersionOf(init), Needs(last.triple.o))
  }

  lemma VersionIsLeast(d: Dataset, v: RdfVersion)
    ensures VersionOf(d).AtMost(v) <==> forall q :: q in d ==> Needs(q.triple.o).AtMost(v)
  {
  }

  /** `rdf_version`: one pass, which stops as soon as nothing can raise the answer. */
  method Classify(d: Dataset) returns (found: RdfVersion)
    ensures found == VersionOf(d)
  {
    found := Rdf11;
    for i := 0 to |d|
      invariant found == VersionOf(d[..i])
    {
      assert d[..i + 1][..i] == d[..i];
      found := Max(found, Needs(d[i].triple.o));
      if found == Rdf12 {
        assert forall q :: q in d[..i + 1] ==> q in d;
        return;
      }
    }
    assert d[..|d|] == d;
  }

  // ----- project_to -----

  function ProjectedObject(t: Term, target: RdfVersion): Term {
    match t
    case TLit(Directional(lexical, language, _)) =>
      if !Rdf12Basic.AtMost(target) then TLit(Tagged(lexical, language)) else t
    case _ => t
  }

  function ProjectedQuad(q: Quad, target: RdfVersion): Option<Quad> {
    if target != Rdf12 && q.triple.o.TTriple? then None
    else Some(q.(triple := q.triple.(o := ProjectedObject(q.triple.o, target))))
  }

  function ProjectQuads(d: Dataset, target: RdfVersion): Dataset {
    if d == [] then []
    else
      var rest := ProjectQuads(d[..|d| - 1], target);
      match ProjectedQuad(d[|d| - 1], target) case None => rest case Some(q) => rest + [q]
  }

  function ProjectTo(d: Dataset, target: RdfVersion): Dataset {
    if VersionOf(d).AtMost(target) then d else ProjectQuads(d, target)
  }

  lemma {:induction false} ProjectionIsIdentityWhenExpressible(d: Dataset, target: RdfVersion)
    requires VersionOf(d).AtMost(target)
    ensures ProjectQuads(d, target) == d
  {
    if d != [] {
      var init, last := d[..|d| - 1], d[|d| - 1];
      assert d == init + [last];
      ProjectionIsIdentityWhenExpressible(init, target);
      assert ProjectedQuad(last, target) == Some(last);
    }
  }

  lemma {:induction false} ProjectionFits(d: Dataset, target: RdfVersion)
    ensures VersionOf(ProjectQuads(d, target)).AtMost(target)
  {
    if d != [] {
      var init, last := d[..|d| - 1], d[|d| - 1];
      ProjectionFits(init, target);
      if ProjectedQuad(last, target).Some? {
        var rest := ProjectQuads(init, target);
        assert (rest + [ProjectedQuad(last, target).value])[..|rest|] == rest;
      }
    }
  }

  lemma ProjectedTwice(q: Quad, a: RdfVersion, b: RdfVersion)
    ensures ProjectedQuad(q, Min(a, b)) ==
      match ProjectedQuad(q, a) case None => None case Some(p) => ProjectedQuad(p, b)
  {
  }

  lemma {:induction false} ProjectQuadsCompose(d: Dataset, a: RdfVersion, b: RdfVersion)
    ensures ProjectQuads(ProjectQuads(d, a), b) == ProjectQuads(d, Min(a, b))
  {
    if d != [] {
      var init, last := d[..|d| - 1], d[|d| - 1];
      ProjectQuadsCompose(init, a, b);
      ProjectedTwice(last, a, b);
      if ProjectedQuad(last, a).Some? {
        var rest := ProjectQuads(init, a);
        assert (rest + [ProjectedQuad(last, a).value])[..|rest|] == rest;
      }
    }
  }

  lemma ProjectToIsProjectQuads(d: Dataset, target: RdfVersion)
    ensures ProjectTo(d, target) == ProjectQuads(d, target)
  {
    if VersionOf(d).AtMost(target) { ProjectionIsIdentityWhenExpressible(d, target); }
  }

  /** Projecting twice is projecting once to the lower of the two. */
  lemma ProjectionsCompose(d: Dataset, a: RdfVersion, b: RdfVersion)
    ensures ProjectTo(ProjectTo(d, a), b) == ProjectTo(d, Min(a, b))
  {
    ProjectToIsProjectQuads(d, a);
    ProjectToIsProjectQuads(ProjectTo(d, a), b);
    ProjectToIsProjectQuads(d, Min(a, b));
    ProjectQuadsCompose(d, a, b);
  }

  /** Nothing is lost exactly at or above the version held. */
  lemma LosslessIffAtLeastHeld(d: Dataset, target: RdfVersion)
    ensures ProjectTo(d, target) == d <==> VersionOf(d).AtMost(target)
    ensures VersionOf(ProjectTo(d, target)).AtMost(Min(target, VersionOf(d)))
  {
    ProjectionFits(d, target);
    ProjectToIsProjectQuads(d, target);
    ProjectionFits(d, Min(target, VersionOf(d)));
    ProjectToIsProjectQuads(d, Min(target, VersionOf(d)));
    if !VersionOf(d).AtMost(target) {
      assert Min(target, VersionOf(d)) == target;
    }
  }

  /** The quad without a base direction on its object, otherwise as written. */
  predicate SameButForDirection(q: Quad, p: Quad) {
    p.graph == q.graph && p.triple.s == q.triple.s && p.triple.p == q.triple.p
    && (p.triple.o == q.triple.o
        || (q.triple.o.TLit? && q.triple.o.literal.Directional?
            && p.triple.o == TLit(Tagged(q.triple.o.literal.lexical, q.triple.o.literal.language))))
  }

  /** A projection is a part of what was written, never a rewriting of it, and it keeps every statement
      that is not about a triple term. */
  lemma {:induction false} ProjectionNeverInvents(d: Dataset, target: RdfVersion)
    ensures forall p :: p in ProjectQuads(d, target) ==> exists q :: q in d && SameButForDirection(q, p)
    ensures forall q :: q in d && !q.triple.o.TTriple? ==>
        exists p :: p in ProjectQuads(d, target) && SameButForDirection(q, p)
  {
    if d != [] {
      var init, last := d[..|d| - 1], d[|d| - 1];
      assert d == init + [last];
      ProjectionNeverInvents(init, target);
      var rest, all := ProjectQuads(init, target), ProjectQuads(d, target);
      forall p | p in all
        ensures exists q :: q in d && SameButForDirection(q, p)
      {
        if p in rest {
          var q :| q in init && SameButForDirection(q, p);
          assert q in d;
        } else {
          assert SameButForDirection(last, p);
        }
      }
      forall q | q in d && !q.triple.o.TTriple?
        ensures exists p :: p in all && SameButForDirection(q, p)
      {
        if q in init {
          var p :| p in rest && SameButForDirection(q, p);
          assert p in all;
        } else {
          var p := ProjectedQuad(last, target).value;
          assert p in all && SameButForDirection(last, p);
        }
      }
    }
  }

  // ----- the default graph alone -----

  function DefaultGraphOnly(d: Dataset): (r: Dataset)
    ensures forall q :: q in r <==> q in d && q.graph == Unnamed
    ensures r == d <==> forall q :: q in d ==> q.graph == Unnamed
    ensures |r| <= |d|
  {
    if d == [] then []
    else
      var init, last := d[..|d| - 1], d[|d| - 1];
      assert d == init + [last];
      if last.graph == Unnamed then DefaultGraphOnly(init) + [last] else DefaultGraphOnly(init)
  }

  lemma {:induction false} DefaultIsFilterMap(d: Dataset)
    ensures DefaultGraphOnly(d) == FilterMap(d, (q: Quad) => if q.graph == Unnamed then Some(q) else None)
  {
    if d != [] { DefaultIsFilterMap(d[..|d| - 1]); }
  }

  lemma {:induction false} ProjectionIsFilterMap(d: Dataset, v: RdfVersion)
    ensures ProjectQuads(d, v) == FilterMap(d, q => ProjectedQuad(q, v))
  {
    if d != [] { ProjectionIsFilterMap(d[..|d| - 1], v); }
  }
}

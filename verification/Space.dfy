/**
 The pod's URI topology (src/space.rs): one classification of request paths, its inverse,
 and why the graph names it mints can never be confused with one another.
 */
module Space {
  import opened Wrappers
  import opened Terms
  import opened Paths

  datatype SpaceError = NotRooted | NotNormalized | Reserved | InvalidResourceIri

  datatype AuxKind = Acl

  const AUX_KINDS: seq<AuxKind> := [Acl]
  const RESERVED_SEGMENTS: seq<string> := [".aux", ".well-known"]

  function KindSuffix(kind: AuxKind): string {
    match kind case Acl => ".acl"
  }

  /** `AuxKind::split_suffix`: the first kind whose suffix ends `rest`, and what is left of it. */
  function SplitSuffix(rest: string, kinds: seq<AuxKind>): (r: Option<(AuxKind, string)>)
    ensures r.Some? ==> rest == r.value.1 + KindSuffix(r.value.0)
  {
    if kinds == [] then None
    else match StripSuffix(rest, KindSuffix(kinds[0]))
      case Some(subject) => Some((kinds[0], subject))
      case None => SplitSuffix(rest, kinds[1..])
  }

  /** What follows `/segment` when the whole first segment is `segment`. */
  function SegmentRemainder(path: string, segment: string): (rest: Option<string>)
    ensures rest.Some? ==> path == "/" + segment + rest.value
  {
    if "/" + segment <= path then
      var rest := path[|segment| + 1..];
      if rest == "" || rest[0] == '/' then Some(rest) else None
    else None
  }

  predicate InReservedSegment(path: string) {
    exists i :: 0 <= i < |RESERVED_SEGMENTS| && SegmentRemainder(path, RESERVED_SEGMENTS[i]).Some?
  }

  datatype ResourceUrl = ResourceUrl(path: string, iri: string)
  datatype AuxUrl = AuxUrl(kind: AuxKind, subject: ResourceUrl, iri: string)
  datatype Target = Resource(r: ResourceUrl) | Container(c: ResourceUrl) | Aux(a: AuxUrl)

  function GraphIri(t: Target): string {
    match t
    case Resource(r) => r.iri
    case Container(c) => c.iri
    case Aux(a) => a.iri
  }

  /** `ResourceUrl::aux`: the auxiliary's URL is the subject's with `/.aux` put before its path. */
  function AuxOf(r: ResourceUrl, kind: AuxKind): (a: AuxUrl)
    requires EndsWith(r.iri, r.path)
  {
    AuxUrl(kind, r, r.iri[..|r.iri| - |r.path|] + "/.aux" + r.path + KindSuffix(kind))
  }

  function AuxPath(path: string, kind: AuxKind): string {
    "/.aux" + path + KindSuffix(kind)
  }

  /** `validIri` stands for `NamedNode::new(..).is_ok()`, the RDF library's own IRI check. */
  datatype StorageSpace = StorageSpace(base: string, validIri: string -> bool) {
    /** What `StorageSpace::new` accepts. */
    predicate Valid() {
      ("http://" <= base || "https://" <= base) && EndsWith(base, "/") && validIri(base)
    }

    function ResourceAt(path: string): Result<ResourceUrl, SpaceError>
      requires path != ""
    {
      var iri := base + path[1..];
      if validIri(iri) then Ok(ResourceUrl(path, iri)) else Err(InvalidResourceIri)
    }

    function Resolve(path: string): Result<Target, SpaceError>
      requires Valid()
    {
      if !("/" <= path) then Err(NotRooted)
      else if !Stable(path) then Err(NotNormalized)
      else if SegmentRemainder(path, ".well-known").Some? then Err(Reserved)
      else match SegmentRemainder(path, ".aux")
        case Some(rest) => ResolveAux(rest)
        case None =>
          match ResourceAt(path)
          case Err(e) => Err(e)
          case Ok(r) => Ok(if EndsWith(path, "/") then Container(r) else Resource(r))
    }

    function ResolveAux(rest: string): Result<Target, SpaceError>
      requires Valid() && (rest == "" || rest[0] == '/')
    {
      match SplitSuffix(rest, AUX_KINDS)
      case None => Err(Reserved)
      case Some((kind, subjectPath)) =>
        RootedSubject(rest, kind, subjectPath);
        if InReservedSegment(subjectPath) then Err(Reserved)
        else if !Stable(subjectPath) then Err(NotNormalized)
        else match ResourceAt(subjectPath)
          case Err(e) => Err(e)
          case Ok(subject) =>
            IriEndsWithPath(this, subject);
            var aux := AuxOf(subject, kind);
            if validIri(aux.iri) then Ok(Aux(aux)) else Err(InvalidResourceIri)
    }
  }

  lemma RootedSubject(rest: string, kind: AuxKind, subjectPath: string)
    requires rest == "" || rest[0] == '/'
    requires rest == subjectPath + KindSuffix(kind)
    ensures subjectPath != "" && subjectPath[0] == '/'
  {
    assert subjectPath == "" ==> rest == KindSuffix(kind);
  }

  lemma IriEndsWithPath(space: StorageSpace, r: ResourceUrl)
    requires space.Valid() && "/" <= r.path && r.iri == space.base + r.path[1..]
    ensures EndsWith(r.iri, r.path)
    ensures r.iri[..|r.iri| - |r.path|] + "/" == space.base
  {
    var b := space.base;
    assert b[|b| - 1..] == "/";
    assert b == b[..|b| - 1] + "/";
    assert r.path == "/" + r.path[1..];
    assert r.iri == b[..|b| - 1] + r.path;
  }

  // ----- one graph per URL -----

  /** Whatever a path resolves to, its graph IRI is the base followed by the path. */
  lemma GraphIriSpellsPath(space: StorageSpace, path: string)
    requires space.Valid() && space.Resolve(path).Ok?
    ensures "/" <= path && GraphIri(space.Resolve(path).value) == space.base + path[1..]
  {
    match SegmentRemainder(path, ".aux") {
      case None =>
        var r := space.ResourceAt(path).value;
        assert space.Resolve(path).value in {Container(r), Resource(r)};
      case Some(rest) =>
        var a := ResolveAuxShape(space, rest);
        AuxIriSpelled(space, a.subject, a.kind);
        AuxPathRemainder(path, rest, a);
    }
  }

  lemma AuxPathRemainder(path: string, rest: string, a: AuxUrl)
    requires path == "/" + ".aux" + rest && rest == a.subject.path + KindSuffix(a.kind)
    ensures path == AuxPath(a.subject.path, a.kind)
  {
    assert "/" + ".aux" == "/.aux";
    assert path == "/.aux" + a.subject.path + KindSuffix(a.kind);
  }

  lemma ResolveAuxShape(space: StorageSpace, rest: string) returns (a: AuxUrl)
    requires space.Valid() && (rest == "" || rest[0] == '/')
    requires space.ResolveAux(rest).Ok?
    ensures space.ResolveAux(rest).value == Aux(a) && rest == a.subject.path + KindSuffix(a.kind)
    ensures "/" <= a.subject.path && a.subject.iri == space.base + a.subject.path[1..]
    ensures EndsWith(a.subject.iri, a.subject.path) && a == AuxOf(a.subject, a.kind)
  {
    a := space.ResolveAux(rest).value.a;
    var (kind, subjectPath) := SplitSuffix(rest, AUX_KINDS).value;
    RootedSubject(rest, kind, subjectPath);
    IriEndsWithPath(space, a.subject);
  }

  lemma AuxIriSpelled(space: StorageSpace, r: ResourceUrl, kind: AuxKind)
    requires space.Valid() && "/" <= r.path && r.iri == space.base + r.path[1..]
    ensures EndsWith(r.iri, r.path) && AuxOf(r, kind).iri == space.base + AuxPath(r.path, kind)[1..]
  {
    IriEndsWithPath(space, r);
    var stem := r.iri[..|r.iri| - |r.path|];
    assert AuxPath(r.path, kind)[1..] == ".aux" + r.path + KindSuffix(kind);
    assert AuxOf(r, kind).iri == stem + "/" + (".aux" + r.path + KindSuffix(kind));
  }

  /** Two accepted paths never share a graph, whatever kind of thing each of them names. */
  lemma DistinctPathsDistinctGraphs(space: StorageSpace, p: string, q: string)
    requires space.Valid() && space.Resolve(p).Ok? && space.Resolve(q).Ok?
    requires GraphIri(space.Resolve(p).value) == GraphIri(space.Resolve(q).value)
    ensures p == q
  {
    GraphIriSpellsPath(space, p);
    GraphIriSpellsPath(space, q);
    assert p == "/" + (space.base + p[1..])[|space.base|..];
    assert q == "/" + (space.base + q[1..])[|space.base|..];
  }

  /** A subject path the resource space accepts, as far as this pod decides it. */
  predicate Acceptable(path: string) {
    "/" <= path && Stable(path) && !InReservedSegment(path)
  }

  lemma AcceptableIsUnreserved(path: string)
    requires Acceptable(path)
    ensures SegmentRemainder(path, ".aux").None? && SegmentRemainder(path, ".well-known").None?
  {
    assert RESERVED_SEGMENTS[0] == ".aux" && RESERVED_SEGMENTS[1] == ".well-known";
  }

  lemma {:induction false} SplitAppendSlashFree(s: string, suffix: string)
    requires SlashFree(suffix)
    ensures var segments := Split(s);
            Split(s + suffix) == segments[..|segments| - 1] + [segments[|segments| - 1] + suffix]
  {
    if s == "" {
      SplitSlashFree(suffix);
      assert s + suffix == suffix;
    } else {
      var c, tail := s[0], s[1..];
      SplitAppendSlashFree(tail, suffix);
      assert s + suffix == [c] + (tail + suffix) && s == [c] + tail;
      SplitCons(c, tail + suffix);
      SplitCons(c, tail);
      ConsExtendLast(c, Split(tail), suffix);
    }
  }

  lemma ConsExtendLast(c: char, x: seq<string>, suffix: string)
    requires |x| >= 1
    ensures var whole := Cons(c, x);
            Cons(c, x[..|x| - 1] + [x[|x| - 1] + suffix]) == whole[..|whole| - 1] + [whole[|whole| - 1] + suffix]
  {
    if c != '/' && |x| == 1 {
      assert [c] + (x[0] + suffix) == ([c] + x[0]) + suffix;
    }
  }

  lemma AuxPathIsStable(path: string, kind: AuxKind)
    requires "/" <= path && Stable(path)
    ensures Stable(AuxPath(path, kind))
  {
    var tail := path[1..] + KindSuffix(kind);
    assert path == "/" + path[1..];
    assert AuxPath(path, kind)[1..] == ".aux" + "/" + tail;
    SplitAtSlash(".aux", tail);
    SplitAppendSlashFree(path[1..], KindSuffix(kind));
    var segments, all := Split(path[1..]), Split(AuxPath(path, kind)[1..]);
    var init := segments[..|segments| - 1];
    assert all[..|all| - 1] == [".aux"] + init;
    assert path[1..] == "" ==> init == [];
    assert |segments[|segments| - 1] + KindSuffix(kind)| >= 4;
  }

  lemma SplitSuffixFindsKind(subject: string, kind: AuxKind)
    ensures SplitSuffix(subject + KindSuffix(kind), AUX_KINDS) == Some((kind, subject))
  {
    var rest := subject + KindSuffix(kind);
    assert AUX_KINDS[0] == kind;
    assert rest[|rest| - |KindSuffix(kind)|..] == KindSuffix(kind);
    assert rest[..|rest| - |KindSuffix(kind)|] == subject;
  }

  /** `resolve` undoes `aux`: the ACL of an accepted subject is found under its URL. */
  lemma ResolveInvertsAux(space: StorageSpace, r: ResourceUrl, kind: AuxKind)
    requires space.Valid() && Acceptable(r.path) && space.ResourceAt(r.path) == Ok(r)
    requires EndsWith(r.iri, r.path) && space.validIri(AuxOf(r, kind).iri)
    ensures space.Resolve(AuxPath(r.path, kind)) == Ok(Aux(AuxOf(r, kind)))
  {
    var path := AuxPath(r.path, kind);
    AuxPathIsStable(r.path, kind);
    var rest := r.path + KindSuffix(kind);
    assert path == "/" + ".aux" + rest;
    assert path[|".aux"| + 1..] == rest;
    assert path[1] == '.' && path[2] == 'a' && ("/" + ".well-known")[2] == 'w';
    assert SegmentRemainder(path, ".well-known").None?;
    assert SegmentRemainder(path, ".aux") == Some(rest);
    SplitSuffixFindsKind(r.path, kind);
  }

  /** `aux` undoes `resolve`: an accepted auxiliary URL is the one its subject derives, and that
      subject is a resource or container the pod serves in its own right. */
  lemma AuxInvertsResolve(space: StorageSpace, path: string)
    requires space.Valid() && space.Resolve(path).Ok? && space.Resolve(path).value.Aux?
    ensures var a := space.Resolve(path).value.a;
            EndsWith(a.subject.iri, a.subject.path) && a == AuxOf(a.subject, a.kind) &&
            path == AuxPath(a.subject.path, a.kind) && Acceptable(a.subject.path) &&
            space.Resolve(a.subject.path) ==
              Ok(if EndsWith(a.subject.path, "/") then Container(a.subject) else Resource(a.subject))
  {
    var a := space.Resolve(path).value.a;
    AuxPathRemainder(path, SegmentRemainder(path, ".aux").value, a);
    AcceptableIsUnreserved(a.subject.path);
    IriEndsWithPath(space, a.subject);
  }

  // ----- what each path resolves to -----

  /** The whole first segment of the path is `segment`. */
  predicate Under(path: string, segment: string) { path == "/" + segment || "/" + segment + "/" <= path }

  lemma RemainderIffUnder(path: string, segment: string)
    ensures SegmentRemainder(path, segment).Some? <==> Under(path, segment)
  {
    if "/" + segment <= path {
      var rest := path[|segment| + 1..];
      assert path == "/" + segment + rest;
      if rest != "" && rest[0] == '/' { assert "/" + segment + "/" == path[..|segment| + 2]; }
    }
  }

  /** Below one of the two reserved segments, or that segment itself. */
  predicate SetAside(path: string) { Under(path, ".aux") || Under(path, ".well-known") }

  /** A path the pod serves, and one an ACL can be for. */
  predicate Servable(path: string) { "/" <= path && Stable(path) && !SetAside(path) }

  lemma AcceptableIffServable(path: string)
    ensures Acceptable(path) <==> Servable(path)
    ensures "/" <= path ==> (InReservedSegment(path) <==> SetAside(path))
  {
    RemainderIffUnder(path, ".aux");
    RemainderIffUnder(path, ".well-known");
    assert RESERVED_SEGMENTS[0] == ".aux" && RESERVED_SEGMENTS[1] == ".well-known";
  }

  function UrlAt(space: StorageSpace, path: string): string
    requires "/" <= path
  {
    space.base + path[1..]
  }

  /** The path of the ACL of what is at `s`. */
  function AclPath(s: string): string { "/.aux" + s + ".acl" }

  lemma AclPathIsUnderAux(path: string, s: string)
    requires path == AclPath(s)
    ensures SegmentRemainder(path, ".aux").Some? ==> SegmentRemainder(path, ".aux").value == s + ".acl"
    ensures "/" <= s ==> Under(path, ".aux") && !Under(path, ".well-known")
  {
    RemainderIffUnder(path, ".aux");
    assert "/.aux" == "/" + ".aux";
    assert path == "/.aux" + (s + ".acl");
    if "/" <= s {
      assert path[..6] == "/.aux/";
      assert path[2] == 'a' && ("/" + ".well-known")[2] == 'w';
    }
  }

  /** A resource or a container is answered exactly for a servable path that makes a valid IRI, and the
      trailing slash says which. */
  lemma PlainIffServable(space: StorageSpace, path: string, r: ResourceUrl)
    requires space.Valid()
    ensures space.Resolve(path) == Ok(Resource(r)) <==>
              Servable(path) && space.validIri(UrlAt(space, path)) && !EndsWith(path, "/")
              && r == ResourceUrl(path, UrlAt(space, path))
    ensures space.Resolve(path) == Ok(Container(r)) <==>
              Servable(path) && space.validIri(UrlAt(space, path)) && EndsWith(path, "/")
              && r == ResourceUrl(path, UrlAt(space, path))
  {
    RemainderIffUnder(path, ".aux");
    RemainderIffUnder(path, ".well-known");
    if "/" <= path && SegmentRemainder(path, ".aux").Some? && space.Resolve(path).Ok? && Stable(path)
       && SegmentRemainder(path, ".well-known").None?
    {
      var a := ResolveAuxShape(space, SegmentRemainder(path, ".aux").value);
    }
  }

  /** What is below `/.aux`, by the subject the path has, if it has one. */
  lemma AuxAnswer(space: StorageSpace, path: string, s: string)
    requires space.Valid() && "/" <= path && Stable(path) && Under(path, ".aux") && path == AclPath(s)
    ensures "/" <= s
    ensures space.Resolve(path) ==
      if SetAside(s) then Err(Reserved)
      else if !Stable(s) then Err(NotNormalized)
      else if !space.validIri(UrlAt(space, s)) || !space.validIri(UrlAt(space, path)) then Err(InvalidResourceIri)
      else Ok(Aux(AuxUrl(Acl, ResourceUrl(s, UrlAt(space, s)), UrlAt(space, path))))
  {
    RemainderIffUnder(path, ".aux");
    RemainderIffUnder(path, ".well-known");
    AclPathIsUnderAux(path, s);
    var rest := SegmentRemainder(path, ".aux").value;
    SplitSuffixFindsKind(s, Acl);
    RootedSubject(rest, Acl, s);
    assert s == "/" + s[1..];
    AcceptableIffServable(s);
    var subject := ResourceUrl(s, UrlAt(space, s));
    AuxIriSpelled(space, subject, Acl);
    AclPathIsUnderAux(path, s);
  }

  lemma NoSubject(space: StorageSpace, path: string)
    requires space.Valid() && "/" <= path && Stable(path) && Under(path, ".aux")
    requires forall s :: path != AclPath(s)
    ensures space.Resolve(path) == Err(Reserved)
  {
    RemainderIffUnder(path, ".aux");
    var rest := SegmentRemainder(path, ".aux").value;
    assert path == "/.aux" + rest;
    assert AUX_KINDS == [Acl] && AUX_KINDS[1..] == [];
    if EndsWith(rest, ".acl") {
      var s := rest[..|rest| - 4];
      assert rest == s + ".acl";
      assert path == AclPath(s);
    }
  }

  /** An auxiliary is answered exactly for the ACL path of a servable subject, both making valid IRIs. */
  lemma AuxIffOfServable(space: StorageSpace, path: string, a: AuxUrl)
    requires space.Valid()
    ensures space.Resolve(path) == Ok(Aux(a)) <==>
              exists s :: Servable(s) && path == AclPath(s)
                && space.validIri(UrlAt(space, s)) && space.validIri(UrlAt(space, path))
                && a == AuxUrl(Acl, ResourceUrl(s, UrlAt(space, s)), UrlAt(space, path))
  {
    if space.Resolve(path) == Ok(Aux(a)) {
      RemainderIffUnder(path, ".aux");
      if s :| path == AclPath(s) { AuxAnswer(space, path, s); } else { NoSubject(space, path); }
    }
    if s :| Servable(s) && path == AclPath(s) && space.validIri(UrlAt(space, s)) && space.validIri(UrlAt(space, path))
            && a == AuxUrl(Acl, ResourceUrl(s, UrlAt(space, s)), UrlAt(space, path)) {
      AclPathIsUnderAux(path, s);
      AuxPathIsStable(s, Acl);
      assert AuxPath(s, Acl) == path;
      AuxAnswer(space, path, s);
    }
  }

  /** Each refusal has its own paths: unrooted ones; ones normalization would change, the subject's path
      counting too; ones below `/.well-known`, or below `/.aux` without a subject the pod serves; and ones that
      make no valid IRI. */
  lemma RefusalsAreExact(space: StorageSpace, path: string)
    requires space.Valid()
    ensures space.Resolve(path) == Err(NotRooted) <==> !("/" <= path)
    ensures space.Resolve(path) == Err(NotNormalized) <==>
              "/" <= path && (!Stable(path) || exists s :: path == AclPath(s) && "/" <= s && !Stable(s) && !SetAside(s))
    ensures space.Resolve(path) == Err(Reserved) <==>
              "/" <= path && Stable(path)
              && (Under(path, ".well-known") || (Under(path, ".aux") && forall s :: path == AclPath(s) ==> SetAside(s)))
    ensures space.Resolve(path) == Err(InvalidResourceIri) <==>
              (Servable(path) && !space.validIri(UrlAt(space, path)))
              || exists s :: path == AclPath(s) && Servable(s) && "/" <= path
                   && (!space.validIri(UrlAt(space, s)) || !space.validIri(UrlAt(space, path)))
  {
    RemainderIffUnder(path, ".aux");
    RemainderIffUnder(path, ".well-known");
    if "/" <= path {
      forall s | path == AclPath(s) && "/" <= s ensures Under(path, ".aux") && !Under(path, ".well-known") {
        AclPathIsUnderAux(path, s);
      }
      forall s | path == AclPath(s) && Servable(s) ensures Stable(path) {
        AuxPathIsStable(s, Acl);
        assert AuxPath(s, Acl) == path;
      }
      if Stable(path) && Under(path, ".aux") {
        if s :| path == AclPath(s) {
          AuxAnswer(space, path, s);
          forall x | path == AclPath(x) ensures x == s { AclPathIsInjective(x, s); }
          assert !Under(path, ".well-known");
        } else {
          NoSubject(space, path);
          assert !Servable(path);
        }
      }
    }
  }

  lemma AclPathIsInjective(a: string, b: string)
    requires AclPath(a) == AclPath(b)
    ensures a == b
  {
    assert a == AclPath(a)[5..|AclPath(a)| - 4] && b == AclPath(b)[5..|AclPath(b)| - 4];
  }

  // ----- closure of the resource space -----

  lemma UnreservedPrefix(q: string, path: string)
    requires q <= path && (EndsWith(q, "/") || path == q + "/") && !InReservedSegment(path)
    ensures !InReservedSegment(q)
  {
    forall i | 0 <= i < |RESERVED_SEGMENTS|
      ensures SegmentRemainder(q, RESERVED_SEGMENTS[i]).None?
    {
      var segment := RESERVED_SEGMENTS[i];
      assert SegmentRemainder(path, segment).None?;
      OutsidePrefix(q, path, segment);
    }
  }

  lemma OutsidePrefix(q: string, path: string, segment: string)
    requires segment != "" && segment[|segment| - 1] != '/'
    requires q <= path && (EndsWith(q, "/") || path == q + "/") && SegmentRemainder(path, segment).None?
    ensures SegmentRemainder(q, segment).None?
  {
    if "/" + segment <= q {
      assert "/" + segment <= path;
      assert |q| > 0 && q[|q| - 1..] == [q[|q| - 1]];
      if q != "/" + segment {
        assert path[|segment| + 1] == q[|segment| + 1];
      }
    }
  }

  lemma UnreservedWithSlash(path: string)
    requires !InReservedSegment(path)
    ensures !InReservedSegment(path + "/")
  {
    forall i | 0 <= i < |RESERVED_SEGMENTS|
      ensures SegmentRemainder(path + "/", RESERVED_SEGMENTS[i]).None?
    {
      var segment := RESERVED_SEGMENTS[i];
      assert SegmentRemainder(path, segment).None?;
      if "/" + segment <= path + "/" {
        assert segment[|segment| - 1] != '/';
        assert ("/" + segment)[|segment|] == (path + "/")[|segment|];
        assert "/" + segment <= path;
        assert |path| > |segment| + 1 ==> path[|segment| + 1] == (path + "/")[|segment| + 1];
      }
    }
  }

  /** Parents, ancestors and slash counterparts of an acceptable path are acceptable. */
  lemma ResourceSpaceIsClosed(path: string)
    requires Acceptable(path)
    ensures Parent(path).Some? ==> Acceptable(Parent(path).value) && EndsWith(Parent(path).value, "/")
    ensures forall q :: q in AncestorsOf(path) ==> Acceptable(q) && EndsWith(q, "/")
    ensures SlashCounterpart(path).Some? ==> Acceptable(SlashCounterpart(path).value)
  {
    AncestorsAreSlashPrefixes(path);
    ParentIsLongestSlashPrefix(path);
    forall q | SlashPrefix(q, path) && q != ""
      ensures Acceptable(q)
    {
      SlashPrefixIsStable(q, path);
      UnreservedPrefix(q, path);
    }
    if path != "/" {
      CounterpartIsInvolution(path);
      TrimmedFacts(path);
      var q := SlashCounterpart(path).value;
      if EndsWith(path, "/") {
        UnreservedPrefix(q, path);
      } else {
        UnreservedWithSlash(path);
      }
    }
  }
}

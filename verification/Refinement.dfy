/**
 What the graphs, registries, shelves and objects amount to when operations do not overlap:
 a map from resource to dataset or bytes (src/resource.rs, src/aux.rs, src/shelf.rs).
 */
module Refinement {
  import opened Wrappers
  import opened Terms
  import opened Paths
  import opened Patches
  import opened Storage
  import opened Protocol
  import opened Crash
  import Blob

  // ----- the simple map -----

  /** One resource or auxiliary. `bytes` is what a binary resource serves; `media` what it arrived as. */
  datatype Res = Res(present: bool, quads: set<GroundQuad>, bytes: Option<Bytes>, media: set<string>)

  const NOTHING := Res(false, {}, None, {})

  type ResourceMap = map<Iri, Res>

  function Lookup(a: ResourceMap, n: Iri): Res { if n in a then a[n] else NOTHING }

  function Lift(ts: set<GroundTriple>): set<GroundQuad> { set t | t in ts :: GroundQuad(t, DefaultGraph) }
  function DefaultPart(quads: set<GroundQuad>): set<GroundTriple> {
    set q | q in quads && q.graph == DefaultGraph :: q.triple
  }
  function NamedPart(quads: set<GroundQuad>): set<GroundQuad> { set q | q in quads && q.graph != DefaultGraph }

  /** Section 5.3.1 of the Solid Protocol: one mapping, everything to delete there, then out with it and
      in with the new. */
  ghost function PatchedGraph(g: set<GroundTriple>, patch: Patch): set<GroundTriple> {
    match FindMapping(g, patch)
    case Refused(_) => g
    case OneMapping(m) =>
      if Writable(patch, m) && There(DeletionSet(patch.deletions, m), g)
      then (g - Substitute(patch.deletions, m)) + Substitute(patch.insertions, m) else g
  }

  ghost function PatchVerdict(g: set<GroundTriple>, patch: Patch): Outcome {
    match FindMapping(g, patch)
    case Refused(result) => Patched(result)
    case OneMapping(m) =>
      if Effectless(patch) then Patched(Applied)
      else if !Writable(patch, m) then StoreFailed
      else if There(DeletionSet(patch.deletions, m), g) then Patched(Applied)
      else Patched(DeletionMissing)
  }

  ghost function PatchRes(res: Res, patch: Patch): Res {
    res.(quads := Lift(PatchedGraph(DefaultPart(res.quads), patch)) + NamedPart(res.quads))
  }

  /** What each operation does to the map, and what it answers. */
  ghost function Spec(a: ResourceMap, enc: Blob.Encoding, op: Op): (ResourceMap, Outcome) {
    match op
    case PutDataset(r, quads, media) =>
      (a[ResourceIri(r) := Res(true, (set q | q in quads), None, {media})], Wrote)
    case PutBlob(r, bytes, media) =>
      if Blob.KeyOf(enc, r).None? then (a, KeyTooLong)
      else (a[ResourceIri(r) := Res(true, {}, Some(bytes), {media})], Wrote)
    case PutRdf(r, ts) =>
      var was := Lookup(a, ResourceIri(r));
      (a[ResourceIri(r) := was.(present := true, quads := Lift(ts) + NamedPart(was.quads))], Wrote)
    case InsertMarked(r, ts) =>
      var was := Lookup(a, ResourceIri(r));
      (a[ResourceIri(r) := was.(present := true, quads := was.quads + Lift(ts))], Wrote)
    case PatchResource(r, patch) =>
      var was := Lookup(a, ResourceIri(r));
      (a[ResourceIri(r) := PatchRes(was, patch)], PatchVerdict(DefaultPart(was.quads), patch))
    case AuxPut(s, doc) =>
      if |doc| > MAX_AUX_TRIPLES then (a, TooLarge(|doc|))
      else if !Lookup(a, ResourceIri(s)).present then (a, SubjectMissing)
      else (a[AuxIri(s) := Res(true, Lift(SetOf(doc)), None, {})], Wrote)
    case AuxPatch(s, patch) =>
      var was := Lookup(a, AuxIri(s));
      if !was.present then (a, if Lookup(a, ResourceIri(s)).present then Missing else SubjectMissing)
      else (a[AuxIri(s) := PatchRes(was, patch)], PatchVerdict(DefaultPart(was.quads), patch))
    case DeleteAux(s) => (a - {AuxIri(s)}, Deleted(Lookup(a, AuxIri(s)).present))
    case DeleteSubject(r) =>
      var gone := a - {ResourceIri(r), AuxIri(r)};
      var unlinked := match Parent(r)
        case None => gone
        case Some(p) =>
          var was := Lookup(gone, ResourceIri(p));
          var link := GroundQuad(Member(ResourceIri(p), ResourceIri(r)), DefaultGraph);
          gone[ResourceIri(p) := was.(quads := was.quads - {link})];
      (unlinked, Deleted(Lookup(a, ResourceIri(r)).present))
  }

  // ----- what the store represents -----

  /** Every quad of `n`: its own graph, and each of its shelves under the name the shelf is kept for. */
  function View(g: Graphs, n: Iri): set<GroundQuad> {
    Lift(At(g, n)) + set k, t | k in g && k.ShelfIri? && k.owner == n && t in g[k] :: GroundQuad(t, Named(k.name))
  }

  lemma ViewHas(g: Graphs, n: Iri, q: GroundQuad)
    ensures q in View(g, n) <==> q.triple in At(g, if q.graph.Named? then ShelfIri(n, q.graph.name) else n)
  {
    if q.graph.Named? && q.triple in At(g, ShelfIri(n, q.graph.name)) {
      var k := ShelfIri(n, q.graph.name);
      assert k in g && q == GroundQuad(q.triple, Named(k.name));
    }
  }

  function BytesOf(g: Graphs, objects: map<string, Bytes>, enc: Blob.Encoding, p: string): Option<Bytes> {
    if SaysBinary(g, p) && Blob.KeyOf(enc, p).Some? && Blob.KeyOf(enc, p).value in objects
    then Some(objects[Blob.KeyOf(enc, p).value]) else None
  }

  function Abs(g: Graphs, objects: map<string, Bytes>, enc: Blob.Encoding, n: Iri): Res {
    Res(Present(g, n), View(g, n),
        if n.ResourceIri? then BytesOf(g, objects, enc, n.path) else None,
        if n.ResourceIri? then RecordedMediaTypes(g, n.path) else {})
  }

  /** Every shelf that holds anything is registered with its owner under its one name, and a registry
      lists nothing but its own resource's shelves. */
  ghost predicate ShelfInv(g: Graphs) {
    (forall k: Iri, t :: t in At(g, k) && k.ShelfIri? ==>
       k.owner.ResourceIri? && SubgraphFact(k.owner, k) in At(g, SysIri(k.owner)))
    && (forall n: Iri, t :: t in At(g, SysIri(n)) && t.p == Vocab(SysHasSubgraph) ==>
          t.s == n && t.o.Node? && t.o.iri.ShelfIri? && t.o.iri.owner == n
          && NameFact(t.o.iri, t.o.iri.name) in At(g, SysIri(n)))
    && (forall n: Iri, t :: t in At(g, SysIri(n)) && t.p == Vocab(SysGraphName) ==>
          t.s.ShelfIri? && t == NameFact(t.s, t.s.name))
  }

  ghost predicate Good(g: Graphs, enc: Blob.Encoding) { Sound(g) && ShelfInv(g) && enc.Valid() }

  predicate Entity(n: Iri) { n.AuxIri? || (n.ResourceIri? && Url(n.path)) }

  ghost predicate Represents(g: Graphs, objects: map<string, Bytes>, enc: Blob.Encoding, a: ResourceMap) {
    forall n: Iri :: Entity(n) ==> Abs(g, objects, enc, n) == Lookup(a, n)
  }

  // ----- frames -----

  /** A resource reads the same when its graph, its shelves, its facts and its object do. */
  lemma SameAbs(g: Graphs, h: Graphs, objects: map<string, Bytes>, objects': map<string, Bytes>, enc: Blob.Encoding,
                n: Iri)
    requires At(g, n) == At(h, n) && At(g, SysIri(n)) == At(h, SysIri(n))
    requires forall name: Iri :: At(g, ShelfIri(n, name)) == At(h, ShelfIri(n, name))
    requires n.ResourceIri? && Blob.KeyOf(enc, n.path).Some? ==>
      var k := Blob.KeyOf(enc, n.path).value;
      (k in objects <==> k in objects') && (k in objects ==> objects[k] == objects'[k])
    ensures Abs(g, objects, enc, n) == Abs(h, objects', enc, n)
  {
    forall q: GroundQuad ensures q in View(g, n) <==> q in View(h, n) {
      ViewHas(g, n, q);
      ViewHas(h, n, q);
    }
  }

  lemma ViewIs(g: Graphs, n: Iri, quads: set<GroundQuad>)
    requires forall q: GroundQuad :: q in quads <==>
        q.triple in At(g, if q.graph.Named? then ShelfIri(n, q.graph.name) else n)
    ensures View(g, n) == quads
  {
    forall q: GroundQuad ensures q in View(g, n) <==> q in quads { ViewHas(g, n, q); }
  }

  lemma DefaultPartOfView(g: Graphs, n: Iri)
    ensures DefaultPart(View(g, n)) == At(g, n)
  {
    forall t: GroundTriple ensures t in DefaultPart(View(g, n)) <==> t in At(g, n) {
      ViewHas(g, n, GroundQuad(t, DefaultGraph));
    }
  }

  /** Replacing a resource's own graph replaces the default part of what it represents. */
  lemma ViewWithDefault(g: Graphs, h: Graphs, n: Iri)
    requires forall name: Iri :: At(g, ShelfIri(n, name)) == At(h, ShelfIri(n, name))
    ensures View(h, n) == Lift(At(h, n)) + NamedPart(View(g, n))
  {
    forall q: GroundQuad ensures q in View(h, n) <==> q in Lift(At(h, n)) + NamedPart(View(g, n)) {
      ViewHas(g, n, q);
      ViewHas(h, n, q);
    }
  }

  lemma UnregisteredShelvesAreEmpty(g: Graphs, r: string, name: Iri)
    requires ShelfInv(g)
    ensures At(g, ShelfIri(ResourceIri(r), name)) != {} ==> ShelfIri(ResourceIri(r), name) in RegisteredShelves(g, r)
  {
    var k := ShelfIri(ResourceIri(r), name);
    if t :| t in At(g, k) {
      assert SubgraphFact(ResourceIri(r), k).o.iri == k;
    }
  }

  lemma RegisteredAreShelvesOf(g: Graphs, r: string)
    requires ShelfInv(g)
    ensures forall k :: k in RegisteredShelves(g, r) ==> k.ShelfIri? && k.owner == ResourceIri(r)
    ensures OnlyShelves(RegisteredShelves(g, r))
  {
  }

  // ----- each operation, left alone, does what the simple map says -----

  ghost predicate Refines(g: Graphs, objects: map<string, Bytes>, enc: Blob.Encoding, a: ResourceMap, op: Op) {
    var (h, objects', outcome) := Settle(g, objects, enc, Fresh(op));
    var (b, answer) := Spec(a, enc, op);
    Good(h, enc) && Represents(h, objects', enc, b) && outcome == answer
  }

  lemma SettleOne(g: Graphs, objects: map<string, Bytes>, enc: Blob.Encoding, cl: Client)
    requires !cl.Finished?
    ensures var (h, o, next) := Move(g, objects, enc, cl);
            Settle(g, objects, enc, cl) == (if next.Finished? then (h, o, next.outcome) else Settle(h, o, enc, next))
  {
  }

  lemma SettlePutDataset(g: Graphs, objects: map<string, Bytes>, enc: Blob.Encoding, r: string, quads: seq<GroundQuad>,
                         media: string)
    ensures Settle(g, objects, enc, Fresh(PutDataset(r, quads, media))) ==
      (PutDatasetUpdate(g, r, quads, media, RegisteredShelves(g, r)),
       if Blob.KeyOf(enc, r).Some? then objects - {Blob.KeyOf(enc, r).value} else objects, Wrote)
  {
    var op := PutDataset(r, quads, media);
    var listed := RegisteredShelves(g, r);
    var h := PutDatasetUpdate(g, r, quads, media, listed);
    assert Move(g, objects, enc, Fresh(op)) == (g, objects, Listed(op, false, listed));
    assert Move(g, objects, enc, Listed(op, false, listed)) == (h, objects, ObjectLeft(op, Wrote));
    assert Settle(h, objects, enc, ObjectLeft(op, Wrote)) == (h, Move(h, objects, enc, ObjectLeft(op, Wrote)).1, Wrote);
  }

  lemma PutDatasetKeepsShelves(g: Graphs, r: string, quads: seq<GroundQuad>, media: string)
    requires ShelfInv(g)
    ensures ShelfInv(PutDatasetUpdate(g, r, quads, media, RegisteredShelves(g, r)))
  {
    var listed := RegisteredShelves(g, r);
    var h := PutDatasetUpdate(g, r, quads, media, listed);
    RegisteredAreShelvesOf(g, r);
    PutDatasetFrame(g, r, quads, media, listed);
    RegistryIsWellShaped(r, quads, media);
    forall k: Iri, t | t in At(h, k) && k.ShelfIri?
      ensures k.owner.ResourceIri? && SubgraphFact(k.owner, k) in At(h, SysIri(k.owner))
    {
      FilledShelfIsRegistered(g, r, quads, media, k, t);
    }
  }

  lemma FilledShelfIsRegistered(g: Graphs, r: string, quads: seq<GroundQuad>, media: string, k: Iri, t: GroundTriple)
    requires ShelfInv(g) && k.ShelfIri? && t in At(PutDatasetUpdate(g, r, quads, media, RegisteredShelves(g, r)), k)
    ensures k.owner.ResourceIri?
    ensures if k.owner == ResourceIri(r) then SubgraphFact(k.owner, k) in Registry(r, quads, media)
            else SubgraphFact(k.owner, k) in At(g, SysIri(k.owner))
  {
    RegisteredAreShelvesOf(g, r);
    ShelfKeysAreShelves(r, quads);
    PutDatasetAt(g, r, quads, media, RegisteredShelves(g, r), k);
    UnregisteredShelvesAreEmpty(g, r, k.name);
  }

  lemma RegistryIsWellShaped(r: string, quads: seq<GroundQuad>, media: string)
    ensures forall t :: t in Registry(r, quads, media) && t.p == Vocab(SysHasSubgraph) ==>
      t.s == ResourceIri(r) && t.o.Node? && t.o.iri.ShelfIri? && t.o.iri.owner == ResourceIri(r) &&
      NameFact(t.o.iri, t.o.iri.name) in Registry(r, quads, media)
    ensures forall t :: t in Registry(r, quads, media) && t.p == Vocab(SysGraphName) ==>
        t.s.ShelfIri? && t == NameFact(t.s, t.s.name)
    ensures BinaryFact(ResourceIri(r)) !in Registry(r, quads, media)
            && Marker(ResourceIri(r)) in Registry(r, quads, media)
  {
    ShelfKeysAreShelves(r, quads);
  }

  lemma PutDatasetView(g: Graphs, r: string, quads: seq<GroundQuad>, media: string)
    requires ShelfInv(g)
    ensures View(PutDatasetUpdate(g, r, quads, media, RegisteredShelves(g, r)), ResourceIri(r)) == set q | q in quads
  {
    var listed := RegisteredShelves(g, r);
    var h := PutDatasetUpdate(g, r, quads, media, listed);
    RegisteredAreShelvesOf(g, r);
    ShelfKeysAreShelves(r, quads);
    forall q: GroundQuad
      ensures q in quads <==>
          q.triple in At(h, if q.graph.Named? then ShelfIri(ResourceIri(r), q.graph.name) else ResourceIri(r))
    {
      var x := if q.graph.Named? then ShelfIri(ResourceIri(r), q.graph.name) else ResourceIri(r);
      PutDatasetAt(g, r, quads, media, listed, x);
      assert q.triple in TriplesIn(quads, q.graph) <==> q in quads by {
        if q.triple in TriplesIn(quads, q.graph) {
          var p :| p in quads && p.graph == q.graph && p.triple == q.triple;
          assert p == q;
        }
      }
      if q.graph.Named? && x !in ShelfKeys(r, quads) {
        UnregisteredShelvesAreEmpty(g, r, q.graph.name);
      }
    }
    ViewIs(h, ResourceIri(r), set q | q in quads);
  }

  lemma PutDatasetElsewhere(g: Graphs, objects: map<string, Bytes>, enc: Blob.Encoding, r: string,
                            quads: seq<GroundQuad>, media: string, n: Iri)
    requires Good(g, enc) && Url(r) && Entity(n) && n != ResourceIri(r)
    ensures var (h, objects', _) := Settle(g, objects, enc, Fresh(PutDataset(r, quads, media)));
            Abs(h, objects', enc, n) == Abs(g, objects, enc, n)
  {
    SettlePutDataset(g, objects, enc, r, quads, media);
    var (h, objects', _) := Settle(g, objects, enc, Fresh(PutDataset(r, quads, media)));
    var listed := RegisteredShelves(g, r);
    RegisteredAreShelvesOf(g, r);
    PutDatasetLeaves(g, r, quads, media, listed, n);
    PutDatasetLeaves(g, r, quads, media, listed, SysIri(n));
    forall name: Iri { PutDatasetLeaves(g, r, quads, media, listed, ShelfIri(n, name)); }
    ObjectUntouched(enc, n, r);
    SameAbs(g, h, objects, objects', enc, n);
  }

  lemma PutDatasetHome(g: Graphs, objects: map<string, Bytes>, enc: Blob.Encoding, r: string, quads: seq<GroundQuad>,
                       media: string)
    requires ShelfInv(g)
    ensures Abs(PutDatasetUpdate(g, r, quads, media, RegisteredShelves(g, r)), objects, enc, ResourceIri(r))
         == Res(true, (set q | q in quads), None, {media})
  {
    RegisteredAreShelvesOf(g, r);
    PutDatasetView(g, r, quads, media);
    PutDatasetAt(g, r, quads, media, RegisteredShelves(g, r), SysIri(ResourceIri(r)));
    HomeIs(PutDatasetUpdate(g, r, quads, media, RegisteredShelves(g, r)), objects, enc, r, quads, media);
  }

  lemma HomeIs(h: Graphs, objects: map<string, Bytes>, enc: Blob.Encoding, r: string, quads: seq<GroundQuad>,
               media: string)
    requires At(h, SysIri(ResourceIri(r))) == Registry(r, quads, media)
    requires View(h, ResourceIri(r)) == set q | q in quads
    ensures Abs(h, objects, enc, ResourceIri(r)) == Res(true, (set q | q in quads), None, {media})
  {
    RegistryIsWellShaped(r, quads, media);
    OneMediaType(h, r, Registry(r, quads, media), media);
  }

  /** An update after which only `n` reads differently changes the map at `n` alone. */
  lemma OneChanged(g: Graphs, objects: map<string, Bytes>, h: Graphs, objects': map<string, Bytes>, enc: Blob.Encoding,
                   a: ResourceMap, n: Iri, res: Res)
    requires Represents(g, objects, enc, a)
    requires forall x: Iri :: Entity(x) ==> Abs(h, objects', enc, x) == if x == n then res else Abs(g, objects, enc, x)
    ensures Represents(h, objects', enc, a[n := res])
  {
  }

  lemma PutDatasetRefines(g: Graphs, objects: map<string, Bytes>, enc: Blob.Encoding, a: ResourceMap, r: string,
                          quads: seq<GroundQuad>, media: string)
    requires Good(g, enc) && Represents(g, objects, enc, a) && Url(r)
    ensures Refines(g, objects, enc, a, PutDataset(r, quads, media))
  {
    var op := PutDataset(r, quads, media);
    SettlePutDataset(g, objects, enc, r, quads, media);
    var (h, objects', _) := Settle(g, objects, enc, Fresh(op));
    RegisteredAreShelvesOf(g, r);
    PutDatasetKeeps(g, r, quads, media, RegisteredShelves(g, r));
    PutDatasetKeepsShelves(g, r, quads, media);
    PutDatasetHome(g, objects', enc, r, quads, media);
    var res := Res(true, (set q | q in quads), None, {media});
    forall n: Iri | Entity(n)
      ensures Abs(h, objects', enc, n) == if n == ResourceIri(r) then res else Abs(g, objects, enc, n)
    {
      if n != ResourceIri(r) {
        PutDatasetElsewhere(g, objects, enc, r, quads, media, n);
      }
    }
    OneChanged(g, objects, h, objects', enc, a, ResourceIri(r), res);
  }

  lemma ObjectUntouched(enc: Blob.Encoding, n: Iri, r: string)
    requires enc.Valid() && Entity(n) && n != ResourceIri(r) && Url(r)
    ensures n.ResourceIri? && Blob.KeyOf(enc, n.path).Some? ==> Blob.KeyOf(enc, n.path) != Blob.KeyOf(enc, r)
  {
    if n.ResourceIri? && Blob.KeyOf(enc, n.path).Some? && Blob.KeyOf(enc, n.path) == Blob.KeyOf(enc, r) {
      Blob.DistinctUrlsDistinctKeys(enc, n.path, r);
    }
  }

  lemma OneMediaType(h: Graphs, r: string, facts: set<GroundTriple>, media: string)
    requires At(h, SysIri(ResourceIri(r))) == facts && MediaTypeFact(ResourceIri(r), media) in facts
    requires forall t :: t in facts && t.p == Vocab(SysMediaType) ==> t == MediaTypeFact(ResourceIri(r), media)
    ensures RecordedMediaTypes(h, r) == {media}
  {
    assert media in RecordedMediaTypes(h, r);
  }

  // ----- writes that leave registries and shelves alone -----

  /** The store after an update that rewrote one entity's own graph and added at most its marker. */
  ghost predicate RewroteOwnGraph(g: Graphs, h: Graphs, n: Iri) {
    (forall x: Iri :: x != n && x != SysIri(n) ==> At(h, x) == At(g, x))
    && At(g, SysIri(n)) <= At(h, SysIri(n)) <= At(g, SysIri(n)) + {Marker(n)}
  }

  lemma RewriteKeepsShelves(g: Graphs, h: Graphs, n: Iri)
    requires ShelfInv(g) && RewroteOwnGraph(g, h, n) && !n.ShelfIri? && !n.SysIri?
    ensures ShelfInv(h)
  {
    forall x: Iri, t | t in At(h, SysIri(x)) && t != Marker(x)
      ensures t in At(g, SysIri(x))
    {}
  }

  lemma RewriteAbs(g: Graphs, h: Graphs, objects: map<string, Bytes>, enc: Blob.Encoding, n: Iri, x: Iri)
    requires RewroteOwnGraph(g, h, n) && Entity(n) && Entity(x)
    ensures x != n ==> Abs(h, objects, enc, x) == Abs(g, objects, enc, x)
    ensures Abs(h, objects, enc, n) == Abs(g, objects, enc, n).(
              present := Present(h, n), quads := Lift(At(h, n)) + NamedPart(View(g, n)))
  {
    if x != n {
      SameAbs(g, h, objects, objects, enc, x);
    }
    ViewWithDefault(g, h, n);
    if n.ResourceIri? {
      assert RecordedMediaTypes(h, n.path) == RecordedMediaTypes(g, n.path);
    }
  }

  /** Rewriting a graph keeps auxiliaries tied to their subjects, if it did not give one to an absent subject. */
  lemma RewriteKeepsSound(g: Graphs, h: Graphs, n: Iri)
    requires Sound(g) && RewroteOwnGraph(g, h, n) && Entity(n)
    requires n.AuxIri? ==> Present(g, ResourceIri(n.subject))
    ensures Sound(h)
  {
    forall x: Iri, t | t in At(h, SysIri(x)) && t != Marker(x)
      ensures t in At(g, SysIri(x))
    {}
    assert forall s: string :: Present(g, ResourceIri(s)) ==> Present(h, ResourceIri(s));
  }

  /** What such a rewrite does to the map. */
  lemma RewriteRepresents(g: Graphs, h: Graphs, objects: map<string, Bytes>, enc: Blob.Encoding, a: ResourceMap, n: Iri)
    requires Good(g, enc) && Represents(g, objects, enc, a)
    requires RewroteOwnGraph(g, h, n) && Entity(n) && (n.AuxIri? ==> Present(g, ResourceIri(n.subject)))
    ensures Good(h, enc)
    ensures Lookup(a, n) == Abs(g, objects, enc, n)
    ensures Represents(h, objects, enc,
                       a[n := Lookup(a, n).(present := Present(h, n),
                                            quads := Lift(At(h, n)) + NamedPart(Lookup(a, n).quads))])
  {
    RewriteKeepsShelves(g, h, n);
    RewriteKeepsSound(g, h, n);
    assert Lookup(a, n) == Abs(g, objects, enc, n);
    forall x: Iri | Entity(x)
      ensures Abs(h, objects, enc, x) == Lookup(a[n := Abs(h, objects, enc, n)], x)
    {
      RewriteAbs(g, h, objects, enc, n, x);
    }
    RewriteAbs(g, h, objects, enc, n, n);
  }

  lemma MarkRewrites(g: Graphs, n: Iri, ts: set<GroundTriple>)
    requires Entity(n)
    ensures var h := Mark(g[n := ts], n); RewroteOwnGraph(g, h, n) && At(h, n) == ts && Present(h, n)
  {
  }

  lemma PutRdfRefines(g: Graphs, objects: map<string, Bytes>, enc: Blob.Encoding, a: ResourceMap, r: string,
                      ts: set<GroundTriple>)
    requires Good(g, enc) && Represents(g, objects, enc, a) && Url(r)
    ensures Refines(g, objects, enc, a, PutRdf(r, ts))
  {
    var n, h := ResourceIri(r), PutRdfUpdate(g, r, ts);
    SettleOne(g, objects, enc, Fresh(PutRdf(r, ts)));
    MarkRewrites(g, n, ts);
    RewriteRepresents(g, h, objects, enc, a, n);
    assert Spec(a, enc, PutRdf(r, ts)) ==
      (a[n := Lookup(a, n).(present := Present(h, n), quads := Lift(At(h, n)) + NamedPart(Lookup(a, n).quads))], Wrote);
  }

  lemma LiftUnion(quads: set<GroundQuad>, ts: set<GroundTriple>)
    ensures Lift(DefaultPart(quads) + ts) + NamedPart(quads) == quads + Lift(ts)
  {
    forall q: GroundQuad ensures q in Lift(DefaultPart(quads) + ts) + NamedPart(quads) <==> q in quads + Lift(ts) {
      assert q.graph == DefaultGraph ==> q == GroundQuad(q.triple, DefaultGraph);
    }
  }

  lemma InsertMarkedRefines(g: Graphs, objects: map<string, Bytes>, enc: Blob.Encoding, a: ResourceMap, r: string,
                            ts: set<GroundTriple>)
    requires Good(g, enc) && Represents(g, objects, enc, a) && Url(r)
    ensures Refines(g, objects, enc, a, InsertMarked(r, ts))
  {
    var n, h := ResourceIri(r), InsertMarkedUpdate(g, r, ts);
    SettleOne(g, objects, enc, Fresh(InsertMarked(r, ts)));
    MarkRewrites(g, n, At(g, n) + ts);
    RewriteRepresents(g, h, objects, enc, a, n);
    DefaultPartOfView(g, n);
    LiftUnion(View(g, n), ts);
    assert Spec(a, enc, InsertMarked(r, ts)) ==
      (a[n := Lookup(a, n).(present := Present(h, n), quads := Lift(At(h, n)) + NamedPart(Lookup(a, n).quads))], Wrote);
  }

  lemma SettleMapped(g: Graphs, objects: map<string, Bytes>, enc: Blob.Encoding, op: Op, m: Binding)
    requires op.PatchResource? || (op.AuxPatch? && Present(g, AuxIri(op.subject)))
    requires Writable(op.patch, m)
    ensures var there := There(DeletionSet(op.patch.deletions, m), At(g, PatchTarget(op).0));
            Settle(g, objects, enc, Mapped(op, m)) == (Written(g, op, m), objects, Patched(Reported(op.patch, there)))
  {
    var before := op.patch.deletions != [] && There(DeletionSet(op.patch.deletions, m), At(g, PatchTarget(op).0));
    SettleOne(g, objects, enc, Mapped(op, m));
    AskedMoves(g, objects, enc, op, m, before);
    SettleOne(g, objects, enc, Asked(op, m, before));
    SettleAfterPatch(Written(g, op, m), objects, enc, op, Reported(op.patch, before));
  }

  lemma AskedMoves(g: Graphs, objects: map<string, Bytes>, enc: Blob.Encoding, op: Op, m: Binding, before: bool)
    requires (op.PatchResource? || op.AuxPatch?) && Writable(op.patch, m)
    ensures var h := Written(g, op, m);
            Move(g, objects, enc, Asked(op, m, before)) == (h, objects, AfterPatch(op, Reported(op.patch, before)))
            && forall x: Iri :: At(h, SysIri(x)) == At(g, SysIri(x))
  {
  }

  lemma SettleAfterPatch(h: Graphs, objects: map<string, Bytes>, enc: Blob.Encoding, op: Op, result: PatchResult)
    requires op.PatchResource? || (op.AuxPatch? && Present(h, AuxIri(op.subject)))
    ensures Settle(h, objects, enc, AfterPatch(op, result)) == (h, objects, Patched(result))
  {
    if op.AuxPatch? {
      assert Move(h, objects, enc, AfterPatch(op, result)) == (h, objects, Finished(Patched(result)));
    }
  }

  /** From the SELECT on, an uninterrupted patch is the N3 Patch definition applied to its graph. */
  lemma SettlePatch(g: Graphs, objects: map<string, Bytes>, enc: Blob.Encoding, op: Op) returns (h: Graphs)
    requires op.PatchResource? || (op.AuxPatch? && Present(g, AuxIri(op.subject)))
    requires GuardHolds(g, PatchTarget(op).1)
    ensures Settle(g, objects, enc, SelectStep(g, op)) == (h, objects, PatchVerdict(At(g, PatchTarget(op).0), op.patch))
    ensures At(h, PatchTarget(op).0) == PatchedGraph(At(g, PatchTarget(op).0), op.patch)
    ensures forall x: Iri :: x != PatchTarget(op).0 ==> At(h, x) == At(g, x)
  {
    var (n, guard) := PatchTarget(op);
    h := g;
    match FindMapping(At(g, n), op.patch) {
      case Refused(result) => SettleAfterPatch(g, objects, enc, op, result);
      case OneMapping(m) =>
        if Effectless(op.patch) {
          assert Substitute(op.patch.deletions, m) == {} && Substitute(op.patch.insertions, m) == {};
          SettleAfterPatch(g, objects, enc, op, Applied);
        } else if Writable(op.patch, m) {
          h := Written(g, op, m);
          SettleMapped(g, objects, enc, op, m);
        }
    }
  }

  /** From the SELECT on, the steps of an uninterrupted patch are `patch_guarded`. */
  lemma SettleIsPatchGuarded(g: Graphs, objects: map<string, Bytes>, enc: Blob.Encoding, op: Op)
    requires op.PatchResource? || (op.AuxPatch? && Present(g, AuxIri(op.subject)))
    ensures var (n, guard) := PatchTarget(op);
            var (h, r) := PatchGuarded(g, n, op.patch, guard);
            Settle(g, objects, enc, SelectStep(g, op)) == (h, objects, if r.Ok? then Patched(r.value) else StoreFailed)
            && (op.AuxPatch? ==> Present(h, AuxIri(op.subject)))
  {
    var (n, guard) := PatchTarget(op);
    match FindMapping(At(g, n), op.patch) {
      case Refused(result) => SettleAfterPatch(g, objects, enc, op, result);
      case OneMapping(m) =>
        if Effectless(op.patch) {
          SettleAfterPatch(g, objects, enc, op, Applied);
        } else if Writable(op.patch, m) {
          SettleMapped(g, objects, enc, op, m);
        }
    }
  }

  lemma PatchSettles(g: Graphs, objects: map<string, Bytes>, enc: Blob.Encoding, op: Op)
    requires op.PatchResource? || op.AuxPatch?
    ensures op.AuxPatch? && !Present(g, AuxIri(op.subject)) ==>
      Settle(g, objects, enc, Fresh(op)) ==
        (g, objects, if Present(g, ResourceIri(op.subject)) then Missing else SubjectMissing)
    ensures op.PatchResource? || Present(g, AuxIri(op.subject)) ==>
      Settle(g, objects, enc, Fresh(op)) == Settle(g, objects, enc, SelectStep(g, op))
  {
    SettleOne(g, objects, enc, Fresh(op));
    if op.AuxPatch? {
      SettleOne(g, objects, enc, if Present(g, AuxIri(op.subject)) then AuxThere(op) else AuxGone(op));
    }
  }

  /** A patch that reached its SELECT, whichever graph it works on. */
  lemma PatchRepresents(g: Graphs, objects: map<string, Bytes>, enc: Blob.Encoding, a: ResourceMap, op: Op)
    returns (h: Graphs)
    requires Good(g, enc) && Represents(g, objects, enc, a)
    requires (op.PatchResource? && Url(op.r)) || (op.AuxPatch? && Url(op.subject) && Present(g, AuxIri(op.subject)))
    ensures var was := Lookup(a, PatchTarget(op).0);
            Settle(g, objects, enc, SelectStep(g, op)) == (h, objects, PatchVerdict(DefaultPart(was.quads), op.patch))
            && Good(h, enc) && Represents(h, objects, enc, a[PatchTarget(op).0 := PatchRes(was, op.patch)])
  {
    var n := PatchTarget(op).0;
    h := SettlePatch(g, objects, enc, op);
    DefaultPartOfView(g, n);
    RewriteRepresents(g, h, objects, enc, a, n);
    assert Present(h, n) == Present(g, n);
  }

  lemma ResourcePatchRefines(g: Graphs, objects: map<string, Bytes>, enc: Blob.Encoding, a: ResourceMap, r: string,
                             patch: Patch)
    requires Good(g, enc) && Represents(g, objects, enc, a) && Url(r)
    ensures Refines(g, objects, enc, a, PatchResource(r, patch))
  {
    var op := PatchResource(r, patch);
    PatchSettles(g, objects, enc, op);
    var h := PatchRepresents(g, objects, enc, a, op);
    PatchSpec(a, enc, op);
    assert Settle(g, objects, enc, Fresh(op)).0 == h;
  }

  lemma PatchSpec(a: ResourceMap, enc: Blob.Encoding, op: Op)
    requires op.PatchResource? || (op.AuxPatch? && Lookup(a, PatchTarget(op).0).present)
    ensures var n, was := PatchTarget(op).0, Lookup(a, PatchTarget(op).0);
            Spec(a, enc, op) == (a[n := PatchRes(was, op.patch)], PatchVerdict(DefaultPart(was.quads), op.patch))
  {
  }

  lemma AuxPatchRefines(g: Graphs, objects: map<string, Bytes>, enc: Blob.Encoding, a: ResourceMap, s: string,
                        patch: Patch)
    requires Good(g, enc) && Represents(g, objects, enc, a) && Url(s)
    ensures Refines(g, objects, enc, a, AuxPatch(s, patch))
  {
    var op := AuxPatch(s, patch);
    assert Lookup(a, AuxIri(s)) == Abs(g, objects, enc, AuxIri(s));
    PatchSettles(g, objects, enc, op);
    if Present(g, AuxIri(s)) {
      var h := PatchRepresents(g, objects, enc, a, op);
      PatchSpec(a, enc, op);
      assert Settle(g, objects, enc, Fresh(op)).0 == h;
    } else {
      assert Lookup(a, ResourceIri(s)) == Abs(g, objects, enc, ResourceIri(s));
    }
  }

  lemma AuxPutRefines(g: Graphs, objects: map<string, Bytes>, enc: Blob.Encoding, a: ResourceMap, s: string,
                      doc: seq<GroundTriple>)
    requires Good(g, enc) && Represents(g, objects, enc, a) && Url(s)
    ensures Refines(g, objects, enc, a, AuxPut(s, doc))
  {
    var n := AuxIri(s);
    assert Lookup(a, ResourceIri(s)) == Abs(g, objects, enc, ResourceIri(s));
    SettleAuxPut(g, objects, enc, s, doc);
    if |doc| <= MAX_AUX_TRIPLES && Present(g, ResourceIri(s)) {
      var h := AuxPutUpdate(g, s, SetOf(doc));
      MarkRewrites(g, n, SetOf(doc));
      RewriteRepresents(g, h, objects, enc, a, n);
      WrittenAux(g, h, objects, enc, s, SetOf(doc));
    }
  }

  lemma WrittenAux(g: Graphs, h: Graphs, objects: map<string, Bytes>, enc: Blob.Encoding, s: string,
                   ts: set<GroundTriple>)
    requires ShelfInv(g) && At(h, AuxIri(s)) == ts && Present(h, AuxIri(s))
    ensures var was := Abs(g, objects, enc, AuxIri(s));
            was.(present := Present(h, AuxIri(s)), quads := Lift(At(h, AuxIri(s))) + NamedPart(was.quads)) ==
              Res(true, Lift(ts), None, {})
  {
    AuxHasNoShelves(g, s);
    assert Lift(ts) + {} == Lift(ts);
  }

  lemma SettleAuxPut(g: Graphs, objects: map<string, Bytes>, enc: Blob.Encoding, s: string, doc: seq<GroundTriple>)
    ensures Settle(g, objects, enc, Fresh(AuxPut(s, doc))) ==
      if |doc| > MAX_AUX_TRIPLES then (g, objects, TooLarge(|doc|))
      else
        var h := AuxPutUpdate(g, s, SetOf(doc));
        (h, objects, if Present(h, AuxIri(s)) then Wrote else SubjectMissing)
  {
    SettleOne(g, objects, enc, Fresh(AuxPut(s, doc)));
    if |doc| <= MAX_AUX_TRIPLES {
      SettleOne(AuxPutUpdate(g, s, SetOf(doc)), objects, enc, Unconfirmed(AuxPut(s, doc), Wrote));
    }
  }

  lemma AuxHasNoShelves(g: Graphs, s: string)
    requires ShelfInv(g)
    ensures NamedPart(View(g, AuxIri(s))) == {}
  {
    forall q: GroundQuad ensures q !in NamedPart(View(g, AuxIri(s))) {
      ViewHas(g, AuxIri(s), q);
    }
  }

  // ----- bytes, and the two deletes -----

  lemma PutBlobAt(g: Graphs, r: string, media: string, listed: set<Iri>, x: Iri)
    requires OnlyShelves(listed)
    ensures At(PutBlobUpdate(g, r, media, listed), x) ==
      if x == ResourceIri(r) then {}
      else if x == SysIri(ResourceIri(r)) then
        {Marker(ResourceIri(r)), BinaryFact(ResourceIri(r)), MediaTypeFact(ResourceIri(r), media)}
      else if x in listed then {} else At(g, x)
  {
  }

  lemma PutBlobHome(h: Graphs, objects: map<string, Bytes>, enc: Blob.Encoding, r: string, bytes: Bytes, media: string)
    requires Blob.KeyOf(enc, r).Some?
    requires At(h, SysIri(ResourceIri(r))) ==
        {Marker(ResourceIri(r)), BinaryFact(ResourceIri(r)), MediaTypeFact(ResourceIri(r), media)}
    requires At(h, ResourceIri(r)) == {} && forall name: Iri :: At(h, ShelfIri(ResourceIri(r), name)) == {}
    ensures Abs(h, objects[Blob.KeyOf(enc, r).value := bytes], enc, ResourceIri(r)) ==
        Res(true, {}, Some(bytes), {media})
  {
    OneMediaType(h, r, At(h, SysIri(ResourceIri(r))), media);
    EmptyView(h, ResourceIri(r));
  }

  lemma PutBlobKeepsShelves(g: Graphs, r: string, media: string)
    requires ShelfInv(g)
    ensures var h := PutBlobUpdate(g, r, media, RegisteredShelves(g, r));
            ShelfInv(h) && forall name: Iri :: At(h, ShelfIri(ResourceIri(r), name)) == {}
  {
    var listed := RegisteredShelves(g, r);
    var h := PutBlobUpdate(g, r, media, listed);
    RegisteredAreShelvesOf(g, r);
    forall y: Iri
      ensures y == ResourceIri(r) ==> At(h, y) == {}
      ensures y.SysIri? && y != SysIri(ResourceIri(r)) ==> At(h, y) == At(g, y)
      ensures y.ShelfIri? ==> At(h, y) == if y in listed then {} else At(g, y)
      ensures y.AuxIri? || (y.ResourceIri? && y.path != r) ==> At(h, y) == At(g, y)
    {
      PutBlobAt(g, r, media, listed, y);
    }
    PutBlobAt(g, r, media, listed, SysIri(ResourceIri(r)));
    TeardownKeepsShelves(g, h, r, At(h, SysIri(ResourceIri(r))));
  }

  lemma PutBlobAbs(g: Graphs, objects: map<string, Bytes>, enc: Blob.Encoding, r: string, bytes: Bytes, media: string,
                   x: Iri)
    requires Good(g, enc) && Url(r) && Blob.KeyOf(enc, r).Some? && Entity(x)
    ensures var h := PutBlobUpdate(g, r, media, RegisteredShelves(g, r));
            var objects' := objects[Blob.KeyOf(enc, r).value := bytes];
            ShelfInv(h) && Abs(h, objects', enc, x) ==
              if x == ResourceIri(r) then Res(true, {}, Some(bytes), {media}) else Abs(g, objects, enc, x)
  {
    var listed := RegisteredShelves(g, r);
    var h := PutBlobUpdate(g, r, media, listed);
    PutBlobKeepsShelves(g, r, media);
    RegisteredAreShelvesOf(g, r);
    forall y: Iri | !y.ShelfIri? || y.owner != ResourceIri(r)
      ensures y != ResourceIri(r) && y != SysIri(ResourceIri(r)) ==> At(h, y) == At(g, y)
    {
      PutBlobAt(g, r, media, listed, y);
    }
    if x == ResourceIri(r) {
      PutBlobAt(g, r, media, listed, x);
      PutBlobAt(g, r, media, listed, SysIri(x));
      PutBlobHome(h, objects, enc, r, bytes, media);
    } else {
      ObjectUntouched(enc, x, r);
      SameAbs(g, h, objects, objects[Blob.KeyOf(enc, r).value := bytes], enc, x);
    }
  }

  lemma PutBlobRefines(g: Graphs, objects: map<string, Bytes>, enc: Blob.Encoding, a: ResourceMap, r: string,
                       bytes: Bytes, media: string)
    requires Good(g, enc) && Represents(g, objects, enc, a) && Url(r)
    ensures Refines(g, objects, enc, a, PutBlob(r, bytes, media))
  {
    SettlePutBlob(g, objects, enc, r, bytes, media);
    if Blob.KeyOf(enc, r).Some? {
      var n, res := ResourceIri(r), Res(true, {}, Some(bytes), {media});
      var (h, objects', _) := Settle(g, objects, enc, Fresh(PutBlob(r, bytes, media)));
      RegisteredAreShelvesOf(g, r);
      PutBlobKeeps(g, r, media, RegisteredShelves(g, r));
      PutBlobAbs(g, objects, enc, r, bytes, media, AuxIri(r));
      forall x: Iri | Entity(x)
        ensures Abs(h, objects', enc, x) == if x == n then res else Abs(g, objects, enc, x)
      {
        PutBlobAbs(g, objects, enc, r, bytes, media, x);
      }
      OneChanged(g, objects, h, objects', enc, a, n, res);
    }
  }

  lemma SettlePutBlob(g: Graphs, objects: map<string, Bytes>, enc: Blob.Encoding, r: string, bytes: Bytes,
                      media: string)
    ensures Settle(g, objects, enc, Fresh(PutBlob(r, bytes, media))) ==
      if Blob.KeyOf(enc, r).None? then (g, objects, KeyTooLong)
      else (PutBlobUpdate(g, r, media, RegisteredShelves(g, r)), objects[Blob.KeyOf(enc, r).value := bytes], Wrote)
  {
    var op, listed := PutBlob(r, bytes, media), RegisteredShelves(g, r);
    SettleOne(g, objects, enc, Fresh(op));
    if Blob.KeyOf(enc, r).Some? {
      SettleOne(g, objects, enc, Listed(op, false, listed));
      SettleOne(g, objects[Blob.KeyOf(enc, r).value := bytes], enc, ObjectStored(op, listed));
    }
  }

  lemma EmptyView(h: Graphs, n: Iri)
    requires At(h, n) == {} && forall name: Iri :: At(h, ShelfIri(n, name)) == {}
    ensures View(h, n) == {}
  {
    forall q: GroundQuad ensures q !in View(h, n) { ViewHas(h, n, q); }
  }

  /** Dropping a resource with everything its registry lists leaves no shelf of it behind. */
  lemma TeardownKeepsShelves(g: Graphs, h: Graphs, r: string, facts: set<GroundTriple>)
    requires ShelfInv(g)
    requires At(h, SysIri(ResourceIri(r))) == facts
    requires forall t :: t in facts ==> t.p != Vocab(SysHasSubgraph) && t.p != Vocab(SysGraphName)
    requires forall x: Iri :: x.SysIri? && x != SysIri(ResourceIri(r)) ==> At(h, x) == At(g, x) || At(h, x) == {}
    requires forall x: Iri :: x.SysIri? && x.of.ResourceIri? && x != SysIri(ResourceIri(r)) ==> At(h, x) == At(g, x)
    requires forall x: Iri :: x.ShelfIri? ==> At(h, x) == if x in RegisteredShelves(g, r) then {} else At(g, x)
    ensures ShelfInv(h)
    ensures forall name: Iri :: At(h, ShelfIri(ResourceIri(r), name)) == {}
  {
    RegisteredAreShelvesOf(g, r);
    forall name: Iri
      ensures At(h, ShelfIri(ResourceIri(r), name)) == {}
    {
      UnregisteredShelvesAreEmpty(g, r, name);
    }
    forall k: Iri, t | t in At(h, k) && k.ShelfIri?
      ensures k.owner.ResourceIri? && SubgraphFact(k.owner, k) in At(h, SysIri(k.owner))
    {
      assert t in At(g, k);
    }
  }

  lemma DeleteAuxRefines(g: Graphs, objects: map<string, Bytes>, enc: Blob.Encoding, a: ResourceMap, s: string)
    requires Good(g, enc) && Represents(g, objects, enc, a) && Url(s)
    ensures Refines(g, objects, enc, a, DeleteAux(s))
  {
    var n, h := AuxIri(s), DeleteAuxUpdate(g, s);
    SettleDeleteAux(g, objects, enc, s);
    assert Lookup(a, n) == Abs(g, objects, enc, n);
    DeleteAuxKeeps(g, s);
    DroppedAux(g, h, objects, enc, s);
    OthersKept(g, h, objects, enc, n);
    OneRemoved(g, objects, h, objects, enc, a, n);
  }

  lemma OthersKept(g: Graphs, h: Graphs, objects: map<string, Bytes>, enc: Blob.Encoding, n: Iri)
    requires Entity(n) && forall x: Iri :: x != n && x != SysIri(n) ==> At(h, x) == At(g, x)
    ensures forall x: Iri :: Entity(x) && x != n ==> Abs(h, objects, enc, x) == Abs(g, objects, enc, x)
  {
    forall x: Iri | Entity(x) && x != n { SameAbs(g, h, objects, objects, enc, x); }
  }

  lemma SettleDeleteAux(g: Graphs, objects: map<string, Bytes>, enc: Blob.Encoding, s: string)
    ensures Settle(g, objects, enc, Fresh(DeleteAux(s))) ==
        (DeleteAuxUpdate(g, s), objects, Deleted(Present(g, AuxIri(s))))
  {
    SettleOne(g, objects, enc, Fresh(DeleteAux(s)));
    SettleOne(g, objects, enc, Probed(DeleteAux(s), Present(g, AuxIri(s))));
  }

  lemma OneRemoved(g: Graphs, objects: map<string, Bytes>, h: Graphs, objects': map<string, Bytes>, enc: Blob.Encoding,
                   a: ResourceMap, n: Iri)
    requires Represents(g, objects, enc, a)
    requires forall x: Iri :: Entity(x) ==>
        Abs(h, objects', enc, x) == if x == n then NOTHING else Abs(g, objects, enc, x)
    ensures Represents(h, objects', enc, a - {n})
  {
  }

  lemma DroppedAux(g: Graphs, h: Graphs, objects: map<string, Bytes>, enc: Blob.Encoding, s: string)
    requires ShelfInv(g) && h == DeleteAuxUpdate(g, s)
    ensures ShelfInv(h) && Abs(h, objects, enc, AuxIri(s)) == NOTHING
    ensures forall x: Iri :: x != AuxIri(s) && x != SysIri(AuxIri(s)) ==> At(h, x) == At(g, x)
  {
    assert forall x: Iri :: x != AuxIri(s) && x != SysIri(AuxIri(s)) ==> At(h, x) == At(g, x);
    forall name: Iri ensures At(h, ShelfIri(AuxIri(s), name)) == {} {}
    EmptyView(h, AuxIri(s));
  }

  lemma SettleDeleteSubject(g: Graphs, objects: map<string, Bytes>, enc: Blob.Encoding, r: string)
    ensures Settle(g, objects, enc, Fresh(DeleteSubject(r))) ==
      (DeleteSubjectUpdate(g, r, RegisteredShelves(g, r)),
       if Blob.KeyOf(enc, r).Some? then objects - {Blob.KeyOf(enc, r).value} else objects,
       Deleted(Present(g, ResourceIri(r))))
  {
    var op, existed, listed := DeleteSubject(r), Present(g, ResourceIri(r)), RegisteredShelves(g, r);
    var h := DeleteSubjectUpdate(g, r, listed);
    SettleOne(g, objects, enc, Fresh(op));
    SettleOne(g, objects, enc, Probed(op, existed));
    SettleOne(g, objects, enc, Listed(op, existed, listed));
    SettleOne(h, objects, enc, ObjectLeft(op, Deleted(existed)));
  }

  /** Nothing of a deleted subject is left: not its graph, its facts, its shelves, or its auxiliaries. */
  lemma DeleteSubjectLeavesNothing(g: Graphs, r: string)
    requires ShelfInv(g)
    ensures var h := DeleteSubjectUpdate(g, r, RegisteredShelves(g, r));
            ShelfInv(h) && At(h, ResourceIri(r)) == {} && At(h, SysIri(ResourceIri(r))) == {} &&
            At(h, AuxIri(r)) == {} && At(h, SysIri(AuxIri(r))) == {} &&
            forall name: Iri :: At(h, ShelfIri(ResourceIri(r), name)) == {}
  {
    var listed := RegisteredShelves(g, r);
    var h := DeleteSubjectUpdate(g, r, listed);
    RegisteredAreShelvesOf(g, r);
    forall x: Iri
      ensures At(h, x) == var rest := if x in SubjectGraphs(r, listed) then {} else At(g, x);
        if Parent(r).Some? && x == ResourceIri(Parent(r).value) then rest - {Member(x, ResourceIri(r))} else rest
    {
      DeleteSubjectAt(g, r, listed, x);
    }
    TeardownKeepsShelves(g, h, r, {});
  }

  /** The parent loses the one containment triple. */
  lemma UnlinkedAbs(g: Graphs, h: Graphs, objects: map<string, Bytes>, objects': map<string, Bytes>, enc: Blob.Encoding,
                    n: Iri, gone: GroundTriple)
    requires At(h, n) == At(g, n) - {gone} && At(g, SysIri(n)) == At(h, SysIri(n))
    requires forall name: Iri :: At(g, ShelfIri(n, name)) == At(h, ShelfIri(n, name))
    requires n.ResourceIri? && Blob.KeyOf(enc, n.path).Some? ==>
      var k := Blob.KeyOf(enc, n.path).value;
      (k in objects <==> k in objects') && (k in objects ==> objects[k] == objects'[k])
    ensures Abs(h, objects', enc, n) == Abs(g, objects, enc, n).(quads := View(g, n) - {GroundQuad(gone, DefaultGraph)})
  {
    forall q: GroundQuad ensures q in View(h, n) <==> q in View(g, n) - {GroundQuad(gone, DefaultGraph)} {
      ViewHas(g, n, q);
      ViewHas(h, n, q);
    }
    if n.ResourceIri? {
      assert RecordedMediaTypes(h, n.path) == RecordedMediaTypes(g, n.path);
    }
  }

  lemma DeleteSubjectFrame(g: Graphs, r: string, listed: set<Iri>, n: Iri)
    requires Entity(n) && n != ResourceIri(r) && n != AuxIri(r)
    requires forall k :: k in listed ==> k.ShelfIri? && k.owner == ResourceIri(r)
    ensures var h := DeleteSubjectUpdate(g, r, listed);
            At(h, n) == (if Parent(r).Some? && n == ResourceIri(Parent(r).value)
                         then At(g, n) - {Member(n, ResourceIri(r))} else At(g, n))
            && At(h, SysIri(n)) == At(g, SysIri(n))
            && forall name: Iri :: At(h, ShelfIri(n, name)) == At(g, ShelfIri(n, name))
  {
    assert n !in SubjectGraphs(r, listed) && SysIri(n) !in SubjectGraphs(r, listed);
    DeleteSubjectAt(g, r, listed, n);
    DeleteSubjectAt(g, r, listed, SysIri(n));
    forall name: Iri
      ensures At(DeleteSubjectUpdate(g, r, listed), ShelfIri(n, name)) == At(g, ShelfIri(n, name))
    {
      assert ShelfIri(n, name) !in SubjectGraphs(r, listed);
      DeleteSubjectAt(g, r, listed, ShelfIri(n, name));
    }
  }

  lemma DeleteSubjectElsewhere(g: Graphs, objects: map<string, Bytes>, objects': map<string, Bytes>, enc: Blob.Encoding,
                               r: string, n: Iri)
    requires Good(g, enc) && Url(r) && Entity(n) && n != ResourceIri(r) && n != AuxIri(r)
    requires objects' == if Blob.KeyOf(enc, r).Some? then objects - {Blob.KeyOf(enc, r).value} else objects
    ensures var h := DeleteSubjectUpdate(g, r, RegisteredShelves(g, r));
            Abs(h, objects', enc, n) ==
              if Parent(r).Some? && n == ResourceIri(Parent(r).value)
              then Abs(g, objects, enc, n).(quads := View(g, n) - {GroundQuad(Member(n, ResourceIri(r)), DefaultGraph)})
              else Abs(g, objects, enc, n)
  {
    var listed := RegisteredShelves(g, r);
    var h := DeleteSubjectUpdate(g, r, listed);
    RegisteredAreShelvesOf(g, r);
    DeleteSubjectFrame(g, r, listed, n);
    ObjectUntouched(enc, n, r);
    if Parent(r).Some? && n == ResourceIri(Parent(r).value) {
      UnlinkedAbs(g, h, objects, objects', enc, n, Member(n, ResourceIri(r)));
    } else {
      SameAbs(g, h, objects, objects', enc, n);
    }
  }

  lemma AbsentAbs(h: Graphs, objects: map<string, Bytes>, enc: Blob.Encoding, n: Iri)
    requires At(h, n) == {} && At(h, SysIri(n)) == {} && forall name: Iri :: At(h, ShelfIri(n, name)) == {}
    ensures Abs(h, objects, enc, n) == NOTHING
  {
    EmptyView(h, n);
  }

  lemma SpecOfDelete(a: ResourceMap, enc: Blob.Encoding, r: string, n: Iri)
    ensures Lookup(Spec(a, enc, DeleteSubject(r)).0, n) ==
      if n == ResourceIri(r) || n == AuxIri(r) then NOTHING
      else if Parent(r).Some? && n == ResourceIri(Parent(r).value)
      then Lookup(a, n).(quads := Lookup(a, n).quads - {GroundQuad(Member(n, ResourceIri(r)), DefaultGraph)})
      else Lookup(a, n)
  {
  }

  lemma DeleteSubjectAbs(g: Graphs, objects: map<string, Bytes>, objects': map<string, Bytes>, enc: Blob.Encoding,
                         a: ResourceMap, r: string, n: Iri)
    requires Good(g, enc) && Represents(g, objects, enc, a) && Url(r) && Entity(n)
    requires objects' == if Blob.KeyOf(enc, r).Some? then objects - {Blob.KeyOf(enc, r).value} else objects
    ensures Abs(DeleteSubjectUpdate(g, r, RegisteredShelves(g, r)), objects', enc, n) ==
        Lookup(Spec(a, enc, DeleteSubject(r)).0, n)
  {
    assert Lookup(a, n) == Abs(g, objects, enc, n);
    SpecOfDelete(a, enc, r, n);
    if n == ResourceIri(r) || n == AuxIri(r) {
      var h := DeleteSubjectUpdate(g, r, RegisteredShelves(g, r));
      DeleteSubjectLeavesNothing(g, r);
      forall name: Iri ensures At(h, ShelfIri(n, name)) == {} {}
      AbsentAbs(h, objects', enc, n);
    } else {
      DeleteSubjectElsewhere(g, objects, objects', enc, r, n);
    }
  }

  lemma DeleteSubjectRefines(g: Graphs, objects: map<string, Bytes>, enc: Blob.Encoding, a: ResourceMap, r: string)
    requires Good(g, enc) && Represents(g, objects, enc, a) && Url(r)
    ensures Refines(g, objects, enc, a, DeleteSubject(r))
  {
    SettleDeleteSubject(g, objects, enc, r);
    var (h, objects', _) := Settle(g, objects, enc, Fresh(DeleteSubject(r)));
    assert Lookup(a, ResourceIri(r)) == Abs(g, objects, enc, ResourceIri(r));
    RegisteredAreShelvesOf(g, r);
    DeleteSubjectFacts(g, r, RegisteredShelves(g, r));
    SubjectGone(g, DeleteSubjectUpdate(g, r, RegisteredShelves(g, r)), r);
    DeleteSubjectLeavesNothing(g, r);
    forall n: Iri | Entity(n)
      ensures Abs(h, objects', enc, n) == Lookup(Spec(a, enc, DeleteSubject(r)).0, n)
    {
      DeleteSubjectAbs(g, objects, objects', enc, a, r, n);
    }
  }

  // ----- whole runs -----

  ghost function RunAlone(g: Graphs, objects: map<string, Bytes>, enc: Blob.Encoding, ops: seq<Op>)
    : (Graphs, map<string, Bytes>)
    decreases |ops|
  {
    if ops == [] then (g, objects)
    else var (h, objects', _) := Settle(g, objects, enc, Fresh(ops[0])); RunAlone(h, objects', enc, ops[1..])
  }

  ghost function RunSpec(a: ResourceMap, enc: Blob.Encoding, ops: seq<Op>): ResourceMap
    decreases |ops|
  {
    if ops == [] then a else RunSpec(Spec(a, enc, ops[0]).0, enc, ops[1..])
  }

  lemma OperationRefines(g: Graphs, objects: map<string, Bytes>, enc: Blob.Encoding, a: ResourceMap, op: Op)
    requires Good(g, enc) && Represents(g, objects, enc, a) && Url(PathOf(op))
    ensures Refines(g, objects, enc, a, op)
  {
    match op {
      case PutDataset(r, quads, media) => PutDatasetRefines(g, objects, enc, a, r, quads, media);
      case PutBlob(r, bytes, media) => PutBlobRefines(g, objects, enc, a, r, bytes, media);
      case PutRdf(r, ts) => PutRdfRefines(g, objects, enc, a, r, ts);
      case InsertMarked(r, ts) => InsertMarkedRefines(g, objects, enc, a, r, ts);
      case PatchResource(r, patch) => ResourcePatchRefines(g, objects, enc, a, r, patch);
      case AuxPut(s, doc) => AuxPutRefines(g, objects, enc, a, s, doc);
      case AuxPatch(s, patch) => AuxPatchRefines(g, objects, enc, a, s, patch);
      case DeleteAux(s) => DeleteAuxRefines(g, objects, enc, a, s);
      case DeleteSubject(r) => DeleteSubjectRefines(g, objects, enc, a, r);
    }
  }

  /** Over any run of non-overlapping operations the two stores stay a faithful copy of the simple map. */
  lemma {:induction false} StorageRefinesMap(g: Graphs, objects: map<string, Bytes>, enc: Blob.Encoding, a: ResourceMap,
                                             ops: seq<Op>)
    requires Good(g, enc) && Represents(g, objects, enc, a) && forall op :: op in ops ==> Url(PathOf(op))
    ensures var (h, objects') := RunAlone(g, objects, enc, ops);
            Good(h, enc) && Represents(h, objects', enc, RunSpec(a, enc, ops))
    decreases |ops|
  {
    if ops != [] {
      OperationRefines(g, objects, enc, a, ops[0]);
      var (h, objects', _) := Settle(g, objects, enc, Fresh(ops[0]));
      StorageRefinesMap(h, objects', enc, Spec(a, enc, ops[0]).0, ops[1..]);
    }
  }

  lemma EmptyStoresRepresentEmptyMap(enc: Blob.Encoding)
    requires enc.Valid()
    ensures Good(map[], enc) && Represents(map[], map[], enc, map[])
  {
    forall n: Iri ensures View(map[], n) == {} {}
  }
}

/**
 The quad store as a map from graph name to triples, and the meaning of every read and of
 every atomic update the storage layer issues (src/resource.rs, src/aux.rs, src/container.rs).
 A dropped graph and an empty one are told apart by no query, so `At` reads both as empty.
 */
module Storage {
  import opened Wrappers
  import opened Terms
  import opened Paths
  import opened Patches

  type Graphs = map<Iri, set<GroundTriple>>

  function At(g: Graphs, n: Iri): set<GroundTriple> {
    if n in g then g[n] else {}
  }

  // ----- the facts the system graphs hold -----

  const TRUE: GroundTerm := Lit(Typed("true", OtherIri("http://www.w3.org/2001/XMLSchema#boolean")))

  function Marker(n: Iri): GroundTriple { GroundTriple(n, Vocab(SysPresent), TRUE) }
  function BinaryFact(n: Iri): GroundTriple { GroundTriple(n, Vocab(RdfType), Node(Vocab(SysBinaryResource))) }
  function MediaTypeFact(n: Iri, media: string): GroundTriple {
    GroundTriple(n, Vocab(SysMediaType), Lit(Simple(media)))
  }
  function SubgraphFact(n: Iri, key: Iri): GroundTriple { GroundTriple(n, Vocab(SysHasSubgraph), Node(key)) }
  function NameFact(key: Iri, name: Iri): GroundTriple { GroundTriple(key, Vocab(SysGraphName), Node(name)) }
  function Member(parent: Iri, child: Iri): GroundTriple { GroundTriple(parent, Vocab(LdpContains), Node(child)) }

  // ----- reads -----

  /** `exists`: the stored marker, never a triple count. */
  predicate Present(g: Graphs, n: Iri) { Marker(n) in At(g, SysIri(n)) }

  /** `registered_shelves`. */
  function RegisteredShelves(g: Graphs, r: string): set<Iri> {
    set t | t in At(g, SysIri(ResourceIri(r))) && t.s == ResourceIri(r) && t.p == Vocab(SysHasSubgraph)
            && t.o.Node? :: t.o.iri
  }

  /** The graph names the registry gives one of its shelves. */
  function NamesOf(g: Graphs, r: string, key: Iri): set<Iri> {
    set t | t in At(g, SysIri(ResourceIri(r))) && t.s == key && t.p == Vocab(SysGraphName) && t.o.Node? :: t.o.iri
  }

  /** `stored_media_type`, as whether one is recorded and which ones are. */
  function RecordedMediaTypes(g: Graphs, r: string): set<string> {
    set t | t in At(g, SysIri(ResourceIri(r))) && t.s == ResourceIri(r) && t.p == Vocab(SysMediaType)
            && t.o.Lit? && t.o.literal.Simple? :: t.o.literal.lexical
  }

  // ----- the writes' meaning -----

  function TriplesIn(quads: seq<GroundQuad>, graph: GroundGraph): set<GroundTriple> {
    set q | q in quads && q.graph == graph :: q.triple
  }

  /** The shelf graphs a dataset needs: one per graph name, addressed by owner and name. */
  function ShelfKeys(r: string, quads: seq<GroundQuad>): set<Iri> {
    set q | q in quads && q.graph.Named? :: ShelfIri(ResourceIri(r), q.graph.name)
  }

  /** What `put_dataset` records about the resource beside its content. */
  function Registry(r: string, quads: seq<GroundQuad>, media: string): set<GroundTriple> {
    {Marker(ResourceIri(r)), MediaTypeFact(ResourceIri(r), media)}
    + (set k | k in ShelfKeys(r, quads) :: SubgraphFact(ResourceIri(r), k))
    + (set k | k in ShelfKeys(r, quads) && k.ShelfIri? :: NameFact(k, k.name))
  }

  /** `put_dataset`: drop what the registry listed and what is about to be written, then write it all. */
  function PutDatasetUpdate(g: Graphs, r: string, quads: seq<GroundQuad>, media: string, listed: set<Iri>): Graphs {
    var rid := ResourceIri(r);
    (g - listed - ShelfKeys(r, quads) - {rid, SysIri(rid)})
    + (map k | k in ShelfKeys(r, quads) && k.ShelfIri? :: TriplesIn(quads, Named(k.name)))
    + map[rid := TriplesIn(quads, DefaultGraph), SysIri(rid) := Registry(r, quads, media)]
  }

  /** `put_blob`: the same teardown, and a marker that says the representation is bytes. */
  function PutBlobUpdate(g: Graphs, r: string, media: string, listed: set<Iri>): Graphs {
    var rid := ResourceIri(r);
    (g - listed - {rid, SysIri(rid)}) + map[SysIri(rid) := {Marker(rid), BinaryFact(rid), MediaTypeFact(rid, media)}]
  }

  function Mark(g: Graphs, n: Iri): Graphs { g[SysIri(n) := At(g, SysIri(n)) + {Marker(n)}] }

  /** `put_rdf`: replaces the graph, and adds to the system graph rather than replacing it. */
  function PutRdfUpdate(g: Graphs, r: string, ts: set<GroundTriple>): Graphs {
    Mark(g[ResourceIri(r) := ts], ResourceIri(r))
  }

  /** `insert_marked`. */
  function InsertMarkedUpdate(g: Graphs, r: string, ts: set<GroundTriple>): Graphs {
    Mark(g[ResourceIri(r) := At(g, ResourceIri(r)) + ts], ResourceIri(r))
  }

  /** The guard is either nothing or the presence of an auxiliary's subject. */
  predicate GuardHolds(g: Graphs, guard: Option<Iri>) {
    guard.None? || Present(g, guard.value)
  }

  /** The patch's one update: its WHERE is the ground deletion set and the guard. */
  function PatchUpdate(g: Graphs, n: Iri, deletions: Option<set<GroundTriple>>, insertions: set<GroundTriple>,
                       guard: Option<Iri>): Graphs
  {
    if There(deletions, At(g, n)) && GuardHolds(g, guard) then g[n := (At(g, n) - deletions.value) + insertions] else g
  }

  /** `aux::put`: both halves carry the subject-present condition, so they stand or fall together. */
  function AuxPutUpdate(g: Graphs, subject: string, ts: set<GroundTriple>): Graphs {
    if Present(g, ResourceIri(subject)) then Mark(g[AuxIri(subject) := ts], AuxIri(subject)) else g
  }

  /** `delete_rdf`, reachable for auxiliaries only. */
  function DeleteAuxUpdate(g: Graphs, subject: string): Graphs {
    g - {AuxIri(subject), SysIri(AuxIri(subject))}
  }

  /** Everything the cascade drops, the shelves it read among it. */
  function SubjectGraphs(r: string, listed: set<Iri>): set<Iri> {
    listed + {ResourceIri(r), SysIri(ResourceIri(r)), AuxIri(r), SysIri(AuxIri(r))}
  }

  /** `delete_subject`: one cascade, with the unlink from the parent riding in the same update. */
  function DeleteSubjectUpdate(g: Graphs, r: string, listed: set<Iri>): Graphs {
    var dropped := g - SubjectGraphs(r, listed);
    match Parent(r)
    case None => dropped
    case Some(parent) =>
      dropped[ResourceIri(parent) := At(dropped, ResourceIri(parent)) - {Member(ResourceIri(parent), ResourceIri(r))}]
  }

  // ----- frames -----

  predicate OnlyShelves(listed: set<Iri>) { forall k :: k in listed ==> k.ShelfIri? }

  lemma ShelfKeysAreShelves(r: string, quads: seq<GroundQuad>)
    ensures forall k: Iri :: k in ShelfKeys(r, quads) <==>
              k.ShelfIri? && k.owner == ResourceIri(r) && exists q :: q in quads && q.graph == Named(k.name)
  {
    forall k: Iri | k.ShelfIri? && k.owner == ResourceIri(r) && exists q :: q in quads && q.graph == Named(k.name)
      ensures k in ShelfKeys(r, quads)
    {
      var q :| q in quads && q.graph == Named(k.name);
      assert k == ShelfIri(ResourceIri(r), q.graph.name);
    }
  }

  /** What every graph holds after `put_dataset`. */
  lemma PutDatasetAt(g: Graphs, r: string, quads: seq<GroundQuad>, media: string, listed: set<Iri>, x: Iri)
    requires OnlyShelves(listed)
    ensures At(PutDatasetUpdate(g, r, quads, media, listed), x) ==
      if x == ResourceIri(r) then TriplesIn(quads, DefaultGraph)
      else if x == SysIri(ResourceIri(r)) then Registry(r, quads, media)
      else if x in ShelfKeys(r, quads) then (if x.ShelfIri? then TriplesIn(quads, Named(x.name)) else {})
      else if x in listed then {}
      else At(g, x)
  {
    ShelfKeysAreShelves(r, quads);
  }

  /** Outside the resource's own graphs and shelves `put_dataset` changes nothing. */
  lemma PutDatasetLeaves(g: Graphs, r: string, quads: seq<GroundQuad>, media: string, listed: set<Iri>, x: Iri)
    requires forall k :: k in listed ==> k.ShelfIri? && k.owner == ResourceIri(r)
    requires x != ResourceIri(r) && x != SysIri(ResourceIri(r)) && (x.ShelfIri? ==> x.owner != ResourceIri(r))
    ensures At(PutDatasetUpdate(g, r, quads, media, listed), x) == At(g, x)
  {
    PutDatasetAt(g, r, quads, media, listed, x);
    ShelfKeysAreShelves(r, quads);
  }

  /** What `delete_subject` leaves in every graph. */
  lemma DeleteSubjectAt(g: Graphs, r: string, listed: set<Iri>, x: Iri)
    ensures At(DeleteSubjectUpdate(g, r, listed), x) ==
      var rest := if x in SubjectGraphs(r, listed) then {} else At(g, x);
      if Parent(r).Some? && x == ResourceIri(Parent(r).value) then rest - {Member(x, ResourceIri(r))} else rest
  {
  }

  // ----- patch_guarded, run alone -----

  datatype PatchResult = Applied | NoMapping | SeveralMappings | DeletionMissing
  datatype StoreError = Backend

  /** The mapping step: the SELECT and the LIMIT 2 that tells none from one from several. */
  datatype Mapping = OneMapping(m: Binding) | Refused(result: PatchResult)

  ghost function FindMapping(g: set<GroundTriple>, patch: Patch): (r: Mapping)
    ensures patch.conditions == [] ==> r == OneMapping(map[])
    ensures patch.conditions != [] && r.OneMapping? ==> UniquelySolvedBy(patch.conditions, g, r.m)
    ensures patch.conditions != [] ==> (r == Refused(NoMapping) <==> Unsatisfied(patch.conditions, g))
    ensures r.Refused? ==> r.result.NoMapping? || r.result.SeveralMappings?
    ensures forall m :: patch.conditions != [] && UniquelySolvedBy(patch.conditions, g, m) ==> r == OneMapping(m)
  {
    if patch.conditions == [] then OneMapping(map[])
    else if Unsatisfied(patch.conditions, g) then Refused(NoMapping)
    else if exists m :: UniquelySolvedBy(patch.conditions, g, m) then
      var m :| UniquelySolvedBy(patch.conditions, g, m); OneMapping(m)
    else Refused(SeveralMappings)
  }

  /** What the write step reports, given what the ASK saw. */
  function Reported(patch: Patch, before: bool): PatchResult {
    if patch.deletions != [] && !before then DeletionMissing else Applied
  }

  predicate Effectless(patch: Patch) { patch.deletions == [] && patch.insertions == [] }

  predicate Writable(patch: Patch, m: Binding) { Renderable(patch.deletions, m) && Renderable(patch.insertions, m) }

  /** `patch_guarded` without interruption. */
  ghost function PatchGuarded(g: Graphs, n: Iri, patch: Patch, guard: Option<Iri>)
    : (Graphs, Result<PatchResult, StoreError>)
  {
    match FindMapping(At(g, n), patch)
    case Refused(result) => (g, Ok(result))
    case OneMapping(m) =>
      if Effectless(patch) then (g, Ok(Applied))
      else if !Writable(patch, m) then (g, Err(Backend))
      else
        var d := DeletionSet(patch.deletions, m);
        (PatchUpdate(g, n, d, Substitute(patch.insertions, m), guard), Ok(Reported(patch, There(d, At(g, n)))))
  }
}

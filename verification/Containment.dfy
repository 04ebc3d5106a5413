/**
 Containers and the membership triples the server manages (src/container.rs; src/http.rs,
 `put_write`, `patch_impl`, `create_by_patch`, `patch_sets_containment`; src/aux.rs,
 `delete_subject`). Operations run one after another, as the write path assumes.
 */
module Containment {
  import opened Wrappers
  import opened Terms
  import opened Paths
  import opened Patches
  import opened Storage
  import opened PatchEffect
  import Blob
  import PatchParse
  import Protocol
  import Refinement

  /** A container's path ends in a slash. */
  type ContainerPath = p: string | EndsWith(p, "/") witness "/"

  predicate IsMembership(t: GroundTriple) { t.p == Vocab(LdpContains) }

  /** Every membership triple in the graph of the container at `c`. */
  function Contained(g: Graphs, c: string): set<GroundTriple> { set t | t in At(g, ResourceIri(c)) && IsMembership(t) }

  /** What `ensure_container` asserts. */
  function TypesOf(c: string): set<GroundTriple> {
    {GroundTriple(ResourceIri(c), Vocab(RdfType), Node(Vocab(LdpContainer))),
     GroundTriple(ResourceIri(c), Vocab(RdfType), Node(Vocab(LdpBasicContainer)))}
  }

  // ----- the two refusals -----

  method BodySetsContainment(triples: seq<GroundTriple>) returns (sets: bool)
    ensures sets <==> exists t :: t in triples && IsMembership(t)
  {
    for i := 0 to |triples|
      invariant forall j :: 0 <= j < i ==> !IsMembership(triples[j])
    {
      if IsMembership(triples[i]) { return true; }
    }
    return false;
  }

  datatype PutRefusal = ReservedName | NamedGraphs | SetsContainment
  datatype Conflict = GroundPredicate | VariablePredicate

  predicate NamesContains(p: Pattern) { p.p == PNamed(Vocab(LdpContains)) }

  predicate PatchTouchesContainment(patch: Patch) {
    exists p :: p in patch.insertions + patch.deletions && (!p.p.PNamed? || NamesContains(p))
  }

  /** `patch_sets_containment`: a predicate with no triple form ends the walk; naming the predicate is
      seen at the end. */
  method PatchSetsContainment(patch: Patch, c: string) returns (conflict: Option<Conflict>)
    ensures conflict.Some? <==> PatchTouchesContainment(patch)
    ensures conflict == Some(VariablePredicate) <==> exists p :: p in patch.insertions + patch.deletions && !p.p.PNamed?
  {
    var all := patch.insertions + patch.deletions;
    var written: seq<GroundTriple> := [];
    for i := 0 to |all|
      invariant |written| == i
      invariant forall j :: 0 <= j < i ==> all[j].p.PNamed? && written[j].p == all[j].p.iri
    {
      if !all[i].p.PNamed? { return Some(VariablePredicate); }
      written := written + [GroundTriple(ResourceIri(c), all[i].p.iri, Node(ResourceIri(c)))];
    }
    var sets := BodySetsContainment(written);
    if sets {
      var t :| t in written && IsMembership(t);
      var j :| 0 <= j < |written| && written[j] == t;
      assert NamesContains(all[j]);
      return Some(GroundPredicate);
    }
    forall p | p in all ensures !NamesContains(p) {
      var j :| 0 <= j < |all| && all[j] == p;
      assert written[j] in written;
    }
    return None;
  }

  /** The refusal is exact: a patch is refused exactly when some binding would make it write or remove a
      membership triple. */
  lemma RefusedIffSomeBindingTouches(patch: Patch)
    requires WellFormed(patch)
    ensures PatchTouchesContainment(patch) <==>
      exists p, m: Binding ::
        p in patch.insertions + patch.deletions && Ground(p, m).Some? && IsMembership(Ground(p, m).value)
  {
    if PatchTouchesContainment(patch) {
      var p :| p in patch.insertions + patch.deletions && (!p.p.PNamed? || NamesContains(p));
      assert NoLiteralHead(p) by { assert p in patch.conditions + patch.deletions + patch.insertions; }
      var m: Binding := map i | i in VarsOfPattern(p) :: Node(Vocab(LdpContains));
      assert p.s.PVar? ==> p.s.index in m;
      assert p.p.PVar? ==> p.p.index in m;
      assert p.o.PVar? ==> p.o.index in m;
      assert Ground(p, m).Some? && IsMembership(Ground(p, m).value);
    }
  }

  lemma AcceptedPatchWritesNoMembership(patch: Patch, m: Binding)
    requires !PatchTouchesContainment(patch)
    ensures forall t :: t in Substitute(patch.insertions, m) + Substitute(patch.deletions, m) ==> !IsMembership(t)
  {
    forall p, n | p in patch.insertions + patch.deletions && n == m && Ground(p, n).Some?
      ensures !IsMembership(Ground(p, n).value)
    {
    }
    assert forall p :: p in patch.insertions || p in patch.deletions ==> p in patch.insertions + patch.deletions;
  }

  // ----- the operations -----

  datatype Op =
    | PutContainer(c: ContainerPath, body: seq<GroundQuad>)
    | PatchContainer(c: ContainerPath, patch: Patch)
    | EnsureContainer(c: ContainerPath)
    | AddContainment(parent: ContainerPath, child: Iri)
    | DeleteSubject(r: string)
    | Elsewhere(op: Protocol.Op)     // a storage operation on what is not a container's own graph

  /** A resource that is not a container, or an auxiliary. */
  predicate OffContainers(op: Protocol.Op) {
    match op
    case PutDataset(r, _, _) => !EndsWith(r, "/")
    case PutBlob(r, _, _) => !EndsWith(r, "/")
    case PatchResource(r, _) => !EndsWith(r, "/")
    case AuxPut(_, _) => true
    case AuxPatch(_, _) => true
    case DeleteAux(_) => true
    case _ => false
  }

  predicate Allowed(op: Op) {
    match op
    case PutContainer(_, body) => forall q :: q in body ==> q.graph == DefaultGraph && !IsMembership(q.triple)
    case PatchContainer(_, patch) => !PatchTouchesContainment(patch)
    case Elsewhere(other) => OffContainers(other)
    case _ => true
  }

  function Ensured(g: Graphs, c: string): Graphs { InsertMarkedUpdate(g, c, TypesOf(c)) }

  /** `get_rdf` of an absent container is nothing. */
  function Read(g: Graphs, c: string): set<GroundTriple> {
    if Present(g, ResourceIri(c)) then At(g, ResourceIri(c)) else {}
  }

  /** The container PUT: the body, the membership triples read from the old graph, then the types again. */
  function PutContainerUpdate(g: Graphs, c: string, body: seq<GroundQuad>): Graphs {
    Ensured(PutRdfUpdate(g, c, TriplesIn(body, DefaultGraph) + (set t | t in Read(g, c) && IsMembership(t))), c)
  }

  /** What a container PATCH that is not refused for its containment is told. */
  datatype PatchAnswer = Created | Answered(result: PatchResult) | Failed

  /** A container PATCH: creation when nothing is there, otherwise the patch; the types again unless it failed. */
  ghost function PatchContainerStep(g: Graphs, c: string, patch: Patch): (Graphs, PatchAnswer) {
    if !Present(g, ResourceIri(c)) then
      if patch.conditions != [] || !Groundable(patch.insertions, map[]) then (g, Answered(NoMapping))
      else if patch.deletions != [] then (g, Answered(DeletionMissing))
      else (Ensured(PutRdfUpdate(g, c, Substitute(patch.insertions, map[])), c), Created)
    else
      var (h, r) := PatchGuarded(g, ResourceIri(c), patch, None);
      if r.Ok? then (Ensured(h, c), Answered(r.value)) else (h, Failed)
  }

  ghost function PatchContainerUpdate(g: Graphs, c: string, patch: Patch): Graphs { PatchContainerStep(g, c, patch).0 }

  /** What the operations off containers do to the graphs; see `ElsewhereIsTheOperation`. */
  ghost function ElsewhereUpdate(g: Graphs, enc: Blob.Encoding, op: Protocol.Op): Graphs {
    match op
    case PutDataset(r, quads, media) => PutDatasetUpdate(g, r, quads, media, RegisteredShelves(g, r))
    case PutBlob(r, _, media) =>
      if Blob.KeyOf(enc, r).None? then g else PutBlobUpdate(g, r, media, RegisteredShelves(g, r))
    case PatchResource(r, patch) => PatchGuarded(g, ResourceIri(r), patch, None).0
    case AuxPut(s, doc) => if |doc| > Protocol.MAX_AUX_TRIPLES then g else AuxPutUpdate(g, s, Protocol.SetOf(doc))
    case AuxPatch(s, patch) =>
      if Present(g, AuxIri(s)) then PatchGuarded(g, AuxIri(s), patch, Some(ResourceIri(s))).0 else g
    case DeleteAux(s) => DeleteAuxUpdate(g, s)
    case _ => g
  }

  lemma ElsewhereIsTheOperation(g: Graphs, objects: map<string, Protocol.Bytes>, enc: Blob.Encoding, op: Protocol.Op)
    requires OffContainers(op)
    ensures Protocol.Settle(g, objects, enc, Protocol.Fresh(op)).0 == ElsewhereUpdate(g, enc, op)
  {
    match op {
      case PutDataset(r, quads, media) => Refinement.SettlePutDataset(g, objects, enc, r, quads, media);
      case PutBlob(r, bytes, media) => Refinement.SettlePutBlob(g, objects, enc, r, bytes, media);
      case AuxPut(s, doc) => Refinement.SettleAuxPut(g, objects, enc, s, doc);
      case DeleteAux(s) => Refinement.SettleDeleteAux(g, objects, enc, s);
      case PatchResource(_, _) =>
        Refinement.PatchSettles(g, objects, enc, op);
        Refinement.SettleIsPatchGuarded(g, objects, enc, op);
      case AuxPatch(s, _) =>
        Refinement.PatchSettles(g, objects, enc, op);
        if Present(g, AuxIri(s)) { Refinement.SettleIsPatchGuarded(g, objects, enc, op); }
    }
  }

  ghost function Do(g: Graphs, enc: Blob.Encoding, op: Op): Graphs {
    if !Allowed(op) then g
    else match op
      case PutContainer(c, body) => PutContainerUpdate(g, c, body)
      case PatchContainer(c, patch) => PatchContainerUpdate(g, c, patch)
      case EnsureContainer(c) => Ensured(g, c)
      case AddContainment(parent, child) => InsertMarkedUpdate(g, parent, {Member(ResourceIri(parent), child)})
      case DeleteSubject(r) => DeleteSubjectUpdate(g, r, RegisteredShelves(g, r))
      case Elsewhere(other) => ElsewhereUpdate(g, enc, other)
  }

  ghost function Run(g: Graphs, enc: Blob.Encoding, ops: seq<Op>): Graphs {
    if ops == [] then g else Do(Run(g, enc, ops[..|ops| - 1]), enc, ops[|ops| - 1])
  }

  // ----- the ledger -----

  /** What one operation does to the membership triples of the container at `c`: two kinds do anything at all. */
  function Entered(members: set<GroundTriple>, op: Op, c: string): set<GroundTriple> {
    match op
    case AddContainment(parent, child) => if parent == c then members + {Member(ResourceIri(c), child)} else members
    case DeleteSubject(r) =>
      if r == c then {}
      else if Parent(r) == Some(c) then members - {Member(ResourceIri(c), ResourceIri(r))}
      else members
    case _ => members
  }

  function Ledger(members: set<GroundTriple>, ops: seq<Op>, c: string): set<GroundTriple> {
    if ops == [] then members else Entered(Ledger(members, ops[..|ops| - 1], c), ops[|ops| - 1], c)
  }

  /** A registry names shelves only, and a container holding members carries its marker. */
  ghost predicate Inv(g: Graphs) {
    Protocol.RegistryNamesShelves(g) && forall c: ContainerPath :: Contained(g, c) != {} ==> Present(g, ResourceIri(c))
  }

  /** An update that rewrote one container's graph and added at most its marker. */
  ghost predicate Rewrote(g: Graphs, h: Graphs, c: string) {
    (forall x: Iri :: x != ResourceIri(c) && x != SysIri(ResourceIri(c)) ==> At(h, x) == At(g, x))
    && At(g, SysIri(ResourceIri(c))) <= At(h, SysIri(ResourceIri(c)))
    && At(h, SysIri(ResourceIri(c))) <= At(g, SysIri(ResourceIri(c))) + {Marker(ResourceIri(c))}
  }

  lemma RewroteKeeps(g: Graphs, h: Graphs, c: string)
    requires Inv(g) && Rewrote(g, h, c)
    requires Contained(h, c) != {} ==> Present(h, ResourceIri(c))
    ensures Inv(h) && forall d: string :: d != c ==> Contained(h, d) == Contained(g, d)
  {
    forall n: Iri, t | t in At(h, SysIri(n)) && t != Marker(n)
      ensures t in At(g, SysIri(n))
    {}
    assert forall d: string :: d != c ==>
      At(h, ResourceIri(d)) == At(g, ResourceIri(d)) && At(h, SysIri(ResourceIri(d))) == At(g, SysIri(ResourceIri(d)));
  }

  lemma EnsuredRewrites(g: Graphs, h: Graphs, c: string)
    requires Rewrote(g, h, c)
    ensures Rewrote(g, Ensured(h, c), c) && Contained(Ensured(h, c), c) == Contained(h, c)
    ensures Present(Ensured(h, c), ResourceIri(c)) && TypesOf(c) <= At(Ensured(h, c), ResourceIri(c))
  {
  }

  lemma PutKeeps(g: Graphs, c: ContainerPath, body: seq<GroundQuad>)
    requires Inv(g) && Allowed(PutContainer(c, body))
    ensures var h := PutContainerUpdate(g, c, body);
            Inv(h) && Contained(h, c) == Contained(g, c)
            && forall d: string :: d != c ==> Contained(h, d) == Contained(g, d)
  {
    var ts := TriplesIn(body, DefaultGraph) + (set t | t in Read(g, c) && IsMembership(t));
    var mid := PutRdfUpdate(g, c, ts);
    assert Rewrote(g, mid, c) && At(mid, ResourceIri(c)) == ts;
    EnsuredRewrites(g, mid, c);
    assert Contained(mid, c) == Contained(g, c);
    RewroteKeeps(g, Ensured(mid, c), c);
  }

  lemma PatchedMembers(g: Graphs, c: string, patch: Patch)
    requires !PatchTouchesContainment(patch)
    ensures var h := PatchGuarded(g, ResourceIri(c), patch, None).0;
            Rewrote(g, h, c) && Contained(h, c) == Contained(g, c)
            && Present(h, ResourceIri(c)) == Present(g, ResourceIri(c))
  {
    match FindMapping(At(g, ResourceIri(c)), patch) {
      case Refused(_) =>
      case OneMapping(m) => AcceptedPatchWritesNoMembership(patch, m);
    }
  }

  lemma PatchKeeps(g: Graphs, c: ContainerPath, patch: Patch)
    requires Inv(g) && !PatchTouchesContainment(patch)
    ensures var h := PatchContainerUpdate(g, c, patch);
            Inv(h) && Contained(h, c) == Contained(g, c)
            && forall d: string :: d != c ==> Contained(h, d) == Contained(g, d)
  {
    if Present(g, ResourceIri(c)) {
      PatchedMembers(g, c, patch);
      var h := PatchGuarded(g, ResourceIri(c), patch, None).0;
      EnsuredRewrites(g, h, c);
      RewroteKeeps(g, PatchContainerUpdate(g, c, patch), c);
    } else if patch.conditions == [] && patch.deletions == [] && Groundable(patch.insertions, map[]) {
      AcceptedPatchWritesNoMembership(patch, map[]);
      var mid := PutRdfUpdate(g, c, Substitute(patch.insertions, map[]));
      assert Rewrote(g, mid, c) && At(mid, ResourceIri(c)) == Substitute(patch.insertions, map[]);
      EnsuredRewrites(g, mid, c);
      assert Contained(g, c) == {} && Contained(mid, c) == {};
      RewroteKeeps(g, Ensured(mid, c), c);
    }
  }

  lemma AddKeeps(g: Graphs, parent: ContainerPath, child: Iri)
    requires Inv(g)
    ensures var h := InsertMarkedUpdate(g, parent, {Member(ResourceIri(parent), child)});
            Inv(h) && Contained(h, parent) == Contained(g, parent) + {Member(ResourceIri(parent), child)}
            && forall d: string :: d != parent ==> Contained(h, d) == Contained(g, d)
  {
    var h := InsertMarkedUpdate(g, parent, {Member(ResourceIri(parent), child)});
    assert Rewrote(g, h, parent);
    RewroteKeeps(g, h, parent);
  }

  lemma DeleteAt(g: Graphs, r: string, x: Iri)
    requires Protocol.RegistryNamesShelves(g) && !x.ShelfIri?
    ensures var h := DeleteSubjectUpdate(g, r, RegisteredShelves(g, r));
            At(h, x) ==
              if Some(x) == ParentGraph(r) then
                (if x == ResourceIri(r) then {} else At(g, x)) - {Member(x, ResourceIri(r))}
              else if x in {ResourceIri(r), SysIri(ResourceIri(r)), AuxIri(r), SysIri(AuxIri(r))} then {}
              else At(g, x)
  {
    assert OnlyShelves(RegisteredShelves(g, r));
  }

  function ParentGraph(r: string): Option<Iri> {
    match Parent(r)
    case None => None
    case Some(p) => Some(ResourceIri(p))
  }

  lemma DeleteKeeps(g: Graphs, r: string)
    requires Inv(g)
    ensures var h := DeleteSubjectUpdate(g, r, RegisteredShelves(g, r));
            Inv(h) && forall c: string :: Contained(h, c) == Entered(Contained(g, c), DeleteSubject(r), c)
  {
    var h := DeleteSubjectUpdate(g, r, RegisteredShelves(g, r));
    forall x: Iri | !x.ShelfIri? { DeleteAt(g, r, x); }
    forall c: string ensures Contained(h, c) == Entered(Contained(g, c), DeleteSubject(r), c) {
      DeleteAt(g, r, ResourceIri(c));
    }
    forall n: Iri, t | t in At(h, SysIri(n)) ensures t in At(g, SysIri(n)) { DeleteAt(g, r, SysIri(n)); }
    forall c: ContainerPath | Contained(h, c) != {} ensures Present(h, ResourceIri(c)) {
      DeleteAt(g, r, SysIri(ResourceIri(c)));
    }
  }

  /** The graphs of containers, and the facts about them, are as they were. */
  ghost predicate ContainersUntouched(g: Graphs, h: Graphs) {
    forall c: ContainerPath ::
      At(h, ResourceIri(c)) == At(g, ResourceIri(c)) && At(h, SysIri(ResourceIri(c))) == At(g, SysIri(ResourceIri(c)))
  }

  lemma AuxPutUntouched(g: Graphs, s: string, ts: set<GroundTriple>)
    requires Protocol.RegistryNamesShelves(g)
    ensures var h := AuxPutUpdate(g, s, ts); ContainersUntouched(g, h) && Protocol.RegistryNamesShelves(h)
  {
    var h := AuxPutUpdate(g, s, ts);
    assert forall n: Iri :: n != AuxIri(s) ==> At(h, SysIri(n)) == At(g, SysIri(n));
  }

  lemma DeleteAuxUntouched(g: Graphs, s: string)
    requires Protocol.RegistryNamesShelves(g)
    ensures var h := DeleteAuxUpdate(g, s); ContainersUntouched(g, h) && Protocol.RegistryNamesShelves(h)
  {
    var h := DeleteAuxUpdate(g, s);
    assert forall n: Iri :: n != AuxIri(s) ==> At(h, SysIri(n)) == At(g, SysIri(n));
  }

  lemma ElsewhereUntouched(g: Graphs, enc: Blob.Encoding, op: Protocol.Op)
    requires Protocol.RegistryNamesShelves(g) && OffContainers(op)
    ensures var h := ElsewhereUpdate(g, enc, op); ContainersUntouched(g, h) && Protocol.RegistryNamesShelves(h)
  {
    match op {
      case PutDataset(r, quads, media) =>
        Protocol.PutDatasetFrame(g, r, quads, media, RegisteredShelves(g, r));
        Protocol.RegistryNames(r, quads, media);
      case PutBlob(r, _, media) =>
        if Blob.KeyOf(enc, r).Some? { BlobUntouched(g, r, media, RegisteredShelves(g, r)); }
      case AuxPut(s, doc) => AuxPutUntouched(g, s, Protocol.SetOf(doc));
      case DeleteAux(s) => DeleteAuxUntouched(g, s);
      case PatchResource(r, patch) => PatchUntouched(g, ResourceIri(r), patch, None);
      case AuxPatch(s, patch) => PatchUntouched(g, AuxIri(s), patch, Some(ResourceIri(s)));
    }
  }

  lemma BlobUntouched(g: Graphs, r: string, media: string, listed: set<Iri>)
    requires Protocol.RegistryNamesShelves(g) && !EndsWith(r, "/") && OnlyShelves(listed)
    ensures var h := PutBlobUpdate(g, r, media, listed); ContainersUntouched(g, h) && Protocol.RegistryNamesShelves(h)
  {
    var h := PutBlobUpdate(g, r, media, listed);
    assert forall n: Iri :: n != ResourceIri(r) ==> At(h, SysIri(n)) == At(g, SysIri(n));
  }

  lemma PatchUntouched(g: Graphs, n: Iri, patch: Patch, guard: Option<Iri>)
    requires !n.SysIri?
    ensures var h := PatchGuarded(g, n, patch, guard).0; forall x: Iri :: x != n ==> At(h, x) == At(g, x)
  {
  }

  lemma StepIsEntered(g: Graphs, enc: Blob.Encoding, op: Op, c: ContainerPath)
    requires Inv(g)
    ensures Inv(Do(g, enc, op)) && Contained(Do(g, enc, op), c) == Entered(Contained(g, c), op, c)
  {
    if Allowed(op) {
      match op {
        case PutContainer(d, body) => PutKeeps(g, d, body);
        case PatchContainer(d, patch) => PatchKeeps(g, d, patch);
        case EnsureContainer(d) =>
          EnsuredRewrites(g, g, d);
          RewroteKeeps(g, Ensured(g, d), d);
        case AddContainment(parent, child) => AddKeeps(g, parent, child);
        case DeleteSubject(r) => DeleteKeeps(g, r);
        case Elsewhere(other) => ElsewhereUntouched(g, enc, other);
      }
    }
  }

  /** Containment is conserved: over any run of container operations, and of storage operations on anything
      else in between, a container's membership triples are what `add_containment` entered, less what
      deleting children removed, and nothing once the container itself was deleted. */
  lemma {:induction false} ContainmentIsConserved(g: Graphs, enc: Blob.Encoding, ops: seq<Op>, c: ContainerPath)
    requires Inv(g)
    ensures Inv(Run(g, enc, ops)) && Contained(Run(g, enc, ops), c) == Ledger(Contained(g, c), ops, c)
  {
    if ops != [] {
      ContainmentIsConserved(g, enc, ops[..|ops| - 1], c);
      StepIsEntered(Run(g, enc, ops[..|ops| - 1]), enc, ops[|ops| - 1], c);
    }
  }

  lemma EmptyStoreIsConsistent()
    ensures Inv(map[])
  {
  }

  // ----- what each operation leaves in the store -----

  /** Only the graph of `c` and its facts may differ, and of its facts only the marker is new. */
  ghost predicate OnlyContainerChanged(g: Graphs, h: Graphs, c: string) {
    (forall x: Iri :: x != ResourceIri(c) && x != SysIri(ResourceIri(c)) ==> At(h, x) == At(g, x))
    && At(h, SysIri(ResourceIri(c))) == At(g, SysIri(ResourceIri(c))) + {Marker(ResourceIri(c))}
  }

  ghost predicate SameStore(g: Graphs, h: Graphs) { forall x: Iri :: At(h, x) == At(g, x) }

  lemma EnsuredIs(g: Graphs, c: string)
    ensures OnlyContainerChanged(g, Ensured(g, c), c)
    ensures At(Ensured(g, c), ResourceIri(c)) == At(g, ResourceIri(c)) + TypesOf(c)
  {
  }

  lemma RewrittenIs(g: Graphs, c: string, ts: set<GroundTriple>)
    ensures OnlyContainerChanged(g, PutRdfUpdate(g, c, ts), c) && At(PutRdfUpdate(g, c, ts), ResourceIri(c)) == ts
  {
  }

  /** The graph rewritten and the types asserted. */
  lemma RewrittenAndEnsuredIs(g: Graphs, c: string, ts: set<GroundTriple>)
    ensures var h := Ensured(PutRdfUpdate(g, c, ts), c);
            OnlyContainerChanged(g, h, c) && At(h, ResourceIri(c)) == ts + TypesOf(c)
  {
    RewrittenIs(g, c, ts);
    EnsuredIs(PutRdfUpdate(g, c, ts), c);
  }

  /** A container PUT leaves the body, the membership triples of a container that was there, and the types, and
      changes nothing else, its auxiliary included. */
  lemma PutIsExact(g: Graphs, enc: Blob.Encoding, c: ContainerPath, body: seq<GroundQuad>)
    requires Allowed(PutContainer(c, body))
    ensures var h := Do(g, enc, PutContainer(c, body));
            OnlyContainerChanged(g, h, c)
            && At(h, ResourceIri(c)) ==
              (set q | q in body :: q.triple)
              + (set t | Present(g, ResourceIri(c)) && t in At(g, ResourceIri(c)) && t.p == Vocab(LdpContains))
              + TypesOf(c)
  {
    assert TriplesIn(body, DefaultGraph) == set q | q in body :: q.triple;
    RewrittenAndEnsuredIs(g, c, TriplesIn(body, DefaultGraph) + (set t | t in Read(g, c) && IsMembership(t)));
  }

  /** Asserting the types adds them; a new member adds its one triple; neither changes anything else. */
  lemma AdditionsAreExact(g: Graphs, enc: Blob.Encoding, c: ContainerPath, child: Iri)
    ensures var h := Do(g, enc, EnsureContainer(c));
            OnlyContainerChanged(g, h, c) && At(h, ResourceIri(c)) == At(g, ResourceIri(c)) + TypesOf(c)
    ensures var h := Do(g, enc, AddContainment(c, child));
            OnlyContainerChanged(g, h, c)
            && At(h, ResourceIri(c)) ==
              At(g, ResourceIri(c)) + {GroundTriple(ResourceIri(c), Vocab(LdpContains), Node(child))}
  {
    EnsuredIs(g, c);
  }

  /** A container there already is marked already. */
  lemma PresentIsMarked(g: Graphs, h: Graphs, c: string)
    requires Present(g, ResourceIri(c))
    requires forall x: Iri :: x != ResourceIri(c) ==> At(h, x) == At(g, x)
    ensures At(Ensured(h, c), ResourceIri(c)) == At(h, ResourceIri(c)) + TypesOf(c)
    ensures forall x: Iri :: x != ResourceIri(c) ==> At(Ensured(h, c), x) == At(g, x)
  {
    EnsuredIs(h, c);
    assert At(Ensured(h, c), SysIri(ResourceIri(c))) == At(g, SysIri(ResourceIri(c)));
  }

  /** A PATCH of a container that is there, by the definition's own cases: under its one mapping the graph
      becomes (G minus D) union I with the types again if every deletion is there, and G with the types again if
      one is not; text that does not parse changes nothing. Every other graph is as it was. */
  lemma PatchOfPresentIsExact(g: Graphs, enc: Blob.Encoding, c: ContainerPath, patch: Patch, m: Binding)
    requires Allowed(PatchContainer(c, patch)) && Present(g, ResourceIri(c)) && Mapped(patch, At(g, ResourceIri(c)), m)
    ensures var G, h := At(g, ResourceIri(c)), Do(g, enc, PatchContainer(c, patch));
            At(h, ResourceIri(c)) ==
              (if !Writable(patch, m) then G
               else if !HoldsAll(patch.deletions, m, G) then G + TypesOf(c)
               else ((G - Substitute(patch.deletions, m)) + Substitute(patch.insertions, m)) + TypesOf(c))
            && forall x: Iri :: x != ResourceIri(c) ==> At(h, x) == At(g, x)
  {
    var n := ResourceIri(c);
    var h := PatchGuarded(g, n, patch, None).0;
    PatchUntouched(g, n, patch, None);
    AnswerUnder(g, n, patch, m);
    if Writable(patch, m) {
      PatchedStore(g, n, patch, None, m);
      PresentIsMarked(g, h, c);
    }
  }

  lemma AnswerUnder(g: Graphs, n: Iri, patch: Patch, m: Binding)
    requires Mapped(patch, At(g, n), m)
    ensures var (h, r) := PatchGuarded(g, n, patch, None);
            (r.Ok? <==> Writable(patch, m)) && (r.Err? ==> h == g)
  {
    MappedIsUnique(patch, At(g, n), m);
    PatchGuardedIsExact(g, n, patch, None);
    if Effectless(patch) { assert Writable(patch, m); }
  }

  /** Without a mapping, or with several, only the types are asserted again. */
  lemma UnmappedPatchIsExact(g: Graphs, enc: Blob.Encoding, c: ContainerPath, patch: Patch)
    requires Allowed(PatchContainer(c, patch)) && Present(g, ResourceIri(c))
    requires forall m :: !Mapped(patch, At(g, ResourceIri(c)), m)
    ensures var h := Do(g, enc, PatchContainer(c, patch));
            At(h, ResourceIri(c)) == At(g, ResourceIri(c)) + TypesOf(c)
            && forall x: Iri :: x != ResourceIri(c) ==> At(h, x) == At(g, x)
  {
    var found := FindMapping(At(g, ResourceIri(c)), patch);
    assert found.OneMapping? ==> Mapped(patch, At(g, ResourceIri(c)), found.m);
    PresentIsMarked(g, g, c);
  }

  /** A PATCH of a container that is not there: created, as its insertions with the types and the marker, exactly
      when it has no conditions and no deletions; otherwise nothing is written. */
  lemma PatchOfAbsentIsExact(g: Graphs, enc: Blob.Encoding, c: ContainerPath, patch: Patch)
    requires Allowed(PatchContainer(c, patch)) && !Present(g, ResourceIri(c)) && WellFormed(patch)
    ensures var h := Do(g, enc, PatchContainer(c, patch));
            if patch.conditions != [] || patch.deletions != [] then SameStore(g, h)
            else
              OnlyContainerChanged(g, h, c) && Groundable(patch.insertions, map[])
              && At(h, ResourceIri(c)) == Substitute(patch.insertions, map[]) + TypesOf(c)
  {
    if patch.conditions == [] && patch.deletions == [] {
      PatchParse.GroundWithoutConditions(patch);
      RewrittenAndEnsuredIs(g, c, Substitute(patch.insertions, map[]));
    }
  }

  /** What the client is told is what happened, each answer exactly in its case. */
  lemma PatchAnswerIsExact(g: Graphs, c: ContainerPath, patch: Patch)
    requires WellFormed(patch)
    ensures var (G, there, answer) :=
              (At(g, ResourceIri(c)), Present(g, ResourceIri(c)), PatchContainerStep(g, c, patch).1);
            (answer == Created <==> !there && patch.conditions == [] && patch.deletions == [])
            && (answer == Failed <==> there && exists m :: Mapped(patch, G, m) && !Writable(patch, m))
            && (answer == Answered(NoMapping) <==>
                  patch.conditions != [] && (!there || Unsatisfied(patch.conditions, G)))
            && (answer == Answered(SeveralMappings) <==> there && patch.conditions != [] && TwoMappings(patch, G))
            && (answer == Answered(DeletionMissing) <==>
                  if !there then patch.conditions == [] && patch.deletions != []
                  else exists m :: Mapped(patch, G, m) && Writable(patch, m) && !HoldsAll(patch.deletions, m, G))
            && (answer == Answered(Applied) <==>
                  there && exists m :: Mapped(patch, G, m) && Writable(patch, m) && HoldsAll(patch.deletions, m, G))
  {
    PatchGuardedIsExact(g, ResourceIri(c), patch, None);
    if patch.conditions == [] { PatchParse.GroundWithoutConditions(patch); }
  }

  // ----- what a container's own graph is -----

  /** `without_server_managed`, as the triples it keeps. */
  predicate ClientOwned(t: GroundTriple, c: string) { !IsMembership(t) && t !in TypesOf(c) }

  /** Leaving out what the server manages gives back what the client sent, less any of it that was the
      server's to say. */
  lemma ServerManagedIsAllThatIsAdded(g: Graphs, c: ContainerPath, body: seq<GroundQuad>)
    requires Allowed(PutContainer(c, body))
    ensures (set t | t in At(PutContainerUpdate(g, c, body), ResourceIri(c)) && ClientOwned(t, c))
         == (set t | t in TriplesIn(body, DefaultGraph) && ClientOwned(t, c))
    ensures TypesOf(c) <= At(PutContainerUpdate(g, c, body), ResourceIri(c))
    ensures Present(PutContainerUpdate(g, c, body), ResourceIri(c))
  {
    var ts := TriplesIn(body, DefaultGraph) + (set t | t in Read(g, c) && IsMembership(t));
    var mid := PutRdfUpdate(g, c, ts);
    assert At(mid, ResourceIri(c)) == ts;
    assert At(Ensured(mid, c), ResourceIri(c)) == ts + TypesOf(c);
  }
}

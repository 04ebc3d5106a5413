/**
 The storage operations as clients that interleave (src/resource.rs, src/aux.rs). Every
 operation is a sequence of steps: each step is one read into the client's own memory, one
 atomic update, or one object-store call, and any client may run between two steps of another.
 What a client read may be stale by the time it acts on it.
 */
module Protocol {
  import opened Wrappers
  import opened Terms
  import opened Patches
  import opened Storage
  import Blob

  type Bytes = seq<bv8>

  const MAX_AUX_TRIPLES := 1000

  datatype Op =
    | PutDataset(r: string, quads: seq<GroundQuad>, media: string)
    | PutBlob(r: string, bytes: Bytes, media: string)
    | PutRdf(r: string, ts: set<GroundTriple>)
    | InsertMarked(r: string, ts: set<GroundTriple>)
    | PatchResource(r: string, patch: Patch)
    | AuxPut(subject: string, doc: seq<GroundTriple>)
    | AuxPatch(subject: string, patch: Patch)
    | DeleteAux(subject: string)
    | DeleteSubject(r: string)

  datatype Outcome =
    | Wrote | KeyTooLong | TooLarge(count: nat) | SubjectMissing | Missing
    | Patched(result: PatchResult) | StoreFailed | Deleted(existed: bool)

  datatype Client =
    | Fresh(op: Op)                                         // nothing done yet
    | Probed(op: Op, existed: bool)                         // the presence read of a delete is behind it
    | Listed(op: Op, existed: bool, listed: set<Iri>)       // the registry has been read
    | ObjectStored(op: Op, listed: set<Iri>)                // put_blob has written the object, not the marker
    | ObjectLeft(op: Op, outcome: Outcome)                  // the update committed, the object delete has not run
    | AuxThere(op: Op)                                      // aux::patch saw its auxiliary
    | AuxGone(op: Op)                                       // aux::patch did not, and has yet to say why
    | Mapped(op: Op, m: Binding)                            // the one mapping, as the SELECT saw it
    | Asked(op: Op, m: Binding, before: bool)               // the ASK's answer in hand
    | Unconfirmed(op: Op, outcome: Outcome)                 // written; the auxiliary's post-check remains
    | Finished(outcome: Outcome)

  datatype World = World(graphs: Graphs, objects: map<string, Bytes>, clients: map<nat, Client>, enc: Blob.Encoding)

  function SetOf(doc: seq<GroundTriple>): set<GroundTriple> { set t | t in doc }

  /** The graph a patch works on, and the condition folded into its write. */
  function PatchTarget(op: Op): (Iri, Option<Iri>)
    requires op.PatchResource? || op.AuxPatch?
  {
    match op
    case PatchResource(r, _) => (ResourceIri(r), None)
    case AuxPatch(s, _) => (AuxIri(s), Some(ResourceIri(s)))
  }

  /** An auxiliary patch still has its post-check to run; a resource patch is done. */
  function AfterPatch(op: Op, result: PatchResult): (next: Client)
    ensures StepsLeft(next) <= 2
  {
    if op.AuxPatch? then Unconfirmed(op, Patched(result)) else Finished(Patched(result))
  }

  /** The store after the write step of a patch under mapping `m`. */
  function Written(g: Graphs, op: Op, m: Binding): Graphs
    requires op.PatchResource? || op.AuxPatch?
  {
    var (n, guard) := PatchTarget(op);
    PatchUpdate(g, n, DeletionSet(op.patch.deletions, m), Substitute(op.patch.insertions, m), guard)
  }

  ghost function SelectStep(g: Graphs, op: Op): (next: Client)
    requires op.PatchResource? || op.AuxPatch?
    ensures StepsLeft(next) <= 4
  {
    match FindMapping(At(g, PatchTarget(op).0), op.patch)
    case Refused(result) => AfterPatch(op, result)
    case OneMapping(m) =>
      if Effectless(op.patch) then AfterPatch(op, Applied)
      else if !Writable(op.patch, m) then Finished(StoreFailed)
      else Mapped(op, m)
  }

  /** The first step of an operation. */
  ghost function FirstMove(g: Graphs, objects: map<string, Bytes>, enc: Blob.Encoding, op: Op)
    : (r: (Graphs, map<string, Bytes>, Client))
    ensures StepsLeft(r.2) <= 5
  {
    match op
    case PutDataset(r, _, _) => (g, objects, Listed(op, false, RegisteredShelves(g, r)))
    case PutBlob(r, _, _) =>
      if Blob.KeyOf(enc, r).None? then (g, objects, Finished(KeyTooLong))
      else (g, objects, Listed(op, false, RegisteredShelves(g, r)))
    case PutRdf(r, ts) => (PutRdfUpdate(g, r, ts), objects, Finished(Wrote))
    case InsertMarked(r, ts) => (InsertMarkedUpdate(g, r, ts), objects, Finished(Wrote))
    case PatchResource(_, _) => (g, objects, SelectStep(g, op))
    case AuxPut(s, doc) =>
      if |doc| > MAX_AUX_TRIPLES then (g, objects, Finished(TooLarge(|doc|)))
      else (AuxPutUpdate(g, s, SetOf(doc)), objects, Unconfirmed(op, Wrote))
    case AuxPatch(s, _) => (g, objects, if Present(g, AuxIri(s)) then AuxThere(op) else AuxGone(op))
    case DeleteAux(s) => (g, objects, Probed(op, Present(g, AuxIri(s))))
    case DeleteSubject(r) => (g, objects, Probed(op, Present(g, ResourceIri(r))))
  }

  /** One step of one client: what it leaves in the store, in the object store, and in its own memory. */
  ghost function Move(g: Graphs, objects: map<string, Bytes>, enc: Blob.Encoding, cl: Client)
    : (r: (Graphs, map<string, Bytes>, Client))
    ensures cl.Finished? || StepsLeft(r.2) < StepsLeft(cl)
  {
    match cl
    case Fresh(op) => FirstMove(g, objects, enc, op)
    case Probed(op, existed) => (match op
      case DeleteAux(s) => (DeleteAuxUpdate(g, s), objects, Finished(Deleted(existed)))
      case DeleteSubject(r) => (g, objects, Listed(op, existed, RegisteredShelves(g, r)))
      case _ => (g, objects, Finished(StoreFailed)))
    case Listed(op, existed, listed) => (match op
      case PutDataset(r, quads, media) => (PutDatasetUpdate(g, r, quads, media, listed), objects, ObjectLeft(op, Wrote))
      case PutBlob(r, bytes, _) => (match Blob.KeyOf(enc, r)
        case None => (g, objects, Finished(KeyTooLong))
        case Some(k) => (g, objects[k := bytes], ObjectStored(op, listed)))
      case DeleteSubject(r) => (DeleteSubjectUpdate(g, r, listed), objects, ObjectLeft(op, Deleted(existed)))
      case _ => (g, objects, Finished(StoreFailed)))
    case ObjectStored(op, listed) => (match op
      case PutBlob(r, _, media) => (PutBlobUpdate(g, r, media, listed), objects, Finished(Wrote))
      case _ => (g, objects, Finished(StoreFailed)))
    case ObjectLeft(op, outcome) =>
      if op.PutDataset? || op.DeleteSubject? then
        (match Blob.KeyOf(enc, op.r)
         case None => (g, objects, Finished(outcome))
         case Some(k) => (g, objects - {k}, Finished(outcome)))
      else (g, objects, Finished(StoreFailed))
    case AuxThere(op) => (g, objects, if op.AuxPatch? then SelectStep(g, op) else Finished(StoreFailed))
    case AuxGone(op) =>
      if op.AuxPatch? then
        (g, objects, Finished(if Present(g, ResourceIri(op.subject)) then Missing else SubjectMissing))
      else (g, objects, Finished(StoreFailed))
    case Mapped(op, m) =>
      if op.PatchResource? || op.AuxPatch? then
        var there := There(DeletionSet(op.patch.deletions, m), At(g, PatchTarget(op).0));
        (g, objects, Asked(op, m, op.patch.deletions != [] && there))
      else (g, objects, Finished(StoreFailed))
    case Asked(op, m, before) =>
      if (op.PatchResource? || op.AuxPatch?) && Writable(op.patch, m) then
        (Written(g, op, m), objects, AfterPatch(op, Reported(op.patch, before)))
      else (g, objects, Finished(StoreFailed))
    case Unconfirmed(op, outcome) =>
      if op.AuxPut? || op.AuxPatch? then
        (g, objects, Finished(if Present(g, AuxIri(op.subject)) then outcome else SubjectMissing))
      else (g, objects, Finished(StoreFailed))
    case Finished(_) => (g, objects, cl)
  }

  function StepsLeft(cl: Client): nat {
    match cl
    case Fresh(_) => 6
    case Probed(_, _) => 5
    case AuxThere(_) => 5
    case AuxGone(_) => 1
    case Listed(_, _, _) => 4
    case Mapped(_, _) => 4
    case ObjectStored(_, _) => 3
    case Asked(_, _, _) => 3
    case ObjectLeft(_, _) => 2
    case Unconfirmed(_, _) => 2
    case Finished(_) => 0
  }

  /** A client left alone until it finishes; no operation takes more than six steps. */
  ghost function Settle(g: Graphs, objects: map<string, Bytes>, enc: Blob.Encoding, cl: Client)
    : (Graphs, map<string, Bytes>, Outcome)
    decreases StepsLeft(cl)
  {
    if cl.Finished? then (g, objects, cl.outcome)
    else var (h, o, next) := Move(g, objects, enc, cl); Settle(h, o, enc, next)
  }

  // ----- runs -----

  datatype Action = Begin(id: nat, op: Op) | Advance(id: nat) | Crash(id: nat)

  ghost function Do(w: World, a: Action): World {
    match a
    case Begin(id, op) =>
      if id in w.clients && !w.clients[id].Finished? then w else w.(clients := w.clients[id := Fresh(op)])
    case Advance(id) =>
      if id !in w.clients then w
      else
        var (g, objects, cl) := Move(w.graphs, w.objects, w.enc, w.clients[id]);
        World(g, objects, w.clients[id := cl], w.enc)
    case Crash(id) => w.(clients := w.clients - {id})
  }

  ghost function Run(w: World, actions: seq<Action>): World {
    if actions == [] then w else Do(Run(w, actions[..|actions| - 1]), actions[|actions| - 1])
  }

  // ----- what every interleaving keeps -----

  /** An auxiliary with a marker, or with any content at all, has a present subject. */
  ghost predicate AuxNeedsSubject(g: Graphs) {
    forall s: string :: At(g, AuxIri(s)) != {} || At(g, SysIri(AuxIri(s))) != {} ==> Present(g, ResourceIri(s))
  }

  /** A registry names shelves and nothing else, so dropping what it lists drops shelves. */
  ghost predicate RegistryNamesShelves(g: Graphs) {
    forall n, t :: t in At(g, SysIri(n)) && t.p == Vocab(SysHasSubgraph) && t.o.Node? ==> t.o.iri.ShelfIri?
  }

  predicate RemembersShelves(cl: Client) {
    (cl.Listed? || cl.ObjectStored?) ==> OnlyShelves(cl.listed)
  }

  ghost predicate Sound(g: Graphs) { AuxNeedsSubject(g) && RegistryNamesShelves(g) }

  ghost predicate Inv(w: World) {
    Sound(w.graphs) && forall id :: id in w.clients ==> RemembersShelves(w.clients[id])
  }

  predicate NamesShelves(facts: set<GroundTriple>) {
    forall t :: t in facts && t.p == Vocab(SysHasSubgraph) && t.o.Node? ==> t.o.iri.ShelfIri?
  }

  /** A write that touches one resource's graph and system graph, and shelves, is harmless if it leaves a marker. */
  lemma ResourceWriteKeeps(g: Graphs, h: Graphs, r: string)
    requires Sound(g)
    requires forall x: Iri :: !x.ShelfIri? && x != ResourceIri(r) && x != SysIri(ResourceIri(r)) ==>
        At(h, x) == At(g, x)
    requires Present(h, ResourceIri(r)) && NamesShelves(At(h, SysIri(ResourceIri(r))))
    ensures Sound(h)
  {
    assert forall s: string :: Present(g, ResourceIri(s)) ==> Present(h, ResourceIri(s));
  }

  lemma PutDatasetKeeps(g: Graphs, r: string, quads: seq<GroundQuad>, media: string, listed: set<Iri>)
    requires Sound(g) && OnlyShelves(listed)
    ensures Sound(PutDatasetUpdate(g, r, quads, media, listed))
  {
    PutDatasetFrame(g, r, quads, media, listed);
    RegistryNames(r, quads, media);
    ResourceWriteKeeps(g, PutDatasetUpdate(g, r, quads, media, listed), r);
  }

  lemma PutDatasetFrame(g: Graphs, r: string, quads: seq<GroundQuad>, media: string, listed: set<Iri>)
    requires OnlyShelves(listed)
    ensures var h := PutDatasetUpdate(g, r, quads, media, listed);
            At(h, SysIri(ResourceIri(r))) == Registry(r, quads, media)
            && forall x: Iri :: !x.ShelfIri? && x != ResourceIri(r) && x != SysIri(ResourceIri(r)) ==>
              At(h, x) == At(g, x)
  {
    ShelfKeysAreShelves(r, quads);
    forall x: Iri | !x.ShelfIri? { PutDatasetAt(g, r, quads, media, listed, x); }
  }

  lemma RegistryNames(r: string, quads: seq<GroundQuad>, media: string)
    ensures NamesShelves(Registry(r, quads, media)) && Marker(ResourceIri(r)) in Registry(r, quads, media)
  {
    ShelfKeysAreShelves(r, quads);
  }

  lemma PutBlobKeeps(g: Graphs, r: string, media: string, listed: set<Iri>)
    requires Sound(g) && OnlyShelves(listed)
    ensures Sound(PutBlobUpdate(g, r, media, listed))
  {
    ResourceWriteKeeps(g, PutBlobUpdate(g, r, media, listed), r);
  }

  lemma MarkedWriteKeeps(g: Graphs, r: string, ts: set<GroundTriple>)
    requires Sound(g)
    ensures Sound(Mark(g[ResourceIri(r) := ts], ResourceIri(r)))
  {
    ResourceWriteKeeps(g, Mark(g[ResourceIri(r) := ts], ResourceIri(r)), r);
  }

  lemma PatchKeeps(g: Graphs, op: Op, m: Binding)
    requires Sound(g) && (op.PatchResource? || op.AuxPatch?)
    ensures Sound(Written(g, op, m))
  {
    var n, h := PatchTarget(op).0, Written(g, op, m);
    assert forall x: Iri :: At(h, SysIri(x)) == At(g, SysIri(x));
    assert forall s: string :: AuxIri(s) != n ==> At(h, AuxIri(s)) == At(g, AuxIri(s));
  }

  lemma AuxPutKeeps(g: Graphs, subject: string, ts: set<GroundTriple>)
    requires Sound(g)
    ensures Sound(AuxPutUpdate(g, subject, ts))
  {
    var h := AuxPutUpdate(g, subject, ts);
    assert forall n: Iri :: n != AuxIri(subject) ==> At(h, SysIri(n)) == At(g, SysIri(n));
    assert forall s: string :: s != subject ==> At(h, AuxIri(s)) == At(g, AuxIri(s));
  }

  lemma DeleteAuxKeeps(g: Graphs, subject: string)
    requires Sound(g)
    ensures Sound(DeleteAuxUpdate(g, subject))
  {
    var h := DeleteAuxUpdate(g, subject);
    assert forall n: Iri :: n != AuxIri(subject) ==> At(h, SysIri(n)) == At(g, SysIri(n));
    assert forall s: string :: s != subject ==> At(h, AuxIri(s)) == At(g, AuxIri(s));
  }

  /** Nothing of the subject or its auxiliary is left, and every other fact and auxiliary stays. */
  lemma DeleteSubjectFacts(g: Graphs, r: string, listed: set<Iri>)
    requires OnlyShelves(listed)
    ensures var h := DeleteSubjectUpdate(g, r, listed);
            At(h, SysIri(ResourceIri(r))) == {} && At(h, SysIri(AuxIri(r))) == {} && At(h, AuxIri(r)) == {}
            && (forall n: Iri :: n != ResourceIri(r) && n != AuxIri(r) ==> At(h, SysIri(n)) == At(g, SysIri(n)))
            && (forall s: string :: s != r ==> At(h, AuxIri(s)) == At(g, AuxIri(s)))
  {
    var h := DeleteSubjectUpdate(g, r, listed);
    DeleteSubjectAt(g, r, listed, SysIri(ResourceIri(r)));
    DeleteSubjectAt(g, r, listed, SysIri(AuxIri(r)));
    DeleteSubjectAt(g, r, listed, AuxIri(r));
    forall n: Iri | n != ResourceIri(r) && n != AuxIri(r)
      ensures At(h, SysIri(n)) == At(g, SysIri(n))
    {
      DeleteSubjectAt(g, r, listed, SysIri(n));
    }
    forall s: string | s != r
      ensures At(h, AuxIri(s)) == At(g, AuxIri(s))
    {
      DeleteSubjectAt(g, r, listed, AuxIri(s));
    }
  }

  lemma SubjectGone(g: Graphs, h: Graphs, r: string)
    requires Sound(g)
    requires At(h, SysIri(ResourceIri(r))) == {} && At(h, SysIri(AuxIri(r))) == {} && At(h, AuxIri(r)) == {}
    requires forall n: Iri :: n != ResourceIri(r) && n != AuxIri(r) ==> At(h, SysIri(n)) == At(g, SysIri(n))
    requires forall s: string :: s != r ==> At(h, AuxIri(s)) == At(g, AuxIri(s))
    ensures Sound(h) && !Present(h, ResourceIri(r))
  {
  }

  lemma FirstStepKeeps(g: Graphs, objects: map<string, Bytes>, enc: Blob.Encoding, op: Op)
    requires Sound(g)
    ensures var (h, _, next) := Move(g, objects, enc, Fresh(op)); Sound(h) && RemembersShelves(next)
  {
    match op {
      case PutRdf(r, ts) => MarkedWriteKeeps(g, r, ts);
      case InsertMarked(r, ts) => MarkedWriteKeeps(g, r, At(g, ResourceIri(r)) + ts);
      case AuxPut(s, doc) => AuxPutKeeps(g, s, SetOf(doc));
      case _ =>
    }
  }

  lemma PatchStepKeeps(g: Graphs, objects: map<string, Bytes>, enc: Blob.Encoding, cl: Client)
    requires Sound(g) && cl.Asked?
    ensures var (h, _, next) := Move(g, objects, enc, cl); Sound(h) && RemembersShelves(next)
  {
    var op, m := cl.op, cl.m;
    if (op.PatchResource? || op.AuxPatch?) && Writable(op.patch, m) { PatchKeeps(g, op, m); }
  }

  lemma TeardownStepKeeps(g: Graphs, objects: map<string, Bytes>, enc: Blob.Encoding, cl: Client)
    requires Sound(g) && RemembersShelves(cl) && (cl.Probed? || cl.Listed? || cl.ObjectStored?)
    ensures var (h, _, next) := Move(g, objects, enc, cl); Sound(h) && RemembersShelves(next)
  {
    if cl.Probed? && cl.op.DeleteAux? { DeleteAuxKeeps(g, cl.op.subject); }
    if cl.Listed? && cl.op.PutDataset? { PutDatasetKeeps(g, cl.op.r, cl.op.quads, cl.op.media, cl.listed); }
    if cl.Listed? && cl.op.DeleteSubject? {
      DeleteSubjectFacts(g, cl.op.r, cl.listed);
      SubjectGone(g, DeleteSubjectUpdate(g, cl.op.r, cl.listed), cl.op.r);
    }
    if cl.ObjectStored? && cl.op.PutBlob? { PutBlobKeeps(g, cl.op.r, cl.op.media, cl.listed); }
  }

  lemma StepKeeps(g: Graphs, objects: map<string, Bytes>, enc: Blob.Encoding, cl: Client)
    requires Sound(g) && RemembersShelves(cl)
    ensures var (h, _, next) := Move(g, objects, enc, cl); Sound(h) && RemembersShelves(next)
  {
    match cl {
      case Fresh(op) => FirstStepKeeps(g, objects, enc, op);
      case Asked(_, _, _) => PatchStepKeeps(g, objects, enc, cl);
      case Probed(_, _) => TeardownStepKeeps(g, objects, enc, cl);
      case Listed(_, _, _) => TeardownStepKeeps(g, objects, enc, cl);
      case ObjectStored(_, _) => TeardownStepKeeps(g, objects, enc, cl);
      case _ => assert Move(g, objects, enc, cl).0 == g;
    }
  }

  lemma ActionKeeps(w: World, a: Action)
    requires Inv(w)
    ensures Inv(Do(w, a))
  {
    if a.Advance? && a.id in w.clients {
      StepKeeps(w.graphs, w.objects, w.enc, w.clients[a.id]);
    }
  }

  /** However any number of clients interleave, and wherever they stop, no auxiliary outlives its subject. */
  lemma {:induction false} AuxiliariesNeverOutliveSubjects(w: World, actions: seq<Action>)
    requires Inv(w)
    ensures Inv(Run(w, actions)) && AuxNeedsSubject(Run(w, actions).graphs)
  {
    if actions != [] {
      AuxiliariesNeverOutliveSubjects(w, actions[..|actions| - 1]);
      ActionKeeps(Run(w, actions[..|actions| - 1]), actions[|actions| - 1]);
    }
  }

  lemma EmptyPodIsSound(enc: Blob.Encoding)
    ensures Inv(World(map[], map[], map[], enc))
  {
  }

  // ----- no earlier grant reappears -----

  /** What an action is about to write into the auxiliary of `s`: the body of an auxiliary write, and nothing else. */
  ghost function AuxWrite(w: World, a: Action, s: string): set<GroundTriple> {
    if !a.Advance? || a.id !in w.clients then {} else WriteOf(w.clients[a.id], s)
  }

  function WriteOf(cl: Client, s: string): set<GroundTriple> {
    match cl
    case Fresh(AuxPut(x, doc)) => if x == s && |doc| <= MAX_AUX_TRIPLES then SetOf(doc) else {}
    case Asked(AuxPatch(x, patch), m, _) =>
      if x == s then Substitute(patch.insertions, m) else {}
    case _ => {}
  }

  /** One action adds to an auxiliary only its own auxiliary write, and only under a present subject. */
  lemma OnlyAuxWritesReachAux(w: World, a: Action, s: string, t: GroundTriple)
    requires Inv(w)
    requires t in At(Do(w, a).graphs, AuxIri(s)) && t !in At(w.graphs, AuxIri(s))
    ensures t in AuxWrite(w, a, s) && Present(w.graphs, ResourceIri(s))
  {
    var cl := w.clients[a.id];
    if cl.Probed? || cl.Listed? || cl.ObjectStored? {
      TeardownLeavesAux(w.graphs, w.objects, w.enc, cl, s);
    } else {
      OtherStepsAndAux(w.graphs, w.objects, w.enc, cl, s);
    }
  }

  /** Tearing down a subject or an auxiliary adds nothing to any auxiliary, nor to what marks it. */
  lemma TeardownLeavesAux(g: Graphs, objects: map<string, Bytes>, enc: Blob.Encoding, cl: Client, s: string)
    requires RemembersShelves(cl) && (cl.Probed? || cl.Listed? || cl.ObjectStored?)
    ensures var h := Move(g, objects, enc, cl).0;
            At(h, AuxIri(s)) <= At(g, AuxIri(s)) && At(h, SysIri(AuxIri(s))) <= At(g, SysIri(AuxIri(s)))
  {
    var h := Move(g, objects, enc, cl).0;
    if cl.Listed? && cl.op.PutDataset? {
      PutDatasetFrame(g, cl.op.r, cl.op.quads, cl.op.media, cl.listed);
    } else if cl.Listed? && cl.op.DeleteSubject? {
      DeleteSubjectAt(g, cl.op.r, cl.listed, AuxIri(s));
      DeleteSubjectAt(g, cl.op.r, cl.listed, SysIri(AuxIri(s)));
    } else if cl.Probed? && cl.op.DeleteAux? {
      assert h == DeleteAuxUpdate(g, cl.op.subject);
    } else if cl.ObjectStored? && cl.op.PutBlob? {
      PutBlobLeavesAux(g, cl.op.r, cl.op.media, cl.listed, s);
    } else {
      assert h == g;
    }
  }

  lemma PutBlobLeavesAux(g: Graphs, r: string, media: string, listed: set<Iri>, s: string)
    requires OnlyShelves(listed)
    ensures var h := PutBlobUpdate(g, r, media, listed);
            At(h, AuxIri(s)) == At(g, AuxIri(s)) && At(h, SysIri(AuxIri(s))) == At(g, SysIri(AuxIri(s)))
  {
  }

  /** Every other step adds to an auxiliary its own body only, under a present subject, and only
      `aux::put` marks one. */
  lemma OtherStepsAndAux(g: Graphs, objects: map<string, Bytes>, enc: Blob.Encoding, cl: Client, s: string)
    requires Sound(g) && !cl.Probed? && !cl.Listed? && !cl.ObjectStored?
    ensures var h := Move(g, objects, enc, cl).0;
            At(h, AuxIri(s)) <= At(g, AuxIri(s)) + (if Present(g, ResourceIri(s)) then WriteOf(cl, s) else {})
    ensures !(cl.Fresh? && cl.op.AuxPut? && cl.op.subject == s) ==>
              At(Move(g, objects, enc, cl).0, SysIri(AuxIri(s))) == At(g, SysIri(AuxIri(s)))
  {
    if cl.Fresh? {
      FirstStepsAndAux(g, objects, enc, cl.op, s);
    } else if cl.Asked? {
    } else {
      assert Move(g, objects, enc, cl).0 == g;
    }
  }

  lemma FirstStepsAndAux(g: Graphs, objects: map<string, Bytes>, enc: Blob.Encoding, op: Op, s: string)
    requires Sound(g)
    ensures var h := FirstMove(g, objects, enc, op).0;
            At(h, AuxIri(s)) <= At(g, AuxIri(s)) + (if Present(g, ResourceIri(s)) then WriteOf(Fresh(op), s) else {})
            && ((op.AuxPut? && op.subject == s) || At(h, SysIri(AuxIri(s))) == At(g, SysIri(AuxIri(s))))
  {
  }

  /** The step of `actions` that wrote `t` into the auxiliary of `s`, the subject being present then. */
  ghost predicate WrittenAt(w: World, actions: seq<Action>, k: nat, s: string, t: GroundTriple) {
    k < |actions| && t in AuxWrite(Run(w, actions[..k]), actions[k], s)
    && Present(Run(w, actions[..k]).graphs, ResourceIri(s))
  }

  /** Once a subject is gone, whatever its auxiliary holds later was written later, after the subject
      came back: recreating a path never brings an earlier grant with it. */
  lemma {:induction false} NoEarlierGrantReappears(w: World, actions: seq<Action>, s: string, t: GroundTriple)
    requires Inv(w) && !Present(w.graphs, ResourceIri(s))
    requires t in At(Run(w, actions).graphs, AuxIri(s))
    ensures exists k: nat :: WrittenAt(w, actions, k, s, t)
  {
    if actions != [] {
      var before := actions[..|actions| - 1];
      AuxiliariesNeverOutliveSubjects(w, before);
      if t in At(Run(w, before).graphs, AuxIri(s)) {
        NoEarlierGrantReappears(w, before, s, t);
        var k: nat :| WrittenAt(w, before, k, s, t);
        assert before[..k] == actions[..k];
        assert WrittenAt(w, actions, k, s, t);
      } else {
        OnlyAuxWritesReachAux(Run(w, before), actions[|actions| - 1], s, t);
        assert WrittenAt(w, actions, |actions| - 1, s, t);
      }
    }
  }

  // ----- what Ok from aux::put means -----

  /** The action is an `aux::put` update on the auxiliary of `s`. */
  ghost predicate PutsAux(w: World, a: Action, s: string) {
    a.Advance? && a.id in w.clients && w.clients[a.id].Fresh? && w.clients[a.id].op.AuxPut?
    && w.clients[a.id].op.subject == s
  }

  lemma OnlyPutMarksAux(w: World, a: Action, s: string)
    requires Inv(w) && !Present(w.graphs, AuxIri(s)) && !PutsAux(w, a, s)
    ensures !Present(Do(w, a).graphs, AuxIri(s))
  {
    if a.Advance? && a.id in w.clients {
      var cl := w.clients[a.id];
      if cl.Probed? || cl.Listed? || cl.ObjectStored? {
        TeardownLeavesAux(w.graphs, w.objects, w.enc, cl, s);
      } else {
        OtherStepsAndAux(w.graphs, w.objects, w.enc, cl, s);
      }
    }
  }

  ghost predicate NoOtherWriter(w: World, actions: seq<Action>, s: string, me: nat) {
    forall k :: 0 <= k < |actions| ==>
      !PutsAux(Run(w, actions[..k]), actions[k], s) && actions[k] != Advance(me) && actions[k] != Crash(me)
  }

  lemma {:induction false} AuxStaysAbsent(w: World, actions: seq<Action>, s: string, me: nat)
    requires Inv(w) && !Present(w.graphs, AuxIri(s)) && NoOtherWriter(w, actions, s, me)
    requires me in w.clients && !w.clients[me].Finished?
    ensures !Present(Run(w, actions).graphs, AuxIri(s))
    ensures me in Run(w, actions).clients && Run(w, actions).clients[me] == w.clients[me]
  {
    if actions != [] {
      var before := actions[..|actions| - 1];
      assert forall k :: 0 <= k < |before| ==> before[..k] == actions[..k];
      AuxStaysAbsent(w, before, s, me);
      AuxiliariesNeverOutliveSubjects(w, before);
      OnlyPutMarksAux(Run(w, before), actions[|actions| - 1], s);
    }
  }

  /** A client whose update on an absent subject wrote nothing is not told `Ok`, unless another client
      put the same auxiliary before its post-check. */
  lemma OkMeansItLanded(w: World, me: nat, meanwhile: seq<Action>)
    requires Inv(w) && me in w.clients && w.clients[me].Fresh? && w.clients[me].op.AuxPut?
    requires |w.clients[me].op.doc| <= MAX_AUX_TRIPLES
    requires NoOtherWriter(Do(w, Advance(me)), meanwhile, w.clients[me].op.subject, me)
    ensures var written := Do(w, Advance(me));
            var s := w.clients[me].op.subject;
            var last := Do(Run(written, meanwhile), Advance(me));
            me in last.clients && last.clients[me] == Finished(Wrote) ==>
              Present(w.graphs, ResourceIri(s)) && At(written.graphs, AuxIri(s)) == SetOf(w.clients[me].op.doc)
  {
    var s := w.clients[me].op.subject;
    var written := Do(w, Advance(me));
    ActionKeeps(w, Advance(me));
    if !Present(w.graphs, ResourceIri(s)) {
      AuxStaysAbsent(written, meanwhile, s, me);
    }
  }
}

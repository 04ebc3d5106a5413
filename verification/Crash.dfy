/**
 Crash consistency across the two stores (src/resource.rs, src/aux.rs, src/blob.rs): one
 operation at a time, but any of them may stop for good between two of its steps.
 */
module Crash {
  import opened Wrappers
  import opened Terms
  import opened Paths
  import opened Patches
  import opened Storage
  import opened Protocol
  import Blob

  /** A path that passed `resolve`; operations take no others. */
  predicate Url(path: string) { "/" <= path && Stable(path) }

  function PathOf(op: Op): string {
    match op
    case AuxPut(s, _) => s
    case AuxPatch(s, _) => s
    case DeleteAux(s) => s
    case _ => op.r
  }

  /** No operation begins before the last one finished or stopped. */
  ghost predicate Sequential(w: World, actions: seq<Action>) {
    forall k :: 0 <= k < |actions| && actions[k].Begin? ==>
      Url(PathOf(actions[k].op))
      && forall id :: id in Run(w, actions[..k]).clients ==> Run(w, actions[..k]).clients[id].Finished?
  }

  predicate SaysBinary(g: Graphs, p: string) { BinaryFact(ResourceIri(p)) in At(g, SysIri(ResourceIri(p))) }

  /** Marked binary means servable: a media type on record and an object at the resource's own key. */
  ghost predicate Servable(g: Graphs, objects: map<string, Bytes>, enc: Blob.Encoding, p: string) {
    RecordedMediaTypes(g, p) != {} && Blob.KeyOf(enc, p).Some? && Blob.KeyOf(enc, p).value in objects
  }

  ghost predicate BinariesServable(w: World) {
    forall p: string :: Url(p) && SaysBinary(w.graphs, p) ==> Servable(w.graphs, w.objects, w.enc, p)
  }

  /** What the operation under way has already done. */
  ghost predicate Halfway(g: Graphs, objects: map<string, Bytes>, enc: Blob.Encoding, cl: Client) {
    if cl.ObjectStored? && cl.op.PutBlob? then
      Blob.KeyOf(enc, cl.op.r).Some? && Blob.KeyOf(enc, cl.op.r).value in objects
    else if cl.ObjectLeft? && (cl.op.PutDataset? || cl.op.DeleteSubject?) then !SaysBinary(g, cl.op.r)
    else true
  }

  ghost predicate ClientOk(w: World, cl: Client) {
    Halfway(w.graphs, w.objects, w.enc, cl) && (cl.Finished? || Url(PathOf(cl.op)))
  }

  ghost predicate AtMostOneUnderWay(w: World) {
    forall i, j :: i in w.clients && j in w.clients && !w.clients[i].Finished? && !w.clients[j].Finished? ==> i == j
  }

  ghost predicate CrashInv(w: World) {
    w.enc.Valid() && Inv(w) && BinariesServable(w) && AtMostOneUnderWay(w)
    && (forall id :: id in w.clients ==> ClientOk(w, w.clients[id]))
  }

  /** Away from the resource an operation is about, its updates leave media types and binary facts alone. */
  lemma SysFrame(g: Graphs, objects: map<string, Bytes>, enc: Blob.Encoding, cl: Client, p: string)
    requires RemembersShelves(cl) && !cl.Finished? && p != PathOf(cl.op)
    ensures At(Move(g, objects, enc, cl).0, SysIri(ResourceIri(p))) == At(g, SysIri(ResourceIri(p)))
  {
    if cl.Fresh? {
      FirstSysFrame(g, objects, enc, cl.op, p);
    } else if cl.Listed? {
      ListedSysFrame(g, objects, enc, cl, p);
    } else if cl.Asked? && (cl.op.PatchResource? || cl.op.AuxPatch?) {
      assert At(Written(g, cl.op, cl.m), SysIri(ResourceIri(p))) == At(g, SysIri(ResourceIri(p)));
    }
  }

  lemma FirstSysFrame(g: Graphs, objects: map<string, Bytes>, enc: Blob.Encoding, op: Op, p: string)
    requires p != PathOf(op)
    ensures At(FirstMove(g, objects, enc, op).0, SysIri(ResourceIri(p))) == At(g, SysIri(ResourceIri(p)))
  {
  }

  lemma ListedSysFrame(g: Graphs, objects: map<string, Bytes>, enc: Blob.Encoding, cl: Client, p: string)
    requires RemembersShelves(cl) && cl.Listed? && p != PathOf(cl.op)
    ensures At(Move(g, objects, enc, cl).0, SysIri(ResourceIri(p))) == At(g, SysIri(ResourceIri(p)))
  {
    if cl.op.PutDataset? {
      PutDatasetAt(g, cl.op.r, cl.op.quads, cl.op.media, cl.listed, SysIri(ResourceIri(p)));
      ShelfKeysAreShelves(cl.op.r, cl.op.quads);
    } else if cl.op.DeleteSubject? {
      DeleteSubjectAt(g, cl.op.r, cl.listed, SysIri(ResourceIri(p)));
    }
  }

  /** At its own resource, an operation either replaces the system graph with one that is not binary, or adds
      at most a marker, or is `put_blob`, which records the media type with the binary fact. */
  lemma SysAtHome(g: Graphs, objects: map<string, Bytes>, enc: Blob.Encoding, cl: Client)
    requires RemembersShelves(cl) && !cl.Finished?
    ensures var p := PathOf(cl.op); var h := Move(g, objects, enc, cl).0;
            || (At(g, SysIri(ResourceIri(p))) <= At(h, SysIri(ResourceIri(p)))
                && At(h, SysIri(ResourceIri(p))) <= At(g, SysIri(ResourceIri(p))) + {Marker(ResourceIri(p))})
            || !SaysBinary(h, p)
            || (cl.ObjectStored? && cl.op.PutBlob?
                && MediaTypeFact(ResourceIri(p), cl.op.media) in At(h, SysIri(ResourceIri(p))))
  {
    if cl.Listed? && cl.op.PutDataset? {
      PutDatasetFrame(g, cl.op.r, cl.op.quads, cl.op.media, cl.listed);
      RegistryIsNotBinary(cl.op.r, cl.op.quads, cl.op.media);
    } else if cl.Listed? && cl.op.DeleteSubject? {
      DeleteSubjectAt(g, cl.op.r, cl.listed, SysIri(ResourceIri(cl.op.r)));
    }
  }

  lemma RegistryIsNotBinary(r: string, quads: seq<GroundQuad>, media: string)
    ensures BinaryFact(ResourceIri(r)) !in Registry(r, quads, media)
  {
    ShelfKeysAreShelves(r, quads);
  }

  /** The object store changes only where `put_blob` stores, and where a committed teardown tidies up. */
  lemma ObjectsFrame(g: Graphs, objects: map<string, Bytes>, enc: Blob.Encoding, cl: Client, k: string)
    requires k in objects && k !in Move(g, objects, enc, cl).1
    ensures cl.ObjectLeft? && (cl.op.PutDataset? || cl.op.DeleteSubject?) && Blob.KeyOf(enc, cl.op.r) == Some(k)
  {
  }

  lemma StillServable(w: World, id: nat, p: string)
    requires CrashInv(w) && id in w.clients && Url(p)
    requires SaysBinary(Do(w, Advance(id)).graphs, p)
    ensures var v := Do(w, Advance(id)); Servable(v.graphs, v.objects, v.enc, p)
  {
    var cl := w.clients[id];
    if !cl.Finished? {
      var v := Do(w, Advance(id));
      var sys, sys' := At(w.graphs, SysIri(ResourceIri(p))), At(v.graphs, SysIri(ResourceIri(p)));
      if p == PathOf(cl.op) {
        SysAtHome(w.graphs, w.objects, w.enc, cl);
      } else {
        SysFrame(w.graphs, w.objects, w.enc, cl, p);
      }
      if cl.ObjectStored? && cl.op.PutBlob? && p == cl.op.r {
        assert MediaTypeFact(ResourceIri(p), cl.op.media) in sys';
        assert cl.op.media in RecordedMediaTypes(v.graphs, p);
      } else {
        assert sys <= sys' && SaysBinary(w.graphs, p);
        var media :| media in RecordedMediaTypes(w.graphs, p);
        assert media in RecordedMediaTypes(v.graphs, p);
        var k := Blob.KeyOf(w.enc, p).value;
        if k !in v.objects {
          ObjectsFrame(w.graphs, w.objects, w.enc, cl, k);
          Blob.DistinctUrlsDistinctKeys(w.enc, p, cl.op.r);
        }
      }
    }
  }

  lemma ListedMoves(g: Graphs, objects: map<string, Bytes>, enc: Blob.Encoding, cl: Client)
    requires RemembersShelves(cl) && cl.Listed?
    ensures var (h, o, next) := Move(g, objects, enc, cl);
            Halfway(h, o, enc, next) && (next.Finished? || next.op == cl.op)
  {
    if cl.op.PutDataset? {
      PutDatasetFrame(g, cl.op.r, cl.op.quads, cl.op.media, cl.listed);
      RegistryIsNotBinary(cl.op.r, cl.op.quads, cl.op.media);
    } else if cl.op.DeleteSubject? {
      DeleteSubjectAt(g, cl.op.r, cl.listed, SysIri(ResourceIri(cl.op.r)));
    }
  }

  lemma OtherMoves(g: Graphs, objects: map<string, Bytes>, enc: Blob.Encoding, cl: Client)
    requires Halfway(g, objects, enc, cl) && !cl.Listed?
    ensures var (h, o, next) := Move(g, objects, enc, cl);
            Halfway(h, o, enc, next) && (!cl.Finished? ==> next.Finished? || next.op == cl.op)
    ensures cl.Finished? ==> Move(g, objects, enc, cl) == (g, objects, cl)
  {
    if cl.Fresh? {
      FirstMoves(g, objects, enc, cl.op);
    } else if cl.ObjectLeft? {
    } else {
      assert !Move(g, objects, enc, cl).2.ObjectStored?;
    }
  }

  lemma FirstMoves(g: Graphs, objects: map<string, Bytes>, enc: Blob.Encoding, op: Op)
    ensures var next := FirstMove(g, objects, enc, op).2;
            !next.ObjectStored? && !next.ObjectLeft? && (next.Finished? || next.op == op)
  {
  }

  lemma AdvanceKeepsClients(w: World, id: nat)
    requires CrashInv(w) && id in w.clients
    ensures AtMostOneUnderWay(Do(w, Advance(id)))
    ensures forall i :: i in w.clients ==> ClientOk(Do(w, Advance(id)), Do(w, Advance(id)).clients[i])
  {
    var v := Do(w, Advance(id));
    if w.clients[id].Listed? {
      ListedMoves(w.graphs, w.objects, w.enc, w.clients[id]);
    } else {
      OtherMoves(w.graphs, w.objects, w.enc, w.clients[id]);
    }
    forall i | i in w.clients
      ensures ClientOk(v, v.clients[i])
    {
      if i != id {
        assert v.clients[i] == w.clients[i];
      }
    }
  }

  lemma ActionKeepsCrashInv(w: World, a: Action)
    requires CrashInv(w)
    requires a.Begin? ==> Url(PathOf(a.op)) && forall id :: id in w.clients ==> w.clients[id].Finished?
    ensures CrashInv(Do(w, a))
  {
    ActionKeeps(w, a);
    if a.Advance? && a.id in w.clients {
      AdvanceKeepsClients(w, a.id);
      forall p: string | Url(p) && SaysBinary(Do(w, a).graphs, p)
        ensures Servable(Do(w, a).graphs, Do(w, a).objects, w.enc, p)
      {
        StillServable(w, a.id, p);
      }
    }
  }

  /** In any sequential run, stopping wherever it stops, a resource marked binary can be served. */
  lemma {:induction false} BinariesSurviveCrashes(w: World, actions: seq<Action>)
    requires CrashInv(w) && Sequential(w, actions)
    ensures CrashInv(Run(w, actions)) && BinariesServable(Run(w, actions))
  {
    if actions != [] {
      var before, last := actions[..|actions| - 1], actions[|actions| - 1];
      assert forall k :: 0 <= k < |before| ==> before[..k] == actions[..k];
      BinariesSurviveCrashes(w, before);
      ActionKeepsCrashInv(Run(w, before), last);
    }
  }

  lemma EmptyPodIsServable(enc: Blob.Encoding)
    requires enc.Valid()
    ensures CrashInv(World(map[], map[], map[], enc))
  {
  }
}

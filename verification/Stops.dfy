/**
 Operations that stop for good between two of their steps, one after another (src/resource.rs,
 src/aux.rs): what the map of `Refinement` holds afterwards. Every operation leaves it as before
 or as after, except a blob write over a binary that got no further than its object.
 */
module Stops {
  import opened Wrappers
  import opened Terms
  import opened Storage
  import opened Protocol
  import opened Crash
  import opened Refinement
  import Blob

  /** The stores and the client after `k` steps of `op`, nothing else running. */
  ghost function After(g: Graphs, objects: map<string, Bytes>, enc: Blob.Encoding, op: Op, k: nat)
    : (Graphs, map<string, Bytes>, Client)
  {
    if k == 0 then (g, objects, Fresh(op))
    else
      var (h, o, cl) := After(g, objects, enc, op, k - 1);
      Move(h, o, enc, cl)
  }

  /** Nothing has been written to either store. */
  predicate Early(cl: Client) { !cl.ObjectStored? && !Late(cl) }

  /** The one update is behind, or the operation is over. */
  predicate Late(cl: Client) { cl.ObjectLeft? || cl.Unconfirmed? || cl.Finished? }

  ghost predicate Midway(g: Graphs, objects: map<string, Bytes>, enc: Blob.Encoding, op: Op,
                         h: Graphs, o: map<string, Bytes>, cl: Client)
  {
    (Early(cl) ==> h == g && o == objects && cl.op == op)
    && (cl.ObjectStored? ==>
          cl.op == op && op.PutBlob? && h == g && Blob.KeyOf(enc, op.r).Some?
          && o == objects[Blob.KeyOf(enc, op.r).value := op.bytes])
    && (cl.ObjectLeft? ==> cl.op == op && (op.PutDataset? || op.DeleteSubject?))
  }

  lemma StepStaysMidway(g: Graphs, objects: map<string, Bytes>, enc: Blob.Encoding, op: Op,
                        h: Graphs, o: map<string, Bytes>, cl: Client)
    requires Midway(g, objects, enc, op, h, o, cl)
    ensures var (h', o', cl') := Move(h, o, enc, cl); Midway(g, objects, enc, op, h', o', cl')
  {
    if cl.Fresh? {
      FirstStepStaysMidway(g, objects, enc, op);
    } else if cl.AuxThere? {
      assert cl.op == op;
    } else if Early(cl) {
      assert cl.op == op && h == g && o == objects;
    } else {
      assert Late(Move(h, o, enc, cl).2);
    }
  }

  lemma FirstStepStaysMidway(g: Graphs, objects: map<string, Bytes>, enc: Blob.Encoding, op: Op)
    ensures var (h, o, cl) := Move(g, objects, enc, Fresh(op)); Midway(g, objects, enc, op, h, o, cl)
  {
  }

  /** Everything a stopped operation can be relied on for, and that the rest of it would end where it always ends. */
  ghost predicate Stopped(g: Graphs, objects: map<string, Bytes>, enc: Blob.Encoding, op: Op,
                          h: Graphs, o: map<string, Bytes>, cl: Client)
  {
    Midway(g, objects, enc, op, h, o, cl) && Sound(h) && RemembersShelves(cl) && Halfway(h, o, enc, cl)
    && Settle(h, o, enc, cl) == Settle(g, objects, enc, Fresh(op))
  }

  lemma StepStaysStopped(g: Graphs, objects: map<string, Bytes>, enc: Blob.Encoding, op: Op,
                         h: Graphs, o: map<string, Bytes>, cl: Client)
    requires Stopped(g, objects, enc, op, h, o, cl)
    ensures var (h', o', cl') := Move(h, o, enc, cl); Stopped(g, objects, enc, op, h', o', cl')
  {
    StepStaysMidway(g, objects, enc, op, h, o, cl);
    StepKeeps(h, o, enc, cl);
    SettleOn(h, o, enc, cl);
    if cl.Listed? { ListedMoves(h, o, enc, cl); } else { OtherMoves(h, o, enc, cl); }
  }

  lemma SettleOn(h: Graphs, o: map<string, Bytes>, enc: Blob.Encoding, cl: Client)
    ensures var (h', o', cl') := Move(h, o, enc, cl); Settle(h', o', enc, cl') == Settle(h, o, enc, cl)
  {
    if !cl.Finished? { SettleOne(h, o, enc, cl); }
  }

  lemma {:induction false} StoppedMidway(g: Graphs, objects: map<string, Bytes>, enc: Blob.Encoding, op: Op, k: nat)
    requires Sound(g)
    ensures var (h, o, cl) := After(g, objects, enc, op, k); Stopped(g, objects, enc, op, h, o, cl)
  {
    if k == 0 {
      assert Midway(g, objects, enc, op, g, objects, Fresh(op));
    } else {
      StoppedMidway(g, objects, enc, op, k - 1);
      var (h, o, cl) := After(g, objects, enc, op, k - 1);
      StepStaysStopped(g, objects, enc, op, h, o, cl);
      assert After(g, objects, enc, op, k) == Move(h, o, enc, cl);
    }
  }

  // ----- an object without its marker -----

  /** The object store differs from what it was at the key of `r` alone. */
  ghost predicate OnlyObjectOf(enc: Blob.Encoding, r: string, o: map<string, Bytes>, o': map<string, Bytes>) {
    forall k :: Blob.KeyOf(enc, r) != Some(k) ==> (k in o <==> k in o') && (k in o ==> o[k] == o'[k])
  }

  lemma ObjectShowsOnlyAtItsResource(g: Graphs, o: map<string, Bytes>, o': map<string, Bytes>, enc: Blob.Encoding,
                                     r: string, n: Iri)
    requires enc.Valid() && Url(r) && Entity(n) && OnlyObjectOf(enc, r, o, o')
    requires n != ResourceIri(r) || !SaysBinary(g, r)
    ensures Abs(g, o', enc, n) == Abs(g, o, enc, n)
  {
    if n != ResourceIri(r) {
      ObjectUntouched(enc, n, r);
      SameAbs(g, g, o, o', enc, n);
    }
  }

  /** Writing new bytes without the marker that goes with them is invisible, to every resource, if and
      only if the resource was not binary already. */
  lemma ObjectAloneIsInvisibleIffNotBinary(g: Graphs, objects: map<string, Bytes>, enc: Blob.Encoding, r: string,
                                           bytes: Bytes)
    requires enc.Valid() && Url(r) && Blob.KeyOf(enc, r).Some?
    requires var k := Blob.KeyOf(enc, r).value; k in objects ==> objects[k] != bytes
    ensures var written := objects[Blob.KeyOf(enc, r).value := bytes];
            (forall n: Iri :: Entity(n) ==> Abs(g, written, enc, n) == Abs(g, objects, enc, n)) <==> !SaysBinary(g, r)
  {
    var written := objects[Blob.KeyOf(enc, r).value := bytes];
    if SaysBinary(g, r) {
      assert BytesOf(g, written, enc, r) == Some(bytes) && BytesOf(g, objects, enc, r) != Some(bytes);
      assert Entity(ResourceIri(r)) && Abs(g, written, enc, ResourceIri(r)) != Abs(g, objects, enc, ResourceIri(r));
    } else {
      forall n: Iri | Entity(n) { ObjectShowsOnlyAtItsResource(g, objects, written, enc, r, n); }
    }
  }

  // ----- what a stopped operation leaves of the map -----

  /** Before, after, or for the object of an unfinished blob write over a binary, the new bytes with
      everything else as it was. */
  ghost function StoppedSpec(g: Graphs, a: ResourceMap, enc: Blob.Encoding, op: Op, cl: Client): ResourceMap {
    if Late(cl) then Spec(a, enc, op).0
    else if cl.ObjectStored? && op.PutBlob? && SaysBinary(g, op.r) then
      a[ResourceIri(op.r) := Lookup(a, ResourceIri(op.r)).(bytes := Some(op.bytes))]
    else a
  }

  lemma MarkedObjectReplaced(g: Graphs, objects: map<string, Bytes>, enc: Blob.Encoding, a: ResourceMap, r: string,
                             bytes: Bytes)
    requires Represents(g, objects, enc, a) && enc.Valid() && Url(r) && Blob.KeyOf(enc, r).Some?
    ensures var written := objects[Blob.KeyOf(enc, r).value := bytes];
            var b := if !SaysBinary(g, r) then a
                     else a[ResourceIri(r) := Lookup(a, ResourceIri(r)).(bytes := Some(bytes))];
            Represents(g, written, enc, b)
  {
    var n, written := ResourceIri(r), objects[Blob.KeyOf(enc, r).value := bytes];
    assert Lookup(a, n) == Abs(g, objects, enc, n);
    forall x: Iri | Entity(x) && (x != n || !SaysBinary(g, r)) {
      ObjectShowsOnlyAtItsResource(g, objects, written, enc, r, x);
    }
    if SaysBinary(g, r) {
      OneChanged(g, objects, g, written, enc, a, n, Lookup(a, n).(bytes := Some(bytes)));
    }
  }

  /** An object the teardown has yet to delete shows nowhere: its resource is not binary any more. */
  lemma LeftObjectIsInvisible(h: Graphs, o: map<string, Bytes>, enc: Blob.Encoding, b: ResourceMap, r: string)
    requires enc.Valid() && Url(r) && !SaysBinary(h, r)
    requires Represents(h, if Blob.KeyOf(enc, r).Some? then o - {Blob.KeyOf(enc, r).value} else o, enc, b)
    ensures Represents(h, o, enc, b)
  {
    var o' := if Blob.KeyOf(enc, r).Some? then o - {Blob.KeyOf(enc, r).value} else o;
    forall x: Iri | Entity(x) { ObjectShowsOnlyAtItsResource(h, o, o', enc, r, x); }
  }

  lemma StoppedOperationRefines(g: Graphs, objects: map<string, Bytes>, enc: Blob.Encoding, a: ResourceMap, op: Op,
                                k: nat)
    requires Good(g, enc) && Represents(g, objects, enc, a) && Url(PathOf(op))
    ensures var (h, o, cl) := After(g, objects, enc, op, k);
            Good(h, enc) && Represents(h, o, enc, StoppedSpec(g, a, enc, op, cl))
  {
    var (h, o, cl) := After(g, objects, enc, op, k);
    StoppedMidway(g, objects, enc, op, k);
    if Late(cl) {
      OperationRefines(g, objects, enc, a, op);
      LateRefines(h, o, enc, Spec(a, enc, op).0, cl, Settle(g, objects, enc, Fresh(op)).1);
    } else if cl.ObjectStored? {
      MarkedObjectReplaced(g, objects, enc, a, op.r, op.bytes);
    }
  }

  /** Once the update is behind, what is left of the operation changes nothing that shows. */
  lemma LateRefines(h: Graphs, o: map<string, Bytes>, enc: Blob.Encoding, b: ResourceMap, cl: Client,
                    final: map<string, Bytes>)
    requires Late(cl) && Halfway(h, o, enc, cl) && enc.Valid()
    requires cl.ObjectLeft? ==> (cl.op.PutDataset? || cl.op.DeleteSubject?) && Url(cl.op.r)
    requires Settle(h, o, enc, cl).1 == final
    requires Good(Settle(h, o, enc, cl).0, enc) && Represents(Settle(h, o, enc, cl).0, final, enc, b)
    ensures Good(h, enc) && Represents(h, o, enc, b)
  {
    if !cl.Finished? { SettleOne(h, o, enc, cl); }
    if cl.ObjectLeft? { LeftObjectIsInvisible(h, o, enc, b, cl.op.r); }
  }

  // ----- whole runs -----

  datatype Attempt = Attempt(op: Op, steps: nat)

  ghost function RunAttempts(g: Graphs, objects: map<string, Bytes>, enc: Blob.Encoding, attempts: seq<Attempt>)
    : (Graphs, map<string, Bytes>)
    decreases |attempts|
  {
    if attempts == [] then (g, objects)
    else
      var (h, o, _) := After(g, objects, enc, attempts[0].op, attempts[0].steps);
      RunAttempts(h, o, enc, attempts[1..])
  }

  ghost function RunStoppedSpec(g: Graphs, objects: map<string, Bytes>, enc: Blob.Encoding, a: ResourceMap,
                                attempts: seq<Attempt>): ResourceMap
    decreases |attempts|
  {
    if attempts == [] then a
    else
      var (h, o, cl) := After(g, objects, enc, attempts[0].op, attempts[0].steps);
      RunStoppedSpec(h, o, enc, StoppedSpec(g, a, enc, attempts[0].op, cl), attempts[1..])
  }

  /** Over any sequential run in which every operation may stop after any number of its steps, the stores
      represent the map each operation left as `StoppedSpec` says. */
  lemma {:induction false} StoppedRunsRefine(g: Graphs, objects: map<string, Bytes>, enc: Blob.Encoding, a: ResourceMap,
                                             attempts: seq<Attempt>)
    requires Good(g, enc) && Represents(g, objects, enc, a)
    requires forall t :: t in attempts ==> Url(PathOf(t.op))
    ensures var (h, o) := RunAttempts(g, objects, enc, attempts);
            Good(h, enc) && Represents(h, o, enc, RunStoppedSpec(g, objects, enc, a, attempts))
    decreases |attempts|
  {
    if attempts != [] {
      var op, k := attempts[0].op, attempts[0].steps;
      StoppedOperationRefines(g, objects, enc, a, op, k);
      var (h, o, cl) := After(g, objects, enc, op, k);
      StoppedRunsRefine(h, o, enc, StoppedSpec(g, a, enc, op, cl), attempts[1..]);
    }
  }
}

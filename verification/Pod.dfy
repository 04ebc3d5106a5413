/**
 The storage operations in the form the source gives them: objects that build an update
 operation by operation, loop over registries and quads, and send the result to the store
 as one atomic update (src/resource.rs, src/aux.rs, src/container.rs, src/http.rs). Each
 method is proved to leave exactly what its steps in `Protocol` leave when nothing interferes.
 */
module PodObject {
  import opened Wrappers
  import opened Terms
  import opened Paths
  import opened Patches
  import opened Storage
  import opened Protocol
  import opened Refinement
  import opened PatchEffect
  import Blob
  import Containment
  import Skolem

  // ----- one atomic update, as the sequence of operations it is written as -----

  datatype UpdateOp =
    | DropGraph(n: Iri)
    | InsertData(n: Iri, ts: set<GroundTriple>)
    | DeleteData(n: Iri, ts: set<GroundTriple>)
    | ClearWhere(n: Iri, guard: Iri)
    | InsertWhere(n: Iri, ts: set<GroundTriple>, guard: Iri)
    | Modify(n: Iri, deleted: Option<set<GroundTriple>>, inserted: set<GroundTriple>, condition: Option<Iri>)

  function Apply(g: Graphs, op: UpdateOp): Graphs {
    match op
    case DropGraph(n) => g - {n}
    case InsertData(n, ts) => g[n := At(g, n) + ts]
    case DeleteData(n, ts) => g[n := At(g, n) - ts]
    case ClearWhere(n, guard) => if Present(g, guard) then g[n := {}] else g
    case InsertWhere(n, ts, guard) => if Present(g, guard) then g[n := At(g, n) + ts] else g
    case Modify(n, d, i, guard) =>
      if There(d, At(g, n)) && GuardHolds(g, guard) then g[n := (At(g, n) - d.value) + i] else g
  }

  function ApplyAll(g: Graphs, ops: seq<UpdateOp>): Graphs {
    if ops == [] then g else Apply(ApplyAll(g, ops[..|ops| - 1]), ops[|ops| - 1])
  }

  lemma ApplyOneMore(g: Graphs, ops: seq<UpdateOp>, op: UpdateOp)
    ensures ApplyAll(g, ops + [op]) == Apply(ApplyAll(g, ops), op)
  {
    assert (ops + [op])[..|ops|] == ops;
  }

  // ----- splitting a dataset into shelves -----

  datatype Shelf = Shelf(key: Iri, name: Iri, ts: seq<GroundTriple>)

  ghost predicate ShelfOf(r: string, quads: seq<GroundQuad>, s: Shelf) {
    s.key == ShelfIri(ResourceIri(r), s.name)
    && SetOf(s.ts) == TriplesIn(quads, Named(s.name)) && s.ts != []
  }

  ghost predicate HasShelf(shelves: seq<Shelf>, name: Iri) {
    exists i :: 0 <= i < |shelves| && shelves[i].name == name
  }

  ghost predicate DistinctKeys(shelves: seq<Shelf>) {
    forall i, j :: 0 <= i < j < |shelves| ==> shelves[i].key != shelves[j].key
  }

  /** The default graph and one shelf per non-empty named graph, with nothing lost and nothing added. */
  ghost predicate Bucketed(r: string, quads: seq<GroundQuad>, default_: seq<GroundTriple>, shelves: seq<Shelf>) {
    SetOf(default_) == TriplesIn(quads, DefaultGraph)
    && (forall i :: 0 <= i < |shelves| ==> ShelfOf(r, quads, shelves[i]))
    && DistinctKeys(shelves)
    && (forall name: Iri :: TriplesIn(quads, Named(name)) != {} ==> HasShelf(shelves, name))
  }

  method FindShelf(shelves: seq<Shelf>, key: Iri) returns (at: Option<nat>)
    ensures at.Some? ==> at.value < |shelves| && shelves[at.value].key == key
    ensures at.None? ==> forall i :: 0 <= i < |shelves| ==> shelves[i].key != key
  {
    for i := 0 to |shelves|
      invariant forall j :: 0 <= j < i ==> shelves[j].key != key
    {
      if shelves[i].key == key { return Some(i); }
    }
    return None;
  }

  lemma TriplesInGrows(quads: seq<GroundQuad>, q: GroundQuad, graph: GroundGraph)
    ensures TriplesIn(quads + [q], graph) == TriplesIn(quads, graph) + (if q.graph == graph then {q.triple} else {})
  {
    forall t: GroundTriple
      ensures t in TriplesIn(quads + [q], graph) <==>
          t in TriplesIn(quads, graph) + (if q.graph == graph then {q.triple} else {})
    {
      if t in TriplesIn(quads, graph) {
        var p :| p in quads && p.graph == graph && p.triple == t;
        assert p in quads + [q];
      }
    }
  }

  lemma DefaultQuad(r: string, quads: seq<GroundQuad>, q: GroundQuad, default_: seq<GroundTriple>, shelves: seq<Shelf>)
    requires Bucketed(r, quads, default_, shelves) && q.graph == DefaultGraph
    ensures Bucketed(r, quads + [q], default_ + [q.triple], shelves)
  {
    forall graph { TriplesInGrows(quads, q, graph); }
  }

  /** A quad whose graph has its shelf already. */
  lemma KnownShelf(r: string, quads: seq<GroundQuad>, q: GroundQuad, default_: seq<GroundTriple>, shelves: seq<Shelf>,
                   k: nat)
    requires Bucketed(r, quads, default_, shelves) && k < |shelves| && q.graph == Named(shelves[k].name)
    ensures Bucketed(r, quads + [q], default_, shelves[k := shelves[k].(ts := shelves[k].ts + [q.triple])])
  {
    var next := shelves[k := shelves[k].(ts := shelves[k].ts + [q.triple])];
    TriplesInGrows(quads, q, DefaultGraph);
    forall i | 0 <= i < |next|
      ensures ShelfOf(r, quads + [q], next[i])
    {
      TriplesInGrows(quads, q, Named(next[i].name));
      assert shelves[i].key != shelves[k].key || i == k;
    }
    forall name: Iri | TriplesIn(quads + [q], Named(name)) != {}
      ensures HasShelf(next, name)
    {
      TriplesInGrows(quads, q, Named(name));
      assert HasShelf(shelves, name) by { if name == shelves[k].name {} }
      var i :| 0 <= i < |shelves| && shelves[i].name == name;
      assert next[i].name == name;
    }
  }

  /** A quad that opens a shelf. */
  lemma NewShelf(r: string, quads: seq<GroundQuad>, q: GroundQuad, default_: seq<GroundTriple>, shelves: seq<Shelf>)
    requires Bucketed(r, quads, default_, shelves) && q.graph.Named?
    requires forall i :: 0 <= i < |shelves| ==> shelves[i].key != ShelfIri(ResourceIri(r), q.graph.name)
    ensures Bucketed(r, quads + [q], default_,
                     shelves + [Shelf(ShelfIri(ResourceIri(r), q.graph.name), q.graph.name, [q.triple])])
  {
    var added := Shelf(ShelfIri(ResourceIri(r), q.graph.name), q.graph.name, [q.triple]);
    var next := shelves + [added];
    TriplesInGrows(quads, q, DefaultGraph);
    assert !HasShelf(shelves, q.graph.name) by {
      assert forall i :: 0 <= i < |shelves| ==> ShelfOf(r, quads, shelves[i]);
    }
    assert TriplesIn(quads, q.graph) == {};
    forall i | 0 <= i < |next|
      ensures ShelfOf(r, quads + [q], next[i])
    {
      TriplesInGrows(quads, q, Named(next[i].name));
      assert i < |shelves| ==> ShelfOf(r, quads, shelves[i]);
    }
    forall name: Iri | TriplesIn(quads + [q], Named(name)) != {}
      ensures HasShelf(next, name)
    {
      TriplesInGrows(quads, q, Named(name));
      if name == q.graph.name {
        assert next[|shelves|].name == name;
      } else {
        var i :| 0 <= i < |shelves| && shelves[i].name == name;
        assert next[i].name == name;
      }
    }
  }

  method SplitByGraph(r: string, quads: seq<GroundQuad>) returns (default_: seq<GroundTriple>, shelves: seq<Shelf>)
    ensures Bucketed(r, quads, default_, shelves)
  {
    default_, shelves := [], [];
    for i := 0 to |quads|
      invariant Bucketed(r, quads[..i], default_, shelves)
    {
      var q := quads[i];
      assert quads[..i + 1] == quads[..i] + [q];
      match q.graph {
        case DefaultGraph =>
          DefaultQuad(r, quads[..i], q, default_, shelves);
          default_ := default_ + [q.triple];
        case Named(name) =>
          var key := ShelfIri(ResourceIri(r), name);
          var at := FindShelf(shelves, key);
          match at {
            case Some(k) =>
              KnownShelf(r, quads[..i], q, default_, shelves, k);
              shelves := shelves[k := shelves[k].(ts := shelves[k].ts + [q.triple])];
            case None =>
              NewShelf(r, quads[..i], q, default_, shelves);
              shelves := shelves + [Shelf(key, name, [q.triple])];
          }
      }
    }
    assert quads[..|quads|] == quads;
  }

  /** The keys of a prefix of the shelves, and what those shelves hold. */
  function KeysOf(shelves: seq<Shelf>): set<Iri> { set s | s in shelves :: s.key }

  method DropAll(g: Graphs, listed: set<Iri>) returns (ops: seq<UpdateOp>)
    ensures ApplyAll(g, ops) == g - listed
  {
    ops := [];
    var rest := listed;
    assert g - {} == g;
    while rest != {}
      invariant rest <= listed && ApplyAll(g, ops) == g - (listed - rest)
      decreases rest
    {
      var key :| key in rest;
      ApplyOneMore(g, ops, DropGraph(key));
      ops := ops + [DropGraph(key)];
      rest := rest - {key};
      assert listed - rest == (listed - (rest + {key})) + {key};
    }
    assert listed - {} == listed;
  }

  method DropShelves(g: Graphs, before: seq<UpdateOp>, shelves: seq<Shelf>) returns (ops: seq<UpdateOp>)
    ensures ApplyAll(g, ops) == ApplyAll(g, before) - KeysOf(shelves)
  {
    ops := before;
    for i := 0 to |shelves|
      invariant ApplyAll(g, ops) == ApplyAll(g, before) - KeysOf(shelves[..i])
    {
      ApplyOneMore(g, ops, DropGraph(shelves[i].key));
      ops := ops + [DropGraph(shelves[i].key)];
      assert KeysOf(shelves[..i + 1]) == KeysOf(shelves[..i]) + {shelves[i].key};
    }
    assert shelves[..|shelves|] == shelves;
  }

  lemma FillOne(start: Graphs, now: Graphs, shelves: seq<Shelf>, i: nat)
    requires i < |shelves| && now == start + Filled(shelves[..i]) && shelves[i].key !in now
    ensures Apply(now, InsertData(shelves[i].key, SetOf(shelves[i].ts))) == start + Filled(shelves[..i + 1])
  {
    FilledGrows(shelves, i);
    assert {} + SetOf(shelves[i].ts) == SetOf(shelves[i].ts);
  }

  method FillShelves(g: Graphs, before: seq<UpdateOp>, shelves: seq<Shelf>) returns (ops: seq<UpdateOp>)
    requires DistinctKeys(shelves)
    requires forall i :: 0 <= i < |shelves| ==> shelves[i].key !in ApplyAll(g, before)
    ensures ApplyAll(g, ops) == ApplyAll(g, before) + Filled(shelves)
  {
    ops := before;
    for i := 0 to |shelves|
      invariant forall j :: i <= j < |shelves| ==> shelves[j].key !in ApplyAll(g, ops)
      invariant ApplyAll(g, ops) == ApplyAll(g, before) + Filled(shelves[..i])
    {
      var add := InsertData(shelves[i].key, SetOf(shelves[i].ts));
      ApplyOneMore(g, ops, add);
      FillOne(ApplyAll(g, before), ApplyAll(g, ops), shelves, i);
      ops := ops + [add];
    }
    assert shelves[..|shelves|] == shelves;
  }

  method CollectFacts(rid: Iri, media: string, shelves: seq<Shelf>) returns (facts: set<GroundTriple>)
    ensures facts == {Marker(rid), MediaTypeFact(rid, media)} + Facts(rid, shelves)
  {
    facts := {Marker(rid), MediaTypeFact(rid, media)};
    for i := 0 to |shelves|
      invariant facts == {Marker(rid), MediaTypeFact(rid, media)} + Facts(rid, shelves[..i])
    {
      facts := facts + {SubgraphFact(rid, shelves[i].key), NameFact(shelves[i].key, shelves[i].name)};
      assert shelves[..i + 1] == shelves[..i] + [shelves[i]];
      FactsGrow(rid, shelves[..i], shelves[i]);
    }
    assert shelves[..|shelves|] == shelves;
  }

  lemma ShelvesAreClear(g: Graphs, r: string, quads: seq<GroundQuad>, default_: seq<GroundTriple>, shelves: seq<Shelf>,
                        ts: set<GroundTriple>)
    requires Bucketed(r, quads, default_, shelves)
    ensures forall i :: 0 <= i < |shelves| ==>
              shelves[i].key !in (g - KeysOf(shelves) - {ResourceIri(r), SysIri(ResourceIri(r))})[ResourceIri(r) := ts]
    ensures SysIri(ResourceIri(r)) !in Filled(shelves)
  {
    FilledIsTheShelves(r, quads, default_, shelves);
    assert forall i :: 0 <= i < |shelves| ==> shelves[i] in shelves && ShelfOf(r, quads, shelves[i]);
  }

  lemma ReplaceDefault(g: Graphs, ops: seq<UpdateOp>, rid: Iri, sys: Iri, ts: set<GroundTriple>)
    ensures ApplyAll(g, ops + [DropGraph(rid)] + [DropGraph(sys)] + [InsertData(rid, ts)]) ==
        (ApplyAll(g, ops) - {rid, sys})[rid := ts]
  {
    ApplyOneMore(g, ops, DropGraph(rid));
    ApplyOneMore(g, ops + [DropGraph(rid)], DropGraph(sys));
    ApplyOneMore(g, ops + [DropGraph(rid)] + [DropGraph(sys)], InsertData(rid, ts));
    DropsThenFirst(ApplyAll(g, ops), rid, sys, ts);
  }

  lemma DropsThenFirst(g: Graphs, a: Iri, b: Iri, ts: set<GroundTriple>)
    ensures Apply(Apply(Apply(g, DropGraph(a)), DropGraph(b)), InsertData(a, ts)) == (g - {a, b})[a := ts]
  {
    assert {} + ts == ts;
    assert g - {a} - {b} == g - {a, b};
  }

  /** The one update `put_dataset` sends: drops first, then the content, then the facts. */
  method DatasetUpdate(g: Graphs, r: string, quads: seq<GroundQuad>, media: string) returns (ops: seq<UpdateOp>)
    ensures ApplyAll(g, ops) == PutDatasetUpdate(g, r, quads, media, RegisteredShelves(g, r))
  {
    var rid, sys := ResourceIri(r), SysIri(ResourceIri(r));
    var default_, shelves := SplitByGraph(r, quads);
    var listed := RegisteredShelves(g, r);
    ops := DropAll(g, listed);
    ops := DropShelves(g, ops, shelves);
    ghost var cleared := g - listed - KeysOf(shelves) - {rid, sys};
    ReplaceDefault(g, ops, rid, sys, SetOf(default_));
    ops := ops + [DropGraph(rid)] + [DropGraph(sys)] + [InsertData(rid, SetOf(default_))];
    assert ApplyAll(g, ops) == cleared[rid := SetOf(default_)];
    ShelvesAreClear(g - listed, r, quads, default_, shelves, SetOf(default_));
    ops := FillShelves(g, ops, shelves);
    var facts := CollectFacts(rid, media, shelves);
    ApplyOneMore(g, ops, InsertData(sys, facts));
    ops := ops + [InsertData(sys, facts)];
    assert {} + facts == facts;
    BucketsAreTheUpdate(g, r, quads, media, default_, shelves, facts);
  }

  /** What a SELECT with `LIMIT 2` may answer: solutions, all of them unless there are two already. */
  ghost predicate AnswersSelect(rows: seq<Binding>, conditions: seq<Pattern>, g: set<GroundTriple>) {
    |rows| <= 2 && (forall m :: m in rows ==> Solves(conditions, g, m)) && (|rows| == 2 ==> rows[0] != rows[1])
    && (|rows| < 2 ==> forall m :: Solves(conditions, g, m) ==> m in rows)
  }

  lemma RowsDecideTheMapping(rows: seq<Binding>, patch: Patch, g: set<GroundTriple>)
    requires patch.conditions != [] && AnswersSelect(rows, patch.conditions, g)
    ensures FindMapping(g, patch) ==
      if |rows| == 0 then Refused(NoMapping) else if |rows| == 1 then OneMapping(rows[0]) else Refused(SeveralMappings)
  {
    if |rows| == 1 {
      assert rows[0] in rows;
      assert UniquelySolvedBy(patch.conditions, g, rows[0]);
    } else if |rows| == 2 {
      assert rows[0] in rows && rows[1] in rows;
    }
  }

  /** `substitute`: fails on what cannot be rendered, and says what the lines stand for and whether each
      stands for a triple. */
  method SubstituteAll(patterns: seq<Pattern>, m: Binding) returns (r: Option<(set<GroundTriple>, bool)>)
    ensures r.Some? <==> Renderable(patterns, m)
    ensures r.Some? ==> r.value == (Substitute(patterns, m), Groundable(patterns, m))
  {
    var out: set<GroundTriple> := {};
    var every := true;
    for i := 0 to |patterns|
      invariant Renderable(patterns[..i], m) && out == Substitute(patterns[..i], m)
                && every == Groundable(patterns[..i], m)
    {
      assert patterns[..i + 1] == patterns[..i] + [patterns[i]];
      if !Renders(patterns[i], m) {
        assert patterns[i] in patterns;
        return None;
      }
      match Ground(patterns[i], m) {
        case None => every := false;
        case Some(t) => out := out + {t};
      }
    }
    assert patterns[..|patterns|] == patterns;
    return Some((out, every));
  }

  class Pod {
    var graphs: Graphs
    var objects: map<string, Bytes>
    const enc: Blob.Encoding

    constructor (enc: Blob.Encoding)
      ensures graphs == map[] && objects == map[] && this.enc == enc
    {
      graphs, objects, this.enc := map[], map[], enc;
    }

    /** The state after `op`, run from `(g, o)` without interruption. */
    ghost predicate DidAlone(g: Graphs, o: map<string, Bytes>, op: Op, outcome: Outcome)
      reads this
    {
      (graphs, objects, outcome) == Settle(g, o, enc, Fresh(op))
    }

    method Update(ops: seq<UpdateOp>)
      modifies this`graphs
      ensures graphs == ApplyAll(old(graphs), ops)
    {
      graphs := ApplyAll(graphs, ops);
    }

    /** `put_dataset`. */
    method PutDataset(r: string, quads: seq<GroundQuad>, media: string) returns (outcome: Outcome)
      modifies this
      ensures DidAlone(old(graphs), old(objects), Op.PutDataset(r, quads, media), outcome)
    {
      var g := graphs;
      var ops := DatasetUpdate(g, r, quads, media);
      Update(ops);
      SettlePutDataset(g, objects, enc, r, quads, media);
      match Blob.KeyOf(enc, r) {
        case Some(key) => objects := objects - {key};
        case None =>
      }
      outcome := Wrote;
    }

    /** `put_blob`. */
    method PutBlob(r: string, bytes: Bytes, media: string) returns (outcome: Outcome)
      modifies this
      ensures DidAlone(old(graphs), old(objects), Op.PutBlob(r, bytes, media), outcome)
    {
      var g := graphs;
      ghost var op := Op.PutBlob(r, bytes, media);
      SettleOne(g, objects, enc, Fresh(op));
      match Blob.KeyOf(enc, r) {
        case None => return KeyTooLong;
        case Some(key) =>
          var listed := RegisteredShelves(g, r);
          SettleOne(g, objects, enc, Listed(op, false, listed));
          objects := objects[key := bytes];
          SettleOne(g, objects, enc, ObjectStored(op, listed));
          var rid, sys := ResourceIri(r), SysIri(ResourceIri(r));
          var ops := DropAll(g, listed);
          var facts := {Marker(rid), BinaryFact(rid), MediaTypeFact(rid, media)};
          BlobOps(g, ops, r, media, listed);
          Update(ops + [DropGraph(rid)] + [DropGraph(sys)] + [InsertData(sys, facts)]);
          outcome := Wrote;
      }
    }

    /** `put_rdf`. */
    method PutRdf(r: string, ts: set<GroundTriple>) returns (outcome: Outcome)
      modifies this`graphs
      ensures DidAlone(old(graphs), old(objects), Op.PutRdf(r, ts), outcome)
      ensures graphs == PutRdfUpdate(old(graphs), r, ts)
    {
      var rid := ResourceIri(r);
      SettleOne(graphs, objects, enc, Fresh(Op.PutRdf(r, ts)));
      Update([DropGraph(rid), InsertData(rid, ts), InsertData(SysIri(rid), {Marker(rid)})]);
      ReplaceOps(old(graphs), rid, ts);
      outcome := Wrote;
    }

    /** `insert_marked`. */
    method InsertMarked(r: string, ts: set<GroundTriple>) returns (outcome: Outcome)
      modifies this`graphs
      ensures DidAlone(old(graphs), old(objects), Op.InsertMarked(r, ts), outcome)
      ensures graphs == InsertMarkedUpdate(old(graphs), r, ts)
    {
      var rid := ResourceIri(r);
      SettleOne(graphs, objects, enc, Fresh(Op.InsertMarked(r, ts)));
      Update([InsertData(rid, ts), InsertData(SysIri(rid), {Marker(rid)})]);
      TwoOps(old(graphs), InsertData(rid, ts), InsertData(SysIri(rid), {Marker(rid)}));
      outcome := Wrote;
    }

    /** `patch_guarded`: the rows are what the store answers to the one SELECT. */
    method PatchGuarded(n: Iri, patch: Patch, guard: Option<Iri>, rows: seq<Binding>)
      returns (r: Result<PatchResult, StoreError>)
      requires patch.conditions != [] ==> AnswersSelect(rows, patch.conditions, At(graphs, n))
      modifies this`graphs
      ensures (graphs, r) == Storage.PatchGuarded(old(graphs), n, patch, guard)
    {
      var m: Binding := map[];
      if patch.conditions != [] {
        RowsDecideTheMapping(rows, patch, At(graphs, n));
        if |rows| == 0 { return Ok(NoMapping); }
        if |rows| == 2 { return Ok(SeveralMappings); }
        m := rows[0];
      }
      var d := SubstituteAll(patch.deletions, m);
      if d.None? { return Err(Backend); }
      var i := SubstituteAll(patch.insertions, m);
      if i.None? { return Err(Backend); }
      if patch.deletions == [] && patch.insertions == [] { return Ok(Applied); }
      var deleted := if d.value.1 then Some(d.value.0) else None;
      var before := patch.deletions != [] && There(deleted, At(graphs, n));
      OneOp(graphs, Modify(n, deleted, i.value.0, guard));
      Update([Modify(n, deleted, i.value.0, guard)]);
      r := Ok(if patch.deletions != [] && !before then DeletionMissing else Applied);
    }

    /** `patch_dataset`. */
    method PatchResource(r: string, patch: Patch, rows: seq<Binding>) returns (outcome: Outcome)
      requires patch.conditions != [] ==> AnswersSelect(rows, patch.conditions, At(graphs, ResourceIri(r)))
      modifies this`graphs
      ensures DidAlone(old(graphs), old(objects), Op.PatchResource(r, patch), outcome)
    {
      PatchSettles(graphs, objects, enc, Op.PatchResource(r, patch));
      SettleIsPatchGuarded(graphs, objects, enc, Op.PatchResource(r, patch));
      var answer := PatchGuarded(ResourceIri(r), patch, None, rows);
      outcome := if answer.Ok? then Patched(answer.value) else StoreFailed;
    }

    /** `aux::patch`: refuses an absent auxiliary first, and looks again at the end. */
    method AuxPatch(s: string, patch: Patch, rows: seq<Binding>) returns (outcome: Outcome)
      requires patch.conditions != [] ==> AnswersSelect(rows, patch.conditions, At(graphs, AuxIri(s)))
      modifies this`graphs
      ensures DidAlone(old(graphs), old(objects), Op.AuxPatch(s, patch), outcome)
    {
      PatchSettles(graphs, objects, enc, Op.AuxPatch(s, patch));
      if !Present(graphs, AuxIri(s)) {
        return if Present(graphs, ResourceIri(s)) then Missing else SubjectMissing;
      }
      SettleIsPatchGuarded(graphs, objects, enc, Op.AuxPatch(s, patch));
      var answer := PatchGuarded(AuxIri(s), patch, Some(ResourceIri(s)), rows);
      if answer.Err? { return StoreFailed; }
      outcome := if Present(graphs, AuxIri(s)) then Patched(answer.value) else SubjectMissing;
    }

    /** `ensure_container`. */
    method EnsureContainer(c: Containment.ContainerPath)
      modifies this`graphs
      ensures graphs == Containment.Ensured(old(graphs), c)
    {
      var _ := InsertMarked(c, Containment.TypesOf(c));
    }

    /** The container arm of `put_write`, with the refusals that come before it; `minted` is what its
        blank nodes are given. */
    method PutContainer(c: Containment.ContainerPath, body: Skolem.Dataset, minted: Skolem.Minting)
      returns (refusal: Option<Containment.PutRefusal>)
      modifies this`graphs
      ensures var reserved := exists q :: q in body && Skolem.QuadUsesReserved(q);
              var named := exists q :: q in body && q.graph != Unnamed;
              (refusal == Some(Containment.ReservedName) <==> reserved)
              && (refusal == Some(Containment.NamedGraphs) <==> !reserved && named)
              && (refusal == Some(Containment.SetsContainment) <==>
                    !reserved && !named && exists q :: q in body && q.triple.p == Vocab(LdpContains))
      ensures refusal.None? ==> Containment.Allowed(Containment.PutContainer(c, Skolem.GroundAll(body, minted)))
      ensures graphs == if refusal.Some? then old(graphs)
                        else Containment.PutContainerUpdate(old(graphs), c, Skolem.GroundAll(body, minted))
    {
      var quads := Skolem.GroundAll(body, minted);
      var reserved := Skolem.UsesReservedNamespace(body);
      if reserved { return Some(Containment.ReservedName); }
      for i := 0 to |body|
        invariant forall j :: 0 <= j < i ==> body[j].graph == Unnamed && quads[j].graph == DefaultGraph
      {
        if body[i].graph.In? {
          assert body[i] in body && body[i].graph != Unnamed;
          return Some(Containment.NamedGraphs);
        }
      }
      for i := 0 to |body|
        invariant forall j :: 0 <= j < i ==> body[j].triple.p != Vocab(LdpContains)
        invariant forall j :: 0 <= j < i ==> !Containment.IsMembership(quads[j].triple)
      {
        if body[i].triple.p == Vocab(LdpContains) { return Some(Containment.SetsContainment); }
      }
      var existing := Containment.Read(graphs, c);
      var merged := TriplesIn(quads, DefaultGraph) + (set t | t in existing && Containment.IsMembership(t));
      var _ := PutRdf(c, merged);
      EnsureContainer(c);
      refusal := None;
    }

    /** The container arm of `patch_impl`, creation included. */
    method PatchContainer(c: Containment.ContainerPath, patch: Patch, rows: seq<Binding>)
      returns (answer: Result<Containment.PatchAnswer, Containment.Conflict>)
      requires patch.conditions != [] ==> AnswersSelect(rows, patch.conditions, At(graphs, ResourceIri(c)))
      modifies this`graphs
      ensures answer.Ok? <==> Containment.Allowed(Containment.PatchContainer(c, patch))
      ensures answer.Err? ==> (answer.error == Containment.VariablePredicate <==>
                                exists p :: p in patch.insertions + patch.deletions && !p.p.PNamed?)
      ensures answer.Ok? ==> answer.value == Containment.PatchContainerStep(old(graphs), c, patch).1
      ensures graphs == Containment.Do(old(graphs), enc, Containment.PatchContainer(c, patch))
    {
      var conflict := Containment.PatchSetsContainment(patch, c);
      if conflict.Some? { return Err(conflict.value); }
      if !Present(graphs, ResourceIri(c)) {
        if patch.conditions != [] { return Ok(Containment.Answered(NoMapping)); }
        var triples := SubstituteAll(patch.insertions, map[]);
        if triples.None? || !triples.value.1 { return Ok(Containment.Answered(NoMapping)); }
        if patch.deletions != [] { return Ok(Containment.Answered(DeletionMissing)); }
        var _ := PutRdf(c, triples.value.0);
        EnsureContainer(c);
        answer := Ok(Containment.Created);
      } else {
        var patched := PatchGuarded(ResourceIri(c), patch, None, rows);
        if patched.Err? { return Ok(Containment.Failed); }
        EnsureContainer(c);
        answer := Ok(Containment.Answered(patched.value));
      }
    }

    /** `aux::put`: too large is refused before anything is built; the post-check only decides the answer. */
    method AuxPut(s: string, doc: seq<GroundTriple>) returns (outcome: Outcome)
      modifies this`graphs
      ensures DidAlone(old(graphs), old(objects), Op.AuxPut(s, doc), outcome)
    {
      SettleOne(graphs, objects, enc, Fresh(Op.AuxPut(s, doc)));
      if |doc| > MAX_AUX_TRIPLES { return TooLarge(|doc|); }
      var n, subject := AuxIri(s), ResourceIri(s);
      Update([ClearWhere(n, subject), InsertWhere(n, SetOf(doc), subject),
              InsertWhere(SysIri(n), {Marker(n)}, subject)]);
      GuardedOps(old(graphs), s, SetOf(doc));
      SettleOne(graphs, objects, enc, Unconfirmed(Op.AuxPut(s, doc), Wrote));
      outcome := if Present(graphs, n) then Wrote else SubjectMissing;
    }

    /** `delete_rdf`. */
    method DeleteAux(s: string) returns (outcome: Outcome)
      modifies this`graphs
      ensures DidAlone(old(graphs), old(objects), Op.DeleteAux(s), outcome)
    {
      var n := AuxIri(s);
      var existed := Present(graphs, n);
      SettleOne(graphs, objects, enc, Fresh(Op.DeleteAux(s)));
      SettleOne(graphs, objects, enc, Probed(Op.DeleteAux(s), existed));
      Update([DropGraph(n), DropGraph(SysIri(n))]);
      TwoOps(old(graphs), DropGraph(n), DropGraph(SysIri(n)));
      assert graphs == DeleteAuxUpdate(old(graphs), s);
      outcome := Deleted(existed);
    }

    /** `delete_subject`. */
    method DeleteSubject(r: string) returns (outcome: Outcome)
      modifies this
      ensures DidAlone(old(graphs), old(objects), Op.DeleteSubject(r), outcome)
    {
      var g := graphs;
      var rid, aid := ResourceIri(r), AuxIri(r);
      var existed := Present(g, rid);
      var listed := RegisteredShelves(g, r);
      var ops := DropAll(g, listed);
      DropFour(g, ops, rid, SysIri(rid), aid, SysIri(aid));
      ops := ops + [DropGraph(rid)] + [DropGraph(SysIri(rid))] + [DropGraph(aid)] + [DropGraph(SysIri(aid))];
      assert g - listed - {rid, SysIri(rid), aid, SysIri(aid)} == g - SubjectGraphs(r, listed);
      assert ApplyAll(g, ops) == g - SubjectGraphs(r, listed);
      match Parent(r) {
        case Some(parent) =>
          var unlink := DeleteData(ResourceIri(parent), {Member(ResourceIri(parent), rid)});
          ApplyOneMore(g, ops, unlink);
          ops := ops + [unlink];
        case None =>
      }
      Update(ops);
      SettleDeleteSubject(g, objects, enc, r);
      match Blob.KeyOf(enc, r) {
        case Some(key) => objects := objects - {key};
        case None =>
      }
      outcome := Deleted(existed);
    }

    /** `get_dataset`: the resource's own graph, then one read per registered shelf, under the name the
        registry gives it.
        A shelf without a name would be an error; a pod whose registries are intact has none. */
    method GetDataset(r: string) returns (answer: Result<Option<set<GroundQuad>>, StoreError>)
      requires ShelfInv(graphs)
      ensures answer == Ok(if Present(graphs, ResourceIri(r)) then Some(View(graphs, ResourceIri(r))) else None)
    {
      var rid := ResourceIri(r);
      if !Present(graphs, rid) { return Ok(None); }
      var quads := Lift(At(graphs, rid));
      var rest := RegisteredShelves(graphs, r);
      RegisteredAreShelvesOf(graphs, r);
      while rest != {}
        invariant rest <= RegisteredShelves(graphs, r)
        invariant forall q :: q in quads <==>
          q in View(graphs, rid)
          && (q.graph.Named? ==> ShelfIri(rid, q.graph.name) in RegisteredShelves(graphs, r) - rest)
        decreases rest
      {
        var key :| key in rest;
        var names := NamesOf(graphs, r, key);
        RegisteredIsNamed(graphs, r, key);
        if names == {} { return Err(Backend); }
        var name :| name in names;
        var shelf := set t | t in At(graphs, key) :: GroundQuad(t, Named(name));
        forall q: GroundQuad
          ensures q in quads + shelf <==>
            q in View(graphs, rid)
            && (q.graph.Named? ==> ShelfIri(rid, q.graph.name) in RegisteredShelves(graphs, r) - (rest - {key}))
        {
          ViewHas(graphs, rid, q);
        }
        quads := quads + shelf;
        rest := rest - {key};
      }
      forall q: GroundQuad
        ensures q in quads <==> q in View(graphs, rid)
      {
        ViewHas(graphs, rid, q);
        if q.graph.Named? { UnregisteredShelvesAreEmpty(graphs, r, q.graph.name); }
      }
      assert quads == View(graphs, rid);
      return Ok(Some(quads));
    }
  }

  lemma RegisteredIsNamed(g: Graphs, r: string, key: Iri)
    requires ShelfInv(g) && key in RegisteredShelves(g, r)
    ensures key.ShelfIri? && key.owner == ResourceIri(r)
    ensures NamesOf(g, r, key) == {key.name}
  {
    var names := NamesOf(g, r, key);
    var t :| t in At(g, SysIri(ResourceIri(r))) && t.p == Vocab(SysHasSubgraph) && t.o == Node(key);
    assert NameFact(key, key.name) in At(g, SysIri(ResourceIri(r)));
    assert NameFact(key, key.name).o.iri in names;
  }

  lemma DropFour(g: Graphs, ops: seq<UpdateOp>, a: Iri, b: Iri, c: Iri, d: Iri)
    ensures ApplyAll(g, ops + [DropGraph(a)] + [DropGraph(b)] + [DropGraph(c)] + [DropGraph(d)]) ==
        ApplyAll(g, ops) - {a, b, c, d}
  {
    ApplyOneMore(g, ops, DropGraph(a));
    ApplyOneMore(g, ops + [DropGraph(a)], DropGraph(b));
    ApplyOneMore(g, ops + [DropGraph(a)] + [DropGraph(b)], DropGraph(c));
    ApplyOneMore(g, ops + [DropGraph(a)] + [DropGraph(b)] + [DropGraph(c)], DropGraph(d));
  }

  lemma BlobOps(g: Graphs, ops: seq<UpdateOp>, r: string, media: string, listed: set<Iri>)
    requires ApplyAll(g, ops) == g - listed
    ensures var rid := ResourceIri(r);
            ApplyAll(g, ops + [DropGraph(rid)] + [DropGraph(SysIri(rid))]
                        + [InsertData(SysIri(rid), {Marker(rid), BinaryFact(rid), MediaTypeFact(rid, media)})])
              == PutBlobUpdate(g, r, media, listed)
  {
    var rid, sys := ResourceIri(r), SysIri(ResourceIri(r));
    var facts := {Marker(rid), BinaryFact(rid), MediaTypeFact(rid, media)};
    ApplyOneMore(g, ops, DropGraph(rid));
    ApplyOneMore(g, ops + [DropGraph(rid)], DropGraph(sys));
    ApplyOneMore(g, ops + [DropGraph(rid)] + [DropGraph(sys)], InsertData(sys, facts));
    DropsThenOne(g - listed, rid, sys, facts);
  }

  lemma DropsThenOne(g: Graphs, a: Iri, b: Iri, ts: set<GroundTriple>)
    ensures Apply(Apply(Apply(g, DropGraph(a)), DropGraph(b)), InsertData(b, ts)) == (g - {a, b}) + map[b := ts]
  {
    assert {} + ts == ts;
    assert g - {a} - {b} == g - {a, b};
  }

  lemma OneOp(g: Graphs, a: UpdateOp)
    ensures ApplyAll(g, [a]) == Apply(g, a)
  {
    assert [a] == [] + [a];
    ApplyOneMore(g, [], a);
  }

  lemma TwoOps(g: Graphs, a: UpdateOp, b: UpdateOp)
    ensures ApplyAll(g, [a, b]) == Apply(Apply(g, a), b)
  {
    assert [a, b] == [] + [a] + [b];
    ApplyOneMore(g, [], a);
    ApplyOneMore(g, [] + [a], b);
  }

  lemma ThreeOps(g: Graphs, a: UpdateOp, b: UpdateOp, c: UpdateOp)
    ensures ApplyAll(g, [a, b, c]) == Apply(Apply(Apply(g, a), b), c)
  {
    TwoOps(g, a, b);
    assert [a, b, c] == [a, b] + [c];
    ApplyOneMore(g, [a, b], c);
  }

  /** Drop, insert, mark: the graph holds exactly the new triples and the marker is there. */
  lemma ReplaceOps(g: Graphs, n: Iri, ts: set<GroundTriple>)
    ensures ApplyAll(g, [DropGraph(n), InsertData(n, ts), InsertData(SysIri(n), {Marker(n)})]) == Mark(g[n := ts], n)
  {
    ThreeOps(g, DropGraph(n), InsertData(n, ts), InsertData(SysIri(n), {Marker(n)}));
    assert {} + ts == ts;
    assert (g - {n})[n := ts] == g[n := ts];
  }

  /** The conditional triple of operations stands or falls as one: none of them changes the condition. */
  lemma GuardedOps(g: Graphs, s: string, ts: set<GroundTriple>)
    ensures var n, subject := AuxIri(s), ResourceIri(s);
            ApplyAll(g, [ClearWhere(n, subject), InsertWhere(n, ts, subject),
                         InsertWhere(SysIri(n), {Marker(n)}, subject)])
              == AuxPutUpdate(g, s, ts)
  {
    var n, subject := AuxIri(s), ResourceIri(s);
    ThreeOps(g, ClearWhere(n, subject), InsertWhere(n, ts, subject), InsertWhere(SysIri(n), {Marker(n)}, subject));
    if Present(g, subject) {
      assert {} + ts == ts;
      assert g[n := {}][n := ts] == g[n := ts];
    }
  }

  /** The shelf graphs a prefix of the shelves fills. */
  function Filled(shelves: seq<Shelf>): Graphs {
    if shelves == [] then map[]
    else Filled(shelves[..|shelves| - 1])[shelves[|shelves| - 1].key := SetOf(shelves[|shelves| - 1].ts)]
  }

  lemma FilledGrows(shelves: seq<Shelf>, i: nat)
    requires i < |shelves|
    ensures Filled(shelves[..i + 1]) == Filled(shelves[..i])[shelves[i].key := SetOf(shelves[i].ts)]
  {
    assert shelves[..i + 1][..i] == shelves[..i];
  }

  function Facts(rid: Iri, shelves: seq<Shelf>): set<GroundTriple> {
    (set s | s in shelves :: SubgraphFact(rid, s.key)) + (set s | s in shelves :: NameFact(s.key, s.name))
  }

  lemma FactsGrow(rid: Iri, shelves: seq<Shelf>, s: Shelf)
    ensures Facts(rid, shelves + [s]) == Facts(rid, shelves) + {SubgraphFact(rid, s.key), NameFact(s.key, s.name)}
  {
  }

  lemma KeysGrow(shelves: seq<Shelf>)
    requires shelves != []
    ensures KeysOf(shelves) == KeysOf(shelves[..|shelves| - 1]) + {shelves[|shelves| - 1].key}
  {
    assert shelves == shelves[..|shelves| - 1] + [shelves[|shelves| - 1]];
  }

  lemma {:induction false} FilledIs(shelves: seq<Shelf>)
    requires DistinctKeys(shelves)
    ensures Filled(shelves).Keys == KeysOf(shelves)
    ensures forall i :: 0 <= i < |shelves| ==>
        shelves[i].key in Filled(shelves) && Filled(shelves)[shelves[i].key] == SetOf(shelves[i].ts)
  {
    if shelves != [] {
      var init, last := shelves[..|shelves| - 1], shelves[|shelves| - 1];
      FilledIs(init);
      KeysGrow(shelves);
      forall i | 0 <= i < |init|
        ensures shelves[i].key in Filled(shelves) && Filled(shelves)[shelves[i].key] == SetOf(shelves[i].ts)
      {
        assert shelves[i] == init[i] && shelves[i].key != last.key;
        assert Filled(shelves)[shelves[i].key] == Filled(init)[init[i].key];
      }
    }
  }

  lemma FilledIsTheShelves(r: string, quads: seq<GroundQuad>, default_: seq<GroundTriple>, shelves: seq<Shelf>)
    requires Bucketed(r, quads, default_, shelves)
    ensures Filled(shelves) == (map k | k in ShelfKeys(r, quads) && k.ShelfIri? :: TriplesIn(quads, Named(k.name)))
    ensures ResourceIri(r) !in Filled(shelves) && SysIri(ResourceIri(r)) !in Filled(shelves)
  {
    FilledIs(shelves);
    KeysAreShelfKeys(r, quads, default_, shelves);
    forall k | k in Filled(shelves)
      ensures k.ShelfIri? && Filled(shelves)[k] == TriplesIn(quads, Named(k.name))
    {
      var i :| 0 <= i < |shelves| && shelves[i].key == k;
      assert ShelfOf(r, quads, shelves[i]);
    }
  }

  /** The buckets hold what the update is specified to write. */
  lemma BucketsAreTheUpdate(g: Graphs, r: string, quads: seq<GroundQuad>, media: string, default_: seq<GroundTriple>,
                            shelves: seq<Shelf>, facts: set<GroundTriple>)
    requires Bucketed(r, quads, default_, shelves)
    requires facts == {Marker(ResourceIri(r)), MediaTypeFact(ResourceIri(r), media)} + Facts(ResourceIri(r), shelves)
    ensures var rid, listed := ResourceIri(r), RegisteredShelves(g, r);
            ((g - listed - KeysOf(shelves) - {rid, SysIri(rid)})[rid := SetOf(default_)]
             + Filled(shelves))[SysIri(rid) := facts]
              == PutDatasetUpdate(g, r, quads, media, listed)
  {
    var rid, listed := ResourceIri(r), RegisteredShelves(g, r);
    KeysAreShelfKeys(r, quads, default_, shelves);
    FilledIsTheShelves(r, quads, default_, shelves);
    assert forall i :: 0 <= i < |shelves| ==> ShelfOf(r, quads, shelves[i]);
    FactsAreRegistry(r, quads, media, shelves);
    WriteOrder(g - listed - KeysOf(shelves) - {rid, SysIri(rid)}, rid, SetOf(default_), Filled(shelves), facts);
  }

  /** Writing the default graph, the shelves and the facts in turn is writing them at once. */
  lemma WriteOrder(g: Graphs, rid: Iri, ts: set<GroundTriple>, filled: Graphs, facts: set<GroundTriple>)
    requires rid !in filled && SysIri(rid) !in filled
    ensures (g[rid := ts] + filled)[SysIri(rid) := facts] == g + filled + map[rid := ts, SysIri(rid) := facts]
  {
  }

  lemma KeysAreShelfKeys(r: string, quads: seq<GroundQuad>, default_: seq<GroundTriple>, shelves: seq<Shelf>)
    requires Bucketed(r, quads, default_, shelves)
    ensures KeysOf(shelves) == ShelfKeys(r, quads)
  {
    ShelfKeysAreShelves(r, quads);
    forall k | k in KeysOf(shelves)
      ensures k in ShelfKeys(r, quads)
    {
      var i :| 0 <= i < |shelves| && shelves[i].key == k;
      assert ShelfOf(r, quads, shelves[i]);
      assert shelves[i].ts[0] in SetOf(shelves[i].ts);
      var q :| q in quads && q.graph == Named(shelves[i].name);
    }
    forall k | k in ShelfKeys(r, quads)
      ensures k in KeysOf(shelves)
    {
      var q :| q in quads && q.graph.Named? && k == ShelfIri(ResourceIri(r), q.graph.name);
      assert q.triple in TriplesIn(quads, Named(q.graph.name));
      var i :| 0 <= i < |shelves| && shelves[i].name == q.graph.name;
      assert ShelfOf(r, quads, shelves[i]);
      assert shelves[i] in shelves;
    }
  }

  lemma FactsAreRegistry(r: string, quads: seq<GroundQuad>, media: string, shelves: seq<Shelf>)
    requires KeysOf(shelves) == ShelfKeys(r, quads)
    requires forall i :: 0 <= i < |shelves| ==> shelves[i].key == ShelfIri(ResourceIri(r), shelves[i].name)
    ensures {Marker(ResourceIri(r)), MediaTypeFact(ResourceIri(r), media)} + Facts(ResourceIri(r), shelves) ==
        Registry(r, quads, media)
  {
    var rid := ResourceIri(r);
    assert (set s | s in shelves :: SubgraphFact(rid, s.key)) ==
      (set k | k in ShelfKeys(r, quads) :: SubgraphFact(rid, k)) by {
      forall s | s in shelves ensures s.key in ShelfKeys(r, quads) {}
    }
    assert (set s | s in shelves :: NameFact(s.key, s.name)) ==
      (set k | k in ShelfKeys(r, quads) && k.ShelfIri? :: NameFact(k, k.name)) by {
      forall s | s in shelves ensures s.key in ShelfKeys(r, quads) && s.key.ShelfIri? && s.key.name == s.name {}
    }
  }
}

/**
 What the answers of `aux::put` and `aux::patch` are worth under interference (src/aux.rs), and
 when an auxiliary can come to hold content without its marker. Each of these fails for some run
 of other clients; each is stated with the exact condition under which it does not.
 */
module Races {
  import opened Wrappers
  import opened Terms
  import opened Patches
  import opened Storage
  import opened Protocol
  import Blob

  // ----- the steps that reach an auxiliary at all -----

  /** The client's next step writes or drops the auxiliary of `s`. */
  predicate Touches(cl: Client, s: string) {
    match cl
    case Fresh(AuxPut(x, _)) => x == s
    case Asked(AuxPatch(x, _), _, _) => x == s
    case Probed(DeleteAux(x), _) => x == s
    case Listed(DeleteSubject(r), _, _) => r == s
    case _ => false
  }

  ghost predicate SameAux(g: Graphs, h: Graphs, s: string) {
    At(h, AuxIri(s)) == At(g, AuxIri(s)) && At(h, SysIri(AuxIri(s))) == At(g, SysIri(AuxIri(s)))
  }

  lemma UntouchedAux(g: Graphs, objects: map<string, Bytes>, enc: Blob.Encoding, cl: Client, s: string)
    requires RemembersShelves(cl) && !Touches(cl, s)
    ensures SameAux(g, Move(g, objects, enc, cl).0, s)
  {
    if cl.Listed? {
      ListedLeavesAux(g, objects, enc, cl, s);
    } else if cl.ObjectStored? && cl.op.PutBlob? {
      PutBlobLeavesAux(g, cl.op.r, cl.op.media, cl.listed, s);
    }
  }

  lemma ListedLeavesAux(g: Graphs, objects: map<string, Bytes>, enc: Blob.Encoding, cl: Client, s: string)
    requires cl.Listed? && RemembersShelves(cl) && !Touches(cl, s)
    ensures SameAux(g, Move(g, objects, enc, cl).0, s)
  {
    if cl.op.PutDataset? {
      PutDatasetFrame(g, cl.op.r, cl.op.quads, cl.op.media, cl.listed);
    } else if cl.op.DeleteSubject? {
      DeleteSubjectAt(g, cl.op.r, cl.listed, AuxIri(s));
      DeleteSubjectAt(g, cl.op.r, cl.listed, SysIri(AuxIri(s)));
    }
  }

  // ----- runs in which one client waits -----

  ghost predicate Waits(actions: seq<Action>, me: nat) { Advance(me) !in actions && Crash(me) !in actions }

  /** What the client is told when it takes its next step after `meanwhile`. */
  ghost function Told(w: World, meanwhile: seq<Action>, me: nat): Option<Outcome> {
    var last := Do(Run(w, meanwhile), Advance(me));
    if me in last.clients && last.clients[me].Finished? then Some(last.clients[me].outcome) else None
  }

  lemma RunOneMore(w: World, actions: seq<Action>, a: Action)
    ensures Run(w, actions + [a]) == Do(Run(w, actions), a)
  {
    assert (actions + [a])[..|actions|] == actions;
  }

  ghost predicate Waiting(w: World, me: nat) { me in w.clients && !w.clients[me].Finished? }

  lemma {:induction false} WaitingClientKeepsItsPlace(w: World, actions: seq<Action>, me: nat)
    requires Waiting(w, me) && Waits(actions, me)
    ensures me in Run(w, actions).clients && Run(w, actions).clients[me] == w.clients[me]
  {
    if actions != [] {
      WaitingClientKeepsItsPlace(w, actions[..|actions| - 1], me);
    }
  }

  lemma {:induction false} BoundOf(ids: set<nat>) returns (b: nat)
    ensures forall i :: i in ids ==> i < b
  {
    b := 0;
    if ids != {} {
      var i :| i in ids;
      var c := BoundOf(ids - {i});
      b := if c <= i then i + 1 else c;
      assert forall x :: x in ids ==> x == i || x in ids - {i};
    }
  }

  /** From any state, two newcomers can bring a subject and its auxiliary into being while a client waits. */
  lemma SubjectAndAuxiliaryCanComeBack(w: World, me: nat, s: string) returns (meanwhile: seq<Action>)
    requires Waiting(w, me)
    ensures Waits(meanwhile, me) && Present(Run(w, meanwhile).graphs, AuxIri(s))
    ensures me in Run(w, meanwhile).clients && Run(w, meanwhile).clients[me] == w.clients[me]
  {
    var i := BoundOf(w.clients.Keys);
    var j := i + 1;
    assert i !in w.clients && j !in w.clients && i != me && j != me;
    var first, second := Newcomer(i, PutRdf(s, {})), Newcomer(j, AuxPut(s, []));
    meanwhile := first + second;
    NewcomerWrites(w, [], i, PutRdf(s, {}));
    assert [] + first == first;
    assert Present(Run(w, first).graphs, ResourceIri(s));
    NewcomerWrites(w, first, j, AuxPut(s, []));
    WaitingClientKeepsItsPlace(w, meanwhile, me);
  }

  /** A client that begins an operation and takes its first step. */
  function Newcomer(i: nat, op: Op): seq<Action> { [Begin(i, op), Advance(i)] }

  lemma NewcomerWrites(w: World, before: seq<Action>, i: nat, op: Op)
    requires i !in Run(w, before).clients
    ensures var v, x := Run(w, before), Run(w, before + Newcomer(i, op));
            x.graphs == FirstMove(v.graphs, v.objects, v.enc, op).0 && x.clients.Keys == v.clients.Keys + {i}
  {
    RunOneMore(w, before, Begin(i, op));
    RunOneMore(w, before + [Begin(i, op)], Advance(i));
    assert before + [Begin(i, op)] + [Advance(i)] == before + Newcomer(i, op);
  }

  // ----- Ok from aux::put -----

  ghost predicate AboutToPut(w: World, me: nat) {
    me in w.clients && w.clients[me].Fresh? && w.clients[me].op.AuxPut? && |w.clients[me].op.doc| <= MAX_AUX_TRIPLES
  }

  /** The client's own update took effect: its document is in place, and marked. */
  ghost predicate PutTookEffect(w: World, me: nat)
    requires AboutToPut(w, me)
  {
    var n, h := AuxIri(w.clients[me].op.subject), Do(w, Advance(me)).graphs;
    Present(h, n) && At(h, n) == SetOf(w.clients[me].op.doc)
  }

  ghost predicate OkIsReliable(w: World, me: nat)
    requires AboutToPut(w, me)
  {
    forall meanwhile | Waits(meanwhile, me) ::
      Told(Do(w, Advance(me)), meanwhile, me) == Some(Wrote) ==> PutTookEffect(w, me)
  }

  /** Whatever others do before its post-check, a client told `Ok` did write its document, if and only if
      the subject was present when it wrote. Otherwise others can make the auxiliary appear, and `Ok`
      answers for theirs. */
  lemma OkIsReliableIffSubjectPresent(w: World, me: nat)
    requires Inv(w) && AboutToPut(w, me)
    ensures OkIsReliable(w, me) <==> Present(w.graphs, ResourceIri(w.clients[me].op.subject))
  {
    var s, v := w.clients[me].op.subject, Do(w, Advance(me));
    if !Present(w.graphs, ResourceIri(s)) {
      assert !PutTookEffect(w, me);
      var meanwhile := SubjectAndAuxiliaryCanComeBack(v, me, s);
      assert Told(v, meanwhile, me) == Some(Wrote);
    }
  }

  /** As long as `n` more steps leave the auxiliary of `s` alone. */
  ghost predicate LeavesAlone(w: World, actions: seq<Action>, s: string) {
    forall k :: 0 <= k < |actions| && actions[k].Advance? && actions[k].id in Run(w, actions[..k]).clients ==>
      !Touches(Run(w, actions[..k]).clients[actions[k].id], s)
  }

  lemma {:induction false} LeftAloneStaysSame(w: World, actions: seq<Action>, s: string)
    requires Inv(w) && LeavesAlone(w, actions, s)
    ensures SameAux(w.graphs, Run(w, actions).graphs, s)
  {
    if actions != [] {
      var init, last := actions[..|actions| - 1], actions[|actions| - 1];
      assert forall k :: 0 <= k < |init| ==> init[..k] == actions[..k];
      LeftAloneStaysSame(w, init, s);
      AuxiliariesNeverOutliveSubjects(w, init);
      var v := Run(w, init);
      if last.Advance? && last.id in v.clients { UntouchedAux(v.graphs, v.objects, v.enc, v.clients[last.id], s); }
    }
  }

  /** If nobody else reaches the auxiliary before the post-check, `Ok` is told exactly when the subject was
      present at the write, and the auxiliary then holds exactly the client's document. */
  lemma OkMeansTheDocumentIsThere(w: World, me: nat, meanwhile: seq<Action>)
    requires Inv(w) && AboutToPut(w, me) && Waits(meanwhile, me)
    requires LeavesAlone(Do(w, Advance(me)), meanwhile, w.clients[me].op.subject)
    ensures var s, v := w.clients[me].op.subject, Do(w, Advance(me));
            (Told(v, meanwhile, me) == Some(Wrote) <==> Present(w.graphs, ResourceIri(s)))
            && (Told(v, meanwhile, me) == Some(Wrote) ==>
                  At(Do(Run(v, meanwhile), Advance(me)).graphs, AuxIri(s)) == SetOf(w.clients[me].op.doc))
  {
    var s, v := w.clients[me].op.subject, Do(w, Advance(me));
    ActionKeeps(w, Advance(me));
    WaitingClientKeepsItsPlace(v, meanwhile, me);
    LeftAloneStaysSame(v, meanwhile, s);
  }

  // ----- Applied from aux::patch -----

  /** The client has seen enough to answer `Applied` and is about to write. */
  ghost predicate AboutToPatch(w: World, me: nat) {
    me in w.clients && w.clients[me].Asked? && w.clients[me].op.AuxPatch?
    && Writable(w.clients[me].op.patch, w.clients[me].m)
    && Reported(w.clients[me].op.patch, w.clients[me].before) == Applied
  }

  /** The conditional write finds its condition true: the subject is there, and so is all it deletes. */
  ghost predicate WriteMatches(w: World, me: nat)
    requires AboutToPatch(w, me)
  {
    var cl := w.clients[me];
    Present(w.graphs, ResourceIri(cl.op.subject))
    && There(DeletionSet(cl.op.patch.deletions, cl.m), At(w.graphs, AuxIri(cl.op.subject)))
  }

  /** What the auxiliary would hold with the client's deletions taken out and its insertions put in. */
  function Changed(w: World, me: nat): set<GroundTriple>
    requires AboutToPatch(w, me)
  {
    var cl := w.clients[me];
    (At(w.graphs, AuxIri(cl.op.subject)) - Substitute(cl.op.patch.deletions, cl.m))
    + Substitute(cl.op.patch.insertions, cl.m)
  }

  /** The client's own write took effect: right after it the auxiliary is the old one with the change made. */
  ghost predicate PatchTookEffect(w: World, me: nat)
    requires AboutToPatch(w, me)
  {
    At(Do(w, Advance(me)).graphs, AuxIri(w.clients[me].op.subject)) == Changed(w, me)
  }

  /** The change is none: what it deletes is not there or comes back, and what it inserts is there already. */
  predicate ChangesNothing(w: World, me: nat)
    requires AboutToPatch(w, me)
  {
    Changed(w, me) == At(w.graphs, AuxIri(w.clients[me].op.subject))
  }

  ghost predicate AppliedIsReliable(w: World, me: nat)
    requires AboutToPatch(w, me)
  {
    forall meanwhile | Waits(meanwhile, me) ::
      Told(Do(w, Advance(me)), meanwhile, me) == Some(Patched(Applied)) ==> PatchTookEffect(w, me)
  }

  /** The same hole: the second look of `aux::patch` sees an auxiliary, not whose. Whatever others do, a client
      told `Applied` did make its change, if and only if its write found its condition true or there was
      nothing to change. */
  lemma AppliedIsReliableIffWriteMatches(w: World, me: nat)
    requires AboutToPatch(w, me)
    ensures AppliedIsReliable(w, me) <==> WriteMatches(w, me) || ChangesNothing(w, me)
    ensures var n := AuxIri(w.clients[me].op.subject);
            At(Do(w, Advance(me)).graphs, n) == if WriteMatches(w, me) then Changed(w, me) else At(w.graphs, n)
  {
    var s, v := w.clients[me].op.subject, Do(w, Advance(me));
    if !WriteMatches(w, me) {
      var meanwhile := SubjectAndAuxiliaryCanComeBack(v, me, s);
      assert Told(v, meanwhile, me) == Some(Patched(Applied));
    }
  }

  // ----- every answer, and what it was read off -----

  /** What awaits its post-check is a write's answer or a patch's verdict. */
  predicate AwaitsAVerdict(cl: Client) { cl.Unconfirmed? ==> cl.outcome == Wrote || cl.outcome.Patched? }

  ghost predicate AwaitVerdicts(w: World) { forall id :: id in w.clients ==> AwaitsAVerdict(w.clients[id]) }

  lemma MoveAwaitsAVerdict(g: Graphs, objects: map<string, Bytes>, enc: Blob.Encoding, cl: Client)
    requires AwaitsAVerdict(cl)
    ensures AwaitsAVerdict(Move(g, objects, enc, cl).2)
  {
  }

  lemma {:induction false} RunsAwaitVerdicts(w: World, actions: seq<Action>)
    requires AwaitVerdicts(w)
    ensures AwaitVerdicts(Run(w, actions))
  {
    if actions != [] {
      RunsAwaitVerdicts(w, actions[..|actions| - 1]);
      var v, a := Run(w, actions[..|actions| - 1]), actions[|actions| - 1];
      if a.Advance? && a.id in v.clients { MoveAwaitsAVerdict(v.graphs, v.objects, v.enc, v.clients[a.id]); }
    }
  }

  /** Told on an auxiliary: `Ok` or a verdict only with the auxiliary there to be seen, that it is missing only
      with its subject there, that its subject is missing only with one of the two gone. */
  predicate RestsOn(told: Outcome, g: Graphs, s: string) {
    match told
    case Wrote => Present(g, AuxIri(s))
    case Patched(_) => Present(g, AuxIri(s))
    case Missing => Present(g, ResourceIri(s))
    case SubjectMissing => !Present(g, ResourceIri(s)) || !Present(g, AuxIri(s))
    case _ => true
  }

  lemma FinishingMove(g: Graphs, objects: map<string, Bytes>, enc: Blob.Encoding, cl: Client)
    requires !cl.Finished? && (cl.op.AuxPut? || cl.op.AuxPatch?) && AwaitsAVerdict(cl)
    ensures var next := Move(g, objects, enc, cl).2;
            next.Finished? ==>
              RestsOn(next.outcome, g, cl.op.subject)
              && (cl.Unconfirmed? ==> next.outcome == SubjectMissing || next.outcome == cl.outcome)
  {
  }

  /** In every run, whatever the verdict, an operation on an auxiliary answers by what its last step sees: the
      post-check of a write replaces its answer by `SubjectMissing` or lets it stand. */
  lemma TheLastLookDecides(w: World, actions: seq<Action>, me: nat)
    requires AwaitVerdicts(w)
    requires var v := Run(w, actions); Waiting(v, me) && (v.clients[me].op.AuxPut? || v.clients[me].op.AuxPatch?)
    ensures var v := Run(w, actions);
            Told(w, actions, me).Some? ==>
              RestsOn(Told(w, actions, me).value, v.graphs, v.clients[me].op.subject)
              && (v.clients[me].Unconfirmed? ==> Told(w, actions, me).value in {SubjectMissing, v.clients[me].outcome})
  {
    RunsAwaitVerdicts(w, actions);
    var v := Run(w, actions);
    FinishingMove(v.graphs, v.objects, v.enc, v.clients[me]);
  }

  // ----- content without a marker -----

  predicate MarkedOrEmpty(g: Graphs, s: string) { At(g, AuxIri(s)) != {} ==> Present(g, AuxIri(s)) }

  /** A patch past its checks that finds its auxiliary gone, the subject still there, nothing to delete
      and something to insert. */
  predicate WritesUnmarked(g: Graphs, cl: Client, s: string) {
    cl.Asked? && cl.op.AuxPatch? && cl.op.subject == s && Writable(cl.op.patch, cl.m)
    && !Present(g, AuxIri(s)) && Present(g, ResourceIri(s))
    && cl.op.patch.deletions == [] && Substitute(cl.op.patch.insertions, cl.m) != {}
  }

  /** One action leaves an auxiliary with content and no marker if and only if it is that write. */
  lemma UnmarkedContentIffPatchOutlivesAux(w: World, a: Action, s: string)
    requires Inv(w) && MarkedOrEmpty(w.graphs, s)
    ensures !MarkedOrEmpty(Do(w, a).graphs, s) <==>
              a.Advance? && a.id in w.clients && WritesUnmarked(w.graphs, w.clients[a.id], s)
  {
    if a.Advance? && a.id in w.clients {
      var cl := w.clients[a.id];
      if !Touches(cl, s) {
        UntouchedAux(w.graphs, w.objects, w.enc, cl, s);
      } else if cl.Asked? {
        PatchMarks(w.graphs, w.objects, w.enc, cl, s);
      } else if cl.Listed? {
        DeleteSubjectAt(w.graphs, s, cl.listed, AuxIri(s));
      }
    }
  }

  lemma PatchMarks(g: Graphs, objects: map<string, Bytes>, enc: Blob.Encoding, cl: Client, s: string)
    requires cl.Asked? && cl.op.AuxPatch? && cl.op.subject == s && MarkedOrEmpty(g, s)
    ensures !MarkedOrEmpty(Move(g, objects, enc, cl).0, s) <==> WritesUnmarked(g, cl, s)
  {
    var d := DeletionSet(cl.op.patch.deletions, cl.m);
    assert There(d, {}) <==> cl.op.patch.deletions == [] by {
      if cl.op.patch.deletions != [] && d.Some? {
        assert cl.op.patch.deletions[0] in cl.op.patch.deletions;
        assert Ground(cl.op.patch.deletions[0], cl.m).value in d.value;
      }
    }
  }

  /** Without such a write a run keeps every auxiliary's content under its own marker. */
  lemma {:induction false} MarkersKeptWithoutIt(w: World, actions: seq<Action>, s: string)
    requires Inv(w) && MarkedOrEmpty(w.graphs, s)
    requires forall k :: 0 <= k < |actions| && actions[k].Advance? && actions[k].id in Run(w, actions[..k]).clients ==>
               !WritesUnmarked(Run(w, actions[..k]).graphs, Run(w, actions[..k]).clients[actions[k].id], s)
    ensures MarkedOrEmpty(Run(w, actions).graphs, s)
  {
    if actions != [] {
      var init := actions[..|actions| - 1];
      assert forall k :: 0 <= k < |init| ==> init[..k] == actions[..k];
      MarkersKeptWithoutIt(w, init, s);
      AuxiliariesNeverOutliveSubjects(w, init);
      UnmarkedContentIffPatchOutlivesAux(Run(w, init), actions[|actions| - 1], s);
    }
  }
}

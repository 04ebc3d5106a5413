/**
 From parsed N3 to a shape-valid patch (src/patch.rs): finding the patch resource and its
 formulae, and renumbering client names. Input is what the N3 parser yields, a list of quads.
 */
module PatchParse {
  import opened Wrappers
  import opened Terms
  import opened Patches
  import opened Storage

  /** A variable's name is what follows its `?`. N3 lets it hold colons and begin with an underscore. */
  datatype N3Term = NNamed(iri: Iri) | NLit(literal: Literal) | NVar(name: string) | NBlank(id: string) | NTriple
  datatype N3Graph = NDefault | NFormula(id: string) | NOther(iri: Iri)
  datatype N3Quad = N3Quad(s: N3Term, p: N3Term, o: N3Term, graph: N3Graph)

  datatype Fault =
    | NoPatch | SeveralPatches | NotAFormula | SeveralFormulae
    | LiteralSubject | LiteralPredicate | UnboundVariable | BlankNodeHere
  datatype PatchError = Shape(fault: Fault) | Reserved | Rdf12Term

  const SOLID_INSERT_DELETE_PATCH := OtherIri("http://www.w3.org/ns/solid/terms#InsertDeletePatch")
  const SOLID_WHERE := OtherIri("http://www.w3.org/ns/solid/terms#where")
  const SOLID_DELETES := OtherIri("http://www.w3.org/ns/solid/terms#deletes")
  const SOLID_INSERTS := OtherIri("http://www.w3.org/ns/solid/terms#inserts")

  // ----- finding the patch and its formulae -----

  predicate DeclaresPatch(q: N3Quad) {
    q.graph == NDefault && q.p == NNamed(Vocab(RdfType)) && q.o == NNamed(SOLID_INSERT_DELETE_PATCH)
  }

  /** The patch resource: the one subject typed as a patch, however often. */
  ghost predicate IsPatchSubject(quads: seq<N3Quad>, s: N3Term) {
    (exists q :: q in quads && DeclaresPatch(q) && q.s == s)
    && forall q :: q in quads && DeclaresPatch(q) ==> q.s == s
  }

  method PatchSubject(quads: seq<N3Quad>) returns (r: Result<N3Term, PatchError>)
    ensures r.Ok? ==> IsPatchSubject(quads, r.value)
    ensures r == Err(Shape(NoPatch)) <==> forall q :: q in quads ==> !DeclaresPatch(q)
    ensures r.Err? ==> r.error == Shape(NoPatch) || r.error == Shape(SeveralPatches)
    ensures r.Err? ==> forall s :: !IsPatchSubject(quads, s)
  {
    var found: seq<N3Term> := [];
    for i := 0 to |quads|
      invariant forall s :: s in found <==> exists q :: q in quads[..i] && DeclaresPatch(q) && q.s == s
      invariant forall j, k :: 0 <= j < k < |found| ==> found[j] != found[k]
    {
      assert quads[..i + 1] == quads[..i] + [quads[i]];
      if DeclaresPatch(quads[i]) && quads[i].s !in found { found := found + [quads[i].s]; }
    }
    assert quads[..|quads|] == quads;
    if |found| == 1 {
      forall q | q in quads && DeclaresPatch(q) ensures q.s == found[0] { assert q.s in found; }
      assert found[0] in found;
      return Ok(found[0]);
    } else if |found| == 0 {
      forall q | q in quads ensures !DeclaresPatch(q) { assert DeclaresPatch(q) ==> q.s in found; }
      return Err(Shape(NoPatch));
    } else {
      assert found[0] in found && found[1] in found && found[0] != found[1];
      return Err(Shape(SeveralPatches));
    }
  }

  predicate NamesFormula(q: N3Quad, subject: N3Term, predicate_: Iri) {
    q.graph == NDefault && q.s == subject && q.p == NNamed(predicate_)
  }

  function Objects(quads: seq<N3Quad>, subject: N3Term, predicate_: Iri): seq<N3Term> {
    if quads == [] then []
    else
      var q := quads[|quads| - 1];
      Objects(quads[..|quads| - 1], subject, predicate_) + (if NamesFormula(q, subject, predicate_) then [q.o] else [])
  }

  predicate OccursAsGraph(quads: seq<N3Quad>, b: string) { exists q :: q in quads && q.graph == NFormula(b) }

  /** What `formula` answers: at most one object, and that one names a formula of this document. */
  function FormulaOf(quads: seq<N3Quad>, subject: N3Term, predicate_: Iri): Result<Option<string>, PatchError> {
    var found := Objects(quads, subject, predicate_);
    if |found| == 0 then Ok(None)
    else if |found| > 1 then Err(Shape(SeveralFormulae))
    else if found[0].NBlank? && OccursAsGraph(quads, found[0].id) then Ok(Some(found[0].id))
    else Err(Shape(NotAFormula))
  }

  /** The default graph says at position `k` that `subject` has `predicate_`. */
  predicate SaysAt(quads: seq<N3Quad>, k: int, subject: N3Term, predicate_: Iri) {
    0 <= k < |quads| && quads[k].graph == NDefault && quads[k].s == subject && quads[k].p == NNamed(predicate_)
  }

  /** It says so there and nowhere else. */
  predicate SaysOnlyAt(quads: seq<N3Quad>, k: int, subject: N3Term, predicate_: Iri) {
    SaysAt(quads, k, subject, predicate_)
    && forall j | 0 <= j < |quads| :: SaysAt(quads, j, subject, predicate_) ==> j == k
  }

  predicate NamesAGraph(quads: seq<N3Quad>, b: string) { exists k :: 0 <= k < |quads| && quads[k].graph == NFormula(b) }

  ghost predicate HasFormula(quads: seq<N3Quad>, subject: N3Term, predicate_: Iri, b: string) {
    exists k :: SaysOnlyAt(quads, k, subject, predicate_) && quads[k].o == NBlank(b) && NamesAGraph(quads, b)
  }

  lemma {:induction false} NoObjects(quads: seq<N3Quad>, subject: N3Term, predicate_: Iri)
    requires forall k :: !SaysAt(quads, k, subject, predicate_)
    ensures Objects(quads, subject, predicate_) == []
  {
    if quads != [] {
      var init, n := quads[..|quads| - 1], |quads| - 1;
      assert !SaysAt(quads, n, subject, predicate_);
      forall k ensures !SaysAt(init, k, subject, predicate_) { assert !SaysAt(quads, k, subject, predicate_); }
      NoObjects(init, subject, predicate_);
    }
  }

  lemma {:induction false} OneObject(quads: seq<N3Quad>, k: int, subject: N3Term, predicate_: Iri)
    requires SaysOnlyAt(quads, k, subject, predicate_)
    ensures Objects(quads, subject, predicate_) == [quads[k].o]
  {
    var init, n := quads[..|quads| - 1], |quads| - 1;
    assert forall j :: SaysAt(init, j, subject, predicate_) ==> SaysAt(quads, j, subject, predicate_);
    if k == n {
      NoObjects(init, subject, predicate_);
    } else {
      assert SaysOnlyAt(init, k, subject, predicate_);
      OneObject(init, k, subject, predicate_);
      assert !SaysAt(quads, n, subject, predicate_);
    }
  }

  lemma {:induction false} SomeObject(quads: seq<N3Quad>, k: int, subject: N3Term, predicate_: Iri)
    requires SaysAt(quads, k, subject, predicate_)
    ensures |Objects(quads, subject, predicate_)| > 0
  {
    var init, n := quads[..|quads| - 1], |quads| - 1;
    if k < n { SomeObject(init, k, subject, predicate_); }
  }

  lemma {:induction false} ManyObjects(quads: seq<N3Quad>, j: int, k: int, subject: N3Term, predicate_: Iri)
    requires j < k && SaysAt(quads, j, subject, predicate_) && SaysAt(quads, k, subject, predicate_)
    ensures |Objects(quads, subject, predicate_)| > 1
  {
    var init, n := quads[..|quads| - 1], |quads| - 1;
    if k < n { ManyObjects(init, j, k, subject, predicate_); } else { SomeObject(init, j, subject, predicate_); }
  }

  ghost predicate SaysTwice(quads: seq<N3Quad>, subject: N3Term, predicate_: Iri) {
    exists j, k :: j < k && SaysAt(quads, j, subject, predicate_) && SaysAt(quads, k, subject, predicate_)
  }

  /** Each answer, by what the document says: nothing of the kind; twice; once, of a graph of its own; or once, of
      something else. */
  lemma FormulaIsExact(quads: seq<N3Quad>, subject: N3Term, predicate_: Iri)
    ensures var r := FormulaOf(quads, subject, predicate_);
            (r == Ok(None) <==> forall k :: !SaysAt(quads, k, subject, predicate_))
            && (forall b :: r == Ok(Some(b)) <==> HasFormula(quads, subject, predicate_, b))
            && (r == Err(Shape(SeveralFormulae)) <==> SaysTwice(quads, subject, predicate_))
            && (r == Err(Shape(NotAFormula)) <==>
                  (exists k :: SaysOnlyAt(quads, k, subject, predicate_))
                  && forall b :: !HasFormula(quads, subject, predicate_, b))
  {
    if forall k :: !SaysAt(quads, k, subject, predicate_) {
      NoObjects(quads, subject, predicate_);
    } else if SaysTwice(quads, subject, predicate_) {
      var j, k :| j < k && SaysAt(quads, j, subject, predicate_) && SaysAt(quads, k, subject, predicate_);
      ManyObjects(quads, j, k, subject, predicate_);
    } else {
      var k :| SaysAt(quads, k, subject, predicate_);
      assert SaysOnlyAt(quads, k, subject, predicate_);
      OneObject(quads, k, subject, predicate_);
      forall b ensures OccursAsGraph(quads, b) <==> NamesAGraph(quads, b) {}
      assert forall b :: HasFormula(quads, subject, predicate_, b) <==>
          quads[k].o == NBlank(b) && NamesAGraph(quads, b);
    }
  }

  method Formula(quads: seq<N3Quad>, subject: N3Term, predicate_: Iri) returns (r: Result<Option<string>, PatchError>)
    ensures r == FormulaOf(quads, subject, predicate_)
  {
    var found: seq<N3Term> := [];
    for i := 0 to |quads|
      invariant found == Objects(quads[..i], subject, predicate_)
    {
      assert quads[..i + 1][..i] == quads[..i];
      if NamesFormula(quads[i], subject, predicate_) { found := found + [quads[i].o]; }
    }
    assert quads[..|quads|] == quads;
    if |found| == 0 { return Ok(None); }
    if |found| > 1 { return Err(Shape(SeveralFormulae)); }
    if found[0].NBlank? {
      var there := false;
      for i := 0 to |quads|
        invariant there <==> exists q :: q in quads[..i] && q.graph == NFormula(found[0].id)
      {
        assert quads[..i + 1] == quads[..i] + [quads[i]];
        there := there || quads[i].graph == NFormula(found[0].id);
      }
      if there { return Ok(Some(found[0].id)); }
    }
    return Err(Shape(NotAFormula));
  }

  // ----- renumbering -----

  predicate IsName(t: N3Term) { t.NVar? || t.NBlank? }

  /** The string a name is filed under: a condition's blank node has its prefix, which a variable may have too. */
  function Key(t: N3Term): string {
    match t case NVar(v) => v case NBlank(b) => "_:" + b case _ => ""
  }

  /** The variable is spelled the way the blank node is filed: `?_:b` beside `_:b`. */
  predicate Disguised(v: N3Term, b: N3Term) { v.NVar? && b.NBlank? && v.name == "_:" + b.id }

  /** Two names share a key if and only if they are one name, or a variable and the blank node it is spelled like. */
  lemma SameKeyIffSameOrDisguised(a: N3Term, b: N3Term)
    requires IsName(a) && IsName(b)
    ensures Key(a) == Key(b) <==> a == b || Disguised(a, b) || Disguised(b, a)
  {
    assert a.NBlank? ==> Key(a)[2..] == a.id;
    assert b.NBlank? ==> Key(b)[2..] == b.id;
  }

  ghost predicate Holds(names: map<string, nat>, i: nat) { exists k :: k in names && names[k] == i }

  /** Indices given out densely, one per name. */
  ghost predicate Dense(names: map<string, nat>) {
    (forall k :: k in names ==> names[k] < |names|)
    && (forall k, l :: k in names && l in names && names[k] == names[l] ==> k == l)
    && (forall i: nat :: i < |names| ==> Holds(names, i))
  }

  function Bound(names: map<string, nat>, name: string): map<string, nat> {
    if name in names then names else names[name := |names|]
  }

  lemma OneMoreName(names: map<string, nat>, name: string, i: nat)
    requires name !in names
    ensures |names[name := i]| == |names| + 1
  {
    var next := names[name := i];
    assert next.Keys == names.Keys + {name} && |next| == |next.Keys| && |names| == |names.Keys|;
  }

  lemma BindKeepsDense(names: map<string, nat>, name: string)
    requires Dense(names) && name !in names
    ensures Dense(names[name := |names|])
  {
    var next := names[name := |names|];
    OneMoreName(names, name, |names|);
    forall i: nat | i < |next| ensures Holds(next, i) {
      if i < |names| {
        assert Holds(names, i);
        var k :| k in names && names[k] == i;
        assert k in next && next[k] == i;
      } else {
        assert name in next && next[name] == i;
      }
    }
  }

  class Renumber {
    var names: map<string, nat>

    constructor ()
      ensures names == map[]
    {
      names := map[];
    }

    method Bind(name: string) returns (i: nat)
      requires Dense(names)
      modifies this
      ensures names == Bound(old(names), name) && Dense(names) && name in names && i == names[name]
    {
      if name !in names {
        BindKeepsDense(names, name);
        names := names[name := |names|];
      }
      i := names[name];
    }

    method Lookup(name: string) returns (i: Option<nat>)
      ensures i == if name in names then Some(names[name]) else None
    {
      i := if name in names then Some(names[name]) else None;
    }
  }

  // ----- why a quad of a formula is refused -----

  /** The first rule a term breaks. `binding` is whether this is the conditions' formula, which alone may
      introduce names; `known` are the names bound so far. */
  function TermError(t: N3Term, known: set<string>, binding: bool): Option<PatchError> {
    match t
    case NNamed(i) => if IsReserved(i) then Some(Reserved) else None
    case NLit(l) => if l.Directional? then Some(Rdf12Term) else None
    case NVar(v) => if !binding && v !in known then Some(Shape(UnboundVariable)) else None
    case NBlank(_) => if !binding then Some(Shape(BlankNodeHere)) else None
    case NTriple => Some(Rdf12Term)
  }

  function OrElse(a: Option<PatchError>, b: Option<PatchError>): Option<PatchError> { if a.Some? then a else b }

  function HeadError(t: N3Term, fault: Fault): Option<PatchError> { if t.NLit? then Some(Shape(fault)) else None }

  function QuadError(q: N3Quad, known: set<string>, binding: bool): Option<PatchError> {
    OrElse(TermError(q.s, known, binding),
    OrElse(HeadError(q.s, LiteralSubject),
    OrElse(TermError(q.p, known, binding),
    OrElse(HeadError(q.p, LiteralPredicate),
           TermError(q.o, known, binding)))))
  }

  function FirstError(qs: seq<N3Quad>, known: set<string>, binding: bool): (e: Option<PatchError>)
    ensures e.None? <==> forall q :: q in qs ==> QuadError(q, known, binding).None?
  {
    if qs == [] then None
    else
      assert qs == qs[..|qs| - 1] + [qs[|qs| - 1]];
      OrElse(FirstError(qs[..|qs| - 1], known, binding), QuadError(qs[|qs| - 1], known, binding))
  }

  predicate TermOk(t: N3Term) {
    !t.NTriple? && (t.NLit? ==> !t.literal.Directional?) && (t.NNamed? ==> !IsReserved(t.iri))
  }

  /** A condition: no literal subject or predicate, nothing reserved, nothing of RDF 1.2. */
  predicate ConditionOk(q: N3Quad) { TermOk(q.s) && TermOk(q.p) && TermOk(q.o) && !q.s.NLit? && !q.p.NLit? }

  /** A deletion or insertion: the same, no blank node, and only variables filed under a key of the conditions.
      `Renumbering.ShapeValidByName` has the rule over names. */
  predicate ChangeOk(q: N3Quad, known: set<string>) {
    ConditionOk(q) && !q.s.NBlank? && !q.p.NBlank? && !q.o.NBlank?
    && (q.s.NVar? ==> q.s.name in known) && (q.p.NVar? ==> q.p.name in known) && (q.o.NVar? ==> q.o.name in known)
  }

  lemma RefusedIffNotOk(q: N3Quad, known: set<string>)
    ensures QuadError(q, known, true).None? <==> ConditionOk(q)
    ensures QuadError(q, known, false).None? <==> ChangeOk(q, known)
  {
  }

  // ----- what an accepted formula becomes -----

  function Rendered(t: N3Term, names: map<string, nat>): PatternTerm {
    match t
    case NNamed(i) => PNamed(i)
    case NLit(l) => PLit(l)
    case NTriple => PNamed(OtherIri(""))  // no accepted formula holds one
    case _ => PVar(if Key(t) in names then names[Key(t)] else 0)
  }

  function RenderedQuad(q: N3Quad, names: map<string, nat>): Pattern {
    Pattern(Rendered(q.s, names), Rendered(q.p, names), Rendered(q.o, names))
  }

  function RenderedAll(qs: seq<N3Quad>, names: map<string, nat>): seq<Pattern> {
    seq(|qs|, i requires 0 <= i < |qs| => RenderedQuad(qs[i], names))
  }

  function KeysOfTerm(t: N3Term): set<string> { if IsName(t) then {Key(t)} else {} }
  function KeysOfQuad(q: N3Quad): set<string> { KeysOfTerm(q.s) + KeysOfTerm(q.p) + KeysOfTerm(q.o) }

  function KeysOf(qs: seq<N3Quad>): set<string> {
    if qs == [] then {} else KeysOf(qs[..|qs| - 1]) + KeysOfQuad(qs[|qs| - 1])
  }

  ghost predicate Grew(was: map<string, nat>, names: map<string, nat>) {
    forall k :: k in was ==> k in names && names[k] == was[k]
  }

  /** How the numbering may move while names `keys` are walked: a name keeps its index, and only the
      conditions' formula adds any. */
  ghost predicate Walked(was: map<string, nat>, names: map<string, nat>, keys: set<string>, binding: bool) {
    Grew(was, names) && (if binding then names.Keys == was.Keys + keys else names.Keys == was.Keys && keys <= was.Keys)
  }

  lemma WalkedOn(a: map<string, nat>, b: map<string, nat>, c: map<string, nat>, k: set<string>, l: set<string>,
                 binding: bool)
    requires Walked(a, b, k, binding) && Walked(b, c, l, binding)
    ensures Walked(a, c, k + l, binding)
  {
    if binding { assert c.Keys == a.Keys + k + l; }
  }

  lemma SameNames(was: map<string, nat>, names: map<string, nat>, keys: set<string>)
    requires Walked(was, names, keys, false)
    ensures was == names
  {
    assert was.Keys == names.Keys;
  }

  lemma RenderedStable(t: N3Term, was: map<string, nat>, names: map<string, nat>, keys: set<string>, binding: bool)
    requires Walked(was, names, keys, binding) && KeysOfTerm(t) <= was.Keys
    ensures Rendered(t, names) == Rendered(t, was)
  {
    assert IsName(t) ==> Key(t) in KeysOfTerm(t);
  }

  lemma RenderedAllStable(qs: seq<N3Quad>, was: map<string, nat>, names: map<string, nat>, keys: set<string>,
                          binding: bool)
    requires Walked(was, names, keys, binding) && KeysOf(qs) <= was.Keys
    ensures RenderedAll(qs, names) == RenderedAll(qs, was)
  {
    KeysOfHas(qs);
    forall i | 0 <= i < |qs| ensures RenderedQuad(qs[i], names) == RenderedQuad(qs[i], was) {
      assert qs[i] in qs && KeysOfQuad(qs[i]) <= KeysOf(qs);
      RenderedStable(qs[i].s, was, names, keys, binding);
      RenderedStable(qs[i].p, was, names, keys, binding);
      RenderedStable(qs[i].o, was, names, keys, binding);
    }
  }

  lemma BindWalks(names: map<string, nat>, t: N3Term)
    requires Dense(names) && IsName(t)
    ensures Walked(names, Bound(names, Key(t)), KeysOfTerm(t), true)
  {
    assert Bound(names, Key(t)).Keys == names.Keys + {Key(t)};
  }

  method ConvertTerm(t: N3Term, names: Renumber, binding: bool) returns (r: Result<PatternTerm, PatchError>)
    requires Dense(names.names)
    modifies names
    ensures var e := TermError(t, old(names.names).Keys, binding); if e.Some? then r == Err(e.value) else r.Ok?
    ensures Dense(names.names)
    ensures r.Ok? ==>
        Walked(old(names.names), names.names, KeysOfTerm(t), binding) && r.value == Rendered(t, names.names)
    ensures r == Err(Reserved) <==> t.NNamed? && IsReserved(t.iri)
    ensures r == Err(Rdf12Term) <==> t.NTriple? || (t.NLit? && t.literal.Directional?)
    ensures r == Err(Shape(UnboundVariable)) <==> t.NVar? && !binding && t.name !in old(names.names)
    ensures r == Err(Shape(BlankNodeHere)) <==> t.NBlank? && !binding
    ensures r.Err? ==> r.error in {Reserved, Rdf12Term, Shape(UnboundVariable), Shape(BlankNodeHere)}
  {
    if binding && IsName(t) { BindWalks(names.names, t); }
    match t {
      case NNamed(i) => r := if IsReserved(i) then Err(Reserved) else Ok(PNamed(i));
      case NLit(l) => r := if l.Directional? then Err(Rdf12Term) else Ok(PLit(l));
      case NVar(v) =>
        if binding {
          var i := names.Bind(v);
          r := Ok(PVar(i));
        } else {
          var i := names.Lookup(v);
          r := if i.None? then Err(Shape(UnboundVariable)) else Ok(PVar(i.value));
        }
      case NBlank(b) =>
        if binding {
          var i := names.Bind("_:" + b);
          r := Ok(PVar(i));
        } else {
          r := Err(Shape(BlankNodeHere));
        }
      case NTriple => r := Err(Rdf12Term);
    }
  }

  /** A refusal reads the known names only where nothing is added to them. */
  lemma KnownOnlyMattersForChanges(t: N3Term, a: set<string>, b: set<string>, binding: bool)
    requires binding || a == b
    ensures TermError(t, a, binding) == TermError(t, b, binding)
  {
  }

  lemma RenderedIsLiteral(t: N3Term, names: map<string, nat>)
    ensures Rendered(t, names).PLit? <==> t.NLit?
  {
  }

  /** One quad of a formula: the three positions in order, the first refusal ending it. */
  method ConvertQuad(q: N3Quad, names: Renumber, binding: bool) returns (r: Result<Pattern, PatchError>)
    requires Dense(names.names)
    modifies names
    ensures var e := QuadError(q, old(names.names).Keys, binding); if e.Some? then r == Err(e.value) else r.Ok?
    ensures Dense(names.names)
    ensures r.Ok? ==>
        Walked(old(names.names), names.names, KeysOfQuad(q), binding) && r.value == RenderedQuad(q, names.names)
  {
    ghost var n0 := names.names;
    var s := ConvertTerm(q.s, names, binding);
    if s.Err? { return Err(s.error); }
    ghost var n1 := names.names;
    RenderedIsLiteral(q.s, n1);
    if s.value.PLit? { return Err(Shape(LiteralSubject)); }
    if !binding { SameNames(n0, n1, KeysOfTerm(q.s)); }
    KnownOnlyMattersForChanges(q.p, n0.Keys, n1.Keys, binding);
    var p := ConvertTerm(q.p, names, binding);
    if p.Err? { return Err(p.error); }
    ghost var n2 := names.names;
    RenderedIsLiteral(q.p, n2);
    if p.value.PLit? { return Err(Shape(LiteralPredicate)); }
    if !binding { SameNames(n1, n2, KeysOfTerm(q.p)); }
    KnownOnlyMattersForChanges(q.o, n0.Keys, n2.Keys, binding);
    var o := ConvertTerm(q.o, names, binding);
    if o.Err? { return Err(o.error); }
    ghost var n3 := names.names;
    RenderedStable(q.s, n1, n2, KeysOfTerm(q.p), binding);
    RenderedStable(q.s, n2, n3, KeysOfTerm(q.o), binding);
    RenderedStable(q.p, n2, n3, KeysOfTerm(q.o), binding);
    WalkedOn(n0, n1, n2, KeysOfTerm(q.s), KeysOfTerm(q.p), binding);
    WalkedOn(n0, n2, n3, KeysOfTerm(q.s) + KeysOfTerm(q.p), KeysOfTerm(q.o), binding);
    r := Ok(Pattern(s.value, p.value, o.value));
  }

  // ----- a formula's quads -----

  function Within(quads: seq<N3Quad>, formula: string): seq<N3Quad> {
    if quads == [] then []
    else
      var q := quads[|quads| - 1];
      Within(quads[..|quads| - 1], formula) + (if q.graph == NFormula(formula) then [q] else [])
  }

  function Content(quads: seq<N3Quad>, formula: Option<string>): seq<N3Quad> {
    if formula.None? then [] else Within(quads, formula.value)
  }

  lemma WithinOneMore(quads: seq<N3Quad>, q: N3Quad, formula: string)
    ensures Within(quads + [q], formula) == Within(quads, formula) + (if q.graph == NFormula(formula) then [q] else [])
  {
    assert (quads + [q])[..|quads|] == quads;
  }

  lemma PrefixOneMore(quads: seq<N3Quad>, i: nat, formula: string)
    requires i < |quads|
    ensures Within(quads[..i + 1], formula) ==
      if quads[i].graph == NFormula(formula) then Within(quads[..i], formula) + [quads[i]]
      else Within(quads[..i], formula)
  {
    assert quads[..i + 1][..i] == quads[..i];
  }

  /** A prefix's first refusal is the whole's. */
  lemma {:induction false} ErrorStays(quads: seq<N3Quad>, formula: string, i: nat, known: set<string>, binding: bool)
    requires i <= |quads| && FirstError(Within(quads[..i], formula), known, binding).Some?
    ensures FirstError(Within(quads, formula), known, binding) ==
        FirstError(Within(quads[..i], formula), known, binding)
  {
    if i < |quads| {
      var init, q := quads[..|quads| - 1], quads[|quads| - 1];
      assert init[..i] == quads[..i] && quads == init + [q];
      ErrorStays(init, formula, i, known, binding);
      WithinOneMore(init, q, formula);
      LastError(Within(init, formula), q, known, binding);
      assert Within(init, formula) + [] == Within(init, formula);
    } else {
      assert quads[..i] == quads;
    }
  }

  lemma LastError(qs: seq<N3Quad>, q: N3Quad, known: set<string>, binding: bool)
    ensures FirstError(qs + [q], known, binding) == OrElse(FirstError(qs, known, binding), QuadError(q, known, binding))
    ensures KeysOf(qs + [q]) == KeysOf(qs) + KeysOfQuad(q)
    ensures forall names :: RenderedAll(qs + [q], names) == RenderedAll(qs, names) + [RenderedQuad(q, names)]
  {
    assert (qs + [q])[..|qs|] == qs;
  }

  /** Where a formula's walk stands: nothing refused, everything rendered under the names so far. */
  ghost predicate Converted(qs: seq<N3Quad>, was: map<string, nat>, names: map<string, nat>, out: seq<Pattern>,
                            binding: bool) {
    FirstError(qs, was.Keys, binding).None? && Walked(was, names, KeysOf(qs), binding) && out == RenderedAll(qs, names)
  }

  lemma ConvertedOneMore(qs: seq<N3Quad>, q: N3Quad, was: map<string, nat>, mid: map<string, nat>,
                         names: map<string, nat>, out: seq<Pattern>, binding: bool)
    requires Converted(qs, was, mid, out, binding)
    requires QuadError(q, mid.Keys, binding).None? && Walked(mid, names, KeysOfQuad(q), binding)
    ensures Converted(qs + [q], was, names, out + [RenderedQuad(q, names)], binding)
  {
    QuadErrorSettled(qs, q, was, mid, out, binding);
    LastError(qs, q, was.Keys, binding);
    WalkedOn(was, mid, names, KeysOf(qs), KeysOfQuad(q), binding);
    RenderedAllStable(qs, mid, names, KeysOfQuad(q), binding);
  }

  lemma RefusedHere(quads: seq<N3Quad>, formula: string, i: nat, was: map<string, nat>, mid: map<string, nat>,
                    out: seq<Pattern>, binding: bool)
    requires i < |quads| && quads[i].graph == NFormula(formula)
    requires Converted(Within(quads[..i], formula), was, mid, out, binding)
    requires QuadError(quads[i], mid.Keys, binding).Some?
    ensures FirstError(Within(quads, formula), was.Keys, binding) == QuadError(quads[i], mid.Keys, binding)
  {
    var done, q := Within(quads[..i], formula), quads[i];
    QuadErrorSettled(done, q, was, mid, out, binding);
    LastError(done, q, was.Keys, binding);
    assert quads[..i + 1] == quads[..i] + [q];
    WithinOneMore(quads[..i], q, formula);
    ErrorStays(quads, formula, i + 1, was.Keys, binding);
  }

  lemma NothingConverted(quads: seq<N3Quad>, formula: string, names: map<string, nat>, binding: bool)
    ensures Converted(Within(quads[..0], formula), names, names, [], binding)
  {
    assert Within(quads[..0], formula) == [];
  }

  lemma QuadErrorSettled(qs: seq<N3Quad>, q: N3Quad, was: map<string, nat>, mid: map<string, nat>, out: seq<Pattern>,
                         binding: bool)
    requires Converted(qs, was, mid, out, binding)
    ensures QuadError(q, mid.Keys, binding) == QuadError(q, was.Keys, binding)
  {
    if !binding { SameNames(was, mid, KeysOf(qs)); }
    KnownOnlyMattersForChanges(q.s, was.Keys, mid.Keys, binding);
    KnownOnlyMattersForChanges(q.p, was.Keys, mid.Keys, binding);
    KnownOnlyMattersForChanges(q.o, was.Keys, mid.Keys, binding);
  }

  method Patterns(quads: seq<N3Quad>, formula: Option<string>, names: Renumber, binding: bool)
    returns (r: Result<seq<Pattern>, PatchError>)
    requires Dense(names.names)
    modifies names
    ensures Dense(names.names)
    ensures r.Err? ==> FirstError(Content(quads, formula), old(names.names).Keys, binding) == Some(r.error)
    ensures r.Ok? ==> Converted(Content(quads, formula), old(names.names), names.names, r.value, binding)
  {
    if formula.None? { return Ok([]); }
    r := PatternsWithin(quads, formula.value, names, binding);
  }

  method PatternsWithin(quads: seq<N3Quad>, formula: string, names: Renumber, binding: bool)
    returns (r: Result<seq<Pattern>, PatchError>)
    requires Dense(names.names)
    modifies names
    ensures Dense(names.names)
    ensures r.Err? ==> FirstError(Within(quads, formula), old(names.names).Keys, binding) == Some(r.error)
    ensures r.Ok? ==> Converted(Within(quads, formula), old(names.names), names.names, r.value, binding)
  {
    var out: seq<Pattern> := [];
    ghost var was := names.names;
    NothingConverted(quads, formula, was, binding);
    for i := 0 to |quads|
      invariant Dense(names.names)
      invariant Converted(Within(quads[..i], formula), was, names.names, out, binding)
    {
      ghost var done, mid := Within(quads[..i], formula), names.names;
      PrefixOneMore(quads, i, formula);
      if quads[i].graph == NFormula(formula) {
        var p := ConvertQuad(quads[i], names, binding);
        if p.Err? {
          RefusedHere(quads, formula, i, was, mid, out, binding);
          return Err(p.error);
        }
        ConvertedOneMore(done, quads[i], was, mid, names.names, out, binding);
        out := out + [p.value];
      }
    }
    assert quads[..|quads|] == quads;
    return Ok(out);
  }

  // ----- what a formula holds, and which refusal comes first -----

  /** The formula's quads are those of the document in its graph, each as often and in the document's order: its
      part of two documents after each other is its two parts after each other. */
  lemma {:induction false} WithinIsExact(a: seq<N3Quad>, b: seq<N3Quad>, q: N3Quad, formula: string)
    ensures Within(a + b, formula) == Within(a, formula) + Within(b, formula)
    ensures Within([q], formula) == if q.graph == NFormula(formula) then [q] else []
  {
    assert [q][..0] == [];
    if b == [] {
      assert a + b == a;
    } else {
      var init, last := b[..|b| - 1], b[|b| - 1];
      WithinIsExact(a, init, q, formula);
      assert (a + b)[..|a + b| - 1] == a + init && (a + b)[|a + b| - 1] == last;
    }
  }

  /** A formula's refusal is that of its first quad that breaks a rule. */
  lemma {:induction false} FirstErrorIsFirst(qs: seq<N3Quad>, known: set<string>, binding: bool) returns (k: nat)
    requires FirstError(qs, known, binding).Some?
    ensures k < |qs| && FirstError(qs, known, binding) == QuadError(qs[k], known, binding)
    ensures forall j :: 0 <= j < k ==> QuadError(qs[j], known, binding).None?
  {
    var init := qs[..|qs| - 1];
    if FirstError(init, known, binding).Some? {
      k := FirstErrorIsFirst(init, known, binding);
    } else {
      k := |qs| - 1;
      forall j | 0 <= j < k ensures QuadError(qs[j], known, binding).None? {
        assert qs[j] == init[j] && init[j] in init;
      }
    }
  }

  // ----- parse -----

  /** A document carrying one well-shaped patch on `s`: at most one formula of each kind, and what is in
      them acceptable. */
  ghost predicate ShapeValid(quads: seq<N3Quad>, s: N3Term) {
    IsPatchSubject(quads, s)
    && FormulaOf(quads, s, SOLID_WHERE).Ok? && FormulaOf(quads, s, SOLID_DELETES).Ok?
    && FormulaOf(quads, s, SOLID_INSERTS).Ok?
    && (forall q :: q in ConditionsOf(quads, s) ==> ConditionOk(q))
    && (forall q :: q in DeletionsOf(quads, s) ==> ChangeOk(q, KeysOf(ConditionsOf(quads, s))))
    && (forall q :: q in InsertionsOf(quads, s) ==> ChangeOk(q, KeysOf(ConditionsOf(quads, s))))
  }

  /** Which rule a document with patch resource `s` breaks first: the formula predicates in order, then
      what is in the formulae in order. */
  function Refusal(quads: seq<N3Quad>, s: N3Term): Option<PatchError> {
    var w, d := FormulaOf(quads, s, SOLID_WHERE), FormulaOf(quads, s, SOLID_DELETES);
    var i := FormulaOf(quads, s, SOLID_INSERTS);
    if w.Err? then Some(w.error) else if d.Err? then Some(d.error) else if i.Err? then Some(i.error)
    else
      var known := KeysOf(Content(quads, w.value));
      OrElse(FirstError(Content(quads, w.value), {}, true),
      OrElse(FirstError(Content(quads, d.value), known, false),
             FirstError(Content(quads, i.value), known, false)))
  }

  lemma ValidIffNotRefused(quads: seq<N3Quad>, s: N3Term)
    requires IsPatchSubject(quads, s)
    ensures ShapeValid(quads, s) <==> Refusal(quads, s).None?
  {
    if FormulaOf(quads, s, SOLID_WHERE).Ok? && FormulaOf(quads, s, SOLID_DELETES).Ok?
       && FormulaOf(quads, s, SOLID_INSERTS).Ok?
    {
      var known := KeysOf(ConditionsOf(quads, s));
      NoErrorIffConditionsOk(ConditionsOf(quads, s));
      NoErrorIffChangesOk(DeletionsOf(quads, s), known);
      NoErrorIffChangesOk(InsertionsOf(quads, s), known);
    }
  }

  lemma NoErrorIffConditionsOk(qs: seq<N3Quad>)
    ensures FirstError(qs, {}, true).None? <==> forall q :: q in qs ==> ConditionOk(q)
  {
    forall q { RefusedIffNotOk(q, {}); }
  }

  lemma NoErrorIffChangesOk(qs: seq<N3Quad>, known: set<string>)
    ensures FirstError(qs, known, false).None? <==> forall q :: q in qs ==> ChangeOk(q, known)
  {
    forall q { RefusedIffNotOk(q, known); }
  }

  function ConditionsOf(quads: seq<N3Quad>, s: N3Term): seq<N3Quad>
    requires FormulaOf(quads, s, SOLID_WHERE).Ok?
  {
    Content(quads, FormulaOf(quads, s, SOLID_WHERE).value)
  }

  function DeletionsOf(quads: seq<N3Quad>, s: N3Term): seq<N3Quad>
    requires FormulaOf(quads, s, SOLID_DELETES).Ok?
  {
    Content(quads, FormulaOf(quads, s, SOLID_DELETES).value)
  }

  function InsertionsOf(quads: seq<N3Quad>, s: N3Term): seq<N3Quad>
    requires FormulaOf(quads, s, SOLID_INSERTS).Ok?
  {
    Content(quads, FormulaOf(quads, s, SOLID_INSERTS).value)
  }

  /** The patch is the document's three formulae under one dense numbering of the condition's names. */
  ghost predicate Numbered(quads: seq<N3Quad>, s: N3Term, names: map<string, nat>, patch: Patch)
    requires ShapeValid(quads, s)
  {
    Dense(names) && names.Keys == KeysOf(ConditionsOf(quads, s)) && patch.variables == |names|
    && patch.conditions == RenderedAll(ConditionsOf(quads, s), names)
    && patch.deletions == RenderedAll(DeletionsOf(quads, s), names)
    && patch.insertions == RenderedAll(InsertionsOf(quads, s), names)
  }

  lemma {:induction false} VarsOfHas(ps: seq<Pattern>)
    ensures forall v :: v in VarsOf(ps) <==> exists p :: p in ps && v in VarsOfPattern(p)
  {
    if ps != [] {
      VarsOfHas(ps[1..]);
      assert ps == [ps[0]] + ps[1..];
    }
  }

  lemma {:induction false} KeysOfHas(qs: seq<N3Quad>)
    ensures forall k :: k in KeysOf(qs) <==> exists q :: q in qs && k in KeysOfQuad(q)
  {
    if qs != [] {
      var init, last := qs[..|qs| - 1], qs[|qs| - 1];
      KeysOfHas(init);
      assert qs == init + [last];
      forall k ensures k in KeysOf(qs) <==> exists q :: q in qs && k in KeysOfQuad(q) {
        if k in KeysOf(init) {
          var q :| q in init && k in KeysOfQuad(q);
          assert q in qs;
        } else if k in KeysOfQuad(last) {
          assert last in qs;
        }
      }
    }
  }

  lemma VarsOfRendered(q: N3Quad, names: map<string, nat>)
    requires KeysOfQuad(q) <= names.Keys
    ensures forall v :: v in VarsOfPattern(RenderedQuad(q, names)) <==> exists k :: k in KeysOfQuad(q) && names[k] == v
  {
    forall v | v in VarsOfPattern(RenderedQuad(q, names)) ensures exists k :: k in KeysOfQuad(q) && names[k] == v {
      if v in VarsOfTerm(Rendered(q.s, names)) {
        assert Key(q.s) in KeysOfQuad(q);
      } else if v in VarsOfTerm(Rendered(q.p, names)) {
        assert Key(q.p) in KeysOfQuad(q);
      } else {
        assert Key(q.o) in KeysOfQuad(q);
      }
    }
  }

  /** The variables of a rendered formula are exactly the indices of its names. */
  lemma VarsAreNames(qs: seq<N3Quad>, names: map<string, nat>)
    requires KeysOf(qs) <= names.Keys
    ensures forall v :: v in VarsOf(RenderedAll(qs, names)) <==> exists k :: k in KeysOf(qs) && names[k] == v
  {
    var ps := RenderedAll(qs, names);
    VarsOfHas(ps);
    KeysOfHas(qs);
    forall v | v in VarsOf(ps) ensures exists k :: k in KeysOf(qs) && names[k] == v {
      var p :| p in ps && v in VarsOfPattern(p);
      var i :| 0 <= i < |ps| && ps[i] == p;
      assert qs[i] in qs;
      VarsOfRendered(qs[i], names);
      var k :| k in KeysOfQuad(qs[i]) && names[k] == v;
    }
    forall k | k in KeysOf(qs) ensures names[k] in VarsOf(ps) {
      var q :| q in qs && k in KeysOfQuad(q);
      var i :| 0 <= i < |qs| && qs[i] == q;
      VarsOfRendered(q, names);
      assert ps[i] in ps;
    }
  }

  lemma ChangesUseConditionNames(qs: seq<N3Quad>, names: set<string>)
    requires forall q :: q in qs ==> ChangeOk(q, names)
    ensures KeysOf(qs) <= names
  {
    KeysOfHas(qs);
  }

  /** Dense indices, every index in a change bound by a condition, nothing but an object literal:
      whatever a shape-valid document numbers to is a well-formed patch. */
  lemma NumberedIsWellFormed(quads: seq<N3Quad>, s: N3Term, names: map<string, nat>, patch: Patch)
    requires ShapeValid(quads, s) && Numbered(quads, s, names, patch)
    ensures WellFormed(patch)
  {
    var c, d, i := ConditionsOf(quads, s), DeletionsOf(quads, s), InsertionsOf(quads, s);
    ChangesUseConditionNames(d, names.Keys);
    ChangesUseConditionNames(i, names.Keys);
    VarsAreNames(c, names);
    VarsAreNames(d, names);
    VarsAreNames(i, names);
    NoLiteralHeads(c, names);
    NoLiteralHeads(d, names);
    NoLiteralHeads(i, names);
    CoversIndices(c, names);
    assert VarsOf(patch.deletions) <= VarsOf(patch.conditions);
    assert VarsOf(patch.insertions) <= VarsOf(patch.conditions);
  }

  lemma NoLiteralHeads(qs: seq<N3Quad>, names: map<string, nat>)
    requires forall q :: q in qs ==> ConditionOk(q)
    ensures forall p :: p in RenderedAll(qs, names) ==> NoLiteralHead(p)
  {
    forall p | p in RenderedAll(qs, names) ensures NoLiteralHead(p) {
      var k :| 0 <= k < |qs| && RenderedAll(qs, names)[k] == p;
      assert qs[k] in qs;
    }
  }

  lemma CoversIndices(qs: seq<N3Quad>, names: map<string, nat>)
    requires Dense(names) && names.Keys == KeysOf(qs)
    ensures forall i: nat :: i in VarsOf(RenderedAll(qs, names)) <==> i < |names|
  {
    VarsAreNames(qs, names);
    forall i: nat | i < |names| ensures i in VarsOf(RenderedAll(qs, names)) {
      assert Holds(names, i);
    }
  }

  /** Two positions of a parsed patch are the same variable exactly when the client wrote the same name, or
      a variable and a blank node it is spelled like. */
  lemma SameVariableIffSameName(names: map<string, nat>, a: N3Term, b: N3Term)
    requires Dense(names) && IsName(a) && IsName(b) && Key(a) in names && Key(b) in names
    ensures Rendered(a, names) == Rendered(b, names) <==> a == b || Disguised(a, b) || Disguised(b, a)
  {
    SameKeyIffSameOrDisguised(a, b);
  }

  /** `Patch::parse`, once the text is parsed. */
  method Parse(quads: seq<N3Quad>) returns (r: Result<Patch, PatchError>, ghost names: map<string, nat>)
    ensures r.Ok? <==> exists s :: ShapeValid(quads, s)
    ensures r.Ok? ==> exists s :: ShapeValid(quads, s) && Numbered(quads, s, names, r.value)
    ensures r.Ok? ==> WellFormed(r.value)
    ensures forall s :: IsPatchSubject(quads, s) && r.Err? ==> Refusal(quads, s) == Some(r.error)
    ensures r == Err(Shape(NoPatch)) <==> forall q :: q in quads ==> !DeclaresPatch(q)
    ensures (exists p, q :: p in quads && q in quads && DeclaresPatch(p) && DeclaresPatch(q) && p.s != q.s) ==>
              r == Err(Shape(SeveralPatches))
  {
    names := map[];
    var subject := PatchSubject(quads);
    if subject.Err? { return Err(subject.error), names; }
    var s := subject.value;
    assert forall x :: IsPatchSubject(quads, x) ==> x == s;
    ValidIffNotRefused(quads, s);
    RefusalIsNotNoPatch(quads, s);
    var w := Formula(quads, s, SOLID_WHERE);
    if w.Err? { return Err(w.error), names; }
    var d := Formula(quads, s, SOLID_DELETES);
    if d.Err? { return Err(d.error), names; }
    var i := Formula(quads, s, SOLID_INSERTS);
    if i.Err? { return Err(i.error), names; }
    var renumber := new Renumber();
    var conditions := Patterns(quads, w.value, renumber, true);
    if conditions.Err? { return Err(conditions.error), names; }
    ghost var n := renumber.names;
    assert n.Keys == KeysOf(ConditionsOf(quads, s));
    var deletions := Patterns(quads, d.value, renumber, false);
    if deletions.Err? { return Err(deletions.error), names; }
    SameNames(n, renumber.names, KeysOf(DeletionsOf(quads, s)));
    var insertions := Patterns(quads, i.value, renumber, false);
    if insertions.Err? { return Err(insertions.error), names; }
    SameNames(n, renumber.names, KeysOf(InsertionsOf(quads, s)));
    names := n;
    r := Ok(Patch(conditions.value, deletions.value, insertions.value, |renumber.names|));
    assert ShapeValid(quads, s) && Numbered(quads, s, names, r.value);
    NumberedIsWellFormed(quads, s, names, r.value);
  }

  // ----- the ordinary insert-only patch -----

  /** A triple as written: names and literals the store can hold, where RDF has them. */
  predicate PlainTriple(q: N3Quad) {
    q.s.NNamed? && !IsReserved(q.s.iri) && q.p.NNamed? && !IsReserved(q.p.iri)
    && ((q.o.NNamed? && !IsReserved(q.o.iri)) || (q.o.NLit? && !q.o.literal.Directional?))
  }

  function AsWritten(q: N3Quad): GroundTriple
    requires PlainTriple(q)
  {
    GroundTriple(q.s.iri, q.p.iri, if q.o.NNamed? then Node(q.o.iri) else Lit(q.o.literal))
  }

  /** A document with one patch resource that has one formula of insertions, all of them plain triples, and no
      conditions or deletions, is accepted, as a patch that inserts those triples and nothing else. */
  lemma InsertOnlyParses(quads: seq<N3Quad>, s: N3Term, b: string)
    requires IsPatchSubject(quads, s)
    requires forall k :: !SaysAt(quads, k, s, SOLID_WHERE) && !SaysAt(quads, k, s, SOLID_DELETES)
    requires HasFormula(quads, s, SOLID_INSERTS, b)
    requires forall q :: q in quads && q.graph == NFormula(b) ==> PlainTriple(q)
    ensures ShapeValid(quads, s)
    ensures forall names, patch :: Numbered(quads, s, names, patch) ==>
              patch.conditions == [] && patch.deletions == []
              && Substitute(patch.insertions, map[]) ==
                 set q | q in quads && q.graph == NFormula(b) && PlainTriple(q) :: AsWritten(q)
  {
    FormulaIsExact(quads, s, SOLID_WHERE);
    FormulaIsExact(quads, s, SOLID_DELETES);
    FormulaIsExact(quads, s, SOLID_INSERTS);
    WithinHas(quads, b);
    assert InsertionsOf(quads, s) == Within(quads, b);
    forall names, patch | Numbered(quads, s, names, patch)
      ensures patch.conditions == [] && patch.deletions == []
      ensures Substitute(patch.insertions, map[]) ==
              set q | q in quads && q.graph == NFormula(b) && PlainTriple(q) :: AsWritten(q)
    {
      PlainRendering(Within(quads, b), names);
    }
  }

  lemma {:induction false} WithinHas(quads: seq<N3Quad>, formula: string)
    ensures forall q :: q in Within(quads, formula) <==> q in quads && q.graph == NFormula(formula)
  {
    if quads != [] {
      var init, last := quads[..|quads| - 1], quads[|quads| - 1];
      WithinHas(init, formula);
      assert quads == init + [last];
    }
  }

  lemma PlainIsGround(q: N3Quad, names: map<string, nat>)
    requires PlainTriple(q)
    ensures Ground(RenderedQuad(q, names), map[]) == Some(AsWritten(q))
  {
  }

  lemma PlainRendering(qs: seq<N3Quad>, names: map<string, nat>)
    requires forall q :: q in qs ==> PlainTriple(q)
    ensures Substitute(RenderedAll(qs, names), map[]) == set q | q in qs && PlainTriple(q) :: AsWritten(q)
  {
    var ps, written := RenderedAll(qs, names), set q | q in qs && PlainTriple(q) :: AsWritten(q);
    forall t | t in Substitute(ps, map[]) ensures t in written {
      var p :| p in ps && Ground(p, map[]) == Some(t);
      var i :| 0 <= i < |ps| && ps[i] == p;
      assert qs[i] in qs;
      PlainIsGround(qs[i], names);
    }
    forall t | t in written ensures t in Substitute(ps, map[]) {
      var q :| q in qs && PlainTriple(q) && AsWritten(q) == t;
      var i :| 0 <= i < |qs| && qs[i] == q;
      PlainIsGround(q, names);
      assert ps[i] == RenderedQuad(q, names) && ps[i] in ps;
    }
  }

  lemma RefusalIsNotNoPatch(quads: seq<N3Quad>, s: N3Term)
    ensures Refusal(quads, s) != Some(Shape(NoPatch))
  {
    var w, d := FormulaOf(quads, s, SOLID_WHERE), FormulaOf(quads, s, SOLID_DELETES);
    var i := FormulaOf(quads, s, SOLID_INSERTS);
    if w.Ok? && d.Ok? && i.Ok? {
      var known := KeysOf(Content(quads, w.value));
      ErrorIsNotNoPatch(Content(quads, w.value), {}, true);
      ErrorIsNotNoPatch(Content(quads, d.value), known, false);
      ErrorIsNotNoPatch(Content(quads, i.value), known, false);
    }
  }

  lemma {:induction false} ErrorIsNotNoPatch(qs: seq<N3Quad>, known: set<string>, binding: bool)
    ensures FirstError(qs, known, binding) != Some(Shape(NoPatch))
  {
    if qs != [] { ErrorIsNotNoPatch(qs[..|qs| - 1], known, binding); }
  }

  // ----- ground_insertions and creation -----

  method GroundInsertions(patch: Patch) returns (triples: Option<seq<GroundTriple>>)
    requires WellFormed(patch)
    ensures triples.Some? <==> patch.conditions == []
    ensures triples.Some? ==> Groundable(patch.insertions, map[])
    ensures triples.Some? ==> (set t | t in triples.value) == Substitute(patch.insertions, map[])
  {
    if patch.conditions != [] { return None; }
    GroundWithoutConditions(patch);
    var out: seq<GroundTriple> := [];
    for i := 0 to |patch.insertions|
      invariant (set t | t in out) == Substitute(patch.insertions[..i], map[])
    {
      var p := patch.insertions[i];
      assert patch.insertions[..i + 1] == patch.insertions[..i] + [p];
      GroundAsWritten(patch, p);
      SubstituteOneMore(patch.insertions[..i], p);
      var t := GroundTriple(p.s.iri, p.p.iri, if p.o.PNamed? then Node(p.o.iri) else Lit(p.o.literal));
      assert (set x | x in out + [t]) == (set x | x in out) + {t};
      out := out + [t];
    }
    assert patch.insertions[..|patch.insertions|] == patch.insertions;
    return Some(out);
  }

  lemma GroundAsWritten(patch: Patch, p: Pattern)
    requires WellFormed(patch) && patch.conditions == [] && p in patch.insertions
    ensures p.s.PNamed? && p.p.PNamed? && !p.o.PVar?
    ensures Ground(p, map[]) ==
      Some(GroundTriple(p.s.iri, p.p.iri, if p.o.PNamed? then Node(p.o.iri) else Lit(p.o.literal)))
  {
    assert NoLiteralHead(p) by { assert p in patch.conditions + patch.deletions + patch.insertions; }
    NoVariables(p, patch);
  }

  /** Without conditions there is no variable anywhere, and every change is ground as written. */
  lemma GroundWithoutConditions(patch: Patch)
    requires WellFormed(patch) && patch.conditions == []
    ensures Groundable(patch.deletions, map[]) && Groundable(patch.insertions, map[])
  {
    VarsOfHas(patch.deletions);
    VarsOfHas(patch.insertions);
    forall p | p in patch.deletions || p in patch.insertions ensures Ground(p, map[]).Some? {
      assert NoLiteralHead(p) by { assert p in patch.conditions + patch.deletions + patch.insertions; }
      NoVariables(p, patch);
    }
  }

  lemma NoVariables(p: Pattern, patch: Patch)
    requires WellFormed(patch) && patch.conditions == [] && (p in patch.deletions || p in patch.insertions)
    ensures VarsOfPattern(p) == {} && !p.s.PVar? && !p.p.PVar? && !p.o.PVar?
  {
    VarsOfHas(patch.deletions);
    VarsOfHas(patch.insertions);
    assert forall v :: v in VarsOfPattern(p) ==> v in VarsOf(patch.deletions) || v in VarsOf(patch.insertions);
    assert VarsOfPattern(p) == {};
    assert forall t: PatternTerm :: t.PVar? ==> t.index in VarsOfTerm(t);
  }

  lemma SubstituteOneMore(ps: seq<Pattern>, p: Pattern)
    requires Ground(p, map[]).Some?
    ensures Substitute(ps + [p], map[]) == Substitute(ps, map[]) + {Ground(p, map[]).value}
  {
  }

  /** `create_by_patch`: the answer, and the graph it creates when it creates one. */
  method CreateByPatch(patch: Patch) returns (answer: PatchResult, created: Option<seq<GroundTriple>>)
    requires WellFormed(patch)
    ensures CreatesLikePatchingNothing(patch, answer, created)
  {
    CreationMatchesEmptyGraph(patch);
    var triples := GroundInsertions(patch);
    if triples.None? { return NoMapping, None; }
    if patch.deletions != [] { return DeletionMissing, None; }
    return Applied, triples;
  }

  /** For a resource whose graph is empty, the patch answers the same, and leaves the same triples. */
  ghost predicate CreatesLikePatchingNothing(patch: Patch, answer: PatchResult, created: Option<seq<GroundTriple>>) {
    (created.Some? <==> answer == Applied)
    && forall g: Graphs, n: Iri | At(g, n) == {} ::
         PatchGuarded(g, n, patch, None).1 == Ok(answer)
         && At(PatchGuarded(g, n, patch, None).0, n) == (if created.Some? then set t | t in created.value else {})
  }

  lemma CreationMatchesEmptyGraph(patch: Patch)
    requires WellFormed(patch)
    ensures forall g: Graphs, n: Iri | At(g, n) == {} && patch.conditions != [] ::
      PatchGuarded(g, n, patch, None) == (g, Ok(NoMapping))
    ensures forall g: Graphs, n: Iri | At(g, n) == {} && patch.conditions == [] && patch.deletions != [] ::
      PatchGuarded(g, n, patch, None) == (g, Ok(DeletionMissing))
    ensures patch.conditions == [] ==> Groundable(patch.insertions, map[])
    ensures forall g: Graphs, n: Iri | At(g, n) == {} && patch.conditions == [] && patch.deletions == [] ::
      PatchGuarded(g, n, patch, None).1 == Ok(Applied)
      && At(PatchGuarded(g, n, patch, None).0, n) == Substitute(patch.insertions, map[])
  {
    if patch.conditions != [] {
      assert Unsatisfied(patch.conditions, {}) by {
        forall m ensures !Solves(patch.conditions, {}, m) { assert patch.conditions[0] in patch.conditions; }
      }
    } else {
      GroundWithoutConditions(patch);
      if patch.deletions != [] {
        assert patch.deletions[0] in patch.deletions;
        assert Ground(patch.deletions[0], map[]).value in Substitute(patch.deletions, map[]);
      } else {
        assert Substitute(patch.deletions, map[]) == {};
        assert forall i: set<GroundTriple> :: ({} - {}) + i == i;
      }
    }
  }
}

/**
 What the numbering of names in src/patch.rs keeps of a patch document, and exactly when. A variable
 and a condition's blank node are filed in one map, the blank node under its label with `_:` before it.
 N3 lets a variable be spelled that way, so `?_:b` and `_:b` can meet.
 */
module Renumbering {
  import opened Wrappers
  import opened Terms
  import opened Patches
  import opened Storage
  import opened PatchParse

  // ----- the names a client wrote -----

  function NamesOfTerm(t: N3Term): set<N3Term> { if IsName(t) then {t} else {} }
  function NamesOfQuad(q: N3Quad): set<N3Term> { NamesOfTerm(q.s) + NamesOfTerm(q.p) + NamesOfTerm(q.o) }
  function NamesIn(qs: seq<N3Quad>): set<N3Term> { set q, t | q in qs && t in NamesOfQuad(q) :: t }

  lemma KeysAreOfNames(qs: seq<N3Quad>)
    ensures forall k :: k in KeysOf(qs) <==> exists t :: t in NamesIn(qs) && Key(t) == k
    ensures forall t :: t in NamesIn(qs) ==> IsName(t) && Key(t) in KeysOf(qs)
  {
    KeysOfHas(qs);
    forall k | k in KeysOf(qs) ensures exists t :: t in NamesIn(qs) && Key(t) == k {
      var q :| q in qs && k in KeysOfQuad(q);
      var t := NameOfKey(q, k);
      assert t in NamesIn(qs);
    }
    forall t | t in NamesIn(qs) ensures IsName(t) && Key(t) in KeysOf(qs) {
      var q :| q in qs && t in NamesOfQuad(q);
      KeyOfName(q, t);
    }
  }

  lemma NameOfKey(q: N3Quad, k: string) returns (t: N3Term)
    requires k in KeysOfQuad(q)
    ensures t in NamesOfQuad(q) && Key(t) == k
  {
    t := if k in KeysOfTerm(q.s) then q.s else if k in KeysOfTerm(q.p) then q.p else q.o;
  }

  lemma KeyOfName(q: N3Quad, t: N3Term)
    requires t in NamesOfQuad(q)
    ensures IsName(t) && Key(t) in KeysOfQuad(q)
  {
  }

  function ChangesOf(quads: seq<N3Quad>, s: N3Term): seq<N3Quad>
    requires FormulaOf(quads, s, SOLID_DELETES).Ok? && FormulaOf(quads, s, SOLID_INSERTS).Ok?
  {
    DeletionsOf(quads, s) + InsertionsOf(quads, s)
  }

  lemma NamesOfBoth(a: seq<N3Quad>, b: seq<N3Quad>)
    ensures NamesIn(a + b) == NamesIn(a) + NamesIn(b)
  {
  }

  // ----- what the documentation promises -----

  /** The unbound-variable rule of section 5.3.1 of the Solid Protocol, over names. */
  predicate BoundByName(changes: seq<N3Quad>, conditions: seq<N3Quad>) {
    forall t :: t in NamesIn(changes) && t.NVar? ==> t in NamesIn(conditions)
  }

  /** Distinct names have distinct indices. */
  predicate Faithful(names: map<string, nat>, written: set<N3Term>) {
    forall a, b :: a in written && b in written && Rendered(a, names) == Rendered(b, names) ==> a == b
  }

  /** Some variable among `written` is spelled like a blank node of the conditions. */
  predicate Meets(written: set<N3Term>, conditions: seq<N3Quad>) {
    exists v, b :: v in written && b in NamesIn(conditions) && Disguised(v, b)
  }

  // ----- which documents are accepted -----

  lemma ChangeNames(quads: seq<N3Quad>, s: N3Term)
    requires ShapeValid(quads, s)
    ensures forall t :: t in NamesIn(ChangesOf(quads, s)) ==> t.NVar? && t.name in KeysOf(ConditionsOf(quads, s))
  {
    forall t | t in NamesIn(ChangesOf(quads, s)) ensures t.NVar? && t.name in KeysOf(ConditionsOf(quads, s)) {
      var q :| q in ChangesOf(quads, s) && t in NamesOfQuad(q);
      assert ChangeOk(q, KeysOf(ConditionsOf(quads, s)));
    }
  }

  /** A document is accepted with a variable no condition binds if and only if that variable is spelled
      like a blank node of the conditions and occurs in none of them. */
  lemma UnboundIsAcceptedIffDisguised(quads: seq<N3Quad>, s: N3Term)
    requires ShapeValid(quads, s)
    ensures var c, d := ConditionsOf(quads, s), ChangesOf(quads, s);
            BoundByName(d, c) <==> !Meets(NamesIn(d) - NamesIn(c), c)
  {
    var c, d := ConditionsOf(quads, s), ChangesOf(quads, s);
    ChangeNames(quads, s);
    KeysAreOfNames(c);
    forall t | t in NamesIn(d) && t !in NamesIn(c) ensures Meets(NamesIn(d) - NamesIn(c), c) {
      assert Key(t) in KeysOf(c);
      var b :| b in NamesIn(c) && Key(b) == Key(t);
      SameKeyIffSameOrDisguised(t, b);
      assert t in NamesIn(d) - NamesIn(c) && Disguised(t, b);
    }
  }

  /** The shape rules with the unbound-variable rule over names in place of keys. */
  ghost predicate ShapeValidByName(quads: seq<N3Quad>, s: N3Term) {
    IsPatchSubject(quads, s)
    && FormulaOf(quads, s, SOLID_WHERE).Ok? && FormulaOf(quads, s, SOLID_DELETES).Ok?
    && FormulaOf(quads, s, SOLID_INSERTS).Ok?
    && (forall q :: q in ConditionsOf(quads, s) ==> ConditionOk(q))
    && (forall q :: q in ChangesOf(quads, s) ==> ConditionOk(q) && !q.s.NBlank? && !q.p.NBlank? && !q.o.NBlank?)
    && BoundByName(ChangesOf(quads, s), ConditionsOf(quads, s))
  }

  /** No document that keeps the rules is refused, and one that does not is accepted exactly when all it
      lacks is a binding for variables spelled like blank nodes of its conditions. */
  lemma AcceptedIffValidByNameOrDisguised(quads: seq<N3Quad>, s: N3Term)
    ensures ShapeValidByName(quads, s) ==> ShapeValid(quads, s)
    ensures ShapeValid(quads, s) ==>
        (ShapeValidByName(quads, s) <==>
          !Meets(NamesIn(ChangesOf(quads, s)) - NamesIn(ConditionsOf(quads, s)), ConditionsOf(quads, s)))
  {
    if ShapeValidByName(quads, s) {
      var c := ConditionsOf(quads, s);
      KeysAreOfNames(c);
      forall q | q in DeletionsOf(quads, s) || q in InsertionsOf(quads, s) ensures ChangeOk(q, KeysOf(c)) {
        assert q in ChangesOf(quads, s);
        VariablesAreKnown(q, ChangesOf(quads, s), c);
      }
    }
    if ShapeValid(quads, s) {
      UnboundIsAcceptedIffDisguised(quads, s);
      forall q | q in ChangesOf(quads, s) ensures ConditionOk(q) && !q.s.NBlank? && !q.p.NBlank? && !q.o.NBlank? {
        assert ChangeOk(q, KeysOf(ConditionsOf(quads, s)));
      }
    }
  }

  lemma VariablesAreKnown(q: N3Quad, changes: seq<N3Quad>, conditions: seq<N3Quad>)
    requires q in changes && BoundByName(changes, conditions)
    ensures forall t :: t in NamesOfQuad(q) && t.NVar? ==> t.name in KeysOf(conditions)
    ensures (q.s.NVar? ==> q.s.name in KeysOf(conditions)) && (q.p.NVar? ==> q.p.name in KeysOf(conditions))
            && (q.o.NVar? ==> q.o.name in KeysOf(conditions))
  {
    KeysAreOfNames(conditions);
    forall t | t in NamesOfQuad(q) && t.NVar? ensures t.name in KeysOf(conditions) {
      assert t in NamesIn(changes);
      assert Key(t) in KeysOf(conditions);
    }
    assert q.s.NVar? ==> q.s in NamesOfQuad(q);
    assert q.p.NVar? ==> q.p in NamesOfQuad(q);
    assert q.o.NVar? ==> q.o in NamesOfQuad(q);
  }

  // ----- when the numbering is faithful -----

  /** Every name in the patch's three formulae. */
  function Written(quads: seq<N3Quad>, s: N3Term): set<N3Term>
    requires FormulaOf(quads, s, SOLID_WHERE).Ok? && FormulaOf(quads, s, SOLID_DELETES).Ok?
    requires FormulaOf(quads, s, SOLID_INSERTS).Ok?
  {
    NamesIn(ConditionsOf(quads, s)) + NamesIn(ChangesOf(quads, s))
  }

  /** Among names the conditions account for, the indices are distinct if and only if nothing meets. */
  lemma FaithfulIffNothingMeets(conditions: seq<N3Quad>, written: set<N3Term>, names: map<string, nat>)
    requires Dense(names) && NamesIn(conditions) <= written
    requires forall t :: t in written ==> IsName(t) && Key(t) in names && (t.NBlank? ==> t in NamesIn(conditions))
    ensures Faithful(names, written) <==> !Meets(written, conditions)
  {
    if v, b :| v in written && b in NamesIn(conditions) && Disguised(v, b) {
      SameVariableIffSameName(names, v, b);
      assert b in written && v != b;
    } else {
      forall a, b | a in written && b in written && Rendered(a, names) == Rendered(b, names) ensures a == b {
        SameVariableIffSameName(names, a, b);
      }
    }
  }

  /** An accepted document is numbered as promised, one index a name and every variable of a change bound
      under its own name, if and only if no blank node `_:b` of its conditions meets a variable `?_:b`. */
  lemma NumberedAsPromisedIffNothingMeets(quads: seq<N3Quad>, s: N3Term, names: map<string, nat>, patch: Patch)
    requires ShapeValid(quads, s) && Numbered(quads, s, names, patch)
    ensures Faithful(names, Written(quads, s)) && BoundByName(ChangesOf(quads, s), ConditionsOf(quads, s))
            <==> !Meets(Written(quads, s), ConditionsOf(quads, s))
    ensures Faithful(names, Written(quads, s)) ==> BoundByName(ChangesOf(quads, s), ConditionsOf(quads, s))
  {
    WrittenAreAccountedFor(quads, s, names);
    FaithfulIffNothingMeets(ConditionsOf(quads, s), Written(quads, s), names);
    UnboundIsAcceptedIffDisguised(quads, s);
  }

  lemma WrittenAreAccountedFor(quads: seq<N3Quad>, s: N3Term, names: map<string, nat>)
    requires ShapeValid(quads, s) && names.Keys == KeysOf(ConditionsOf(quads, s))
    ensures forall t :: t in Written(quads, s) ==>
        IsName(t) && Key(t) in names && (t.NBlank? ==> t in NamesIn(ConditionsOf(quads, s)))
  {
    ChangeNames(quads, s);
    KeysAreOfNames(ConditionsOf(quads, s));
  }

  /** What a client can look for first: without a variable that begins like a blank node nothing meets. */
  lemma NothingMeetsWithoutThePrefix(written: set<N3Term>, conditions: seq<N3Quad>)
    requires forall t :: t in written && t.NVar? ==> !("_:" <= t.name)
    ensures !Meets(written, conditions)
  {
  }

  // ----- what the patch means, by the names in it -----

  type NameBinding = map<N3Term, GroundTerm>

  function ValueByName(t: N3Term, n: NameBinding): Option<GroundTerm> {
    match t
    case NNamed(i) => Some(Node(i))
    case NLit(l) => Some(Lit(l))
    case NTriple => None
    case _ => if t in n then Some(n[t]) else None
  }

  predicate MatchesByName(q: N3Quad, n: NameBinding, t: GroundTriple) {
    ValueByName(q.s, n) == Some(Node(t.s)) && ValueByName(q.p, n) == Some(Node(t.p)) && ValueByName(q.o, n) == Some(t.o)
  }

  /** The conditions as a basic graph pattern over the client's own names. */
  ghost predicate SolvesByName(conditions: seq<N3Quad>, g: set<GroundTriple>, n: NameBinding) {
    n.Keys == NamesIn(conditions) && forall q :: q in conditions ==> exists t :: t in g && MatchesByName(q, n, t)
  }

  /** A solution in indices read back over names. */
  function ByName(conditions: seq<N3Quad>, names: map<string, nat>, m: Binding): NameBinding {
    map t | t in NamesIn(conditions) && Key(t) in names && names[Key(t)] in m :: m[names[Key(t)]]
  }

  /** The two bindings say the same of every name. */
  ghost predicate Agree(conditions: seq<N3Quad>, names: map<string, nat>, m: Binding, n: NameBinding) {
    n.Keys == NamesIn(conditions)
    && forall t :: t in NamesIn(conditions) ==> Key(t) in names && names[Key(t)] in m && n[t] == m[names[Key(t)]]
  }

  /** What `Patches.Solves` asks of a solution's domain. */
  ghost predicate CoversIndicesOf(names: map<string, nat>, m: Binding) { forall i: nat :: i in m <==> i < |names| }

  ghost predicate NumbersConditions(conditions: seq<N3Quad>, names: map<string, nat>) {
    Dense(names) && names.Keys == KeysOf(conditions) && forall q :: q in conditions ==> ConditionOk(q)
  }

  lemma TermsAgree(t: N3Term, names: map<string, nat>, m: Binding, n: NameBinding, value: GroundTerm)
    requires !t.NTriple?
    requires IsName(t) ==> t in n && Key(t) in names && names[Key(t)] in m && n[t] == m[names[Key(t)]]
    ensures TermMatches(Rendered(t, names), m, value) <==> ValueByName(t, n) == Some(value)
  {
  }

  lemma QuadsAgree(conditions: seq<N3Quad>, names: map<string, nat>, m: Binding, n: NameBinding, q: N3Quad)
    requires Agree(conditions, names, m, n) && q in conditions && ConditionOk(q)
    ensures forall t :: PatternMatches(RenderedQuad(q, names), m, t) <==> MatchesByName(q, n, t)
  {
    assert forall x :: x in NamesOfQuad(q) ==> x in NamesIn(conditions);
    assert IsName(q.s) ==> q.s in NamesOfQuad(q);
    assert IsName(q.p) ==> q.p in NamesOfQuad(q);
    assert IsName(q.o) ==> q.o in NamesOfQuad(q);
    forall t ensures PatternMatches(RenderedQuad(q, names), m, t) <==> MatchesByName(q, n, t) {
      TermsAgree(q.s, names, m, n, Node(t.s));
      TermsAgree(q.p, names, m, n, Node(t.p));
      TermsAgree(q.o, names, m, n, t.o);
    }
  }

  ghost predicate AllMatch(ps: seq<Pattern>, g: set<GroundTriple>, m: Binding) {
    forall p :: p in ps ==> exists t :: t in g && PatternMatches(p, m, t)
  }

  ghost predicate AllMatchByName(qs: seq<N3Quad>, g: set<GroundTriple>, n: NameBinding) {
    forall q :: q in qs ==> exists t :: t in g && MatchesByName(q, n, t)
  }

  lemma MatchesAgree(conditions: seq<N3Quad>, names: map<string, nat>, g: set<GroundTriple>, m: Binding, n: NameBinding)
    requires Agree(conditions, names, m, n) && forall q :: q in conditions ==> ConditionOk(q)
    ensures AllMatch(RenderedAll(conditions, names), g, m) <==> AllMatchByName(conditions, g, n)
  {
    var ps := RenderedAll(conditions, names);
    if AllMatch(ps, g, m) {
      forall q | q in conditions ensures exists t :: t in g && MatchesByName(q, n, t) {
        var i :| 0 <= i < |conditions| && conditions[i] == q;
        assert ps[i] in ps;
        QuadsAgree(conditions, names, m, n, q);
      }
    }
    if AllMatchByName(conditions, g, n) {
      forall p | p in ps ensures exists t :: t in g && PatternMatches(p, m, t) {
        var i :| 0 <= i < |ps| && ps[i] == p;
        assert conditions[i] in conditions;
        QuadsAgree(conditions, names, m, n, conditions[i]);
      }
    }
  }

  /** Bindings that agree solve the two forms of the conditions alike. */
  lemma SolutionsAgree(conditions: seq<N3Quad>, names: map<string, nat>, g: set<GroundTriple>, m: Binding,
                       n: NameBinding)
    requires NumbersConditions(conditions, names) && CoversIndicesOf(names, m) && Agree(conditions, names, m, n)
    ensures Solves(RenderedAll(conditions, names), g, m) <==> SolvesByName(conditions, g, n)
  {
    IndicesAreVars(conditions, names, m);
    MatchesAgree(conditions, names, g, m, n);
    assert Solves(RenderedAll(conditions, names), g, m) <==> AllMatch(RenderedAll(conditions, names), g, m);
  }

  lemma IndicesAreVars(conditions: seq<N3Quad>, names: map<string, nat>, m: Binding)
    requires NumbersConditions(conditions, names)
    ensures m.Keys == VarsOf(RenderedAll(conditions, names)) <==> CoversIndicesOf(names, m)
  {
    CoversIndices(conditions, names);
    assert forall i: nat :: i in m <==> i in m.Keys;
  }

  lemma AgreesWithItsReading(conditions: seq<N3Quad>, names: map<string, nat>, m: Binding)
    requires NumbersConditions(conditions, names) && CoversIndicesOf(names, m)
    ensures Agree(conditions, names, m, ByName(conditions, names, m))
  {
    KeysAreOfNames(conditions);
  }

  /** Every solution of the numbered conditions is one of the client's, whatever is spelled how. */
  lemma NumberedSolutionsAreSolutions(conditions: seq<N3Quad>, names: map<string, nat>, g: set<GroundTriple>,
                                      m: Binding)
    requires NumbersConditions(conditions, names) && Solves(RenderedAll(conditions, names), g, m)
    ensures CoversIndicesOf(names, m) && Agree(conditions, names, m, ByName(conditions, names, m))
    ensures SolvesByName(conditions, g, ByName(conditions, names, m))
  {
    IndicesAreVars(conditions, names, m);
    AgreesWithItsReading(conditions, names, m);
    SolutionsAgree(conditions, names, g, m, ByName(conditions, names, m));
  }

  ghost function NameAt(conditions: seq<N3Quad>, names: map<string, nat>, i: nat): (t: N3Term)
    requires NumbersConditions(conditions, names) && i < |names|
    ensures t in NamesIn(conditions) && Key(t) in names && names[Key(t)] == i
  {
    KeysAreOfNames(conditions);
    assert Holds(names, i);
    var k :| k in names && names[k] == i;
    var t :| t in NamesIn(conditions) && Key(t) == k;
    t
  }

  ghost function ByIndex(conditions: seq<N3Quad>, names: map<string, nat>, n: NameBinding): Binding
    requires NumbersConditions(conditions, names) && n.Keys == NamesIn(conditions)
  {
    map i: nat | i < |names| :: n[NameAt(conditions, names, i)]
  }

  lemma OneNameAnIndex(conditions: seq<N3Quad>, names: map<string, nat>, t: N3Term)
    requires NumbersConditions(conditions, names) && t in NamesIn(conditions) && !Meets(NamesIn(conditions), conditions)
    ensures Key(t) in names && names[Key(t)] < |names| && NameAt(conditions, names, names[Key(t)]) == t
  {
    KeysAreOfNames(conditions);
    assert Key(t) in names;
    var u := NameAt(conditions, names, names[Key(t)]);
    assert Key(u) == Key(t);
    SameKeyIffSameOrDisguised(t, u);
  }

  lemma ReadBack(conditions: seq<N3Quad>, names: map<string, nat>, m: Binding, n: NameBinding)
    requires Agree(conditions, names, m, n)
    ensures ByName(conditions, names, m) == n
  {
  }

  /** A variable and the blank node it is spelled like have one value in every solution in indices. */
  lemma MetNamesShareAValue(conditions: seq<N3Quad>, names: map<string, nat>, m: Binding, n: NameBinding,
                            v: N3Term, b: N3Term)
    requires Agree(conditions, names, m, n) && v in n && b in n && Disguised(v, b)
    ensures n[v] == n[b]
  {
  }

  /** A graph in which one name of the conditions stands for something no other does. */
  lemma ToldApart(conditions: seq<N3Quad>, v: N3Term) returns (g: set<GroundTriple>, n: NameBinding)
    requires v in NamesIn(conditions) && forall q :: q in conditions ==> ConditionOk(q)
    ensures SolvesByName(conditions, g, n) && forall t :: t in n && t != v ==> n[t] != n[v]
  {
    n := map t | t in NamesIn(conditions) :: Node(OtherIri(if t == v then "v" else ""));
    g := set q | q in conditions :: Instance(q, n);
    forall q | q in conditions ensures exists t :: t in g && MatchesByName(q, n, t) {
      assert forall x :: x in NamesOfQuad(q) ==> x in NamesIn(conditions);
      InstanceMatches(q, n);
      assert Instance(q, n) in g;
    }
  }

  function Instance(q: N3Quad, n: NameBinding): GroundTriple {
    match (ValueByName(q.s, n), ValueByName(q.p, n), ValueByName(q.o, n))
    case (Some(Node(s)), Some(Node(p)), Some(o)) => GroundTriple(s, p, o)
    case _ => GroundTriple(OtherIri(""), OtherIri(""), Node(OtherIri("")))
  }

  lemma InstanceMatches(q: N3Quad, n: NameBinding)
    requires ConditionOk(q) && forall t :: t in NamesOfQuad(q) ==> t in n
    requires forall t :: t in n ==> n[t].Node?
    ensures MatchesByName(q, n, Instance(q, n))
  {
    assert IsName(q.s) ==> q.s in NamesOfQuad(q);
    assert IsName(q.p) ==> q.p in NamesOfQuad(q);
    assert IsName(q.o) ==> q.o in NamesOfQuad(q);
  }

  // ----- the verdict of the conditions, and what the changes write -----

  ghost predicate UniquelyByName(conditions: seq<N3Quad>, g: set<GroundTriple>, n: NameBinding) {
    SolvesByName(conditions, g, n) && forall other :: SolvesByName(conditions, g, other) ==> other == n
  }

  lemma ReadingIsInvertible(conditions: seq<N3Quad>, names: map<string, nat>, m: Binding)
    requires NumbersConditions(conditions, names) && CoversIndicesOf(names, m)
    ensures var n := ByName(conditions, names, m);
            n.Keys == NamesIn(conditions) && ByIndex(conditions, names, n) == m
  {
    var n := ByName(conditions, names, m);
    AgreesWithItsReading(conditions, names, m);
    var l := ByIndex(conditions, names, n);
    assert l.Keys == m.Keys;
    forall i | i in m ensures l[i] == m[i] {
      ValueAt(conditions, names, m, n, i);
    }
  }

  lemma ValueAt(conditions: seq<N3Quad>, names: map<string, nat>, m: Binding, n: NameBinding, i: nat)
    requires NumbersConditions(conditions, names) && Agree(conditions, names, m, n) && i in m && i < |names|
    ensures n[NameAt(conditions, names, i)] == m[i]
  {
  }

  /** The solution in indices of one over names. */
  ghost function Back(conditions: seq<N3Quad>, names: map<string, nat>, n: NameBinding): Binding {
    if NumbersConditions(conditions, names) && n.Keys == NamesIn(conditions) then ByIndex(conditions, names, n)
    else map[]
  }

  /** On this graph the solutions in indices and the solutions over names are the same ones, each with its reading. */
  ghost predicate Corresponds(conditions: seq<N3Quad>, names: map<string, nat>, g: set<GroundTriple>) {
    (forall m :: Solves(RenderedAll(conditions, names), g, m) ==>
       SolvesByName(conditions, g, ByName(conditions, names, m))
       && Back(conditions, names, ByName(conditions, names, m)) == m)
    && (forall n :: SolvesByName(conditions, g, n) ==>
          Solves(RenderedAll(conditions, names), g, Back(conditions, names, n))
          && ByName(conditions, names, Back(conditions, names, n)) == n)
  }

  /** Where nothing meets, the solutions correspond one to one. */
  lemma SolutionsCorrespond(conditions: seq<N3Quad>, names: map<string, nat>, g: set<GroundTriple>)
    requires NumbersConditions(conditions, names) && !Meets(NamesIn(conditions), conditions)
    ensures Corresponds(conditions, names, g)
  {
    forall m | Solves(RenderedAll(conditions, names), g, m)
      ensures SolvesByName(conditions, g, ByName(conditions, names, m))
      ensures Back(conditions, names, ByName(conditions, names, m)) == m
    {
      NumberedSolutionsAreSolutions(conditions, names, g, m);
      ReadingIsInvertible(conditions, names, m);
    }
    forall n | SolvesByName(conditions, g, n)
      ensures Solves(RenderedAll(conditions, names), g, Back(conditions, names, n))
      ensures ByName(conditions, names, Back(conditions, names, n)) == n
    {
      var m := Back(conditions, names, n);
      forall t | t in NamesIn(conditions)
        ensures Key(t) in names && names[Key(t)] in m && n[t] == m[names[Key(t)]]
      {
        OneNameAnIndex(conditions, names, t);
      }
      assert Agree(conditions, names, m, n);
      SolutionsAgree(conditions, names, g, m, n);
      ReadBack(conditions, names, m, n);
    }
  }

  /** No solution is lost: on every graph, each of the client's solutions is the reading of a numbered one. */
  ghost predicate KeepsSolutions(conditions: seq<N3Quad>, names: map<string, nat>) {
    forall g, n | SolvesByName(conditions, g, n) ::
      exists m :: Solves(RenderedAll(conditions, names), g, m) && ByName(conditions, names, m) == n
  }

  /** Renumbering keeps what the conditions match, on every graph, if and only if no variable of theirs is
      spelled like a blank node of theirs. */
  lemma SolutionsKeptIffNothingMeets(conditions: seq<N3Quad>, names: map<string, nat>)
    requires NumbersConditions(conditions, names)
    ensures KeepsSolutions(conditions, names) <==> !Meets(NamesIn(conditions), conditions)
  {
    if v, b :| v in NamesIn(conditions) && b in NamesIn(conditions) && Disguised(v, b) {
      var g, n := ToldApart(conditions, v);
      assert SolvesByName(conditions, g, n) && n[v] != n[b];
      forall m | Solves(RenderedAll(conditions, names), g, m) ensures ByName(conditions, names, m) != n {
        NumberedSolutionsAreSolutions(conditions, names, g, m);
        MetNamesShareAValue(conditions, names, m, ByName(conditions, names, m), v, b);
      }
    } else {
      forall g, n | SolvesByName(conditions, g, n)
        ensures exists m :: Solves(RenderedAll(conditions, names), g, m) && ByName(conditions, names, m) == n
      {
        SolutionsCorrespond(conditions, names, g);
        var m := Back(conditions, names, n);
        assert Solves(RenderedAll(conditions, names), g, m) && ByName(conditions, names, m) == n;
      }
    }
  }

  lemma OneMappingIsTheClients(conditions: seq<N3Quad>, names: map<string, nat>, g: set<GroundTriple>, m: Binding)
    requires Corresponds(conditions, names, g) && UniquelySolvedBy(RenderedAll(conditions, names), g, m)
    ensures UniquelyByName(conditions, g, ByName(conditions, names, m))
  {
    forall n | SolvesByName(conditions, g, n) ensures n == ByName(conditions, names, m) {
      assert Solves(RenderedAll(conditions, names), g, Back(conditions, names, n));
    }
  }

  lemma TheClientsIsOneMapping(conditions: seq<N3Quad>, names: map<string, nat>, g: set<GroundTriple>, n: NameBinding)
    requires Corresponds(conditions, names, g) && UniquelyByName(conditions, g, n)
    ensures UniquelySolvedBy(RenderedAll(conditions, names), g, Back(conditions, names, n))
  {
    forall m | Solves(RenderedAll(conditions, names), g, m) ensures m == Back(conditions, names, n) {
      assert SolvesByName(conditions, g, ByName(conditions, names, m));
    }
  }

  /** Then the numbered conditions have no mapping, one or several on the graph exactly when the client's
      have, and the one mapping is the client's. */
  lemma VerdictIsTheClients(conditions: seq<N3Quad>, names: map<string, nat>, g: set<GroundTriple>, patch: Patch)
    requires Corresponds(conditions, names, g) && patch.conditions == RenderedAll(conditions, names)
    ensures match FindMapping(g, patch)
            case OneMapping(m) => UniquelyByName(conditions, g, ByName(conditions, names, m))
            case Refused(NoMapping) => forall n :: !SolvesByName(conditions, g, n)
            case Refused(_) =>
              (exists n :: SolvesByName(conditions, g, n)) && forall n :: !UniquelyByName(conditions, g, n)
  {
    assert conditions != [] ==> patch.conditions[0] == RenderedQuad(conditions[0], names);
    match FindMapping(g, patch) {
      case OneMapping(m) =>
        assert UniquelySolvedBy(patch.conditions, g, m);
        OneMappingIsTheClients(conditions, names, g, m);
      case Refused(NoMapping) =>
      case Refused(SeveralMappings) =>
        var m :| Solves(patch.conditions, g, m);
        assert SolvesByName(conditions, g, ByName(conditions, names, m));
        forall n ensures !UniquelyByName(conditions, g, n) {
          if UniquelyByName(conditions, g, n) { TheClientsIsOneMapping(conditions, names, g, n); }
        }
    }
  }

  /** A term of a change as text, by name; a bound triple term cannot be written out. */
  function TextByName(t: N3Term, n: NameBinding): Option<GroundTerm> {
    match ValueByName(t, n) case Some(Quoted(_)) => None case v => v
  }

  predicate RendersByName(q: N3Quad, n: NameBinding) {
    TextByName(q.s, n).Some? && TextByName(q.o, n).Some?
    && match TextByName(q.p, n) case Some(Node(_)) => true case _ => false
  }

  function GroundByName(q: N3Quad, n: NameBinding): Option<GroundTriple> {
    match (TextByName(q.s, n), TextByName(q.p, n), TextByName(q.o, n))
    case (Some(Node(s)), Some(Node(p)), Some(o)) => Some(GroundTriple(s, p, o))
    case _ => None
  }

  lemma ChangeAgrees(conditions: seq<N3Quad>, names: map<string, nat>, m: Binding, n: NameBinding, q: N3Quad)
    requires Agree(conditions, names, m, n) && NamesOfQuad(q) <= NamesIn(conditions) && ConditionOk(q)
    ensures Renders(RenderedQuad(q, names), m) == RendersByName(q, n)
    ensures Ground(RenderedQuad(q, names), m) == GroundByName(q, n)
  {
    TextAgrees(q.s, names, m, n);
    TextAgrees(q.p, names, m, n);
    TextAgrees(q.o, names, m, n);
  }

  lemma TextAgrees(t: N3Term, names: map<string, nat>, m: Binding, n: NameBinding)
    requires !t.NTriple?
    requires t in NamesOfTerm(t) ==> t in n && Key(t) in names && names[Key(t)] in m && n[t] == m[names[Key(t)]]
    ensures GroundTermOf(Rendered(t, names), m) == TextByName(t, n)
  {
  }

  function SubstituteByName(qs: seq<N3Quad>, n: NameBinding): set<GroundTriple> {
    set q | q in qs && GroundByName(q, n).Some? :: GroundByName(q, n).value
  }

  predicate GroundableByName(qs: seq<N3Quad>, n: NameBinding) { forall q :: q in qs ==> GroundByName(q, n).Some? }
  predicate RenderableByName(qs: seq<N3Quad>, n: NameBinding) { forall q :: q in qs ==> RendersByName(q, n) }

  /** The formula's patterns write under `m` what the client wrote under `n`. */
  ghost predicate WritesTheSame(qs: seq<N3Quad>, names: map<string, nat>, m: Binding, n: NameBinding) {
    Substitute(RenderedAll(qs, names), m) == SubstituteByName(qs, n)
    && Groundable(RenderedAll(qs, names), m) == GroundableByName(qs, n)
    && Renderable(RenderedAll(qs, names), m) == RenderableByName(qs, n)
  }

  lemma RenderedElements(qs: seq<N3Quad>, names: map<string, nat>)
    ensures forall p :: p in RenderedAll(qs, names) <==> exists q :: q in qs && RenderedQuad(q, names) == p
  {
    forall p | p in RenderedAll(qs, names) ensures exists q :: q in qs && RenderedQuad(q, names) == p {
      var i :| 0 <= i < |qs| && RenderedAll(qs, names)[i] == p;
      assert qs[i] in qs;
    }
    forall q | q in qs ensures RenderedQuad(q, names) in RenderedAll(qs, names) {
      var i :| 0 <= i < |qs| && qs[i] == q;
      assert RenderedAll(qs, names)[i] == RenderedQuad(q, names);
    }
  }

  lemma FormulaWritesTheSame(qs: seq<N3Quad>, names: map<string, nat>, m: Binding, n: NameBinding)
    requires forall q :: q in qs ==>
      Renders(RenderedQuad(q, names), m) == RendersByName(q, n)
      && Ground(RenderedQuad(q, names), m) == GroundByName(q, n)
    ensures WritesTheSame(qs, names, m, n)
  {
    RenderedElements(qs, names);
    var ps := RenderedAll(qs, names);
    assert forall q :: q in qs ==> RenderedQuad(q, names) in ps;
    forall t ensures t in Substitute(ps, m) <==> t in SubstituteByName(qs, n) {
      if t in Substitute(ps, m) {
        var p :| p in ps && Ground(p, m) == Some(t);
        var q :| q in qs && RenderedQuad(q, names) == p;
      }
      if t in SubstituteByName(qs, n) {
        var q :| q in qs && GroundByName(q, n) == Some(t);
        assert Ground(RenderedQuad(q, names), m) == Some(t);
      }
    }
  }

  /** Where nothing meets, deletions and insertions write under a numbered solution what the client wrote
      under the solution it stands for, and are refused as text together with it. */
  lemma ChangesAreTheClients(quads: seq<N3Quad>, s: N3Term, names: map<string, nat>, m: Binding)
    requires ShapeValid(quads, s) && NumbersConditions(ConditionsOf(quads, s), names) && CoversIndicesOf(names, m)
    requires !Meets(Written(quads, s), ConditionsOf(quads, s))
    ensures WritesTheSame(DeletionsOf(quads, s), names, m, ByName(ConditionsOf(quads, s), names, m))
    ensures WritesTheSame(InsertionsOf(quads, s), names, m, ByName(ConditionsOf(quads, s), names, m))
  {
    var c := ConditionsOf(quads, s);
    var n := ByName(c, names, m);
    AgreesWithItsReading(c, names, m);
    forall q | q in DeletionsOf(quads, s) || q in InsertionsOf(quads, s)
      ensures Ground(RenderedQuad(q, names), m) == GroundByName(q, n)
      ensures Renders(RenderedQuad(q, names), m) == RendersByName(q, n)
    {
      BoundNames(quads, s, q);
      ChangeAgrees(c, names, m, n, q);
    }
    FormulaWritesTheSame(DeletionsOf(quads, s), names, m, n);
    FormulaWritesTheSame(InsertionsOf(quads, s), names, m, n);
  }

  lemma BoundNames(quads: seq<N3Quad>, s: N3Term, q: N3Quad)
    requires ShapeValid(quads, s) && !Meets(Written(quads, s), ConditionsOf(quads, s))
    requires q in DeletionsOf(quads, s) || q in InsertionsOf(quads, s)
    ensures ConditionOk(q) && NamesOfQuad(q) <= NamesIn(ConditionsOf(quads, s))
  {
    var c, d := ConditionsOf(quads, s), ChangesOf(quads, s);
    assert q in d && ChangeOk(q, KeysOf(c));
    UnboundIsAcceptedIffDisguised(quads, s);
    ChangeNames(quads, s);
    assert forall t :: t in NamesOfQuad(q) ==> t in NamesIn(d);
  }

  // ----- both failures happen -----

  const PATCH: N3Term := NNamed(OtherIri("http://e/patch"))

  /** One condition, one insertion. */
  function Document(c: N3Quad, i: N3Quad): seq<N3Quad> {
    [N3Quad(PATCH, NNamed(Vocab(RdfType)), NNamed(SOLID_INSERT_DELETE_PATCH), NDefault),
     N3Quad(PATCH, NNamed(SOLID_WHERE), NBlank("w"), NDefault),
     N3Quad(PATCH, NNamed(SOLID_INSERTS), NBlank("i"), NDefault), c, i]
  }

  lemma ObjectsOneMore(quads: seq<N3Quad>, q: N3Quad, subject: N3Term, predicate_: Iri)
    ensures Objects(quads + [q], subject, predicate_) ==
      Objects(quads, subject, predicate_) + (if NamesFormula(q, subject, predicate_) then [q.o] else [])
  {
    assert (quads + [q])[..|quads|] == quads;
  }

  lemma DocumentObjects(c: N3Quad, i: N3Quad, predicate_: Iri)
    requires c.graph != NDefault && i.graph != NDefault
    ensures var d := Document(c, i);
            Objects(d, PATCH, predicate_) ==
              (if predicate_ == Vocab(RdfType) then [d[0].o] else [])
              + (if predicate_ == SOLID_WHERE then [d[1].o] else [])
              + (if predicate_ == SOLID_INSERTS then [d[2].o] else [])
  {
    var d := Document(c, i);
    ObjectsOneMore([], d[0], PATCH, predicate_);
    ObjectsOneMore([] + [d[0]], d[1], PATCH, predicate_);
    ObjectsOneMore([] + [d[0]] + [d[1]], d[2], PATCH, predicate_);
    ObjectsOneMore([] + [d[0]] + [d[1]] + [d[2]], c, PATCH, predicate_);
    ObjectsOneMore([] + [d[0]] + [d[1]] + [d[2]] + [c], i, PATCH, predicate_);
    assert d == [] + [d[0]] + [d[1]] + [d[2]] + [c] + [i];
  }

  lemma DocumentWithin(c: N3Quad, i: N3Quad, f: string)
    ensures Within(Document(c, i), f) ==
      (if c.graph == NFormula(f) then [c] else []) + (if i.graph == NFormula(f) then [i] else [])
  {
    var d := Document(c, i);
    WithinOneMore([], d[0], f);
    WithinOneMore([] + [d[0]], d[1], f);
    WithinOneMore([] + [d[0]] + [d[1]], d[2], f);
    WithinOneMore([] + [d[0]] + [d[1]] + [d[2]], c, f);
    WithinOneMore([] + [d[0]] + [d[1]] + [d[2]] + [c], i, f);
    assert d == [] + [d[0]] + [d[1]] + [d[2]] + [c] + [i];
  }

  lemma PredicatesDiffer()
    ensures SOLID_WHERE != SOLID_INSERTS && SOLID_WHERE != SOLID_DELETES && SOLID_DELETES != SOLID_INSERTS
  {
    var w, d, i := SOLID_WHERE.text, SOLID_DELETES.text, SOLID_INSERTS.text;
    assert w[33] == 'w' && d[33] == 'd' && i[33] == 'i';
  }

  lemma DocumentIs(c: N3Quad, i: N3Quad)
    requires c.graph == NFormula("w") && i.graph == NFormula("i")
    ensures var d := Document(c, i);
            IsPatchSubject(d, PATCH)
            && FormulaOf(d, PATCH, SOLID_WHERE) == Ok(Some("w")) && ConditionsOf(d, PATCH) == [c]
            && FormulaOf(d, PATCH, SOLID_DELETES) == Ok(None) && DeletionsOf(d, PATCH) == []
            && FormulaOf(d, PATCH, SOLID_INSERTS) == Ok(Some("i")) && InsertionsOf(d, PATCH) == [i]
  {
    var d := Document(c, i);
    assert d[0] in d && DeclaresPatch(d[0]) && d[3] in d && d[4] in d;
    PredicatesDiffer();
    DocumentObjects(c, i, SOLID_WHERE);
    DocumentObjects(c, i, SOLID_DELETES);
    DocumentObjects(c, i, SOLID_INSERTS);
    assert "w"[0] != "i"[0];
    DocumentWithin(c, i, "w");
    DocumentWithin(c, i, "i");
  }

  lemma OneCondition(c: N3Quad)
    ensures KeysOf([c]) == KeysOfQuad(c) && NamesIn([c]) == NamesOfQuad(c)
  {
    assert [c][..0] == [];
    assert c in [c];
  }

  /** `where { _:b p o }, inserts { ?_:b q o }`, for any label, is accepted, and no condition binds `?_:b`. */
  lemma AnUnboundVariableIsAccepted(v: N3Term, b: N3Term, p: Iri, q: Iri, o: Iri) returns (quads: seq<N3Quad>)
    requires Disguised(v, b) && !IsReserved(p) && !IsReserved(q) && !IsReserved(o)
    ensures ShapeValid(quads, PATCH) && !ShapeValidByName(quads, PATCH)
    ensures v in NamesIn(InsertionsOf(quads, PATCH)) && v !in NamesIn(ConditionsOf(quads, PATCH))
  {
    var c := N3Quad(b, NNamed(p), NNamed(o), NFormula("w"));
    var i := N3Quad(v, NNamed(q), NNamed(o), NFormula("i"));
    quads := Document(c, i);
    DocumentIs(c, i);
    OneCondition(c);
    OneCondition(i);
    DisguisedIsKnown(c, i);
    NamesOfBoth(DeletionsOf(quads, PATCH), InsertionsOf(quads, PATCH));
  }

  lemma DisguisedIsKnown(c: N3Quad, i: N3Quad)
    requires Disguised(i.s, c.s) && c.p.NNamed? && c.o.NNamed? && i.p.NNamed? && i.o.NNamed?
    requires TermOk(c.p) && TermOk(c.o) && TermOk(i.p) && TermOk(i.o)
    ensures ConditionOk(c) && ChangeOk(i, KeysOfQuad(c))
    ensures NamesOfQuad(c) == {c.s} && NamesOfQuad(i) == {i.s} && i.s != c.s
  {
    assert Key(c.s) in KeysOfQuad(c);
  }

  /** `where { ?_:b p _:b }`, for any label, becomes a pattern of one variable, and loses its solution on a
      graph where the two ends differ. */
  lemma TwoNamesBecomeOne(v: N3Term, b: N3Term, p: Iri, x: Iri, y: Iri, names: map<string, nat>)
    requires Disguised(v, b) && !IsReserved(p) && x != y
    requires NumbersConditions([N3Quad(v, NNamed(p), b, NFormula("w"))], names)
    ensures var c, g := [N3Quad(v, NNamed(p), b, NFormula("w"))], {GroundTriple(x, p, Node(y))};
            |names| == 1 && Unsatisfied(RenderedAll(c, names), g)
            && SolvesByName(c, g, map[v := Node(x), b := Node(y)])
  {
    var q := N3Quad(v, NNamed(p), b, NFormula("w"));
    var g, n := {GroundTriple(x, p, Node(y))}, map[v := Node(x), b := Node(y)];
    OneCondition(q);
    assert names.Keys == {Key(b)} && |names| == |names.Keys|;
    assert SolvesByName([q], g, n) by {
      assert MatchesByName(q, n, GroundTriple(x, p, Node(y)));
      assert n.Keys == {v, b} == NamesOfQuad(q);
    }
    OneVariableNeedsOneValue(q, names, p, x, y);
  }

  lemma OneVariableNeedsOneValue(q: N3Quad, names: map<string, nat>, p: Iri, x: Iri, y: Iri)
    requires Disguised(q.s, q.o) && x != y
    ensures Unsatisfied(RenderedAll([q], names), {GroundTriple(x, p, Node(y))})
  {
    var ps := RenderedAll([q], names);
    assert ps[0] == RenderedQuad(q, names) && ps[0] in ps;
    assert Rendered(q.s, names) == Rendered(q.o, names);
  }
}

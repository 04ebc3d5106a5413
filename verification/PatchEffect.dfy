/**
 What applying a patch does and which access modes that calls for (src/resource.rs,
 `patch_guarded`; src/patch.rs, `required_modes`), against section 5.3.1 of the Solid Protocol.
 */
module PatchEffect {
  import opened Wrappers
  import opened Terms
  import opened Patches
  import opened Storage

  /** The one mapping the patch is applied under: the empty one if it has no conditions. */
  ghost predicate Mapped(patch: Patch, g: set<GroundTriple>, m: Binding) {
    if patch.conditions == [] then m == map[] else UniquelySolvedBy(patch.conditions, g, m)
  }

  ghost predicate TwoMappings(patch: Patch, g: set<GroundTriple>) {
    exists a, b :: a != b && Solves(patch.conditions, g, a) && Solves(patch.conditions, g, b)
  }

  /** Under `m` the graph holds an instance of every one of the patterns; the definition's own words, with no
      substitution in them. */
  ghost predicate HoldsAll(patterns: seq<Pattern>, m: Binding, g: set<GroundTriple>) {
    forall p :: p in patterns ==> exists t :: t in g && PatternMatches(p, m, t)
  }

  lemma GroundIsTheInstance(p: Pattern, m: Binding, t: GroundTriple)
    requires Renders(p, m)
    ensures PatternMatches(p, m, t) <==> Ground(p, m) == Some(t)
  {
  }

  lemma HoldsAllIffGroundThere(patterns: seq<Pattern>, m: Binding, g: set<GroundTriple>)
    requires Renderable(patterns, m)
    ensures HoldsAll(patterns, m, g) <==> There(DeletionSet(patterns, m), g)
  {
    forall p, t | p in patterns { GroundIsTheInstance(p, m, t); }
    if HoldsAll(patterns, m, g) {
      forall p | p in patterns ensures Ground(p, m).Some? && Ground(p, m).value in g {
        var t :| t in g && PatternMatches(p, m, t);
      }
    }
    if There(DeletionSet(patterns, m), g) {
      forall p | p in patterns ensures exists t :: t in g && PatternMatches(p, m, t) {
        assert Ground(p, m).value in Substitute(patterns, m);
      }
    }
  }

  /** What the code answers, by the definition's own cases: no mapping, several, text that does not parse,
      a deletion that is not there, or the change. */
  lemma PatchGuardedIsExact(g: Graphs, n: Iri, patch: Patch, guard: Option<Iri>)
    ensures var r := PatchGuarded(g, n, patch, guard).1;
            r == Ok(NoMapping) <==> patch.conditions != [] && Unsatisfied(patch.conditions, At(g, n))
    ensures var r := PatchGuarded(g, n, patch, guard).1;
            r == Ok(SeveralMappings) <==> patch.conditions != [] && TwoMappings(patch, At(g, n))
    ensures var r := PatchGuarded(g, n, patch, guard).1;
            r == Err(Backend) <==> exists m :: Mapped(patch, At(g, n), m) && !Writable(patch, m)
    ensures var r := PatchGuarded(g, n, patch, guard).1;
            r == Ok(DeletionMissing) <==>
              exists m :: Mapped(patch, At(g, n), m) && Writable(patch, m) && !HoldsAll(patch.deletions, m, At(g, n))
    ensures var r := PatchGuarded(g, n, patch, guard).1;
            r == Ok(Applied) <==>
              exists m :: Mapped(patch, At(g, n), m) && Writable(patch, m) && HoldsAll(patch.deletions, m, At(g, n))
  {
    var G := At(g, n);
    match FindMapping(G, patch) {
      case Refused(result) =>
        if result.SeveralMappings? { SeveralHasTwo(patch, G); }
      case OneMapping(m) =>
        assert Mapped(patch, G, m);
        if Writable(patch, m) { HoldsAllIffGroundThere(patch.deletions, m, G); }
    }
  }

  lemma SeveralHasTwo(patch: Patch, g: set<GroundTriple>)
    requires !Unsatisfied(patch.conditions, g) && forall m :: !UniquelySolvedBy(patch.conditions, g, m)
    ensures TwoMappings(patch, g)
  {
    var a :| Solves(patch.conditions, g, a);
    assert !UniquelySolvedBy(patch.conditions, g, a);
    var b :| Solves(patch.conditions, g, b) && b != a;
  }

  /** The store after a patch under its one mapping, text permitting: (G minus D) union what the
      insertions can write, exactly when D is there and the guard holds, and untouched otherwise. A failed
      guard alone is still answered `Applied`. */
  lemma PatchedStore(g: Graphs, n: Iri, patch: Patch, guard: Option<Iri>, m: Binding)
    requires Mapped(patch, At(g, n), m) && Writable(patch, m)
    ensures var h := PatchGuarded(g, n, patch, guard).0;
            var d, i := Substitute(patch.deletions, m), Substitute(patch.insertions, m);
            var changes := HoldsAll(patch.deletions, m, At(g, n)) && GuardHolds(g, guard);
            (At(h, n) == if changes then (At(g, n) - d) + i else At(g, n))
            && forall x: Iri :: x != n ==> At(h, x) == At(g, x)
  {
    HoldsAllIffGroundThere(patch.deletions, m, At(g, n));
    if Effectless(patch) {
      assert Substitute(patch.deletions, m) == {} && Substitute(patch.insertions, m) == {};
    }
  }

  lemma RefusedPatchTouchesNothing(g: Graphs, n: Iri, patch: Patch, guard: Option<Iri>)
    requires PatchGuarded(g, n, patch, guard).1 != Ok(Applied)
    ensures forall x: Iri :: At(PatchGuarded(g, n, patch, guard).0, x) == At(g, x)
  {
  }

  // ----- bindings that do not fit where the patch puts them -----

  /** A literal bound where an insertion or deletion has its subject: the text parses and stands for no triple. */
  predicate LiteralSubject(p: Pattern, m: Binding) { p.s.PVar? && p.s.index in m && m[p.s.index].Lit? }

  /** A triple term anywhere, or a literal for a predicate: there is no text for it. */
  predicate NoText(p: Pattern, m: Binding) {
    (p.s.PVar? && p.s.index in m && m[p.s.index].Quoted?)
    || (p.p.PVar? && p.p.index in m && !m[p.p.index].Node?)
    || (p.o.PVar? && p.o.index in m && m[p.o.index].Quoted?)
  }

  lemma ChangesAreBound(patch: Patch, p: Pattern)
    requires WellFormed(patch) && p in patch.deletions + patch.insertions
    ensures NoLiteralHead(p) && VarsOfPattern(p) <= VarsOf(patch.conditions)
  {
    assert p in patch.conditions + patch.deletions + patch.insertions;
    if p in patch.deletions {
      var i :| 0 <= i < |patch.deletions| && patch.deletions[i] == p;
      assert VarsOfPattern(p) <= VarsOf(patch.deletions);
    } else {
      var i :| 0 <= i < |patch.insertions| && patch.insertions[i] == p;
      assert VarsOfPattern(p) <= VarsOf(patch.insertions);
    }
  }

  lemma WhereBindingsFit(p: Pattern, m: Binding)
    requires NoLiteralHead(p) && VarsOfPattern(p) <= m.Keys
    ensures Renders(p, m) <==> !NoText(p, m)
    ensures Ground(p, m).Some? <==> !NoText(p, m) && !LiteralSubject(p, m)
  {
    assert p.s.PVar? ==> p.s.index in VarsOfPattern(p);
    assert p.p.PVar? ==> p.p.index in VarsOfPattern(p);
    assert p.o.PVar? ==> p.o.index in VarsOfPattern(p);
  }

  /** For a parsed patch the store refuses the text exactly when a triple term is bound, or a literal
      for a predicate. */
  lemma UnwritableIffNoText(patch: Patch, g: set<GroundTriple>, m: Binding)
    requires WellFormed(patch) && Mapped(patch, g, m)
    ensures !Writable(patch, m) <==> exists p :: p in patch.deletions + patch.insertions && NoText(p, m)
  {
    assert m.Keys == VarsOf(patch.conditions);
    forall p | p in patch.deletions + patch.insertions
      ensures Renders(p, m) <==> !NoText(p, m)
    {
      ChangesAreBound(patch, p);
      WhereBindingsFit(p, m);
    }
    assert Writable(patch, m) <==> forall p :: p in patch.deletions + patch.insertions ==> Renders(p, m);
  }

  /** A patch answered `Applied` under a guard that holds leaves every one of its insertions in the graph
      if and only if no insertion has a literal for its subject; one that has is left out and the rest is written. */
  lemma EveryInsertionLandsIffNoLiteralSubject(g: Graphs, n: Iri, patch: Patch, guard: Option<Iri>, m: Binding)
    requires WellFormed(patch) && Mapped(patch, At(g, n), m) && GuardHolds(g, guard)
    requires PatchGuarded(g, n, patch, guard).1 == Ok(Applied)
    ensures HoldsAll(patch.insertions, m, At(PatchGuarded(g, n, patch, guard).0, n)) <==>
              forall p :: p in patch.insertions ==> !LiteralSubject(p, m)
  {
    MappedIsUnique(patch, At(g, n), m);
    PatchGuardedIsExact(g, n, patch, guard);
    PatchedStore(g, n, patch, guard, m);
    assert m.Keys == VarsOf(patch.conditions);
    HeldAfterwards(patch, m, At(PatchGuarded(g, n, patch, guard).0, n));
  }

  lemma HeldAfterwards(patch: Patch, m: Binding, after: set<GroundTriple>)
    requires WellFormed(patch) && m.Keys == VarsOf(patch.conditions) && Writable(patch, m)
    requires Substitute(patch.insertions, m) <= after
    ensures HoldsAll(patch.insertions, m, after) <==> forall p :: p in patch.insertions ==> !LiteralSubject(p, m)
  {
    forall p | p in patch.insertions
      ensures LiteralSubject(p, m) <==> !exists t :: t in after && PatternMatches(p, m, t)
    {
      assert p in patch.deletions + patch.insertions;
      ChangesAreBound(patch, p);
      WhereBindingsFit(p, m);
      if Ground(p, m).Some? {
        GroundIsTheInstance(p, m, Ground(p, m).value);
        assert Ground(p, m).value in Substitute(patch.insertions, m);
      } else {
        forall t { GroundIsTheInstance(p, m, t); }
      }
    }
  }

  lemma MappedIsUnique(patch: Patch, g: set<GroundTriple>, m: Binding)
    requires Mapped(patch, g, m)
    ensures forall other :: Mapped(patch, g, other) ==> other == m
  {
  }

  /** A deletion with a literal for its subject is never there: the patch is refused as missing it, whatever
      the graph holds. */
  lemma LiteralSubjectDeletionIsMissing(g: Graphs, n: Iri, patch: Patch, guard: Option<Iri>, m: Binding)
    requires WellFormed(patch) && Mapped(patch, At(g, n), m) && Writable(patch, m)
    requires exists p :: p in patch.deletions && LiteralSubject(p, m)
    ensures PatchGuarded(g, n, patch, guard).1 == Ok(DeletionMissing)
  {
    var p :| p in patch.deletions && LiteralSubject(p, m);
    assert !HoldsAll(patch.deletions, m, At(g, n));
    PatchGuardedIsExact(g, n, patch, guard);
  }

  /** The input: `where { a p ?v } inserts { ?v q o . b q o }` on a graph whose one value is a literal. */
  function PartlyWritten(a: Iri, b: Iri, p: Iri, q: Iri, o: Iri): Patch {
    Patch([Pattern(PNamed(a), PNamed(p), PVar(0))], [],
          [Pattern(PVar(0), PNamed(q), PNamed(o)), Pattern(PNamed(b), PNamed(q), PNamed(o))], 1)
  }

  lemma APatchCanBePartlyWritten(n: Iri, a: Iri, b: Iri, p: Iri, q: Iri, o: Iri, l: Literal)
    ensures var patch, g := PartlyWritten(a, b, p, q, o), {GroundTriple(a, p, Lit(l))};
            var (h, r) := PatchGuarded(map[n := g], n, patch, None);
            WellFormed(patch) && r == Ok(Applied) && At(h, n) == g + {GroundTriple(b, q, Node(o))}
            && !HoldsAll(patch.insertions, map[0 := Lit(l)], At(h, n))
  {
    var patch, g := PartlyWritten(a, b, p, q, o), {GroundTriple(a, p, Lit(l))};
    var store, m: Binding := map[n := g], map[0 := Lit(l)];
    OneValueOneMapping(patch.conditions, a, p, l);
    assert VarsOf(patch.conditions) == {0};
    assert patch.insertions[0] in patch.insertions && patch.insertions[1] in patch.insertions;
    assert Ground(patch.insertions[0], m).None? && Ground(patch.insertions[1], m) == Some(GroundTriple(b, q, Node(o)));
    assert Substitute(patch.insertions, m) == {GroundTriple(b, q, Node(o))};
    assert Substitute(patch.deletions, m) == {};
    assert Mapped(patch, At(store, n), m) && Writable(patch, m) && HoldsAll(patch.deletions, m, g);
    PartlyWrittenIsWellFormed(a, b, p, q, o);
    PatchGuardedIsExact(store, n, patch, None);
    PatchedStore(store, n, patch, None, m);
    assert LiteralSubject(patch.insertions[0], m);
    EveryInsertionLandsIffNoLiteralSubject(store, n, patch, None, m);
  }

  lemma OneValueOneMapping(conditions: seq<Pattern>, a: Iri, p: Iri, l: Literal)
    requires conditions == [Pattern(PNamed(a), PNamed(p), PVar(0))]
    ensures UniquelySolvedBy(conditions, {GroundTriple(a, p, Lit(l))}, map[0 := Lit(l)])
  {
    var t: GroundTriple := GroundTriple(a, p, Lit(l));
    var m: Binding := map[0 := Lit(l)];
    assert VarsOf(conditions[1..]) == {};
    assert VarsOf(conditions) == {0};
    assert PatternMatches(conditions[0], m, t);
    forall other | Solves(conditions, {t}, other) ensures other == m {
      assert conditions[0] in conditions;
    }
  }

  lemma PartlyWrittenIsWellFormed(a: Iri, b: Iri, p: Iri, q: Iri, o: Iri)
    ensures WellFormed(PartlyWritten(a, b, p, q, o))
  {
    var patch := PartlyWritten(a, b, p, q, o);
    assert VarsOf(patch.conditions[1..]) == {} && VarsOf(patch.conditions) == {0};
    assert VarsOf(patch.insertions[1..][1..]) == {} && VarsOf(patch.insertions[1..]) == {}
           && VarsOf(patch.insertions) == {0};
  }

  // ----- access modes -----

  datatype RequiredModes = RequiredModes(read: bool, append: bool, write: bool)

  function ModesOf(patch: Patch): RequiredModes {
    RequiredModes(patch.conditions != [] || patch.deletions != [], patch.insertions != [], patch.deletions != [])
  }

  /** Without Write nothing is taken away; without Append nothing is added. */
  lemma WithoutWriteOrAppend(g: Graphs, n: Iri, patch: Patch, guard: Option<Iri>)
    ensures !ModesOf(patch).write ==> At(g, n) <= At(PatchGuarded(g, n, patch, guard).0, n)
    ensures !ModesOf(patch).append ==> At(PatchGuarded(g, n, patch, guard).0, n) <= At(g, n)
  {
  }

  /** Without Read the answer says nothing about the graph: it is always `Applied`, and what is added is the same
      whatever was there. */
  lemma WithoutReadNothingIsLearned(g: Graphs, n: Iri, patch: Patch, guard: Option<Iri>)
    requires WellFormed(patch) && !ModesOf(patch).read
    ensures PatchGuarded(g, n, patch, guard).1 == Ok(Applied)
    ensures var i := Substitute(patch.insertions, map[]);
            At(PatchGuarded(g, n, patch, guard).0, n) == if GuardHolds(g, guard) then At(g, n) + i else At(g, n)
  {
    assert Mapped(patch, At(g, n), map[]);
    forall p | p in patch.insertions ensures !NoText(p, map[]) {}
    UnwritableIffNoText(patch, At(g, n), map[]);
    PatchGuardedIsExact(g, n, patch, guard);
    PatchedStore(g, n, patch, guard, map[]);
  }

  /** The converse for Read: a patch that needs it is never answered `Applied` for an empty graph. */
  lemma ReadIsNeeded(patch: Patch, n: Iri)
    requires WellFormed(patch) && ModesOf(patch).read
    ensures PatchGuarded(map[], n, patch, None).1 != Ok(Applied)
  {
    if patch.conditions != [] {
      forall m ensures !Solves(patch.conditions, {}, m) { assert patch.conditions[0] in patch.conditions; }
      assert Unsatisfied(patch.conditions, {});
      assert At(map[], n) == {};
    } else {
      assert patch.deletions[0] in patch.deletions;
      assert !HoldsAll(patch.deletions, map[], {});
      assert Mapped(patch, {}, map[]);
      MappedIsUnique(patch, {}, map[]);
      PatchGuardedIsExact(map[], n, patch, None);
    }
  }

  // ----- when the modes asked for are needed -----

  ghost function AfterOn(G: set<GroundTriple>, n: Iri, patch: Patch): set<GroundTriple> {
    At(PatchGuarded(map[n := G], n, patch, None).0, n)
  }

  ghost function AnswerOn(G: set<GroundTriple>, n: Iri, patch: Patch): Result<PatchResult, StoreError> {
    PatchGuarded(map[n := G], n, patch, None).1
  }

  ghost predicate TakesAwaySomewhere(n: Iri, patch: Patch) { exists G :: !(G <= AfterOn(G, n, patch)) }
  ghost predicate AddsSomewhere(n: Iri, patch: Patch) { exists G :: !(AfterOn(G, n, patch) <= G) }

  /** The patch goes through on `G` under `m`. */
  ghost predicate Applies(patch: Patch, G: set<GroundTriple>, m: Binding) {
    Mapped(patch, G, m) && Writable(patch, m) && HoldsAll(patch.deletions, m, G)
  }

  lemma AppliedEffect(n: Iri, patch: Patch, G: set<GroundTriple>) returns (m: Binding)
    requires AfterOn(G, n, patch) != G
    ensures Applies(patch, G, m)
    ensures AfterOn(G, n, patch) == (G - Substitute(patch.deletions, m)) + Substitute(patch.insertions, m)
  {
    var g: Graphs := map[n := G];
    assert At(g, n) == G;
    if PatchGuarded(g, n, patch, None).1 != Ok(Applied) { RefusedPatchTouchesNothing(g, n, patch, None); }
    PatchGuardedIsExact(g, n, patch, None);
    assert PatchGuarded(g, n, patch, None).1 == Ok(Applied);
    m :| Mapped(patch, At(g, n), m) && Writable(patch, m) && HoldsAll(patch.deletions, m, At(g, n));
    PatchedStore(g, n, patch, None, m);
  }

  lemma EffectOfApplied(n: Iri, patch: Patch, G: set<GroundTriple>, m: Binding)
    requires Applies(patch, G, m)
    ensures AfterOn(G, n, patch) == (G - Substitute(patch.deletions, m)) + Substitute(patch.insertions, m)
    ensures Substitute(patch.deletions, m) <= G
  {
    var g: Graphs := map[n := G];
    assert At(g, n) == G;
    PatchedStore(g, n, patch, None, m);
    HoldsAllIffGroundThere(patch.deletions, m, G);
  }

  /** A patch takes something away from some graph if and only if on some graph it goes through and one of its
      deletions is not put back by its insertions. */
  lemma TakesAwayIff(n: Iri, patch: Patch)
    ensures TakesAwaySomewhere(n, patch) <==>
      exists G, m :: Applies(patch, G, m) && !(Substitute(patch.deletions, m) <= Substitute(patch.insertions, m))
  {
    if TakesAwaySomewhere(n, patch) {
      var G :| !(G <= AfterOn(G, n, patch));
      var m := AppliedEffect(n, patch, G);
      assert !(Substitute(patch.deletions, m) <= Substitute(patch.insertions, m));
    }
    if G, m :| Applies(patch, G, m) && !(Substitute(patch.deletions, m) <= Substitute(patch.insertions, m)) {
      EffectOfApplied(n, patch, G, m);
      var t :| t in Substitute(patch.deletions, m) && t !in Substitute(patch.insertions, m);
      assert t in G && t !in AfterOn(G, n, patch);
    }
  }

  /** It adds something to some graph if and only if it goes through on one that lacks one of its insertions. */
  lemma AddsIff(n: Iri, patch: Patch)
    ensures AddsSomewhere(n, patch) <==>
      exists G, m :: Applies(patch, G, m) && !(Substitute(patch.insertions, m) <= G)
  {
    if AddsSomewhere(n, patch) {
      var G :| !(AfterOn(G, n, patch) <= G);
      var m := AppliedEffect(n, patch, G);
      assert !(Substitute(patch.insertions, m) <= G);
    }
    if G, m :| Applies(patch, G, m) && !(Substitute(patch.insertions, m) <= G) {
      EffectOfApplied(n, patch, G, m);
      var t :| t in Substitute(patch.insertions, m) && t !in G;
      assert t in AfterOn(G, n, patch);
    }
  }

  lemma GroundChange(patch: Patch, p: Pattern)
    requires WellFormed(patch) && patch.conditions == [] && (p in patch.deletions || p in patch.insertions)
    ensures !p.s.PVar? && !p.p.PVar? && !p.o.PVar? && Ground(p, map[]).Some? && Renders(p, map[])
  {
    assert p in patch.deletions + patch.insertions;
    ChangesAreBound(patch, p);
    assert VarsOfPattern(p) == {};
    assert forall t: PatternTerm :: t.PVar? ==> t.index in VarsOfTerm(t);
    WhereBindingsFit(p, map[]);
  }

  lemma GroundIsInjective(p: Pattern, q: Pattern)
    requires !p.s.PVar? && !p.p.PVar? && !p.o.PVar? && !q.s.PVar? && !q.p.PVar? && !q.o.PVar?
    requires Ground(p, map[]).Some? && Ground(p, map[]) == Ground(q, map[])
    ensures p == q
  {
  }

  lemma GroundSubset(patch: Patch, a: seq<Pattern>, b: seq<Pattern>)
    requires WellFormed(patch) && patch.conditions == []
    requires forall p :: p in a || p in b ==> p in patch.deletions || p in patch.insertions
    ensures Substitute(a, map[]) <= Substitute(b, map[]) <==> forall p :: p in a ==> p in b
  {
    forall p | p in a || p in b { GroundChange(patch, p); }
    if Substitute(a, map[]) <= Substitute(b, map[]) {
      forall p | p in a ensures p in b {
        assert Ground(p, map[]).value in Substitute(a, map[]);
        var q :| q in b && Ground(q, map[]) == Ground(p, map[]);
        GroundIsInjective(p, q);
      }
    }
  }

  /** Without conditions: something is taken away somewhere exactly if some deletion is no insertion too, and
      added exactly if some insertion is no deletion too. */
  lemma WithoutConditionsIff(n: Iri, patch: Patch)
    requires WellFormed(patch) && patch.conditions == []
    ensures TakesAwaySomewhere(n, patch) <==> exists p :: p in patch.deletions && p !in patch.insertions
    ensures AddsSomewhere(n, patch) <==> exists p :: p in patch.insertions && p !in patch.deletions
  {
    var D, I := Substitute(patch.deletions, map[]), Substitute(patch.insertions, map[]);
    GroundSubset(patch, patch.deletions, patch.insertions);
    GroundSubset(patch, patch.insertions, patch.deletions);
    AppliesToItsDeletions(patch);
    TakesAwayIff(n, patch);
    AddsIff(n, patch);
    forall G, m | Applies(patch, G, m) ensures m == map[] && D <= G {
      AppliesAboveItsDeletions(n, patch, G, m);
    }
    assert TakesAwaySomewhere(n, patch) <==> !(D <= I);
    assert AddsSomewhere(n, patch) <==> !(I <= D);
  }

  lemma AppliesAboveItsDeletions(n: Iri, patch: Patch, G: set<GroundTriple>, m: Binding)
    requires patch.conditions == [] && Applies(patch, G, m)
    ensures m == map[] && Substitute(patch.deletions, map[]) <= G
  {
    EffectOfApplied(n, patch, G, m);
  }

  lemma AppliesToItsDeletions(patch: Patch)
    requires WellFormed(patch) && patch.conditions == []
    ensures Applies(patch, Substitute(patch.deletions, map[]), map[])
  {
    forall p | p in patch.deletions || p in patch.insertions { GroundChange(patch, p); }
    HoldsAllIffGroundThere(patch.deletions, map[], Substitute(patch.deletions, map[]));
  }

  /** Read is asked for exactly when some graph keeps the patch from being answered `Applied`; and of a patch
      without conditions that changes no triple back, Write exactly when it takes something away somewhere, and
      Append exactly when it adds something somewhere. */
  lemma ModesAreExact(n: Iri, patch: Patch)
    requires WellFormed(patch)
    ensures ModesOf(patch).read <==> exists G :: AnswerOn(G, n, patch) != Ok(Applied)
    ensures patch.conditions == [] && (forall p :: p in patch.deletions ==> p !in patch.insertions) ==>
        (ModesOf(patch).write <==> TakesAwaySomewhere(n, patch))
        && (ModesOf(patch).append <==> AddsSomewhere(n, patch))
    ensures ModesOf(patch).write == ModesOf(patch.(conditions := [])).write
    ensures ModesOf(patch).append == ModesOf(patch.(conditions := [])).append
  {
    if ModesOf(patch).read {
      ReadIsNeeded(patch, n);
      SameAnswer(n, patch);
      assert AnswerOn({}, n, patch) != Ok(Applied);
    } else {
      forall G { WithoutReadNothingIsLearned(map[n := G], n, patch, None); }
    }
    if patch.conditions == [] && forall p :: p in patch.deletions ==> p !in patch.insertions {
      WithoutConditionsIff(n, patch);
      if patch.deletions != [] { assert patch.deletions[0] in patch.deletions; }
      if patch.insertions != [] { assert patch.insertions[0] in patch.insertions; }
    }
  }

  /** An empty graph and an absent one are read alike. */
  lemma SameAnswer(n: Iri, patch: Patch)
    ensures AnswerOn({}, n, patch) == PatchGuarded(map[], n, patch, None).1
  {
    var g: Graphs := map[];
    assert At(g, n) == At(map[n := {}], n);
  }
}

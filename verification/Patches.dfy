/**
 N3 Patch documents (src/patch.rs): what a shape-valid patch is, and what it means to
 match its conditions against a graph. `PatchParse` builds these, `Storage` applies them.
 */
module Patches {
  import opened Wrappers
  import opened Terms

  datatype PatternTerm = PNamed(iri: Iri) | PLit(literal: Literal) | PVar(index: nat)
  datatype Pattern = Pattern(s: PatternTerm, p: PatternTerm, o: PatternTerm)
  datatype Patch = Patch(conditions: seq<Pattern>, deletions: seq<Pattern>, insertions: seq<Pattern>, variables: nat)

  function VarsOfTerm(t: PatternTerm): set<nat> {
    match t case PVar(i) => {i} case _ => {}
  }

  function VarsOfPattern(p: Pattern): set<nat> {
    VarsOfTerm(p.s) + VarsOfTerm(p.p) + VarsOfTerm(p.o)
  }

  function VarsOf(patterns: seq<Pattern>): (vars: set<nat>)
    ensures forall i, v :: 0 <= i < |patterns| && v in VarsOfPattern(patterns[i]) ==> v in vars
    ensures patterns == [] ==> vars == {}
  {
    if patterns == [] then {} else VarsOfPattern(patterns[0]) + VarsOf(patterns[1..])
  }

  predicate NoLiteralHead(p: Pattern) { !p.s.PLit? && !p.p.PLit? }

  /** What `Patch::parse` guarantees of every patch it lets exist. */
  ghost predicate WellFormed(patch: Patch) {
    (forall i: nat :: i in VarsOf(patch.conditions) <==> i < patch.variables)
    && VarsOf(patch.deletions) <= VarsOf(patch.conditions)
    && VarsOf(patch.insertions) <= VarsOf(patch.conditions)
    && (forall p :: p in patch.conditions + patch.deletions + patch.insertions ==> NoLiteralHead(p))
  }

  // ----- matching: the basic graph pattern semantics of the conditions' SELECT -----

  type Binding = map<nat, GroundTerm>

  predicate TermMatches(t: PatternTerm, m: Binding, value: GroundTerm) {
    match t
    case PNamed(iri) => value == Node(iri)
    case PLit(l) => value == Lit(l)
    case PVar(i) => i in m && m[i] == value
  }

  predicate PatternMatches(p: Pattern, m: Binding, t: GroundTriple) {
    TermMatches(p.s, m, Node(t.s)) && TermMatches(p.p, m, Node(t.p)) && TermMatches(p.o, m, t.o)
  }

  /** One row of the SELECT: it binds the conditions' variables and no others, and every condition is there. */
  ghost predicate Solves(conditions: seq<Pattern>, g: set<GroundTriple>, m: Binding) {
    m.Keys == VarsOf(conditions)
    && forall c :: c in conditions ==> exists t :: t in g && PatternMatches(c, m, t)
  }

  ghost predicate Unsatisfied(conditions: seq<Pattern>, g: set<GroundTriple>) {
    forall m :: !Solves(conditions, g, m)
  }

  ghost predicate UniquelySolvedBy(conditions: seq<Pattern>, g: set<GroundTriple>, m: Binding) {
    Solves(conditions, g, m) && forall other :: Solves(conditions, g, other) ==> other == m
  }

  // ----- substitution -----

  /** `ground_term`: a variable needs a binding, and a bound triple term cannot be written out. */
  function GroundTermOf(t: PatternTerm, m: Binding): Option<GroundTerm> {
    match t
    case PNamed(iri) => Some(Node(iri))
    case PLit(l) => Some(Lit(l))
    case PVar(i) => if i in m && !m[i].Quoted? then Some(m[i]) else None
  }

  /** The line of update text can be written and parsed: no triple term, and an IRI for a predicate. */
  predicate Renders(p: Pattern, m: Binding) {
    GroundTermOf(p.s, m).Some? && GroundTermOf(p.o, m).Some?
    && match GroundTermOf(p.p, m) case Some(Node(_)) => true case _ => false
  }

  predicate Renderable(patterns: seq<Pattern>, m: Binding) { forall p :: p in patterns ==> Renders(p, m) }

  /** The triple such a line stands for. SPARQL's grammar admits a literal subject, but no graph holds such a triple. */
  function Ground(p: Pattern, m: Binding): Option<GroundTriple> {
    match (GroundTermOf(p.s, m), GroundTermOf(p.p, m), GroundTermOf(p.o, m))
    case (Some(Node(s)), Some(Node(pr)), Some(o)) => Some(GroundTriple(s, pr, o))
    case _ => None
  }

  predicate Groundable(patterns: seq<Pattern>, m: Binding) {
    forall p :: p in patterns ==> Ground(p, m).Some?
  }

  /** What a template writes: a line that stands for no triple is left out. */
  function Substitute(patterns: seq<Pattern>, m: Binding): set<GroundTriple> {
    set p | p in patterns && Ground(p, m).Some? :: Ground(p, m).value
  }

  /** What the deletions ask to be there: nothing can meet a line that stands for no triple. */
  function DeletionSet(patterns: seq<Pattern>, m: Binding): Option<set<GroundTriple>> {
    if Groundable(patterns, m) then Some(Substitute(patterns, m)) else None
  }

  predicate There(d: Option<set<GroundTriple>>, g: set<GroundTriple>) { d.Some? && d.value <= g }
}

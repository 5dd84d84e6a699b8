/**
 * The description-logic element algebra: concepts (object sets) and roles
 * (object-pair sets) evaluated over finite planning states.
 *
 * Every element kind that the generator and the parser construct is a
 * constructor here; the factory of the system becomes these constructors.
 * Evaluation and the evaluate-time score are defined for the kinds whose
 * element code is part of this model (c_top, c_bot, c_some, c_equal, r_top);
 * complexity, canonical representation and the static flag are total.
 */
module Elements {

  /** A state: the object count of its planning instance and the indices of its true atoms. */
  datatype State = State(numObjects: nat, atoms: set<nat>)

  /** A concept denotation is a set of object indices, a role denotation a set of object pairs. */
  type ConceptDenotation = set<nat>
  type RoleDenotation = set<(nat, nat)>

  /** All object indices of an instance with `n` objects: a bitset of size `n` with every bit set. */
  function Objects(n: nat): (r: ConceptDenotation)
    ensures forall a: nat :: a in r <==> a < n
  {
    if n == 0 then {} else Objects(n - 1) + {n - 1}
  }

  /** All object pairs of an instance with `n` objects: a pair bitset with every bit set. */
  function Pairs(n: nat): (r: RoleDenotation)
    ensures forall a: nat, b: nat :: (a, b) in r <==> a < n && b < n
  {
    set a: nat, b: nat | a < n && b < n :: (a, b)
  }

  /** A role denotation is well formed for `n` objects when both ends of every pair are objects. */
  predicate RoleWithin(d: RoleDenotation, n: nat)
  {
    forall p :: p in d ==> p.0 < n && p.1 < n
  }

  datatype Concept =
    | CTop
    | CBot
    | CSome(someRole: Role, someConcept: Concept)
    | CEqual(equalLeft: Role, equalRight: Role)
    | CAnd(andLeft: Concept, andRight: Concept)
    | COr(orLeft: Concept, orRight: Concept)
    | CAll(allRole: Role, allConcept: Concept)

  datatype Role =
    | RTop
    | RCompose(composeLeft: Role, composeRight: Role)
    | RIdentity(identityConcept: Concept)
    | RTilC(tilRole: Role, tilConcept: Concept)

  /** Elements built only from kinds whose evaluation this model defines. */
  predicate EvaluableConcept(c: Concept)
  {
    match c
    case CTop => true
    case CBot => true
    case CSome(r, c') => EvaluableRole(r) && EvaluableConcept(c')
    case CEqual(l, r) => EvaluableRole(l) && EvaluableRole(r)
    case _ => false
  }

  predicate EvaluableRole(r: Role)
  {
    r.RTop?
  }

  // ---------------------------------------------------------------------------
  // Evaluation

  /** c_some's result: every first component of a pair of the role whose second component is in the concept. */
  function SomeResult(role: RoleDenotation, concept: ConceptDenotation): ConceptDenotation
  {
    set p | p in role && p.1 in concept :: p.0
  }

  /**
   * c_equal's result: start from all objects and erase the first component of
   * every pair in one role but not in the other.
   */
  function EqualResult(n: nat, left: RoleDenotation, right: RoleDenotation): ConceptDenotation
  {
    Objects(n)
      - (set p | p in left && p !in right :: p.0)
      - (set p | p in right && p !in left :: p.0)
  }

  /** The denotation of a concept in a state; the cached and uncached paths of the system agree with it. */
  function EvalConcept(c: Concept, s: State): (r: ConceptDenotation)
    requires EvaluableConcept(c)
    ensures r <= Objects(s.numObjects)
  {
    match c
    case CTop => Objects(s.numObjects)
    case CBot => {}
    case CSome(role, concept) =>
      var rd := EvalRole(role, s);
      var cd := EvalConcept(concept, s);
      assert forall p :: p in rd ==> p.0 < s.numObjects;
      SomeResult(rd, cd)
    case CEqual(left, right) =>
      EqualResult(s.numObjects, EvalRole(left, s), EvalRole(right, s))
  }

  function EvalRole(r: Role, s: State): (d: RoleDenotation)
    requires EvaluableRole(r)
    ensures RoleWithin(d, s.numObjects)
  {
    match r
    case RTop => Pairs(s.numObjects)
  }

  // ---------------------------------------------------------------------------
  // Complexity, canonical representation, static flag, score

  function ConceptComplexity(c: Concept): (k: nat)
    ensures k >= 1
  {
    match c
    case CTop => 1
    case CBot => 1
    case CSome(r, c') => RoleComplexity(r) + ConceptComplexity(c') + 1
    case CEqual(l, r) => RoleComplexity(l) + RoleComplexity(r) + 1
    case CAnd(l, r) => ConceptComplexity(l) + ConceptComplexity(r) + 1
    case COr(l, r) => ConceptComplexity(l) + ConceptComplexity(r) + 1
    case CAll(r, c') => RoleComplexity(r) + ConceptComplexity(c') + 1
  }

  function RoleComplexity(r: Role): (k: nat)
    ensures k >= 1
  {
    match r
    case RTop => 1
    case RCompose(l, r') => RoleComplexity(l) + RoleComplexity(r') + 1
    case RIdentity(c) => ConceptComplexity(c) + 1
    case RTilC(r', c) => RoleComplexity(r') + ConceptComplexity(c) + 1
  }

  function ConceptRepr(c: Concept): string
  {
    match c
    case CTop => "c_top"
    case CBot => "c_bot"
    case CSome(r, c') => "c_some(" + RoleRepr(r) + "," + ConceptRepr(c') + ")"
    case CEqual(l, r) => "c_equal(" + RoleRepr(l) + "," + RoleRepr(r) + ")"
    case CAnd(l, r) => "c_and(" + ConceptRepr(l) + "," + ConceptRepr(r) + ")"
    case COr(l, r) => "c_or(" + ConceptRepr(l) + "," + ConceptRepr(r) + ")"
    case CAll(r, c') => "c_all(" + RoleRepr(r) + "," + ConceptRepr(c') + ")"
  }

  function RoleRepr(r: Role): string
  {
    match r
    case RTop => "r_top"
    case RCompose(l, r') => "r_compose(" + RoleRepr(l) + "," + RoleRepr(r') + ")"
    case RIdentity(c) => "r_identity(" + ConceptRepr(c) + ")"
    case RTilC(r', c) => "r_til_c(" + RoleRepr(r') + "," + ConceptRepr(c) + ")"
  }

  /** Leaves are static; an operator is static when all its children are. */
  predicate ConceptIsStatic(c: Concept)
  {
    match c
    case CTop => true
    case CBot => true
    case CSome(r, c') => RoleIsStatic(r) && ConceptIsStatic(c')
    case CEqual(l, r) => RoleIsStatic(l) && RoleIsStatic(r)
    case CAnd(l, r) => ConceptIsStatic(l) && ConceptIsStatic(r)
    case COr(l, r) => ConceptIsStatic(l) && ConceptIsStatic(r)
    case CAll(r, c') => RoleIsStatic(r) && ConceptIsStatic(c')
  }

  predicate RoleIsStatic(r: Role)
  {
    match r
    case RTop => true
    case RCompose(l, r') => RoleIsStatic(l) && RoleIsStatic(r')
    case RIdentity(c) => ConceptIsStatic(c)
    case RTilC(r', c) => RoleIsStatic(r') && ConceptIsStatic(c)
  }

  /** The score constants of the system, whose values are not part of this model. */
  datatype ScoreConstants = ScoreConstants(constant: int, quadratic: int)

  function ConceptScore(c: Concept, k: ScoreConstants): int
    requires EvaluableConcept(c)
  {
    match c
    case CTop => k.constant
    case CBot => k.constant
    case CSome(r, c') => RoleScore(r, k) + ConceptScore(c', k) + k.quadratic
    case CEqual(l, r) => RoleScore(l, k) + RoleScore(r, k) + k.quadratic
  }

  function RoleScore(r: Role, k: ScoreConstants): int
    requires EvaluableRole(r)
  {
    match r
    case RTop => k.constant
  }

  // ---------------------------------------------------------------------------
  // Equality and hashing as the element classes define them

  /**
   * operator== of the concept classes: the same concrete kind, the same static
   * flag and, for c_equal, the same (interned, hence structurally equal) children.
   * Kinds whose comparison is not part of this model compare structurally.
   */
  predicate SameConcept(a: Concept, b: Concept)
  {
    match (a, b)
    case (CTop, CTop) => ConceptIsStatic(a) == ConceptIsStatic(b)
    case (CBot, CBot) => ConceptIsStatic(a) == ConceptIsStatic(b)
    case (CEqual(l1, r1), CEqual(l2, r2)) =>
      ConceptIsStatic(a) == ConceptIsStatic(b) && l1 == l2 && r1 == r2
    case _ => a == b
  }

  /** operator== of the role classes. */
  predicate SameRole(a: Role, b: Role)
  {
    match (a, b)
    case (RTop, RTop) => RoleIsStatic(a) == RoleIsStatic(b)
    case _ => a == b
  }

  /**
   * What an element's hash is combined from: its static flag and its children
   * (children are interned, so their canonical representations stand for them).
   */
  datatype HashInput = HashInput(isStatic: bool, children: seq<string>)

  /** c_top, c_bot and c_equal as their classes hash; the other kinds follow c_equal's pattern. */
  function ConceptHashInput(c: Concept): HashInput
  {
    match c
    case CTop => HashInput(ConceptIsStatic(c), [])
    case CBot => HashInput(ConceptIsStatic(c), [])
    case CSome(r, c') => HashInput(ConceptIsStatic(c), [RoleRepr(r), ConceptRepr(c')])
    case CEqual(l, r) => HashInput(ConceptIsStatic(c), [RoleRepr(l), RoleRepr(r)])
    case CAnd(l, r) => HashInput(ConceptIsStatic(c), [ConceptRepr(l), ConceptRepr(r)])
    case COr(l, r) => HashInput(ConceptIsStatic(c), [ConceptRepr(l), ConceptRepr(r)])
    case CAll(r, c') => HashInput(ConceptIsStatic(c), [RoleRepr(r), ConceptRepr(c')])
  }

  function RoleHashInput(r: Role): HashInput
  {
    match r
    case RTop => HashInput(RoleIsStatic(r), [])
    case RCompose(l, r') => HashInput(RoleIsStatic(r), [RoleRepr(l), RoleRepr(r')])
    case RIdentity(c) => HashInput(RoleIsStatic(r), [ConceptRepr(c)])
    case RTilC(r', c) => HashInput(RoleIsStatic(r), [RoleRepr(r'), ConceptRepr(c)])
  }
}

/**
 * What the element classes promise: the set semantics of each evaluated
 * kind, cardinalities of the full denotations, how complexity and score can
 * be read off the canonical representation, and the meaning of the static flag.
 */
module ElementProperties {
  import opened Elements
  import ReprInjectivity

  // ---------------------------------------------------------------------------
  // Cardinalities of the full denotations

  lemma {:induction false} ObjectsCount(n: nat)
    ensures |Objects(n)| == n
  {
    if n > 0 {
      var prev := Objects(n - 1);
      ObjectsCount(n - 1);
      assert n - 1 !in prev;
      assert Objects(n) == prev + {n - 1};
    }
  }

  /** The pairs `(a, b)` with `b < m`, for one fixed `a`. */
  function Row(a: nat, m: nat): set<(nat, nat)>
  {
    if m == 0 then {} else Row(a, m - 1) + {(a, m - 1)}
  }

  /** The pairs `(a, b)` with `a < k` and `b < m`. */
  function Grid(k: nat, m: nat): set<(nat, nat)>
  {
    if k == 0 then {} else Grid(k - 1, m) + Row(k - 1, m)
  }

  lemma {:induction false} RowMembers(a: nat, m: nat)
    ensures forall p :: p in Row(a, m) <==> p.0 == a && p.1 < m
  {
    if m > 0 {
      RowMembers(a, m - 1);
    }
  }

  lemma {:induction false} GridMembers(k: nat, m: nat)
    ensures forall p :: p in Grid(k, m) <==> p.0 < k && p.1 < m
  {
    if k > 0 {
      GridMembers(k - 1, m);
      RowMembers(k - 1, m);
    }
  }

  lemma {:induction false} RowCount(a: nat, m: nat)
    ensures |Row(a, m)| == m
  {
    if m > 0 {
      RowCount(a, m - 1);
      RowMembers(a, m - 1);
      assert (a, m - 1) !in Row(a, m - 1);
    }
  }

  /** Adding row `k - 1` adds `m` new pairs. */
  lemma GridStep(k: nat, m: nat)
    requires k > 0
    ensures |Grid(k, m)| == |Grid(k - 1, m)| + m
  {
    var g, r := Grid(k - 1, m), Row(k - 1, m);
    RowCount(k - 1, m);
    GridMembers(k - 1, m);
    RowMembers(k - 1, m);
    forall p | p in r
      ensures p !in g
    {
    }
    assert g * r == {};
    assert Grid(k, m) == g + r;
  }

  lemma MulStep(k: nat, m: nat)
    requires k > 0
    ensures (k - 1) * m + m == k * m
  {
  }

  lemma {:induction false} GridCount(k: nat, m: nat)
    ensures |Grid(k, m)| == k * m
  {
    if k > 0 {
      GridCount(k - 1, m);
      GridStep(k, m);
      MulStep(k, m);
    }
  }

  lemma PairsCount(n: nat)
    ensures |Pairs(n)| == n * n
  {
    GridMembers(n, n);
    assert Pairs(n) == Grid(n, n);
    GridCount(n, n);
  }

  // ---------------------------------------------------------------------------
  // Leaves

  /** c_top denotes every object of the state's instance, and nothing else. */
  lemma TopConceptSemantics(s: State, k: ScoreConstants)
    ensures forall a: nat :: a in EvalConcept(CTop, s) <==> a < s.numObjects
    ensures |EvalConcept(CTop, s)| == s.numObjects
    ensures ConceptComplexity(CTop) == 1 && ConceptRepr(CTop) == "c_top"
    ensures ConceptIsStatic(CTop) && ConceptScore(CTop, k) == k.constant
  {
    ObjectsCount(s.numObjects);
  }

  /** c_bot denotes the empty set whatever the object count. */
  lemma BotConceptSemantics(s: State, k: ScoreConstants)
    ensures |EvalConcept(CBot, s)| == 0
    ensures ConceptComplexity(CBot) == 1 && ConceptRepr(CBot) == "c_bot"
    ensures ConceptIsStatic(CBot) && ConceptScore(CBot, k) == k.constant
  {
  }

  /** r_top denotes every pair of objects: n * n pairs. */
  lemma TopRoleSemantics(s: State, k: ScoreConstants)
    ensures forall a: nat, b: nat :: (a, b) in EvalRole(RTop, s) <==> a < s.numObjects && b < s.numObjects
    ensures |EvalRole(RTop, s)| == s.numObjects * s.numObjects
    ensures RoleComplexity(RTop) == 1 && RoleRepr(RTop) == "r_top"
    ensures RoleIsStatic(RTop) && RoleScore(RTop, k) == k.constant
  {
    PairsCount(s.numObjects);
  }

  // ---------------------------------------------------------------------------
  // c_some

  /** a is in c_some(R, C) exactly when some b has (a, b) in R and b in C. */
  lemma SomeMembership(role: RoleDenotation, concept: ConceptDenotation, a: nat)
    ensures a in SomeResult(role, concept) <==> exists b: nat :: (a, b) in role && b in concept
  {
    if a in SomeResult(role, concept) {
      var p :| p in role && p.1 in concept && p.0 == a;
      assert (a, p.1) in role;
    }
    if exists b: nat :: (a, b) in role && b in concept {
      var b: nat :| (a, b) in role && b in concept;
      assert (a, b).0 == a;
    }
  }

  /** c_some is monotone in both its role and its concept. */
  lemma SomeMonotone(role: RoleDenotation, role': RoleDenotation, concept: ConceptDenotation, concept': ConceptDenotation)
    requires role <= role' && concept <= concept'
    ensures SomeResult(role, concept) <= SomeResult(role', concept')
  {
    forall a | a in SomeResult(role, concept)
      ensures a in SomeResult(role', concept')
    {
      SomeMembership(role, concept, a);
      SomeMembership(role', concept', a);
    }
  }

  // ---------------------------------------------------------------------------
  // c_equal

  /**
   * a is in c_equal(R, S) exactly when a is an object and R and S relate a to
   * the same objects.
   */
  lemma EqualMembership(n: nat, left: RoleDenotation, right: RoleDenotation, a: nat)
    requires RoleWithin(left, n) && RoleWithin(right, n)
    ensures a in EqualResult(n, left, right) <==>
              a < n && forall b: nat :: (a, b) in left <==> (a, b) in right
  {
    if a in EqualResult(n, left, right) {
      forall b: nat
        ensures (a, b) in left <==> (a, b) in right
      {
      }
    }
  }

  /** c_equal(R, R) denotes every object. */
  lemma EqualReflexive(n: nat, role: RoleDenotation)
    ensures EqualResult(n, role, role) == Objects(n)
  {
    assert (set p | p in role && p !in role :: p.0) == {};
  }

  /**
   * c_equal is symmetric as a denotation, but its representation keeps the
   * argument order: swapping distinct arguments changes the representation.
   */
  lemma EqualSymmetry(n: nat, left: RoleDenotation, right: RoleDenotation, l: Role, r: Role)
    ensures EqualResult(n, left, right) == EqualResult(n, right, left)
    ensures ConceptRepr(CEqual(l, r)) == ConceptRepr(CEqual(r, l)) <==> l == r
  {
    ReprInjectivity.ConceptReprInjective(CEqual(l, r), CEqual(r, l));
  }

  // ---------------------------------------------------------------------------
  // Static flag

  /**
   * Every evaluated element is static, and a static element denotes the same
   * set in all states of instances with the same object count: its value
   * does not depend on the state's atoms.
   */
  lemma {:induction false} StaticEvaluation(c: Concept, s: State, s': State)
    requires EvaluableConcept(c)
    requires s.numObjects == s'.numObjects
    ensures ConceptIsStatic(c)
    ensures EvalConcept(c, s) == EvalConcept(c, s')
    decreases c
  {
    match c
    case CTop =>
    case CBot =>
    case CSome(r, c') => StaticEvaluation(c', s, s');
    case CEqual(l, r) =>
  }

  // ---------------------------------------------------------------------------
  // Equality and hashing

  /**
   * The classes' equality coincides with structural equality: two tops (or
   * bots) are always equal, two c_equal elements when their children are.
   * Equal elements feed the same data to the hash.
   */
  lemma SameConceptIsEquality(a: Concept, b: Concept)
    ensures SameConcept(a, b) <==> a == b
    ensures SameConcept(a, b) ==> ConceptHashInput(a) == ConceptHashInput(b)
  {
  }

  /** Any two top roles are equal and hash alike; equality of roles is structural. */
  lemma SameRoleIsEquality(a: Role, b: Role)
    ensures SameRole(a, b) <==> a == b
    ensures a.RTop? && b.RTop? ==> SameRole(a, b) && RoleHashInput(a) == RoleHashInput(b)
  {
  }
}

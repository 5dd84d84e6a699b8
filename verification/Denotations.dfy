/**
 * Evaluation as the element classes perform it: the per-state denotation
 * cache consulted by `evaluate(state, caches)`, the batch evaluation over a
 * sequence of states, and the loops that compute the c_some and c_equal
 * results and the full bitsets of c_top and r_top.
 *
 * Every path is proved to compute the single reference semantics
 * `Elements.EvalConcept` / `Elements.EvalRole`.
 */
module Denotations {
  import opened Elements
  import ReprInjectivity

  // ---------------------------------------------------------------------------
  // The loops behind one denotation

  /** `denotation.set()` on a fresh bitset of `n` objects: every object index is inserted. */
  method FullConcept(n: nat) returns (d: ConceptDenotation)
    ensures d == Objects(n)
  {
    d := {};
    var i := 0;
    while i < n
      invariant i <= n
      invariant d == Objects(i)
    {
      d := d + {i};
      i := i + 1;
    }
  }

  /** `denotation.set()` on a fresh pair bitset of `n` objects: every pair is inserted. */
  method FullRole(n: nat) returns (d: RoleDenotation)
    ensures d == Pairs(n)
  {
    d := {};
    var a := 0;
    while a < n
      invariant a <= n
      invariant forall p: (nat, nat) :: p in d <==> p.0 < a && p.1 < n
    {
      var b := 0;
      while b < n
        invariant b <= n
        invariant forall p: (nat, nat) :: p in d <==> (p.0 < a && p.1 < n) || (p.0 == a && p.1 < b)
      {
        d := d + {(a, b)};
        b := b + 1;
      }
      a := a + 1;
    }
  }

  /**
   * c_some's `compute_result`: walk the pairs of the role and insert the
   * first component of every pair whose second component is in the concept.
   */
  method SomeCompute(role: RoleDenotation, concept: ConceptDenotation) returns (result: ConceptDenotation)
    ensures result == SomeResult(role, concept)
  {
    result := {};
    var todo := role;
    while todo != {}
      invariant todo <= role
      invariant result == SomeResult(role - todo, concept)
      decreases |todo|
    {
      var p :| p in todo;
      SomeResultStep(role - todo, p, concept);
      assert role - (todo - {p}) == (role - todo) + {p};
      if p.1 in concept {
        result := result + {p.0};
      }
      todo := todo - {p};
    }
    assert role - todo == role;
  }

  lemma SomeResultStep(done: RoleDenotation, p: (nat, nat), concept: ConceptDenotation)
    ensures SomeResult(done + {p}, concept)
         == SomeResult(done, concept) + (if p.1 in concept then {p.0} else {})
  {
  }

  /** Objects erased by one pass of c_equal's `compute_result`: first components of pairs of `pass` missing from `other`. */
  function Erased(pass: RoleDenotation, other: RoleDenotation): set<nat>
  {
    set p | p in pass && p !in other :: p.0
  }

  /**
   * c_equal's `compute_result`: start from every object, then erase the first
   * component of every pair of the left role missing from the right role, and
   * of every pair of the right role missing from the left role.
   */
  method EqualCompute(n: nat, left: RoleDenotation, right: RoleDenotation) returns (result: ConceptDenotation)
    ensures result == EqualResult(n, left, right)
  {
    result := FullConcept(n);
    result := ErasePass(result, left, right);
    result := ErasePass(result, right, left);
  }

  /** One loop of c_equal's `compute_result`: erase the first component of every pair of `pass` missing from `other`. */
  method ErasePass(start: ConceptDenotation, pass: RoleDenotation, other: RoleDenotation) returns (result: ConceptDenotation)
    ensures result == start - Erased(pass, other)
  {
    result := start;
    var todo := pass;
    while todo != {}
      invariant todo <= pass
      invariant result == start - Erased(pass - todo, other)
      decreases |todo|
    {
      var p :| p in todo;
      assert pass - (todo - {p}) == (pass - todo) + {p};
      ErasedStep(pass - todo, p, other);
      if p !in other {
        result := result - {p.0};
      }
      todo := todo - {p};
    }
    assert pass - todo == pass;
  }

  lemma ErasedStep(done: RoleDenotation, p: (nat, nat), other: RoleDenotation)
    ensures Erased(done + {p}, other) == Erased(done, other) + (if p !in other then {p.0} else {})
  {
  }

  // ---------------------------------------------------------------------------
  // Evaluation over a sequence of states

  /**
   * `evaluate(states, caches)`: one denotation per state, in state order.
   * Operators evaluate their children over all states first and then combine
   * the i-th child denotations for the i-th state.
   */
  method EvaluateConceptStates(c: Concept, states: seq<State>) returns (ds: seq<ConceptDenotation>)
    requires EvaluableConcept(c)
    ensures |ds| == |states|
    ensures forall i :: 0 <= i < |states| ==> ds[i] == EvalConcept(c, states[i])
    decreases c
  {
    match c
    case CTop =>
      ds := [];
      var i := 0;
      while i < |states|
        invariant i <= |states| && |ds| == i
        invariant forall k :: 0 <= k < i ==> ds[k] == EvalConcept(c, states[k])
      {
        var d := FullConcept(states[i].numObjects);
        ds := ds + [d];
        i := i + 1;
      }
    case CBot =>
      ds := [];
      var i := 0;
      while i < |states|
        invariant i <= |states| && |ds| == i
        invariant forall k :: 0 <= k < i ==> ds[k] == EvalConcept(c, states[k])
      {
        ds := ds + [{}];
        i := i + 1;
      }
    case CSome(role, concept) =>
      var rds := EvaluateRoleStates(role, states);
      var cds := EvaluateConceptStates(concept, states);
      ds := [];
      var i := 0;
      while i < |states|
        invariant i <= |states| && |ds| == i
        invariant forall k :: 0 <= k < i ==> ds[k] == EvalConcept(c, states[k])
      {
        var d := SomeCompute(rds[i], cds[i]);
        ds := ds + [d];
        i := i + 1;
      }
    case CEqual(left, right) =>
      var lds := EvaluateRoleStates(left, states);
      var rds := EvaluateRoleStates(right, states);
      ds := [];
      var i := 0;
      while i < |states|
        invariant i <= |states| && |ds| == i
        invariant forall k :: 0 <= k < i ==> ds[k] == EvalConcept(c, states[k])
      {
        var d := EqualCompute(states[i].numObjects, lds[i], rds[i]);
        ds := ds + [d];
        i := i + 1;
      }
  }

  method EvaluateRoleStates(r: Role, states: seq<State>) returns (ds: seq<RoleDenotation>)
    requires EvaluableRole(r)
    ensures |ds| == |states|
    ensures forall i :: 0 <= i < |states| ==> ds[i] == EvalRole(r, states[i])
  {
    ds := [];
    var i := 0;
    while i < |states|
      invariant i <= |states| && |ds| == i
      invariant forall k :: 0 <= k < i ==> ds[k] == EvalRole(r, states[k])
    {
      var d := FullRole(states[i].numObjects);
      ds := ds + [d];
      i := i + 1;
    }
  }

  // ---------------------------------------------------------------------------
  // The per-state denotation cache

  /**
   * The denotations cached for one state, keyed by the element's canonical
   * representation (which, by interning, identifies the element).
   */
  datatype Memo = Memo(concepts: map<string, ConceptDenotation>, roles: map<string, RoleDenotation>)

  /** Every cached entry of an evaluated element is that element's denotation in the state. */
  ghost predicate Sound(m: Memo, s: State)
  {
    && (forall c :: EvaluableConcept(c) && ConceptRepr(c) in m.concepts ==> m.concepts[ConceptRepr(c)] == EvalConcept(c, s))
    && (forall r :: EvaluableRole(r) && RoleRepr(r) in m.roles ==> m.roles[RoleRepr(r)] == EvalRole(r, s))
  }

  /** Entries are never rewritten: a later cache holds every earlier entry unchanged. */
  predicate Extends(m: Memo, m': Memo)
  {
    && (forall k :: k in m.concepts ==> k in m'.concepts && m'.concepts[k] == m.concepts[k])
    && (forall k :: k in m.roles ==> k in m'.roles && m'.roles[k] == m.roles[k])
  }

  lemma ExtendsTransitive(m1: Memo, m2: Memo, m3: Memo)
    requires Extends(m1, m2) && Extends(m2, m3)
    ensures Extends(m1, m3)
  {
  }

  /** Storing an element's true denotation keeps the cache sound: no other element shares its key. */
  lemma StoreConceptSound(m: Memo, s: State, c: Concept, v: ConceptDenotation)
    requires Sound(m, s) && EvaluableConcept(c) && v == EvalConcept(c, s)
    ensures Sound(m.(concepts := m.concepts[ConceptRepr(c) := v]), s)
  {
    var m' := m.(concepts := m.concepts[ConceptRepr(c) := v]);
    forall c' | EvaluableConcept(c') && ConceptRepr(c') in m'.concepts
      ensures m'.concepts[ConceptRepr(c')] == EvalConcept(c', s)
    {
      ReprInjectivity.ConceptReprInjective(c, c');
    }
  }

  lemma StoreRoleSound(m: Memo, s: State, r: Role, v: RoleDenotation)
    requires Sound(m, s) && EvaluableRole(r) && v == EvalRole(r, s)
    ensures Sound(m.(roles := m.roles[RoleRepr(r) := v]), s)
  {
    var m' := m.(roles := m.roles[RoleRepr(r) := v]);
    forall r' | EvaluableRole(r') && RoleRepr(r') in m'.roles
      ensures m'.roles[RoleRepr(r')] == EvalRole(r', s)
    {
      ReprInjectivity.RoleReprInjective(r, r');
    }
  }

  /**
   * `evaluate(state, caches)`: return the cached denotation when the element
   * has one, otherwise evaluate the children through the cache, combine,
   * store and return.
   */
  function CachedEvalConcept(c: Concept, s: State, m: Memo): (res: (ConceptDenotation, Memo))
    requires EvaluableConcept(c) && Sound(m, s)
    ensures res.0 == EvalConcept(c, s)
    ensures Sound(res.1, s) && Extends(m, res.1)
    ensures ConceptRepr(c) in res.1.concepts
    decreases c
  {
    var key := ConceptRepr(c);
    if key in m.concepts then (m.concepts[key], m)
    else
      var (v, m') :=
        match c
        case CTop => (Objects(s.numObjects), m)
        case CBot => ({}, m)
        case CSome(role, concept) =>
          (var (rd, m1) := CachedEvalRole(role, s, m);
           var (cd, m2) := CachedEvalConcept(concept, s, m1);
           ExtendsTransitive(m, m1, m2);
           (SomeResult(rd, cd), m2))
        case CEqual(left, right) =>
          (var (ld, m1) := CachedEvalRole(left, s, m);
           var (rd, m2) := CachedEvalRole(right, s, m1);
           ExtendsTransitive(m, m1, m2);
           (EqualResult(s.numObjects, ld, rd), m2));
      StoreConceptSound(m', s, c, v);
      (v, m'.(concepts := m'.concepts[key := v]))
  }

  function CachedEvalRole(r: Role, s: State, m: Memo): (res: (RoleDenotation, Memo))
    requires EvaluableRole(r) && Sound(m, s)
    ensures res.0 == EvalRole(r, s)
    ensures Sound(res.1, s) && Extends(m, res.1)
    ensures RoleRepr(r) in res.1.roles
  {
    var key := RoleRepr(r);
    if key in m.roles then (m.roles[key], m)
    else
      var v := Pairs(s.numObjects);
      StoreRoleSound(m, s, r, v);
      (v, m.(roles := m.roles[key := v]))
  }

  /**
   * Evaluating twice through the cache gives the same denotation and leaves
   * the cache unchanged after the first call.
   */
  lemma CachedEvalIdempotent(c: Concept, s: State, m: Memo)
    requires EvaluableConcept(c) && Sound(m, s)
    ensures var (v1, m1) := CachedEvalConcept(c, s, m);
            CachedEvalConcept(c, s, m1) == (v1, m1)
  {
    var (v1, m1) := CachedEvalConcept(c, s, m);
    assert ConceptRepr(c) in m1.concepts;
    assert m1.concepts[ConceptRepr(c)] == EvalConcept(c, s);
  }

  /** The cached and uncached paths agree, from the empty cache or any sound one. */
  lemma CachedAgreesWithUncached(c: Concept, s: State)
    requires EvaluableConcept(c)
    ensures CachedEvalConcept(c, s, Memo(map[], map[])).0 == EvalConcept(c, s)
  {
  }
}

/**
 * The hash-consing cache of elements, run sequentially.
 *
 * The cache maps a canonical representation to a non-owning reference. Live
 * objects sit on a heap with an owner count; handing out a reference adds an
 * owner, and the release of the last owner runs the erasing deleter, which
 * removes the object's key from the map. Because erasure happens at the last
 * release, a key in the map never refers to an expired object.
 */
module Interning {
  import opened Wrappers
  import opened Elements
  import ReprInjectivity

  /** A heap reference: the identity of a shared object. */
  type Ref = nat

  /** A live object: its value, the key it was registered under, and its number of owners. */
  datatype Obj<V> = Obj(value: V, key: string, owners: nat)

  /**
   * The map from keys to references (`m_cache`) and the objects it refers to.
   * `next` is the first reference never handed out.
   */
  datatype Cache<V> = Cache(heap: map<Ref, Obj<V>>, index: map<string, Ref>, next: Ref)

  function EmptyCache<V>(): (c: Cache<V>)
    ensures c.index == map[] && c.heap == map[]
  {
    Cache(map[], map[], 0)
  }

  /**
   * The cache invariant: every key refers to a live object registered under
   * that key whose representation is the key; every live object is the one
   * registered under its key and has at least one owner.
   */
  ghost predicate Valid<V>(c: Cache<V>, repr: V -> string)
  {
    && (forall k :: k in c.index ==> c.index[k] in c.heap && c.heap[c.index[k]].key == k && repr(c.heap[c.index[k]].value) == k)
    && (forall r :: r in c.heap ==> r < c.next && c.heap[r].owners > 0 && c.heap[r].key in c.index && c.index[c.heap[r].key] == r)
  }

  lemma EmptyValid<V>(repr: V -> string)
    ensures Valid(EmptyCache<V>(), repr)
  {
  }

  /**
   * `insert`: key the candidate by its representation. A live object under
   * that key is returned with one more owner and the candidate is dropped;
   * otherwise the candidate becomes a new object with one owner, registered
   * under the key.
   */
  function Insert<V>(c: Cache<V>, candidate: V, repr: V -> string): (res: (Cache<V>, Ref))
    requires Valid(c, repr)
    ensures Valid(res.0, repr)
    ensures res.1 in res.0.heap && repr(candidate) in res.0.index && res.0.index[repr(candidate)] == res.1
    ensures repr(res.0.heap[res.1].value) == repr(candidate)
    ensures repr(candidate) in c.index ==>
              && res.0.index == c.index
              && res.1 == c.index[repr(candidate)]
              && res.0.heap == c.heap[res.1 := c.heap[res.1].(owners := c.heap[res.1].owners + 1)]
              && res.0.next == c.next
    ensures repr(candidate) !in c.index ==>
              && res.0.index == c.index[repr(candidate) := res.1]
              && res.1 !in c.heap
              && res.0.heap == c.heap[res.1 := Obj(candidate, repr(candidate), 1)]
              && res.0.next == c.next + 1
  {
    var key := repr(candidate);
    if key in c.index then
      var r := c.index[key];
      var o := c.heap[r];
      (c.(heap := c.heap[r := o.(owners := o.owners + 1)]), r)
    else
      var r := c.next;
      (Cache(c.heap[r := Obj(candidate, key, 1)], c.index[key := r], c.next + 1), r)
  }

  /**
   * One owner lets go of an object. The last release runs the deleter: the
   * object's key is erased from the map and the object leaves the heap.
   */
  function Release<V>(c: Cache<V>, r: Ref, repr: V -> string): (c': Cache<V>)
    requires Valid(c, repr) && r in c.heap
    ensures Valid(c', repr)
    ensures c.heap[r].owners == 1 ==>
              && c'.index == (map k | k in c.index && k != c.heap[r].key :: c.index[k])
              && c'.heap == (map q | q in c.heap && q != r :: c.heap[q])
    ensures c.heap[r].owners > 1 ==>
              && c'.index == c.index
              && r in c'.heap && c'.heap[r] == c.heap[r].(owners := c.heap[r].owners - 1)
    ensures forall q :: q in c.heap && q != r ==> q in c'.heap && c'.heap[q] == c.heap[q]
  {
    var o := c.heap[r];
    if o.owners == 1 then
      Cache(map q | q in c.heap && q != r :: c.heap[q], map k | k in c.index && k != o.key :: c.index[k], c.next)
    else
      c.(heap := c.heap[r := o.(owners := o.owners - 1)])
  }

  /** `at`: a present key yields its object with one more owner; an absent key is an error. */
  function At<V>(c: Cache<V>, key: string, repr: V -> string): (res: Result<(Cache<V>, Ref), string>)
    requires Valid(c, repr)
    ensures res.Success? <==> key in c.index
    ensures res.Success? ==>
              && Valid(res.value.0, repr)
              && res.value.1 == c.index[key]
              && res.value.0.index == c.index
              && res.value.0.next == c.next
              && res.value.0.heap == c.heap[res.value.1 := c.heap[res.value.1].(owners := c.heap[res.value.1].owners + 1)]
              && repr(res.value.0.heap[res.value.1].value) == key
  {
    if key in c.index then
      var r := c.index[key];
      var o := c.heap[r];
      Success((c.(heap := c.heap[r := o.(owners := o.owners + 1)]), r))
    else
      Failure("key not in cache")
  }

  // ---------------------------------------------------------------------------
  // Properties

  /**
   * Structural sharing: two candidates with the same representation, inserted
   * one after the other, receive the same object.
   */
  lemma InsertTwiceShares<V>(c: Cache<V>, a: V, b: V, repr: V -> string)
    requires Valid(c, repr) && repr(a) == repr(b)
    ensures var (c1, r1) := Insert(c, a, repr);
            var (c2, r2) := Insert(c1, b, repr);
            r1 == r2 && c2.index == c1.index && c2.heap[r2].value == c1.heap[r1].value
  {
  }

  /** Inserting a fresh candidate and releasing it restores the map: no entry outlives its object. */
  lemma InsertReleaseRestores<V>(c: Cache<V>, v: V, repr: V -> string)
    requires Valid(c, repr) && repr(v) !in c.index
    ensures var (c1, r) := Insert(c, v, repr);
            Release(c1, r, repr).index == c.index && Release(c1, r, repr).heap == c.heap
  {
    var (c1, r) := Insert(c, v, repr);
    var c2 := Release(c1, r, repr);
    assert c2.index == c.index;
    assert c2.heap == c.heap;
  }

  /** At most one live object per key: distinct live objects have distinct keys. */
  lemma OneObjectPerKey<V>(c: Cache<V>, r1: Ref, r2: Ref, repr: V -> string)
    requires Valid(c, repr) && r1 in c.heap && r2 in c.heap
    ensures c.heap[r1].key == c.heap[r2].key <==> r1 == r2
  {
  }

  /**
   * For concepts and roles keyed by their canonical representation the
   * interned object is always structurally the candidate itself, because the
   * representation is uniquely readable.
   */
  lemma InternedConceptIsCandidate(c: Cache<Concept>, candidate: Concept)
    requires Valid(c, ConceptRepr)
    ensures var (c', r) := Insert(c, candidate, ConceptRepr);
            c'.heap[r].value == candidate
  {
    var (c', r) := Insert(c, candidate, ConceptRepr);
    ReprInjectivity.ConceptReprInjective(c'.heap[r].value, candidate);
  }

  lemma InternedRoleIsCandidate(c: Cache<Role>, candidate: Role)
    requires Valid(c, RoleRepr)
    ensures var (c', r) := Insert(c, candidate, RoleRepr);
            c'.heap[r].value == candidate
  {
    var (c', r) := Insert(c, candidate, RoleRepr);
    ReprInjectivity.RoleReprInjective(c'.heap[r].value, candidate);
  }

  // ---------------------------------------------------------------------------
  // One cache per element kind

  /**
   * `Caches`: four independent caches. Numerical and boolean elements are
   * not part of this model, so their element types are parameters.
   */
  datatype Caches<N, B> = Caches(
    concepts: Cache<Concept>,
    roles: Cache<Role>,
    numericals: Cache<N>,
    booleans: Cache<B>)

  function NewCaches<N, B>(): (cs: Caches<N, B>)
    ensures cs.concepts.index == map[] && cs.roles.index == map[]
    ensures cs.numericals.index == map[] && cs.booleans.index == map[]
  {
    Caches(EmptyCache(), EmptyCache(), EmptyCache(), EmptyCache())
  }

  ghost predicate CachesValid<N, B>(cs: Caches<N, B>, nrepr: N -> string, brepr: B -> string)
  {
    Valid(cs.concepts, ConceptRepr) && Valid(cs.roles, RoleRepr)
    && Valid(cs.numericals, nrepr) && Valid(cs.booleans, brepr)
  }

  function InsertConcept<N, B>(cs: Caches<N, B>, candidate: Concept, ghost nrepr: N -> string, ghost brepr: B -> string): (res: (Caches<N, B>, Ref))
    requires CachesValid(cs, nrepr, brepr)
    ensures CachesValid(res.0, nrepr, brepr)
    ensures res.0.roles == cs.roles && res.0.numericals == cs.numericals && res.0.booleans == cs.booleans
    ensures res.1 in res.0.concepts.heap && res.0.concepts.heap[res.1].value == candidate
  {
    var (cc, r) := Insert(cs.concepts, candidate, ConceptRepr);
    InternedConceptIsCandidate(cs.concepts, candidate);
    (cs.(concepts := cc), r)
  }

  function InsertRole<N, B>(cs: Caches<N, B>, candidate: Role, ghost nrepr: N -> string, ghost brepr: B -> string): (res: (Caches<N, B>, Ref))
    requires CachesValid(cs, nrepr, brepr)
    ensures CachesValid(res.0, nrepr, brepr)
    ensures res.0.concepts == cs.concepts && res.0.numericals == cs.numericals && res.0.booleans == cs.booleans
    ensures res.1 in res.0.roles.heap && res.0.roles.heap[res.1].value == candidate
  {
    var (rc, r) := Insert(cs.roles, candidate, RoleRepr);
    InternedRoleIsCandidate(cs.roles, candidate);
    (cs.(roles := rc), r)
  }
}

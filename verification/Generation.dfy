/**
 * The newer generator rules (c_top, c_all, r_identity, r_til_c), run for one
 * target complexity over the generator's data.
 *
 * Every candidate is evaluated on the sample (its denotations enter the
 * denotation cache), and it is kept exactly when its signature is newly
 * inserted into the hash table of its kind. A kept element is appended to the
 * list of the target complexity and the rule's count grows by one. Evaluation
 * of the candidates is not part of this model: the signature of an element
 * is the parameter `csig` / `rsig`.
 */
module Generation {
  import opened Elements
  import Enumeration
  import Rules

  /** The generator's data. */
  datatype GenData = GenData(
    concepts: seq<seq<Concept>>,   // kept concepts by complexity
    roles: seq<seq<Role>>,         // kept roles by complexity
    conceptTable: set<seq<int>>,   // signatures of kept concepts
    roleTable: set<seq<int>>,      // signatures of kept roles
    reprs: seq<string>,            // representations of kept elements, in order of acceptance
    tilCFeatures: seq<Role>,       // the generated-features slot r_til_c appends to
    conceptCache: set<string>,     // concepts whose denotations are cached
    roleCache: set<string>)        // roles whose denotations are cached

  /** The data together with the running rule's count. */
  datatype Progress = Progress(data: GenData, count: nat)

  // ---------------------------------------------------------------------------
  // One candidate

  /**
   * A concept candidate: kept iff its signature is new. c_all erases the
   * candidate's cached denotations on rejection; c_top does not.
   */
  function AddConcept(p: Progress, target: nat, c: Concept, csig: Concept -> seq<int>, eraseOnReject: bool): (q: Progress)
    requires target < |p.data.concepts|
    ensures q.data.roles == p.data.roles && q.data.roleTable == p.data.roleTable
    ensures q.data.tilCFeatures == p.data.tilCFeatures && q.data.roleCache == p.data.roleCache
    ensures csig(c) !in p.data.conceptTable ==>
              && q.data.concepts == p.data.concepts[target := p.data.concepts[target] + [c]]
              && q.data.conceptTable == p.data.conceptTable + {csig(c)}
              && q.data.reprs == p.data.reprs + [ConceptRepr(c)]
              && q.count == p.count + 1
              && ConceptRepr(c) in q.data.conceptCache
    ensures csig(c) in p.data.conceptTable ==>
              && q.data.concepts == p.data.concepts
              && q.data.conceptTable == p.data.conceptTable
              && q.data.reprs == p.data.reprs
              && q.count == p.count
              && (ConceptRepr(c) in q.data.conceptCache <==> !eraseOnReject)
    ensures q.data.conceptCache - {ConceptRepr(c)} == p.data.conceptCache - {ConceptRepr(c)}
  {
    var key := ConceptRepr(c);
    var d := p.data.(conceptCache := p.data.conceptCache + {key});
    if csig(c) !in d.conceptTable then
      Progress(
        d.(conceptTable := d.conceptTable + {csig(c)},
           reprs := d.reprs + [key],
           concepts := d.concepts[target := d.concepts[target] + [c]]),
        p.count + 1)
    else if eraseOnReject then
      Progress(d.(conceptCache := d.conceptCache - {key}), p.count)
    else
      Progress(d, p.count)
  }

  /**
   * A role candidate: kept iff its signature is new. r_identity records the
   * representation of a kept role; r_til_c appends the role to its
   * generated-features slot instead.
   */
  function AddRole(p: Progress, target: nat, r: Role, rsig: Role -> seq<int>, tilC: bool): (q: Progress)
    requires target < |p.data.roles|
    ensures q.data.concepts == p.data.concepts && q.data.conceptTable == p.data.conceptTable
    ensures q.data.conceptCache == p.data.conceptCache
    ensures q.data.roleCache == p.data.roleCache + {RoleRepr(r)}
    ensures rsig(r) !in p.data.roleTable ==>
              && q.data.roles == p.data.roles[target := p.data.roles[target] + [r]]
              && q.data.roleTable == p.data.roleTable + {rsig(r)}
              && q.count == p.count + 1
              && (if tilC then q.data.tilCFeatures == p.data.tilCFeatures + [r] && q.data.reprs == p.data.reprs
                  else q.data.reprs == p.data.reprs + [RoleRepr(r)] && q.data.tilCFeatures == p.data.tilCFeatures)
    ensures rsig(r) in p.data.roleTable ==>
              && q.data.roles == p.data.roles
              && q.data.roleTable == p.data.roleTable
              && q.data.reprs == p.data.reprs
              && q.data.tilCFeatures == p.data.tilCFeatures
              && q.count == p.count
  {
    var d := p.data.(roleCache := p.data.roleCache + {RoleRepr(r)});
    if rsig(r) !in d.roleTable then
      var d' := d.(roleTable := d.roleTable + {rsig(r)}, roles := d.roles[target := d.roles[target] + [r]]);
      if tilC then Progress(d'.(tilCFeatures := d'.tilCFeatures + [r]), p.count + 1)
      else Progress(d'.(reprs := d'.reprs + [RoleRepr(r)]), p.count + 1)
    else
      Progress(d, p.count)
  }

  // ---------------------------------------------------------------------------
  // A sequence of candidates

  function ConceptReprs(cs: seq<Concept>): (r: seq<string>)
    ensures |r| == |cs|
    ensures forall k :: 0 <= k < |cs| ==> r[k] == ConceptRepr(cs[k])
  {
    seq(|cs|, k requires 0 <= k < |cs| => ConceptRepr(cs[k]))
  }

  function RoleReprs(rs: seq<Role>): (r: seq<string>)
    ensures |r| == |rs|
    ensures forall k :: 0 <= k < |rs| ==> r[k] == RoleRepr(rs[k])
  {
    seq(|rs|, k requires 0 <= k < |rs| => RoleRepr(rs[k]))
  }

  /**
   * The concept candidates processed in order: only the target concept list
   * and the concept table can change.
   */
  function FoldConcepts(p: Progress, target: nat, cands: seq<Concept>, csig: Concept -> seq<int>, eraseOnReject: bool): (q: Progress)
    requires cands == [] || target < |p.data.concepts|
    ensures |q.data.concepts| == |p.data.concepts|
    ensures q.data.roles == p.data.roles && q.data.roleTable == p.data.roleTable && q.data.tilCFeatures == p.data.tilCFeatures
    ensures forall k :: 0 <= k < |p.data.concepts| && k != target ==> q.data.concepts[k] == p.data.concepts[k]
    ensures p.data.conceptTable <= q.data.conceptTable
    decreases |cands|
  {
    if cands == [] then p
    else
      var prev := FoldConcepts(p, target, cands[..|cands| - 1], csig, eraseOnReject);
      AddConcept(prev, target, cands[|cands| - 1], csig, eraseOnReject)
  }

  /** The role candidates processed in order: only the target role list, the role table and the records of kept roles can change. */
  function FoldRoles(p: Progress, target: nat, cands: seq<Role>, rsig: Role -> seq<int>, tilC: bool): (q: Progress)
    requires cands == [] || target < |p.data.roles|
    ensures |q.data.roles| == |p.data.roles|
    ensures q.data.concepts == p.data.concepts && q.data.conceptTable == p.data.conceptTable
    ensures forall k :: 0 <= k < |p.data.roles| && k != target ==> q.data.roles[k] == p.data.roles[k]
    ensures p.data.roleTable <= q.data.roleTable
    decreases |cands|
  {
    if cands == [] then p
    else
      var prev := FoldRoles(p, target, cands[..|cands| - 1], rsig, tilC);
      AddRole(prev, target, cands[|cands| - 1], rsig, tilC)
  }

  /**
   * A run of a concept rule only appends to the target list: the kept
   * elements are candidates, each is recorded among the representations in
   * the order kept, and each adds one to the count.
   */
  lemma {:induction false} FoldConceptsAppends(p: Progress, target: nat, cands: seq<Concept>, csig: Concept -> seq<int>, eraseOnReject: bool)
    requires target < |p.data.concepts|
    ensures var q := FoldConcepts(p, target, cands, csig, eraseOnReject);
            var before := p.data.concepts[target];
            && before <= q.data.concepts[target]
            && q.count == p.count + |q.data.concepts[target]| - |before|
            && q.data.reprs == p.data.reprs + ConceptReprs(q.data.concepts[target][|before|..])
            && forall e :: e in q.data.concepts[target][|before|..] ==> e in cands
    decreases |cands|
  {
    if cands != [] {
      var init, c := cands[..|cands| - 1], cands[|cands| - 1];
      FoldConceptsAppends(p, target, init, csig, eraseOnReject);
      var prev := FoldConcepts(p, target, init, csig, eraseOnReject);
      var q := FoldConcepts(p, target, cands, csig, eraseOnReject);
      var before := p.data.concepts[target];
      var added := prev.data.concepts[target][|before|..];
      assert prev.data.concepts[target] == before + added;
      if csig(c) !in prev.data.conceptTable {
        assert q.data.concepts[target] == before + (added + [c]);
        assert q.data.concepts[target][|before|..] == added + [c];
        assert ConceptReprs(added + [c]) == ConceptReprs(added) + [ConceptRepr(c)];
      }
    }
  }

  /**
   * A run of a role rule only appends to the target list: the kept elements
   * are candidates, each adds one to the count, and each is recorded in
   * order among the representations (r_identity) or in the generated-features
   * slot (r_til_c).
   */
  lemma {:induction false} FoldRolesAppends(p: Progress, target: nat, cands: seq<Role>, rsig: Role -> seq<int>, tilC: bool)
    requires target < |p.data.roles|
    ensures var q := FoldRoles(p, target, cands, rsig, tilC);
            var before := p.data.roles[target];
            && before <= q.data.roles[target]
            && q.count == p.count + |q.data.roles[target]| - |before|
            && (if tilC then q.data.tilCFeatures == p.data.tilCFeatures + q.data.roles[target][|before|..]
                             && q.data.reprs == p.data.reprs
                else q.data.reprs == p.data.reprs + RoleReprs(q.data.roles[target][|before|..])
                     && q.data.tilCFeatures == p.data.tilCFeatures)
            && forall e :: e in q.data.roles[target][|before|..] ==> e in cands
    decreases |cands|
  {
    if cands != [] {
      var init, r := cands[..|cands| - 1], cands[|cands| - 1];
      FoldRolesAppends(p, target, init, rsig, tilC);
      var prev := FoldRoles(p, target, init, rsig, tilC);
      var q := FoldRoles(p, target, cands, rsig, tilC);
      var before := p.data.roles[target];
      var added := prev.data.roles[target][|before|..];
      assert prev.data.roles[target] == before + added;
      if rsig(r) !in prev.data.roleTable {
        assert q.data.roles[target] == before + (added + [r]);
        assert q.data.roles[target][|before|..] == added + [r];
        assert RoleReprs(added + [r]) == RoleReprs(added) + [RoleRepr(r)];
      }
    }
  }

  lemma FoldConceptsSnoc(p: Progress, target: nat, cands: seq<Concept>, c: Concept, csig: Concept -> seq<int>, eraseOnReject: bool)
    requires target < |p.data.concepts|
    ensures FoldConcepts(p, target, cands + [c], csig, eraseOnReject)
         == AddConcept(FoldConcepts(p, target, cands, csig, eraseOnReject), target, c, csig, eraseOnReject)
  {
    assert (cands + [c])[..|cands|] == cands;
  }

  lemma FoldRolesSnoc(p: Progress, target: nat, cands: seq<Role>, r: Role, rsig: Role -> seq<int>, tilC: bool)
    requires target < |p.data.roles|
    ensures FoldRoles(p, target, cands + [r], rsig, tilC)
         == AddRole(FoldRoles(p, target, cands, rsig, tilC), target, r, rsig, tilC)
  {
    assert (cands + [r])[..|cands|] == cands;
  }

  // ---------------------------------------------------------------------------
  // The candidates of each rule

  function MakeAll(r: Role, c: Concept): Concept { CAll(r, c) }
  function MakeTilC(r: Role, c: Concept): Role { RTilC(r, c) }

  /** r_til_c reports the name of the role it builds: a candidate's representation is the name applied to its children. */
  lemma TilCNameIsKeyword(r: Role, c: Concept)
    ensures RoleRepr(MakeTilC(r, c)) == Rules.TilCRuleName + "(" + RoleRepr(r) + "," + ConceptRepr(c) + ")"
  {
    assert Rules.TilCRuleName + "(" == "r_til_c(";
  }

  /** c_all: every role of complexity `i` with every concept of complexity `target - i - 1`. */
  function AllCandidates(d: GenData, target: int): seq<Concept>
    requires Enumeration.SplitsInRange(d.roles, d.concepts, target, 1, target - 1)
  {
    Enumeration.Candidates(d.roles, d.concepts, target, 1, MakeAll)
  }

  /** r_til_c: every role of complexity `i` with every concept of complexity `target - i - 1`. */
  function TilCCandidates(d: GenData, target: int): seq<Role>
    requires Enumeration.SplitsInRange(d.roles, d.concepts, target, 1, target - 1)
  {
    Enumeration.Candidates(d.roles, d.concepts, target, 1, MakeTilC)
  }

  /** r_identity: the identity role of every concept of complexity `target - 1`, in list order. */
  function IdentityCandidates(d: GenData, target: nat): (r: seq<Role>)
    requires 1 <= target <= |d.concepts|
    ensures |r| == |d.concepts[target - 1]|
    ensures forall k :: 0 <= k < |r| ==> r[k] == RIdentity(d.concepts[target - 1][k])
  {
    seq(|d.concepts[target - 1]|, k requires 0 <= k < |d.concepts[target - 1]| => RIdentity(d.concepts[target - 1][k]))
  }

  // ---------------------------------------------------------------------------
  // The rules

  /** c_top, for target complexity 1: the single candidate c_top, kept iff its signature is new. */
  method GenerateTop(p: Progress, target: nat, csig: Concept -> seq<int>) returns (q: Progress)
    requires target == 1 && target < |p.data.concepts|
    ensures q == FoldConcepts(p, target, [CTop], csig, false)
    ensures csig(CTop) !in p.data.conceptTable <==> q.data.concepts[1] == p.data.concepts[1] + [CTop]
    ensures q.count <= p.count + 1
  {
    q := AddConcept(p, target, CTop, csig, false);
    assert [CTop][..0] == [];
  }

  /** c_all: the splits `1 .. target - 2`, role-major, erasing the cached denotations of a rejected candidate. */
  method GenerateAll(p: Progress, target: nat, csig: Concept -> seq<int>) returns (q: Progress)
    requires Enumeration.SplitsInRange(p.data.roles, p.data.concepts, target, 1, target - 1)
    requires target <= 2 || target < |p.data.concepts|
    ensures q == FoldConcepts(p, target, AllCandidates(p.data, target), csig, true)
  {
    q := p;
    ghost var done: seq<Concept> := [];
    var i := 1;
    while i < target - 1
      invariant 1 <= i <= if target >= 2 then target - 1 else 1
      invariant Enumeration.SplitsInRange(p.data.roles, p.data.concepts, target, 1, i)
      invariant done == Enumeration.Splits(p.data.roles, p.data.concepts, target, 1, MakeAll, i)
      invariant q == FoldConcepts(p, target, done, csig, true)
    {
      q, done := GenerateAllStep(p, target, i, q, done, csig);
      i := i + 1;
    }
  }

  /** Split `i`: every role of complexity `i` against every concept of complexity `target - i - 1`. */
  method GenerateAllStep(p: Progress, target: nat, i: nat, q0: Progress, ghost done0: seq<Concept>, csig: Concept -> seq<int>)
    returns (q: Progress, ghost done: seq<Concept>)
    requires Enumeration.SplitsInRange(p.data.roles, p.data.concepts, target, 1, target - 1)
    requires target < |p.data.concepts| && 1 <= i < target - 1
    requires done0 == Enumeration.Splits(p.data.roles, p.data.concepts, target, 1, MakeAll, i)
    requires q0 == FoldConcepts(p, target, done0, csig, true)
    ensures done == Enumeration.Splits(p.data.roles, p.data.concepts, target, 1, MakeAll, i + 1)
    ensures q == FoldConcepts(p, target, done, csig, true)
  {
    Enumeration.SplitsInRangeBelow(p.data.roles, p.data.concepts, target, 1, target - 1, i + 1);
    Enumeration.SplitsStep(p.data.roles, p.data.concepts, target, 1, MakeAll, i);
    q, done := GenerateAllSplit(p, target, p.data.roles[i], p.data.concepts[target - i - 1], q0, done0, csig);
  }

  /** One split: every role of one list against every concept of another, role-major. */
  method GenerateAllSplit(p: Progress, target: nat, rs: seq<Role>, cs: seq<Concept>, q0: Progress, ghost done0: seq<Concept>, csig: Concept -> seq<int>)
    returns (q: Progress, ghost done: seq<Concept>)
    requires target < |p.data.concepts|
    requires q0 == FoldConcepts(p, target, done0, csig, true)
    ensures done == done0 + Enumeration.Cross(rs, cs, MakeAll)
    ensures q == FoldConcepts(p, target, done, csig, true)
  {
    q, done := q0, done0;
    var m := 0;
    while m < |rs|
      invariant m <= |rs|
      invariant done == done0 + Enumeration.Cross(rs[..m], cs, MakeAll)
      invariant q == FoldConcepts(p, target, done, csig, true)
    {
      Enumeration.CrossProgress(done0, done, rs, m, cs, MakeAll);
      q, done := GenerateAllRow(p, target, rs[m], cs, q, done, csig);
      m := m + 1;
    }
    assert rs[..m] == rs;
  }

  /** One role of c_all against every concept of one list, in list order. */
  method GenerateAllRow(p: Progress, target: nat, r: Role, cs: seq<Concept>, q0: Progress, ghost done0: seq<Concept>, csig: Concept -> seq<int>)
    returns (q: Progress, ghost done: seq<Concept>)
    requires target < |p.data.concepts|
    requires q0 == FoldConcepts(p, target, done0, csig, true)
    ensures done == done0 + Enumeration.Row(r, cs, MakeAll)
    ensures q == FoldConcepts(p, target, done, csig, true)
  {
    q, done := q0, done0;
    var k := 0;
    while k < |cs|
      invariant k <= |cs|
      invariant done == done0 + Enumeration.Row(r, cs[..k], MakeAll)
      invariant q == FoldConcepts(p, target, done, csig, true)
    {
      var element := CAll(r, cs[k]);
      FoldConceptsSnoc(p, target, done, element, csig, true);
      Enumeration.RowSnoc(r, cs, k, MakeAll);
      q := AddConcept(q, target, element, csig, true);
      done := done + [element];
      k := k + 1;
    }
    assert cs[..k] == cs;
  }

  /** r_identity: the concepts of complexity `target - 1`, in list order, without erasure on rejection. */
  method GenerateIdentity(p: Progress, target: nat, rsig: Role -> seq<int>) returns (q: Progress)
    requires 1 <= target <= |p.data.concepts| && target < |p.data.roles|
    ensures q == FoldRoles(p, target, IdentityCandidates(p.data, target), rsig, false)
  {
    var cands := IdentityCandidates(p.data, target);
    var cs := p.data.concepts[target - 1];
    q := p;
    var k := 0;
    while k < |cs|
      invariant k <= |cs|
      invariant q == FoldRoles(p, target, cands[..k], rsig, false)
    {
      var element := RIdentity(q.data.concepts[target - 1][k]);
      assert element == cands[k];
      FoldRolesSnoc(p, target, cands[..k], element, rsig, false);
      assert cands[..k + 1] == cands[..k] + [element];
      q := AddRole(q, target, element, rsig, false);
      k := k + 1;
    }
    assert cands[..k] == cands;
  }

  /** r_til_c: the splits `1 .. target - 2`, role-major. */
  method GenerateTilC(p: Progress, target: nat, rsig: Role -> seq<int>) returns (q: Progress)
    requires Enumeration.SplitsInRange(p.data.roles, p.data.concepts, target, 1, target - 1)
    requires target <= 2 || target < |p.data.roles|
    ensures q == FoldRoles(p, target, TilCCandidates(p.data, target), rsig, true)
  {
    q := p;
    ghost var done: seq<Role> := [];
    var i := 1;
    while i < target - 1
      invariant 1 <= i <= if target >= 2 then target - 1 else 1
      invariant Enumeration.SplitsInRange(p.data.roles, p.data.concepts, target, 1, i)
      invariant done == Enumeration.Splits(p.data.roles, p.data.concepts, target, 1, MakeTilC, i)
      invariant q == FoldRoles(p, target, done, rsig, true)
    {
      q, done := GenerateTilCStep(p, target, i, q, done, rsig);
      i := i + 1;
    }
  }

  /** Split `i`: every role of complexity `i` against every concept of complexity `target - i - 1`. */
  method GenerateTilCStep(p: Progress, target: nat, i: nat, q0: Progress, ghost done0: seq<Role>, rsig: Role -> seq<int>)
    returns (q: Progress, ghost done: seq<Role>)
    requires Enumeration.SplitsInRange(p.data.roles, p.data.concepts, target, 1, target - 1)
    requires target < |p.data.roles| && 1 <= i < target - 1
    requires done0 == Enumeration.Splits(p.data.roles, p.data.concepts, target, 1, MakeTilC, i)
    requires q0 == FoldRoles(p, target, done0, rsig, true)
    ensures done == Enumeration.Splits(p.data.roles, p.data.concepts, target, 1, MakeTilC, i + 1)
    ensures q == FoldRoles(p, target, done, rsig, true)
  {
    Enumeration.SplitsInRangeBelow(p.data.roles, p.data.concepts, target, 1, target - 1, i + 1);
    Enumeration.SplitsStep(p.data.roles, p.data.concepts, target, 1, MakeTilC, i);
    q, done := GenerateTilCSplit(p, target, p.data.roles[i], p.data.concepts[target - i - 1], q0, done0, rsig);
  }

  /** One split: every role of one list against every concept of another, role-major. */
  method GenerateTilCSplit(p: Progress, target: nat, rs: seq<Role>, cs: seq<Concept>, q0: Progress, ghost done0: seq<Role>, rsig: Role -> seq<int>)
    returns (q: Progress, ghost done: seq<Role>)
    requires target < |p.data.roles|
    requires q0 == FoldRoles(p, target, done0, rsig, true)
    ensures done == done0 + Enumeration.Cross(rs, cs, MakeTilC)
    ensures q == FoldRoles(p, target, done, rsig, true)
  {
    q, done := q0, done0;
    var m := 0;
    while m < |rs|
      invariant m <= |rs|
      invariant done == done0 + Enumeration.Cross(rs[..m], cs, MakeTilC)
      invariant q == FoldRoles(p, target, done, rsig, true)
    {
      Enumeration.CrossProgress(done0, done, rs, m, cs, MakeTilC);
      q, done := GenerateTilCRow(p, target, rs[m], cs, q, done, rsig);
      m := m + 1;
    }
    assert rs[..m] == rs;
  }

  /** One role of r_til_c against every concept of one list, in list order. */
  method GenerateTilCRow(p: Progress, target: nat, r: Role, cs: seq<Concept>, q0: Progress, ghost done0: seq<Role>, rsig: Role -> seq<int>)
    returns (q: Progress, ghost done: seq<Role>)
    requires target < |p.data.roles|
    requires q0 == FoldRoles(p, target, done0, rsig, true)
    ensures done == done0 + Enumeration.Row(r, cs, MakeTilC)
    ensures q == FoldRoles(p, target, done, rsig, true)
  {
    q, done := q0, done0;
    var k := 0;
    while k < |cs|
      invariant k <= |cs|
      invariant done == done0 + Enumeration.Row(r, cs[..k], MakeTilC)
      invariant q == FoldRoles(p, target, done, rsig, true)
    {
      var element := RTilC(r, cs[k]);
      FoldRolesSnoc(p, target, done, element, rsig, true);
      Enumeration.RowSnoc(r, cs, k, MakeTilC);
      q := AddRole(q, target, element, rsig, true);
      done := done + [element];
      k := k + 1;
    }
    assert cs[..k] == cs;
  }
}

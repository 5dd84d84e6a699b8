/**
 * What a run of the newer generator rules preserves: the hash tables hold
 * exactly the signatures of the kept elements, each once, and every kept
 * element sits in the list of its own complexity.
 */
module GenerationProperties {
  import opened Elements
  import Enumeration
  import opened Generation

  // ---------------------------------------------------------------------------
  // Signature bags

  /** The signatures of one list, as a multiset. */
  function ListBag<T>(l: seq<T>, sig: T -> seq<int>): multiset<seq<int>>
  {
    multiset(seq(|l|, k requires 0 <= k < |l| => sig(l[k])))
  }

  /** The signatures of every list, as a multiset. */
  function Bag<T>(lists: seq<seq<T>>, sig: T -> seq<int>): multiset<seq<int>>
  {
    if lists == [] then multiset{} else Bag(lists[..|lists| - 1], sig) + ListBag(lists[|lists| - 1], sig)
  }

  /**
   * The hash table of each kind holds exactly the signatures of the kept
   * elements of that kind, and no signature is shared by two kept elements
   * (a set's multiset has every multiplicity at most one).
   */
  ghost predicate Deduplicated(d: GenData, csig: Concept -> seq<int>, rsig: Role -> seq<int>)
  {
    multiset(d.conceptTable) == Bag(d.concepts, csig) && multiset(d.roleTable) == Bag(d.roles, rsig)
  }

  lemma ListBagSnoc<T>(l: seq<T>, e: T, sig: T -> seq<int>)
    ensures ListBag(l + [e], sig) == ListBag(l, sig) + multiset{sig(e)}
  {
    var s := seq(|l|, k requires 0 <= k < |l| => sig(l[k]));
    var s' := seq(|l + [e]|, k requires 0 <= k < |l + [e]| => sig((l + [e])[k]));
    assert s' == s + [sig(e)];
  }

  /** Appending one element to one list adds exactly its signature to the bag. */
  lemma {:induction false} BagAppend<T>(lists: seq<seq<T>>, t: nat, e: T, sig: T -> seq<int>)
    requires t < |lists|
    ensures Bag(lists[t := lists[t] + [e]], sig) == Bag(lists, sig) + multiset{sig(e)}
    decreases |lists|
  {
    var lists' := lists[t := lists[t] + [e]];
    var n := |lists|;
    assert lists'[..n - 1] == if t == n - 1 then lists[..n - 1] else lists[..n - 1][t := lists[t] + [e]];
    if t == n - 1 {
      ListBagSnoc(lists[t], e, sig);
    } else {
      BagAppend(lists[..n - 1], t, e, sig);
    }
  }

  /** A kept element's signature is in the table of its kind. */
  lemma {:induction false} KeptInBag<T>(lists: seq<seq<T>>, k: nat, m: nat, sig: T -> seq<int>)
    requires k < |lists| && m < |lists[k]|
    ensures sig(lists[k][m]) in Bag(lists, sig)
    decreases |lists|
  {
    var n := |lists|;
    if k == n - 1 {
      var s := seq(|lists[k]|, j requires 0 <= j < |lists[k]| => sig(lists[k][j]));
      assert s[m] == sig(lists[k][m]);
    } else {
      KeptInBag(lists[..n - 1], k, m, sig);
      assert lists[..n - 1][k] == lists[k];
    }
  }

  lemma KeptConceptSignatureInTable(d: GenData, csig: Concept -> seq<int>, rsig: Role -> seq<int>, k: nat, m: nat)
    requires Deduplicated(d, csig, rsig) && k < |d.concepts| && m < |d.concepts[k]|
    ensures csig(d.concepts[k][m]) in d.conceptTable
  {
    KeptInBag(d.concepts, k, m, csig);
  }

  lemma KeptRoleSignatureInTable(d: GenData, csig: Concept -> seq<int>, rsig: Role -> seq<int>, k: nat, m: nat)
    requires Deduplicated(d, csig, rsig) && k < |d.roles| && m < |d.roles[k]|
    ensures rsig(d.roles[k][m]) in d.roleTable
  {
    KeptInBag(d.roles, k, m, rsig);
  }

  lemma AddConceptDeduplicated(p: Progress, target: nat, c: Concept, csig: Concept -> seq<int>, rsig: Role -> seq<int>, eraseOnReject: bool)
    requires target < |p.data.concepts| && Deduplicated(p.data, csig, rsig)
    ensures Deduplicated(AddConcept(p, target, c, csig, eraseOnReject).data, csig, rsig)
  {
    if csig(c) !in p.data.conceptTable {
      BagAppend(p.data.concepts, target, c, csig);
      assert multiset(p.data.conceptTable + {csig(c)}) == multiset(p.data.conceptTable) + multiset{csig(c)};
    }
  }

  lemma AddRoleDeduplicated(p: Progress, target: nat, r: Role, csig: Concept -> seq<int>, rsig: Role -> seq<int>, tilC: bool)
    requires target < |p.data.roles| && Deduplicated(p.data, csig, rsig)
    ensures Deduplicated(AddRole(p, target, r, rsig, tilC).data, csig, rsig)
  {
    if rsig(r) !in p.data.roleTable {
      BagAppend(p.data.roles, target, r, rsig);
      assert multiset(p.data.roleTable + {rsig(r)}) == multiset(p.data.roleTable) + multiset{rsig(r)};
    }
  }

  /** Every run of a concept rule keeps the tables deduplicated. */
  lemma {:induction false} FoldConceptsDeduplicated(p: Progress, target: nat, cands: seq<Concept>, csig: Concept -> seq<int>, rsig: Role -> seq<int>, eraseOnReject: bool)
    requires (cands == [] || target < |p.data.concepts|) && Deduplicated(p.data, csig, rsig)
    ensures Deduplicated(FoldConcepts(p, target, cands, csig, eraseOnReject).data, csig, rsig)
    decreases |cands|
  {
    if cands != [] {
      FoldConceptsDeduplicated(p, target, cands[..|cands| - 1], csig, rsig, eraseOnReject);
      AddConceptDeduplicated(FoldConcepts(p, target, cands[..|cands| - 1], csig, eraseOnReject), target, cands[|cands| - 1], csig, rsig, eraseOnReject);
    }
  }

  /** Every run of a role rule keeps the tables deduplicated. */
  lemma {:induction false} FoldRolesDeduplicated(p: Progress, target: nat, cands: seq<Role>, csig: Concept -> seq<int>, rsig: Role -> seq<int>, tilC: bool)
    requires (cands == [] || target < |p.data.roles|) && Deduplicated(p.data, csig, rsig)
    ensures Deduplicated(FoldRoles(p, target, cands, rsig, tilC).data, csig, rsig)
    decreases |cands|
  {
    if cands != [] {
      FoldRolesDeduplicated(p, target, cands[..|cands| - 1], csig, rsig, tilC);
      AddRoleDeduplicated(FoldRoles(p, target, cands[..|cands| - 1], rsig, tilC), target, cands[|cands| - 1], csig, rsig, tilC);
    }
  }

  /** A candidate whose signature is new is kept; one whose signature is already present changes no list. */
  lemma {:induction false} FoldKeepsNewSignatures(p: Progress, target: nat, cands: seq<Concept>, csig: Concept -> seq<int>, eraseOnReject: bool)
    requires target < |p.data.concepts|
    requires forall k :: 0 <= k < |cands| ==> csig(cands[k]) !in p.data.conceptTable
    requires forall k, m :: 0 <= k < m < |cands| ==> csig(cands[k]) != csig(cands[m])
    ensures FoldConcepts(p, target, cands, csig, eraseOnReject).data.concepts[target] == p.data.concepts[target] + cands
    ensures FoldConcepts(p, target, cands, csig, eraseOnReject).data.conceptTable
         == p.data.conceptTable + set k | 0 <= k < |cands| :: csig(cands[k])
    decreases |cands|
  {
    if cands != [] {
      var init := cands[..|cands| - 1];
      var c := cands[|cands| - 1];
      FoldKeepsNewSignatures(p, target, init, csig, eraseOnReject);
      var prev := FoldConcepts(p, target, init, csig, eraseOnReject);
      assert (set k | 0 <= k < |cands| :: csig(cands[k])) == (set k | 0 <= k < |init| :: csig(init[k])) + {csig(c)};
      assert p.data.concepts[target] + cands == (p.data.concepts[target] + init) + [c];
    }
  }

  /** Candidates whose signatures are all present already leave every list, the table and the count as they were. */
  lemma {:induction false} FoldDropsKnownSignatures(p: Progress, target: nat, cands: seq<Concept>, csig: Concept -> seq<int>, eraseOnReject: bool)
    requires target < |p.data.concepts|
    requires forall k :: 0 <= k < |cands| ==> csig(cands[k]) in p.data.conceptTable
    ensures var q := FoldConcepts(p, target, cands, csig, eraseOnReject);
            q.data.concepts == p.data.concepts && q.data.conceptTable == p.data.conceptTable
            && q.data.reprs == p.data.reprs && q.count == p.count
    decreases |cands|
  {
    if cands != [] {
      FoldDropsKnownSignatures(p, target, cands[..|cands| - 1], csig, eraseOnReject);
      assert csig(cands[|cands| - 1]) in p.data.conceptTable;
    }
  }

  // ---------------------------------------------------------------------------
  // Complexity

  /** Every kept element sits in the list of its own complexity. */
  ghost predicate WellFormed(d: GenData)
  {
    && (forall k, m :: 0 <= k < |d.concepts| && 0 <= m < |d.concepts[k]| ==> ConceptComplexity(d.concepts[k][m]) == k)
    && (forall k, m :: 0 <= k < |d.roles| && 0 <= m < |d.roles[k]| ==> RoleComplexity(d.roles[k][m]) == k)
  }

  lemma {:induction false} FoldConceptsWellFormed(p: Progress, target: nat, cands: seq<Concept>, csig: Concept -> seq<int>, eraseOnReject: bool)
    requires (cands == [] || target < |p.data.concepts|) && WellFormed(p.data)
    requires forall e :: e in cands ==> ConceptComplexity(e) == target
    ensures WellFormed(FoldConcepts(p, target, cands, csig, eraseOnReject).data)
    decreases |cands|
  {
    if cands != [] {
      FoldConceptsWellFormed(p, target, cands[..|cands| - 1], csig, eraseOnReject);
      assert cands[|cands| - 1] in cands;
    }
  }

  lemma {:induction false} FoldRolesWellFormed(p: Progress, target: nat, cands: seq<Role>, rsig: Role -> seq<int>, tilC: bool)
    requires (cands == [] || target < |p.data.roles|) && WellFormed(p.data)
    requires forall e :: e in cands ==> RoleComplexity(e) == target
    ensures WellFormed(FoldRoles(p, target, cands, rsig, tilC).data)
    decreases |cands|
  {
    if cands != [] {
      FoldRolesWellFormed(p, target, cands[..|cands| - 1], rsig, tilC);
      assert cands[|cands| - 1] in cands;
    }
  }

  /** Every kept role sits in the list of its complexity. */
  lemma WellFormedRole(d: GenData, k: nat, r: Role)
    requires WellFormed(d) && k < |d.roles| && r in d.roles[k]
    ensures RoleComplexity(r) == k
  {
    var m :| 0 <= m < |d.roles[k]| && d.roles[k][m] == r;
  }

  /** Every kept concept sits in the list of its complexity. */
  lemma WellFormedConcept(d: GenData, k: nat, c: Concept)
    requires WellFormed(d) && k < |d.concepts| && c in d.concepts[k]
    ensures ConceptComplexity(c) == k
  {
    var m :| 0 <= m < |d.concepts[k]| && d.concepts[k][m] == c;
  }

  /**
   * The c_all candidates for a target are exactly c_all(R, C) with R kept at
   * complexity `i` and C kept at `target - i - 1`; on well-formed data each
   * has complexity `target`.
   */
  lemma AllCandidatesShape(d: GenData, target: int, x: Concept)
    requires Enumeration.SplitsInRange(d.roles, d.concepts, target, 1, target - 1)
    ensures x in AllCandidates(d, target) <==>
              exists i, r, c :: 1 <= i < target - 1 && r in d.roles[i] && c in d.concepts[target - i - 1] && x == MakeAll(r, c)
    ensures WellFormed(d) && x in AllCandidates(d, target) ==> ConceptComplexity(x) == target
  {
    Enumeration.SplitsMember(d.roles, d.concepts, target, 1, MakeAll, target - 1, x);
    if WellFormed(d) && x in AllCandidates(d, target) {
      var i, r, c :| 1 <= i < target - 1 && r in d.roles[i] && c in d.concepts[target - i - 1] && x == MakeAll(r, c);
      WellFormedRole(d, i, r);
      WellFormedConcept(d, target - i - 1, c);
    }
  }

  lemma TilCCandidatesShape(d: GenData, target: int, x: Role)
    requires Enumeration.SplitsInRange(d.roles, d.concepts, target, 1, target - 1)
    ensures x in TilCCandidates(d, target) <==>
              exists i, r, c :: 1 <= i < target - 1 && r in d.roles[i] && c in d.concepts[target - i - 1] && x == MakeTilC(r, c)
    ensures WellFormed(d) && x in TilCCandidates(d, target) ==> RoleComplexity(x) == target
  {
    Enumeration.SplitsMember(d.roles, d.concepts, target, 1, MakeTilC, target - 1, x);
    if WellFormed(d) && x in TilCCandidates(d, target) {
      var i, r, c :| 1 <= i < target - 1 && r in d.roles[i] && c in d.concepts[target - i - 1] && x == MakeTilC(r, c);
      WellFormedRole(d, i, r);
      WellFormedConcept(d, target - i - 1, c);
    }
  }

  /** No candidate exists below target complexity 3 for the split rules. */
  lemma NoSplitsBelowThree(d: GenData, target: int)
    requires target <= 2
    ensures AllCandidates(d, target) == [] && TilCCandidates(d, target) == []
  {
  }

  /**
   * A c_all run on well-formed, deduplicated data leaves it well formed and
   * deduplicated.
   */
  lemma GenerateAllPreserves(p: Progress, target: nat, csig: Concept -> seq<int>, rsig: Role -> seq<int>)
    requires Enumeration.SplitsInRange(p.data.roles, p.data.concepts, target, 1, target - 1)
    requires target <= 2 || target < |p.data.concepts|
    requires WellFormed(p.data) && Deduplicated(p.data, csig, rsig)
    ensures var q := FoldConcepts(p, target, AllCandidates(p.data, target), csig, true);
            WellFormed(q.data) && Deduplicated(q.data, csig, rsig)
  {
    var cands := AllCandidates(p.data, target);
    if target <= 2 {
      NoSplitsBelowThree(p.data, target);
    }
    forall e | e in cands
      ensures ConceptComplexity(e) == target
    {
      AllCandidatesShape(p.data, target, e);
    }
    FoldConceptsWellFormed(p, target, cands, csig, true);
    FoldConceptsDeduplicated(p, target, cands, csig, rsig, true);
  }

  lemma GenerateTilCPreserves(p: Progress, target: nat, csig: Concept -> seq<int>, rsig: Role -> seq<int>)
    requires Enumeration.SplitsInRange(p.data.roles, p.data.concepts, target, 1, target - 1)
    requires target <= 2 || target < |p.data.roles|
    requires WellFormed(p.data) && Deduplicated(p.data, csig, rsig)
    ensures var q := FoldRoles(p, target, TilCCandidates(p.data, target), rsig, true);
            WellFormed(q.data) && Deduplicated(q.data, csig, rsig)
  {
    var cands := TilCCandidates(p.data, target);
    if target <= 2 {
      NoSplitsBelowThree(p.data, target);
    }
    forall e | e in cands
      ensures RoleComplexity(e) == target
    {
      TilCCandidatesShape(p.data, target, e);
    }
    FoldRolesWellFormed(p, target, cands, rsig, true);
    FoldRolesDeduplicated(p, target, cands, csig, rsig, true);
  }

  lemma GenerateIdentityPreserves(p: Progress, target: nat, csig: Concept -> seq<int>, rsig: Role -> seq<int>)
    requires 1 <= target <= |p.data.concepts| && target < |p.data.roles|
    requires WellFormed(p.data) && Deduplicated(p.data, csig, rsig)
    ensures var q := FoldRoles(p, target, IdentityCandidates(p.data, target), rsig, false);
            WellFormed(q.data) && Deduplicated(q.data, csig, rsig)
  {
    var cands := IdentityCandidates(p.data, target);
    forall e | e in cands
      ensures RoleComplexity(e) == target
    {
      var k :| 0 <= k < |cands| && cands[k] == e;
    }
    FoldRolesWellFormed(p, target, cands, rsig, false);
    FoldRolesDeduplicated(p, target, cands, csig, rsig, false);
  }

  lemma GenerateTopPreserves(p: Progress, csig: Concept -> seq<int>, rsig: Role -> seq<int>)
    requires 1 < |p.data.concepts|
    requires WellFormed(p.data) && Deduplicated(p.data, csig, rsig)
    ensures var q := FoldConcepts(p, 1, [CTop], csig, false);
            WellFormed(q.data) && Deduplicated(q.data, csig, rsig)
  {
    FoldConceptsWellFormed(p, 1, [CTop], csig, false);
    FoldConceptsDeduplicated(p, 1, [CTop], csig, rsig, false);
  }
}

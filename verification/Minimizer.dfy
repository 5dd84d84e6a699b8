/**
 * The greedy policy minimiser. A round looks for two rules with the same
 * effects whose conditions differ in exactly two mergeable conditions, or,
 * failing that, for three rules with the same conditions whose effects combine
 * into three mergeable effects; the merged rule is added to a fresh builder,
 * every other rule is copied after it, and rounds repeat until none merges.
 *
 * Conditions and effects are objects compared by identity (handles here). The
 * helpers that check feature indices and types of a difference set and that
 * compute merged value lists are not part of this model: they are parameters.
 */
module Minimizer {
  import opened Wrappers

  /** A condition or effect object, by identity. */
  type Handle = nat

  /** A rule: its index and its condition and effect lists. */
  datatype PolicyRule = PolicyRule(index: int, conditions: seq<Handle>, effects: seq<Handle>)

  /** A policy's rules, in the order the builder produced them. */
  type Policy = seq<PolicyRule>

  /** The uninterpreted helpers of the minimiser. */
  datatype Helpers = Helpers(
    conditionFeatureIndexEqual: set<Handle> -> bool,
    conditionTypeEqual: set<Handle> -> bool,
    effectFeatureIndexEqual: set<Handle> -> bool,
    effectTypeEqual: set<Handle> -> bool,
    mergeConditions: (seq<Handle>, set<Handle>) -> seq<Handle>,
    mergeEffects: (seq<Handle>, set<Handle>) -> seq<Handle>)

  // ---------------------------------------------------------------------------
  // Conditions and effects carry a settable index

  /** A condition or effect: the feature it is about and its index. */
  datatype IndexedFeature = IndexedFeature(baseFeature: nat, index: int)

  function SetIndex(x: IndexedFeature, index: int): (y: IndexedFeature)
    ensures y.baseFeature == x.baseFeature
  {
    x.(index := index)
  }

  function GetIndex(x: IndexedFeature): int
  {
    x.index
  }

  /** Reading the index back gives the last index set; the feature is untouched. */
  lemma SetThenGet(x: IndexedFeature, i: int, j: int)
    ensures GetIndex(SetIndex(x, i)) == i
    ensures SetIndex(SetIndex(x, i), j) == SetIndex(x, j)
    ensures SetIndex(x, GetIndex(x)) == x
  {
  }

  // ---------------------------------------------------------------------------
  // Mergeability

  /** The mathematical symmetric difference. */
  function SymmetricDifference(a: set<Handle>, b: set<Handle>): (d: set<Handle>)
    ensures forall x :: x in d <==> (x in a) != (x in b)
  {
    (a - b) + (b - a)
  }

  function Elems(s: seq<Handle>): set<Handle>
  {
    set x | x in s
  }

  function ConditionDiff(p: Policy, i: nat, j: nat): set<Handle>
    requires i < |p| && j < |p|
  {
    SymmetricDifference(Elems(p[i].conditions), Elems(p[j].conditions))
  }

  /** Rules `i` and `j` can be merged on their conditions. */
  predicate ConditionMergeable(p: Policy, h: Helpers, i: nat, j: nat)
    requires i < |p| && j < |p|
  {
    var diff := ConditionDiff(p, i, j);
    p[i].index < p[j].index && p[i].effects == p[j].effects && |diff| == 2
    && h.conditionFeatureIndexEqual(diff) && h.conditionTypeEqual(diff)
  }

  function EffectDiff(p: Policy, i: nat, j: nat): set<Handle>
    requires i < |p| && j < |p|
  {
    SymmetricDifference(Elems(p[i].effects), Elems(p[j].effects))
  }

  /** The first stage of an effect merge: rules `i` and `j` differ in two compatible effects. */
  predicate EffectPairMergeable(p: Policy, h: Helpers, i: nat, j: nat)
    requires i < |p| && j < |p|
  {
    var diff := EffectDiff(p, i, j);
    p[i].index < p[j].index && p[i].conditions == p[j].conditions && |diff| == 2
    && h.effectFeatureIndexEqual(diff) && h.effectTypeEqual(diff)
  }

  function TripleDiff(p: Policy, i: nat, j: nat, k: nat): set<Handle>
    requires i < |p| && j < |p| && k < |p|
  {
    SymmetricDifference(EffectDiff(p, i, j), Elems(p[k].effects))
  }

  /** Rules `i`, `j` and `k` can be merged on their effects. */
  predicate EffectMergeable(p: Policy, h: Helpers, i: nat, j: nat, k: nat)
    requires i < |p| && j < |p| && k < |p|
  {
    var diff := TripleDiff(p, i, j, k);
    EffectPairMergeable(p, h, i, j)
    && p[j].index < p[k].index && p[j].conditions == p[k].conditions && |diff| == 3
    && h.effectFeatureIndexEqual(diff) && h.effectTypeEqual(diff)
  }

  /** No condition merge of a pair that the search visits before `(i, j)`. */
  ghost predicate NoConditionMergeBefore(p: Policy, h: Helpers, i: nat, j: nat)
  {
    forall a, b :: 0 <= a < |p| && 0 <= b < |p| && (a < i || (a == i && b < j)) ==> !ConditionMergeable(p, h, a, b)
  }

  ghost predicate NoConditionMerge(p: Policy, h: Helpers)
  {
    NoConditionMergeBefore(p, h, |p|, 0)
  }

  /** No effect merge of a triple that the search visits before `(i, j, k)`. */
  ghost predicate NoEffectMergeBefore(p: Policy, h: Helpers, i: nat, j: nat, k: nat)
  {
    forall a, b, c :: 0 <= a < |p| && 0 <= b < |p| && 0 <= c < |p|
      && (a < i || (a == i && (b < j || (b == j && c < k))))
      ==> !EffectMergeable(p, h, a, b, c)
  }

  ghost predicate NoEffectMerge(p: Policy, h: Helpers)
  {
    NoEffectMergeBefore(p, h, |p|, 0, 0)
  }

  // ---------------------------------------------------------------------------
  // `try_merge_by_condition`

  /** The first partner of rule `i` for a condition merge. */
  method FindConditionPartner(p: Policy, h: Helpers, i: nat) returns (j: Option<nat>)
    requires i < |p|
    ensures j.None? ==> forall b :: 0 <= b < |p| ==> !ConditionMergeable(p, h, i, b)
    ensures j.Some? ==> j.value < |p| && ConditionMergeable(p, h, i, j.value)
    ensures j.Some? ==> forall b :: 0 <= b < j.value ==> !ConditionMergeable(p, h, i, b)
  {
    var b := 0;
    while b < |p|
      invariant b <= |p|
      invariant forall b' :: 0 <= b' < b ==> !ConditionMergeable(p, h, i, b')
    {
      if ConditionMergeable(p, h, i, b) {
        return Some(b);
      }
      b := b + 1;
    }
    return None;
  }

  /** The first pair, in rule-major order, that merges on conditions. */
  method FindConditionPair(p: Policy, h: Helpers) returns (found: Option<(nat, nat)>)
    ensures found.None? ==> NoConditionMerge(p, h)
    ensures found.Some? ==> found.value.0 < |p| && found.value.1 < |p|
    ensures found.Some? ==> ConditionMergeable(p, h, found.value.0, found.value.1)
    ensures found.Some? ==> NoConditionMergeBefore(p, h, found.value.0, found.value.1)
  {
    var a := 0;
    while a < |p|
      invariant a <= |p|
      invariant NoConditionMergeBefore(p, h, a, 0)
    {
      var partner := FindConditionPartner(p, h, a);
      if partner.Some? {
        return Some((a, partner.value));
      }
      a := a + 1;
    }
    return None;
  }

  // ---------------------------------------------------------------------------
  // `try_merge_by_effect`

  /** The first third rule that completes the effect merge of `i` and `j`. */
  method FindEffectThird(p: Policy, h: Helpers, i: nat, j: nat) returns (k: Option<nat>)
    requires i < |p| && j < |p|
    ensures k.None? ==> forall c :: 0 <= c < |p| ==> !EffectMergeable(p, h, i, j, c)
    ensures k.Some? ==> k.value < |p| && EffectMergeable(p, h, i, j, k.value)
    ensures k.Some? ==> forall c :: 0 <= c < k.value ==> !EffectMergeable(p, h, i, j, c)
  {
    var c := 0;
    while c < |p|
      invariant c <= |p|
      invariant forall c' :: 0 <= c' < c ==> !EffectMergeable(p, h, i, j, c')
    {
      if EffectMergeable(p, h, i, j, c) {
        return Some(c);
      }
      c := c + 1;
    }
    return None;
  }

  /** No effect merge with first rule `i` among the pairs the search visits before `(j, k)`. */
  ghost predicate NoEffectMergeWith(p: Policy, h: Helpers, i: nat, j: nat, k: nat)
    requires i < |p|
  {
    forall b, c :: 0 <= b < |p| && 0 <= c < |p| && (b < j || (b == j && c < k)) ==> !EffectMergeable(p, h, i, b, c)
  }

  /** When the first two rules do not qualify, no third rule helps. */
  lemma NoThirdWithoutPair(p: Policy, h: Helpers, i: nat, j: nat)
    requires i < |p| && j < |p| && !EffectPairMergeable(p, h, i, j)
    ensures forall c :: 0 <= c < |p| ==> !EffectMergeable(p, h, i, j, c)
  {
  }

  /** The first effect merge whose first rule is `i`; the third rule is sought only when the pair qualifies. */
  method FindEffectPartners(p: Policy, h: Helpers, i: nat) returns (found: Option<(nat, nat)>)
    requires i < |p|
    ensures found.None? ==> NoEffectMergeWith(p, h, i, |p|, 0)
    ensures found.Some? ==> found.value.0 < |p| && found.value.1 < |p|
    ensures found.Some? ==> EffectMergeable(p, h, i, found.value.0, found.value.1)
    ensures found.Some? ==> NoEffectMergeWith(p, h, i, found.value.0, found.value.1)
  {
    var b := 0;
    while b < |p|
      invariant b <= |p|
      invariant NoEffectMergeWith(p, h, i, b, 0)
    {
      if EffectPairMergeable(p, h, i, b) {
        var third := FindEffectThird(p, h, i, b);
        if third.Some? {
          return Some((b, third.value));
        }
      } else {
        NoThirdWithoutPair(p, h, i, b);
      }
      b := b + 1;
    }
    return None;
  }

  /** The first triple, in rule-major order, that merges on effects. */
  method FindEffectTriple(p: Policy, h: Helpers) returns (found: Option<(nat, nat, nat)>)
    ensures found.None? ==> NoEffectMerge(p, h)
    ensures found.Some? ==> found.value.0 < |p| && found.value.1 < |p| && found.value.2 < |p|
    ensures found.Some? ==> EffectMergeable(p, h, found.value.0, found.value.1, found.value.2)
    ensures found.Some? ==> NoEffectMergeBefore(p, h, found.value.0, found.value.1, found.value.2)
  {
    var a := 0;
    while a < |p|
      invariant a <= |p|
      invariant NoEffectMergeBefore(p, h, a, 0, 0)
    {
      var partners := FindEffectPartners(p, h, a);
      if partners.Some? {
        return Some((a, partners.value.0, partners.value.1));
      }
      a := a + 1;
    }
    return None;
  }

  // ---------------------------------------------------------------------------
  // Rounds

  /** A merge found in a round: two rules on their conditions or three on their effects. */
  datatype Merge = ByCondition(first: nat, second: nat) | ByEffect(first: nat, second: nat, third: nat)

  predicate MergeInRange(p: Policy, m: Merge)
  {
    m.first < |p| && m.second < |p| && (m.ByEffect? ==> m.third < |p|)
  }

  /** The rules a merge replaces. */
  function Merged(m: Merge): set<nat>
  {
    match m
    case ByCondition(i, j) => {i, j}
    case ByEffect(i, j, k) => {i, j, k}
  }

  /** The conditions and effects of the rule a merge adds. */
  function MergedRule(p: Policy, h: Helpers, m: Merge): (seq<Handle>, seq<Handle>)
    requires MergeInRange(p, m)
  {
    match m
    case ByCondition(i, j) =>
      (h.mergeConditions(p[i].conditions, ConditionDiff(p, i, j)), h.mergeEffects(p[i].effects, {}))
    case ByEffect(i, j, k) =>
      (h.mergeConditions(p[i].conditions, {}), h.mergeEffects(p[i].effects, TripleDiff(p, i, j, k)))
  }

  /** The policy a builder produces: each added rule gets the next index. */
  function Build(rules: seq<(seq<Handle>, seq<Handle>)>): (p: Policy)
    ensures |p| == |rules|
    ensures forall i :: 0 <= i < |p| ==> p[i].index == i && p[i].conditions == rules[i].0 && p[i].effects == rules[i].1
  {
    seq(|rules|, i requires 0 <= i < |rules| => PolicyRule(i, rules[i].0, rules[i].1))
  }

  /** The rules outside `merged`, in policy order, as copied into the builder. */
  function Unmerged(p: Policy, merged: set<nat>): seq<(seq<Handle>, seq<Handle>)>
  {
    if p == [] then []
    else
      var last := |p| - 1;
      Unmerged(p[..last], merged) + (if last in merged then [] else [(p[last].conditions, p[last].effects)])
  }

  /** The positions of `merged` inside a policy of `n` rules. */
  function Below(merged: set<nat>, n: nat): set<nat>
  {
    set x | x in merged && x < n
  }

  /** Copying skips exactly the merged rules. */
  lemma {:induction false} UnmergedLength(p: Policy, merged: set<nat>)
    ensures |Unmerged(p, merged)| + |Below(merged, |p|)| == |p|
  {
    if p != [] {
      var last := |p| - 1;
      UnmergedLength(p[..last], merged);
      if last in merged {
        assert Below(merged, |p|) == Below(merged, last) + {last};
      } else {
        assert Below(merged, |p|) == Below(merged, last);
      }
    }
  }

  /** A rule is copied exactly when it is not merged, with its lists unchanged. */
  lemma {:induction false} UnmergedMember(p: Policy, merged: set<nat>, x: (seq<Handle>, seq<Handle>))
    ensures x in Unmerged(p, merged) <==>
              exists i :: 0 <= i < |p| && i !in merged && x == (p[i].conditions, p[i].effects)
  {
    if p != [] {
      var last := |p| - 1;
      UnmergedMember(p[..last], merged, x);
      if exists i :: 0 <= i < |p| && i !in merged && x == (p[i].conditions, p[i].effects) {
        var i :| 0 <= i < |p| && i !in merged && x == (p[i].conditions, p[i].effects);
        if i < last {
          assert p[..last][i] == p[i];
        }
      }
      if x in Unmerged(p[..last], merged) {
        var i :| 0 <= i < last && i !in merged && x == (p[..last][i].conditions, p[..last][i].effects);
        assert p[..last][i] == p[i];
      }
    }
  }

  /** The positions below `n` outside `merged`, in increasing order. */
  function Kept(n: nat, merged: set<nat>): seq<nat>
  {
    if n == 0 then [] else Kept(n - 1, merged) + (if n - 1 in merged then [] else [n - 1])
  }

  /**
   * The copied rules are those at the positions outside the merge, each
   * once, in increasing position.
   */
  lemma {:induction false} UnmergedInOrder(p: Policy, merged: set<nat>)
    ensures |Kept(|p|, merged)| == |Unmerged(p, merged)|
    ensures forall k :: 0 <= k < |Kept(|p|, merged)| ==>
              Kept(|p|, merged)[k] < |p| && Kept(|p|, merged)[k] !in merged
              && Unmerged(p, merged)[k] == (p[Kept(|p|, merged)[k]].conditions, p[Kept(|p|, merged)[k]].effects)
    ensures forall k, l :: 0 <= k < l < |Kept(|p|, merged)| ==> Kept(|p|, merged)[k] < Kept(|p|, merged)[l]
    ensures forall i :: 0 <= i < |p| && i !in merged ==> i in Kept(|p|, merged)
  {
    if p != [] {
      var last := |p| - 1;
      var q := p[..last];
      UnmergedInOrder(q, merged);
      assert |q| == last;
      assert forall i :: 0 <= i < last ==> q[i] == p[i];
    }
  }

  /** With nothing merged, every rule is copied in order. */
  lemma {:induction false} UnmergedNothing(p: Policy)
    ensures |Unmerged(p, {})| == |p|
    ensures forall i :: 0 <= i < |p| ==> Unmerged(p, {})[i] == (p[i].conditions, p[i].effects)
  {
    if p != [] {
      var last := |p| - 1;
      UnmergedNothing(p[..last]);
      assert forall i :: 0 <= i < last ==> p[..last][i] == p[i];
    }
  }

  /** The rule indices increase along the policy. */
  ghost predicate IndexOrdered(p: Policy)
  {
    forall i, j :: 0 <= i < j < |p| ==> p[i].index < p[j].index
  }

  /** A merge replaces two or three distinct rules. */
  lemma MergedCount(p: Policy, h: Helpers, m: Merge)
    requires MergeInRange(p, m)
    requires m.ByCondition? ==> ConditionMergeable(p, h, m.first, m.second)
    requires m.ByEffect? ==> EffectMergeable(p, h, m.first, m.second, m.third)
    ensures |Below(Merged(m), |p|)| >= 2
  {
    assert Below(Merged(m), |p|) == Merged(m);
    if m.ByEffect? {
      assert {m.first, m.second, m.third} == {m.first, m.second} + {m.third};
    }
  }

  /**
   * One round of `minimize_greedy`: a condition merge if there is one, otherwise
   * an effect merge; the merged rule first, then every other rule copied.
   */
  method MinimizeRound(p: Policy, h: Helpers) returns (next: Policy, chosen: Option<Merge>)
    ensures chosen.None? <==> NoConditionMerge(p, h) && NoEffectMerge(p, h)
    ensures chosen.Some? ==> MergeInRange(p, chosen.value)
    ensures chosen.Some? && chosen.value.ByCondition? ==>
              ConditionMergeable(p, h, chosen.value.first, chosen.value.second)
              && NoConditionMergeBefore(p, h, chosen.value.first, chosen.value.second)
    ensures chosen.Some? && chosen.value.ByEffect? ==>
              NoConditionMerge(p, h)
              && EffectMergeable(p, h, chosen.value.first, chosen.value.second, chosen.value.third)
              && NoEffectMergeBefore(p, h, chosen.value.first, chosen.value.second, chosen.value.third)
    ensures chosen.None? ==> next == Build(Unmerged(p, {}))
    ensures chosen.Some? ==> next == Build([MergedRule(p, h, chosen.value)] + Unmerged(p, Merged(chosen.value)))
    ensures chosen.Some? ==> |next| < |p|
  {
    var pair := FindConditionPair(p, h);
    if pair.Some? {
      chosen := Some(ByCondition(pair.value.0, pair.value.1));
    } else {
      var triple := FindEffectTriple(p, h);
      if triple.Some? {
        chosen := Some(ByEffect(triple.value.0, triple.value.1, triple.value.2));
      } else {
        chosen := None;
      }
    }
    if chosen.Some? {
      MergedCount(p, h, chosen.value);
      UnmergedLength(p, Merged(chosen.value));
      next := Build([MergedRule(p, h, chosen.value)] + Unmerged(p, Merged(chosen.value)));
    } else {
      next := Build(Unmerged(p, {}));
    }
  }

  /** Two policies with the same lists at every position and the same order of indices. */
  ghost predicate SameShape(q: Policy, r: Policy)
  {
    |q| == |r|
    && (forall a :: 0 <= a < |q| ==> q[a].conditions == r[a].conditions && q[a].effects == r[a].effects)
    && (forall a, b :: 0 <= a < |q| && 0 <= b < |q| ==> (q[a].index < q[b].index <==> r[a].index < r[b].index))
  }

  /** Mergeability reads the indices only through their order. */
  lemma MergeabilityTransfers(q: Policy, r: Policy, h: Helpers, a: nat, b: nat, c: nat)
    requires SameShape(q, r) && a < |q| && b < |q| && c < |q|
    ensures ConditionMergeable(q, h, a, b) <==> ConditionMergeable(r, h, a, b)
    ensures EffectMergeable(q, h, a, b, c) <==> EffectMergeable(r, h, a, b, c)
  {
    assert ConditionDiff(q, a, b) == ConditionDiff(r, a, b);
    assert EffectDiff(q, a, b) == EffectDiff(r, a, b);
    assert TripleDiff(q, a, b, c) == TripleDiff(r, a, b, c);
  }

  /** Rebuilding a policy whose indices follow its order only renumbers it. */
  lemma RebuildSameShape(q: Policy)
    requires IndexOrdered(q)
    ensures SameShape(q, Build(Unmerged(q, {})))
  {
    var r := Build(Unmerged(q, {}));
    UnmergedNothing(q);
    forall a, b | 0 <= a < |q| && 0 <= b < |q|
      ensures q[a].index < q[b].index <==> r[a].index < r[b].index
    {
      if b < a {
        assert q[b].index < q[a].index;
      }
    }
  }

  /** A policy without merges, whose indices follow its order, has none after rebuilding. */
  lemma RebuildKeepsNoMerge(q: Policy, h: Helpers)
    requires IndexOrdered(q) && NoConditionMerge(q, h) && NoEffectMerge(q, h)
    ensures NoConditionMerge(Build(Unmerged(q, {})), h) && NoEffectMerge(Build(Unmerged(q, {})), h)
  {
    var r := Build(Unmerged(q, {}));
    RebuildSameShape(q);
    forall a, b | 0 <= a < |r| && 0 <= b < |r|
      ensures !ConditionMergeable(r, h, a, b)
    {
      MergeabilityTransfers(q, r, h, a, b, 0);
    }
    forall a, b, c | 0 <= a < |r| && 0 <= b < |r| && 0 <= c < |r|
      ensures !EffectMergeable(r, h, a, b, c)
    {
      MergeabilityTransfers(q, r, h, a, b, c);
    }
  }

  /** Every rule of a policy has its position as index. */
  predicate Indexed(p: Policy)
  {
    forall i :: 0 <= i < |p| ==> p[i].index == i
  }

  /**
   * The merge a round picks in `q`: a condition merge that no earlier pair
   * offers, or, when `q` has no condition merge at all, an effect merge that
   * no earlier triple offers.
   */
  ghost predicate FirstMerge(q: Policy, h: Helpers, m: Merge)
  {
    MergeInRange(q, m)
    && (m.ByCondition? ==> ConditionMergeable(q, h, m.first, m.second) && NoConditionMergeBefore(q, h, m.first, m.second))
    && (m.ByEffect? ==>
          NoConditionMerge(q, h)
          && EffectMergeable(q, h, m.first, m.second, m.third)
          && NoEffectMergeBefore(q, h, m.first, m.second, m.third))
  }

  /** The policy a round builds from `q` after picking `m`. */
  function AfterMerge(q: Policy, h: Helpers, m: Merge): Policy
    requires MergeInRange(q, m)
  {
    Build([MergedRule(q, h, m)] + Unmerged(q, Merged(m)))
  }

  /** `trace` is the run of rounds from its first policy, `merges[i]` picked in `trace[i]`. */
  ghost predicate Rounds(trace: seq<Policy>, h: Helpers, merges: seq<Merge>)
  {
    |trace| == |merges| + 1
    && forall i :: 0 <= i < |merges| ==>
         FirstMerge(trace[i], h, merges[i]) && trace[i + 1] == AfterMerge(trace[i], h, merges[i])
  }

  /** One more merging round extends the run. */
  lemma RoundsExtend(trace: seq<Policy>, h: Helpers, merges: seq<Merge>, m: Merge, next: Policy)
    requires Rounds(trace, h, merges)
    requires FirstMerge(trace[|merges|], h, m) && next == AfterMerge(trace[|merges|], h, m)
    ensures Rounds(trace + [next], h, merges + [m])
  {
    var t, ms := trace + [next], merges + [m];
    forall i | 0 <= i < |ms|
      ensures FirstMerge(t[i], h, ms[i]) && t[i + 1] == AfterMerge(t[i], h, ms[i])
    {
      if i < |merges| {
        assert t[i] == trace[i] && t[i + 1] == trace[i + 1] && ms[i] == merges[i];
      } else {
        assert t[i] == trace[|merges|] && t[i + 1] == next && ms[i] == m;
      }
    }
  }

  /** Rebuilding a policy indexed by position gives it back. */
  lemma RebuildIndexed(p: Policy)
    requires Indexed(p)
    ensures Build(Unmerged(p, {})) == p
  {
    UnmergedNothing(p);
    var r := Build(Unmerged(p, {}));
    forall i | 0 <= i < |p|
      ensures r[i] == p[i]
    {
    }
  }

  /** A run with a merging round starts at a policy that admits a merge. */
  lemma FirstRoundMerges(trace: seq<Policy>, h: Helpers, merges: seq<Merge>)
    requires Rounds(trace, h, merges) && merges != []
    ensures !(NoConditionMerge(trace[0], h) && NoEffectMerge(trace[0], h))
  {
    var q, m := trace[0], merges[0];
    assert FirstMerge(q, h, m);
    if m.ByCondition? {
      assert ConditionMergeable(q, h, m.first, m.second);
    } else {
      assert EffectMergeable(q, h, m.first, m.second, m.third);
    }
  }

  /** What the last, merge-free round of `minimize_greedy` returns. */
  lemma GreedyExit(p: Policy, h: Helpers, trace: seq<Policy>, merges: seq<Merge>, next: Policy)
    requires Rounds(trace, h, merges) && trace[0] == p
    requires NoConditionMerge(trace[|merges|], h) && NoEffectMerge(trace[|merges|], h)
    requires IndexOrdered(p) ==> IndexOrdered(trace[|merges|])
    requires next == Build(Unmerged(trace[|merges|], {}))
    ensures |next| == |trace[|merges|]| && Indexed(next)
    ensures IndexOrdered(p) ==> NoConditionMerge(next, h) && NoEffectMerge(next, h)
    ensures Indexed(p) && NoConditionMerge(p, h) && NoEffectMerge(p, h) ==> next == p && merges == []
  {
    var last := trace[|merges|];
    UnmergedNothing(last);
    if IndexOrdered(p) {
      RebuildKeepsNoMerge(last, h);
    }
    if merges != [] {
      FirstRoundMerges(trace, h, merges);
    }
    if Indexed(p) && merges == [] {
      RebuildIndexed(p);
    }
  }

  /**
   * `minimize_greedy`: rounds until one merges nothing. `trace` holds the
   * policy before each round and `merges` the merge each merging round
   * picked; the result copies every rule of the last policy, which admits no
   * merge. The result never has more rules than the input, is indexed by
   * position, and, when the input's indices follow its order, admits no
   * further merge; an input already indexed and without merges comes back
   * unchanged.
   */
  method MinimizeGreedy(p: Policy, h: Helpers) returns (result: Policy, trace: seq<Policy>, merges: seq<Merge>)
    ensures Rounds(trace, h, merges) && trace[0] == p
    ensures NoConditionMerge(trace[|merges|], h) && NoEffectMerge(trace[|merges|], h)
    ensures result == Build(Unmerged(trace[|merges|], {}))
    ensures |result| <= |p|
    ensures Indexed(result)
    ensures IndexOrdered(p) ==> NoConditionMerge(result, h) && NoEffectMerge(result, h)
    ensures Indexed(p) && NoConditionMerge(p, h) && NoEffectMerge(p, h) ==> result == p && merges == []
  {
    var current := p;
    trace, merges := [p], [];
    while true
      invariant Rounds(trace, h, merges) && trace[0] == p && trace[|merges|] == current
      invariant |current| <= |p|
      invariant IndexOrdered(p) ==> IndexOrdered(current)
      decreases |current|
    {
      var next, chosen := MinimizeRound(current, h);
      if chosen.None? {
        GreedyExit(p, h, trace, merges, next);
        return next, trace, merges;
      }
      assert FirstMerge(current, h, chosen.value);
      RoundsExtend(trace, h, merges, chosen.value, next);
      current := next;
      trace, merges := trace + [next], merges + [chosen.value];
    }
  }

  /** The overload that takes state pairs is not implemented and always fails. */
  function MinimizeWithExamples(p: Policy, truePairs: seq<(nat, nat)>, falsePairs: seq<(nat, nat)>): (r: Result<Policy, string>)
    ensures r.Failure? && r.error == "Not implemented."
  {
    Failure("Not implemented.")
  }
}

/**
 * The older generator rules (c_equal, c_or, r_compose). For each split
 * `i = 1 .. iteration - 1` with `j = iteration - i`, every element of list
 * `i` is combined with every element of list `j`, left-major. Before each
 * candidate the rule returns at once if the generator has reached its limit;
 * otherwise the candidate is offered to the generator, and the count grows
 * when the generator accepts it.
 *
 * The generator's data, its `add_*` operation and its limit test are not part
 * of this model: they are the parameters `D`, `add` and `limit`. The lists
 * are read as they stand when the rule starts.
 */
module GenerationLimited {
  import opened Elements
  import Enumeration
  import Rules

  /** The data, the rule's count, and whether the rule has returned because the limit was reached. */
  datatype Run<D> = Run(data: D, count: nat, stopped: bool)

  /** One candidate: nothing after a stop; a stop if the limit holds; otherwise the candidate is offered. */
  function Step<D, E>(r: Run<D>, e: E, add: (D, E) -> (D, bool), limit: D -> bool): Run<D>
  {
    if r.stopped then r
    else if limit(r.data) then r.(stopped := true)
    else
      var (d', accepted) := add(r.data, e);
      Run(d', if accepted then r.count + 1 else r.count, false)
  }

  /** The candidates in order, with the limit test before each. */
  function Fold<D, E>(r: Run<D>, cands: seq<E>, add: (D, E) -> (D, bool), limit: D -> bool): Run<D>
  {
    if cands == [] then r else Step(Fold(r, cands[..|cands| - 1], add, limit), cands[|cands| - 1], add, limit)
  }

  /** The reference without a limit: every candidate is offered. */
  function Unlimited<D, E>(r: Run<D>, cands: seq<E>, add: (D, E) -> (D, bool)): Run<D>
  {
    if cands == [] then r
    else
      var prev := Unlimited(r, cands[..|cands| - 1], add);
      var (d', accepted) := add(prev.data, cands[|cands| - 1]);
      Run(d', if accepted then prev.count + 1 else prev.count, prev.stopped)
  }

  function MakeEqual(l: Role, r: Role): Concept { CEqual(l, r) }
  function MakeOr(l: Concept, r: Concept): Concept { COr(l, r) }
  function MakeCompose(l: Role, r: Role): Role { RCompose(l, r) }

  /**
   * Each rule is named after the element it builds: the representation of
   * every candidate is the rule's name applied to the candidate's children.
   */
  lemma RuleNamesAreKeywords(a: Role, b: Role, c: Concept, d: Concept, enabled: bool)
    ensures ConceptRepr(MakeEqual(a, b)) == Rules.EqualRuleName + "(" + RoleRepr(a) + "," + RoleRepr(b) + ")"
    ensures ConceptRepr(MakeOr(c, d)) == Rules.NewOrRule(enabled).name + "(" + ConceptRepr(c) + "," + ConceptRepr(d) + ")"
    ensures RoleRepr(MakeCompose(a, b)) == Rules.ComposeRuleName + "(" + RoleRepr(a) + "," + RoleRepr(b) + ")"
  {
    assert Rules.EqualRuleName + "(" == "c_equal(";
    assert Rules.NewOrRule(enabled).name + "(" == "c_or(";
    assert Rules.ComposeRuleName + "(" == "r_compose(";
  }

  // ---------------------------------------------------------------------------
  // Properties of the limited run

  /** Once the rule has returned, no further candidate changes anything. */
  lemma {:induction false} StoppedStays<D, E>(r: Run<D>, cands: seq<E>, add: (D, E) -> (D, bool), limit: D -> bool)
    requires r.stopped
    ensures Fold(r, cands, add, limit) == r
  {
    if cands != [] {
      StoppedStays(r, cands[..|cands| - 1], add, limit);
    }
  }

  lemma {:induction false} FoldAppend<D, E>(r: Run<D>, a: seq<E>, b: seq<E>, add: (D, E) -> (D, bool), limit: D -> bool)
    ensures Fold(r, a + b, add, limit) == Fold(Fold(r, a, add, limit), b, add, limit)
    decreases |b|
  {
    if b == [] {
      assert a + b == a;
    } else {
      assert (a + b)[..|a + b| - 1] == a + b[..|b| - 1];
      FoldAppend(r, a, b[..|b| - 1], add, limit);
    }
  }

  /** A rule that has returned early has handled a prefix of its candidates: the rest does not matter. */
  lemma StoppedPrefix<D, E>(r: Run<D>, done: seq<E>, rest: seq<E>, add: (D, E) -> (D, bool), limit: D -> bool)
    requires Fold(r, done, add, limit).stopped
    ensures Fold(r, done + rest, add, limit) == Fold(r, done, add, limit)
  {
    FoldAppend(r, done, rest, add, limit);
    StoppedStays(Fold(r, done, add, limit), rest, add, limit);
  }

  /** As long as the limit is never reached, the limited run is the unlimited one. */
  lemma {:induction false} NoLimitMeansUnlimited<D, E>(r: Run<D>, cands: seq<E>, add: (D, E) -> (D, bool), limit: D -> bool)
    requires !r.stopped
    requires forall m :: 0 <= m < |cands| ==> !limit(Unlimited(r, cands[..m], add).data)
    ensures Fold(r, cands, add, limit) == Unlimited(r, cands, add)
    ensures !Fold(r, cands, add, limit).stopped
  {
    if cands != [] {
      var init := cands[..|cands| - 1];
      forall m | 0 <= m < |init|
        ensures !limit(Unlimited(r, init[..m], add).data)
      {
        assert init[..m] == cands[..m];
      }
      NoLimitMeansUnlimited(r, init, add, limit);
      assert cands[..|cands| - 1] == init;
    }
  }

  /**
   * The rule returns exactly at the first candidate before which the limit
   * holds: everything before it is offered, nothing from it on.
   */
  lemma StopsAtFirstLimit<D, E>(r: Run<D>, cands: seq<E>, m: nat, add: (D, E) -> (D, bool), limit: D -> bool)
    requires !r.stopped && m < |cands|
    requires forall m' :: 0 <= m' < m ==> !limit(Unlimited(r, cands[..m'], add).data)
    requires limit(Unlimited(r, cands[..m], add).data)
    ensures Fold(r, cands, add, limit) == Unlimited(r, cands[..m], add).(stopped := true)
  {
    var pre := cands[..m];
    PrefixBelowLimit(r, cands, m, add, limit);
    NoLimitMeansUnlimited(r, pre, add, limit);
    FoldOneMore(r, cands, m, add, limit);
    StepAtLimit(Fold(r, pre, add, limit), cands[m], add, limit);
    StoppedPrefix(r, cands[..m + 1], cands[m + 1..], add, limit);
    assert cands[..m + 1] + cands[m + 1..] == cands;
  }

  /** The limit does not hold before any candidate of a prefix that never reaches it. */
  lemma PrefixBelowLimit<D, E>(r: Run<D>, cands: seq<E>, m: nat, add: (D, E) -> (D, bool), limit: D -> bool)
    requires m <= |cands|
    requires forall m' :: 0 <= m' < m ==> !limit(Unlimited(r, cands[..m'], add).data)
    ensures forall m' :: 0 <= m' < |cands[..m]| ==> !limit(Unlimited(r, cands[..m][..m'], add).data)
  {
    forall m' | 0 <= m' < |cands[..m]|
      ensures !limit(Unlimited(r, cands[..m][..m'], add).data)
    {
      assert cands[..m][..m'] == cands[..m'];
    }
  }

  /** A running rule meeting the limit returns without offering the candidate. */
  lemma StepAtLimit<D, E>(x: Run<D>, e: E, add: (D, E) -> (D, bool), limit: D -> bool)
    requires !x.stopped && limit(x.data)
    ensures Step(x, e, add, limit) == x.(stopped := true)
  {
  }

  lemma FoldOneMore<D, E>(r: Run<D>, cands: seq<E>, m: nat, add: (D, E) -> (D, bool), limit: D -> bool)
    requires m < |cands|
    ensures Fold(r, cands[..m + 1], add, limit) == Step(Fold(r, cands[..m], add, limit), cands[m], add, limit)
  {
    assert cands[..m + 1][..m] == cands[..m];
  }

  /** Each offered candidate adds at most one to the count. */
  lemma {:induction false} CountBound<D, E>(r: Run<D>, cands: seq<E>, add: (D, E) -> (D, bool), limit: D -> bool)
    ensures r.count <= Fold(r, cands, add, limit).count <= r.count + |cands|
  {
    if cands != [] {
      CountBound(r, cands[..|cands| - 1], add, limit);
    }
  }

  /** When the limit already holds, the rule changes nothing and returns. */
  lemma LimitAtStart<D, E>(r: Run<D>, cands: seq<E>, add: (D, E) -> (D, bool), limit: D -> bool)
    requires !r.stopped && limit(r.data) && cands != []
    ensures Fold(r, cands, add, limit) == r.(stopped := true)
  {
    StopsAtFirstLimit(r, cands, 0, add, limit);
  }

  // ---------------------------------------------------------------------------
  // The rules

  /** The shared loop of the older binary rules: splits, then left elements, then right elements. */
  method RunSplits<A, E, D>(r: Run<D>, iteration: int, lists: seq<seq<A>>, mk: (A, A) -> E, add: (D, E) -> (D, bool), limit: D -> bool)
    returns (q: Run<D>)
    requires !r.stopped && Enumeration.SplitsInRange(lists, lists, iteration, 0, iteration)
    ensures q == Fold(r, Enumeration.Candidates(lists, lists, iteration, 0, mk), add, limit)
  {
    q := r;
    ghost var done: seq<E> := [];
    var i := 1;
    while i < iteration
      invariant 1 <= i <= if iteration >= 1 then iteration else 1
      invariant Enumeration.SplitsInRange(lists, lists, iteration, 0, i)
      invariant done == Enumeration.Splits(lists, lists, iteration, 0, mk, i)
      invariant q == Fold(r, done, add, limit) && !q.stopped
    {
      q, done := RunSplit(r, iteration, lists, mk, i, q, done, add, limit);
      if q.stopped {
        return;
      }
      i := i + 1;
    }
  }

  /** Split `i` of the older rules; a stop inside it ends the whole rule. */
  method RunSplit<A, E, D>(r: Run<D>, iteration: int, lists: seq<seq<A>>, mk: (A, A) -> E, i: int, q0: Run<D>, ghost done0: seq<E>, add: (D, E) -> (D, bool), limit: D -> bool)
    returns (q: Run<D>, ghost done: seq<E>)
    requires Enumeration.SplitsInRange(lists, lists, iteration, 0, iteration) && 1 <= i < iteration
    requires done0 == Enumeration.Splits(lists, lists, iteration, 0, mk, i)
    requires q0 == Fold(r, done0, add, limit) && !q0.stopped
    ensures !q.stopped ==> done == Enumeration.Splits(lists, lists, iteration, 0, mk, i + 1) && q == Fold(r, done, add, limit)
    ensures q.stopped ==> q == Fold(r, Enumeration.Candidates(lists, lists, iteration, 0, mk), add, limit)
  {
    Enumeration.SplitsInRangeBelow(lists, lists, iteration, 0, iteration, i + 1);
    Enumeration.SplitsStep(lists, lists, iteration, 0, mk, i);
    q, done := RunCross(r, lists[i], lists[iteration - i], mk, q0, done0, add, limit);
    if q.stopped {
      SplitsPrefix(lists, iteration, mk, i + 1);
      var all := Enumeration.Candidates(lists, lists, iteration, 0, mk);
      assert all == done + all[|done|..];
      StoppedPrefix(r, done, all[|done|..], add, limit);
    }
  }

  /** The splits below `hi` are a prefix of all splits. */
  lemma SplitsPrefix<A, E>(lists: seq<seq<A>>, iteration: int, mk: (A, A) -> E, hi: int)
    requires Enumeration.SplitsInRange(lists, lists, iteration, 0, iteration) && hi <= iteration
    ensures Enumeration.SplitsInRange(lists, lists, iteration, 0, hi)
    ensures Enumeration.Splits(lists, lists, iteration, 0, mk, hi) <= Enumeration.Candidates(lists, lists, iteration, 0, mk)
  {
    SplitsPrefixFrom(lists, iteration, mk, hi, iteration);
  }

  lemma {:induction false} SplitsPrefixFrom<A, E>(lists: seq<seq<A>>, iteration: int, mk: (A, A) -> E, lo: int, hi: int)
    requires Enumeration.SplitsInRange(lists, lists, iteration, 0, hi) && lo <= hi
    ensures Enumeration.SplitsInRange(lists, lists, iteration, 0, lo)
    ensures Enumeration.Splits(lists, lists, iteration, 0, mk, lo) <= Enumeration.Splits(lists, lists, iteration, 0, mk, hi)
    decreases hi - lo
  {
    Enumeration.SplitsInRangeBelow(lists, lists, iteration, 0, hi, lo);
    if lo < hi && hi > 1 {
      Enumeration.SplitsInRangeBelow(lists, lists, iteration, 0, hi, hi - 1);
      SplitsPrefixFrom(lists, iteration, mk, lo, hi - 1);
    }
  }

  /** One split: every left element against every right element, stopping at the limit. */
  method RunCross<A, E, D>(r: Run<D>, ls: seq<A>, rs: seq<A>, mk: (A, A) -> E, q0: Run<D>, ghost done0: seq<E>, add: (D, E) -> (D, bool), limit: D -> bool)
    returns (q: Run<D>, ghost done: seq<E>)
    requires q0 == Fold(r, done0, add, limit) && !q0.stopped
    ensures q == Fold(r, done, add, limit)
    ensures !q.stopped ==> done == done0 + Enumeration.Cross(ls, rs, mk)
    ensures q.stopped ==> Fold(r, done0 + Enumeration.Cross(ls, rs, mk), add, limit) == q && done == done0 + Enumeration.Cross(ls, rs, mk)
  {
    q, done := q0, done0;
    var m := 0;
    while m < |ls|
      invariant m <= |ls|
      invariant done == done0 + Enumeration.Cross(ls[..m], rs, mk)
      invariant q == Fold(r, done, add, limit) && !q.stopped
    {
      Enumeration.CrossProgress(done0, done, ls, m, rs, mk);
      ghost var reached := done0 + Enumeration.Cross(ls[..m + 1], rs, mk);
      q, done := RunRow(r, ls[m], rs, mk, q, done, add, limit);
      if q.stopped {
        CrossPrefix(ls, m + 1, rs, mk);
        ghost var all := done0 + Enumeration.Cross(ls, rs, mk);
        assert done <= reached <= all;
        assert all == done + all[|done|..];
        StoppedPrefix(r, done, all[|done|..], add, limit);
        done := all;
        return;
      }
      m := m + 1;
    }
    assert ls[..m] == ls;
  }

  /** The first `m` rows of a cross product are a prefix of it. */
  lemma {:induction false} CrossPrefix<A, B, C>(xs: seq<A>, m: nat, bs: seq<B>, mk: (A, B) -> C)
    requires m <= |xs|
    ensures Enumeration.Cross(xs[..m], bs, mk) <= Enumeration.Cross(xs, bs, mk)
    decreases |xs| - m
  {
    if m < |xs| {
      CrossPrefix(xs, m + 1, bs, mk);
      Enumeration.CrossSnoc(xs, m, bs, mk);
    } else {
      assert xs[..m] == xs;
    }
  }

  /** One left element against every right element, stopping at the limit. */
  method RunRow<A, E, D>(r: Run<D>, a: A, rs: seq<A>, mk: (A, A) -> E, q0: Run<D>, ghost done0: seq<E>, add: (D, E) -> (D, bool), limit: D -> bool)
    returns (q: Run<D>, ghost done: seq<E>)
    requires q0 == Fold(r, done0, add, limit) && !q0.stopped
    ensures q == Fold(r, done, add, limit)
    ensures !q.stopped ==> done == done0 + Enumeration.Row(a, rs, mk)
    ensures q.stopped ==> done <= done0 + Enumeration.Row(a, rs, mk)
  {
    q, done := q0, done0;
    var k := 0;
    while k < |rs|
      invariant k <= |rs|
      invariant done == done0 + Enumeration.Row(a, rs[..k], mk)
      invariant q == Fold(r, done, add, limit) && !q.stopped
    {
      var element := mk(a, rs[k]);
      Enumeration.RowSnoc(a, rs, k, mk);
      assert (done + [element])[..|done|] == done;
      if limit(q.data) {
        q := q.(stopped := true);
        done := done + [element];
        assert done <= done0 + Enumeration.Row(a, rs, mk) by {
          RowPrefix(a, rs, k + 1, mk);
        }
        return;
      }
      var (d', accepted) := add(q.data, element);
      if accepted {
        q := Run(d', q.count + 1, false);
      } else {
        q := Run(d', q.count, false);
      }
      done := done + [element];
      k := k + 1;
    }
    assert rs[..k] == rs;
  }

  lemma RowPrefix<A, B, C>(a: A, bs: seq<B>, k: nat, mk: (A, B) -> C)
    requires k <= |bs|
    ensures Enumeration.Row(a, bs[..k], mk) <= Enumeration.Row(a, bs, mk)
  {
  }

  /** c_equal: every pair of kept roles whose complexities sum to `iteration`. */
  method GenerateEqual<D>(r: Run<D>, iteration: int, roles: seq<seq<Role>>, add: (D, Concept) -> (D, bool), limit: D -> bool)
    returns (q: Run<D>)
    requires !r.stopped && Enumeration.SplitsInRange(roles, roles, iteration, 0, iteration)
    ensures q == Fold(r, Enumeration.Candidates(roles, roles, iteration, 0, MakeEqual), add, limit)
  {
    q := RunSplits(r, iteration, roles, MakeEqual, add, limit);
  }

  /** c_or: every pair of kept concepts whose complexities sum to `iteration`. */
  method GenerateOr<D>(r: Run<D>, iteration: int, concepts: seq<seq<Concept>>, add: (D, Concept) -> (D, bool), limit: D -> bool)
    returns (q: Run<D>)
    requires !r.stopped && Enumeration.SplitsInRange(concepts, concepts, iteration, 0, iteration)
    ensures q == Fold(r, Enumeration.Candidates(concepts, concepts, iteration, 0, MakeOr), add, limit)
  {
    q := RunSplits(r, iteration, concepts, MakeOr, add, limit);
  }

  /** r_compose: every pair of kept roles whose complexities sum to `iteration`. */
  method GenerateCompose<D>(r: Run<D>, iteration: int, roles: seq<seq<Role>>, add: (D, Role) -> (D, bool), limit: D -> bool)
    returns (q: Run<D>)
    requires !r.stopped && Enumeration.SplitsInRange(roles, roles, iteration, 0, iteration)
    ensures q == Fold(r, Enumeration.Candidates(roles, roles, iteration, 0, MakeCompose), add, limit)
  {
    q := RunSplits(r, iteration, roles, MakeCompose, add, limit);
  }

  /**
   * The older rules pair complexities summing to `iteration`, so on lists
   * where every element sits at its own complexity a candidate has
   * complexity `iteration + 1`, one more than with the newer rules' splits.
   */
  lemma EqualCandidateComplexity(roles: seq<seq<Role>>, iteration: int, x: Concept)
    requires Enumeration.SplitsInRange(roles, roles, iteration, 0, iteration)
    requires forall k, m :: 0 <= k < |roles| && 0 <= m < |roles[k]| ==> RoleComplexity(roles[k][m]) == k
    requires x in Enumeration.Candidates(roles, roles, iteration, 0, MakeEqual)
    ensures ConceptComplexity(x) == iteration + 1
  {
    Enumeration.SplitsMember(roles, roles, iteration, 0, MakeEqual, iteration, x);
    var i, a, b :| 1 <= i < iteration && a in roles[i] && b in roles[iteration - i] && x == MakeEqual(a, b);
    KeptRoleComplexity(roles, i, a);
    KeptRoleComplexity(roles, iteration - i, b);
  }

  lemma KeptRoleComplexity(roles: seq<seq<Role>>, k: nat, a: Role)
    requires forall k, m :: 0 <= k < |roles| && 0 <= m < |roles[k]| ==> RoleComplexity(roles[k][m]) == k
    requires k < |roles| && a in roles[k]
    ensures RoleComplexity(a) == k
  {
    var m :| 0 <= m < |roles[k]| && roles[k][m] == a;
  }
}

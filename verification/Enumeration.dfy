/**
 * The candidate orders of the generator rules. A binary rule visits, for each
 * complexity split `i`, every element of the left list at `i` against every
 * element of the right list at `target - i - gap`, left-major. The newer rules
 * reserve one unit of complexity for the operator (`gap == 1`, splits
 * `1 .. target - 2`); the older ones do not (`gap == 0`, splits `1 .. target - 1`).
 */
module Enumeration {

  /** One left element against every right element, in right-list order. */
  function Row<A, B, C>(a: A, bs: seq<B>, mk: (A, B) -> C): (r: seq<C>)
    ensures |r| == |bs|
    ensures forall k :: 0 <= k < |bs| ==> r[k] == mk(a, bs[k])
  {
    seq(|bs|, k requires 0 <= k < |bs| => mk(a, bs[k]))
  }

  /** Every left element against every right element, left-major. */
  function Cross<A, B, C>(xs: seq<A>, bs: seq<B>, mk: (A, B) -> C): seq<C>
  {
    if xs == [] then [] else Cross(xs[..|xs| - 1], bs, mk) + Row(xs[|xs| - 1], bs, mk)
  }

  /** The list indices a split needs are in range. */
  predicate SplitsInRange<A, B>(left: seq<seq<A>>, right: seq<seq<B>>, target: int, gap: nat, hi: int)
  {
    hi <= 1 || (hi <= target - gap && hi - 1 < |left| && target - 1 - gap < |right|)
  }

  /** The candidates of the splits `1 .. hi - 1`, in split order. */
  function Splits<A, B, C>(left: seq<seq<A>>, right: seq<seq<B>>, target: int, gap: nat, mk: (A, B) -> C, hi: int): seq<C>
    requires SplitsInRange(left, right, target, gap, hi)
    decreases hi
  {
    if hi <= 1 then []
    else Splits(left, right, target, gap, mk, hi - 1) + Cross(left[hi - 1], right[target - (hi - 1) - gap], mk)
  }

  /** All candidates of a rule for one target complexity. */
  function Candidates<A, B, C>(left: seq<seq<A>>, right: seq<seq<B>>, target: int, gap: nat, mk: (A, B) -> C): seq<C>
    requires SplitsInRange(left, right, target, gap, target - gap)
  {
    Splits(left, right, target, gap, mk, target - gap)
  }

  // ---------------------------------------------------------------------------
  // Membership

  lemma RowMember<A, B, C>(a: A, bs: seq<B>, mk: (A, B) -> C, x: C)
    ensures x in Row(a, bs, mk) <==> exists k :: 0 <= k < |bs| && x == mk(a, bs[k])
  {
  }

  lemma {:induction false} CrossMember<A, B, C>(xs: seq<A>, bs: seq<B>, mk: (A, B) -> C, x: C)
    ensures x in Cross(xs, bs, mk) <==> exists m, k :: 0 <= m < |xs| && 0 <= k < |bs| && x == mk(xs[m], bs[k])
  {
    if xs != [] {
      var init, last := xs[..|xs| - 1], xs[|xs| - 1];
      CrossMember(init, bs, mk, x);
      RowMember(last, bs, mk, x);
      if x in Cross(xs, bs, mk) {
        if x in Cross(init, bs, mk) {
          var m, k :| 0 <= m < |init| && 0 <= k < |bs| && x == mk(init[m], bs[k]);
          assert xs[m] == init[m];
        } else {
          var k :| 0 <= k < |bs| && x == mk(last, bs[k]);
          assert xs[|xs| - 1] == last;
        }
      }
      if exists m, k :: 0 <= m < |xs| && 0 <= k < |bs| && x == mk(xs[m], bs[k]) {
        var m, k :| 0 <= m < |xs| && 0 <= k < |bs| && x == mk(xs[m], bs[k]);
        if m < |init| {
          assert init[m] == xs[m];
        }
      }
    }
  }

  /**
   * A candidate is in the enumeration exactly when it combines some element of
   * left list `i` with some element of right list `target - i - gap`, for a
   * split `1 <= i < hi`.
   */
  lemma {:induction false} SplitsMember<A, B, C>(left: seq<seq<A>>, right: seq<seq<B>>, target: int, gap: nat, mk: (A, B) -> C, hi: int, x: C)
    requires SplitsInRange(left, right, target, gap, hi)
    ensures x in Splits(left, right, target, gap, mk, hi) <==>
              exists i, a, b :: 1 <= i < hi && a in left[i] && b in right[target - i - gap] && x == mk(a, b)
    decreases hi
  {
    if hi > 1 {
      var i := hi - 1;
      SplitsMember(left, right, target, gap, mk, hi - 1, x);
      CrossMember(left[i], right[target - i - gap], mk, x);
      if x in Cross(left[i], right[target - i - gap], mk) {
        var m, k :| 0 <= m < |left[i]| && 0 <= k < |right[target - i - gap]| && x == mk(left[i][m], right[target - i - gap][k]);
        assert left[i][m] in left[i];
      }
      if exists i', a, b :: 1 <= i' < hi && a in left[i'] && b in right[target - i' - gap] && x == mk(a, b) {
        var i', a, b :| 1 <= i' < hi && a in left[i'] && b in right[target - i' - gap] && x == mk(a, b);
        if i' == i {
          var m :| 0 <= m < |left[i]| && left[i][m] == a;
          var k :| 0 <= k < |right[target - i - gap]| && right[target - i - gap][k] == b;
        }
      }
    }
  }

  /** Both a split and its mirror are visited when the two lists coincide (older rules, `gap == 0`). */
  lemma MirroredSplits<A, C>(lists: seq<seq<A>>, target: int, mk: (A, A) -> C, i: int, a: A, b: A)
    requires SplitsInRange(lists, lists, target, 0, target)
    requires 1 <= i < target && a in lists[i] && b in lists[target - i]
    ensures mk(a, b) in Candidates(lists, lists, target, 0, mk)
    ensures mk(b, a) in Candidates(lists, lists, target, 0, mk)
  {
    SplitsMember(lists, lists, target, 0, mk, target, mk(a, b));
    SplitsMember(lists, lists, target, 0, mk, target, mk(b, a));
    assert target - (target - i) - 0 == i;
  }

  /** The length of a cross product. */
  lemma {:induction false} CrossLength<A, B, C>(xs: seq<A>, bs: seq<B>, mk: (A, B) -> C)
    ensures |Cross(xs, bs, mk)| == |xs| * |bs|
  {
    if xs != [] {
      CrossLength(xs[..|xs| - 1], bs, mk);
      assert |xs| * |bs| == (|xs| - 1) * |bs| + |bs|;
    }
  }

  /** Adding one right element to a row adds exactly one candidate at its end. */
  lemma RowSnoc<A, B, C>(a: A, bs: seq<B>, k: nat, mk: (A, B) -> C)
    requires k < |bs|
    ensures Row(a, bs[..k + 1], mk) == Row(a, bs[..k], mk) + [mk(a, bs[k])]
  {
  }

  /** Adding one left element to a cross product appends its whole row. */
  lemma CrossSnoc<A, B, C>(xs: seq<A>, m: nat, bs: seq<B>, mk: (A, B) -> C)
    requires m < |xs|
    ensures Cross(xs[..m + 1], bs, mk) == Cross(xs[..m], bs, mk) + Row(xs[m], bs, mk)
  {
    assert xs[..m + 1][..m] == xs[..m];
  }

  /** The candidates visited after one more left element: the earlier ones, then its row. */
  lemma CrossProgress<A, B, C>(done0: seq<C>, done: seq<C>, xs: seq<A>, m: nat, bs: seq<B>, mk: (A, B) -> C)
    requires m < |xs| && done == done0 + Cross(xs[..m], bs, mk)
    ensures done + Row(xs[m], bs, mk) == done0 + Cross(xs[..m + 1], bs, mk)
  {
    CrossSnoc(xs, m, bs, mk);
  }

  /** A range that covers the splits below `hi` covers those below any smaller bound. */
  lemma SplitsInRangeBelow<A, B>(left: seq<seq<A>>, right: seq<seq<B>>, target: int, gap: nat, hi: int, lo: int)
    requires SplitsInRange(left, right, target, gap, hi) && lo <= hi
    ensures SplitsInRange(left, right, target, gap, lo)
  {
  }

  /** The splits below `i + 1` are those below `i`, then split `i`. */
  lemma SplitsStep<A, B, C>(left: seq<seq<A>>, right: seq<seq<B>>, target: int, gap: nat, mk: (A, B) -> C, i: int)
    requires i >= 1 && SplitsInRange(left, right, target, gap, i + 1)
    ensures SplitsInRange(left, right, target, gap, i)
    ensures i < |left| && 0 <= target - i - gap < |right|
    ensures Splits(left, right, target, gap, mk, i + 1)
         == Splits(left, right, target, gap, mk, i) + Cross(left[i], right[target - i - gap], mk)
  {
  }
}

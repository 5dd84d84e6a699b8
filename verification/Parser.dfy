/**
 * The parser's syntax tree: a node has a name and an ordered list of children,
 * and the `and` node sorts its children so that the two operand orders of a
 * commutative conjunction build the same tree and the same element.
 */
module Parser {
  import opened Wrappers
  import opened Elements

  /** A syntax-tree node: its name and its children, in the order given. */
  datatype Expression = Expression(name: string, children: seq<Expression>)

  /** `is_leaf`: a node without children. */
  predicate IsLeaf(e: Expression)
  {
    e.children == []
  }

  // ---------------------------------------------------------------------------
  // `str` as written: only the children's strings, concatenated

  /** `str()` as the node computes it: the children's `str()`, in order, and nothing of its own. */
  function Str(e: Expression): string
    decreases e, |e.children| + 1
  {
    StrFrom(e, 0)
  }

  /** The concatenated `str()` of the children from position `k` on. */
  function StrFrom(e: Expression, k: nat): string
    requires k <= |e.children|
    decreases e, |e.children| - k
  {
    if k == |e.children| then "" else Str(e.children[k]) + StrFrom(e, k + 1)
  }

  /** Since no node contributes a character, `str()` is empty for every tree. */
  lemma {:induction false} StrIsEmpty(e: Expression)
    ensures Str(e) == ""
    decreases e, |e.children| + 1
  {
    StrFromIsEmpty(e, 0);
  }

  lemma {:induction false} StrFromIsEmpty(e: Expression, k: nat)
    requires k <= |e.children|
    ensures StrFrom(e, k) == ""
    decreases e, |e.children| - k
  {
    if k < |e.children| {
      StrIsEmpty(e.children[k]);
      StrFromIsEmpty(e, k + 1);
    }
  }

  /** Hence `str()` cannot tell any two trees apart, e.g. `c_top` and `c_and(c_top,c_bot)`. */
  lemma StrConflates(e: Expression, f: Expression)
    ensures Str(e) == Str(f)
  {
    StrIsEmpty(e);
    StrIsEmpty(f);
  }

  // ---------------------------------------------------------------------------
  // The canonical string: prefix notation `name(child,child,...)`

  /** The characters that structure the canonical string. */
  predicate Delimiter(ch: char)
  {
    ch == '(' || ch == ',' || ch == ')'
  }

  /** A name the tokenizer produces: no delimiter inside it. */
  predicate PlainName(name: string)
  {
    forall i :: 0 <= i < |name| ==> !Delimiter(name[i])
  }

  /** Every node of the tree carries a plain name. */
  predicate WellNamed(e: Expression)
    decreases e
  {
    PlainName(e.name) && forall i :: 0 <= i < |e.children| ==> WellNamed(e.children[i])
  }

  /** The canonical string: a leaf is its name, an inner node `name(c1,...,cn)`. */
  function CanonicalStr(e: Expression): string
    decreases e, |e.children| + 1
  {
    if e.children == [] then e.name else e.name + "(" + JoinFrom(e, 0) + ")"
  }

  /** The children's canonical strings from position `k` on, separated by commas. */
  function JoinFrom(e: Expression, k: nat): string
    requires k < |e.children|
    decreases e, |e.children| - k
  {
    CanonicalStr(e.children[k]) + (if k + 1 == |e.children| then "" else "," + JoinFrom(e, k + 1))
  }

  /** What may follow a complete canonical string inside a larger one. */
  predicate Follows(s: string)
  {
    s == [] || s[0] == ',' || s[0] == ')'
  }

  /** What follows a node's name in its canonical string extended by `s`. */
  function AfterName(e: Expression, s: string): string
  {
    if e.children == [] then s else "(" + JoinFrom(e, 0) + ")" + s
  }

  lemma CanonicalSplit(e: Expression, s: string)
    ensures CanonicalStr(e) + s == e.name + AfterName(e, s)
  {
  }

  /** Where the shorter name ends, the longer one continues with a non-delimiter. */
  lemma NameBeforeDelimiter(n1: string, r1: string, n2: string, r2: string)
    requires PlainName(n2) && n1 + r1 == n2 + r2 && |n1| < |n2|
    ensures |r1| > 0 && !Delimiter(r1[0])
  {
    assert (n1 + r1)[|n1|] == n2[|n1|];
  }

  /** Two plain names followed by delimiters (or nothing) split a string the same way. */
  lemma NameSplit(n1: string, r1: string, n2: string, r2: string)
    requires PlainName(n1) && PlainName(n2) && n1 + r1 == n2 + r2
    requires r1 == [] || Delimiter(r1[0])
    requires r2 == [] || Delimiter(r2[0])
    ensures n1 == n2 && r1 == r2
  {
    if |n1| < |n2| {
      NameBeforeDelimiter(n1, r1, n2, r2);
      assert false;
    } else if |n2| < |n1| {
      NameBeforeDelimiter(n2, r2, n1, r1);
      assert false;
    } else {
      assert n1 == (n1 + r1)[..|n1|] && n2 == (n2 + r2)[..|n2|];
      assert r1 == (n1 + r1)[|n1|..] && r2 == (n2 + r2)[|n2|..];
    }
  }

  lemma ChildWellNamed(e: Expression, k: nat)
    requires WellNamed(e) && k < |e.children|
    ensures WellNamed(e.children[k])
  {
  }

  /**
   * No canonical string is a proper prefix of another at a position where a
   * separator or a closing parenthesis follows: the trees and the rests agree.
   */
  lemma {:induction false} CanonicalPrefixFree(e: Expression, f: Expression, s: string, t: string)
    requires WellNamed(e) && WellNamed(f) && Follows(s) && Follows(t)
    requires CanonicalStr(e) + s == CanonicalStr(f) + t
    ensures e == f && s == t
    decreases e, |e.children| + 1
  {
    var re, rf := AfterName(e, s), AfterName(f, t);
    CanonicalSplit(e, s);
    CanonicalSplit(f, t);
    NameSplit(e.name, re, f.name, rf);
    if e.children == [] && f.children == [] {
    } else if e.children == [] || f.children == [] {
      assert false;
    } else {
      var je, jf := JoinFrom(e, 0), JoinFrom(f, 0);
      OpenParenthesis(je, s, re);
      OpenParenthesis(jf, t, rf);
      JoinPrefixFree(e, 0, f, 0, ")" + s, ")" + t);
      assert e.children == e.children[0..] && f.children == f.children[0..];
      assert s == (")" + s)[1..];
    }
  }

  lemma OpenParenthesis(j: string, s: string, r: string)
    requires r == "(" + j + ")" + s
    ensures r[0] == '(' && r[1..] == j + (")" + s)
  {
  }

  /** What follows child `k`'s canonical string in the child list extended by `s`. */
  function AfterChild(e: Expression, k: nat, s: string): string
    requires k < |e.children|
  {
    if k + 1 == |e.children| then s else "," + (JoinFrom(e, k + 1) + s)
  }

  lemma JoinSplit(e: Expression, k: nat, s: string)
    requires k < |e.children|
    ensures JoinFrom(e, k) + s == CanonicalStr(e.children[k]) + AfterChild(e, k, s)
  {
  }

  lemma ChildrenFrom(e: Expression, k: nat)
    requires k < |e.children|
    ensures e.children[k..] == [e.children[k]] + e.children[k + 1..]
  {
  }

  /** The comma-separated child lists of two nodes, each closed by `)`, agree from the given positions on. */
  lemma {:induction false} JoinPrefixFree(e: Expression, k: nat, f: Expression, m: nat, s: string, t: string)
    requires WellNamed(e) && WellNamed(f) && k < |e.children| && m < |f.children|
    requires |s| > 0 && s[0] == ')' && |t| > 0 && t[0] == ')'
    requires JoinFrom(e, k) + s == JoinFrom(f, m) + t
    ensures e.children[k..] == f.children[m..] && s == t
    decreases e, |e.children| - k
  {
    var x, y := AfterChild(e, k, s), AfterChild(f, m, t);
    JoinSplit(e, k, s);
    JoinSplit(f, m, t);
    ChildWellNamed(e, k);
    ChildWellNamed(f, m);
    CanonicalPrefixFree(e.children[k], f.children[m], x, y);
    ChildrenFrom(e, k);
    ChildrenFrom(f, m);
    var lastE, lastF := k + 1 == |e.children|, m + 1 == |f.children|;
    if lastE && lastF {
    } else if lastE || lastF {
      assert false;
    } else {
      assert JoinFrom(e, k + 1) + s == x[1..] == y[1..] == JoinFrom(f, m + 1) + t;
      JoinPrefixFree(e, k + 1, f, m + 1, s, t);
    }
  }

  /** The canonical string identifies the tree: equal strings exactly for equal trees. */
  lemma CanonicalStrInjective(e: Expression, f: Expression)
    requires WellNamed(e) && WellNamed(f)
    ensures CanonicalStr(e) == CanonicalStr(f) <==> e == f
  {
    if CanonicalStr(e) == CanonicalStr(f) {
      assert CanonicalStr(e) + "" == CanonicalStr(f) + "";
      CanonicalPrefixFree(e, f, "", "");
    }
  }

  /** A node is a leaf exactly when its canonical string is its bare name. */
  lemma LeafIffCanonicalIsName(e: Expression)
    requires WellNamed(e)
    ensures IsLeaf(e) <==> CanonicalStr(e) == e.name
  {
    if !IsLeaf(e) {
      assert |CanonicalStr(e)| > |e.name|;
    }
  }

  // ---------------------------------------------------------------------------
  // Lexicographic child order

  /** Strict lexicographic order on strings (by character code, a proper prefix first). */
  predicate LexLess(a: string, b: string)
  {
    |b| > 0 && (|a| == 0 || a[0] < b[0] || (a[0] == b[0] && LexLess(a[1..], b[1..])))
  }

  lemma {:induction false} LexLessIrreflexive(a: string)
    ensures !LexLess(a, a)
  {
    if |a| > 0 {
      LexLessIrreflexive(a[1..]);
    }
  }

  /** Of two different strings exactly one is the smaller. */
  lemma {:induction false} LexLessTotal(a: string, b: string)
    ensures a != b ==> LexLess(a, b) || LexLess(b, a)
    ensures !(LexLess(a, b) && LexLess(b, a))
  {
    if |a| > 0 && |b| > 0 && a[0] == b[0] {
      LexLessTotal(a[1..], b[1..]);
      if a != b {
        assert a == [a[0]] + a[1..] && b == [b[0]] + b[1..];
      }
    }
  }

  lemma {:induction false} LexLessTransitive(a: string, b: string, c: string)
    requires LexLess(a, b) && LexLess(b, c)
    ensures LexLess(a, c)
  {
    if |a| > 0 && a[0] == b[0] && b[0] == c[0] {
      LexLessTransitive(a[1..], b[1..], c[1..]);
    }
  }

  /** Children in non-decreasing key order. */
  predicate SortedBy(cs: seq<Expression>, key: Expression -> string)
  {
    forall i, j :: 0 <= i < j < |cs| ==> !LexLess(key(cs[j]), key(cs[i]))
  }

  /** `x` placed after every child whose key is not larger, before the first larger one. */
  function InsertChild(x: Expression, cs: seq<Expression>, key: Expression -> string): (r: seq<Expression>)
    ensures multiset(r) == multiset(cs) + multiset{x}
  {
    if cs == [] then [x]
    else if LexLess(key(x), key(cs[0])) then [x] + cs
    else
      assert cs == [cs[0]] + cs[1..];
      [cs[0]] + InsertChild(x, cs[1..], key)
  }

  /**
   * `sort_children_lexicographically`, whose code is not part of this model:
   * a stable insertion sort of the children by a string key.
   */
  function SortChildren(cs: seq<Expression>, key: Expression -> string): (r: seq<Expression>)
    ensures multiset(r) == multiset(cs)
  {
    if cs == [] then []
    else
      assert cs == cs[..|cs| - 1] + [cs[|cs| - 1]];
      InsertChild(cs[|cs| - 1], SortChildren(cs[..|cs| - 1], key), key)
  }

  lemma {:induction false} InsertChildSorted(x: Expression, cs: seq<Expression>, key: Expression -> string)
    requires SortedBy(cs, key)
    ensures SortedBy(InsertChild(x, cs, key), key)
  {
    if cs == [] {
    } else if LexLess(key(x), key(cs[0])) {
      var r := [x] + cs;
      forall i, j | 0 <= i < j < |r|
        ensures !LexLess(key(r[j]), key(r[i]))
      {
        if i == 0 {
          LexLessTotal(key(x), key(cs[0]));
          if j > 1 && LexLess(key(r[j]), key(x)) {
            LexLessTransitive(key(r[j]), key(x), key(cs[0]));
            assert false;
          }
        }
      }
    } else {
      var rest := InsertChild(x, cs[1..], key);
      InsertChildSorted(x, cs[1..], key);
      var r := [cs[0]] + rest;
      forall j | 0 <= j < |rest|
        ensures !LexLess(key(rest[j]), key(cs[0]))
      {
        assert rest[j] in multiset(rest);
        if rest[j] != x {
          assert rest[j] in multiset(cs[1..]);
          var i :| 0 <= i < |cs[1..]| && cs[1..][i] == rest[j];
          assert cs[i + 1] == rest[j];
        }
      }
      assert InsertChild(x, cs, key) == r;
    }
  }

  /** The sorted children are a permutation of the given ones, in key order. */
  lemma {:induction false} SortChildrenSorted(cs: seq<Expression>, key: Expression -> string)
    ensures SortedBy(SortChildren(cs, key), key)
    ensures multiset(SortChildren(cs, key)) == multiset(cs)
  {
    if cs != [] {
      SortChildrenSorted(cs[..|cs| - 1], key);
      InsertChildSorted(cs[|cs| - 1], SortChildren(cs[..|cs| - 1], key), key);
    }
  }

  /** The `and` node's constructor stores its children sorted. */
  function AndExpression(name: string, children: seq<Expression>, key: Expression -> string): (e: Expression)
    ensures e.name == name && multiset(e.children) == multiset(children)
  {
    Expression(name, SortChildren(children, key))
  }

  /** Sorting two children swaps them exactly when the second key is smaller. */
  lemma SortTwo(a: Expression, b: Expression, key: Expression -> string)
    ensures SortChildren([a, b], key) == if LexLess(key(b), key(a)) then [b, a] else [a, b]
  {
    assert [a, b][..1] == [a];
    assert SortChildren([a], key) == [a] by {
      assert [a][..0] == [];
    }
  }

  /** With a key that tells the two operands apart, `and(A,B)` and `and(B,A)` store the same children. */
  lemma AndOperandOrderIrrelevant(name: string, a: Expression, b: Expression, key: Expression -> string)
    requires a == b || key(a) != key(b)
    ensures AndExpression(name, [a, b], key) == AndExpression(name, [b, a], key)
  {
    LexLessTotal(key(a), key(b));
    SortTwo(a, b, key);
    SortTwo(b, a, key);
  }

  /** Keyed by the canonical string, the operand order never matters for well-named operands. */
  lemma CanonicalKeyMakesAndCommutative(name: string, a: Expression, b: Expression)
    requires WellNamed(a) && WellNamed(b)
    ensures AndExpression(name, [a, b], CanonicalStr) == AndExpression(name, [b, a], CanonicalStr)
  {
    CanonicalStrInjective(a, b);
    AndOperandOrderIrrelevant(name, a, b, CanonicalStr);
  }

  /** Keyed by `str()` as written, every key is "" and the stable sort keeps the given order. */
  lemma StrKeyKeepsOperandOrder(name: string, a: Expression, b: Expression)
    requires a != b
    ensures AndExpression(name, [a, b], Str).children == [a, b]
    ensures AndExpression(name, [a, b], Str) != AndExpression(name, [b, a], Str)
  {
    StrIsEmpty(a);
    StrIsEmpty(b);
    LexLessIrreflexive("");
    SortTwo(a, b, Str);
    SortTwo(b, a, Str);
  }

  // ---------------------------------------------------------------------------
  // Building a concept from an `and` node

  /**
   * What parsing one child into a concept yields: an exception (`Failure`),
   * a null element (`Success(None)`) or an element.
   */
  type ChildParse = Result<Option<Concept>, string>

  /**
   * The base node's default for parsing itself into a concept, which the
   * `and` step calls on each child: a plain node yields a null element.
   */
  function BaseMakeConcept(e: Expression): ChildParse
  {
    Success(None)
  }

  /** The decimal digits of a count, as `std::to_string` prints them. */
  function Decimal(n: nat): string
  {
    if n < 10 then [DigitChar(n)] else Decimal(n / 10) + [DigitChar(n % 10)]
  }

  function DigitChar(d: nat): char
    requires d < 10
  {
    "0123456789"[d]
  }

  /** The arity error; its text says `!= 1` though two children are required. */
  function ArityError(count: nat): string
  {
    "AndConcept::parse_concept_element - number of children (" + Decimal(count) + " != 1)."
  }

  const NotConceptsError := "AndConcept::parse_concept_element - children are not of type Concept."

  /**
   * `parse_concept_element_impl` of the `and` node: exactly two children, both
   * parsed (left first, its exception first), both concepts.
   */
  function ParseAnd(e: Expression, parse: Expression -> ChildParse): (r: Result<Concept, string>)
    ensures |e.children| != 2 ==> r == Failure(ArityError(|e.children|))
    ensures r.Success? <==>
              |e.children| == 2
              && parse(e.children[0]).Success? && parse(e.children[0]).value.Some?
              && parse(e.children[1]).Success? && parse(e.children[1]).value.Some?
    ensures r.Success? ==>
              r.value == CAnd(parse(e.children[0]).value.value, parse(e.children[1]).value.value)
  {
    if |e.children| != 2 then Failure(ArityError(|e.children|))
    else
      match parse(e.children[0])
      case Failure(msg) => Failure(msg)
      case Success(l) =>
        match parse(e.children[1])
        case Failure(msg) => Failure(msg)
        case Success(r) =>
          if l.None? || r.None? then Failure(NotConceptsError)
          else Success(CAnd(l.value, r.value))
  }

  /** Children that only have the base node's element makers never form a conjunction. */
  lemma BaseChildrenNeverParse(e: Expression)
    ensures ParseAnd(e, BaseMakeConcept).Failure?
    ensures |e.children| == 2 ==> ParseAnd(e, BaseMakeConcept) == Failure(NotConceptsError)
  {
  }

  /**
   * Parsing `and(A,B)` and `and(B,A)` gives the same outcome, and the same
   * conjunction on success, once the children are sorted by their canonical strings.
   */
  lemma ParseAndCommutative(name: string, a: Expression, b: Expression, parse: Expression -> ChildParse)
    requires WellNamed(a) && WellNamed(b)
    ensures ParseAnd(AndExpression(name, [a, b], CanonicalStr), parse)
         == ParseAnd(AndExpression(name, [b, a], CanonicalStr), parse)
  {
    CanonicalKeyMakesAndCommutative(name, a, b);
  }

  /** On a two-child node, the stored first and second children become the left and right operands. */
  lemma ParseAndOperands(name: string, a: Expression, b: Expression, parse: Expression -> ChildParse, key: Expression -> string)
    requires parse(a).Success? && parse(a).value.Some? && parse(b).Success? && parse(b).value.Some?
    ensures var e := AndExpression(name, [a, b], key);
            var r := ParseAnd(e, parse);
            r.Success? && r.value.andLeft == parse(e.children[0]).value.value
            && r.value.andRight == parse(e.children[1]).value.value
            && multiset{r.value.andLeft, r.value.andRight} == multiset{parse(a).value.value, parse(b).value.value}
  {
    SortTwo(a, b, key);
  }
}

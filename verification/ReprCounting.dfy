/**
 * Complexity and score read off the canonical representation: every operator
 * contributes one opening parenthesis, every argument after the first one
 * separator, so the counts of `(` and `,` determine the node count.
 */
module ReprCounting {
  import opened Elements

  /** Occurrences of a character in a string. */
  function Count(ch: char, s: string): nat
  {
    if s == [] then 0 else (if s[0] == ch then 1 else 0) + Count(ch, s[1..])
  }

  lemma {:induction false} CountConcat(ch: char, a: string, b: string)
    ensures Count(ch, a + b) == Count(ch, a) + Count(ch, b)
  {
    if a == [] {
      assert a + b == b;
    } else {
      assert (a + b)[0] == a[0];
      assert (a + b)[1..] == a[1..] + b;
      CountConcat(ch, a[1..], b);
    }
  }

  /** Counts of `(` and `,` in `name x , y )`, for a name free of `,` with one `(`. */
  lemma CountBinary(name: string, x: string, y: string)
    requires Count('(', name) == 1 && Count(',', name) == 0
    ensures Count('(', name + x + "," + y + ")") == 1 + Count('(', x) + Count('(', y)
    ensures Count(',', name + x + "," + y + ")") == 1 + Count(',', x) + Count(',', y)
  {
    forall ch | ch == '(' || ch == ','
      ensures Count(ch, name + x + "," + y + ")") == Count(ch, name) + Count(ch, x) + Count(ch, ",") + Count(ch, y) + Count(ch, ")")
    {
      CountConcat(ch, name, x);
      CountConcat(ch, name + x, ",");
      CountConcat(ch, name + x + ",", y);
      CountConcat(ch, name + x + "," + y, ")");
    }
    CountIsMultiplicity('(', ",");
    CountIsMultiplicity(',', ",");
    CountIsMultiplicity('(', ")");
    CountIsMultiplicity(',', ")");
  }

  lemma CountUnary(name: string, x: string)
    requires Count('(', name) == 1 && Count(',', name) == 0
    ensures Count('(', name + x + ")") == 1 + Count('(', x)
    ensures Count(',', name + x + ")") == Count(',', x)
  {
    forall ch | ch == '(' || ch == ','
      ensures Count(ch, name + x + ")") == Count(ch, name) + Count(ch, x) + Count(ch, ")")
    {
      CountConcat(ch, name, x);
      CountConcat(ch, name + x, ")");
    }
    CountIsMultiplicity('(', ")");
    CountIsMultiplicity(',', ")");
  }

  /** A leaf name holds neither `(` nor `,`. */
  lemma LeafCounts(name: string)
    requires '(' !in name && ',' !in name
    ensures Count('(', name) == 0 && Count(',', name) == 0
  {
    CountAbsent('(', name);
    CountAbsent(',', name);
  }

  lemma {:induction false} CountIsMultiplicity(ch: char, s: string)
    ensures Count(ch, s) == multiset(s)[ch]
  {
    if s != [] {
      assert s == [s[0]] + s[1..];
      CountIsMultiplicity(ch, s[1..]);
    }
  }

  /** Node counts read off the representation: one per `(` and one per `,`, plus one. */
  function NodesInRepr(s: string): nat
  {
    Count('(', s) + Count(',', s) + 1
  }

  /** The operators of the element algebra, by the name that opens their representation. */
  datatype Operator = SomeOp | EqualOp | AndOp | OrOp | AllOp | ComposeOp | IdentityOp | TilCOp

  /** The word naming an operator; its representation opens with the word and `(`. */
  function OperatorWord(op: Operator): (w: string)
    ensures '(' !in w && ',' !in w
  {
    match op
    case SomeOp => "c_some"
    case EqualOp => "c_equal"
    case AndOp => "c_and"
    case OrOp => "c_or"
    case AllOp => "c_all"
    case ComposeOp => "r_compose"
    case IdentityOp => "r_identity"
    case TilCOp => "r_til_c"
  }

  /** The opening of an operator's representation: its word and `(`. */
  function OperatorName(op: Operator): (name: string)
    ensures name == OperatorWord(op) + "("
  {
    match op
    case SomeOp => "c_some("
    case EqualOp => "c_equal("
    case AndOp => "c_and("
    case OrOp => "c_or("
    case AllOp => "c_all("
    case ComposeOp => "r_compose("
    case IdentityOp => "r_identity("
    case TilCOp => "r_til_c("
  }

  /** A character that does not occur is counted zero times. */
  lemma {:induction false} CountAbsent(ch: char, s: string)
    requires ch !in s
    ensures Count(ch, s) == 0
  {
    if s != [] {
      assert forall i | 0 <= i < |s[1..]| :: s[1..][i] == s[i + 1];
      CountAbsent(ch, s[1..]);
    }
  }

  /** Every operator name holds exactly one `(` and no `,`. */
  lemma OperatorNameCounts(op: Operator)
    ensures Count('(', OperatorName(op)) == 1 && Count(',', OperatorName(op)) == 0
  {
    var w := OperatorWord(op);
    CountAbsent('(', w);
    CountAbsent(',', w);
    CountConcat('(', w, "(");
    CountConcat(',', w, "(");
  }

  /** An operator application `name x , y )` has one node more than its two arguments together. */
  lemma NodesBinary(whole: string, op: Operator, x: string, y: string)
    requires whole == OperatorName(op) + x + "," + y + ")"
    ensures NodesInRepr(whole) == NodesInRepr(x) + NodesInRepr(y) + 1
  {
    OperatorNameCounts(op);
    CountBinary(OperatorName(op), x, y);
  }

  lemma NodesUnary(whole: string, op: Operator, x: string)
    requires whole == OperatorName(op) + x + ")"
    ensures NodesInRepr(whole) == NodesInRepr(x) + 1
  {
    OperatorNameCounts(op);
    CountUnary(OperatorName(op), x);
  }

  /**
   * Complexity counts the nodes of an element: one per opening parenthesis
   * (operators) plus one per argument separator plus one (leaves).
   */
  lemma {:induction false} ConceptComplexityFromRepr(c: Concept)
    ensures ConceptComplexity(c) == NodesInRepr(ConceptRepr(c))
    decreases c
  {
    match c
    case CTop => LeafCounts("c_top");
    case CBot => LeafCounts("c_bot");
    case CSome(r, c') =>
      RoleComplexityFromRepr(r);
      ConceptComplexityFromRepr(c');
      NodesBinary(ConceptRepr(c), SomeOp, RoleRepr(r), ConceptRepr(c'));
    case CEqual(l, r) =>
      RoleComplexityFromRepr(l);
      RoleComplexityFromRepr(r);
      NodesBinary(ConceptRepr(c), EqualOp, RoleRepr(l), RoleRepr(r));
    case CAnd(l, r) =>
      ConceptComplexityFromRepr(l);
      ConceptComplexityFromRepr(r);
      NodesBinary(ConceptRepr(c), AndOp, ConceptRepr(l), ConceptRepr(r));
    case COr(l, r) =>
      ConceptComplexityFromRepr(l);
      ConceptComplexityFromRepr(r);
      NodesBinary(ConceptRepr(c), OrOp, ConceptRepr(l), ConceptRepr(r));
    case CAll(r, c') =>
      RoleComplexityFromRepr(r);
      ConceptComplexityFromRepr(c');
      NodesBinary(ConceptRepr(c), AllOp, RoleRepr(r), ConceptRepr(c'));
  }

  lemma {:induction false} RoleComplexityFromRepr(r: Role)
    ensures RoleComplexity(r) == NodesInRepr(RoleRepr(r))
    decreases r
  {
    match r
    case RTop => LeafCounts("r_top");
    case RCompose(l, r') =>
      RoleComplexityFromRepr(l);
      RoleComplexityFromRepr(r');
      NodesBinary(RoleRepr(r), ComposeOp, RoleRepr(l), RoleRepr(r'));
    case RIdentity(c) =>
      ConceptComplexityFromRepr(c);
      NodesUnary(RoleRepr(r), IdentityOp, ConceptRepr(c));
    case RTilC(r', c) =>
      RoleComplexityFromRepr(r');
      ConceptComplexityFromRepr(c);
      NodesBinary(RoleRepr(r), TilCOp, RoleRepr(r'), ConceptRepr(c));
  }

  /** The score read off a representation: SCORE_CONSTANT per leaf, SCORE_QUADRATIC per operator. */
  function ScoreInRepr(s: string, k: ScoreConstants): int
  {
    k.constant * (Count(',', s) + 1) + k.quadratic * Count('(', s)
  }

  lemma ScoreBinary(whole: string, op: Operator, x: string, y: string, k: ScoreConstants)
    requires whole == OperatorName(op) + x + "," + y + ")"
    ensures ScoreInRepr(whole, k) == ScoreInRepr(x, k) + ScoreInRepr(y, k) + k.quadratic
  {
    OperatorNameCounts(op);
    CountBinary(OperatorName(op), x, y);
    ScoreArithmetic(k, Count(',', x), Count(',', y), Count('(', x), Count('(', y));
  }

  lemma ScoreArithmetic(k: ScoreConstants, cx: nat, cy: nat, px: nat, py: nat)
    ensures k.constant * (1 + cx + cy + 1) + k.quadratic * (1 + px + py)
         == (k.constant * (cx + 1) + k.quadratic * px) + (k.constant * (cy + 1) + k.quadratic * py) + k.quadratic
  {
  }

  /**
   * The score of an evaluated element is SCORE_CONSTANT per leaf plus
   * SCORE_QUADRATIC per operator; leaves and operators are counted in the
   * representation by argument separators and opening parentheses.
   */
  lemma {:induction false} ConceptScoreFromRepr(c: Concept, k: ScoreConstants)
    requires EvaluableConcept(c)
    ensures ConceptScore(c, k) == ScoreInRepr(ConceptRepr(c), k)
    decreases c
  {
    match c
    case CTop => LeafCounts("c_top");
    case CBot => LeafCounts("c_bot");
    case CSome(r, c') =>
      ConceptScoreFromRepr(c', k);
      SomeScoreFromRepr(r, c', k);
    case CEqual(l, r) =>
      EqualScoreFromRepr(l, r, k);
  }

  lemma SomeScoreFromRepr(r: Role, c: Concept, k: ScoreConstants)
    requires EvaluableRole(r) && EvaluableConcept(c) && ConceptScore(c, k) == ScoreInRepr(ConceptRepr(c), k)
    ensures ConceptScore(CSome(r, c), k) == ScoreInRepr(ConceptRepr(CSome(r, c)), k)
  {
    LeafCounts("r_top");
    ScoreBinary(ConceptRepr(CSome(r, c)), SomeOp, RoleRepr(r), ConceptRepr(c), k);
  }

  lemma EqualScoreFromRepr(l: Role, r: Role, k: ScoreConstants)
    requires EvaluableRole(l) && EvaluableRole(r)
    ensures ConceptScore(CEqual(l, r), k) == ScoreInRepr(ConceptRepr(CEqual(l, r)), k)
  {
    LeafCounts("r_top");
    ScoreBinary(ConceptRepr(CEqual(l, r)), EqualOp, RoleRepr(l), RoleRepr(r), k);
  }
}

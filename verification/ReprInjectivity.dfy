/**
 * The canonical representation is uniquely readable: no two distinct elements
 * share a representation. This is what lets the interning cache use the
 * representation string as the identity of an element.
 */
module ReprInjectivity {
  import opened Elements

  /** The first four characters of a concept's representation name its kind. */
  function ConceptTag(c: Concept): string
  {
    match c
    case CTop => "c_to"
    case CBot => "c_bo"
    case CSome(_, _) => "c_so"
    case CEqual(_, _) => "c_eq"
    case CAnd(_, _) => "c_an"
    case COr(_, _) => "c_or"
    case CAll(_, _) => "c_al"
  }

  function RoleTag(r: Role): string
  {
    match r
    case RTop => "r_to"
    case RCompose(_, _) => "r_co"
    case RIdentity(_) => "r_id"
    case RTilC(_, _) => "r_ti"
  }

  lemma ConceptTagDistinct(a: Concept, b: Concept)
    requires ConceptTag(a) == ConceptTag(b)
    ensures a.CTop? == b.CTop? && a.CBot? == b.CBot? && a.CSome? == b.CSome?
    ensures a.CEqual? == b.CEqual? && a.CAnd? == b.CAnd? && a.COr? == b.COr? && a.CAll? == b.CAll?
  {
    var ta, tb := ConceptTag(a), ConceptTag(b);
    assert ta[2] == tb[2] && ta[3] == tb[3];
  }

  lemma RoleTagDistinct(a: Role, b: Role)
    requires RoleTag(a) == RoleTag(b)
    ensures a.RTop? == b.RTop? && a.RCompose? == b.RCompose?
    ensures a.RIdentity? == b.RIdentity? && a.RTilC? == b.RTilC?
  {
    var ta, tb := RoleTag(a), RoleTag(b);
    assert ta[2] == tb[2] && ta[3] == tb[3];
  }

  lemma ConceptReprStartsWithTag(c: Concept)
    ensures |ConceptRepr(c)| >= 5 && ConceptRepr(c)[..4] == ConceptTag(c)
  {
  }

  lemma RoleReprStartsWithTag(r: Role)
    ensures |RoleRepr(r)| >= 5 && RoleRepr(r)[..4] == RoleTag(r)
  {
  }

  /** Equal strings with a common prefix agree after it. */
  lemma DropPrefix(p: string, x: string, y: string)
    requires p + x == p + y
    ensures x == y
  {
    assert x == (p + x)[|p|..];
    assert y == (p + y)[|p|..];
  }

  /** Equal strings that both start with a representation agree on its kind tag. */
  lemma SameConceptTag(a: Concept, b: Concept, s: string, t: string)
    requires ConceptRepr(a) + s == ConceptRepr(b) + t
    ensures ConceptTag(a) == ConceptTag(b)
  {
    ConceptReprStartsWithTag(a);
    ConceptReprStartsWithTag(b);
    assert (ConceptRepr(a) + s)[..4] == ConceptRepr(a)[..4];
    assert (ConceptRepr(b) + t)[..4] == ConceptRepr(b)[..4];
  }

  lemma SameRoleTag(a: Role, b: Role, s: string, t: string)
    requires RoleRepr(a) + s == RoleRepr(b) + t
    ensures RoleTag(a) == RoleTag(b)
  {
    RoleReprStartsWithTag(a);
    RoleReprStartsWithTag(b);
    assert (RoleRepr(a) + s)[..4] == RoleRepr(a)[..4];
    assert (RoleRepr(b) + t)[..4] == RoleRepr(b)[..4];
  }

  /** Drops a common operator name from two applications `name x , y ) s`, exposing the first arguments. */
  lemma SplitBinary(name: string, x1: string, y1: string, s: string, x2: string, y2: string, t: string)
    requires name + x1 + "," + y1 + ")" + s == name + x2 + "," + y2 + ")" + t
    ensures x1 + ("," + y1 + ")" + s) == x2 + ("," + y2 + ")" + t)
  {
    assert name + x1 + "," + y1 + ")" + s == name + (x1 + ("," + y1 + ")" + s));
    assert name + x2 + "," + y2 + ")" + t == name + (x2 + ("," + y2 + ")" + t));
    DropPrefix(name, x1 + ("," + y1 + ")" + s), x2 + ("," + y2 + ")" + t));
  }

  lemma SplitUnary(name: string, x1: string, s: string, x2: string, t: string)
    requires name + x1 + ")" + s == name + x2 + ")" + t
    ensures x1 + (")" + s) == x2 + (")" + t)
  {
    assert name + x1 + ")" + s == name + (x1 + (")" + s));
    assert name + x2 + ")" + t == name + (x2 + (")" + t));
    DropPrefix(name, x1 + (")" + s), x2 + (")" + t));
  }

  lemma SplitSecond(y1: string, s: string, y2: string, t: string)
    requires "," + y1 + ")" + s == "," + y2 + ")" + t
    ensures y1 + (")" + s) == y2 + (")" + t)
  {
    assert "," + y1 + ")" + s == "," + (y1 + (")" + s));
    assert "," + y2 + ")" + t == "," + (y2 + (")" + t));
    DropPrefix(",", y1 + (")" + s), y2 + (")" + t));
  }

  lemma {:induction false} ConceptReprPrefixFree(a: Concept, b: Concept, s: string, t: string)
    requires ConceptRepr(a) + s == ConceptRepr(b) + t
    ensures a == b && s == t
    decreases a
  {
    SameConceptTag(a, b, s, t);
    ConceptTagDistinct(a, b);
    match a
    case CTop => DropPrefix("c_top", s, t);
    case CBot => DropPrefix("c_bot", s, t);
    case CSome(r1, c1) =>
      var r2, c2 := b.someRole, b.someConcept;
      SplitBinary("c_some(", RoleRepr(r1), ConceptRepr(c1), s, RoleRepr(r2), ConceptRepr(c2), t);
      RoleReprPrefixFree(r1, r2, "," + ConceptRepr(c1) + ")" + s, "," + ConceptRepr(c2) + ")" + t);
      SplitSecond(ConceptRepr(c1), s, ConceptRepr(c2), t);
      ConceptReprPrefixFree(c1, c2, ")" + s, ")" + t);
      DropPrefix(")", s, t);
    case CEqual(l1, r1) =>
      var l2, r2 := b.equalLeft, b.equalRight;
      SplitBinary("c_equal(", RoleRepr(l1), RoleRepr(r1), s, RoleRepr(l2), RoleRepr(r2), t);
      RoleReprPrefixFree(l1, l2, "," + RoleRepr(r1) + ")" + s, "," + RoleRepr(r2) + ")" + t);
      SplitSecond(RoleRepr(r1), s, RoleRepr(r2), t);
      RoleReprPrefixFree(r1, r2, ")" + s, ")" + t);
      DropPrefix(")", s, t);
    case CAnd(l1, r1) =>
      var l2, r2 := b.andLeft, b.andRight;
      SplitBinary("c_and(", ConceptRepr(l1), ConceptRepr(r1), s, ConceptRepr(l2), ConceptRepr(r2), t);
      ConceptReprPrefixFree(l1, l2, "," + ConceptRepr(r1) + ")" + s, "," + ConceptRepr(r2) + ")" + t);
      SplitSecond(ConceptRepr(r1), s, ConceptRepr(r2), t);
      ConceptReprPrefixFree(r1, r2, ")" + s, ")" + t);
      DropPrefix(")", s, t);
    case COr(l1, r1) =>
      var l2, r2 := b.orLeft, b.orRight;
      SplitBinary("c_or(", ConceptRepr(l1), ConceptRepr(r1), s, ConceptRepr(l2), ConceptRepr(r2), t);
      ConceptReprPrefixFree(l1, l2, "," + ConceptRepr(r1) + ")" + s, "," + ConceptRepr(r2) + ")" + t);
      SplitSecond(ConceptRepr(r1), s, ConceptRepr(r2), t);
      ConceptReprPrefixFree(r1, r2, ")" + s, ")" + t);
      DropPrefix(")", s, t);
    case CAll(r1, c1) =>
      var r2, c2 := b.allRole, b.allConcept;
      SplitBinary("c_all(", RoleRepr(r1), ConceptRepr(c1), s, RoleRepr(r2), ConceptRepr(c2), t);
      RoleReprPrefixFree(r1, r2, "," + ConceptRepr(c1) + ")" + s, "," + ConceptRepr(c2) + ")" + t);
      SplitSecond(ConceptRepr(c1), s, ConceptRepr(c2), t);
      ConceptReprPrefixFree(c1, c2, ")" + s, ")" + t);
      DropPrefix(")", s, t);
  }

  lemma {:induction false} RoleReprPrefixFree(a: Role, b: Role, s: string, t: string)
    requires RoleRepr(a) + s == RoleRepr(b) + t
    ensures a == b && s == t
    decreases a
  {
    SameRoleTag(a, b, s, t);
    RoleTagDistinct(a, b);
    match a
    case RTop => DropPrefix("r_top", s, t);
    case RCompose(l1, r1) =>
      var l2, r2 := b.composeLeft, b.composeRight;
      SplitBinary("r_compose(", RoleRepr(l1), RoleRepr(r1), s, RoleRepr(l2), RoleRepr(r2), t);
      RoleReprPrefixFree(l1, l2, "," + RoleRepr(r1) + ")" + s, "," + RoleRepr(r2) + ")" + t);
      SplitSecond(RoleRepr(r1), s, RoleRepr(r2), t);
      RoleReprPrefixFree(r1, r2, ")" + s, ")" + t);
      DropPrefix(")", s, t);
    case RIdentity(c1) =>
      var c2 := b.identityConcept;
      SplitUnary("r_identity(", ConceptRepr(c1), s, ConceptRepr(c2), t);
      ConceptReprPrefixFree(c1, c2, ")" + s, ")" + t);
      DropPrefix(")", s, t);
    case RTilC(r1, c1) =>
      var r2, c2 := b.tilRole, b.tilConcept;
      SplitBinary("r_til_c(", RoleRepr(r1), ConceptRepr(c1), s, RoleRepr(r2), ConceptRepr(c2), t);
      RoleReprPrefixFree(r1, r2, "," + ConceptRepr(c1) + ")" + s, "," + ConceptRepr(c2) + ")" + t);
      SplitSecond(ConceptRepr(c1), s, ConceptRepr(c2), t);
      ConceptReprPrefixFree(c1, c2, ")" + s, ")" + t);
      DropPrefix(")", s, t);
  }

  /** Two concepts with the same canonical representation are the same concept. */
  lemma ConceptReprInjective(a: Concept, b: Concept)
    ensures ConceptRepr(a) == ConceptRepr(b) <==> a == b
  {
    if ConceptRepr(a) == ConceptRepr(b) {
      assert ConceptRepr(a) + "" == ConceptRepr(b) + "";
      ConceptReprPrefixFree(a, b, "", "");
    }
  }

  /** Two roles with the same canonical representation are the same role. */
  lemma RoleReprInjective(a: Role, b: Role)
    ensures RoleRepr(a) == RoleRepr(b) <==> a == b
  {
    if RoleRepr(a) == RoleRepr(b) {
      assert RoleRepr(a) + "" == RoleRepr(b) + "";
      RoleReprPrefixFree(a, b, "", "");
    }
  }
}

/**
 * Policy effects: what a rule demands of a transition from a source state to a
 * target state, for one boolean or numerical feature. A numerical feature may
 * evaluate to the infinity sentinel, which no comparison treats as a number.
 */
module Effects {
  import opened Wrappers
  import opened Elements

  /** A numerical feature value: a finite count or the `INF` sentinel. */
  datatype Num = Fin(value: int) | Inf

  datatype EffectKind =
    | BooleanPositive
    | BooleanNegative
    | BooleanUnchanged
    | NumericalIncrement
    | NumericalDecrement
    | NumericalUnchanged

  predicate IsBooleanKind(k: EffectKind)
  {
    k.BooleanPositive? || k.BooleanNegative? || k.BooleanUnchanged?
  }

  /** An effect: its concrete kind and the feature it watches, by identity. */
  datatype Effect = Effect(kind: EffectKind, feature: nat)

  /**
   * The named features an effect refers to: their values in a state and their
   * canonical representations (kept abstract).
   */
  datatype Features = Features(
    booleanValue: (nat, State) -> bool,
    numericalValue: (nat, State) -> Num,
    booleanRepr: nat -> string,
    numericalRepr: nat -> string)

  /** `source < target`, false as soon as either side is `INF`. */
  predicate Increases(source: Num, target: Num)
  {
    if source.Inf? then false
    else if target.Inf? then false
    else source.value < target.value
  }

  /** `source > target`, false as soon as either side is `INF`. */
  predicate Decreases(source: Num, target: Num)
  {
    if source.Inf? then false
    else if target.Inf? then false
    else source.value > target.value
  }

  /** Whether the transition from `source` to `target` has the effect. */
  function Evaluate(e: Effect, source: State, target: State, env: Features): bool
  {
    match e.kind
    case BooleanPositive => env.booleanValue(e.feature, target)
    case BooleanNegative => !env.booleanValue(e.feature, target)
    case BooleanUnchanged => env.booleanValue(e.feature, source) == env.booleanValue(e.feature, target)
    case NumericalIncrement => Increases(env.numericalValue(e.feature, source), env.numericalValue(e.feature, target))
    case NumericalDecrement => Decreases(env.numericalValue(e.feature, source), env.numericalValue(e.feature, target))
    case NumericalUnchanged => env.numericalValue(e.feature, source) == env.numericalValue(e.feature, target)
  }

  // ---------------------------------------------------------------------------
  // Evaluation properties

  /** Positive and negative effects look at the target only, and are each other's negation. */
  lemma BooleanEffectsReadTarget(f: nat, s1: State, s2: State, t: State, env: Features)
    ensures Evaluate(Effect(BooleanPositive, f), s1, t, env) == Evaluate(Effect(BooleanPositive, f), s2, t, env)
    ensures Evaluate(Effect(BooleanNegative, f), s1, t, env) == Evaluate(Effect(BooleanNegative, f), s2, t, env)
    ensures Evaluate(Effect(BooleanPositive, f), s1, t, env) != Evaluate(Effect(BooleanNegative, f), s1, t, env)
  {
  }

  /** An unchanged boolean holds exactly when positive holds in both states or in neither. */
  lemma BooleanUnchangedMeaning(f: nat, s: State, t: State, env: Features)
    ensures Evaluate(Effect(BooleanUnchanged, f), s, t, env)
        <==> (Evaluate(Effect(BooleanPositive, f), t, s, env) <==> Evaluate(Effect(BooleanPositive, f), s, t, env))
    ensures Evaluate(Effect(BooleanUnchanged, f), s, s, env)
  {
  }

  /** An increment read backwards is a decrement. */
  lemma IncrementDecrementDual(f: nat, s: State, t: State, env: Features)
    ensures Evaluate(Effect(NumericalIncrement, f), s, t, env) == Evaluate(Effect(NumericalDecrement, f), t, s, env)
  {
  }

  /** No transition both increments and decrements a feature, and neither leaves it unchanged. */
  lemma ChangesExclusive(f: nat, s: State, t: State, env: Features)
    ensures !(Evaluate(Effect(NumericalIncrement, f), s, t, env) && Evaluate(Effect(NumericalDecrement, f), s, t, env))
    ensures Evaluate(Effect(NumericalIncrement, f), s, t, env) ==> !Evaluate(Effect(NumericalUnchanged, f), s, t, env)
    ensures Evaluate(Effect(NumericalDecrement, f), s, t, env) ==> !Evaluate(Effect(NumericalUnchanged, f), s, t, env)
  {
  }

  /** Between finite values one of increment, decrement and unchanged holds (exactly one, with `ChangesExclusive`). */
  lemma FiniteTrichotomy(f: nat, s: State, t: State, env: Features)
    requires env.numericalValue(f, s).Fin? && env.numericalValue(f, t).Fin?
    ensures Evaluate(Effect(NumericalIncrement, f), s, t, env)
         || Evaluate(Effect(NumericalDecrement, f), s, t, env)
         || Evaluate(Effect(NumericalUnchanged, f), s, t, env)
  {
  }

  /**
   * With `INF` on either side there is neither increment nor decrement, and the
   * value is unchanged only from `INF` to `INF`.
   */
  lemma InfiniteValues(f: nat, s: State, t: State, env: Features)
    requires env.numericalValue(f, s).Inf? || env.numericalValue(f, t).Inf?
    ensures !Evaluate(Effect(NumericalIncrement, f), s, t, env)
    ensures !Evaluate(Effect(NumericalDecrement, f), s, t, env)
    ensures Evaluate(Effect(NumericalUnchanged, f), s, t, env)
        <==> env.numericalValue(f, s).Inf? && env.numericalValue(f, t).Inf?
  {
  }

  // ---------------------------------------------------------------------------
  // Representation, equality, hash

  /** Reads a keyword back to its kind; any other string names no kind. */
  function KindOfKeyword(w: string): Option<EffectKind>
  {
    if w == "e_b_pos" then Some(BooleanPositive)
    else if w == "e_b_neg" then Some(BooleanNegative)
    else if w == "e_b_bot" then Some(BooleanUnchanged)
    else if w == "e_n_inc" then Some(NumericalIncrement)
    else if w == "e_n_dec" then Some(NumericalDecrement)
    else if w == "e_n_bot" then Some(NumericalUnchanged)
    else None
  }

  /** The keyword of each kind: seven characters, from which the kind can be read back. */
  function Keyword(k: EffectKind): (w: string)
    ensures |w| == 7
    ensures KindOfKeyword(w) == Some(k)
  {
    match k
    case BooleanPositive => "e_b_pos"
    case BooleanNegative => "e_b_neg"
    case BooleanUnchanged => "e_b_bot"
    case NumericalIncrement => "e_n_inc"
    case NumericalDecrement => "e_n_dec"
    case NumericalUnchanged => "e_n_bot"
  }

  lemma KeywordInjective(a: EffectKind, b: EffectKind)
    ensures Keyword(a) == Keyword(b) <==> a == b
  {
    if a != b {
      assert Keyword(a)[2] != Keyword(b)[2] || Keyword(a)[4] != Keyword(b)[4];
    }
  }

  /** The canonical representation of the watched feature. */
  function FeatureRepr(e: Effect, env: Features): string
  {
    if IsBooleanKind(e.kind) then env.booleanRepr(e.feature) else env.numericalRepr(e.feature)
  }

  /** `compute_repr`: `(:KW "feature")`. */
  function Repr(e: Effect, env: Features): (r: string)
    ensures |r| == |FeatureRepr(e, env)| + 13
  {
    "(:" + Keyword(e.kind) + " \"" + FeatureRepr(e, env) + "\")"
  }

  /** Reads the kind back from an effect's representation: the keyword after the opening `(:`. */
  function KindOfRepr(r: string): Option<EffectKind>
  {
    if |r| < 9 then None else KindOfKeyword(r[2..9])
  }

  /** Every effect's representation can be read back to its kind. */
  lemma ReprNamesKind(e: Effect, env: Features)
    ensures KindOfRepr(Repr(e, env)) == Some(e.kind)
  {
    assert Repr(e, env)[2..9] == Keyword(e.kind);
  }

  /** The representation determines the kind and the feature's representation, and is determined by them. */
  lemma ReprInjective(a: Effect, b: Effect, env: Features)
    ensures Repr(a, env) == Repr(b, env) <==> a.kind == b.kind && FeatureRepr(a, env) == FeatureRepr(b, env)
  {
    var ra, rb := Repr(a, env), Repr(b, env);
    if ra == rb {
      assert ra[2..9] == Keyword(a.kind) && rb[2..9] == Keyword(b.kind);
      KeywordInjective(a.kind, b.kind);
      assert ra[11..|ra| - 2] == FeatureRepr(a, env);
      assert rb[11..|rb| - 2] == FeatureRepr(b, env);
    }
  }

  /** `operator==`: the same concrete kind, then the same feature object. */
  predicate SameEffect(a: Effect, b: Effect)
  {
    if a.kind != b.kind then false else a.feature == b.feature
  }

  /** `hash`: combines the feature only. */
  function Hash(e: Effect, featureHash: nat -> int): int
  {
    featureHash(e.feature)
  }

  /** Equality is identity of kind and feature; equal effects hash alike, and so do all kinds on one feature. */
  lemma EqualityAndHash(a: Effect, b: Effect, featureHash: nat -> int)
    ensures SameEffect(a, b) <==> a == b
    ensures SameEffect(a, b) ==> Hash(a, featureHash) == Hash(b, featureHash)
    ensures a.feature == b.feature ==> Hash(a, featureHash) == Hash(b, featureHash)
  {
  }
}

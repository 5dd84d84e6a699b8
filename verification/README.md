# dlplan core, modelled in Dafny

This project models the core of dlplan, a library of description-logic features for classical
planning, and proves properties of that model. It covers five parts:

- **Elements.** The concepts and roles, with their denotations over a state's objects,
  complexity, canonical representation `name(child,child)`, static flag and evaluation-time score.
  The kinds whose element code is part of the model are `c_top`, `c_bot`, `c_some`, `c_equal` and
  `r_top`. The other kinds (`c_and`, `c_or`, `c_all`, `r_compose`, `r_identity`, `r_til_c`) are
  syntax only: they have a complexity and a representation, built the same way.
- **Evaluation.** Single-state and per-state evaluation, memoised through a denotation store.
- **The element interning cache.** Keyed by canonical representation, it hands out one shared
  object per key and forgets the key when the last owner releases it.
- **The feature generator.** It has:
  - the shared rule bookkeeping (enabled flag, counter, gating);
  - the signature encodings: length-prefixed blocks of per-state denotations;
  - the newer rules `c_top`, `c_all`, `r_identity` and `r_til_c`, which deduplicate by signature
    through a hash table;
  - the older rules `c_equal`, `c_or` and `r_compose`, which stop as soon as the generator's limit
    is reached.
- **Parsing and policies.**
  - Parser expressions: `str`, the sorted children of `c_and`, and the `c_and` parse step.
  - Policy effects: evaluation, representation, equality and hash.
  - The greedy policy minimizer: merge by condition, merge by effect, and the fixpoint loop.

Modules follow the source layout:

| file | module |
|---|---|
| `Wrappers.dfy` | `Option` and `Result` |
| `Elements.dfy` | element datatypes and their per-kind functions |
| `ElementProperties.dfy` | semantics of the modelled kinds |
| `ReprInjectivity.dfy`, `ReprCounting.dfy` | canonical representation |
| `Denotations.dfy` | evaluation |
| `Interning.dfy` | interning cache |
| `Signatures.dfy`, `Rules.dfy`, `Enumeration.dfy`, `Generation.dfy`, `GenerationProperties.dfy`, `GenerationLimited.dfy` | generator |
| `Parser.dfy` | parser |
| `Effects.dfy` | policy effects |
| `Minimizer.dfy` | policy minimizer |

The parser's `c_and` arity error reads "number of children (n != 1)." although two children are
required. `Parser.ArityError` keeps that text exactly as the source has it.

## Model

| member | source | states |
|---|---|---|
| Elements.Objects | src/core/elements/concepts/top.h:44-48 | an object is in the full concept denotation exactly when its index is below the state's object count |
| Elements.Pairs | src/core/elements/roles/top.cpp:5-9 | a pair is in the full role denotation exactly when both components are below the object count |
| Elements.EvalConcept | src/core/elements/concepts/some.h:72-79 | every concept denotation is a subset of the state's objects |
| Elements.EvalRole | src/core/elements/roles/top.h:47-52 | every role denotation only relates objects of the state |
| Elements.ConceptComplexity | src/core/elements/concepts/some.h:81-83 | complexity is at least one: one per node of the element tree |
| Elements.RoleComplexity | src/core/elements/roles/top.cpp:44-46 | role complexity is at least one |
| Elements.ConceptRepr | src/core/elements/concepts/some.h:85-91 | the canonical repr `name(child,child)`, a bare name for the leaves; injectivity and the node count it encodes are the ReprInjectivity and ReprCounting rows |
| Elements.RoleRepr | src/core/elements/roles/top.cpp:48-50 | `r_top` for the top role, `name(child,child)` for the others; injectivity is ReprInjectivity.RoleReprInjective |
| Elements.ConceptIsStatic | src/core/elements/concepts/some.h:64-66 | the static flag: true for the leaves, the conjunction of the children's flags otherwise; ElementProperties.StaticEvaluation states what it means |
| Elements.RoleIsStatic | src/core/elements/roles/top.cpp:22-23 | r_top is static; the operators conjoin their children's flags |
| Elements.ConceptScore | src/core/elements/concepts/some.h:93-95 | the evaluation-time score: the constant for a leaf, children plus the quadratic term for c_some and c_equal; ReprCounting.ConceptScoreFromRepr reads it back from the repr |
| Elements.RoleScore | src/core/elements/roles/top.cpp:52-54 | r_top scores the constant |
| Elements.SameConcept | src/core/elements/concepts/equal.h:98-106 | `operator==`: same kind, same static flag and same children; ElementProperties.SameConceptIsEquality proves it is structural equality |
| Elements.SameRole | src/core/elements/roles/top.cpp:25-31 | `operator==` on roles; ElementProperties.SameRoleIsEquality proves it is structural equality |
| Elements.ConceptHashInput | src/core/elements/concepts/equal.h:108-110 | what `hash_combine` receives: the static flag and the children; equal concepts give equal input (ElementProperties.SameConceptIsEquality) |
| Elements.RoleHashInput | src/core/elements/roles/top.cpp:33-35 | r_top hashes its static flag alone |
| ElementProperties.ObjectsCount | src/core/elements/concepts/top.h:44-48 | the full concept denotation has exactly as many members as the state has objects |
| ElementProperties.PairsCount | src/core/elements/roles/top.cpp:5-9 | the full role denotation has n*n members |
| ElementProperties.GridCount | src/core/elements/roles/top.cpp:5-9 | the k-by-m block of pairs has k*m members (induction on rows) |
| ElementProperties.TopConceptSemantics | src/core/elements/concepts/top.h:87-103 | c_top denotes every object, has complexity 1, repr "c_top", is static and scores the constant |
| ElementProperties.BotConceptSemantics | src/core/elements/concepts/bot.cpp:34-48 | c_bot denotes nothing, has complexity 1, repr "c_bot", is static and scores the constant |
| ElementProperties.TopRoleSemantics | src/core/elements/roles/top.cpp:37-50 | r_top relates every pair of objects (n*n of them), has complexity 1, repr "r_top", is static and scores the constant |
| ElementProperties.SomeMembership | src/core/elements/concepts/some.h:18-25 | a is in some(R,C) exactly when some b has (a,b) in R and b in C |
| ElementProperties.SomeMonotone | src/core/elements/concepts/some.h:18-25 | c_some is monotone in both its role and its concept |
| ElementProperties.EqualMembership | src/core/elements/concepts/equal.h:47-56 | a is in equal(R,S) exactly when a is an object and R and S relate a to the same objects |
| ElementProperties.EqualReflexive | src/core/elements/concepts/equal.h:47-56 | equal(R,R) denotes every object |
| ElementProperties.EqualSymmetry | src/core/elements/concepts/equal.h:47-131 | for any two role denotations, swapping them keeps the c_equal denotation; the two reprs agree only when the roles are the same |
| ElementProperties.StaticEvaluation | src/core/elements/concepts/some.h:64-66 | every modelled concept is static, and its denotation depends only on the object count |
| ElementProperties.SameConceptIsEquality | src/core/elements/concepts/equal.h:98-110 | operator== on concepts (same kind, static flag, children) is structural equality, and equal concepts hash alike |
| ElementProperties.SameRoleIsEquality | src/core/elements/roles/top.cpp:25-35 | operator== on roles is structural equality; two r_top roles are equal and hash alike |
| ReprInjectivity.ConceptReprPrefixFree | src/core/elements/concepts/equal.h:125-131 | no concept repr is a proper prefix of another in any context: equal concatenations split at the same place |
| ReprInjectivity.ConceptReprInjective | src/core/elements/concepts/some.h:85-91 | two concepts have the same canonical repr exactly when they are the same concept |
| ReprInjectivity.RoleReprInjective | src/core/elements/roles/top.cpp:48-50 | two roles have the same canonical repr exactly when they are the same role |
| ReprCounting.ConceptComplexityFromRepr | src/core/elements/concepts/some.h:81-91 | a concept's complexity equals the node count read back from its repr (one plus opening parentheses plus commas) |
| ReprCounting.RoleComplexityFromRepr | src/core/elements/roles/top.cpp:44-50 | a role's complexity equals the node count read back from its repr |
| ReprCounting.ConceptScoreFromRepr | src/core/elements/concepts/some.h:93-95 | a concept's evaluation-time score equals the score computed from its repr alone: constant per node, quadratic per binary node |
| Denotations.FullConcept | src/core/elements/concepts/top.h:44-48 | the set bitset is the full object set |
| Denotations.FullRole | src/core/elements/roles/top.cpp:5-9 | the set role bitset is the full pair set |
| Denotations.SomeCompute | src/core/elements/concepts/some.h:18-25 | the loop over the role's pairs computes the c_some denotation |
| Denotations.ErasePass | src/core/elements/concepts/equal.h:50-52 | one erase pass removes exactly the first components of pairs missing from the other role |
| Denotations.EqualCompute | src/core/elements/concepts/equal.h:47-56 | set-then-two-erase-passes computes the c_equal denotation |
| Denotations.EvaluateConceptStates | src/core/elements/concepts/some.h:36-50 | per-state evaluation yields one denotation per state, each the single-state denotation |
| Denotations.EvaluateRoleStates | src/core/elements/roles/top.cpp:11-20 | per-state role evaluation yields one denotation per state, each the single-state denotation |
| Denotations.StoreConceptSound | src/core/elements/concepts/some.h:47 | storing a correct denotation under the repr keeps every stored denotation correct |
| Denotations.CachedEvalConcept | src/core/elements/concepts/some.h:27-34 | cached evaluation returns the true denotation, keeps the store sound, only adds to it, and records the element |
| Denotations.CachedEvalRole | src/core/elements/roles/top.h:18-22 | cached role evaluation returns the true denotation and keeps the store sound and growing |
| Denotations.CachedEvalIdempotent | src/core/elements/concepts/some.h:36-50 | evaluating again with the updated store returns the same denotation and store |
| Denotations.CachedAgreesWithUncached | src/core/elements/concepts/some.h:72-79 | the cached and uncached evaluate agree from an empty store |
| Interning.EmptyValid | src/core/cache.h:89-94 | a fresh cache satisfies the cache invariant: every key maps to a live object whose repr is that key |
| Interning.Insert | src/core/cache.h:58-77 | insert returns the live object for the candidate's repr: the existing one with one more owner, or a new one holding the candidate, and nothing else changes |
| Interning.Release | src/core/cache.h:66-71 | dropping the last owner erases the object and its key, otherwise one owner fewer; other objects are untouched |
| Interning.At | src/core/cache.h:51-53 | lookup succeeds exactly for present keys and yields the object stored under the key; absent keys fail |
| Interning.InsertTwiceShares | src/core/cache.h:61-63 | inserting two candidates with the same repr yields the same shared object |
| Interning.InsertReleaseRestores | src/core/cache.h:63-75 | inserting a new key and releasing it restores the cache exactly |
| Interning.OneObjectPerKey | src/core/cache.h:44 | distinct live objects have distinct keys |
| Interning.InternedConceptIsCandidate | src/core/cache.h:58-77 | with reprs injective, the interned concept is the candidate itself |
| Interning.InternedRoleIsCandidate | src/core/cache.h:58-77 | with reprs injective, the interned role is the candidate itself |
| Interning.NewCaches | src/core/cache.h:83-94 | the four caches start empty |
| Interning.InsertConcept | src/core/cache.h:83-94 | interning a concept keeps all four caches valid, leaves the other three unchanged and yields the candidate |
| Interning.InsertRole | src/core/cache.h:83-94 | interning a role keeps all four caches valid, leaves the other three unchanged and yields the candidate |
| Signatures.EvaluateBoolean | src/generator/rules/rule.h:97-106 | one entry per state: 1 when the boolean holds, else 0 |
| Signatures.EvaluateNumerical | src/generator/rules/rule.h:108-117 | one entry per state: the numerical's value |
| Signatures.EvaluateConcept | src/generator/rules/rule.h:119-130 | for any concept, given as its evaluation function, the signature is the encoding of its per-state canonical data, each block preceded by its length |
| Signatures.EvaluateRole | src/generator/rules/rule.h:132-142 | for any role, given as its evaluation function, the signature is the encoding of its per-state canonical data, each block preceded by its length |
| Signatures.EncodeLength | src/generator/rules/rule.h:126-127 | the signature length is the number of blocks plus the blocks' total size |
| Signatures.DecodeEncode | src/generator/rules/rule.h:126-127 | the length-prefixed encoding decodes back to the blocks |
| Signatures.EncodeInjective | src/generator/rules/rule.h:126-127 | two block lists have the same encoding exactly when they are equal |
| Signatures.ConceptSignatureMeaning | src/generator/rules/rule.h:119-130 | with an injective canonical encoding, any two concepts (given as evaluation functions) have equal signatures exactly when they denote alike in every state of the sample |
| Signatures.RoleSignatureMeaning | src/generator/rules/rule.h:132-142 | with an injective canonical encoding, any two roles (given as evaluation functions) have equal signatures exactly when they denote alike in every state of the sample |
| Rules.NewRule | src/generator/rules/rule.h:50 | a new rule is enabled and has count 0 |
| Rules.NewOrRule | src/generator/rules/concepts/or.h:23 | the c_or rule is named "c_or" and takes its enabled flag from the constructor |
| GenerationLimited.RuleNamesAreKeywords | src/generator/rules/concepts/equal.h:10 | the c_equal, c_or and r_compose rules are named by the keyword that heads the representation of every candidate they build |
| Generation.TilCNameIsKeyword | src/generator/rules/roles/til_c.cpp:28-30 | the r_til_c rule's name heads the representation of every candidate it builds |
| Rules.Initialize | src/generator/rules/rule.h:53-55 | initialize resets the count and changes nothing else |
| Rules.SetEnabled | src/generator/rules/rule.h:86-88 | set_enabled sets the flag and changes nothing else |
| Rules.Gate | src/generator/rules/rule.h:65-78 | submit and parse run the rule's work only when it is enabled, otherwise the data is untouched |
| Rules.DisabledRuleIsInert | src/generator/rules/rule.h:65-78 | a disabled rule leaves the data unchanged over any number of rounds |
| Rules.CountAfterInitialize | src/generator/rules/rule.h:53-55 | after initialize, k generated elements give count k, and the flag is kept |
| Rules.Increment | src/generator/rules/concepts/equal.h:19 | one more instantiation: the count goes up by one, name and flag are kept |
| Generation.AddConcept | src/generator/rules/concepts/all.cpp:18-24 | a candidate with a new signature is appended to its complexity bucket, recorded in table and reprs, and counted. Otherwise the data and count are unchanged, and its cached denotation is erased when the rule erases. Roles are never touched |
| Generation.AddRole | src/generator/rules/roles/til_c.cpp:17-21 | a role with a new signature is appended and counted, and goes to the til_c feature slot (til_c) or to the reprs (identity). A known signature changes nothing |
| Generation.IdentityCandidates | src/generator/rules/roles/identity.cpp:11-12 | the identity candidates are identity(c) for each concept c of complexity target-1, in order |
| Generation.FoldConceptsAppends | src/generator/rules/concepts/all.cpp:18-21 | a run only appends to the target bucket, only candidates, with reprs and count following the appended elements |
| Generation.FoldRolesAppends | src/generator/rules/roles/til_c.cpp:17-20 | a role run only appends candidates to the target bucket, with count, reprs or til_c slot following them |
| Generation.GenerateTop | src/generator/rules/concepts/top.cpp:9-19 | the top rule adds c_top exactly when its signature is new, counting at most one |
| Generation.GenerateAll | src/generator/rules/concepts/all.cpp:9-28 | the nested loops add the c_all candidates in split, role, concept order, each through the signature check |
| Generation.GenerateIdentity | src/generator/rules/roles/identity.cpp:9-20 | the identity rule adds the identity candidates in order through the signature check |
| Generation.GenerateTilC | src/generator/rules/roles/til_c.cpp:9-25 | the til_c rule adds the til_c candidates in split order through the signature check |
| GenerationProperties.AllCandidatesShape | src/generator/rules/concepts/all.cpp:11-15 | x is a c_all candidate exactly when x = all(r,c) with complexities i and target-i-1 for some split i. Each candidate then has complexity target |
| GenerationProperties.TilCCandidatesShape | src/generator/rules/roles/til_c.cpp:11-15 | x is a til_c candidate exactly when x = til_c(r,c) for a split. Each candidate then has complexity target |
| GenerationProperties.NoSplitsBelowThree | src/generator/rules/concepts/all.cpp:11 | below complexity 3 the c_all and til_c rules generate nothing |
| GenerationProperties.KeptConceptSignatureInTable | src/generator/rules/concepts/all.cpp:18-20 | every kept concept's signature is in the hash table |
| GenerationProperties.FoldConceptsDeduplicated | src/generator/rules/concepts/all.cpp:18-21 | kept elements' signatures stay exactly the hash table's contents, each once, through a run |
| GenerationProperties.FoldKeepsNewSignatures | src/generator/rules/concepts/all.cpp:18-21 | candidates with fresh, distinct signatures are all kept, in order, and their signatures added to the table |
| GenerationProperties.FoldDropsKnownSignatures | src/generator/rules/concepts/all.cpp:18-24 | candidates whose signatures are known change neither buckets, table, reprs nor count |
| GenerationProperties.GenerateAllPreserves | src/generator/rules/concepts/all.cpp:9-28 | the c_all rule keeps every bucket at its complexity and the buckets deduplicated |
| GenerationProperties.GenerateTilCPreserves | src/generator/rules/roles/til_c.cpp:9-25 | the til_c rule keeps buckets at their complexity and deduplicated |
| GenerationProperties.GenerateIdentityPreserves | src/generator/rules/roles/identity.cpp:9-20 | the identity rule keeps buckets at their complexity and deduplicated |
| GenerationProperties.GenerateTopPreserves | src/generator/rules/concepts/top.cpp:9-19 | the top rule keeps buckets at their complexity and deduplicated |
| Enumeration.SplitsMember | src/generator/rules/concepts/equal.h:13-16 | x is enumerated exactly when x = mk(a,b) with a of complexity i and b of complexity target-i, 1 <= i < target |
| Enumeration.CrossMember | src/generator/rules/concepts/equal.h:15-16 | the nested loops enumerate exactly the pairs of the two lists |
| Enumeration.CrossLength | src/generator/rules/concepts/equal.h:15-16 | the nested loops visit |xs|*|bs| pairs |
| Enumeration.MirroredSplits | src/generator/rules/concepts/or.h:9-12 | for every split both mk(a,b) and mk(b,a) are enumerated |
| GenerationLimited.StoppedStays | src/generator/rules/concepts/equal.h:17 | once the rule has returned on the limit, later candidates change nothing |
| GenerationLimited.StopsAtFirstLimit | src/generator/rules/concepts/equal.h:17-20 | the run equals the unlimited run up to the first candidate at which the limit holds, then stops |
| GenerationLimited.NoLimitMeansUnlimited | src/generator/rules/concepts/equal.h:17-20 | if the limit never holds, every candidate is offered to add_concept |
| GenerationLimited.CountBound | src/generator/rules/concepts/equal.h:18-20 | the count grows by at most the number of candidates |
| GenerationLimited.LimitAtStart | src/generator/rules/concepts/equal.h:17 | a limit reached on entry adds nothing |
| GenerationLimited.GenerateEqual | src/generator/rules/concepts/equal.h:12-24 | the c_equal rule is the limited run over all (left,right) role pairs of each split, in loop order |
| GenerationLimited.GenerateOr | src/generator/rules/concepts/or.h:8-20 | the c_or rule is the limited run over all concept pairs of each split |
| GenerationLimited.GenerateCompose | src/generator/rules/roles/compose.h:10-22 | the r_compose rule is the limited run over all role pairs of each split |
| GenerationLimited.EqualCandidateComplexity | src/generator/rules/concepts/equal.h:13-16 | every c_equal candidate at iteration i has complexity i+1 |
| Effects.BooleanEffectsReadTarget | src/policy/effect.cpp:65-100 | positive and negative boolean effects read only the target state and are each other's negation |
| Effects.BooleanUnchangedMeaning | src/policy/effect.cpp:131-133 | the unchanged boolean effect holds when the value is the same in source and target, and always on a self-transition |
| Effects.IncrementDecrementDual | src/policy/effect.cpp:164-211 | an increment from s to t is a decrement from t to s |
| Effects.ChangesExclusive | src/policy/effect.cpp:164-248 | no transition both increments and decrements, and neither holds together with unchanged |
| Effects.FiniteTrichotomy | src/policy/effect.cpp:246-248 | between finite values one of increment, decrement, unchanged holds |
| Effects.InfiniteValues | src/policy/effect.cpp:164-170 | with INF on either side neither increment nor decrement holds; unchanged holds only from INF to INF |
| Effects.Keyword | src/policy/effect.cpp:73-75 | every effect keyword has seven characters and reads back to its kind |
| Effects.ReprNamesKind | src/policy/effect.cpp:73-258 | the kind of an effect can be read back from its representation |
| Effects.KeywordInjective | src/policy/effect.cpp:73-258 | the six keywords are distinct |
| Effects.Repr | src/policy/effect.cpp:73-75 | the repr adds thirteen characters of syntax around the feature's repr |
| Effects.ReprInjective | src/policy/effect.cpp:73-258 | two effects have the same repr exactly when they have the same kind and feature repr |
| Effects.EqualityAndHash | src/policy/effect.cpp:52-63 | operator== is same kind and same feature; equal effects hash alike, and the hash depends only on the feature |
| Effects.Evaluate | src/policy/effect.cpp:65-254 | the six `evaluate`s; what they mean is stated by the rows from Effects.BooleanEffectsReadTarget to Effects.InfiniteValues |
| Effects.SameEffect | src/policy/effect.cpp:52-59 | `operator==`: same concrete kind and same feature; Effects.EqualityAndHash proves it is structural equality |
| Effects.Hash | src/policy/effect.cpp:61-63 | the hash combines the feature only, so equal effects hash alike (Effects.EqualityAndHash) |
| Minimizer.SetThenGet | src/policy/policy.cpp:24-30 | get_index returns what set_index stored; set_index overwrites and restores |
| Minimizer.SetIndex | src/policy/policy.cpp:24-26 | `set_index` changes the index only; the feature is kept (Minimizer.SetThenGet for the read-back) |
| Minimizer.GetIndex | src/policy/policy.cpp:28-30 | `get_index` reads the index last set (Minimizer.SetThenGet) |
| Minimizer.SymmetricDifference | src/policy/policy.cpp:176 | a handle is in the difference exactly when it is in one side only |
| Minimizer.FindConditionPair | src/policy/policy.cpp:163-196 | the first (in loop order) pair with equal effects whose conditions differ in two same-feature, same-type conditions, or none exists |
| Minimizer.FindEffectTriple | src/policy/policy.cpp:198-249 | the first mergeable triple in loop order, or none exists |
| Minimizer.UnmergedMember | src/policy/policy.cpp:260-266 | membership: a rule list is copied exactly when some unmerged position carries it (order and multiplicity are Minimizer.UnmergedInOrder) |
| Minimizer.UnmergedInOrder | src/policy/policy.cpp:260-266 | the copied rules are those at the positions outside the merge, each once, in increasing position |
| Minimizer.MergedCount | src/policy/policy.cpp:163-249 | a merge removes at least two rules |
| Minimizer.MergedRule | src/policy/policy.cpp:188-189 | the added rule: rule 1's lists passed through `compute_merged_values` with the condition difference, or (policy.cpp:240-241) with the three-way effect difference |
| Minimizer.MinimizeRound | src/policy/policy.cpp:251-270 | one round merges by condition if possible, else by effect; the merged rule comes first, then the others. A merge strictly shrinks the policy; no merge exactly when none is possible |
| Minimizer.RebuildKeepsNoMerge | src/policy/policy.cpp:260-266 | rebuilding a policy with no possible merge leaves none possible |
| Minimizer.MinimizeGreedy | src/policy/policy.cpp:251-270 | the run of rounds from the input, each round taking the first merge (conditions before effects) and rebuilding the policy, up to a policy with no merge; the result copies that policy's rules; no more rules than the input, indices renumbered, no merge left for index-ordered input, and an indexed merge-free input comes back unchanged after zero rounds |
| Minimizer.MinimizeWithExamples | src/policy/policy.cpp:272-282 | the example-guided variant always fails with "Not implemented." |
| Parser.StrIsEmpty | src/core/parser/expressions/expression.h:51-57 | as written, str() is the empty string for every expression |
| Parser.StrConflates | src/core/parser/expressions/expression.h:51-57 | as written, any two expressions have the same str() |
| Parser.Str | src/core/parser/expressions/expression.h:51-57 | `str()` as written, the concatenation of the children's strings; Parser.StrIsEmpty proves it is always empty |
| Parser.IsLeaf | src/core/parser/expressions/expression.h:37-39 | a leaf has no children; Parser.LeafIffCanonicalIsName ties it to the canonical string |
| Parser.CanonicalStrInjective | src/core/parser/expressions/expression.h:48-57 | the corrected canonical string `name(c1,...,cn)` is equal for two well-named expressions exactly when they are equal |
| Parser.LeafIffCanonicalIsName | src/core/parser/expressions/expression.h:37-39 | an expression is a leaf exactly when its canonical string is its name |
| Parser.SortChildrenSorted | src/core/parser/expressions/concepts/and.h:28-29 | sorting the children makes them ordered by key and is a permutation |
| Parser.SortChildren | src/core/parser/expressions/concepts/and.h:28-29 | the children re-ordered by a string key: the same children as a multiset (ordered by Parser.SortChildrenSorted) |
| Parser.AndExpression | src/core/parser/expressions/concepts/and.h:28-29 | the c_and node keeps its name and its children as a multiset |
| Parser.AndOperandOrderIrrelevant | src/core/parser/expressions/concepts/and.h:28-29 | with distinct keys, and(a,b) and and(b,a) build the same node |
| Parser.CanonicalKeyMakesAndCommutative | src/core/parser/expressions/concepts/and.h:28-29 | keyed by the corrected canonical string, and(a,b) and and(b,a) are the same node |
| Parser.StrKeyKeepsOperandOrder | src/core/parser/expressions/concepts/and.h:28-29 | keyed by str() as written, the sort keeps the given order, so and(a,b) and and(b,a) differ |
| Parser.ParseAnd | src/core/parser/expressions/concepts/and.h:13-25 | not two children: the arity error. Otherwise success exactly when both children parse to concepts, giving and(left,right) |
| Parser.ArityError | src/core/parser/expressions/concepts/and.h:14-16 | the arity message with the decimal child count, keeping the source's "!= 1" text |
| Parser.BaseMakeConcept | src/core/parser/expressions/expression.h:69-71 | the base node's `make_concept_element` default: always null (Parser.BaseChildrenNeverParse) |
| Parser.BaseChildrenNeverParse | src/core/parser/expressions/concepts/and.h:17-22 | children that are plain expressions never parse to concepts, so the parse fails |
| Parser.ParseAndCommutative | src/core/parser/expressions/concepts/and.h:13-29 | with the canonical key, parsing and(a,b) and and(b,a) gives the same result |
| Parser.ParseAndOperands | src/core/parser/expressions/concepts/and.h:13-29 | the parsed element's operands are the two parsed children, in sorted order |

## Left out

- Serialization, the thread pool, console output and statistics printing: these are I/O and
  concurrency. The generator's parallel task split is modelled as the sequential loop it replaces.
- The element factory and its interning of children is not part of this model. Children are
  values, and shared-pointer identity is structural equality.
- Elements.EvalConcept: denotations are defined only for `c_top`, `c_bot`, `c_some`, `c_equal`
  and `r_top`, the kinds whose element code is in the model. The other kinds carry complexity and
  repr only.
- The representations of `c_and`, `c_or`, `c_all`, `r_compose`, `r_identity` and `r_til_c`:
  their element code is not part of this model. They are assumed to follow the pattern of
  `c_some` and `c_equal`: `name(child,child)` for the repr and "1 + children" for complexity.
  Their static flag is likewise assumed to be the conjunction of the children's flags
  (`ConceptIsStatic`, `RoleIsStatic`), as for `c_some` and `c_equal`.
- Elements.SameConcept: `operator==` and `hash` are defined for `c_top`, `c_bot`, `c_equal` and
  `r_top` only. For `c_some`, `c_and`, `c_or`, `c_all`, `r_compose`, `r_identity` and `r_til_c`
  the model assumes the pattern of `c_equal`: equality compares the static flag and the children,
  and the hash input (`ConceptHashInput`, `RoleHashInput`) is the static flag plus the children.
- `SCORE_CONSTANT` and `SCORE_QUADRATIC` have no value in the modelled code, so they are a
  parameter (`ScoreConstants`).
- Bitset internals and `to_canonical_data_representation` are a parameter `enc`. The signature
  lemmas assume it is injective.
- Hash values: `hash_combine` is not modelled. Hashing is kept as the input it combines
  (`HashInput`), or as an abstract feature hash for effects.
- Denotations.CachedEvalConcept: the memo keyed by canonical representation abstracts the base
  class's `evaluate(state, caches)`, whose lookup-and-store code is not part of this model. Of
  the cited lines only the children's evaluation through the caches is modelled code; the batch
  path's `insert_denotation`, which interns denotations by value, is not modelled.
- Denotations.CachedEvalRole: the same abstraction of the base class's cached `evaluate` for roles.
- The cache argument of the generator's `evaluate_*` helpers is dropped. Evaluation is
  modelled once in `Denotations` and passed in as a function.
- Effects: the integer `identifier` every effect is constructed with is not modelled. The source's
  `operator==` and `hash` ignore it, so `Effect` keeps only the kind and the feature.
- The numerical `INF` sentinel is a separate constructor `Inf`, not a concrete integer.
- The generator's `m_generated_features` is modelled only for the `r_til_c` slot it fills. The
  other rules push to `m_reprs`.
- For the older rules (`c_equal`, `c_or`, `r_compose`), `add_concept`, `add_role` and
  `reached_limit` are not part of this model. They are function parameters. The candidate lists are read once,
  when the rule starts.
- The base `Rule` constructor of the older rules (`c_equal`, `c_or`, `r_compose`) is not part of
  this model. Only the names they pass to it are modelled.
- Minimizer: the helpers `check_feature_index_equality`, `check_type_equality` and
  `compute_merged_values` are not part of this model. They are parameters (`Helpers`).
- Minimizer: the rebuilt policy's rule order is taken to be the builder's insertion order, and
  `PolicyBuilder` deduplication of identical rules is not modelled.
- Minimizer: the source applies `std::set_symmetric_difference` to unordered sets. The model uses
  the mathematical symmetric difference, which the algorithm evidently intends.
- Minimizer.MinimizeGreedy: no-merge-possible is stated only for input whose rule indices are
  ordered as its positions; termination is by the strictly shrinking rule count.
- Parser: only `Expression` and the `c_and` parse step are modelled. The other element parsers
  and the grammar are out of scope. `sort_children_lexicographically` is modelled as a stable
  insertion sort; the order it gives children with equal keys is an assumption. The sort key is a parameter; the proofs consider both the
  as-written `str` and the canonical string.
- Parser.BaseMakeConcept: stands for the base-class default of the per-child parse method that
  `c_and`'s step calls (`parse_concept_element`). The node class that is part of this model is
  from an older interface: it names that default `make_concept_element` and returns null. The
  Findings row likewise combines that class's `str()` with the child sort from `c_and`'s newer
  interface.
- Parser: of the base node's `make_*_element` defaults (all null), only the concept one is modelled
  (`BaseMakeConcept`), since the `c_and` step is the only parse step in the model.
- `str()` itself is kept as written (see Findings). The corrected `CanonicalStr` is the intended
  reading, given the `name(child,...)` format of element reprs.

## Findings

| source | as written | input that shows it | evidently intended | confidence | as-written member | corrected member |
|---|---|---|---|---|---|---|
| src/core/parser/expressions/expression.h:51-57 | `str()` concatenates only the children's `str()`, and a leaf contributes nothing, so every expression's string is empty; a sort of the `c_and` children keyed by it never reorders them | `c_and(c_top, c_bot)` and `c_and(c_bot, c_top)`: both children have `str() == ""`, so a stable sort (as the model's `SortChildren` is; the sort routine itself is not part of this model, and `std::sort` would not promise it) keeps the children in the given order and the two parse to different nodes | the canonical string `name(c1,...,cn)` (`name` for a leaf), which is injective, so that sorting makes `c_and` independent of operand order | not executed | Parser.StrKeyKeepsOperandOrder | Parser.CanonicalKeyMakesAndCommutative |

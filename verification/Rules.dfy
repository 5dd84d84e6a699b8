/**
 * The bookkeeping every generator rule shares: a name, an enabled flag and
 * a count of generated elements. A disabled rule's task submission and
 * result parsing do nothing.
 */
module Rules {

  datatype Rule = Rule(name: string, enabled: bool, count: nat)

  /** A fresh rule is enabled and has generated nothing. */
  function NewRule(name: string): (r: Rule)
    ensures r.enabled && r.count == 0 && r.name == name
  {
    Rule(name, true, 0)
  }

  /** The names the c_equal and r_compose rules pass to their constructors, and the name r_til_c reports. */
  const EqualRuleName := "c_equal"
  const ComposeRuleName := "r_compose"
  const TilCRuleName := "r_til_c"

  /** The c_or rule of the older generator takes its enabled flag from its constructor. */
  function NewOrRule(enabled: bool): (r: Rule)
    ensures r.name == "c_or" && r.enabled == enabled && r.count == 0
  {
    Rule("c_or", enabled, 0)
  }

  /** `initialize`: the count restarts at zero; nothing else changes. */
  function Initialize(r: Rule): (r': Rule)
    ensures r'.count == 0 && r'.name == r.name && r'.enabled == r.enabled
  {
    r.(count := 0)
  }

  /** `set_enabled`: only the flag changes. */
  function SetEnabled(r: Rule, enabled: bool): (r': Rule)
    ensures r'.enabled == enabled && r'.name == r.name && r'.count == r.count
  {
    r.(enabled := enabled)
  }

  /** One more generated element. */
  function Increment(r: Rule): (r': Rule)
    ensures r'.count == r.count + 1 && r'.name == r.name && r'.enabled == r.enabled
  {
    r.(count := r.count + 1)
  }

  /**
   * `submit_tasks` and `parse_results_of_tasks`: the rule's work runs on the
   * data only when the rule is enabled.
   */
  function Gate<D>(r: Rule, data: D, work: D -> D): (d': D)
    ensures !r.enabled ==> d' == data
    ensures r.enabled ==> d' == work(data)
  {
    if r.enabled then work(data) else data
  }

  // ---------------------------------------------------------------------------
  // Properties

  /** A disabled rule leaves the data alone through any number of gated rounds. */
  lemma {:induction false} DisabledRuleIsInert<D>(r: Rule, data: D, work: D -> D, rounds: nat)
    requires !r.enabled
    ensures GateRounds(r, data, work, rounds) == data
  {
    if rounds > 0 {
      DisabledRuleIsInert(r, data, work, rounds - 1);
    }
  }

  /** `rounds` gated runs of the rule's work, one after the other. */
  function GateRounds<D>(r: Rule, data: D, work: D -> D, rounds: nat): D
  {
    if rounds == 0 then data else Gate(r, GateRounds(r, data, work, rounds - 1), work)
  }

  /** Counting from a fresh or initialized rule: `k` increments give a count of `k`. */
  function IncrementTimes(r: Rule, k: nat): Rule
  {
    if k == 0 then r else Increment(IncrementTimes(r, k - 1))
  }

  lemma {:induction false} CountAfterInitialize(r: Rule, k: nat)
    ensures IncrementTimes(Initialize(r), k).count == k
    ensures IncrementTimes(Initialize(r), k).enabled == r.enabled
  {
    if k > 0 {
      CountAfterInitialize(r, k - 1);
    }
  }
}

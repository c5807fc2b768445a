/** The hop the three forward walkers share: resolve the applicable rules, drop the
    ones already applied (and, under a budget, the ones that do not fit), select one
    by diversity and goal scores, execute it, and keep the result only if its type
    is the rule's output type or the rule is a search. A walk is a sequence of such
    hops from the seed; the lemmas here are what every walk satisfies. */
module Walk {
  import opened Strings
  import opened Types
  import opened BaseGenerator
  import opened ResolverLemmas
  import opened Rules
  import SelectorLemmas
  import opened Formatter

  /** Which walker is running: forward chaining, the constrained random walk with its
      complexity ceiling, or the goal-oriented walk with its target type. */
  datatype Policy = Unconstrained | Budgeted(maxComplexity: int) | GoalDirected(target: InfoType)

  /** A generated question with the rules applied and the states produced, seed first. */
  datatype Trajectory = Trajectory(question: string, applied: seq<Rule>, config: seq<State>)

  /** The summed complexities of the applied rules. */
  function SumComplexity(rules: seq<Rule>): int
  {
    if rules == [] then 0 else SumComplexity(rules[..|rules| - 1]) + rules[|rules| - 1].complexity
  }

  /** The options whose rule has not been applied yet, in their order. */
  function Unused(cands: seq<Candidate>, applied: seq<Rule>): (r: seq<Candidate>)
    ensures |r| <= |cands|
    ensures forall c :: c in r ==> c in cands && c.rule !in applied
    ensures forall c :: c in cands && c.rule !in applied ==> c in r
  {
    if cands == [] then []
    else
      var last := cands[|cands| - 1];
      var r := Unused(cands[..|cands| - 1], applied) + (if last.rule !in applied then [last] else []);
      assert cands == cands[..|cands| - 1] + [last];
      r
  }

  /** The options whose rule still fits in the budget, in their order. */
  function WithinBudget(cands: seq<Candidate>, spent: int, maxComplexity: int): (r: seq<Candidate>)
    ensures |r| <= |cands|
    ensures forall c :: c in r ==> c in cands && spent + c.rule.complexity <= maxComplexity
    ensures forall c :: c in cands && spent + c.rule.complexity <= maxComplexity ==> c in r
  {
    if cands == [] then []
    else
      var last := cands[|cands| - 1];
      var r := WithinBudget(cands[..|cands| - 1], spent, maxComplexity)
        + (if spent + last.rule.complexity <= maxComplexity then [last] else []);
      assert cands == cands[..|cands| - 1] + [last];
      r
  }

  /** The options a walker hands to the selector: applicable, not applied before and,
      under a budget, within what is left of it. */
  function WalkCandidates(policy: Policy, rules: seq<Rule>, config: seq<State>, applied: seq<Rule>)
    : (r: seq<Candidate>)
    ensures forall c :: c in r ==> c in Applicable(rules, config) && c.rule !in applied
    ensures forall c :: c in r && policy.Budgeted? ==>
      SumComplexity(applied) + c.rule.complexity <= policy.maxComplexity
    ensures forall c :: c in Applicable(rules, config) ==>
      (c.rule !in applied && (policy.Budgeted? ==> SumComplexity(applied) + c.rule.complexity <= policy.maxComplexity)
       ==> c in r)
  {
    var options := Applicable(rules, config);
    match policy
    case Budgeted(m) => Unused(WithinBudget(options, SumComplexity(applied), m), applied)
    case _ => Unused(options, applied)
  }

  // --------------------------------------------------------------- goal scores

  /** `_score_rule_for_goal`: how well a rule's output leads towards the target type. */
  function GoalScore(rule: Rule, target: InfoType): real
  {
    if rule.outputType == target then 1.0
    else if target == Duration && rule.outputType == Date then 0.7
    else if target == CityName && rule.outputType == LocationName then 0.6
    else if target == CountryName && (rule.outputType == CityName || rule.outputType == LocationName) then 0.6
    else if target == NumericalValue && rule.outputType == TableData then 0.5
    else if target == PersonName && rule.outputType == ArtworkName then 0.5
    else 0.1
  }

  /** The goal score is 1.0 exactly on an exact match, and otherwise one of the
      precursor scores or the 0.1 fallback; so it always lies in [0.1, 1.0]. */
  lemma GoalScoreRange(rule: Rule, target: InfoType)
    ensures 0.1 <= GoalScore(rule, target) <= 1.0
    ensures GoalScore(rule, target) == 1.0 <==> rule.outputType == target
    ensures GoalScore(rule, target) in {1.0, 0.7, 0.6, 0.5, 0.1}
  {
  }

  /** `current_goal_scores`: each option's rule mapped to its goal score. */
  function GoalScores(cands: seq<Candidate>, target: InfoType): map<Rule, real>
  {
    if cands == [] then map[]
    else GoalScores(cands[..|cands| - 1], target)[cands[|cands| - 1].rule := GoalScore(cands[|cands| - 1].rule, target)]
  }

  /** Every option's rule is scored, and only the options' rules are, each with its goal score. */
  lemma {:induction false} GoalScoresEntries(cands: seq<Candidate>, target: InfoType)
    ensures forall c :: c in cands ==> c.rule in GoalScores(cands, target)
    ensures forall r :: r in GoalScores(cands, target) ==>
      r in RulesOf(cands) && GoalScores(cands, target)[r] == GoalScore(r, target)
    decreases |cands|
  {
    if cands != [] {
      var p := cands[..|cands| - 1];
      var last := cands[|cands| - 1];
      GoalScoresEntries(p, target);
      assert cands == p + [last];
      RulesOfSnoc(p, last);
    }
  }

  lemma {:induction false} RulesOfSnoc(p: seq<Candidate>, last: Candidate)
    ensures RulesOf(p + [last]) == RulesOf(p) + [last.rule]
  {
    var a, b := RulesOf(p + [last]), RulesOf(p) + [last.rule];
    forall i | 0 <= i < |a| ensures a[i] == b[i] {
      if i < |p| {
        assert (p + [last])[i] == p[i];
      }
    }
  }

  /** `target_reached`, as the flag the goal-oriented loop keeps: set by the last
      appended state having the target type, or already set before it. */
  function Reached(config: seq<State>, target: InfoType): bool
  {
    if |config| <= 1 then false
    else config[|config| - 1].infoType == target || Reached(config[..|config| - 1], target)
  }

  /** The flag is set exactly when some state appended after the seed has the target type. */
  lemma {:induction false} ReachedIff(config: seq<State>, target: InfoType)
    ensures Reached(config, target) ==> exists i :: 1 <= i < |config| && config[i].infoType == target
    ensures (exists i :: 1 <= i < |config| && config[i].infoType == target) ==> Reached(config, target)
    decreases |config|
  {
    if |config| > 1 {
      var p := config[..|config| - 1];
      ReachedIff(p, target);
      assert forall i :: 1 <= i < |p| ==> p[i] == config[i];
    }
  }

  /** The goal scores the selector gets: only from the goal-oriented walk, and only
      while the target is unreached. */
  function WalkGoal(policy: Policy, cands: seq<Candidate>, config: seq<State>): Option<map<Rule, real>>
  {
    match policy
    case GoalDirected(t) => if Reached(config, t) then None else Some(GoalScores(cands, t))
    case _ => None
  }

  // ------------------------------------------------------------------ one hop

  /** What a hop does: stop, or extend the walk by a rule, its inputs and its output. */
  datatype Step = Stop | Extend(rule: Rule, inputs: seq<State>, out: Output)

  /** Executing a selected option: its output extends the walk if typed as the rule
      promises or produced by a search; a failure or another type stops it. */
  function Outcome(exec: Executor, call: nat, c: Candidate): Step
  {
    match exec(call, c.rule, Values(c.inputs))
    case None => Stop
    case Some(out) =>
      if out.infoType == c.rule.outputType || c.rule.operator == Search then Extend(c.rule, c.inputs, out)
      else Stop
  }

  /** `_execute_rule` followed by the walkers' type check: the new state when the
      outcome extends the walk, null when it stops it. */
  method Execute(exec: Executor, call: nat, c: Candidate) returns (s: State?)
    ensures s == null ==> Outcome(exec, call, c) == Stop
    ensures s != null ==>
      && fresh(s) && s.sourceRule == Some(c.rule)
      && Outcome(exec, call, c) == Extend(c.rule, s.sourceInputs, Output(s.value, s.infoType))
  {
    s := ExecuteRule(exec, call, c.rule, c.inputs);
    if s != null && !(s.infoType == c.rule.outputType || c.rule.operator == Search) {
      s := null;
    }
  }

  /** One hop, given the executor's call index and the uniform draw for this hop. */
  function NextStep(policy: Policy, rules: seq<Rule>, config: seq<State>, applied: seq<Rule>,
                    exec: Executor, call: nat, draw: real): Step
  {
    var cands := WalkCandidates(policy, rules, config, applied);
    if cands == [] then Stop
    else
      match Selection(cands, config, applied, WalkGoal(policy, cands, config), draw)
      case None => Stop
      case Some(c) => Outcome(exec, call, c)
  }

  /** The hop in terms of the candidates a walker computed and the selector's choice. */
  lemma NextStepFrom(policy: Policy, rules: seq<Rule>, config: seq<State>, applied: seq<Rule>,
                     exec: Executor, call: nat, draw: real, cands: seq<Candidate>, choice: Option<Candidate>)
    requires cands == WalkCandidates(policy, rules, config, applied)
    requires choice == Selection(cands, config, applied, WalkGoal(policy, cands, config), draw)
    ensures NextStep(policy, rules, config, applied, exec, call, draw)
      == if choice.None? then Stop else Outcome(exec, call, choice.value)
  {
  }

  /** Hop `h` of a walk: the hop's step extends by `applied[h]`, whose output is the
      state `config[h + 1]`, stamped with the rule and the bound inputs. */
  predicate HopTaken(policy: Policy, rules: seq<Rule>, exec: Executor, draw: nat -> real,
                     config: seq<State>, applied: seq<Rule>, h: nat)
    reads config
    requires h < |applied| && |config| == |applied| + 1
  {
    var step := NextStep(policy, rules, config[..h + 1], applied[..h], exec, h, draw(h));
    && step.Extend?
    && step.rule == applied[h]
    && step.out == Output(config[h + 1].value, config[h + 1].infoType)
    && config[h + 1].sourceRule == Some(applied[h])
    && config[h + 1].sourceInputs == step.inputs
  }

  /** A walk from `seed`: one more state than rules, the seed first, every rule and
      state produced by the hop at its position. */
  predicate IsWalk(policy: Policy, rules: seq<Rule>, exec: Executor, draw: nat -> real,
                   seed: State, config: seq<State>, applied: seq<Rule>)
    reads config
  {
    && |config| == |applied| + 1
    && config[0] == seed
    && forall h :: 0 <= h < |applied| ==> HopTaken(policy, rules, exec, draw, config, applied, h)
  }

  /** What a walker returns when it applied at least one rule: a walk of at most
      `maxHops` hops that either used them all or stopped at a hop that stops, with
      the formatted question. */
  predicate Completed(policy: Policy, rules: seq<Rule>, exec: Executor, draw: nat -> real, seed: State,
                      maxHops: int, render: Render, t: Trajectory)
    reads t.config
  {
    && IsWalk(policy, rules, exec, draw, seed, t.config, t.applied)
    && 1 <= |t.applied| <= maxHops
    && (|t.applied| < maxHops ==> NextStep(policy, rules, t.config, t.applied, exec, |t.applied|, draw(|t.applied|)) == Stop)
    && t.question == FormatSpec(seed, t.applied, t.config, render)
  }

  /** A walk with a rule applied took its first hop from the seed alone. */
  lemma WalkFirstHop(policy: Policy, rules: seq<Rule>, exec: Executor, draw: nat -> real,
                     seed: State, config: seq<State>, applied: seq<Rule>)
    requires IsWalk(policy, rules, exec, draw, seed, config, applied)
    requires applied != []
    ensures NextStep(policy, rules, [seed], [], exec, 0, draw(0)).Extend?
  {
    assert HopTaken(policy, rules, exec, draw, config, applied, 0);
    assert config[..1] == [seed] && applied[..0] == [];
    assert NextStep(policy, rules, config[..1], applied[..0], exec, 0, draw(0))
        == NextStep(policy, rules, [seed], [], exec, 0, draw(0));
  }

  /** A walk without rules is the seed alone. */
  lemma WalkEmpty(policy: Policy, rules: seq<Rule>, exec: Executor, draw: nat -> real,
                  seed: State, config: seq<State>)
    requires IsWalk(policy, rules, exec, draw, seed, config, [])
    ensures config == [seed]
  {
  }

  /** The seed alone is a walk. */
  lemma WalkStart(policy: Policy, rules: seq<Rule>, exec: Executor, draw: nat -> real, seed: State)
    ensures IsWalk(policy, rules, exec, draw, seed, [seed], [])
  {
  }

  /** A hop that extends a walk, stamped onto a new state, extends the walk. */
  lemma WalkExtend(policy: Policy, rules: seq<Rule>, exec: Executor, draw: nat -> real,
                   seed: State, config: seq<State>, applied: seq<Rule>, s: State)
    requires IsWalk(policy, rules, exec, draw, seed, config, applied)
    requires s.sourceRule.Some?
    requires NextStep(policy, rules, config, applied, exec, |applied|, draw(|applied|))
      == Extend(s.sourceRule.value, s.sourceInputs, Output(s.value, s.infoType))
    ensures IsWalk(policy, rules, exec, draw, seed, config + [s], applied + [s.sourceRule.value])
  {
    var r := s.sourceRule.value;
    forall h | 0 <= h < |applied| + 1 ensures HopTaken(policy, rules, exec, draw, config + [s], applied + [r], h) {
      if h < |applied| {
        HopKept(policy, rules, exec, draw, config, applied, s, r, h);
      } else {
        HopNew(policy, rules, exec, draw, config, applied, s);
      }
    }
  }

  lemma HopKept(policy: Policy, rules: seq<Rule>, exec: Executor, draw: nat -> real,
                config: seq<State>, applied: seq<Rule>, s: State, r: Rule, h: nat)
    requires |config| == |applied| + 1 && h < |applied|
    requires HopTaken(policy, rules, exec, draw, config, applied, h)
    ensures HopTaken(policy, rules, exec, draw, config + [s], applied + [r], h)
  {
    var c', a' := config + [s], applied + [r];
    assert c'[..h + 1] == config[..h + 1] && a'[..h] == applied[..h];
    assert c'[h + 1] == config[h + 1] && a'[h] == applied[h];
    assert NextStep(policy, rules, c'[..h + 1], a'[..h], exec, h, draw(h))
        == NextStep(policy, rules, config[..h + 1], applied[..h], exec, h, draw(h));
  }

  lemma HopNew(policy: Policy, rules: seq<Rule>, exec: Executor, draw: nat -> real,
               config: seq<State>, applied: seq<Rule>, s: State)
    requires |config| == |applied| + 1 && s.sourceRule.Some?
    requires NextStep(policy, rules, config, applied, exec, |applied|, draw(|applied|))
      == Extend(s.sourceRule.value, s.sourceInputs, Output(s.value, s.infoType))
    ensures HopTaken(policy, rules, exec, draw, config + [s], applied + [s.sourceRule.value], |applied|)
  {
    assert (config + [s])[..|applied| + 1] == config;
    assert (applied + [s.sourceRule.value])[..|applied|] == applied;
  }

  /** Every prefix of a walk is a walk. */
  lemma WalkPrefix(policy: Policy, rules: seq<Rule>, exec: Executor, draw: nat -> real,
                   seed: State, config: seq<State>, applied: seq<Rule>, k: nat)
    requires IsWalk(policy, rules, exec, draw, seed, config, applied)
    requires k <= |applied|
    ensures IsWalk(policy, rules, exec, draw, seed, config[..k + 1], applied[..k])
  {
    var c', a' := config[..k + 1], applied[..k];
    forall h | 0 <= h < k ensures HopTaken(policy, rules, exec, draw, c', a', h) {
      assert c'[..h + 1] == config[..h + 1] && a'[..h] == applied[..h];
      assert c'[h + 1] == config[h + 1] && a'[h] == applied[h];
      assert HopTaken(policy, rules, exec, draw, config, applied, h);
      assert NextStep(policy, rules, c'[..h + 1], a'[..h], exec, h, draw(h))
          == NextStep(policy, rules, config[..h + 1], applied[..h], exec, h, draw(h));
    }
  }

  // ---------------------------------------------------------- what a hop does

  /** A hop that extends took an option of the walk's candidates, bound by the
      resolver, and kept its output only if typed as promised or produced by a search. */
  lemma ExtendShape(policy: Policy, rules: seq<Rule>, config: seq<State>, applied: seq<Rule>,
                    exec: Executor, call: nat, draw: real)
    requires NextStep(policy, rules, config, applied, exec, call, draw).Extend?
    ensures var step := NextStep(policy, rules, config, applied, exec, call, draw);
      && Candidate(step.rule, step.inputs) in WalkCandidates(policy, rules, config, applied)
      && step.rule in rules && step.rule !in applied
      && Bind(config, step.rule.inputTypes) == Some(step.inputs)
      && exec(call, step.rule, Values(step.inputs)) == Some(step.out)
      && (step.out.infoType == step.rule.outputType || step.rule.operator == Search)
  {
  }

  /** A walk never applies a rule twice. */
  lemma WalkRulesDistinct(policy: Policy, rules: seq<Rule>, exec: Executor, draw: nat -> real,
                          seed: State, config: seq<State>, applied: seq<Rule>)
    requires IsWalk(policy, rules, exec, draw, seed, config, applied)
    ensures forall i, j :: 0 <= i < j < |applied| ==> applied[i] != applied[j]
  {
    forall i, j | 0 <= i < j < |applied| ensures applied[i] != applied[j] {
      assert HopTaken(policy, rules, exec, draw, config, applied, j);
      ExtendShape(policy, rules, config[..j + 1], applied[..j], exec, j, draw(j));
      assert applied[..j][i] == applied[i];
    }
  }

  /** Each state after the seed has its rule's output type unless the rule is a
      search, and carries as provenance its rule and that rule's bound inputs:
      one per slot, of the slot's type, distinct, from the states before it. */
  lemma WalkProvenance(policy: Policy, rules: seq<Rule>, exec: Executor, draw: nat -> real,
                       seed: State, config: seq<State>, applied: seq<Rule>, h: nat)
    requires IsWalk(policy, rules, exec, draw, seed, config, applied)
    requires h < |applied|
    ensures applied[h] in rules
    ensures config[h + 1].infoType == applied[h].outputType || applied[h].operator == Search
    ensures config[h + 1].sourceRule == Some(applied[h])
    ensures var ins := config[h + 1].sourceInputs;
      && |ins| == |applied[h].inputTypes|
      && (forall k :: 0 <= k < |ins| ==> ins[k].infoType == applied[h].inputTypes[k] && ins[k] in config[..h + 1])
      && (forall k, l :: 0 <= k < l < |ins| ==> ins[k] != ins[l])
  {
    assert HopTaken(policy, rules, exec, draw, config, applied, h);
    ExtendShape(policy, rules, config[..h + 1], applied[..h], exec, h, draw(h));
  }

  // ------------------------------------------------------------------- budget

  /** Under a budget every applied prefix stays within the ceiling. */
  lemma WalkWithinBudget(rules: seq<Rule>, exec: Executor, draw: nat -> real, maxComplexity: int,
                         seed: State, config: seq<State>, applied: seq<Rule>)
    requires IsWalk(Budgeted(maxComplexity), rules, exec, draw, seed, config, applied)
    ensures forall k :: 1 <= k <= |applied| ==> SumComplexity(applied[..k]) <= maxComplexity
    ensures applied != [] ==> SumComplexity(applied) <= maxComplexity
  {
    forall k | 1 <= k <= |applied| ensures SumComplexity(applied[..k]) <= maxComplexity {
      HopWithinBudget(rules, exec, draw, maxComplexity, seed, config, applied, k - 1);
    }
    assert applied[..|applied|] == applied;
  }

  lemma HopWithinBudget(rules: seq<Rule>, exec: Executor, draw: nat -> real, maxComplexity: int,
                        seed: State, config: seq<State>, applied: seq<Rule>, h: nat)
    requires IsWalk(Budgeted(maxComplexity), rules, exec, draw, seed, config, applied)
    requires h < |applied|
    ensures SumComplexity(applied[..h + 1]) <= maxComplexity
  {
    HopRule(Budgeted(maxComplexity), rules, exec, draw, seed, config, applied, h);
    ExtendWithinBudget(maxComplexity, rules, config[..h + 1], applied[..h], exec, h, draw(h));
    SumComplexityPrefix(applied, h);
  }

  /** Hop `h` of a walk applied `applied[h]`. */
  lemma HopRule(policy: Policy, rules: seq<Rule>, exec: Executor, draw: nat -> real,
                seed: State, config: seq<State>, applied: seq<Rule>, h: nat)
    requires IsWalk(policy, rules, exec, draw, seed, config, applied)
    requires h < |applied|
    ensures NextStep(policy, rules, config[..h + 1], applied[..h], exec, h, draw(h)).Extend?
    ensures NextStep(policy, rules, config[..h + 1], applied[..h], exec, h, draw(h)).rule == applied[h]
  {
    assert HopTaken(policy, rules, exec, draw, config, applied, h);
  }

  lemma SumComplexityPrefix(rules: seq<Rule>, h: nat)
    requires h < |rules|
    ensures SumComplexity(rules[..h + 1]) == SumComplexity(rules[..h]) + rules[h].complexity
  {
    assert rules[..h + 1][..h] == rules[..h];
  }

  /** A budgeted hop that extends spends no more than what is left. */
  lemma ExtendWithinBudget(maxComplexity: int, rules: seq<Rule>, config: seq<State>, applied: seq<Rule>,
                           exec: Executor, call: nat, draw: real)
    requires NextStep(Budgeted(maxComplexity), rules, config, applied, exec, call, draw).Extend?
    ensures SumComplexity(applied)
      + NextStep(Budgeted(maxComplexity), rules, config, applied, exec, call, draw).rule.complexity
      <= maxComplexity
  {
    ExtendShape(Budgeted(maxComplexity), rules, config, applied, exec, call, draw);
  }

  lemma SumComplexityAppend(rules: seq<Rule>, r: Rule)
    ensures SumComplexity(rules + [r]) == SumComplexity(rules) + r.complexity
  {
    assert (rules + [r])[..|rules|] == rules;
  }

  /** When no rule fits in what is left of the budget, the hop stops. */
  lemma BudgetExhausted(rules: seq<Rule>, maxComplexity: int, config: seq<State>, applied: seq<Rule>,
                        exec: Executor, call: nat, draw: real)
    requires forall i :: 0 <= i < |rules| ==> SumComplexity(applied) + rules[i].complexity > maxComplexity
    ensures NextStep(Budgeted(maxComplexity), rules, config, applied, exec, call, draw) == Stop
  {
    forall c | c in Applicable(rules, config) ensures SumComplexity(applied) + c.rule.complexity > maxComplexity {
      var i := IndexOf(rules, c.rule);
    }
  }

  /** With the catalog, a budget below 1 admits no rule, so the first hop stops. */
  lemma CatalogNeedsBudget(maxComplexity: int, seed: State, exec: Executor, draw: real)
    requires maxComplexity < 1
    ensures NextStep(Budgeted(maxComplexity), RULES_DB, [seed], [], exec, 0, draw) == Stop
  {
    CatalogShape();
    BudgetExhausted(RULES_DB, maxComplexity, [seed], [], exec, 0, draw);
  }

  // --------------------------------------------------------------------- goal

  /** With goal scores, every candidate's goal factor is at least 0.1, above the
      floor, so the goal-oriented selector never refuses a non-empty option list. */
  lemma GoalSelectionChooses(target: InfoType, rules: seq<Rule>, config: seq<State>, applied: seq<Rule>,
                             draw: real)
    requires WalkCandidates(GoalDirected(target), rules, config, applied) != []
    ensures var cands := WalkCandidates(GoalDirected(target), rules, config, applied);
      Selection(cands, config, applied, WalkGoal(GoalDirected(target), cands, config), draw).Some?
  {
    var cands := WalkCandidates(GoalDirected(target), rules, config, applied);
    var goal := WalkGoal(GoalDirected(target), cands, config);
    GoalScoreRange(cands[0].rule, target);
    GoalScoresEntries(cands, target);
    assert GoalFactor(goal, cands[0].rule) > Floor;
    SelectorLemmas.SelectionSucceeds(cands, config, applied, goal, draw, 0);
  }

  /** Once the target is reached the goal-oriented hop is a forward-chaining hop: the
      walk goes on, scored by diversity alone. */
  lemma GoalAfterReached(target: InfoType, rules: seq<Rule>, config: seq<State>, applied: seq<Rule>,
                         exec: Executor, call: nat, draw: real)
    requires Reached(config, target)
    ensures NextStep(GoalDirected(target), rules, config, applied, exec, call, draw)
         == NextStep(Unconstrained, rules, config, applied, exec, call, draw)
  {
  }

  /** Reaching the target is never undone: it holds of every longer walk. */
  lemma ReachedStays(config: seq<State>, target: InfoType, k: nat)
    requires k <= |config| && Reached(config[..k], target)
    ensures Reached(config, target)
  {
    ReachedIff(config[..k], target);
    ReachedIff(config, target);
    var i :| 1 <= i < k && config[..k][i].infoType == target;
    assert config[i] == config[..k][i];
  }

  // ----------------------------------------------------------- a person seed

  /** From a PERSON_NAME seed alone, the catalog offers only person rules (the first
      three, producing a DATE, a LOCATION_NAME and a CONCEPT), each bound to the seed. */
  lemma PersonSeedOnlyPersonRules(seed: State)
    requires seed.infoType == PersonName
    ensures forall c :: c in Applicable(RULES_DB, [seed]) ==> c.rule in RULES_DB[..3] && c.inputs == [seed]
  {
    forall c | c in Applicable(RULES_DB, [seed]) ensures c.rule in RULES_DB[..3] && c.inputs == [seed] {
      PersonSeedOption(seed, c);
    }
  }

  lemma PersonSeedOption(seed: State, c: Candidate)
    requires seed.infoType == PersonName && c in Applicable(RULES_DB, [seed])
    ensures c.rule in RULES_DB[..3] && c.inputs == [seed]
  {
    SeedAloneOption(RULES_DB, seed, c);
    var i := IndexOf(RULES_DB, c.rule);
    assert |c.rule.inputTypes| >= 1 by {
      CatalogShape();
      assert WellShaped(RULES_DB[i]);
    }
    assert i < 3 by {
      PersonRules();
    }
    assert RULES_DB[..3][i] == c.rule;
  }

  /** An option offered from the seed alone binds it to the rule's one slot, or has no slot. */
  lemma SeedAloneOption(rules: seq<Rule>, seed: State, c: Candidate)
    requires c in Applicable(rules, [seed])
    ensures c.rule in rules
    ensures c.rule.inputTypes == [] || (c.rule.inputTypes == [seed.infoType] && c.inputs == [seed])
  {
    SingleStateBinding(seed, c.rule.inputTypes);
  }

  /** ... and it offers each of the three, bound to the seed. */
  lemma PersonSeedAllPersonRules(seed: State)
    requires seed.infoType == PersonName
    ensures forall i :: 0 <= i < 3 ==> Candidate(RULES_DB[i], [seed]) in Applicable(RULES_DB, [seed])
  {
    forall i | 0 <= i < 3 ensures Candidate(RULES_DB[i], [seed]) in Applicable(RULES_DB, [seed]) {
      PersonSeedOffered(seed, i);
    }
  }

  lemma PersonSeedOffered(seed: State, i: nat)
    requires seed.infoType == PersonName && i < 3
    ensures Candidate(RULES_DB[i], [seed]) in Applicable(RULES_DB, [seed])
  {
    var config := [seed];
    var r := RULES_DB[i];
    PersonRules();
    CatalogShape();
    assert r.inputTypes == [PersonName];
    OneSlotBinding(seed);
    ApplicableMembership(RULES_DB, config);
    var opts := Applicable(RULES_DB, config);
    assert r in RulesOf(opts);
    var k :| 0 <= k < |opts| && RulesOf(opts)[k] == r;
    assert opts[k].rule == r && opts[k] in opts;
  }

  /** A single PERSON_NAME slot binds the seed. */
  lemma OneSlotBinding(seed: State)
    requires seed.infoType == PersonName
    ensures Bind([seed], [PersonName]) == Some([seed])
  {
    var config := [seed];
    assert NewestOfType(config, PersonName) == [seed] by {
      assert config[1..] == [];
    }
    assert [PersonName][..0] == [];
  }

  /** With one state, only a binding of one slot exists, and it is that state. */
  lemma SingleStateBinding(seed: State, types: seq<InfoType>)
    requires Bind([seed], types).Some?
    ensures |types| <= 1 && Bind([seed], types).value == (if types == [] then [] else [seed])
  {
    var b := Bind([seed], types).value;
    if |types| >= 2 {
      assert false;
    }
  }
}

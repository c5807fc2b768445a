/** `ConstrainedRandomWalkGenerator.generate`: forward chaining restricted to the
    rules that keep the summed complexity within a ceiling. */
module ConstrainedRandomWalk {
  import opened Strings
  import opened Types
  import opened BaseGenerator
  import opened Walk
  import opened Formatter

  /** Walks at most `maxHops` hops from the seed, spending at most `maxComplexity`;
      None when not even one rule fits. */
  method Generate(rules: seq<Rule>, seed: State, maxHops: int, maxComplexity: int, exec: Executor,
                  draw: nat -> real, render: Render)
    returns (result: Option<Trajectory>)
    ensures result.None? <==>
      maxHops <= 0 || NextStep(Budgeted(maxComplexity), rules, [seed], [], exec, 0, draw(0)) == Stop
    ensures result.Some? ==> Completed(Budgeted(maxComplexity), rules, exec, draw, seed, maxHops, render, result.value)
    ensures result.Some? ==> SumComplexity(result.value.applied) <= maxComplexity
  {
    var config, applied := HopLoop(rules, seed, maxHops, maxComplexity, exec, draw);
    if applied == [] {
      WalkEmpty(Budgeted(maxComplexity), rules, exec, draw, seed, config);
      return None;
    }
    WalkFirstHop(Budgeted(maxComplexity), rules, exec, draw, seed, config, applied);
    WalkWithinBudget(rules, exec, draw, maxComplexity, seed, config, applied);
    var question := FormatQuestion(seed, applied, config, render);
    result := Some(Trajectory(question, applied, config));
  }

  /** The hop loop with its running `current_complexity`. */
  method HopLoop(rules: seq<Rule>, seed: State, maxHops: int, maxComplexity: int, exec: Executor, draw: nat -> real)
    returns (config: seq<State>, applied: seq<Rule>)
    ensures IsWalk(Budgeted(maxComplexity), rules, exec, draw, seed, config, applied)
    ensures |applied| <= maxHops || applied == []
    ensures |applied| < maxHops ==>
      NextStep(Budgeted(maxComplexity), rules, config, applied, exec, |applied|, draw(|applied|)) == Stop
  {
    config, applied := [seed], [];
    var currentComplexity := 0;
    WalkStart(Budgeted(maxComplexity), rules, exec, draw, seed);
    var hop := 0;
    while hop < maxHops
      invariant hop == |applied| && (hop <= maxHops || hop == 0)
      invariant currentComplexity == SumComplexity(applied)
      invariant IsWalk(Budgeted(maxComplexity), rules, exec, draw, seed, config, applied)
    {
      var s := Advance(rules, seed, maxComplexity, exec, draw, config, applied, currentComplexity);
      if s == null {
        break;
      }
      var rule := s.sourceRule.value;
      SumComplexityAppend(applied, rule);
      config := config + [s];
      applied := applied + [rule];
      currentComplexity := currentComplexity + rule.complexity;
      hop := hop + 1;
    }
  }

  /** One hop, and the walk it extends; null where the loop breaks. */
  method Advance(rules: seq<Rule>, seed: State, maxComplexity: int, exec: Executor, draw: nat -> real,
                 config: seq<State>, applied: seq<Rule>, currentComplexity: int)
    returns (s: State?)
    requires IsWalk(Budgeted(maxComplexity), rules, exec, draw, seed, config, applied)
    requires currentComplexity == SumComplexity(applied)
    ensures s == null ==> NextStep(Budgeted(maxComplexity), rules, config, applied, exec, |applied|, draw(|applied|)) == Stop
    ensures s != null ==>
      && s.sourceRule.Some?
      && IsWalk(Budgeted(maxComplexity), rules, exec, draw, seed, config + [s], applied + [s.sourceRule.value])
  {
    s := Hop(rules, config, applied, currentComplexity, maxComplexity, exec, |applied|, draw(|applied|));
    if s != null {
      WalkExtend(Budgeted(maxComplexity), rules, exec, draw, seed, config, applied, s);
    }
  }

  /** One iteration: resolve, keep the options within budget, drop the rules already
      applied, select, execute and check the type; null where the loop breaks. */
  method Hop(rules: seq<Rule>, config: seq<State>, applied: seq<Rule>, currentComplexity: int, maxComplexity: int,
             exec: Executor, hop: nat, draw: real)
    returns (s: State?)
    requires currentComplexity == SumComplexity(applied)
    ensures s == null ==> NextStep(Budgeted(maxComplexity), rules, config, applied, exec, hop, draw) == Stop
    ensures s != null ==>
      && fresh(s) && s.sourceRule.Some?
      && NextStep(Budgeted(maxComplexity), rules, config, applied, exec, hop, draw)
         == Extend(s.sourceRule.value, s.sourceInputs, Output(s.value, s.infoType))
  {
    var allOptions := FindApplicableRules(rules, config);
    var constrained := ConstrainOptions(allOptions, currentComplexity, maxComplexity);
    var unique := Unused(constrained, applied);
    if unique == [] {
      return null;
    }
    var selection := SelectRuleWithDiversity(unique, config, applied, None, draw);
    NextStepFrom(Budgeted(maxComplexity), rules, config, applied, exec, hop, draw, unique, selection);
    if selection.None? {
      return null;
    }
    s := Execute(exec, hop, selection.value);
  }

  /** The options whose rule still fits: `current_complexity + rule.complexity <= max_complexity`. */
  method ConstrainOptions(options: seq<Candidate>, currentComplexity: int, maxComplexity: int)
    returns (constrained: seq<Candidate>)
    ensures constrained == WithinBudget(options, currentComplexity, maxComplexity)
  {
    constrained := [];
    for i := 0 to |options|
      invariant constrained == WithinBudget(options[..i], currentComplexity, maxComplexity)
    {
      assert options[..i + 1][..i] == options[..i];
      if currentComplexity + options[i].rule.complexity <= maxComplexity {
        constrained := constrained + [options[i]];
      }
    }
    assert options[..|options|] == options;
  }
}

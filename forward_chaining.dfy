/** `ForwardChainingGenerator.generate`: forward chaining with diversity-weighted
    selection among the applicable rules not applied yet. */
module ForwardChaining {
  import opened Strings
  import opened Types
  import opened BaseGenerator
  import opened Walk
  import opened Formatter

  /** Walks at most `maxHops` hops from the seed; None when not even one rule applies.
      `draw(h)` is the uniform draw of hop `h`'s weighted choice. */
  method Generate(rules: seq<Rule>, seed: State, maxHops: int, exec: Executor, draw: nat -> real, render: Render)
    returns (result: Option<Trajectory>)
    ensures result.None? <==> maxHops <= 0 || NextStep(Unconstrained, rules, [seed], [], exec, 0, draw(0)) == Stop
    ensures result.Some? ==> Completed(Unconstrained, rules, exec, draw, seed, maxHops, render, result.value)
  {
    var config, applied := HopLoop(rules, seed, maxHops, exec, draw);
    if applied == [] {
      WalkEmpty(Unconstrained, rules, exec, draw, seed, config);
      return None;
    }
    WalkFirstHop(Unconstrained, rules, exec, draw, seed, config, applied);
    var question := FormatQuestion(seed, applied, config, render);
    result := Some(Trajectory(question, applied, config));
  }

  /** The `for hop in range(max_hops)` loop: one hop per iteration until a hop stops. */
  method HopLoop(rules: seq<Rule>, seed: State, maxHops: int, exec: Executor, draw: nat -> real)
    returns (config: seq<State>, applied: seq<Rule>)
    ensures IsWalk(Unconstrained, rules, exec, draw, seed, config, applied)
    ensures |applied| <= maxHops || applied == []
    ensures |applied| < maxHops ==> NextStep(Unconstrained, rules, config, applied, exec, |applied|, draw(|applied|)) == Stop
  {
    config, applied := [seed], [];
    WalkStart(Unconstrained, rules, exec, draw, seed);
    var hop := 0;
    while hop < maxHops
      invariant hop == |applied| && (hop <= maxHops || hop == 0)
      invariant IsWalk(Unconstrained, rules, exec, draw, seed, config, applied)
    {
      var s := Advance(rules, seed, exec, draw, config, applied);
      if s == null {
        break;
      }
      config := config + [s];
      applied := applied + [s.sourceRule.value];
      hop := hop + 1;
    }
  }

  /** One hop, and the walk it extends; null where the loop breaks. */
  method Advance(rules: seq<Rule>, seed: State, exec: Executor, draw: nat -> real, config: seq<State>, applied: seq<Rule>)
    returns (s: State?)
    requires IsWalk(Unconstrained, rules, exec, draw, seed, config, applied)
    ensures s == null ==> NextStep(Unconstrained, rules, config, applied, exec, |applied|, draw(|applied|)) == Stop
    ensures s != null ==>
      && s.sourceRule.Some?
      && IsWalk(Unconstrained, rules, exec, draw, seed, config + [s], applied + [s.sourceRule.value])
  {
    s := Hop(rules, config, applied, exec, |applied|, draw(|applied|));
    if s != null {
      WalkExtend(Unconstrained, rules, exec, draw, seed, config, applied, s);
    }
  }

  /** One iteration of the loop: resolve, drop the rules already applied, select,
      execute and check the type; null where the loop breaks, else the new state,
      stamped with the chosen rule. */
  method Hop(rules: seq<Rule>, config: seq<State>, applied: seq<Rule>, exec: Executor, hop: nat, draw: real)
    returns (s: State?)
    ensures s == null ==> NextStep(Unconstrained, rules, config, applied, exec, hop, draw) == Stop
    ensures s != null ==>
      && fresh(s) && s.sourceRule.Some?
      && NextStep(Unconstrained, rules, config, applied, exec, hop, draw)
         == Extend(s.sourceRule.value, s.sourceInputs, Output(s.value, s.infoType))
  {
    var options := FindApplicableRules(rules, config);
    var unique := Unused(options, applied);
    if unique == [] {
      return null;
    }
    var selection := SelectRuleWithDiversity(unique, config, applied, None, draw);
    NextStepFrom(Unconstrained, rules, config, applied, exec, hop, draw, unique, selection);
    if selection.None? {
      return null;
    }
    s := Execute(exec, hop, selection.value);
  }
}

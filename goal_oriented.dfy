/** `GoalOrientedGenerator.generate`: forward chaining whose selection is weighted by
    how well each rule's output leads to a target type, until a state of that type
    has been produced; the walk then goes on scored by diversity alone. */
module GoalOriented {
  import opened Strings
  import opened Types
  import opened BaseGenerator
  import opened Walk
  import opened Formatter

  /** Walks at most `maxHops` hops from the seed towards `target`; None when not even
      one rule applies. Reaching the target does not end the walk. */
  method Generate(rules: seq<Rule>, seed: State, target: InfoType, maxHops: int, exec: Executor,
                  draw: nat -> real, render: Render)
    returns (result: Option<Trajectory>)
    ensures result.None? <==>
      maxHops <= 0 || NextStep(GoalDirected(target), rules, [seed], [], exec, 0, draw(0)) == Stop
    ensures result.Some? ==> Completed(GoalDirected(target), rules, exec, draw, seed, maxHops, render, result.value)
  {
    var config, applied := HopLoop(rules, seed, target, maxHops, exec, draw);
    if applied == [] {
      WalkEmpty(GoalDirected(target), rules, exec, draw, seed, config);
      return None;
    }
    WalkFirstHop(GoalDirected(target), rules, exec, draw, seed, config, applied);
    var question := FormatQuestion(seed, applied, config, render);
    result := Some(Trajectory(question, applied, config));
  }

  /** The hop loop with its `target_reached` flag, which turns true exactly when a
      state of the target type is appended and then stays true. */
  method HopLoop(rules: seq<Rule>, seed: State, target: InfoType, maxHops: int, exec: Executor, draw: nat -> real)
    returns (config: seq<State>, applied: seq<Rule>)
    ensures IsWalk(GoalDirected(target), rules, exec, draw, seed, config, applied)
    ensures |applied| <= maxHops || applied == []
    ensures |applied| < maxHops ==>
      NextStep(GoalDirected(target), rules, config, applied, exec, |applied|, draw(|applied|)) == Stop
  {
    config, applied := [seed], [];
    var targetReached := false;
    WalkStart(GoalDirected(target), rules, exec, draw, seed);
    var hop := 0;
    while hop < maxHops
      invariant hop == |applied| && (hop <= maxHops || hop == 0)
      invariant targetReached == Reached(config, target)
      invariant IsWalk(GoalDirected(target), rules, exec, draw, seed, config, applied)
    {
      var s := Advance(rules, seed, target, exec, draw, config, applied, targetReached);
      if s == null {
        break;
      }
      ReachedAppend(config, s, target);
      targetReached := targetReached || s.infoType == target;
      config, applied := config + [s], applied + [s.sourceRule.value];
      hop := hop + 1;
    }
  }

  /** One hop, and the walk it extends; null where the loop breaks. */
  method Advance(rules: seq<Rule>, seed: State, target: InfoType, exec: Executor, draw: nat -> real,
                 config: seq<State>, applied: seq<Rule>, targetReached: bool)
    returns (s: State?)
    requires IsWalk(GoalDirected(target), rules, exec, draw, seed, config, applied)
    requires targetReached == Reached(config, target)
    ensures s == null ==> NextStep(GoalDirected(target), rules, config, applied, exec, |applied|, draw(|applied|)) == Stop
    ensures s != null ==>
      && s.sourceRule.Some?
      && IsWalk(GoalDirected(target), rules, exec, draw, seed, config + [s], applied + [s.sourceRule.value])
  {
    s := Hop(rules, config, applied, target, targetReached, exec, |applied|, draw(|applied|));
    if s != null {
      WalkExtend(GoalDirected(target), rules, exec, draw, seed, config, applied, s);
    }
  }

  /** Appending a state sets the flag iff it was set or the state has the target type. */
  lemma ReachedAppend(config: seq<State>, s: State, target: InfoType)
    requires |config| >= 1
    ensures Reached(config + [s], target) == (Reached(config, target) || s.infoType == target)
  {
    assert (config + [s])[..|config|] == config;
  }

  /** One iteration: resolve, drop the rules already applied, score them for the goal
      while it is unreached, select, execute and check the type. */
  method Hop(rules: seq<Rule>, config: seq<State>, applied: seq<Rule>, target: InfoType, targetReached: bool,
             exec: Executor, hop: nat, draw: real)
    returns (s: State?)
    requires targetReached == Reached(config, target)
    ensures s == null ==> NextStep(GoalDirected(target), rules, config, applied, exec, hop, draw) == Stop
    ensures s != null ==>
      && fresh(s) && s.sourceRule.Some?
      && NextStep(GoalDirected(target), rules, config, applied, exec, hop, draw)
         == Extend(s.sourceRule.value, s.sourceInputs, Output(s.value, s.infoType))
  {
    var options := FindApplicableRules(rules, config);
    if options == [] {
      return null;
    }
    var unique := Unused(options, applied);
    if unique == [] {
      return null;
    }
    var goalScores: Option<map<Rule, real>> := None;
    if !targetReached {
      var scores := ScoreOptions(unique, target);
      goalScores := Some(scores);
    }
    var selection := SelectRuleWithDiversity(unique, config, applied, goalScores, draw);
    NextStepFrom(GoalDirected(target), rules, config, applied, exec, hop, draw, unique, selection);
    if selection.None? {
      return null;
    }
    s := Execute(exec, hop, selection.value);
  }

  /** `current_goal_scores`, filled option by option. */
  method ScoreOptions(options: seq<Candidate>, target: InfoType) returns (scores: map<Rule, real>)
    ensures scores == GoalScores(options, target)
  {
    scores := map[];
    for i := 0 to |options|
      invariant scores == GoalScores(options[..i], target)
    {
      assert options[..i + 1][..i] == options[..i];
      scores := scores[options[i].rule := GoalScore(options[i].rule, target)];
    }
    assert options[..|options|] == options;
  }
}

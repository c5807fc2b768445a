/** `TemplateBasedGenerator.generate`: a walk that follows a list of step texts,
    each step taking the first rule of the catalog whose template mentions the
    text (ignoring case) and that the resolver can bind. */
module TemplateBased {
  import opened Strings
  import opened Types
  import opened BaseGenerator
  import opened ResolverLemmas
  import opened Walk
  import opened Formatter

  // ------------------------------------------------------------------ one step

  /** `matching_rules`: the rules, in catalog order, whose lowercased template
      contains the lowercased step text. */
  function Matching(rules: seq<Rule>, step: string): (r: seq<Rule>)
  {
    if rules == [] then []
    else
      var n := |rules| - 1;
      Matching(rules[..n], step) + (if Contains(Lower(rules[n].template), Lower(step)) then [rules[n]] else [])
  }

  /** `rule_to_inputs_map`: each offered rule with its bound inputs, a later option
      for the same rule overwriting an earlier one. */
  function InputsByRule(options: seq<Candidate>): (m: map<Rule, seq<State>>)
    ensures forall i :: 0 <= i < |options| ==> options[i].rule in m
  {
    if options == [] then map[]
    else
      var n := |options| - 1;
      var prev := InputsByRule(options[..n]);
      assert forall i :: 0 <= i < n ==> options[i] == options[..n][i];
      prev[options[n].rule := options[n].inputs]
  }

  /** Options whose inputs are the resolver's binding leave a map of bindings. */
  lemma {:induction false} InputsByRuleBound(options: seq<Candidate>, config: seq<State>)
    requires forall i :: 0 <= i < |options| ==> Bind(config, options[i].rule.inputTypes) == Some(options[i].inputs)
    ensures forall r :: r in InputsByRule(options) ==> Bind(config, r.inputTypes) == Some(InputsByRule(options)[r])
  {
    if options != [] {
      var n := |options| - 1;
      InputsByRuleBound(options[..n], config);
    }
  }

  /** `applicable_options_for_step`: the matching rules, in order, that have an
      entry in the map, each with its inputs. */
  function Options(matching: seq<Rule>, byRule: map<Rule, seq<State>>): (r: seq<Candidate>)
    ensures |r| <= |matching|
    ensures forall i :: 0 <= i < |r| ==> r[i].rule in matching && r[i].rule in byRule && r[i].inputs == byRule[r[i].rule]
  {
    if matching == [] then []
    else
      var n := |matching| - 1;
      var x := matching[n];
      Options(matching[..n], byRule) + (if x in byRule then [Candidate(x, byRule[x])] else [])
  }

  /** The option a step takes on `config`: the first applicable matching rule. */
  function StepChoice(rules: seq<Rule>, config: seq<State>, step: string): Option<Candidate>
  {
    var matching := Matching(rules, step);
    if matching == [] then None
    else
      var options := Options(matching, InputsByRule(Applicable(rules, config)));
      if options == [] then None else Some(options[0])
  }

  /** The lowercased template of `rule` contains the lowercased step text. */
  predicate Mentions(rule: Rule, step: string)
  {
    Contains(Lower(rule.template), Lower(step))
  }

  /** A rule a step can take: its template mentions the step and its slots bind. */
  predicate Eligible(rule: Rule, step: string, config: seq<State>)
  {
    Mentions(rule, step) && Bind(config, rule.inputTypes).Some?
  }

  /** A step takes the first eligible rule of the catalog, with the resolver's
      binding, and fails exactly when no rule is eligible; which rules were applied
      before plays no part. */
  lemma StepChoiceFirst(rules: seq<Rule>, config: seq<State>, step: string) returns (k: nat)
    ensures StepChoice(rules, config, step).None? <==> forall j :: 0 <= j < |rules| ==> !Eligible(rules[j], step, config)
    ensures StepChoice(rules, config, step).Some? ==>
      && k < |rules| && Eligible(rules[k], step, config)
      && (forall j :: 0 <= j < k ==> !Eligible(rules[j], step, config))
      && StepChoice(rules, config, step).value == Candidate(rules[k], Bind(config, rules[k].inputTypes).value)
  {
    var options := Applicable(rules, config);
    var byRule := InputsByRule(options);
    ApplicableMembership(rules, config);
    InputsByRuleBound(options, config);
    forall r | r in rules && Bind(config, r.inputTypes).Some? ensures r in byRule {
      var i :| 0 <= i < |options| && RulesOf(options)[i] == r;
    }
    k := OptionsFirst(rules, step, byRule);
    assert forall j :: 0 <= j < |rules| ==> (Eligible(rules[j], step, config) <==> Mentions(rules[j], step) && rules[j] in byRule);
  }

  /** The first option of the matching rules is the first rule of the list that
      mentions the step and has an entry, with that entry. */
  lemma {:induction false} OptionsFirst(rules: seq<Rule>, step: string, byRule: map<Rule, seq<State>>)
    returns (k: nat)
    ensures var options := Options(Matching(rules, step), byRule);
      && (options == [] <==> forall j :: 0 <= j < |rules| ==> !(Mentions(rules[j], step) && rules[j] in byRule))
      && (options != [] ==>
           && k < |rules| && Mentions(rules[k], step) && rules[k] in byRule
           && (forall j :: 0 <= j < k ==> !(Mentions(rules[j], step) && rules[j] in byRule))
           && options[0] == Candidate(rules[k], byRule[rules[k]]))
    decreases |rules|
  {
    if rules == [] {
      return 0;
    }
    var n := |rules| - 1;
    var prefix, last := rules[..n], rules[n];
    assert rules == prefix + [last];
    k := OptionsFirst(prefix, step, byRule);
    var early := Options(Matching(prefix, step), byRule);
    var tail := if Mentions(last, step) && last in byRule then [Candidate(last, byRule[last])] else [];
    OptionsSnocMatch(prefix, last, step, byRule);
    var options := early + tail;
    if early != [] {
      assert options[0] == early[0] && rules[k] == prefix[k];
      forall j | 0 <= j < k ensures !(Mentions(rules[j], step) && rules[j] in byRule) {
        assert rules[j] == prefix[j];
      }
    } else {
      forall j | 0 <= j < n ensures !(Mentions(rules[j], step) && rules[j] in byRule) {
        assert rules[j] == prefix[j];
      }
      k := n;
      if tail != [] {
        assert options[0] == tail[0];
      }
    }
  }

  /** One more rule adds its option exactly when it mentions the step and has an entry. */
  lemma OptionsSnocMatch(prefix: seq<Rule>, last: Rule, step: string, byRule: map<Rule, seq<State>>)
    ensures Options(Matching(prefix + [last], step), byRule)
      == Options(Matching(prefix, step), byRule)
         + (if Mentions(last, step) && last in byRule then [Candidate(last, byRule[last])] else [])
  {
    var rules := prefix + [last];
    assert rules[..|prefix|] == prefix && rules[|prefix|] == last;
    var before := Matching(prefix, step);
    if Mentions(last, step) {
      assert Matching(rules, step) == before + [last];
      assert (before + [last])[..|before|] == before;
    } else {
      assert Matching(rules, step) == before;
    }
  }

  /** What a step on `config` does: the option it takes, or a failure when there is
      none or the execution stops (no output, or a non-search rule's output of
      another type than promised). */
  function StepOutcome(rules: seq<Rule>, exec: Executor, call: nat, config: seq<State>, step: string): Step
  {
    match StepChoice(rules, config, step)
    case None => Stop
    case Some(c) => Outcome(exec, call, c)
  }

  // ------------------------------------------------------------------ the walk

  /** Step `h` of a template walk: its outcome extends by `applied[h]`, whose output
      is `config[h + 1]`, stamped with the rule and the bound inputs. */
  predicate StepTaken(rules: seq<Rule>, exec: Executor, template: seq<string>,
                      config: seq<State>, applied: seq<Rule>, h: nat)
    reads config
    requires h < |applied| <= |template| && |config| == |applied| + 1
  {
    var step := StepOutcome(rules, exec, h, config[..h + 1], template[h]);
    && step.Extend?
    && step.rule == applied[h]
    && step.out == Output(config[h + 1].value, config[h + 1].infoType)
    && config[h + 1].sourceRule == Some(applied[h])
    && config[h + 1].sourceInputs == step.inputs
  }

  /** The first `|applied|` steps of `template` followed from `seed`. */
  predicate Follows(rules: seq<Rule>, exec: Executor, template: seq<string>, seed: State,
                    config: seq<State>, applied: seq<Rule>)
    reads config
  {
    && |applied| <= |template|
    && |config| == |applied| + 1
    && config[0] == seed
    && forall h :: 0 <= h < |applied| ==> StepTaken(rules, exec, template, config, applied, h)
  }

  /** A question for `template`: every step followed, and the formatter's text. */
  predicate Fulfilled(rules: seq<Rule>, exec: Executor, template: seq<string>, seed: State, render: Render,
                      t: Trajectory)
    reads t.config
  {
    && |t.applied| == |template| && |t.config| == |template| + 1
    && Follows(rules, exec, template, seed, t.config, t.applied)
    && t.question == FormatSpec(seed, t.applied, t.config, render)
  }

  /** A step that extends the walk, stamped onto a new state, extends it. */
  lemma FollowsExtend(rules: seq<Rule>, exec: Executor, template: seq<string>, seed: State,
                      config: seq<State>, applied: seq<Rule>, s: State)
    requires Follows(rules, exec, template, seed, config, applied) && |applied| < |template|
    requires s.sourceRule.Some?
    requires StepOutcome(rules, exec, |applied|, config, template[|applied|])
      == Extend(s.sourceRule.value, s.sourceInputs, Output(s.value, s.infoType))
    ensures Follows(rules, exec, template, seed, config + [s], applied + [s.sourceRule.value])
  {
    var c', a' := config + [s], applied + [s.sourceRule.value];
    forall h | 0 <= h < |a'| ensures StepTaken(rules, exec, template, c', a', h) {
      if h < |applied| {
        StepKept(rules, exec, template, config, applied, s, s.sourceRule.value, h);
      } else {
        StepNew(rules, exec, template, config, applied, s);
      }
    }
  }

  /** Appending a state and a rule keeps every step already taken. */
  lemma StepKept(rules: seq<Rule>, exec: Executor, template: seq<string>,
                 config: seq<State>, applied: seq<Rule>, s: State, r: Rule, h: nat)
    requires h < |applied| < |template| && |config| == |applied| + 1
    requires StepTaken(rules, exec, template, config, applied, h)
    ensures StepTaken(rules, exec, template, config + [s], applied + [r], h)
  {
    var c', a' := config + [s], applied + [r];
    assert c'[..h + 1] == config[..h + 1] && c'[h + 1] == config[h + 1] && a'[h] == applied[h];
  }

  /** The appended state and rule are the next step taken. */
  lemma StepNew(rules: seq<Rule>, exec: Executor, template: seq<string>,
                config: seq<State>, applied: seq<Rule>, s: State)
    requires |applied| < |template| && |config| == |applied| + 1 && s.sourceRule.Some?
    requires StepOutcome(rules, exec, |applied|, config, template[|applied|])
      == Extend(s.sourceRule.value, s.sourceInputs, Output(s.value, s.infoType))
    ensures StepTaken(rules, exec, template, config + [s], applied + [s.sourceRule.value], |applied|)
  {
    assert (config + [s])[..|applied| + 1] == config;
  }

  // ------------------------------------------------------------------ generate

  /** The option loop over the matching rules. */
  method CollectOptions(matching: seq<Rule>, byRule: map<Rule, seq<State>>) returns (options: seq<Candidate>)
    ensures options == Options(matching, byRule)
  {
    options := [];
    for k := 0 to |matching|
      invariant options == Options(matching[..k], byRule)
    {
      assert matching[..k + 1][..k] == matching[..k];
      var rule := matching[k];
      if rule in byRule {
        options := options + [Candidate(rule, byRule[rule])];
      }
    }
    assert matching[..|matching|] == matching;
  }

  /** One iteration of the step loop: match, resolve, collect the applicable
      matches, execute the first and check its type; null where the loop returns
      None, else the new state. */
  method TakeStep(rules: seq<Rule>, config: seq<State>, step: string, exec: Executor, call: nat)
    returns (s: State?)
    ensures s == null ==> StepOutcome(rules, exec, call, config, step) == Stop
    ensures s != null ==>
      && fresh(s) && s.sourceRule.Some?
      && StepOutcome(rules, exec, call, config, step) == Extend(s.sourceRule.value, s.sourceInputs, Output(s.value, s.infoType))
  {
    var matching := Matching(rules, step);
    if matching == [] {
      return null;
    }
    var current := FindApplicableRules(rules, config);
    var byRule := InputsByRule(current);
    var options := CollectOptions(matching, byRule);
    if options == [] {
      return null;
    }
    s := Execute(exec, call, options[0]);
  }

  /** The `for i, step_pattern in enumerate(template)` loop; it stops at the first
      step that fails. */
  method FollowTemplate(rules: seq<Rule>, seed: State, template: seq<string>, exec: Executor)
    returns (config: seq<State>, applied: seq<Rule>)
    ensures Follows(rules, exec, template, seed, config, applied)
    ensures |applied| < |template| ==> StepOutcome(rules, exec, |applied|, config, template[|applied|]) == Stop
  {
    config, applied := [seed], [];
    while |applied| < |template|
      invariant Follows(rules, exec, template, seed, config, applied)
      decreases |template| - |applied|
    {
      var s := TakeStep(rules, config, template[|applied|], exec, |applied|);
      if s == null {
        return;
      }
      FollowsExtend(rules, exec, template, seed, config, applied, s);
      config := config + [s];
      applied := applied + [s.sourceRule.value];
    }
  }

  /** `TemplateBasedGenerator.generate`: the question when every step of the
      template was followed, None as soon as one fails. */
  method Generate(rules: seq<Rule>, seed: State, template: seq<string>, exec: Executor, render: Render)
    returns (result: Option<Trajectory>)
    ensures result.Some? ==> Fulfilled(rules, exec, template, seed, render, result.value)
    ensures result.None? ==> exists config, applied ::
      && Follows(rules, exec, template, seed, config, applied) && |applied| < |template|
      && StepOutcome(rules, exec, |applied|, config, template[|applied|]) == Stop
    ensures template == [] ==> result == Some(Trajectory(ZeroHopText(seed, render), [], [seed]))
    ensures template != [] && StepOutcome(rules, exec, 0, [seed], template[0]) == Stop ==> result.None?
  {
    var config, applied := FollowTemplate(rules, seed, template, exec);
    if applied == [] {
      assert config == [seed];
    }
    if |applied| < |template| {
      assert Follows(rules, exec, template, seed, config, applied)
        && StepOutcome(rules, exec, |applied|, config, template[|applied|]) == Stop;
      return None;
    }
    if applied != [] {
      FirstStepTaken(rules, exec, template, seed, config, applied);
    }
    var question := FormatQuestion(seed, applied, config, render);
    result := Some(Trajectory(question, applied, config));
  }

  /** A template walk with a step taken took its first step from the seed alone. */
  lemma FirstStepTaken(rules: seq<Rule>, exec: Executor, template: seq<string>, seed: State,
                       config: seq<State>, applied: seq<Rule>)
    requires Follows(rules, exec, template, seed, config, applied) && applied != []
    ensures StepOutcome(rules, exec, 0, [seed], template[0]).Extend?
  {
    assert StepTaken(rules, exec, template, config, applied, 0);
    assert config[..1] == [seed];
  }
}

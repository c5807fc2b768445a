/** The machinery every generator shares: the applicability resolver, the
    diversity-weighted selector and the rule executor with its provenance stamp. */
module BaseGenerator {
  import opened Strings
  import opened Types

  /** A rule together with the states bound to its input slots. */
  datatype Candidate = Candidate(rule: Rule, inputs: seq<State>)

  /** A rule's operator, abstracted: given the call's position in the run (standing
      for the randomness and the clock the simulated tools consult), the rule and the
      input values, it yields a typed value, or None when the tool fails or raises. */
  type Executor = (nat, Rule, seq<Value>) -> Option<Output>

  // ------------------------------------------------------------------ resolver

  /** The states of type `t` in `config`, most recently appended first. */
  function NewestOfType(config: seq<State>, t: InfoType): (r: seq<State>)
    ensures |r| <= |config|
    ensures forall s :: s in r ==> s in config && s.infoType == t
    ensures forall s :: s in config && s.infoType == t ==> s in r
  {
    if config == [] then []
    else NewestOfType(config[1..], t) + (if config[0].infoType == t then [config[0]] else [])
  }

  /** The first of `cands` not among `used`. */
  function FirstUnused(cands: seq<State>, used: seq<State>): (r: Option<State>)
    ensures r.Some? ==> r.value in cands && r.value !in used
    ensures r.None? <==> forall s :: s in cands ==> s in used
  {
    if cands == [] then None
    else if cands[0] !in used then Some(cands[0])
    else FirstUnused(cands[1..], used)
  }

  /** Slot by slot, each input slot takes the newest state of its type that no
      earlier slot of the same rule has taken; None as soon as a slot finds none. */
  function Bind(config: seq<State>, types: seq<InfoType>): (r: Option<seq<State>>)
    ensures r.Some? ==> |r.value| == |types|
    ensures r.Some? ==> forall i :: 0 <= i < |types| ==> r.value[i].infoType == types[i] && r.value[i] in config
    ensures r.Some? ==> forall i, j :: 0 <= i < j < |types| ==> r.value[i] != r.value[j]
    decreases |types|
  {
    if types == [] then Some([])
    else
      match Bind(config, types[..|types| - 1])
      case None => None
      case Some(prev) =>
        match FirstUnused(NewestOfType(config, types[|types| - 1]), prev)
        case None => None
        case Some(s) => Some(prev + [s])
  }

  /** The rules (in the given order) whose every slot can be bound, with their bindings. */
  function Applicable(rules: seq<Rule>, config: seq<State>): (r: seq<Candidate>)
    ensures |r| <= |rules|
    ensures forall c :: c in r ==> c.rule in rules && Bind(config, c.rule.inputTypes) == Some(c.inputs)
  {
    if rules == [] then []
    else Applicable(rules[..|rules| - 1], config) + Offer(rules[|rules| - 1], config)
  }

  /** The option one rule contributes: itself with its binding, or nothing. */
  function Offer(rule: Rule, config: seq<State>): (r: seq<Candidate>)
    ensures |r| <= 1
    ensures r != [] <==> Bind(config, rule.inputTypes).Some?
    ensures r != [] ==> r[0] == Candidate(rule, Bind(config, rule.inputTypes).value)
  {
    match Bind(config, rule.inputTypes)
    case Some(ins) => [Candidate(rule, ins)]
    case None => []
  }

  /** A binding of a list of slot types extends the binding of every prefix of it. */
  lemma {:induction false} BindPrefix(config: seq<State>, types: seq<InfoType>, n: nat)
    requires n <= |types| && Bind(config, types).Some?
    ensures Bind(config, types[..n]) == Some(Bind(config, types).value[..n])
    decreases |types| - n
  {
    if n < |types| {
      var m := |types| - 1;
      assert types[..m][..n] == types[..n];
      var prev := Bind(config, types[..m]);
      assert prev.Some? && Bind(config, types).value == prev.value + [Bind(config, types).value[m]];
      if n < m {
        BindPrefix(config, types[..m], n);
      }
      assert Bind(config, types).value[..n] == prev.value[..n];
    } else {
      assert types[..n] == types;
      assert Bind(config, types).value[..n] == Bind(config, types).value;
    }
  }

  /** A slot whose type has no state makes the whole binding fail. */
  lemma BindNeedsEveryType(config: seq<State>, types: seq<InfoType>, i: nat)
    requires i < |types| && NewestOfType(config, types[i]) == []
    ensures Bind(config, types) == None
  {
  }

  /** A slot that finds no unused state makes the whole binding fail. */
  lemma BindStopsAtFailedSlot(config: seq<State>, types: seq<InfoType>, i: nat)
    requires i < |types| && Bind(config, types[..i + 1]) == None
    ensures Bind(config, types) == None
  {
    if Bind(config, types).Some? {
      BindPrefix(config, types, i + 1);
    }
  }

  /** `states_by_type` as built from `reversed(config)`: a key per type present,
      holding its states newest first. */
  predicate IndexesByType(byType: map<InfoType, seq<State>>, config: seq<State>)
  {
    forall t :: (t in byType <==> NewestOfType(config, t) != [])
             && (t in byType ==> byType[t] == NewestOfType(config, t))
  }

  /** `_find_applicable_rules`: every rule, in order, whose slots can all be bound. */
  method FindApplicableRules(rules: seq<Rule>, config: seq<State>) returns (options: seq<Candidate>)
    ensures options == Applicable(rules, config)
  {
    var byType := IndexStates(config);
    options := [];
    var k := 0;
    while k < |rules|
      invariant 0 <= k <= |rules|
      invariant options == Applicable(rules[..k], config)
    {
      var rule := rules[k];
      var inputs := BindSlots(byType, config, rule.inputTypes);
      assert rules[..k + 1][..k] == rules[..k];
      if inputs.Some? && |inputs.value| == |rule.inputTypes| {
        options := options + [Candidate(rule, inputs.value)];
      }
      k := k + 1;
    }
    assert rules[..k] == rules;
  }

  /** `states_by_type`: the configuration scanned from its end, each state appended
      to the list of its type, so every list runs newest first. */
  method IndexStates(config: seq<State>) returns (byType: map<InfoType, seq<State>>)
    ensures IndexesByType(byType, config)
  {
    byType := map[];
    var j := |config|;
    while j > 0
      invariant 0 <= j <= |config|
      invariant IndexesByType(byType, config[j..])
    {
      j := j - 1;
      var s := config[j];
      assert config[j..][1..] == config[j + 1..];
      if s.infoType !in byType {
        byType := byType[s.infoType := []];
      }
      byType := byType[s.infoType := byType[s.infoType] + [s]];
    }
    assert config[0..] == config;
  }

  /** The body of the resolver's per-rule loop: first every slot type must be
      present, then each slot takes the first unused state of its type's list. */
  method BindSlots(byType: map<InfoType, seq<State>>, config: seq<State>, types: seq<InfoType>)
    returns (inputs: Option<seq<State>>)
    requires IndexesByType(byType, config)
    ensures inputs == Bind(config, types)
  {
    var lists := SlotLists(byType, config, types);
    if lists.None? {
      return None;
    }
    inputs := TakeUnused(lists.value, config, types);
  }

  /** The presence check: each slot's list of states of its type, or None (and then
      no binding exists) when some slot type has no state. */
  method SlotLists(byType: map<InfoType, seq<State>>, config: seq<State>, types: seq<InfoType>)
    returns (lists: Option<seq<seq<State>>>)
    requires IndexesByType(byType, config)
    ensures lists.None? ==> Bind(config, types) == None
    ensures lists.Some? ==> |lists.value| == |types|
    ensures lists.Some? ==> forall m :: 0 <= m < |types| ==> lists.value[m] == NewestOfType(config, types[m])
  {
    var acc: seq<seq<State>> := [];
    var i := 0;
    while i < |types|
      invariant 0 <= i <= |types| && |acc| == i
      invariant forall m :: 0 <= m < i ==> acc[m] == NewestOfType(config, types[m])
    {
      if types[i] in byType && byType[types[i]] != [] {
        acc := acc + [byType[types[i]]];
        i := i + 1;
      } else {
        BindNeedsEveryType(config, types, i);
        return None;
      }
    }
    lists := Some(acc);
  }

  /** The binding loop: slot `i` takes the first state of `lists[i]` whose identity
      is not yet in `used`. */
  method TakeUnused(lists: seq<seq<State>>, config: seq<State>, types: seq<InfoType>)
    returns (inputs: Option<seq<State>>)
    requires |lists| == |types|
    requires forall m :: 0 <= m < |types| ==> lists[m] == NewestOfType(config, types[m])
    ensures inputs == Bind(config, types)
  {
    var selected: seq<State> := [];
    var used: set<State> := {};
    var i := 0;
    while i < |types|
      invariant 0 <= i <= |types|
      invariant Bind(config, types[..i]) == Some(selected)
      invariant used == set s | s in selected
    {
      var m := ScanUnused(lists[i], selected, used);
      assert types[..i + 1][..i] == types[..i];
      if m == |lists[i]| {
        BindStopsAtFailedSlot(config, types, i);
        return None;
      }
      selected := selected + [lists[i][m]];
      used := used + {lists[i][m]};
      i := i + 1;
    }
    assert types[..i] == types;
    inputs := Some(selected);
  }

  /** The scan over one slot's candidates, most recent first. */
  method ScanUnused(cands: seq<State>, selected: seq<State>, used: set<State>) returns (m: nat)
    requires used == set s | s in selected
    ensures m <= |cands|
    ensures m == |cands| ==> FirstUnused(cands, selected) == None
    ensures m < |cands| ==> FirstUnused(cands, selected) == Some(cands[m])
  {
    m := 0;
    while m < |cands| && cands[m] in used
      invariant 0 <= m <= |cands|
      invariant FirstUnused(cands[m..], selected) == FirstUnused(cands, selected)
    {
      assert cands[m..][1..] == cands[m + 1..];
      m := m + 1;
    }
  }

  // ------------------------------------------------------------------ selector

  /** The position recorded for `s` in `config_indices`: its last index, or -1. */
  function LastIndex(config: seq<State>, s: State): (r: int)
    ensures -1 <= r < |config|
    ensures r >= 0 ==> config[r] == s && forall i :: r < i < |config| ==> config[i] != s
    ensures r == -1 <==> s !in config
  {
    if config == [] then -1
    else if config[|config| - 1] == s then |config| - 1
    else LastIndex(config[..|config| - 1], s)
  }

  /** 1.0 when a previous rule exists and its operator differs, else 0.0. */
  function Novelty(rule: Rule, applied: seq<Rule>): real
  {
    if applied != [] && rule.operator != applied[|applied| - 1].operator then 1.0 else 0.0
  }

  /** The summed ages of the bound inputs found in the configuration, and how many were found. */
  function AgeTotals(inputs: seq<State>, config: seq<State>): (int, nat)
  {
    if inputs == [] then (0, 0)
    else
      var (total, count) := AgeTotals(inputs[..|inputs| - 1], config);
      var idx := LastIndex(config, inputs[|inputs| - 1]);
      if idx != -1 then (total + (|config| - 1 - idx), count + 1) else (total, count)
  }

  /** Half the average input age relative to the oldest possible age. */
  function Recency(inputs: seq<State>, config: seq<State>): real
  {
    var (total, count) := AgeTotals(inputs, config);
    if count > 0 && |config| - 1 > 0 then 0.5 * AgeRatio(total, count, |config| - 1)
    else 0.0
  }

  /** The average age over the oldest possible age. */
  function AgeRatio(total: int, count: int, maxAge: int): real
    requires count > 0 && maxAge > 0
  {
    (total as real / count as real) / maxAge as real
  }

  function DiversityScore(c: Candidate, config: seq<State>, applied: seq<Rule>): real
  {
    1.0 + Novelty(c.rule, applied) + Recency(c.inputs, config)
  }

  /** The goal factor: 1.0 without goal scores, else the rule's entry or 0.0. */
  function GoalFactor(goal: Option<map<Rule, real>>, rule: Rule): real
  {
    match goal
    case None => 1.0
    case Some(m) => if rule in m then m[rule] else 0.0
  }

  const Floor: real := 0.01

  function Max(a: real, b: real): real
  {
    if a >= b then a else b
  }

  /** Diversity times goal factor, before flooring. */
  function Combined(c: Candidate, config: seq<State>, applied: seq<Rule>, goal: Option<map<Rule, real>>): real
  {
    DiversityScore(c, config, applied) * GoalFactor(goal, c.rule)
  }

  function Weight(c: Candidate, config: seq<State>, applied: seq<Rule>, goal: Option<map<Rule, real>>): real
  {
    Max(Combined(c, config, applied, goal), Floor)
  }

  function Weights(cands: seq<Candidate>, config: seq<State>, applied: seq<Rule>, goal: Option<map<Rule, real>>)
    : (ws: seq<real>)
    ensures |ws| == |cands|
    ensures forall i :: 0 <= i < |cands| ==> ws[i] == Weight(cands[i], config, applied, goal)
  {
    if cands == [] then []
    else Weights(cands[..|cands| - 1], config, applied, goal) + [Weight(cands[|cands| - 1], config, applied, goal)]
  }

  function Sum(ws: seq<real>): real
  {
    if ws == [] then 0.0 else Sum(ws[..|ws| - 1]) + ws[|ws| - 1]
  }

  /** `random.choices(population, weights)` for the point `x` in [0, total): the
      first index whose cumulative weight exceeds `x`, and the last index otherwise. */
  function Pick(ws: seq<real>, x: real): (k: nat)
    ensures ws != [] ==> k < |ws|
    ensures ws == [] ==> k == 0
  {
    if |ws| <= 1 then 0
    else if x < ws[0] then 0
    else 1 + Pick(ws[1..], x - ws[0])
  }

  /** `_select_rule_with_diversity` for a uniform draw `draw` in [0, 1). */
  function Selection(cands: seq<Candidate>, config: seq<State>, applied: seq<Rule>,
                     goal: Option<map<Rule, real>>, draw: real): (choice: Option<Candidate>)
    ensures cands == [] ==> choice.None?
    ensures choice.Some? ==> choice.value in cands
  {
    if cands == [] then None
    else
      var ws := Weights(cands, config, applied, goal);
      if Sum(ws) <= |ws| as real * Floor then None
      else Some(cands[Pick(ws, Scaled(draw, ws))])
  }

  /** `random() * total`: the uniform draw scaled to the total weight. */
  function Scaled(draw: real, ws: seq<real>): real
  {
    draw * Sum(ws)
  }

  /** `_select_rule_with_diversity`: scores each candidate, floors the scores and
      draws one candidate with probability proportional to its weight. */
  method SelectRuleWithDiversity(cands: seq<Candidate>, config: seq<State>, applied: seq<Rule>,
                                 goal: Option<map<Rule, real>>, draw: real)
    returns (choice: Option<Candidate>)
    ensures choice == Selection(cands, config, applied, goal, draw)
  {
    if cands == [] {
      return None;
    }
    var scores: seq<real> := [];
    var indices := ConfigIndices(config);
    var lastOperator: Option<OperatorType> := if applied != [] then Some(applied[|applied| - 1].operator) else None;
    var i := 0;
    while i < |cands|
      invariant 0 <= i <= |cands| && |scores| == i
      invariant forall n :: 0 <= n < i ==> scores[n] == Combined(cands[n], config, applied, goal)
    {
      var score := CombinedScore(cands[i], config, applied, indices, lastOperator, goal);
      scores := scores + [score];
      i := i + 1;
    }
    var positive := seq(|scores|, n requires 0 <= n < |scores| => Max(scores[n], Floor));
    ghost var ws := Weights(cands, config, applied, goal);
    forall n | 0 <= n < |scores| ensures positive[n] == ws[n] {
      assert positive[n] == Max(scores[n], Floor);
      assert ws[n] == Weight(cands[n], config, applied, goal);
    }
    assert positive == ws;
    if Sum(positive) <= |positive| as real * Floor {
      return None;
    }
    choice := Some(cands[Pick(positive, Scaled(draw, positive))]);
  }

  /** One pass of the selector's scoring loop: diversity times goal factor. */
  method CombinedScore(c: Candidate, config: seq<State>, applied: seq<Rule>, indices: map<State, nat>,
                       lastOperator: Option<OperatorType>, goal: Option<map<Rule, real>>)
    returns (score: real)
    requires forall s :: s in indices <==> s in config
    requires forall s :: s in indices ==> indices[s] == LastIndex(config, s)
    requires lastOperator.Some? <==> applied != []
    requires lastOperator.Some? ==> lastOperator.value == applied[|applied| - 1].operator
    ensures score == Combined(c, config, applied, goal)
  {
    var diversity := 1.0;
    if lastOperator.Some? && c.rule.operator != lastOperator.value {
      diversity := diversity + 1.0;
    }
    assert diversity == 1.0 + Novelty(c.rule, applied);
    var bonus := RecencyBonus(c.inputs, config, indices);
    diversity := diversity + bonus;
    assert diversity == DiversityScore(c, config, applied);
    var goalScore := 1.0;
    if goal.Some? {
      goalScore := if c.rule in goal.value then goal.value[c.rule] else 0.0;
    }
    assert goalScore == GoalFactor(goal, c.rule);
    score := diversity * goalScore;
  }

  /** The recency bonus: half the bound inputs' average age over the oldest possible age. */
  method RecencyBonus(inputs: seq<State>, config: seq<State>, indices: map<State, nat>) returns (bonus: real)
    requires forall s :: s in indices <==> s in config
    requires forall s :: s in indices ==> indices[s] == LastIndex(config, s)
    ensures bonus == Recency(inputs, config)
  {
    bonus := 0.0;
    if inputs != [] {
      var maxAge := |config| - 1;
      var totalAge, count := InputAges(inputs, config, indices);
      if count > 0 && maxAge > 0 {
        var avgAge := totalAge as real / count as real;
        bonus := 0.5 * (avgAge / maxAge as real);
      }
    }
  }

  /** `config_indices`: each state's index in the configuration, the last one winning. */
  method ConfigIndices(config: seq<State>) returns (indices: map<State, nat>)
    ensures forall s :: s in indices <==> s in config
    ensures forall s :: s in indices ==> indices[s] == LastIndex(config, s)
  {
    indices := map[];
    var i := 0;
    while i < |config|
      invariant 0 <= i <= |config|
      invariant forall s :: s in indices <==> s in config[..i]
      invariant forall s :: s in indices ==> indices[s] == LastIndex(config[..i], s)
    {
      assert config[..i + 1][..i] == config[..i];
      indices := indices[config[i] := i];
      i := i + 1;
    }
    assert config[..i] == config;
  }

  /** The recency loop of the selector: ages of the inputs that `indices` knows. */
  method InputAges(inputs: seq<State>, config: seq<State>, indices: map<State, nat>)
    returns (totalAge: int, count: nat)
    requires forall s :: s in indices <==> s in config
    requires forall s :: s in indices ==> indices[s] == LastIndex(config, s)
    ensures (totalAge, count) == AgeTotals(inputs, config)
  {
    totalAge, count := 0, 0;
    var i := 0;
    while i < |inputs|
      invariant 0 <= i <= |inputs|
      invariant (totalAge, count) == AgeTotals(inputs[..i], config)
    {
      var s := inputs[i];
      assert inputs[..i + 1][..i] == inputs[..i];
      var index := if s in indices then indices[s] else -1;
      if index != -1 {
        totalAge := totalAge + (|config| - 1 - index);
        count := count + 1;
      }
      i := i + 1;
    }
    assert inputs[..i] == inputs;
  }

  // ------------------------------------------------------------------ executor

  /** `_execute_rule`: runs the operator on the input values; a produced state is
      new and carries the rule and the inputs as its provenance. */
  method ExecuteRule(exec: Executor, call: nat, rule: Rule, inputs: seq<State>) returns (s: State?)
    ensures s == null <==> exec(call, rule, Values(inputs)).None?
    ensures s != null ==>
      && fresh(s)
      && Output(s.value, s.infoType) == exec(call, rule, Values(inputs)).value
      && s.sourceRule == Some(rule) && s.sourceInputs == inputs
  {
    var out := exec(call, rule, Values(inputs));
    if out.None? {
      return null;
    }
    s := new State(out.value.value, out.value.infoType, None, None);
    s.sourceRule := Some(rule);
    s.sourceInputs := inputs;
  }
}

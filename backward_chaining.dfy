/** `BackwardChainingGenerator`: searches backwards from the target type for rule
    plans of a given depth, keeps those of exactly `max_hops` rules, picks the most
    diverse, and executes it forwards from a seed, seeding simple types on the fly. */
module BackwardChaining {
  import opened Strings
  import opened Types
  import opened BaseGenerator
  import opened Walk
  import opened Formatter
  import opened BackwardPlans
  import opened ResolverLemmas
  import opened PlanRun

  // ------------------------------------------------------------------ search

  /** A plan found at depth >= 1: non-empty, without repeats, over the rules, and
      holding one of the producers the search tries for the target. */
  predicate SoundPlan(rules: seq<Rule>, target: InfoType, parent: Option<OperatorType>, p: Plan)
  {
    && p != []
    && DuplicateFree(p)
    && Uses(p, rules)
    && exists i :: 0 <= i < |p| && p[i] in Producers(rules, target, parent)
  }

  /** The plan made of one rule without inputs. */
  predicate ZeroInputAlone(p: Plan)
  {
    |p| == 1 && p[0].inputTypes == []
  }

  /** At most `max_plans` plans, but one is always let through. */
  function PlanLimit(maxPlans: int): int
  {
    if maxPlans >= 1 then maxPlans else 1
  }

  /** What the search keeps at depth `depth`: sound plans, and no lone rule without
      inputs unless the depth is 1. */
  predicate GoodPlans(rules: seq<Rule>, target: InfoType, parent: Option<OperatorType>, depth: int, plans: seq<Plan>)
  {
    forall i :: 0 <= i < |plans| ==>
      SoundPlan(rules, target, parent, plans[i]) && (depth != 1 ==> !ZeroInputAlone(plans[i]))
  }

  /** What the search promises about the plans it returns for `target` at `depth`
      below `parent`: each is built as `Derivable` says; there are none exactly
      when the search cannot succeed; and below the plan limit every plan that can
      be built is among them. */
  ghost predicate Searched(rules: seq<Rule>, target: InfoType, depth: int, parent: Option<OperatorType>,
                           maxPlans: int, plans: seq<Plan>)
  {
    && (forall p :: p in plans ==> Derivable(rules, target, depth, parent, p))
    && (plans == [] <==> !Feasible(rules, target, depth, parent))
    && (|plans| < maxPlans ==> forall p :: Derivable(rules, target, depth, parent, p) ==> p in plans)
  }

  /** `_find_all_backward_plans`. The shuffle of the producers draws from `rand`
      starting at `next`; the draws used up are returned. */
  method FindAllBackwardPlans(rules: seq<Rule>, target: InfoType, depth: int, parent: Option<OperatorType>,
                              maxPlans: int, rand: nat -> nat, next: nat)
    returns (plans: seq<Plan>, next': nat)
    ensures depth < 0 ==> plans == []
    ensures depth == 0 ==> plans == if IsSeedable(target) then [[]] else []
    ensures AllUse(plans, rules)
    ensures depth > 0 ==> GoodPlans(rules, target, parent, depth, plans)
    ensures depth == 1 && |plans| < maxPlans ==>
      forall r :: r in Producers(rules, target, parent) && r.inputTypes == [] ==> [r] in plans
    ensures NoZeroInput(Producers(rules, target, parent)) ==> |plans| <= PlanLimit(maxPlans)
    ensures Searched(rules, target, depth, parent, maxPlans, plans)
    decreases if depth < 0 then 0 else depth, 4
  {
    next' := next;
    if depth == 0 {
      SearchedAtZero(rules, target, parent, maxPlans);
      return if IsSeedable(target) then [[]] else [], next';
    }
    if depth < 0 {
      SearchedBelowZero(rules, target, depth, parent, maxPlans);
      return [], next';
    }
    var producers := RulesProducing(rules, target);
    if parent.Some? {
      var filtered := WithoutOperator(producers, parent.value);
      if filtered != [] {
        producers := filtered;
      }
    }
    assert producers == Producers(rules, target, parent);
    if producers == [] {
      SearchedNoProducers(rules, target, depth, parent, maxPlans);
      return [], next';
    }
    ghost var tried := producers;
    producers, next' := Shuffle(producers, rand, next');
    PermutationMembers(producers, tried);
    plans, next' := SearchProducers(rules, target, parent, depth, producers, maxPlans, rand, next');
    GoodPlansUse(rules, target, parent, depth, plans);
    SearchedByProducers(rules, target, depth, parent, maxPlans, producers, plans);
    if depth == 1 && |plans| < maxPlans {
      SingletonsFound(rules, target, parent, maxPlans, plans);
    }
  }

  /** At depth 0 only a seedable type has a plan, the empty one. */
  lemma SearchedAtZero(rules: seq<Rule>, target: InfoType, parent: Option<OperatorType>, maxPlans: int)
    ensures Searched(rules, target, 0, parent, maxPlans, if IsSeedable(target) then [[]] else [])
  {
  }

  /** Below depth 0 there is no plan. */
  lemma SearchedBelowZero(rules: seq<Rule>, target: InfoType, depth: int, parent: Option<OperatorType>, maxPlans: int)
    requires depth < 0
    ensures Searched(rules, target, depth, parent, maxPlans, [])
  {
  }

  /** A type no rule produces has no plan at a positive depth. */
  lemma SearchedNoProducers(rules: seq<Rule>, target: InfoType, depth: int, parent: Option<OperatorType>, maxPlans: int)
    requires depth >= 1 && Producers(rules, target, parent) == []
    ensures Searched(rules, target, depth, parent, maxPlans, [])
  {
  }

  /** The producer loop, over the shuffled producers. */
  method SearchProducers(rules: seq<Rule>, target: InfoType, parent: Option<OperatorType>, depth: int,
                         producers: seq<Rule>, maxPlans: int, rand: nat -> nat, next: nat)
    returns (plans: seq<Plan>, next': nat)
    requires depth >= 1
    requires forall x :: x in producers ==> x in Producers(rules, target, parent)
    ensures GoodPlans(rules, target, parent, depth, plans)
    ensures NoZeroInput(producers) ==> |plans| <= PlanLimit(maxPlans)
    ensures FoundBy(rules, target, parent, depth, producers, |producers|, maxPlans, plans)
    decreases depth, 3
  {
    plans, next' := [], next;
    var k := 0;
    while k < |producers|
      invariant 0 <= k <= |producers|
      invariant GoodPlans(rules, target, parent, depth, plans)
      invariant NoZeroInput(producers) ==> |plans| < PlanLimit(maxPlans)
      invariant FoundBy(rules, target, parent, depth, producers, k, maxPlans, plans)
    {
      var stop;
      plans, next', stop := SearchStep(rules, target, parent, depth, producers, k, plans, maxPlans, rand, next');
      if stop {
        break;
      }
      k := k + 1;
    }
  }

  /** One pass of the producer loop: the plans of producer `k` are appended, and
      the loop stops once the limit is reached. */
  method SearchStep(rules: seq<Rule>, target: InfoType, parent: Option<OperatorType>, depth: int,
                    producers: seq<Rule>, k: nat, plans: seq<Plan>, maxPlans: int, rand: nat -> nat, next: nat)
    returns (plans': seq<Plan>, next': nat, stop: bool)
    requires depth >= 1 && k < |producers|
    requires forall x :: x in producers ==> x in Producers(rules, target, parent)
    requires GoodPlans(rules, target, parent, depth, plans)
    requires NoZeroInput(producers) ==> |plans| < PlanLimit(maxPlans)
    requires FoundBy(rules, target, parent, depth, producers, k, maxPlans, plans)
    ensures GoodPlans(rules, target, parent, depth, plans')
    ensures NoZeroInput(producers) ==> if stop then |plans'| <= PlanLimit(maxPlans) else |plans'| < PlanLimit(maxPlans)
    ensures FoundBy(rules, target, parent, depth, producers, if stop then |producers| else k + 1, maxPlans, plans')
    decreases depth, 2
  {
    var added;
    added, next', stop := TryProducer(rules, target, parent, depth, producers[k], |plans|, maxPlans, rand, next);
    GoodPlansAppend(rules, target, parent, depth, plans, added);
    FoundStep(rules, target, parent, depth, producers, k, maxPlans, plans, added);
    plans' := plans + added;
    if stop {
      FoundStop(rules, target, parent, depth, producers, k + 1, maxPlans, plans');
    }
  }

  /** What the producer loop keeps after the first `k` producers: each plan is
      built by one of them; there is none exactly when none of them can succeed;
      and below the limit every plan they build is there. */
  ghost predicate FoundBy(rules: seq<Rule>, target: InfoType, parent: Option<OperatorType>, depth: int,
                          producers: seq<Rule>, k: nat, maxPlans: int, plans: seq<Plan>)
    requires k <= |producers|
  {
    && (forall p :: p in plans ==> exists j :: 0 <= j < k && DerivedBy(rules, producers[j], depth, p))
    && (plans == [] <==> forall j :: 0 <= j < k ==> !ProducerFeasible(rules, producers[j], depth))
    && (|plans| < maxPlans ==>
          forall j, p :: 0 <= j < k && DerivedBy(rules, producers[j], depth, p) ==> p in plans)
  }

  lemma FoundStep(rules: seq<Rule>, target: InfoType, parent: Option<OperatorType>, depth: int,
                  producers: seq<Rule>, k: nat, maxPlans: int, plans: seq<Plan>, added: seq<Plan>)
    requires k < |producers| && FoundBy(rules, target, parent, depth, producers, k, maxPlans, plans)
    requires forall p :: p in added ==> DerivedBy(rules, producers[k], depth, p)
    requires added != [] <==> ProducerFeasible(rules, producers[k], depth)
    requires |plans| + |added| < maxPlans ==> forall p :: DerivedBy(rules, producers[k], depth, p) ==> p in added
    ensures FoundBy(rules, target, parent, depth, producers, k + 1, maxPlans, plans + added)
  {
    forall p | p in plans + added ensures exists j :: 0 <= j < k + 1 && DerivedBy(rules, producers[j], depth, p) {
      if p in plans {
        var j :| 0 <= j < k && DerivedBy(rules, producers[j], depth, p);
        assert 0 <= j < k + 1;
      } else {
        assert DerivedBy(rules, producers[k], depth, p);
      }
    }
    if |plans + added| < maxPlans {
      forall j, p | 0 <= j < k + 1 && DerivedBy(rules, producers[j], depth, p) ensures p in plans + added {
        if j < k {
          assert p in plans;
        } else {
          assert p in added;
        }
      }
    }
  }

  /** Stopping at the limit once a plan is found keeps what the loop promises. */
  lemma FoundStop(rules: seq<Rule>, target: InfoType, parent: Option<OperatorType>, depth: int,
                  producers: seq<Rule>, k: nat, maxPlans: int, plans: seq<Plan>)
    requires k <= |producers| && FoundBy(rules, target, parent, depth, producers, k, maxPlans, plans)
    requires plans != [] && |plans| >= maxPlans
    ensures FoundBy(rules, target, parent, depth, producers, |producers|, maxPlans, plans)
  {
    var j0 :| 0 <= j0 < k && ProducerFeasible(rules, producers[j0], depth);
    forall p | p in plans ensures exists j :: 0 <= j < |producers| && DerivedBy(rules, producers[j], depth, p) {
      var j :| 0 <= j < k && DerivedBy(rules, producers[j], depth, p);
      assert 0 <= j < |producers|;
    }
    assert 0 <= j0 < |producers|;
  }

  /** The producer loop over a shuffle of the producers gives what the search promises. */
  lemma SearchedByProducers(rules: seq<Rule>, target: InfoType, depth: int, parent: Option<OperatorType>,
                            maxPlans: int, producers: seq<Rule>, plans: seq<Plan>)
    requires depth >= 1
    requires forall x :: x in producers <==> x in Producers(rules, target, parent)
    requires FoundBy(rules, target, parent, depth, producers, |producers|, maxPlans, plans)
    ensures Searched(rules, target, depth, parent, maxPlans, plans)
  {
    ProducersSound(rules, target, depth, parent, producers, plans);
    ProducersEmpty(rules, target, depth, parent, producers, plans);
    if |plans| < maxPlans {
      ProducersComplete(rules, target, depth, parent, producers, plans);
    }
  }

  lemma ProducersSound(rules: seq<Rule>, target: InfoType, depth: int, parent: Option<OperatorType>,
                       producers: seq<Rule>, plans: seq<Plan>)
    requires forall x :: x in producers ==> x in Producers(rules, target, parent)
    requires forall p :: p in plans ==> exists j :: 0 <= j < |producers| && DerivedBy(rules, producers[j], depth, p)
    ensures forall p :: p in plans ==> Derivable(rules, target, depth, parent, p)
  {
    forall p | p in plans ensures Derivable(rules, target, depth, parent, p) {
      var j :| 0 <= j < |producers| && DerivedBy(rules, producers[j], depth, p);
      assert producers[j] in Producers(rules, target, parent);
    }
  }

  lemma ProducersEmpty(rules: seq<Rule>, target: InfoType, depth: int, parent: Option<OperatorType>,
                       producers: seq<Rule>, plans: seq<Plan>)
    requires depth >= 1
    requires forall x :: x in producers <==> x in Producers(rules, target, parent)
    requires plans == [] <==> forall j :: 0 <= j < |producers| ==> !ProducerFeasible(rules, producers[j], depth)
    ensures plans == [] <==> !Feasible(rules, target, depth, parent)
  {
    if plans == [] {
      forall r | r in Producers(rules, target, parent) ensures !ProducerFeasible(rules, r, depth) {
        var j :| 0 <= j < |producers| && producers[j] == r;
      }
    } else {
      var j :| 0 <= j < |producers| && ProducerFeasible(rules, producers[j], depth);
      assert producers[j] in Producers(rules, target, parent);
    }
  }

  lemma ProducersComplete(rules: seq<Rule>, target: InfoType, depth: int, parent: Option<OperatorType>,
                          producers: seq<Rule>, plans: seq<Plan>)
    requires depth >= 1
    requires forall x :: x in Producers(rules, target, parent) ==> x in producers
    requires forall j, p :: 0 <= j < |producers| && DerivedBy(rules, producers[j], depth, p) ==> p in plans
    ensures forall p :: Derivable(rules, target, depth, parent, p) ==> p in plans
  {
    forall p | Derivable(rules, target, depth, parent, p) ensures p in plans {
      var r :| r in Producers(rules, target, parent) && DerivedBy(rules, r, depth, p);
      var j :| 0 <= j < |producers| && producers[j] == r;
    }
  }

  /** Below the limit at depth 1, every producer without inputs is a plan of its own. */
  lemma SingletonsFound(rules: seq<Rule>, target: InfoType, parent: Option<OperatorType>, maxPlans: int,
                        plans: seq<Plan>)
    requires Searched(rules, target, 1, parent, maxPlans, plans) && |plans| < maxPlans
    ensures forall r :: r in Producers(rules, target, parent) && r.inputTypes == [] ==> [r] in plans
  {
    forall r | r in Producers(rules, target, parent) && r.inputTypes == [] ensures [r] in plans {
      assert DerivedBy(rules, r, 1, [r]);
    }
  }

  lemma GoodPlansAppend(rules: seq<Rule>, target: InfoType, parent: Option<OperatorType>, depth: int,
                        plans: seq<Plan>, added: seq<Plan>)
    requires GoodPlans(rules, target, parent, depth, plans)
    requires GoodPlans(rules, target, parent, depth, added)
    ensures GoodPlans(rules, target, parent, depth, plans + added)
  {
    forall i | 0 <= i < |plans + added|
      ensures SoundPlan(rules, target, parent, (plans + added)[i])
      ensures depth != 1 ==> !ZeroInputAlone((plans + added)[i])
    {
      if i < |plans| {
        assert (plans + added)[i] == plans[i];
      } else {
        assert (plans + added)[i] == added[i - |plans|];
      }
    }
  }

  /** The body of the producer loop for one producer, given the `have` plans found
      so far; it returns the plans it adds. A rule without inputs is a plan by itself
      at depth 1 and is then passed over without a limit check; otherwise its inputs'
      sub-plans are searched and every combination merged. `stop` says the limit was
      reached there, by the early return inside the combination loop or by the check
      after it, both of which end the search with the plans found so far. */
  method TryProducer(rules: seq<Rule>, target: InfoType, parent: Option<OperatorType>, depth: int, rule: Rule,
                     have: nat, maxPlans: int, rand: nat -> nat, next: nat)
    returns (added: seq<Plan>, next': nat, stop: bool)
    requires depth >= 1 && rule in Producers(rules, target, parent)
    ensures GoodPlans(rules, target, parent, depth, added)
    ensures rule.inputTypes == [] ==> added == (if depth == 1 then [[rule]] else []) && !stop
    ensures stop ==> have + |added| >= maxPlans
    ensures rule.inputTypes != [] && !stop ==> added == [] || have + |added| < maxPlans
    ensures rule.inputTypes != [] && have < PlanLimit(maxPlans) ==> have + |added| <= PlanLimit(maxPlans)
    ensures forall p :: p in added ==> DerivedBy(rules, rule, depth, p)
    ensures added != [] <==> ProducerFeasible(rules, rule, depth)
    ensures have + |added| < maxPlans ==> forall p :: DerivedBy(rules, rule, depth, p) ==> p in added
    ensures stop ==> added != []
    decreases depth, 1
  {
    added, next', stop := [], next, false;
    if rule.inputTypes == [] {
      if depth == 1 {
        SoundSingleton(rules, target, parent, rule);
        added := [[rule]];
      }
      return;
    }
    var perInput, possible;
    perInput, possible, next' := PlansPerInput(rules, rule, depth, maxPlans - have, rand, next);
    if !possible {
      NothingDerived(rules, rule, depth);
      return;
    }
    var full;
    added, full := AddCombinations(rules, target, parent, depth, rule, perInput, have, maxPlans);
    ProductSizePositive(perInput);
    ProductCount(perInput);
    CombinationsDerived(rules, rule, depth, perInput, added);
    if have + |added| < maxPlans {
      CombinationsComplete(rules, rule, depth, perInput, maxPlans - have, added);
    }
    stop := full || have + |added| >= maxPlans;
  }

  /** A producer one of whose inputs cannot succeed builds nothing. */
  lemma NothingDerived(rules: seq<Rule>, rule: Rule, depth: int)
    requires !ProducerFeasible(rules, rule, depth)
    ensures forall p :: !DerivedBy(rules, rule, depth, p)
  {
    forall p | DerivedBy(rules, rule, depth, p) ensures false {
      DerivedByFeasible(rules, rule, depth, p);
    }
  }

  /** The merge of a combination of sub-plans the search found is built by the producer. */
  lemma CombinationsDerived(rules: seq<Rule>, rule: Rule, depth: int, perInput: seq<seq<Plan>>, added: seq<Plan>)
    requires depth >= 1 && rule.inputTypes != [] && |perInput| == |rule.inputTypes|
    requires forall i :: 0 <= i < |perInput| ==>
      forall p :: p in perInput[i] ==> Derivable(rules, rule.inputTypes[i], depth - 1, Some(rule.operator), p)
    requires |added| <= |Product(perInput)|
    requires forall c :: 0 <= c < |added| ==> added[c] == Merged(Product(perInput)[c], rule)
    ensures forall p :: p in added ==> DerivedBy(rules, rule, depth, p)
  {
    forall p | p in added ensures DerivedBy(rules, rule, depth, p) {
      var c :| 0 <= c < |added| && added[c] == p;
      var combo := Product(perInput)[c];
      ProductEntry(perInput, c);
      assert Combines(rules, rule, depth, combo);
    }
  }

  /** When every sub-search was below its limit, every combination of buildable
      sub-plans was merged. */
  lemma CombinationsComplete(rules: seq<Rule>, rule: Rule, depth: int, perInput: seq<seq<Plan>>, cap: int,
                             added: seq<Plan>)
    requires depth >= 1 && rule.inputTypes != [] && |perInput| == |rule.inputTypes|
    requires forall i :: 0 <= i < |perInput| ==> (perInput[i] != [] &&
      (|perInput[i]| < cap ==> forall p :: Derivable(rules, rule.inputTypes[i], depth - 1, Some(rule.operator), p) ==> p in perInput[i]))
    requires |added| == |Product(perInput)| == ProductSize(perInput) && |added| < cap
    requires forall c :: 0 <= c < |added| ==> added[c] == Merged(Product(perInput)[c], rule)
    ensures forall p :: DerivedBy(rules, rule, depth, p) ==> p in added
  {
    forall p | DerivedBy(rules, rule, depth, p) ensures p in added {
      var combo :| Combines(rules, rule, depth, combo) && p == Merged(combo, rule);
      forall i | 0 <= i < |perInput| ensures combo[i] in perInput[i] {
        ListWithinProduct(perInput, i);
      }
      var c := ProductComplete(perInput, combo);
      assert added[c] == p;
    }
  }

  lemma GoodPlansUse(rules: seq<Rule>, target: InfoType, parent: Option<OperatorType>, depth: int, plans: seq<Plan>)
    requires GoodPlans(rules, target, parent, depth, plans)
    ensures AllUse(plans, rules)
  {
    forall i | 0 <= i < |plans| ensures Uses(plans[i], rules) {
      assert SoundPlan(rules, target, parent, plans[i]);
    }
  }

  /** The combination loop for one producer: each combination of sub-plans merged
      and appended after the `have` plans already found, stopping (`full`) once the
      plan limit is reached. */
  method AddCombinations(rules: seq<Rule>, target: InfoType, parent: Option<OperatorType>, depth: int, rule: Rule,
                         perInput: seq<seq<Plan>>, have: nat, maxPlans: int)
    returns (added: seq<Plan>, full: bool)
    requires rule in Producers(rules, target, parent) && rule.inputTypes != []
    requires |perInput| == |rule.inputTypes| && forall i :: 0 <= i < |perInput| ==> AllUse(perInput[i], rules)
    ensures GoodPlans(rules, target, parent, depth, added)
    ensures full ==> have + |added| >= maxPlans
    ensures have < PlanLimit(maxPlans) ==> have + |added| <= PlanLimit(maxPlans)
    ensures !full ==> added == [] || have + |added| < maxPlans
    ensures |added| <= |Product(perInput)|
    ensures forall c :: 0 <= c < |added| ==> added[c] == Merged(Product(perInput)[c], rule)
    ensures !full ==> |added| == |Product(perInput)|
    ensures full ==> added != []
  {
    added, full := [], false;
    var combos := Product(perInput);
    for c := 0 to |combos|
      invariant GoodPlans(rules, target, parent, depth, added)
      invariant added == [] || have + |added| < maxPlans
      invariant |added| == c && forall c' :: 0 <= c' < c ==> added[c'] == Merged(combos[c'], rule)
    {
      var plan := CombinePlan(combos[c], rule);
      CombinationAppended(rules, target, parent, depth, rule, perInput, added, c);
      added := added + [plan];
      if have + |added| >= maxPlans {
        return added, true;
      }
    }
  }

  /** Appending the merge of combination `c` keeps the kept plans sound and in
      combination order. */
  lemma CombinationAppended(rules: seq<Rule>, target: InfoType, parent: Option<OperatorType>, depth: int, rule: Rule,
                            perInput: seq<seq<Plan>>, added: seq<Plan>, c: nat)
    requires rule in Producers(rules, target, parent) && rule.inputTypes != []
    requires |perInput| == |rule.inputTypes| && forall i :: 0 <= i < |perInput| ==> AllUse(perInput[i], rules)
    requires c < |Product(perInput)| && GoodPlans(rules, target, parent, depth, added)
    requires |added| == c && forall c' :: 0 <= c' < c ==> added[c'] == Merged(Product(perInput)[c'], rule)
    ensures GoodPlans(rules, target, parent, depth, added + [Merged(Product(perInput)[c], rule)])
    ensures forall c' :: 0 <= c' < c + 1 ==>
      (added + [Merged(Product(perInput)[c], rule)])[c'] == Merged(Product(perInput)[c'], rule)
  {
    var combo := Product(perInput)[c];
    ProductEntry(perInput, c);
    MergedUses(combo, rule, perInput, rules);
    SoundMerged(rules, target, parent, combo, rule);
    GoodPlansAppend(rules, target, parent, depth, added, [Merged(combo, rule)]);
    var longer := added + [Merged(combo, rule)];
    forall c' | 0 <= c' < c + 1 ensures longer[c'] == Merged(Product(perInput)[c'], rule) {
      if c' < c {
        assert longer[c'] == added[c'];
      }
    }
  }

  lemma SoundSingleton(rules: seq<Rule>, target: InfoType, parent: Option<OperatorType>, rule: Rule)
    requires rule in Producers(rules, target, parent)
    ensures SoundPlan(rules, target, parent, [rule]) && Uses([rule], rules)
  {
    assert [rule][0] == rule;
  }

  lemma SoundMerged(rules: seq<Rule>, target: InfoType, parent: Option<OperatorType>, combo: seq<Plan>, rule: Rule)
    requires rule in Producers(rules, target, parent) && rule.inputTypes != []
    requires Uses(Merged(combo, rule), rules)
    ensures SoundPlan(rules, target, parent, Merged(combo, rule))
    ensures !ZeroInputAlone(Merged(combo, rule))
  {
    var plan := Merged(combo, rule);
    var i :| 0 <= i < |plan| && plan[i] == rule;
  }

  /** The per-input loop: the sub-plans for each input type, one level down, below
      the rule's operator; not possible as soon as an input has none. */
  method PlansPerInput(rules: seq<Rule>, rule: Rule, depth: int, maxPlans: int, rand: nat -> nat, next: nat)
    returns (perInput: seq<seq<Plan>>, possible: bool, next': nat)
    requires depth >= 1
    ensures possible ==> |perInput| == |rule.inputTypes|
    ensures forall i :: 0 <= i < |perInput| ==> perInput[i] != [] && AllUse(perInput[i], rules)
    ensures possible <==> forall i :: 0 <= i < |rule.inputTypes| ==>
      Feasible(rules, rule.inputTypes[i], depth - 1, Some(rule.operator))
    ensures InputsSearched(rules, rule, depth, maxPlans, perInput)
    decreases depth, 0
  {
    perInput, possible, next' := [], true, next;
    for i := 0 to |rule.inputTypes|
      invariant |perInput| == i
      invariant forall j :: 0 <= j < i ==> perInput[j] != [] && AllUse(perInput[j], rules)
      invariant InputsSearched(rules, rule, depth, maxPlans, perInput)
    {
      var subPlans;
      subPlans, next' := FindAllBackwardPlans(rules, rule.inputTypes[i], depth - 1, Some(rule.operator),
                                              maxPlans, rand, next');
      if subPlans == [] {
        possible := false;
        return;
      }
      InputsSearchedSnoc(rules, rule, depth, maxPlans, perInput, subPlans);
      perInput := perInput + [subPlans];
    }
    InputsFeasible(rules, rule, depth, maxPlans, perInput);
  }

  /** Each list of sub-plans is what the search promises for its input type. */
  ghost predicate InputsSearched(rules: seq<Rule>, rule: Rule, depth: int, maxPlans: int, perInput: seq<seq<Plan>>)
  {
    |perInput| <= |rule.inputTypes| &&
    forall i :: 0 <= i < |perInput| ==>
      Searched(rules, rule.inputTypes[i], depth - 1, Some(rule.operator), maxPlans, perInput[i])
  }

  lemma InputsSearchedSnoc(rules: seq<Rule>, rule: Rule, depth: int, maxPlans: int, perInput: seq<seq<Plan>>,
                           subPlans: seq<Plan>)
    requires InputsSearched(rules, rule, depth, maxPlans, perInput) && |perInput| < |rule.inputTypes|
    requires Searched(rules, rule.inputTypes[|perInput|], depth - 1, Some(rule.operator), maxPlans, subPlans)
    ensures InputsSearched(rules, rule, depth, maxPlans, perInput + [subPlans])
  {
    var next := perInput + [subPlans];
    forall i | 0 <= i < |next|
      ensures Searched(rules, rule.inputTypes[i], depth - 1, Some(rule.operator), maxPlans, next[i])
    {
      if i < |perInput| {
        assert next[i] == perInput[i];
      }
    }
  }

  /** With a non-empty list of sub-plans for every input, every input can succeed. */
  lemma InputsFeasible(rules: seq<Rule>, rule: Rule, depth: int, maxPlans: int, perInput: seq<seq<Plan>>)
    requires InputsSearched(rules, rule, depth, maxPlans, perInput) && |perInput| == |rule.inputTypes|
    requires forall i :: 0 <= i < |perInput| ==> perInput[i] != []
    ensures forall i :: 0 <= i < |rule.inputTypes| ==> Feasible(rules, rule.inputTypes[i], depth - 1, Some(rule.operator))
  {
    forall i | 0 <= i < |rule.inputTypes| ensures Feasible(rules, rule.inputTypes[i], depth - 1, Some(rule.operator)) {
      assert Searched(rules, rule.inputTypes[i], depth - 1, Some(rule.operator), maxPlans, perInput[i]);
    }
  }

  // ------------------------------------------------------------------ choosing a plan

  /** The plans of exactly `n` rules, in order. */
  function OfLength(plans: seq<Plan>, n: int): (r: seq<Plan>)
    ensures forall p :: p in r <==> p in plans && |p| == n
  {
    if plans == [] then []
    else (if |plans[0]| == n then [plans[0]] else []) + OfLength(plans[1..], n)
  }

  /** The plan `generate` takes: the only one, or else the first of the stable sort
      by descending score, which is the earliest plan of the highest score. */
  method ChoosePlan(valid: seq<Plan>) returns (k: nat)
    requires valid != []
    ensures k < |valid|
    ensures forall j :: 0 <= j < |valid| ==> PlanScore(valid[j]) <= PlanScore(valid[k])
    ensures forall j :: 0 <= j < k ==> PlanScore(valid[j]) < PlanScore(valid[k])
  {
    if |valid| == 1 {
      return 0;
    }
    var scores := ScoreAll(valid);
    k := FirstMax(scores);
  }

  /** The diversity score of every plan, in order. */
  method ScoreAll(valid: seq<Plan>) returns (scores: seq<real>)
    ensures |scores| == |valid| && forall j :: 0 <= j < |valid| ==> scores[j] == PlanScore(valid[j])
  {
    scores := [];
    for i := 0 to |valid|
      invariant |scores| == i
      invariant forall j :: 0 <= j < i ==> scores[j] == PlanScore(valid[j])
    {
      var score := ScorePlanDiversity(valid[i]);
      scores := scores + [score];
    }
  }

  /** The index of the first highest score. */
  method FirstMax(scores: seq<real>) returns (k: nat)
    requires scores != []
    ensures k < |scores|
    ensures forall j :: 0 <= j < |scores| ==> scores[j] <= scores[k]
    ensures forall j :: 0 <= j < k ==> scores[j] < scores[k]
  {
    k := 0;
    for i := 1 to |scores|
      invariant k < i
      invariant forall j :: 0 <= j < i ==> scores[j] <= scores[k]
      invariant forall j :: 0 <= j < k ==> scores[j] < scores[k]
    {
      if scores[i] > scores[k] {
        k := i;
      }
    }
  }

  // ------------------------------------------------------------------ forward execution

  /** The first state met scanning `reversed(config)` that has type `t` and is not
      among `used`. */
  function LatestUnused(config: seq<State>, t: InfoType, used: seq<State>): (r: Option<State>)
    ensures r.Some? ==> r.value in config && r.value.infoType == t && r.value !in used
  {
    if config == [] then None
    else
      var last := config[|config| - 1];
      if last.infoType == t && last !in used then Some(last) else LatestUnused(config[..|config| - 1], t, used)
  }

  /** The scan picks what the resolver's binding picks: the first unused state of
      the newest-first list of that type. */
  lemma {:induction false} LatestUnusedIsResolverChoice(config: seq<State>, t: InfoType, used: seq<State>)
    ensures LatestUnused(config, t, used) == FirstUnused(NewestOfType(config, t), used)
    decreases |config|
  {
    if config != [] {
      var n := |config| - 1;
      var last, rest := config[n], NewestOfType(config[..n], t);
      LatestUnusedIsResolverChoice(config[..n], t, used);
      NewestOfTypeSnoc(config[..n], last, t);
      assert config[..n] + [last] == config;
      if last.infoType == t {
        assert NewestOfType(config, t) == [last] + rest;
        assert ([last] + rest)[1..] == rest;
      } else {
        assert NewestOfType(config, t) == rest;
      }
    }
  }

  /** States appended after `config` that are all used do not change the scan. */
  lemma {:induction false} LatestUnusedSkips(config: seq<State>, extra: seq<State>, t: InfoType, used: seq<State>)
    requires forall k :: 0 <= k < |extra| ==> extra[k] in used
    ensures LatestUnused(config + extra, t, used) == LatestUnused(config, t, used)
    decreases |extra|
  {
    if extra == [] {
      assert config + extra == config;
    } else {
      var n := |extra| - 1;
      assert (config + extra)[..|config + extra| - 1] == config + extra[..n];
      LatestUnusedSkips(config, extra[..n], t, used);
    }
  }

  /** The scan over `reversed(configuration)` for one input slot. */
  method ScanLatest(config: seq<State>, t: InfoType, used: set<State>, ghost inputs: seq<State>)
    returns (found: Option<State>)
    requires forall x :: x in used <==> x in inputs
    ensures found == LatestUnused(config, t, inputs)
  {
    var k := |config|;
    assert config[..k] == config;
    while k > 0
      invariant 0 <= k <= |config|
      invariant LatestUnused(config, t, inputs) == LatestUnused(config[..k], t, inputs)
    {
      var s := config[k - 1];
      assert config[..k][..k - 1] == config[..k - 1];
      if s.infoType == t && s !in used {
        return Some(s);
      }
      k := k - 1;
    }
    assert config[..0] == [];
    return None;
  }

  /** How slot `m` of a binding against `config` was filled: by the scan, if it
      found a state, else by a new seed of the slot's type. */
  predicate SlotFilled(config: seq<State>, types: seq<InfoType>, inputs: seq<State>, m: nat, seeds: SeedProvider)
    requires m < |inputs| && m < |types|
  {
    match LatestUnused(config, types[m], inputs[..m])
    case Some(s) => inputs[m] == s
    case None => Offered(seeds, types[m]) && inputs[m] !in config && inputs[m].value == seeds(types[m])
  }

  /** What the input loop keeps once `inputs` are bound: each typed as its slot,
      distinct, filled as `SlotFilled` says, and every state appended after `config`
      one of them, a new seed. */
  predicate Binding(config: seq<State>, types: seq<InfoType>, inputs: seq<State>, grown: seq<State>, seeds: SeedProvider)
    reads grown
    requires |inputs| <= |types|
  {
    && (forall m :: 0 <= m < |inputs| ==> inputs[m].infoType == types[m] && inputs[m] in grown)
    && (forall i, j :: 0 <= i < j < |inputs| ==> inputs[i] != inputs[j])
    && (forall m :: 0 <= m < |inputs| ==> SlotFilled(config, types, inputs, m, seeds))
    && |grown| >= |config| && grown[..|config|] == config
    && (forall k :: |config| <= k < |grown| ==>
          && grown[k] in inputs && grown[k].sourceRule.None?
          && Offered(seeds, grown[k].infoType) && grown[k].value == seeds(grown[k].infoType))
  }

  /** The forward execution's input loop for one rule: each slot takes the newest
      unused state of its type, else a new seed appended to the configuration;
      `bound` is false when a slot finds neither. */
  method BindForward(config: seq<State>, types: seq<InfoType>, seeds: SeedProvider, ghost cells: seq<Cell>,
                     ghost plan: Plan)
    returns (inputs: seq<State>, grown: seq<State>, bound: bool)
    requires Mirrors(config, cells, plan)
    ensures BindMirror(cells, plan, types, seeds, |types|, inputs, grown, bound)
    ensures |inputs| <= |types| && (bound <==> |inputs| == |types|)
    ensures forall m :: 0 <= m < |inputs| ==> inputs[m].infoType == types[m] && inputs[m] in grown
    ensures forall i, j :: 0 <= i < j < |inputs| ==> inputs[i] != inputs[j]
    ensures forall m :: 0 <= m < |inputs| ==> SlotFilled(config, types, inputs, m, seeds)
    ensures !bound ==> LatestUnused(config, types[|inputs|], inputs).None? && !Offered(seeds, types[|inputs|])
    ensures |grown| >= |config| && grown[..|config|] == config
    ensures forall k :: |config| <= k < |grown| ==>
      && grown[k] in inputs && grown[k].sourceRule.None?
      && Offered(seeds, grown[k].infoType) && grown[k].value == seeds(grown[k].infoType)
  {
    inputs, grown, bound := [], config, true;
    var used: set<State> := {};
    assert config[..|config|] == config;
    for j := 0 to |types|
      invariant |inputs| == j
      invariant forall x :: x in used <==> x in inputs
      invariant BindState(config, types, seeds, cells, plan, inputs, grown)
    {
      var ok;
      inputs, used, grown, ok := BindStep(config, types, seeds, cells, plan, inputs, used, grown);
      if !ok {
        bound := false;
        return;
      }
    }
  }

  /** The input loop's invariant: the inputs are bound as `Binding` says and
      mirror the value-level binding of the cells. */
  predicate BindState(config: seq<State>, types: seq<InfoType>, seeds: SeedProvider, cells: seq<Cell>,
                      plan: Plan, inputs: seq<State>, grown: seq<State>)
    reads grown
    requires |inputs| <= |types|
  {
    && Binding(config, types, inputs, grown, seeds)
    && BindMirror(cells, plan, types, seeds, |inputs|, inputs, grown, true)
  }

  /** One slot of the input loop: the newest unused state of the slot's type,
      else a new seed; `ok` is false, and nothing changes, when neither exists. */
  method BindStep(config: seq<State>, types: seq<InfoType>, seeds: SeedProvider, ghost cells: seq<Cell>,
                  ghost plan: Plan, inputs: seq<State>, used: set<State>, grown: seq<State>)
    returns (inputs': seq<State>, used': set<State>, grown': seq<State>, ok: bool)
    requires |inputs| < |types| && forall x :: x in used <==> x in inputs
    requires BindState(config, types, seeds, cells, plan, inputs, grown)
    ensures ok ==> |inputs'| == |inputs| + 1 && forall x :: x in used' <==> x in inputs'
    ensures ok ==> BindState(config, types, seeds, cells, plan, inputs', grown')
    ensures !ok ==> inputs' == inputs && grown' == grown
    ensures !ok ==> LatestUnused(config, types[|inputs|], inputs).None? && !Offered(seeds, types[|inputs|])
    ensures !ok ==> BindMirror(cells, plan, types, seeds, |types|, inputs, grown, false)
  {
    inputs', used', grown', ok := inputs, used, grown, true;
    var j := |inputs|;
    var t := types[j];
    var found := ScanLatest(grown, t, used, inputs);
    assert config + grown[|config|..] == grown;
    LatestUnusedSkips(config, grown[|config|..], t, inputs);
    if found.Some? {
      BindFoundBoth(config, types, seeds, cells, plan, inputs, grown, found.value);
      inputs' := inputs + [found.value];
      used' := used + {found.value};
    } else if DynamicSeedable(t) && Truthy(seeds(t)) {
      inputs', used', grown' := BindNewSeed(config, types, seeds, cells, plan, inputs, used, grown);
    } else {
      MirrorFail(cells, plan, types, seeds, j, inputs, grown);
      ok := false;
    }
  }

  /** A slot the scan fills keeps both loop invariants. */
  lemma BindFoundBoth(config: seq<State>, types: seq<InfoType>, seeds: SeedProvider, cells: seq<Cell>,
                      plan: Plan, inputs: seq<State>, grown: seq<State>, x: State)
    requires |inputs| < |types| && BindState(config, types, seeds, cells, plan, inputs, grown)
    requires LatestUnused(grown, types[|inputs|], inputs) == Some(x)
    requires LatestUnused(config, types[|inputs|], inputs) == Some(x) && x in grown
    ensures BindState(config, types, seeds, cells, plan, inputs + [x], grown)
  {
    BindFound(config, types, inputs, grown, seeds, x);
    MirrorFound(cells, plan, types, seeds, |inputs|, inputs, grown, x);
  }

  /** A slot the scan leaves empty takes a new seed of its type, appended to the
      configuration. */
  method BindNewSeed(config: seq<State>, types: seq<InfoType>, seeds: SeedProvider, ghost cells: seq<Cell>,
                     ghost plan: Plan, inputs: seq<State>, used: set<State>, grown: seq<State>)
    returns (inputs': seq<State>, used': set<State>, grown': seq<State>)
    requires |inputs| < |types| && forall x :: x in used <==> x in inputs
    requires BindState(config, types, seeds, cells, plan, inputs, grown)
    requires LatestUnused(config, types[|inputs|], inputs).None? && LatestUnused(grown, types[|inputs|], inputs).None?
    requires Offered(seeds, types[|inputs|])
    ensures |inputs'| == |inputs| + 1 && forall x :: x in used' <==> x in inputs'
    ensures BindState(config, types, seeds, cells, plan, inputs', grown')
  {
    var t := types[|inputs|];
    var seed := new State(seeds(t), t, None, None);
    BindSeedBoth(config, types, seeds, cells, plan, inputs, grown, seed);
    grown' := grown + [seed];
    inputs' := inputs + [seed];
    used' := used + {seed};
  }

  /** A new seed for a slot the scan leaves empty keeps both loop invariants. */
  lemma BindSeedBoth(config: seq<State>, types: seq<InfoType>, seeds: SeedProvider, cells: seq<Cell>,
                     plan: Plan, inputs: seq<State>, grown: seq<State>, x: State)
    requires |inputs| < |types| && BindState(config, types, seeds, cells, plan, inputs, grown)
    requires LatestUnused(config, types[|inputs|], inputs).None? && LatestUnused(grown, types[|inputs|], inputs).None?
    requires Offered(seeds, types[|inputs|])
    requires x !in grown && x.value == seeds(types[|inputs|]) && x.infoType == types[|inputs|]
    requires x.sourceRule.None? && x.sourceInputs == []
    ensures BindState(config, types, seeds, cells, plan, inputs + [x], grown + [x])
  {
    BindSeed(config, types, inputs, grown, seeds, x);
    MirrorSeed(cells, plan, types, seeds, |inputs|, inputs, grown, x);
  }

  /** The states bound so far are the binding of the cells: `grown` mirrors its
      cells and each input is the state at its bound position. */
  predicate BindMirror(cells: seq<Cell>, plan: Plan, types: seq<InfoType>, seeds: SeedProvider, j: nat,
                       inputs: seq<State>, grown: seq<State>, bound: bool)
    reads grown
    requires j <= |types|
  {
    var b := BindCells(cells, types, seeds, j);
    && b.bound == bound && Mirrors(grown, b.cells, plan) && |inputs| == |b.inputs|
    && forall m :: 0 <= m < |inputs| ==> inputs[m] == grown[b.inputs[m]]
  }

  /** A slot the scan fills is the cell the value-level scan picks. */
  lemma MirrorFound(cells: seq<Cell>, plan: Plan, types: seq<InfoType>, seeds: SeedProvider, j: nat,
                    inputs: seq<State>, grown: seq<State>, x: State)
    requires j < |types| && BindMirror(cells, plan, types, seeds, j, inputs, grown, true)
    requires LatestUnused(grown, types[j], inputs) == Some(x)
    ensures BindMirror(cells, plan, types, seeds, j + 1, inputs + [x], grown, true)
  {
    var b := BindCells(cells, types, seeds, j);
    ScanMirrors(grown, b.cells, plan, types[j], inputs, b.inputs, |grown|);
    assert grown[..|grown|] == grown;
    var k := NewestFree(b.cells, types[j], b.inputs, |b.cells|).value;
    assert BindCells(cells, types, seeds, j + 1) == Bind(b.cells, b.inputs + [k], true);
    var longer := inputs + [x];
    forall m | 0 <= m < |longer| ensures longer[m] == grown[(b.inputs + [k])[m]] {
      if m < |inputs| {
        assert longer[m] == inputs[m];
      }
    }
  }

  /** A slot filled by a new seed is the seed cell the value-level binding appends. */
  lemma MirrorSeed(cells: seq<Cell>, plan: Plan, types: seq<InfoType>, seeds: SeedProvider, j: nat,
                   inputs: seq<State>, grown: seq<State>, x: State)
    requires j < |types| && BindMirror(cells, plan, types, seeds, j, inputs, grown, true)
    requires LatestUnused(grown, types[j], inputs).None? && Offered(seeds, types[j])
    requires x !in grown && x.value == seeds(types[j]) && x.infoType == types[j]
    requires x.sourceRule.None? && x.sourceInputs == []
    ensures BindMirror(cells, plan, types, seeds, j + 1, inputs + [x], grown + [x], true)
  {
    var b := BindCells(cells, types, seeds, j);
    ScanMirrors(grown, b.cells, plan, types[j], inputs, b.inputs, |grown|);
    assert grown[..|grown|] == grown;
    var n := |b.cells|;
    assert BindCells(cells, types, seeds, j + 1) == Bind(b.cells + [SeedCell(seeds, types[j])], b.inputs + [n], true);
    MirrorsSnoc(grown, b.cells, plan, x, SeedCell(seeds, types[j]));
    var longer, idx := inputs + [x], b.inputs + [n];
    forall m | 0 <= m < |longer| ensures longer[m] == (grown + [x])[idx[m]] {
      if m < |inputs| {
        assert longer[m] == inputs[m] && idx[m] == b.inputs[m];
      }
    }
  }

  /** A slot neither filled nor seeded fails the value-level binding too. */
  lemma MirrorFail(cells: seq<Cell>, plan: Plan, types: seq<InfoType>, seeds: SeedProvider, j: nat,
                   inputs: seq<State>, grown: seq<State>)
    requires j < |types| && BindMirror(cells, plan, types, seeds, j, inputs, grown, true)
    requires LatestUnused(grown, types[j], inputs).None? && !Offered(seeds, types[j])
    ensures BindMirror(cells, plan, types, seeds, |types|, inputs, grown, false)
  {
    var b := BindCells(cells, types, seeds, j);
    ScanMirrors(grown, b.cells, plan, types[j], inputs, b.inputs, |grown|);
    assert grown[..|grown|] == grown;
    assert BindCells(cells, types, seeds, j + 1) == Bind(b.cells, b.inputs, false);
    BindFailStays(cells, types, seeds, j + 1, |types|);
  }

  /** The states of a configuration are the cells of a run: distinct objects, each
      with its cell's value and type and the provenance its cell records. */
  predicate Mirrors(config: seq<State>, cells: seq<Cell>, plan: Plan)
    reads config
  {
    && |config| == |cells|
    && (forall i, j :: 0 <= i < j < |config| ==> config[i] != config[j])
    && (forall k :: 0 <= k < |config| ==> MirrorsCell(config, cells, plan, k))
  }

  predicate MirrorsCell(config: seq<State>, cells: seq<Cell>, plan: Plan, k: nat)
    reads config
    requires k < |config| == |cells|
  {
    && config[k].value == cells[k].value && config[k].infoType == cells[k].infoType
    && match cells[k].origin
       case Seeded => config[k].sourceRule.None? && config[k].sourceInputs == []
       case Produced(i, inputs) =>
         && i < |plan| && config[k].sourceRule == Some(plan[i]) && |config[k].sourceInputs| == |inputs|
         && forall m :: 0 <= m < |inputs| ==> inputs[m] < |config| && config[k].sourceInputs[m] == config[inputs[m]]
  }

  /** A new state appended with its cell keeps the mirror. */
  lemma MirrorsSnoc(config: seq<State>, cells: seq<Cell>, plan: Plan, x: State, c: Cell)
    requires Mirrors(config, cells, plan) && x !in config
    requires MirrorsCell(config + [x], cells + [c], plan, |config|)
    ensures Mirrors(config + [x], cells + [c], plan)
  {
    var longer, more := config + [x], cells + [c];
    forall k | 0 <= k < |config| ensures MirrorsCell(longer, more, plan, k) {
      assert MirrorsCell(config, cells, plan, k);
      assert longer[k] == config[k] && more[k] == cells[k];
      if cells[k].origin.Produced? {
        var inputs := cells[k].origin.inputs;
        forall m | 0 <= m < |inputs| ensures longer[inputs[m]] == config[inputs[m]] {
        }
      }
    }
  }

  /** The scan over the states picks the state at the position the value-level scan
      picks, when the inputs are the states at the used positions. */
  lemma {:induction false} ScanMirrors(config: seq<State>, cells: seq<Cell>, plan: Plan, t: InfoType,
                                       inputs: seq<State>, idx: seq<nat>, n: nat)
    requires Mirrors(config, cells, plan) && n <= |config|
    requires |inputs| == |idx| && forall m :: 0 <= m < |idx| ==> idx[m] < |config| && inputs[m] == config[idx[m]]
    ensures match NewestFree(cells, t, idx, n)
      case Some(k) => LatestUnused(config[..n], t, inputs) == Some(config[k])
      case None => LatestUnused(config[..n], t, inputs).None?
    decreases n
  {
    if n > 0 {
      ScanMirrors(config, cells, plan, t, inputs, idx, n - 1);
      assert config[..n][..n - 1] == config[..n - 1];
      var last := config[n - 1];
      assert config[..n][n - 1] == last;
      assert MirrorsCell(config, cells, plan, n - 1);
      if last in inputs {
        var m :| 0 <= m < |inputs| && inputs[m] == last;
        assert idx[m] == n - 1;
      }
      if n - 1 in idx {
        var m :| 0 <= m < |idx| && idx[m] == n - 1;
        assert inputs[m] == last;
      }
    }
  }

  /** The values of the states at the bound positions are the cells' values. */
  lemma ValuesMirror(config: seq<State>, cells: seq<Cell>, plan: Plan, inputs: seq<State>, idx: seq<nat>)
    requires Mirrors(config, cells, plan)
    requires |inputs| == |idx| && forall m :: 0 <= m < |idx| ==> idx[m] < |config| && inputs[m] == config[idx[m]]
    ensures Values(inputs) == CellValues(cells, idx)
  {
    forall m | 0 <= m < |idx| ensures Values(inputs)[m] == CellValues(cells, idx)[m] {
      assert MirrorsCell(config, cells, plan, idx[m]);
    }
  }

  /** A slot filled by the scan keeps the binding. */
  lemma BindFound(config: seq<State>, types: seq<InfoType>, inputs: seq<State>, grown: seq<State>,
                  seeds: SeedProvider, x: State)
    requires |inputs| < |types| && Binding(config, types, inputs, grown, seeds)
    requires LatestUnused(config, types[|inputs|], inputs) == Some(x) && x in grown
    ensures Binding(config, types, inputs + [x], grown, seeds)
  {
    AppendSlot(config, types, inputs, x, seeds);
    var m := |inputs|;
    assert (inputs + [x])[..m] == inputs;
  }

  /** A slot filled by a new seed keeps the binding, with the seed appended. */
  lemma BindSeed(config: seq<State>, types: seq<InfoType>, inputs: seq<State>, grown: seq<State>,
                 seeds: SeedProvider, x: State)
    requires |inputs| < |types| && Binding(config, types, inputs, grown, seeds)
    requires LatestUnused(config, types[|inputs|], inputs).None? && Offered(seeds, types[|inputs|])
    requires x !in grown && x.infoType == types[|inputs|] && x.value == seeds(x.infoType) && x.sourceRule.None?
    ensures Binding(config, types, inputs + [x], grown + [x], seeds)
  {
    AppendSlot(config, types, inputs, x, seeds);
    var m := |inputs|;
    assert (inputs + [x])[..m] == inputs;
    assert (grown + [x])[..|config|] == config;
    assert x !in config by {
      assert forall y :: y in config ==> y in grown;
    }
  }

  /** Earlier slots keep how they were filled when one more input is appended. */
  lemma AppendSlot(config: seq<State>, types: seq<InfoType>, inputs: seq<State>, x: State, seeds: SeedProvider)
    requires |inputs| < |types|
    requires forall m :: 0 <= m < |inputs| ==> SlotFilled(config, types, inputs, m, seeds)
    ensures forall m :: 0 <= m < |inputs| ==> SlotFilled(config, types, inputs + [x], m, seeds)
  {
    forall m | 0 <= m < |inputs| ensures SlotFilled(config, types, inputs + [x], m, seeds) {
      assert SlotFilled(config, types, inputs, m, seeds);
      assert (inputs + [x])[..m] == inputs[..m] && (inputs + [x])[m] == inputs[m];
    }
  }

  /** What a state of the forward execution is: a seed made on the fly, or the
      output of a rule of the plan, typed as promised unless a search, with one
      input per slot of the slot's type. */
  predicate Stamped(s: State, plan: Plan)
    reads s
  {
    match s.sourceRule
    case None => DynamicSeedable(s.infoType) && Truthy(s.value)
    case Some(rule) =>
      && rule in plan
      && (s.infoType == rule.outputType || rule.operator == Search)
      && |s.sourceInputs| == |rule.inputTypes|
      && forall j :: 0 <= j < |rule.inputTypes| ==> s.sourceInputs[j].infoType == rule.inputTypes[j]
  }

  /** The forward execution: each rule of the plan in turn binds its inputs, runs
      (the executor's call index is the step), and must yield a state typed as
      planned unless a search; any failure stops with fewer rules applied. The
      configuration reached is the value-level run's, state for cell. */
  method ExecutePlan(plan: Plan, seed: State, exec: Executor, seeds: SeedProvider)
    returns (config: seq<State>, applied: seq<Rule>, ok: bool)
    requires seed.sourceRule.None? && seed.sourceInputs == []
    ensures |config| >= |applied| + 1 && config[0] == seed
    ensures |applied| <= |plan| && applied == plan[..|applied|]
    ensures ok <==> |applied| == |plan|
    ensures forall k :: 1 <= k < |config| ==> Stamped(config[k], plan)
    ensures var r := ForwardRun(plan, exec, seeds, Cell(seed.value, seed.infoType, Seeded));
      ok == r.ok && |applied| == r.applied && Mirrors(config, r.cells, plan)
  {
    config, applied, ok := [seed], [], true;
    ghost var start := [Cell(seed.value, seed.infoType, Seeded)];
    assert MirrorsCell(config, start, plan, 0);
    var i := 0;
    while i < |plan|
      invariant 0 <= i <= |plan| && applied == plan[..i]
      invariant |config| >= |applied| + 1 && config[0] == seed
      invariant forall k :: 1 <= k < |config| ==> Stamped(config[k], plan)
      invariant RunSteps(plan, exec, seeds, start, i).ok
      invariant Mirrors(config, RunSteps(plan, exec, seeds, start, i).cells, plan)
    {
      ghost var before := RunSteps(plan, exec, seeds, start, i);
      var stepOk;
      config, stepOk := ExecuteStep(plan, i, config, exec, seeds, before.cells);
      assert RunSteps(plan, exec, seeds, start, i + 1) == StepRun(plan, exec, seeds, before.cells, i);
      if !stepOk {
        FailureStays(plan, exec, seeds, start, i + 1, |plan|);
        ok := false;
        break;
      }
      TakeOneMore(plan, i);
      applied := applied + [plan[i]];
      i := i + 1;
    }
  }

  lemma TakeOneMore(plan: Plan, i: nat)
    requires i < |plan|
    ensures plan[..i + 1] == plan[..i] + [plan[i]]
  {
  }

  /** Step `i` of the forward execution: the configuration it reaches mirrors the
      value-level step's, and it succeeds exactly when that step does. */
  method ExecuteStep(plan: Plan, i: nat, config: seq<State>, exec: Executor, seeds: SeedProvider,
                     ghost cells: seq<Cell>)
    returns (config': seq<State>, stepOk: bool)
    requires i < |plan| && Mirrors(config, cells, plan)
    requires forall k :: 1 <= k < |config| ==> Stamped(config[k], plan)
    ensures var r := StepRun(plan, exec, seeds, cells, i); stepOk == r.ok && Mirrors(config', r.cells, plan)
    ensures |config'| >= |config| && config'[..|config|] == config
    ensures stepOk ==> |config'| > |config|
    ensures forall k :: 1 <= k < |config'| ==> Stamped(config'[k], plan)
  {
    var rule := plan[i];
    var inputs, grown, bound := BindForward(config, rule.inputTypes, seeds, cells, plan);
    StampedGrown(config, grown, plan, seeds);
    if !bound {
      return grown, false;
    }
    ghost var b := BindCells(cells, rule.inputTypes, seeds, |rule.inputTypes|);
    config', stepOk := ApplyRule(plan, i, grown, inputs, exec, b.cells, b.inputs);
    StepBound(plan, exec, seeds, cells, i);
    assert config'[..|config|] == config'[..|grown|][..|config|];
  }

  /** The seeds a binding appends are stamped. */
  lemma StampedGrown(config: seq<State>, grown: seq<State>, plan: Plan, seeds: SeedProvider)
    requires forall k :: 1 <= k < |config| ==> Stamped(config[k], plan)
    requires |grown| >= |config| && grown[..|config|] == config
    requires forall k :: |config| <= k < |grown| ==>
      grown[k].sourceRule.None? && Offered(seeds, grown[k].infoType) && grown[k].value == seeds(grown[k].infoType)
    ensures forall k :: 1 <= k < |grown| ==> Stamped(grown[k], plan)
  {
    forall k | 1 <= k < |grown| ensures Stamped(grown[k], plan) {
      if k < |config| {
        assert grown[k] == config[k];
      }
    }
  }

  /** Runs the rule of step `i` on the states at positions `idx` of the cells
      `grown` mirrors, and appends its output when it is typed as planned or the
      rule is a search. */
  method ApplyRule(plan: Plan, i: nat, grown: seq<State>, inputs: seq<State>, exec: Executor,
                   ghost cells: seq<Cell>, ghost idx: seq<nat>)
    returns (config': seq<State>, stepOk: bool)
    requires i < |plan| && Mirrors(grown, cells, plan)
    requires |inputs| == |idx| && forall m :: 0 <= m < |idx| ==> idx[m] < |grown| && inputs[m] == grown[idx[m]]
    requires |inputs| == |plan[i].inputTypes| && forall m :: 0 <= m < |inputs| ==> inputs[m].infoType == plan[i].inputTypes[m]
    requires forall k :: 1 <= k < |grown| ==> Stamped(grown[k], plan)
    ensures var out := exec(i, plan[i], CellValues(cells, idx));
      stepOk <==> out.Some? && (out.value.infoType == plan[i].outputType || plan[i].operator == Search)
    ensures stepOk ==> Mirrors(config', cells + [OutputCell(exec(i, plan[i], CellValues(cells, idx)).value, i, idx)], plan)
    ensures !stepOk ==> config' == grown
    ensures |config'| >= |grown| && config'[..|grown|] == grown
    ensures forall k :: 1 <= k < |config'| ==> Stamped(config'[k], plan)
  {
    var rule := plan[i];
    config', stepOk := grown, false;
    ValuesMirror(grown, cells, plan, inputs, idx);
    var s := ExecuteRule(exec, i, rule, inputs);
    if s == null || !(s.infoType == rule.outputType || rule.operator == Search) {
      return;
    }
    assert s !in config';
    if s !in config' {
      config' := config' + [s];
    }
    stepOk := true;
    OutputMirrors(grown, cells, plan, i, s, idx, inputs);
    StampedOutput(grown, plan, i, s, inputs);
    assert config'[..|grown|] == grown;
  }

  /** The output of a rule of the plan, appended, is stamped. */
  lemma StampedOutput(grown: seq<State>, plan: Plan, i: nat, s: State, inputs: seq<State>)
    requires i < |plan| && forall k :: 1 <= k < |grown| ==> Stamped(grown[k], plan)
    requires |inputs| == |plan[i].inputTypes| && forall m :: 0 <= m < |inputs| ==> inputs[m].infoType == plan[i].inputTypes[m]
    requires s.sourceRule == Some(plan[i]) && s.sourceInputs == inputs
    requires s.infoType == plan[i].outputType || plan[i].operator == Search
    ensures forall k :: 1 <= k < |grown + [s]| ==> Stamped((grown + [s])[k], plan)
  {
    forall k | 1 <= k < |grown + [s]| ensures Stamped((grown + [s])[k], plan) {
      if k < |grown| {
        assert (grown + [s])[k] == grown[k];
      }
    }
  }

  /** The output state of step `i`, appended, is the output cell the value-level
      step appends. */
  lemma OutputMirrors(grown: seq<State>, cells: seq<Cell>, plan: Plan, i: nat, s: State, idx: seq<nat>,
                      inputs: seq<State>)
    requires i < |plan| && Mirrors(grown, cells, plan) && s !in grown
    requires |inputs| == |idx| && forall m :: 0 <= m < |idx| ==> idx[m] < |grown| && inputs[m] == grown[idx[m]]
    requires s.sourceRule == Some(plan[i]) && s.sourceInputs == inputs
    ensures Mirrors(grown + [s], cells + [Cell(s.value, s.infoType, Produced(i, idx))], plan)
  {
    var c := Cell(s.value, s.infoType, Produced(i, idx));
    assert MirrorsCell(grown + [s], cells + [c], plan, |grown|);
    MirrorsSnoc(grown, cells, plan, s, c);
  }

  // ------------------------------------------------------------------ generate

  /** What `generate` ends with: no question (None), the IndexError it raises on a
      chosen empty plan, or a question. */
  datatype BackwardResult = NoQuestion | Raised | Question(t: Trajectory)

  /** The first half of `BackwardChainingGenerator.generate`: plans of depth
      `max_hops` (limit 20, the shuffles drawing from `rand` from its start), the
      exact-length ones and the chosen one. */
  method SelectPlan(rules: seq<Rule>, target: InfoType, maxHops: int, rand: nat -> nat)
    returns (chosen: Option<Plan>, ghost plans: seq<Plan>)
    ensures Searched(rules, target, maxHops, None, 20, plans)
    ensures chosen.None? <==> OfLength(plans, maxHops) == []
    ensures chosen.Some? ==> FirstBest(OfLength(plans, maxHops), chosen.value)
    ensures chosen == Some([]) <==> maxHops == 0 && IsSeedable(target)
    ensures maxHops < 0 ==> chosen.None?
    ensures chosen.Some? ==> |chosen.value| == maxHops
    ensures chosen.Some? && maxHops >= 1 ==> SoundPlan(rules, target, None, chosen.value)
  {
    var allPlans, drawsUsed := FindAllBackwardPlans(rules, target, maxHops, None, 20, rand, 0);
    plans := allPlans;
    var valid := OfLength(allPlans, maxHops);
    if valid == [] {
      return None, plans;
    }
    var k := ChoosePlan(valid);
    assert valid[k] in allPlans && |valid[k]| == maxHops;
    if maxHops == 0 {
      assert allPlans == [[]];
    }
    return Some(valid[k]), plans;
  }

  /** `p` is the earliest plan of the highest score among `valid`, the one the
      stable sort by descending score puts first. */
  predicate FirstBest(valid: seq<Plan>, p: Plan)
  {
    exists k :: 0 <= k < |valid| && valid[k] == p
      && (forall j :: 0 <= j < |valid| ==> PlanScore(valid[j]) <= PlanScore(p))
      && (forall j :: 0 <= j < k ==> PlanScore(valid[j]) < PlanScore(p))
  }

  /** What a question from `plan` is: the plan applied in full by the forward
      execution from a seed of its first rule's first input type taken from
      `seeds`, the configuration being that run's, state for cell, every later
      state stamped by a rule of the plan, and the formatter's text. */
  predicate Realizes(t: Trajectory, plan: Plan, exec: Executor, seeds: SeedProvider, render: Render)
    reads t.config
  {
    && t.applied == plan
    && |t.config| >= |plan| + 1
    && plan != [] && plan[0].inputTypes != [] && t.config[0].infoType == plan[0].inputTypes[0]
    && t.config[0].value == seeds(t.config[0].infoType) != NoneValue
    && t.config[0].sourceRule.None?
    && Runs(plan, exec, seeds)
    && Mirrors(t.config, ForwardRun(plan, exec, seeds, SeedCell(seeds, plan[0].inputTypes[0])).cells, plan)
    && (forall k :: 1 <= k < |t.config| ==> Stamped(t.config[k], plan))
    && t.question == FormatSpec(t.config[0], plan, t.config, render)
  }

  /** The second half of `BackwardChainingGenerator.generate`: the chosen plan's
      seed, its forward execution and the question. */
  method RunPlan(plan: Plan, exec: Executor, seeds: SeedProvider, render: Render)
    returns (result: BackwardResult)
    requires plan != []
    ensures !result.Raised?
    ensures result.Question? <==> Runs(plan, exec, seeds)
    ensures result.Question? ==> Realizes(result.t, plan, exec, seeds, render)
  {
    if plan[0].inputTypes == [] {
      return NoQuestion;
    }
    var seedType := plan[0].inputTypes[0];
    var seedValue := seeds(seedType);
    if seedValue == NoneValue {
      return NoQuestion;
    }
    var seed := new State(seedValue, seedType, None, None);
    result := RunFrom(seed, plan, exec, seeds, render);
  }

  /** Executes the plan from the seed and formats the configuration reached. */
  method RunFrom(seed: State, plan: Plan, exec: Executor, seeds: SeedProvider, render: Render)
    returns (result: BackwardResult)
    requires plan != [] && plan[0].inputTypes != [] && seed.infoType == plan[0].inputTypes[0]
    requires seed.value == seeds(seed.infoType) != NoneValue && seed.sourceRule.None? && seed.sourceInputs == []
    ensures !result.Raised?
    ensures result.Question? <==> Runs(plan, exec, seeds)
    ensures result.Question? ==> Realizes(result.t, plan, exec, seeds, render)
  {
    var config, applied, ok := ExecutePlan(plan, seed, exec, seeds);
    assert Cell(seed.value, seed.infoType, Seeded) == SeedCell(seeds, plan[0].inputTypes[0]);
    if !ok {
      return NoQuestion;
    }
    assert applied == plan && |config| >= |plan| + 1 && config[0] == seed;
    var t := Finish(seed, config, plan, exec, seeds, render);
    result := Question(t);
  }

  /** Formats the configuration the plan reached into its trajectory. */
  method Finish(seed: State, config: seq<State>, plan: Plan, exec: Executor, seeds: SeedProvider, render: Render)
    returns (t: Trajectory)
    requires |config| >= |plan| + 1 && config[0] == seed
    requires plan != [] && plan[0].inputTypes != [] && seed.infoType == plan[0].inputTypes[0]
    requires seed.value == seeds(seed.infoType) != NoneValue && seed.sourceRule.None?
    requires Runs(plan, exec, seeds)
    requires Mirrors(config, ForwardRun(plan, exec, seeds, SeedCell(seeds, plan[0].inputTypes[0])).cells, plan)
    requires forall k :: 1 <= k < |config| ==> Stamped(config[k], plan)
    ensures Realizes(t, plan, exec, seeds, render)
  {
    RealizesIntro(seed, config, plan, exec, seeds, render);
    var question := FormatQuestion(seed, plan, config, render);
    t := Trajectory(question, plan, config);
  }

  lemma RealizesIntro(seed: State, config: seq<State>, plan: Plan, exec: Executor, seeds: SeedProvider, render: Render)
    requires |config| >= |plan| + 1 && config[0] == seed
    requires plan != [] && plan[0].inputTypes != [] && seed.infoType == plan[0].inputTypes[0]
    requires seed.value == seeds(seed.infoType) != NoneValue && seed.sourceRule.None?
    requires Runs(plan, exec, seeds)
    requires Mirrors(config, ForwardRun(plan, exec, seeds, SeedCell(seeds, plan[0].inputTypes[0])).cells, plan)
    requires forall k :: 1 <= k < |config| ==> Stamped(config[k], plan)
    ensures Realizes(Trajectory(FormatSpec(seed, plan, config, render), plan, config), plan, exec, seeds, render)
  {
  }

  /** `BackwardChainingGenerator.generate`: no question when no plan of exactly
      `max_hops` rules is found, the IndexError on a chosen empty plan, and
      otherwise a question exactly when the chosen plan runs. */
  method Generate(rules: seq<Rule>, target: InfoType, maxHops: int, rand: nat -> nat, exec: Executor,
                  seeds: SeedProvider, render: Render)
    returns (result: BackwardResult, ghost chosen: Option<Plan>, ghost plans: seq<Plan>)
    ensures Searched(rules, target, maxHops, None, 20, plans)
    ensures chosen.None? <==> OfLength(plans, maxHops) == []
    ensures chosen.Some? ==> FirstBest(OfLength(plans, maxHops), chosen.value)
    ensures result.Raised? <==> chosen == Some([])
    ensures result.Question? <==> chosen.Some? && Runs(chosen.value, exec, seeds)
    ensures result.Raised? <==> maxHops == 0 && IsSeedable(target)
    ensures maxHops < 0 ==> result.NoQuestion?
    ensures result.Question? ==>
      && maxHops >= 1 && |result.t.applied| == maxHops && chosen == Some(result.t.applied)
      && SoundPlan(rules, target, None, result.t.applied)
      && Realizes(result.t, result.t.applied, exec, seeds, render)
  {
    var picked;
    picked, plans := SelectPlan(rules, target, maxHops, rand);
    chosen := picked;
    if picked.None? {
      return NoQuestion, chosen, plans;
    }
    if picked.value == [] {
      return Raised, chosen, plans;
    }
    result := RunPlan(picked.value, exec, seeds, render);
  }
}

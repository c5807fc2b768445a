/** The pure parts of the backward-chaining planner: which rules produce a type,
    which types can seed a run, how sub-plans are combined into one plan, the
    Cartesian product of sub-plan choices, the shuffle of the producer list and
    the diversity score of a plan. */
module BackwardPlans {
  import opened Strings
  import opened Types
  import opened Rules

  /** A plan: rules in execution order. */
  type Plan = seq<Rule>

  // ------------------------------------------------------------------ producers

  /** `_find_rules_producing`: the rules that output `t`, in catalog order. */
  function RulesProducing(rules: seq<Rule>, t: InfoType): (r: seq<Rule>)
    ensures forall x :: x in r <==> x in rules && x.outputType == t
    ensures |r| <= |rules|
  {
    if rules == [] then []
    else (if rules[0].outputType == t then [rules[0]] else []) + RulesProducing(rules[1..], t)
  }

  /** The rules of `rs` whose operator is not `op`, in order. */
  function WithoutOperator(rs: seq<Rule>, op: OperatorType): (r: seq<Rule>)
    ensures forall x :: x in r <==> x in rs && x.operator != op
  {
    if rs == [] then []
    else (if rs[0].operator != op then [rs[0]] else []) + WithoutOperator(rs[1..], op)
  }

  /** The producers the search tries for `target` below a rule with operator `parent`:
      those with another operator, unless that leaves none. */
  function Producers(rules: seq<Rule>, target: InfoType, parent: Option<OperatorType>): (r: seq<Rule>)
    ensures forall x :: x in r ==> x in rules && x.outputType == target
    ensures r == [] <==> RulesProducing(rules, target) == []
    ensures parent.Some? && (exists x :: x in RulesProducing(rules, target) && x.operator != parent.value) ==>
      forall x :: x in r <==> x in RulesProducing(rules, target) && x.operator != parent.value
    ensures parent.None? || (forall x :: x in RulesProducing(rules, target) ==> x.operator == parent.value) ==>
      r == RulesProducing(rules, target)
  {
    var producing := RulesProducing(rules, target);
    if parent.Some? && WithoutOperator(producing, parent.value) != [] then
      assert WithoutOperator(producing, parent.value)[0] in producing;
      WithoutOperator(producing, parent.value)
    else
      producing
  }

  /** No producer is a rule without inputs. */
  predicate NoZeroInput(rs: seq<Rule>)
  {
    forall x :: x in rs ==> x.inputTypes != []
  }

  /** In the catalog every rule has an input, so no producer list has a rule without one. */
  lemma CatalogProducersHaveInputs(target: InfoType, parent: Option<OperatorType>)
    ensures NoZeroInput(Producers(RULES_DB, target, parent))
  {
    forall x | x in Producers(RULES_DB, target, parent) ensures x.inputTypes != [] {
      CatalogMember(x);
    }
  }


  /** The only producers of CITY_NAME below a search are the two searches that
      produce it: no other operator produces a city, so the filter keeps both. */
  lemma CityProducersBelowSearch()
    ensures forall x :: x in Producers(RULES_DB, CityName, Some(Search)) <==> x == RULES_DB[5] || x == RULES_DB[9]
  {
    CityProducers();
    CityProducerRules();
    var producing := RulesProducing(RULES_DB, CityName);
    forall x | x in producing ensures x.operator == Search {
      assert x == RULES_DB[5] || x == RULES_DB[9];
    }
  }


  // ------------------------------------------------------------------ seeds

  /** The types `_is_seedable_type` accepts, in the order listed. */
  const SeedableTypes: seq<InfoType> :=
    [PersonName, LocationName, ArtworkName, CountryName, CityName, EventName, TableData, TextSnippet]

  /** `_is_seedable_type` */
  predicate IsSeedable(t: InfoType)
  {
    t in SeedableTypes
  }

  /** Eight distinct seedable types; the ten others are exactly the derived ones. */
  lemma SeedableExactly()
    ensures |SeedableTypes| == 8
    ensures forall i, j :: 0 <= i < j < |SeedableTypes| ==> SeedableTypes[i] != SeedableTypes[j]
    ensures forall t :: !IsSeedable(t) <==>
      t in {Date, NumericalValue, OrganizationName, Concept, Url, CodeOutput, Duration, CurrencyValue, Boolean, Other}
  {
    forall t: InfoType
      ensures !IsSeedable(t) <==>
        t in {Date, NumericalValue, OrganizationName, Concept, Url, CodeOutput, Duration, CurrencyValue, Boolean, Other}
    {
      match t
      case PersonName => assert SeedableTypes[0] == t;
      case LocationName => assert SeedableTypes[1] == t;
      case ArtworkName => assert SeedableTypes[2] == t;
      case CountryName => assert SeedableTypes[3] == t;
      case CityName => assert SeedableTypes[4] == t;
      case EventName => assert SeedableTypes[5] == t;
      case TableData => assert SeedableTypes[6] == t;
      case TextSnippet => assert SeedableTypes[7] == t;
      case _ =>
    }
  }

  /** The types the forward execution may seed on the fly: seedable, but not a
      table or a text. */
  predicate DynamicSeedable(t: InfoType)
  {
    IsSeedable(t) && t != TableData && t != TextSnippet
  }

  /** On-the-fly seeds are exactly the six simple name types. */
  lemma DynamicSeedableExactly()
    ensures forall t :: DynamicSeedable(t) <==>
      t in {PersonName, LocationName, ArtworkName, CountryName, CityName, EventName}
  {
  }

  // ------------------------------------------------------------------ combining sub-plans

  predicate DuplicateFree(p: Plan)
  {
    forall i, j :: 0 <= i < j < |p| ==> p[i] != p[j]
  }

  /** Every rule of `p` is one of `rules`. */
  predicate Uses(p: Plan, rules: seq<Rule>)
  {
    forall j :: 0 <= j < |p| ==> p[j] in rules
  }

  /** Every plan of `plans` uses only `rules`. */
  predicate AllUse(plans: seq<Plan>, rules: seq<Rule>)
  {
    forall i :: 0 <= i < |plans| ==> Uses(plans[i], rules)
  }

  /** The sub-plans one after the other. */
  function Flatten(plans: seq<Plan>): Plan
  {
    if plans == [] then [] else Flatten(plans[..|plans| - 1]) + plans[|plans| - 1]
  }

  /** A rule of the flattened sub-plans lies in one of them. */
  lemma {:induction false} FlattenMember(plans: seq<Plan>, x: Rule) returns (i: nat)
    requires x in Flatten(plans)
    ensures i < |plans| && x in plans[i]
    decreases |plans|
  {
    var n := |plans| - 1;
    if x in plans[n] {
      i := n;
    } else {
      i := FlattenMember(plans[..n], x);
    }
  }

  /** The rules of `xs` in first-seen order, each once (the `seen_rule_ids` merge). */
  function Dedup(xs: Plan): (r: Plan)
    ensures forall x :: x in r <==> x in xs
    ensures DuplicateFree(r)
  {
    if xs == [] then []
    else
      var n := |xs| - 1;
      assert xs == xs[..n] + [xs[n]];
      var p := Dedup(xs[..n]);
      if xs[n] in p then p else p + [xs[n]]
  }

  /** A list without repeats is its own merge. */
  lemma {:induction false} DedupOfDuplicateFree(xs: Plan)
    requires DuplicateFree(xs)
    ensures Dedup(xs) == xs
    decreases |xs|
  {
    if xs != [] {
      var n := |xs| - 1;
      assert DuplicateFree(xs[..n]);
      DedupOfDuplicateFree(xs[..n]);
      assert xs[n] !in xs[..n];
      assert xs == xs[..n] + [xs[n]];
    }
  }

  /** Rules seen earlier keep their places: the merge of a prefix is a prefix of
      the merge. */
  lemma {:induction false} DedupPrefix(xs: Plan, ys: Plan)
    ensures Dedup(xs) <= Dedup(xs + ys)
    decreases |ys|
  {
    if ys != [] {
      var n := |ys| - 1;
      DedupPrefix(xs, ys[..n]);
      assert (xs + ys)[..|xs + ys| - 1] == xs + ys[..n];
    } else {
      assert xs + ys == xs;
    }
  }

  /** One combination's plan: the sub-plans merged in first-seen order, then the
      producing rule unless a sub-plan already holds it. */
  function Merged(combo: seq<Plan>, rule: Rule): (plan: Plan)
    ensures DuplicateFree(plan) && rule in plan
    ensures forall x :: x in plan <==> x == rule || x in Flatten(combo)
    ensures rule !in Flatten(combo) ==> plan[|plan| - 1] == rule
    ensures Dedup(Flatten(combo)) <= plan
  {
    var d := Dedup(Flatten(combo));
    if rule in d then d else d + [rule]
  }

  /** A combination of sub-plans over `rules`, with a producer from `rules`, merges
      into a plan over `rules`. */
  lemma MergedUses(combo: seq<Plan>, rule: Rule, perInput: seq<seq<Plan>>, rules: seq<Rule>)
    requires |combo| == |perInput|
    requires forall i :: 0 <= i < |combo| ==> combo[i] in perInput[i] && AllUse(perInput[i], rules)
    requires rule in rules
    ensures Uses(Merged(combo, rule), rules)
  {
    var plan := Merged(combo, rule);
    forall j | 0 <= j < |plan| ensures plan[j] in rules {
      if plan[j] != rule {
        var i := FlattenMember(combo, plan[j]);
        var k :| 0 <= k < |perInput[i]| && perInput[i][k] == combo[i];
        assert Uses(perInput[i][k], rules);
        var m :| 0 <= m < |combo[i]| && combo[i][m] == plan[j];
      }
    }
  }

  /** The body of the merge loop: each sub-plan rule not yet seen is appended, then
      the producing rule unless seen. */
  method CombinePlan(combo: seq<Plan>, rule: Rule) returns (plan: Plan)
    ensures plan == Merged(combo, rule)
  {
    plan := [];
    var seen: set<Rule> := {};
    for i := 0 to |combo|
      invariant plan == Dedup(Flatten(combo[..i]))
      invariant forall x :: x in seen <==> x in plan
    {
      assert combo[..i + 1][..i] == combo[..i];
      plan, seen := MergeInto(plan, seen, Flatten(combo[..i]), combo[i]);
    }
    assert combo[..|combo|] == combo;
    if rule !in seen {
      plan := plan + [rule];
    }
  }

  /** One more rule: appended to the merge unless it is already there. */
  lemma DedupSnoc(xs: Plan, x: Rule)
    ensures Dedup(xs + [x]) == if x in Dedup(xs) then Dedup(xs) else Dedup(xs) + [x]
  {
    var ys := xs + [x];
    assert ys[..|ys| - 1] == xs && ys[|ys| - 1] == x;
  }

  /** The inner merge loop: appends the rules of `inputPlan` not yet seen. */
  method MergeInto(plan: Plan, seen: set<Rule>, ghost xs: Plan, inputPlan: Plan) returns (plan': Plan, seen': set<Rule>)
    requires plan == Dedup(xs) && forall x :: x in seen <==> x in plan
    ensures plan' == Dedup(xs + inputPlan) && forall x :: x in seen' <==> x in plan'
  {
    plan', seen' := plan, seen;
    assert xs + inputPlan[..0] == xs;
    for j := 0 to |inputPlan|
      invariant plan' == Dedup(xs + inputPlan[..j])
      invariant forall x :: x in seen' <==> x in plan'
    {
      DedupSnoc(xs + inputPlan[..j], inputPlan[j]);
      assert xs + inputPlan[..j + 1] == (xs + inputPlan[..j]) + [inputPlan[j]];
      if inputPlan[j] !in seen' {
        plan' := plan' + [inputPlan[j]];
        seen' := seen' + {inputPlan[j]};
      }
    }
    assert inputPlan[..|inputPlan|] == inputPlan;
  }

  // ------------------------------------------------------------------ product

  /** `p` extended by each entry of `last`, in order. */
  function Snoc(p: seq<Plan>, last: seq<Plan>): seq<seq<Plan>>
  {
    if last == [] then [] else [p + [last[0]]] + Snoc(p, last[1..])
  }

  /** Each prefix extended by each entry of `last`: prefixes in order, `last` fastest. */
  function WithEach(prefixes: seq<seq<Plan>>, last: seq<Plan>): seq<seq<Plan>>
  {
    if prefixes == [] then [] else Snoc(prefixes[0], last) + WithEach(prefixes[1..], last)
  }

  /** `itertools.product`: every way of taking one sub-plan per input, the last
      input varying fastest. */
  function Product(lists: seq<seq<Plan>>): seq<seq<Plan>>
  {
    if lists == [] then [[]] else WithEach(Product(lists[..|lists| - 1]), lists[|lists| - 1])
  }

  lemma {:induction false} SnocEntry(p: seq<Plan>, last: seq<Plan>, k: nat)
    ensures |Snoc(p, last)| == |last|
    ensures k < |last| ==> Snoc(p, last)[k] == p + [last[k]]
    decreases |last|
  {
    if last != [] {
      SnocEntry(p, last[1..], if k == 0 then 0 else k - 1);
    }
  }

  lemma {:induction false} WithEachEntry(prefixes: seq<seq<Plan>>, last: seq<Plan>, k: nat) returns (a: nat, b: nat)
    requires k < |WithEach(prefixes, last)|
    ensures a < |prefixes| && b < |last| && WithEach(prefixes, last)[k] == prefixes[a] + [last[b]]
    decreases |prefixes|
  {
    SnocEntry(prefixes[0], last, k);
    if k < |last| {
      a, b := 0, k;
    } else {
      a, b := WithEachEntry(prefixes[1..], last, k - |last|);
      a := a + 1;
    }
  }

  /** Every combination takes, for each input, one of that input's sub-plans. */
  lemma {:induction false} ProductEntry(lists: seq<seq<Plan>>, k: nat)
    requires k < |Product(lists)|
    ensures |Product(lists)[k]| == |lists|
    ensures forall i :: 0 <= i < |lists| ==> Product(lists)[k][i] in lists[i]
    decreases |lists|
  {
    if lists != [] {
      var n := |lists| - 1;
      var a, b := WithEachEntry(Product(lists[..n]), lists[n], k);
      ProductEntry(lists[..n], a);
    }
  }

  /** The number of combinations is the product of the list lengths. */
  function ProductSize(lists: seq<seq<Plan>>): nat
  {
    if lists == [] then 1 else ProductSize(lists[..|lists| - 1]) * |lists[|lists| - 1]|
  }

  lemma {:induction false} WithEachCount(prefixes: seq<seq<Plan>>, last: seq<Plan>)
    ensures |WithEach(prefixes, last)| == |prefixes| * |last|
    decreases |prefixes|
  {
    if prefixes != [] {
      SnocEntry(prefixes[0], last, 0);
      WithEachCount(prefixes[1..], last);
      assert |prefixes| * |last| == |last| + (|prefixes| - 1) * |last|;
    }
  }

  lemma {:induction false} ProductCount(lists: seq<seq<Plan>>)
    ensures |Product(lists)| == ProductSize(lists)
    decreases |lists|
  {
    if lists != [] {
      ProductCount(lists[..|lists| - 1]);
      WithEachCount(Product(lists[..|lists| - 1]), lists[|lists| - 1]);
    }
  }

  /** Every choice of one entry per list is a combination. */
  lemma {:induction false} ProductComplete(lists: seq<seq<Plan>>, c: seq<Plan>) returns (k: nat)
    requires |c| == |lists| && forall i :: 0 <= i < |lists| ==> c[i] in lists[i]
    ensures k < |Product(lists)| && Product(lists)[k] == c
    decreases |lists|
  {
    if lists == [] {
      k := 0;
    } else {
      var n := |lists| - 1;
      var a := ProductComplete(lists[..n], c[..n]);
      var b :| 0 <= b < |lists[n]| && lists[n][b] == c[n];
      k := WithEachComplete(Product(lists[..n]), lists[n], a, b);
      assert c[..n] + [c[n]] == c;
    }
  }

  lemma {:induction false} WithEachComplete(prefixes: seq<seq<Plan>>, last: seq<Plan>, a: nat, b: nat) returns (k: nat)
    requires a < |prefixes| && b < |last|
    ensures k < |WithEach(prefixes, last)| && WithEach(prefixes, last)[k] == prefixes[a] + [last[b]]
    decreases |prefixes|
  {
    SnocEntry(prefixes[0], last, b);
    if a == 0 {
      k := b;
    } else {
      k := WithEachComplete(prefixes[1..], last, a - 1, b);
      k := k + |last|;
    }
  }

  /** Every list without an empty entry has at least one combination. */
  lemma {:induction false} ProductSizePositive(lists: seq<seq<Plan>>)
    requires forall i :: 0 <= i < |lists| ==> lists[i] != []
    ensures ProductSize(lists) >= 1
    decreases |lists|
  {
    if lists != [] {
      var n := |lists| - 1;
      ProductSizePositive(lists[..n]);
      MulAtLeast(ProductSize(lists[..n]), |lists[n]|);
    }
  }

  /** With no empty list, each list is at most as long as the product is large. */
  lemma {:induction false} ListWithinProduct(lists: seq<seq<Plan>>, i: nat)
    requires i < |lists| && forall j :: 0 <= j < |lists| ==> lists[j] != []
    ensures |lists[i]| <= ProductSize(lists)
    decreases |lists|
  {
    var n := |lists| - 1;
    ProductSizePositive(lists[..n]);
    if i == n {
      MulAtLeast(|lists[n]|, ProductSize(lists[..n]));
    } else {
      ListWithinProduct(lists[..n], i);
      MulAtLeast(ProductSize(lists[..n]), |lists[n]|);
    }
  }

  lemma MulAtLeast(a: nat, b: nat)
    requires b >= 1
    ensures a <= a * b && a * b == b * a
  {
  }

  // ------------------------------------------------------------------ what the search builds

  /** The plans the backward search builds for `target` with `depth` rules to go,
      below a rule with operator `parent`: the empty plan of a seedable type at
      depth 0; at a positive depth, what one of the tried producers builds. */
  ghost predicate Derivable(rules: seq<Rule>, target: InfoType, depth: int, parent: Option<OperatorType>, p: Plan)
    decreases if depth < 0 then 0 else depth, 1
  {
    if depth == 0 then p == [] && IsSeedable(target)
    else depth > 0 && exists r :: r in Producers(rules, target, parent) && DerivedBy(rules, r, depth, p)
  }

  /** What producer `r` builds at a positive depth: itself alone when it takes no
      input and the depth is 1; otherwise the merge of one combination of plans
      for its inputs. */
  ghost predicate DerivedBy(rules: seq<Rule>, r: Rule, depth: int, p: Plan)
    decreases if depth < 0 then 0 else depth, 0
  {
    depth >= 1 &&
    if r.inputTypes == [] then depth == 1 && p == [r]
    else exists combo: seq<Plan> :: Combines(rules, r, depth, combo) && p == Merged(combo, r)
  }

  /** One plan per input of `r`, each built one level down below `r`'s operator. */
  ghost predicate Combines(rules: seq<Rule>, r: Rule, depth: int, combo: seq<Plan>)
    requires depth >= 1
    decreases depth, 0, 0
  {
    && |combo| == |r.inputTypes|
    && forall i :: 0 <= i < |combo| ==> Derivable(rules, r.inputTypes[i], depth - 1, Some(r.operator), combo[i])
  }

  /** Whether the search can succeed for `target` at `depth` below `parent`: a
      seedable type at depth 0; at a positive depth, some tried producer can. */
  predicate Feasible(rules: seq<Rule>, target: InfoType, depth: int, parent: Option<OperatorType>)
    decreases if depth < 0 then 0 else depth, 1
  {
    if depth == 0 then IsSeedable(target)
    else depth > 0 && exists r :: r in Producers(rules, target, parent) && ProducerFeasible(rules, r, depth)
  }

  /** Whether producer `r` can succeed at a positive depth: without inputs only at
      depth 1; otherwise when each of its inputs can, one level down. */
  predicate ProducerFeasible(rules: seq<Rule>, r: Rule, depth: int)
    decreases if depth < 0 then 0 else depth, 0
  {
    depth >= 1 &&
    if r.inputTypes == [] then depth == 1
    else forall i :: 0 <= i < |r.inputTypes| ==> Feasible(rules, r.inputTypes[i], depth - 1, Some(r.operator))
  }

  /** Building a plan shows the search can succeed. */
  lemma {:induction false} DerivableFeasible(rules: seq<Rule>, target: InfoType, depth: int, parent: Option<OperatorType>, p: Plan)
    requires Derivable(rules, target, depth, parent, p)
    ensures Feasible(rules, target, depth, parent)
    decreases if depth < 0 then 0 else depth, 1
  {
    if depth > 0 {
      var r :| r in Producers(rules, target, parent) && DerivedBy(rules, r, depth, p);
      DerivedByFeasible(rules, r, depth, p);
    }
  }

  lemma {:induction false} DerivedByFeasible(rules: seq<Rule>, r: Rule, depth: int, p: Plan)
    requires DerivedBy(rules, r, depth, p)
    ensures ProducerFeasible(rules, r, depth)
    decreases if depth < 0 then 0 else depth, 0
  {
    if r.inputTypes != [] {
      var combo :| Combines(rules, r, depth, combo) && p == Merged(combo, r);
      forall i | 0 <= i < |r.inputTypes| ensures Feasible(rules, r.inputTypes[i], depth - 1, Some(r.operator)) {
        DerivableFeasible(rules, r.inputTypes[i], depth - 1, Some(r.operator), combo[i]);
      }
    }
  }

  /** A search that can succeed has a plan to build. */
  lemma {:induction false} FeasibleDerivable(rules: seq<Rule>, target: InfoType, depth: int, parent: Option<OperatorType>)
    returns (p: Plan)
    requires Feasible(rules, target, depth, parent)
    ensures Derivable(rules, target, depth, parent, p)
    decreases if depth < 0 then 0 else depth, 1
  {
    if depth == 0 {
      p := [];
    } else {
      var r :| r in Producers(rules, target, parent) && ProducerFeasible(rules, r, depth);
      p := ProducerFeasibleDerived(rules, r, depth);
    }
  }

  lemma {:induction false} ProducerFeasibleDerived(rules: seq<Rule>, r: Rule, depth: int) returns (p: Plan)
    requires ProducerFeasible(rules, r, depth)
    ensures DerivedBy(rules, r, depth, p)
    decreases if depth < 0 then 0 else depth, 0
  {
    if r.inputTypes == [] {
      p := [r];
    } else {
      var combo := SubPlans(rules, r.inputTypes, depth - 1, Some(r.operator), |r.inputTypes|);
      assert Combines(rules, r, depth, combo);
      p := Merged(combo, r);
    }
  }

  /** One plan for each of the first `j` types, each built at `depth` below `parent`. */
  lemma {:induction false} SubPlans(rules: seq<Rule>, types: seq<InfoType>, depth: int, parent: Option<OperatorType>, j: nat)
    returns (combo: seq<Plan>)
    requires j <= |types| && forall i :: 0 <= i < |types| ==> Feasible(rules, types[i], depth, parent)
    ensures |combo| == j
    ensures forall i :: 0 <= i < j ==> Derivable(rules, types[i], depth, parent, combo[i])
    decreases if depth < 0 then 0 else depth, 2, j
  {
    if j == 0 {
      combo := [];
    } else {
      var front := SubPlans(rules, types, depth, parent, j - 1);
      var last := FeasibleDerivable(rules, types[j - 1], depth, parent);
      combo := front + [last];
      forall i | 0 <= i < j ensures Derivable(rules, types[i], depth, parent, combo[i]) {
        if i < j - 1 {
          assert combo[i] == front[i];
        }
      }
    }
  }

  // ------------------------------------------------------------------ shuffle

  /** `random.shuffle`: Fisher-Yates from the back; the partner of position `i` is
      `rand(k) % (i + 1)`, where `k` numbers the draws. Returns the draws used up. */
  method Shuffle(xs: seq<Rule>, rand: nat -> nat, next: nat) returns (ys: seq<Rule>, next': nat)
    ensures multiset(ys) == multiset(xs)
    ensures next' == next + (if |xs| > 1 then |xs| - 1 else 0)
  {
    ys, next' := xs, next;
    var i := |xs| - 1;
    while i >= 1
      invariant |ys| == |xs| && -1 <= i < |xs| && (|xs| > 0 ==> i >= 0)
      invariant multiset(ys) == multiset(xs)
      invariant next' == next + (if i < 0 then 0 else |xs| - 1 - i)
    {
      var j := rand(next') % (i + 1);
      SwapPermutes(ys, i, j);
      ys := ys[i := ys[j]][j := ys[i]];
      next' := next' + 1;
      i := i - 1;
    }
  }

  lemma SwapPermutes(s: seq<Rule>, i: nat, j: nat)
    requires i < |s| && j < |s|
    ensures multiset(s[i := s[j]][j := s[i]]) == multiset(s)
  {
    var t := s[i := s[j]];
    assert multiset(t) == multiset(s) - multiset{s[i]} + multiset{s[j]};
  }

  /** A shuffled sequence holds exactly the rules it held before. */
  lemma PermutationMembers(a: seq<Rule>, b: seq<Rule>)
    requires multiset(a) == multiset(b)
    ensures forall x :: x in a <==> x in b
  {
    forall x ensures x in a <==> x in b {
      assert x in a <==> x in multiset(a);
      assert x in b <==> x in multiset(b);
    }
  }

  // ------------------------------------------------------------------ diversity score

  /** `{rule.operator for rule in plan}` */
  function Operators(plan: Plan): set<OperatorType>
  {
    if plan == [] then {} else Operators(plan[..|plan| - 1]) + {plan[|plan| - 1].operator}
  }

  /** The type slots the score counts: for each rule its input types, then its output. */
  function TypeSlots(plan: Plan): seq<InfoType>
  {
    if plan == [] then []
    else
      var r := plan[|plan| - 1];
      TypeSlots(plan[..|plan| - 1]) + r.inputTypes + [r.outputType]
  }

  /** One more rule adds its input types and then its output type to the slots. */
  lemma TypeSlotsStep(plan: Plan, i: nat)
    requires i < |plan|
    ensures TypeSlots(plan[..i + 1]) == TypeSlots(plan[..i]) + plan[i].inputTypes + [plan[i].outputType]
  {
    assert plan[..i + 1][..i] == plan[..i];
  }

  /** The set of types in a list. */
  function Elements(ts: seq<InfoType>): set<InfoType>
  {
    if ts == [] then {} else Elements(ts[..|ts| - 1]) + {ts[|ts| - 1]}
  }

  /** One more type adds it to the set. */
  lemma ElementsSnoc(ts: seq<InfoType>, x: InfoType)
    ensures Elements(ts + [x]) == Elements(ts) + {x}
  {
    assert (ts + [x])[..|ts|] == ts;
  }

  /** `_score_plan_diversity`: 0.6 times the fraction of distinct operators plus 0.4
      times the fraction of distinct types among the type slots; 0 for no plan. */
  function PlanScore(plan: Plan): real
  {
    if plan == [] then 0.0
    else
      var slots := TypeSlots(plan);
      var typeVariety := if |slots| > 0 then |Elements(slots)| as real / |slots| as real else 0.0;
      0.6 * ((|Operators(plan)| as real) / (|plan| as real)) + 0.4 * typeVariety
  }

  lemma {:induction false} OperatorsCount(plan: Plan)
    ensures |Operators(plan)| <= |plan|
    ensures plan != [] ==> |Operators(plan)| >= 1
    decreases |plan|
  {
    if plan != [] {
      OperatorsCount(plan[..|plan| - 1]);
    }
  }

  lemma {:induction false} ElementsCount(ts: seq<InfoType>)
    ensures |Elements(ts)| <= |ts|
    ensures ts != [] ==> |Elements(ts)| >= 1
    decreases |ts|
  {
    if ts != [] {
      ElementsCount(ts[..|ts| - 1]);
    }
  }

  lemma {:induction false} TypeSlotsCount(plan: Plan)
    ensures |TypeSlots(plan)| >= |plan|
    decreases |plan|
  {
    if plan != [] {
      TypeSlotsCount(plan[..|plan| - 1]);
    }
  }

  /** A fraction `a / b` with `1 <= a <= b` lies in (0, 1]. */
  lemma FractionInUnit(a: nat, b: nat)
    requires 1 <= a <= b
    ensures 0.0 < (a as real) / (b as real) <= 1.0
  {
    var q := (a as real) / (b as real);
    assert q * (b as real) == a as real;
    assert (1.0 - q) * (b as real) == (b - a) as real;
  }

  /** The score of an empty plan is 0; of any other plan it lies in (0, 1]. */
  lemma PlanScoreRange(plan: Plan)
    ensures plan == [] ==> PlanScore(plan) == 0.0
    ensures plan != [] ==> 0.0 < PlanScore(plan) <= 1.0
  {
    if plan != [] {
      var slots := TypeSlots(plan);
      OperatorsCount(plan);
      TypeSlotsCount(plan);
      ElementsCount(slots);
      FractionInUnit(|Operators(plan)|, |plan|);
      FractionInUnit(|Elements(slots)|, |slots|);
    }
  }

  /** `_score_plan_diversity`: the operator set, then one pass over the rules
      collecting the types mentioned and counting the slots. */
  method ScorePlanDiversity(plan: Plan) returns (score: real)
    ensures score == PlanScore(plan)
  {
    if plan == [] {
      return 0.0;
    }
    var operatorVariety := (|Operators(plan)| as real) / (|plan| as real);
    var typesMentioned: set<InfoType> := {};
    var totalTypeSlots := 0;
    for i := 0 to |plan|
      invariant typesMentioned == Elements(TypeSlots(plan[..i]))
      invariant totalTypeSlots == |TypeSlots(plan[..i])|
    {
      var rule := plan[i];
      ghost var before := TypeSlots(plan[..i]);
      assert before + rule.inputTypes[..0] == before;
      for j := 0 to |rule.inputTypes|
        invariant typesMentioned == Elements(before + rule.inputTypes[..j])
        invariant totalTypeSlots == |before| + j
      {
        assert before + rule.inputTypes[..j + 1] == (before + rule.inputTypes[..j]) + [rule.inputTypes[j]];
        ElementsSnoc(before + rule.inputTypes[..j], rule.inputTypes[j]);
        typesMentioned := typesMentioned + {rule.inputTypes[j]};
        totalTypeSlots := totalTypeSlots + 1;
      }
      assert rule.inputTypes[..|rule.inputTypes|] == rule.inputTypes;
      ElementsSnoc(before + rule.inputTypes, rule.outputType);
      TypeSlotsStep(plan, i);
      typesMentioned := typesMentioned + {rule.outputType};
      totalTypeSlots := totalTypeSlots + 1;
    }
    assert plan[..|plan|] == plan;
    var typeVariety := if totalTypeSlots > 0 then (|typesMentioned| as real) / (totalTypeSlots as real) else 0.0;
    score := 0.6 * operatorVariety + 0.4 * typeVariety;
  }
}

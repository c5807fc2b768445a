# Multihop question trajectories — a Dafny model

This project models the trajectory-generation engine of `multihopQA-generation`.
The engine starts from a seed fact, a *state* holding a value and an information type.
It grows a chain of states by firing typed *rules* from a fixed catalog of nineteen
search, calculation and code rules. It then turns the chain into a numbered
natural-language question. The model covers these parts:

- the data model: the `InfoType` and `OperatorType` enumerations, `State` (a class whose
  provenance the executor stamps after construction), `Rule`, and the `RULES_DB` catalog;
- the applicability resolver of `QuestionGenerator`. It binds each input slot of a
  rule to the most recently appended state of the slot's type that no earlier slot
  took;
- the diversity-weighted selector. It scores operator novelty and input age,
  multiplies by an optional goal factor, floors the weights at 0.01, and draws;
- the three forward walkers (forward chaining, the constrained random walk with its
  complexity ceiling, and the goal-oriented walk). They share one hop, specified once
  (`Walk.NextStep`), and each walker is a loop proved to produce a walk of such hops;
- the backward-chaining planner: the recursive plan search with its plan limit,
  identity de-duplication and the shuffle of producers; the diversity score of plans;
  and the forward execution of the best plan with on-the-fly seeding;
- the template walker, which matches template steps against rule templates by
  lowercase substring;
- the question formatter;
- the table operators: lookup, filter and aggregate over a list of dictionaries.

Identity matters in the source (`id(rule)`, `id(state)`). States are class instances,
so state identity is reference identity. Rules are values with an explicit `id`
field. Two catalog entries are therefore different rules even when their other fields
agree.

Randomness is a parameter:
- `random.choices` is a uniform draw in [0, 1) per hop (`draw`). The draw is scaled
  to the total weight and picked by bisection over the cumulative weights.
- `random.shuffle` is Fisher–Yates over a stream of numbers (`rand`). Each swap index
  is the next number modulo the remaining length.

Three other things the engine calls into are parameters too:
- The rule executor `_execute_rule` is an arbitrary function `Executor` from a call
  index, a rule and the input values to an optional typed output. The model then
  stamps the provenance as the source does.
- The backward planner's seed lookup is a `SeedProvider`. It returns `NoneValue`
  where the source finds no sample value.
- Python's `str`/`repr` of a value and `float(str)` are the parameters `render` and
  `parse`.

Floats are exact reals.

Modules, one per source file or concern:
- `Types`, `Rules`: the data model and the catalog.
- `Strings`, `Formatter`: string helpers and `format_question`.
- `BaseGenerator`, `ResolverLemmas`, `SelectorLemmas`: the resolver and the selector.
- `Walk`, `ForwardChaining`, `ConstrainedRandomWalk`, `GoalOriented`: the shared hop and
  the three forward walkers.
- `BackwardPlans`, `BackwardChaining`: the backward planner.
- `PlanRun`: the backward planner's forward execution over values (cells, each
  marked seeded or produced by a step), which `BackwardChaining.ExecutePlan` mirrors state
  for cell.
- `TemplateBased`: the template walker.
- `TableOps`: the table operators.

Where the code and its documentation differ, the model follows the code:
- The backward search only guarantees that *some* rule of a plan produces the target
  type. The final rule of a plan is a producer only when no sub-plan already held that
  producer, so `SoundPlan` states membership and not position.
- `generate(target, 0)` with a seedable target finds the plan `[]` and then reads
  `chosen_plan[0]`. That raises an `IndexError`, which the model returns as
  `BackwardResult.Raised`. With a non-seedable target, or a negative `max_hops`,
  there is no question.
- The backward forward-execution may append dynamic seeds to the configuration. The
  configuration can then be longer than the plan plus one, and `configuration[i]` need
  not be the output of `applied_rules[i-1]`. `Realizes` states only what does hold:
  every state after the seed is a dynamic seed or the stamped output of a plan rule.
  The question is the formatter's text on that configuration.
- After a hop from a PERSON_NAME seed, the new state has the rule's declared output
  type only when the rule is not a search. A search may return any type, and every
  PERSON_NAME rule is a search. The model states this laxity rather than a fixed set
  of types.

## Model

| member | source | states |
|---|---|---|
| Types.InfoTypeEnumeration | src/core/types.py:6-26 | exactly eighteen information types, each listed once, with pairwise distinct names |
| Types.OperatorTypeEnumeration | src/core/types.py:29-38 | exactly seven operator kinds, each listed once, with pairwise distinct names |
| Types.State.constructor | src/core/types.py:44-64 | value and type stored as given; source rule as given (None by default); source inputs empty when absent or empty |
| Types.ShownValue | src/core/types.py:69-72 | the shown value is the repr itself when at most 50 characters, else its first 47 characters plus "...", so never longer than 50 |
| Types.InputNames | src/core/types.py:106 | one name per input type, in order, each the enum member's name |
| Types.StateRepr | src/core/types.py:66-72 | `State.__repr__` as a definition: `State(value=…, type=…)` around the shown value (bounded by Types.ShownValue) and the type's name |
| Types.RuleRepr | src/core/types.py:104-107 | `Rule.__repr__` as a definition: operator name, the input names joined by ", " (Types.InputNames), the output name and the complexity's decimal text (Strings.IntToStringRoundTrip) |
| Rules.CatalogShape | src/core/rules.py:8-95 | nineteen rules with distinct identities; each takes one or two inputs, costs 1, 2 or 3, and is a search or code rule with one input or a calculation over two inputs of one type |
| Rules.CatalogMember | src/core/rules.py:8-95 | every rule of the catalog takes one or two inputs, costs 1 to 3, and has its operator's shape |
| Rules.CatalogDistinct | src/core/rules.py:8-95 | no rule occurs twice in the catalog |
| Rules.PersonRules | src/core/rules.py:10-18 | exactly the first three rules take PERSON_NAME, and they output DATE, LOCATION_NAME and CONCEPT |
| Rules.CityProducers | src/core/rules.py:27-49 | the CITY_NAME producers are exactly the LOCATION_NAME and COUNTRY_NAME searches |
| Rules.CityProducerRules | src/core/rules.py:27-49 | a catalog rule outputs CITY_NAME iff it is one of those two searches |
| Rules.TemplatePlaceholders | src/core/rules.py:10-94 | every template contains `{input0}`; every two-input template also contains `{input1}` |
| Rules.TemplateMentionsInputs | src/core/rules.py:10-94 | the same two facts for one catalog rule |
| Strings.Lower | src/generators/template_based.py:31 | lowercasing keeps the length and lowercases each character |
| Strings.LowerIdempotent | src/generators/template_based.py:35 | lowercasing twice is lowercasing once |
| Strings.ReplaceAbsent | src/utils/formatter.py:31 | replacing a placeholder that does not occur leaves the text unchanged |
| Strings.ReplaceChar | src/operators/table_ops.py:85 | replacing one character by another maps the text character by character |
| Strings.StripShape | src/utils/formatter.py:39 | `strip` removes only whitespace, from both ends, and leaves none at either end |
| Strings.NatToString | src/utils/formatter.py:51 | the step number is a non-empty run of digits without a leading zero |
| Strings.NatToStringRoundTrip | src/utils/formatter.py:51 | reading the step number's digits back gives the number |
| Strings.IntToStringRoundTrip | src/core/types.py:107 | reading the complexity shown by the rule repr back gives the complexity |
| Formatter.TypeWordsShape | src/utils/formatter.py:36 | the type words are the enum name lowercased with "_" written as " " |
| Formatter.RefMapEntries | src/utils/formatter.py:15-17 | the reference map holds the seed and every later state; a state's entry is "the result from step i" for its last index i ≥ 1, else the initial-entity phrase for the seed |
| Formatter.ReferenceCases | src/utils/formatter.py:15-30 | an input is referred to by its step, else as the initial entity, else as "an earlier result ('v')" |
| Formatter.SubstituteWithoutPlaceholders | src/utils/formatter.py:26-31 | a template without input placeholders comes through substitution unchanged |
| Formatter.FinalText | src/utils/formatter.py:34-45 | the final step asks "what is the resulting …", is stripped and ends in "?"; it gains " X?" exactly when it ends in " of", " for" or " in" without a "?" |
| Formatter.MiddleTextWithoutOutput | src/utils/formatter.py:46-49 | an intermediate step without `{output}` is the substituted template unchanged |
| Formatter.StepLines | src/utils/formatter.py:19-51 | one line per applied rule, numbered "1. ", "2. ", … in order |
| Formatter.FormatIsQuestion | src/utils/formatter.py:8-55 | the text always ends in "?"; with rules applied it starts with the intro line and ends with the final step's text |
| Formatter.FormatQuestion | src/utils/formatter.py:6-55 | the loops over the reference map and the applied rules build exactly the specified question text, including the zero-hop sentence |
| Formatter.FormatSpec | src/utils/formatter.py:6-55 | `format_question` as a definition: the reference map, one sentence per applied rule and the zero-hop sentence; its shape is stated by Formatter.FinalText, Formatter.StepLines and Formatter.FormatIsQuestion, and the loop computing it is Formatter.FormatQuestion |
| BaseGenerator.NewestOfType | src/generators/base_generator.py:27-31 | the states of one type, newest first: exactly the configuration's states of that type |
| BaseGenerator.FirstUnused | src/generators/base_generator.py:54-59 | the first candidate not yet taken, or none exactly when every candidate is taken |
| BaseGenerator.Bind | src/generators/base_generator.py:37-62 | a binding has one state per slot, of the slot's type, from the configuration, pairwise distinct |
| BaseGenerator.Applicable | src/generators/base_generator.py:33-69 | the options are catalog rules paired with their bindings, at most one per rule |
| BaseGenerator.Offer | src/generators/base_generator.py:60-67 | a rule is offered, with its binding, exactly when all its slots bind |
| BaseGenerator.BindPrefix | src/generators/base_generator.py:51-62 | the binding of a prefix of the slots is the prefix of the binding |
| BaseGenerator.BindNeedsEveryType | src/generators/base_generator.py:37-44 | a slot whose type has no state makes the rule inapplicable |
| BaseGenerator.BindStopsAtFailedSlot | src/generators/base_generator.py:60-62 | a slot that finds no untaken state makes the rule inapplicable |
| BaseGenerator.FindApplicableRules | src/generators/base_generator.py:20-69 | the resolver's nested loops return exactly the applicable options, in catalog order |
| BaseGenerator.IndexStates | src/generators/base_generator.py:27-31 | `states_by_type` maps each present type to its states, newest first |
| BaseGenerator.BindSlots | src/generators/base_generator.py:34-67 | one rule's pass of the resolver yields exactly its binding |
| BaseGenerator.SlotLists | src/generators/base_generator.py:35-44 | the per-slot candidate lists, or failure when some slot type has no state |
| BaseGenerator.TakeUnused | src/generators/base_generator.py:48-64 | the combination loop yields exactly the binding |
| BaseGenerator.ScanUnused | src/generators/base_generator.py:54-59 | the scan stops at the first untaken candidate, or runs off the end when none is left |
| BaseGenerator.LastIndex | src/generators/base_generator.py:95 | a state's recorded index is its last position, or -1 when absent |
| BaseGenerator.Weights | src/generators/base_generator.py:100-142 | one floored combined weight per candidate, in order |
| BaseGenerator.Pick | src/generators/base_generator.py:150 | the bisection lands on an index of the weights |
| BaseGenerator.Selection | src/generators/base_generator.py:91-150 | no choice for no candidates; any choice is one of the candidates |
| BaseGenerator.SelectRuleWithDiversity | src/generators/base_generator.py:71-152 | the scoring loop and weighted draw compute exactly the specified selection |
| BaseGenerator.CombinedScore | src/generators/base_generator.py:100-134 | one candidate's diversity score times its goal factor |
| BaseGenerator.RecencyBonus | src/generators/base_generator.py:109-126 | the recency bonus is half the average input age over the oldest possible age |
| BaseGenerator.Novelty | src/generators/base_generator.py:103-107 | 1.0 when a previous rule exists with another operator, else 0.0 as a definition; its cases are stated by SelectorLemmas.DiversityBounds |
| BaseGenerator.Recency | src/generators/base_generator.py:109-126 | half the average input age over the oldest possible age, 0 without inputs or at hop 1, as a definition; its value is BaseGenerator.RecencyBonus and its range SelectorLemmas.RecencyBounds |
| BaseGenerator.DiversityScore | src/generators/base_generator.py:101-126 | 1.0 plus the novelty and recency terms as a definition; its range is SelectorLemmas.DiversityBounds |
| BaseGenerator.Combined | src/generators/base_generator.py:128-134 | the diversity score times the goal factor (1.0 without goal scores, the rule's score or 0.0 with them) as a definition; computed by BaseGenerator.CombinedScore |
| BaseGenerator.Weight | src/generators/base_generator.py:141 | the combined score floored at 0.01 as a definition; the weight list is BaseGenerator.Weights and its sum SelectorLemmas.SumAtLeastFloor |
| BaseGenerator.ConfigIndices | src/generators/base_generator.py:95 | `config_indices` maps each state to its last position |
| BaseGenerator.InputAges | src/generators/base_generator.py:112-119 | the age loop sums the ages of the inputs found and counts them |
| BaseGenerator.ExecuteRule | src/generators/base_generator.py:329-342 | a failed execution yields null; otherwise a new state carrying the executor's output, stamped with the rule and the inputs |
| ResolverLemmas.NewestOfTypeSnoc | src/generators/base_generator.py:28-31 | an appended state of the type becomes the newest one of its type |
| ResolverLemmas.NewestDistinct | src/generators/base_generator.py:28-31 | over a configuration without repeats the per-type lists have no repeats |
| ResolverLemmas.UsedAreNewest | src/generators/base_generator.py:49-59 | a taken state of type t is among the first Count(t) newest states of t |
| ResolverLemmas.NewestAreUsed | src/generators/base_generator.py:49-59 | the first Count(t) newest states of type t are all taken |
| ResolverLemmas.BindNewest | src/generators/base_generator.py:28-59 | binding succeeds iff every slot finds a state; the k-th slot of type t holds the k-th newest state of t |
| ResolverLemmas.BindNewestStep | src/generators/base_generator.py:51-62 | the inductive step of the same fact, from a prefix of the slots to one more slot |
| ResolverLemmas.BindComplete | src/generators/base_generator.py:37-62 | a rule binds iff for every type there are at least as many states as slots of it |
| ResolverLemmas.EnoughStatesSuffice | src/generators/base_generator.py:37-62 | enough states of every slot type let every slot find one |
| ResolverLemmas.SlotsBoundCount | src/generators/base_generator.py:37-62 | when every slot finds a state, each type has at least as many states as slots |
| ResolverLemmas.ApplicableMembership | src/generators/base_generator.py:33-67 | a rule is offered iff it is in the catalog and all its slots bind |
| ResolverLemmas.ApplicableComplete | src/generators/base_generator.py:33-67 | any catalog rule whose slots bind is offered |
| ResolverLemmas.ApplicableInOrder | src/generators/base_generator.py:33-67 | over a catalog without repeats, options follow catalog order, each rule at most once |
| SelectorLemmas.AgeTotalsBounds | src/generators/base_generator.py:112-119 | the summed age lies between 0 and the count times the oldest possible age |
| SelectorLemmas.RatioBounds | src/generators/base_generator.py:121-123 | the average age over the oldest possible age lies in [0, 1] |
| SelectorLemmas.RecencyBounds | src/generators/base_generator.py:109-126 | the recency bonus lies in [0, 0.5], and is 0 while only the seed exists |
| SelectorLemmas.DiversityBounds | src/generators/base_generator.py:101-126 | the diversity score lies in [1.0, 2.5]; the novelty bonus is 1 iff a previous rule exists with another operator, else 0 |
| SelectorLemmas.SumAtLeastFloor | src/generators/base_generator.py:142-145 | floored weights sum to at least n·0.01, with equality iff every weight is at the floor |
| SelectorLemmas.SelectionRefuses | src/generators/base_generator.py:141-147 | when every combined score is at most the floor, nothing is selected |
| SelectorLemmas.SelectionChooses | src/generators/base_generator.py:141-152 | one combined score above the floor makes the selection pick a candidate |
| SelectorLemmas.SelectionSucceeds | src/generators/base_generator.py:129-152 | a goal factor above the floor for one candidate makes the selection succeed |
| SelectorLemmas.PickAtPrefixSum | src/generators/base_generator.py:150 | with positive weights, the start of index k's interval picks k |
| SelectorLemmas.SelectionReachable | src/generators/base_generator.py:150 | when a selection succeeds, every candidate is chosen by some draw in [0, 1) |
| SelectorLemmas.ScaledFraction | src/generators/base_generator.py:150 | every point below the total weight is the scaled value of some draw in [0, 1) |
| Walk.Unused | src/generators/forward_chaining.py:37-40 | exactly the options whose rule was not applied, in order |
| Walk.WithinBudget | src/generators/constrained_random_walk.py:42-45 | exactly the options whose rule still fits in the complexity budget |
| Walk.WalkCandidates | src/generators/constrained_random_walk.py:39-51 | a hop's candidates are exactly the applicable, unused options, and under a budget those that fit |
| Walk.GoalScoreRange | src/generators/goal_oriented.py:12-31 | the goal score is one of 1.0, 0.7, 0.6, 0.5, 0.1, so within [0.1, 1.0], and 1.0 iff the output type is the target |
| Walk.GoalScore | src/generators/goal_oriented.py:12-31 | `_score_rule_for_goal` as a definition: 1.0 on the target type, the precursor scores 0.7, 0.6 and 0.5, else 0.1; its range is Walk.GoalScoreRange |
| Walk.GoalScoresEntries | src/generators/goal_oriented.py:66-74 | every option's rule is scored, only those rules are, each with its goal score |
| Walk.ReachedIff | src/generators/goal_oriented.py:103-108 | the target flag is set iff some state after the seed has the target type |
| Walk.Execute | src/generators/forward_chaining.py:60-78 | a new stamped state when the output has the rule's type or the rule is a search; null, which stops the walk, otherwise |
| Walk.NextStepFrom | src/generators/forward_chaining.py:34-78 | a hop stops when the selector refuses; otherwise it executes the selected option |
| Walk.NextStep | src/generators/forward_chaining.py:34-76 | the shared hop as a definition: the policy's unused options, the selector's choice on the draw, the executor's output and the type check; what it yields is stated by Walk.NextStepFrom, Walk.HopRule and the walk lemmas |
| Walk.WalkFirstHop | src/generators/forward_chaining.py:81-83 | a walk with a rule applied took its first hop from the seed alone |
| Walk.WalkEmpty | src/generators/forward_chaining.py:28-29 | a walk without rules is the seed alone |
| Walk.WalkStart | src/generators/forward_chaining.py:28-29 | the seed alone is a walk |
| Walk.WalkExtend | src/generators/forward_chaining.py:66-68 | a hop that extends, stamped on a new state, appends one state and one rule and keeps a walk |
| Walk.HopKept | src/generators/forward_chaining.py:66-68 | appending a state and a rule keeps every earlier hop |
| Walk.HopNew | src/generators/forward_chaining.py:66-68 | the appended state and rule are the new hop |
| Walk.WalkPrefix | src/generators/forward_chaining.py:31-78 | every prefix of a walk is a walk |
| Walk.ExtendShape | src/generators/forward_chaining.py:34-68 | an extending hop applies an applicable, unused catalog rule with its binding, and its output has the rule's type unless the rule is a search |
| Walk.WalkRulesDistinct | src/generators/forward_chaining.py:37-40 | no rule is applied twice |
| Walk.WalkProvenance | src/generators/forward_chaining.py:63-68 | each state after the seed is stamped by its rule, typed as promised unless a search, with distinct earlier inputs of the slot types |
| Walk.WalkWithinBudget | src/generators/constrained_random_walk.py:43-86 | every applied prefix of a budgeted walk stays within the ceiling |
| Walk.HopWithinBudget | src/generators/constrained_random_walk.py:43-86 | the running total after each hop stays within the ceiling |
| Walk.HopRule | src/generators/forward_chaining.py:31-68 | hop h of a walk applied `applied[h]` |
| Walk.SumComplexityPrefix | src/generators/constrained_random_walk.py:86 | the running total grows by each applied rule's complexity |
| Walk.SumComplexityAppend | src/generators/constrained_random_walk.py:86 | appending a rule adds its complexity to the total |
| Walk.ExtendWithinBudget | src/generators/constrained_random_walk.py:43-51 | a budgeted hop that extends spends no more than what is left |
| Walk.BudgetExhausted | src/generators/constrained_random_walk.py:53-63 | when no rule fits the remaining budget, the hop stops |
| Walk.CatalogNeedsBudget | src/generators/constrained_random_walk.py:43-63 | over the catalog, a ceiling below 1 stops the first hop |
| Walk.GoalSelectionChooses | src/generators/goal_oriented.py:66-88 | with candidates, the goal-weighted selection always chooses one, since every goal score is above the floor |
| Walk.GoalAfterReached | src/generators/goal_oriented.py:67-83 | once the target is reached, a goal hop is an unconstrained hop (no goal scores) |
| Walk.ReachedStays | src/generators/goal_oriented.py:103-108 | reaching the target is never undone |
| Walk.PersonSeedOnlyPersonRules | src/core/rules.py:10-18 | from a PERSON_NAME seed alone, only the three person rules are applicable, each bound to the seed |
| Walk.PersonSeedOption | src/core/rules.py:10-18 | the same for one option |
| Walk.PersonSeedAllPersonRules | src/core/rules.py:10-18 | from a PERSON_NAME seed alone, all three person rules are offered |
| Walk.PersonSeedOffered | src/core/rules.py:10-18 | the same for one of the three |
| Walk.SeedAloneOption | src/generators/base_generator.py:37-62 | from the seed alone, an option binds the seed to its one slot |
| Walk.OneSlotBinding | src/generators/base_generator.py:37-62 | a single PERSON_NAME slot binds the seed |
| Walk.SingleStateBinding | src/generators/base_generator.py:37-62 | with one state, only bindings of at most one slot exist, and they take that state |
| ForwardChaining.Generate | src/generators/forward_chaining.py:12-89 | no result iff max_hops ≤ 0 or the first hop stops; a result is a walk of 1..max_hops hops that is short only when the next hop stops, with the formatter's question |
| ForwardChaining.HopLoop | src/generators/forward_chaining.py:31-78 | the hop loop builds a walk of at most max_hops hops, stopping early only at a hop that stops |
| ForwardChaining.Advance | src/generators/forward_chaining.py:34-78 | one iteration either stops, as the hop does, or extends the walk by one state and one rule |
| ForwardChaining.Hop | src/generators/forward_chaining.py:34-78 | the loop body computes exactly the specified hop |
| ConstrainedRandomWalk.Generate | src/generators/constrained_random_walk.py:12-107 | as for forward chaining under the budget policy, and a result's total complexity never exceeds the ceiling |
| ConstrainedRandomWalk.HopLoop | src/generators/constrained_random_walk.py:36-94 | the loop with its running complexity builds a budgeted walk, stopping early only at a hop that stops |
| ConstrainedRandomWalk.Advance | src/generators/constrained_random_walk.py:39-94 | one iteration stops or extends the budgeted walk |
| ConstrainedRandomWalk.Hop | src/generators/constrained_random_walk.py:39-94 | the loop body, with `current_complexity` equal to the applied total, computes the budgeted hop |
| ConstrainedRandomWalk.ConstrainOptions | src/generators/constrained_random_walk.py:42-45 | the complexity filter keeps exactly the options that fit |
| GoalOriented.Generate | src/generators/goal_oriented.py:33-129 | as for forward chaining under the goal policy: goal scores while the target is unreached, none after, and reaching it does not end the walk |
| GoalOriented.HopLoop | src/generators/goal_oriented.py:48-116 | the loop with its `target_reached` flag builds a goal walk, stopping early only at a hop that stops |
| GoalOriented.Advance | src/generators/goal_oriented.py:51-116 | one iteration stops or extends the goal walk |
| GoalOriented.ReachedAppend | src/generators/goal_oriented.py:103-108 | the flag after an append is the old flag or the new state having the target type |
| GoalOriented.Hop | src/generators/goal_oriented.py:51-116 | the loop body, with the flag kept exact, computes the goal hop |
| GoalOriented.ScoreOptions | src/generators/goal_oriented.py:66-74 | the goal-score loop builds exactly the specified score map |
| BackwardPlans.RulesProducing | src/generators/backward_chaining.py:23-25 | exactly the catalog rules with the given output type |
| BackwardPlans.WithoutOperator | src/generators/backward_chaining.py:122-123 | exactly the rules whose operator differs from the parent's |
| BackwardPlans.Producers | src/generators/backward_chaining.py:118-125 | the producers, without the parent's operator unless that leaves none; empty iff nothing produces the type |
| BackwardPlans.CatalogProducersHaveInputs | src/generators/backward_chaining.py:142-148 | over the catalog no producer lacks inputs |
| BackwardPlans.CityProducersBelowSearch | src/generators/backward_chaining.py:119-125 | below a search, the CITY_NAME producers are still the two searches, since filtering would leave none |
| BackwardPlans.SeedableExactly | src/generators/backward_chaining.py:27-39 | eight distinct seedable types; the other ten are exactly the derived ones |
| BackwardPlans.DynamicSeedableExactly | src/generators/backward_chaining.py:321 | on-the-fly seeds are exactly the six seedable name types |
| BackwardPlans.Dedup | src/generators/backward_chaining.py:180-186 | the first-seen merge holds the same rules, each once |
| BackwardPlans.DedupOfDuplicateFree | src/generators/backward_chaining.py:180-186 | a list without repeats merges to itself |
| BackwardPlans.DedupPrefix | src/generators/backward_chaining.py:180-186 | merging more keeps what was merged as a prefix (first-seen order) |
| BackwardPlans.DedupSnoc | src/generators/backward_chaining.py:182-186 | one more rule is appended to the merge unless already seen |
| BackwardPlans.Merged | src/generators/backward_chaining.py:178-192 | a combined plan is duplicate-free, holds exactly its producer and the sub-plans' rules, keeps their first-seen order, and ends with the producer unless a sub-plan held it |
| BackwardPlans.MergedUses | src/generators/backward_chaining.py:178-192 | a combined plan uses only catalog rules |
| BackwardPlans.CombinePlan | src/generators/backward_chaining.py:178-192 | the merge loops build exactly the combined plan |
| BackwardPlans.MergeInto | src/generators/backward_chaining.py:182-186 | the inner loop extends the merge by one sub-plan and keeps `seen_rule_ids` equal to it |
| BackwardPlans.ProductEntry | src/generators/backward_chaining.py:175 | each combination takes one sub-plan per input |
| BackwardPlans.ProductCount | src/generators/backward_chaining.py:175 | the number of combinations is the product of the list lengths |
| BackwardPlans.ProductComplete | src/generators/backward_chaining.py:175 | every choice of one sub-plan per input is a combination |
| BackwardPlans.ProductSizePositive | src/generators/backward_chaining.py:162-175 | with every input's list non-empty there is at least one combination |
| BackwardPlans.ListWithinProduct | src/generators/backward_chaining.py:175 | with every list non-empty, no list is longer than the number of combinations, so a capped sub-search caps the producer too |
| BackwardPlans.DerivableFeasible | src/generators/backward_chaining.py:97-210 | a plan can be built only where the search can succeed |
| BackwardPlans.DerivedByFeasible | src/generators/backward_chaining.py:141-198 | a producer builds a plan only where it can succeed |
| BackwardPlans.FeasibleDerivable | src/generators/backward_chaining.py:97-210 | where the search can succeed some plan can be built |
| BackwardPlans.ProducerFeasibleDerived | src/generators/backward_chaining.py:141-198 | a producer that can succeed builds some plan |
| BackwardPlans.SubPlans | src/generators/backward_chaining.py:150-175 | reachable inputs have one derivable sub-plan each |
| BackwardPlans.Shuffle | src/generators/backward_chaining.py:136 | the shuffle permutes the producers and consumes one number per swap |
| BackwardPlans.IsSeedable | src/generators/backward_chaining.py:27-39 | `_is_seedable_type`: membership in the eight seedable types (its extent is stated by BackwardPlans.SeedableExactly) |
| BackwardPlans.DynamicSeedable | src/generators/backward_chaining.py:321 | seedable and neither TABLE_DATA nor TEXT_SNIPPET (its extent is stated by BackwardPlans.DynamicSeedableExactly) |
| BackwardPlans.PlanScore | src/generators/backward_chaining.py:213-238 | `_score_plan_diversity` as a definition: 0 for no plan, else 0.6·operator variety + 0.4·type variety; its range is BackwardPlans.PlanScoreRange and the loop computing it is BackwardPlans.ScorePlanDiversity |
| BackwardPlans.OperatorsCount | src/generators/backward_chaining.py:219-220 | between 1 and the plan length operators for a non-empty plan |
| BackwardPlans.ElementsCount | src/generators/backward_chaining.py:223-231 | between 1 and the slot count distinct types for non-empty slots |
| BackwardPlans.TypeSlotsCount | src/generators/backward_chaining.py:224-230 | at least one type slot per rule |
| BackwardPlans.PlanScoreRange | src/generators/backward_chaining.py:213-238 | the plan score is 0 for the empty plan and within (0, 1] otherwise |
| BackwardPlans.ScorePlanDiversity | src/generators/backward_chaining.py:213-238 | the scoring loop computes exactly 0.6·operator variety + 0.4·type variety |
| BackwardChaining.FindAllBackwardPlans | src/generators/backward_chaining.py:90-210 | depth < 0 gives no plans, and depth 0 gives `[[]]` iff the target is seedable. Every plan is one `Derivable` defines (an input-less producer alone at depth 1, or the first-seen merge of one sub-plan per input with the producer appended). There are no plans iff the search cannot succeed (`Feasible`). Below `max_plans`, every derivable plan is returned. Deeper plans are sound, and the plan count stays within max(max_plans, 1) when no producer lacks inputs |
| BackwardChaining.SearchedAtZero | src/generators/backward_chaining.py:106-112 | at depth 0 the result `[[]]`/`[]` is exactly the derivable plans |
| BackwardChaining.SearchedBelowZero | src/generators/backward_chaining.py:114-116 | below depth 0 nothing is derivable, so `[]` is the complete answer |
| BackwardChaining.SearchedNoProducers | src/generators/backward_chaining.py:129-133 | with no producer nothing is derivable, so `[]` is the complete answer |
| BackwardChaining.SearchProducers | src/generators/backward_chaining.py:136-209 | the producer loop keeps sound plans within the plan limit; once it ends, each plan was built by a producer, there are none iff no producer can succeed, and below the limit every plan any producer builds is there |
| BackwardChaining.SearchStep | src/generators/backward_chaining.py:138-207 | one producer's turn extends what the loop has found by exactly that producer's plans; stopping means the limit was reached |
| BackwardChaining.FoundStep | src/generators/backward_chaining.py:138-207 | adding one producer's complete plans extends the loop invariant to that producer |
| BackwardChaining.FoundStop | src/generators/backward_chaining.py:201-207 | an early return at the limit, with at least one plan found, meets the loop's promise for all producers |
| BackwardChaining.SearchedByProducers | src/generators/backward_chaining.py:119-210 | the loop's promise over all (filtered, shuffled) producers is the search's promise for the target |
| BackwardChaining.ProducersSound | src/generators/backward_chaining.py:138-198 | a plan built by a tried producer is derivable for the target |
| BackwardChaining.ProducersEmpty | src/generators/backward_chaining.py:138-210 | no plan from any producer iff the target cannot be reached at this depth |
| BackwardChaining.ProducersComplete | src/generators/backward_chaining.py:138-198 | when every producer's plans are all there, every derivable plan is there |
| BackwardChaining.SingletonsFound | src/generators/backward_chaining.py:142-148 | below the limit, every input-less producer is a one-rule plan at depth 1 |
| BackwardChaining.GoodPlansAppend | src/generators/backward_chaining.py:145-198 | appending sound plans to sound plans keeps them sound |
| BackwardChaining.GoodPlansUse | src/generators/backward_chaining.py:145-198 | sound plans use only catalog rules |
| BackwardChaining.TryProducer | src/generators/backward_chaining.py:141-207 | one producer adds exactly plans it builds (`DerivedBy`): some iff it can succeed, and all of them unless the limit is reached. `[rule]` only for an input-less rule at depth 1. It stops only at the limit, after adding a plan, and never passes max(max_plans, 1) |
| BackwardChaining.NothingDerived | src/generators/backward_chaining.py:162-169 | a producer that cannot succeed builds no plan |
| BackwardChaining.CombinationsDerived | src/generators/backward_chaining.py:175-198 | the merges of the first combinations of derivable sub-plans are plans the producer builds |
| BackwardChaining.CombinationsComplete | src/generators/backward_chaining.py:150-198 | when the sub-searches were complete and the combinations all merged, every plan the producer builds is among them |
| BackwardChaining.AddCombinations | src/generators/backward_chaining.py:175-203 | the combination loop appends the merges of the product's combinations in order (`added[c] == Merged(Product[c], rule)`). It returns early exactly at the plan limit with at least one plan; otherwise it has added every combination |
| BackwardChaining.CombinationAppended | src/generators/backward_chaining.py:178-198 | one more merged combination keeps the added plans sound and in product order |
| BackwardChaining.SoundSingleton | src/generators/backward_chaining.py:143-145 | a producer alone is a sound plan |
| BackwardChaining.SoundMerged | src/generators/backward_chaining.py:178-198 | a combined plan is sound and not a lone input-less rule |
| BackwardChaining.PlansPerInput | src/generators/backward_chaining.py:150-169 | each input's list is the recursive search's result for that input type one level down, budgeted by the remaining limit (`InputsSearched`). Success iff every input can be reached, and then there is one non-empty list per input |
| BackwardChaining.InputsSearchedSnoc | src/generators/backward_chaining.py:154-166 | one more sub-search result extends the per-input lists |
| BackwardChaining.InputsFeasible | src/generators/backward_chaining.py:162-169 | non-empty sub-search results for all inputs mean every input can be reached |
| BackwardChaining.OfLength | src/generators/backward_chaining.py:253 | exactly the plans of `max_hops` rules, in order |
| BackwardChaining.ChoosePlan | src/generators/backward_chaining.py:262-271 | the chosen plan has the highest score and is the first such plan, as the stable descending sort gives |
| BackwardChaining.ScoreAll | src/generators/backward_chaining.py:268 | each valid plan paired with its diversity score |
| BackwardChaining.FirstMax | src/generators/backward_chaining.py:270-271 | the index of the first highest score |
| BackwardChaining.LatestUnused | src/generators/backward_chaining.py:310-317 | the scan's result is an untaken state of the slot's type from the configuration |
| BackwardChaining.LatestUnusedIsResolverChoice | src/generators/backward_chaining.py:310-317 | the forward scan picks the same state as the resolver would |
| BackwardChaining.LatestUnusedSkips | src/generators/backward_chaining.py:310-330 | states appended after the configuration that are already taken do not change the scan |
| BackwardChaining.ScanLatest | src/generators/backward_chaining.py:310-317 | the `reversed(configuration)` loop computes exactly the latest untaken state |
| BackwardChaining.BindForward | src/generators/backward_chaining.py:304-347 | inputs are bound latest-first and distinct, each of its slot's type. A missing type is seeded only if dynamically seedable with a truthy value. Failure names the slot that could not be filled. Seeds are appended to the configuration. The states bound and the configuration grown are the value-level binding `PlanRun.BindCells`, state for cell |
| BackwardChaining.BindStep | src/generators/backward_chaining.py:310-342 | one slot keeps the loop invariant, or fails with neither an untaken state nor a seed and leaves the value-level binding failed |
| BackwardChaining.BindFoundBoth | src/generators/backward_chaining.py:312-319 | a slot filled by the scan keeps both the binding and its value-level mirror |
| BackwardChaining.BindNewSeed | src/generators/backward_chaining.py:321-330 | a new seed appended and bound keeps the loop invariant |
| BackwardChaining.BindSeedBoth | src/generators/backward_chaining.py:321-330 | a new seed keeps both the binding and its value-level mirror |
| BackwardChaining.BindFound | src/generators/backward_chaining.py:312-319 | a slot filled by the scan keeps the binding invariant |
| BackwardChaining.BindSeed | src/generators/backward_chaining.py:321-330 | a slot filled by a new seed keeps the invariant with the seed appended |
| BackwardChaining.AppendSlot | src/generators/backward_chaining.py:310-330 | binding one more slot keeps how the earlier slots were filled |
| BackwardChaining.MirrorFound | src/generators/backward_chaining.py:312-319 | the state the scan finds is the cell `NewestFree` picks |
| BackwardChaining.MirrorSeed | src/generators/backward_chaining.py:321-330 | the seed state appended is the seed cell the value-level binding appends |
| BackwardChaining.MirrorFail | src/generators/backward_chaining.py:331-347 | a slot with no state and no seed fails the value-level binding too, for the whole rule |
| BackwardChaining.MirrorsSnoc | src/generators/backward_chaining.py:326-363 | appending a new state that mirrors its cell keeps the mirror |
| BackwardChaining.ScanMirrors | src/generators/backward_chaining.py:310-317 | the scan over states finds the state of the cell the value-level scan finds, and nothing when it finds nothing |
| BackwardChaining.ValuesMirror | src/generators/backward_chaining.py:350-351 | the input states' values are the bound cells' values the executor sees |
| BackwardChaining.ExecutePlan | src/generators/backward_chaining.py:295-375 | the configuration is, state for cell, the value-level run `PlanRun.ForwardRun` from the seed (each output is the executor's result for its step on the inputs the binding picked). `ok` and the applied count are that run's, so a failure is a failed binding, a None from the executor or a wrong non-search type. The applied rules are a prefix of the plan, all of it iff execution succeeds, and every state after the seed is a dynamic seed or a stamped output of a plan rule |
| BackwardChaining.ExecuteStep | src/generators/backward_chaining.py:300-375 | one plan step moves the configuration exactly as `PlanRun.StepRun` moves the cells, keeping what was there |
| BackwardChaining.StampedGrown | src/generators/backward_chaining.py:321-330 | dynamic seeds appended keep every later state stamped |
| BackwardChaining.ApplyRule | src/generators/backward_chaining.py:349-375 | the step succeeds iff the executor returns an output typed as planned or the rule is a search; the output state is then appended and mirrors the output cell, and on failure nothing changes |
| BackwardChaining.StampedOutput | src/generators/backward_chaining.py:357-364 | a stamped output of a plan rule keeps every later state stamped |
| BackwardChaining.OutputMirrors | src/generators/backward_chaining.py:351-363 | the executed rule's new state, appended, mirrors the output cell of its step |
| BackwardChaining.TakeOneMore | src/generators/backward_chaining.py:364 | applying one more step of the plan extends the applied prefix by that step |
| BackwardChaining.SelectPlan | src/generators/backward_chaining.py:248-271 | the plans it chooses from are the search's result (`Searched` at depth max_hops with limit 20). There is no choice iff none has max_hops rules; otherwise the choice is the first highest-scoring such plan. The plan `[]` iff max_hops is 0 and the target is seedable; any chosen plan has exactly max_hops rules and, when max_hops ≥ 1, is sound |
| BackwardChaining.RunPlan | src/generators/backward_chaining.py:280-386 | running a non-empty plan never raises; a question comes exactly when the first rule has an input, a seed value exists for it and the forward run applies every step (`Runs`); a question realizes the plan |
| BackwardChaining.RunFrom | src/generators/backward_chaining.py:295-386 | from a catalog seed, a question comes exactly when the forward run applies every step, and it realizes the plan |
| BackwardChaining.Finish | src/generators/backward_chaining.py:382-386 | the formatted trajectory of a completed execution realizes the plan |
| BackwardChaining.RealizesIntro | src/generators/backward_chaining.py:377-386 | a completed run's configuration with the formatter's text is a realization of the plan |
| BackwardChaining.Generate | src/generators/backward_chaining.py:240-386 | the plan is the first best-scoring plan of exactly max_hops rules among the search's result, and there is none iff no such plan was found. It raises iff that plan is `[]` (max_hops 0, seedable target). A question comes iff a plan was chosen and its forward run completes. A question applies that sound plan, the configuration is the run's, and its text is the formatter's |
| PlanRun.SeedCell | src/generators/backward_chaining.py:323-326 | a seed cell holds the provider's value for its type and is marked seeded |
| PlanRun.NewestFree | src/generators/backward_chaining.py:310-317 | the newest cell below `n` of the type not yet taken: every later cell is of another type or taken, and nothing means every cell is |
| PlanRun.BindCells | src/generators/backward_chaining.py:304-347 | binding the first `j` slots: bound iff every slot was filled; the positions are distinct, in range and typed as their slots; appended cells are used seeds with the provider's truthy value; a failure is a slot with no untaken cell and no seed |
| PlanRun.SlotKeeps | src/generators/backward_chaining.py:310-342 | one slot keeps the binding's invariant and fails without changing anything |
| PlanRun.BindsUse | src/generators/backward_chaining.py:312-319 | taking an untaken cell of the slot's type keeps the invariant |
| PlanRun.BindsSeed | src/generators/backward_chaining.py:321-330 | appending and taking a seed cell keeps the invariant |
| PlanRun.BindFailStays | src/generators/backward_chaining.py:331-347 | after a failed slot no later slot changes the binding, as the source's break gives |
| PlanRun.CellValues | src/generators/backward_chaining.py:350-351 | the values of the bound cells, in slot order |
| PlanRun.StepBound | src/generators/backward_chaining.py:349-375 | once bound, a step succeeds iff the executor's output is typed as planned or the rule is a search, and then its output cell is appended |
| PlanRun.RunSteps | src/generators/backward_chaining.py:300-375 | after `n` steps the run has applied at most `n` and is ok iff it applied all `n`; it only ever appends cells |
| PlanRun.RunFormed | src/generators/backward_chaining.py:300-375 | every cell a run appends is a truthy seed of a seedable name type, or the executor's output for an applied step on distinct earlier cells typed as its inputs |
| PlanRun.StepFormed | src/generators/backward_chaining.py:300-375 | one step keeps every appended cell formed |
| PlanRun.BindFormed | src/generators/backward_chaining.py:304-347 | the binding's seed cells are formed |
| PlanRun.OutputFormed | src/generators/backward_chaining.py:351-364 | the output cell of a successful step is formed |
| PlanRun.FormedPrefix | src/generators/backward_chaining.py:300-375 | appending cells keeps earlier cells formed |
| PlanRun.FailureStays | src/generators/backward_chaining.py:370-375 | after a failed step no later step changes the run, as the source's break gives |
| PlanRun.LastIsFinalOutput | src/generators/backward_chaining.py:363-382 | a completed run ends with the output of the plan's last step |
| TemplateBased.InputsByRule | src/generators/template_based.py:43 | every option's rule has an entry in `rule_to_inputs_map` |
| TemplateBased.InputsByRuleBound | src/generators/template_based.py:42-43 | every entry of the map is the resolver's binding of its rule |
| TemplateBased.Options | src/generators/template_based.py:45-47 | the step's options are matching rules that have an entry, with that entry's inputs |
| TemplateBased.OptionsSnocMatch | src/generators/template_based.py:45-47 | one more rule adds its option exactly when its template mentions the step and it has an entry |
| TemplateBased.OptionsFirst | src/generators/template_based.py:35-59 | there are no options iff no rule both mentions the step and has an entry; otherwise the first option is the first such rule in catalog order |
| TemplateBased.Matching | src/generators/template_based.py:31-35 | `matching_rules` as a definition: the catalog rules, in order, whose lowercased template contains the lowercased step; its consequences are TemplateBased.OptionsFirst and TemplateBased.StepChoiceFirst |
| TemplateBased.StepChoiceFirst | src/generators/template_based.py:34-59 | a step takes the first catalog rule whose template mentions the step and whose slots bind, with the resolver's binding; no choice iff there is no such rule |
| TemplateBased.FollowsExtend | src/generators/template_based.py:66-70 | a step that extends, stamped on a new state, keeps the template walk |
| TemplateBased.StepKept | src/generators/template_based.py:66-70 | appending a state and a rule keeps every step already taken |
| TemplateBased.StepNew | src/generators/template_based.py:66-70 | the appended state and rule are the next step taken |
| TemplateBased.CollectOptions | src/generators/template_based.py:41-47 | the option loop builds exactly the step's options |
| TemplateBased.TakeStep | src/generators/template_based.py:31-82 | one step yields a new stamped state, or null exactly when the step fails (no match, no applicable match, executor failure or type mismatch) |
| TemplateBased.FollowTemplate | src/generators/template_based.py:29-82 | the step loop follows the template and stops early only at a failing step |
| TemplateBased.Generate | src/generators/template_based.py:11-89 | a result follows every step of the template (one rule and one state per step) with the formatter's question; no result means some step failed, never a partial trajectory; the empty template gives the zero-hop question |
| TemplateBased.FirstStepTaken | src/generators/template_based.py:29-82 | a template walk with a step taken took its first step from the seed alone |
| TableOps.FirstKeyMatch | src/operators/table_ops.py:40-56 | the index of the first row whose key cell renders as the key value, or none when no row matches |
| TableOps.TableLookup | src/operators/table_ops.py:9-63 | fails on a wrong argument count, a non-table or empty table, non-string names or columns missing from the first row; otherwise the first matching row's target value typed as expected, failing when no row matches or the value is None |
| TableOps.ComparisonKinds | src/operators/table_ops.py:86-87 | the accepted comparisons are exactly the equality, greater and less spellings |
| TableOps.NormalizeComparison | src/operators/table_ops.py:85 | normalisation lowercases each character and writes "_" as " " |
| TableOps.NormalizeIdempotent | src/operators/table_ops.py:85 | normalising twice is normalising once |
| TableOps.Kept | src/operators/table_ops.py:91-130 | the kept rows are no more than the table's |
| TableOps.KeptMembers | src/operators/table_ops.py:91-130 | a row is kept iff it is in the table, has the column, and its cell matches |
| TableOps.KeptAppend | src/operators/table_ops.py:91-130 | filtering keeps table order: the filter of two tables is the two filters in turn |
| TableOps.KeptIdempotent | src/operators/table_ops.py:91-130 | filtering a filtered table again changes nothing |
| TableOps.FilterTable | src/operators/table_ops.py:66-136 | fails on a wrong argument count, a non-table, non-string names or an unknown comparison; otherwise the kept rows, typed TABLE_DATA even when empty |
| TableOps.RowMatch | src/operators/table_ops.py:96-127 | a cell matches numerically, or by string equality for the equality spellings; a failed float conversion drops the row |
| TableOps.CellMatches | src/operators/table_ops.py:98-127 | a cell's comparison as a definition: numeric when both are numbers or an ordering converts both with `float`, string equality for the equality spellings; its cases are stated by TableOps.RowMatch |
| TableOps.NumericCells | src/operators/table_ops.py:166-174 | the aggregated values are all numbers |
| TableOps.NumericCellsAppend | src/operators/table_ops.py:166-174 | the numeric cells of two tables are each table's cells in turn |
| TableOps.TotalAppend | src/operators/table_ops.py:182 | the total of two lists is the sum of their totals |
| TableOps.IntegerTotal | src/operators/table_ops.py:182 | ints sum to an int: the exact total equals the integer total |
| TableOps.TotalBounds | src/operators/table_ops.py:182 | the total of values within [lo, hi] lies within n·lo and n·hi |
| TableOps.AggregateNumbers | src/operators/table_ops.py:180-184 | `sum` yields the total and `mean` the total over the count |
| TableOps.MeanWithin | src/operators/table_ops.py:184 | the mean lies between any bounds of the values |
| TableOps.AggregateTable | src/operators/table_ops.py:139-193 | fails unless three arguments and a known function name (checked before the table), a table and a string column; fails when no numeric cell exists; otherwise the sum or the mean, typed as expected |

## Left out

- `_execute_rule`'s dispatch of query strings to the operator stubs, and the stubs
  themselves (search, calculate, code runner, text extraction): the model takes an
  arbitrary executor. The calculate stub is called with three arguments but takes
  two, so CALCULATE rules always fail in practice; any executor may fail, so this is
  covered but not singled out.
- The relationship and contextual search functions that `base_generator.py` imports but
  that the search module does not define. Only the seven existing operator kinds are
  modelled.
- `_load_sample_data` and `_find_seed_value_for_type`: file I/O and a lazy cache. They
  are the `SeedProvider` parameter.
- All `print` logging, the demo drivers and the packages' re-exports.
- Python's `str`, `repr` and `float(str)` are the `render` and `parse` parameters. The
  model does not know how they render or parse; NaN and infinities are not modelled.
- Lowercasing covers ASCII letters only, with no Unicode case mapping.
- Floats are exact reals: float rounding in the selector, the plan score and
  `statistics.mean` is not modelled.
- Types.RuleRepr: the rule repr is defined by its expression only; no property beyond
  the round trip of its complexity (Strings.IntToStringRoundTrip) is stated.
- TemplateBased.Matching: carries no contract of its own. What a step matches is
  stated through TemplateBased.StepChoiceFirst and TemplateBased.OptionsFirst.
- Walk.WalkProvenance: does not state that the states after the seed are new objects.
  `Walk.Execute` and `BaseGenerator.ExecuteRule` state freshness per state; the walk
  does not carry it.
- BackwardPlans.Shuffle: Python's `randbelow` is modelled as the next number of the
  stream modulo the remaining length. The distribution is not modelled.
- Walk.GoalScoresEntries: the goal map is keyed by `id(rule)` in the source and by the
  rule (which carries its identity) in the model.

/** The backward generator's forward execution over values. The configuration is
    a sequence of cells, each holding a value, a type and how it came about (the
    seed made on the fly, or the output of a step of the plan from the cells at
    given positions), so that the whole execution is a function of the plan, the
    executor and the seed provider. A cell's position is its identity, as a
    state's object identity is in the generator. */
module PlanRun {
  import opened Strings
  import opened Types
  import opened BaseGenerator
  import opened BackwardPlans

  /** `_find_seed_value_for_type`: the sample value for a type, `NoneValue` when
      nothing is loaded for it. */
  type SeedProvider = InfoType -> Value

  /** A seed value the forward execution accepts for a slot: one of a simple type
      that is truthy. */
  predicate Offered(seeds: SeedProvider, t: InfoType)
  {
    DynamicSeedable(t) && Truthy(seeds(t))
  }

  datatype Origin = Seeded | Produced(step: nat, inputs: seq<nat>)

  datatype Cell = Cell(value: Value, infoType: InfoType, origin: Origin)

  /** The seed cell of a plan's execution. */
  function SeedCell(seeds: SeedProvider, t: InfoType): (c: Cell)
    ensures c.value == seeds(t) && c.infoType == t && c.origin == Seeded
  {
    Cell(seeds(t), t, Seeded)
  }

  // ------------------------------------------------------------------ binding the inputs

  /** The scan of the first `n` cells newest first: the position of the first one
      of type `t` that is not already `used`. */
  function NewestFree(cells: seq<Cell>, t: InfoType, used: seq<nat>, n: nat): (r: Option<nat>)
    requires n <= |cells|
    ensures r.Some? ==> r.value < n && cells[r.value].infoType == t && r.value !in used
    ensures r.Some? ==> forall k :: r.value < k < n ==> cells[k].infoType != t || k in used
    ensures r.None? ==> forall k :: 0 <= k < n ==> cells[k].infoType != t || k in used
  {
    if n == 0 then None
    else if cells[n - 1].infoType == t && n - 1 !in used then Some(n - 1)
    else NewestFree(cells, t, used, n - 1)
  }

  /** The configuration after binding some slots, the positions bound, and whether
      every slot so far found a cell. */
  datatype Bind = Bind(cells: seq<Cell>, inputs: seq<nat>, bound: bool)

  /** One slot: the newest unused cell of its type, else a new seed cell appended
      and used, else the binding fails. */
  function BindSlot(b: Bind, t: InfoType, seeds: SeedProvider): (r: Bind)
  {
    match NewestFree(b.cells, t, b.inputs, |b.cells|)
    case Some(k) => Bind(b.cells, b.inputs + [k], true)
    case None =>
      if Offered(seeds, t) then Bind(b.cells + [SeedCell(seeds, t)], b.inputs + [|b.cells|], true)
      else Bind(b.cells, b.inputs, false)
  }

  /** The input loop over the first `j` slots of `types`; it stops at the first
      slot that fails. */
  function BindCells(cells: seq<Cell>, types: seq<InfoType>, seeds: SeedProvider, j: nat): (b: Bind)
    requires j <= |types|
    ensures |b.inputs| <= j && (b.bound <==> |b.inputs| == j)
    ensures Binds(cells, types, seeds, b)
    ensures !b.bound ==>
      NewestFree(b.cells, types[|b.inputs|], b.inputs, |b.cells|).None? && !Offered(seeds, types[|b.inputs|])
  {
    if j == 0 then Bind(cells, [], true)
    else
      var b := BindCells(cells, types, seeds, j - 1);
      if !b.bound then b else SlotKeeps(cells, types, seeds, b); BindSlot(b, types[j - 1], seeds)
  }

  /** What a binding against `cells` keeps: the cells start with `cells`; every
      bound position holds a cell of its slot's type and none is bound twice; and
      every cell appended is a seed of a simple type, with its truthy sample value,
      bound to a slot. */
  predicate Binds(cells: seq<Cell>, types: seq<InfoType>, seeds: SeedProvider, b: Bind)
  {
    && |b.cells| >= |cells| && b.cells[..|cells|] == cells && |b.inputs| <= |types|
    && (forall m :: 0 <= m < |b.inputs| ==> b.inputs[m] < |b.cells| && b.cells[b.inputs[m]].infoType == types[m])
    && (forall m, n :: 0 <= m < n < |b.inputs| ==> b.inputs[m] != b.inputs[n])
    && (forall k :: |cells| <= k < |b.cells| ==>
          k in b.inputs && b.cells[k].origin == Seeded
          && Offered(seeds, b.cells[k].infoType) && b.cells[k].value == seeds(b.cells[k].infoType))
  }

  /** Binding one more slot keeps what a binding keeps. */
  lemma SlotKeeps(cells: seq<Cell>, types: seq<InfoType>, seeds: SeedProvider, b: Bind)
    requires Binds(cells, types, seeds, b) && |b.inputs| < |types|
    ensures var r := BindSlot(b, types[|b.inputs|], seeds);
      Binds(cells, types, seeds, r) && (r.bound <==> |r.inputs| == |b.inputs| + 1)
      && (!r.bound ==> r == Bind(b.cells, b.inputs, false))
  {
    var t := types[|b.inputs|];
    var scan := NewestFree(b.cells, t, b.inputs, |b.cells|);
    if scan.Some? {
      BindsUse(cells, types, seeds, b, scan.value);
    } else if Offered(seeds, t) {
      BindsSeed(cells, types, seeds, b);
    }
  }

  /** Binding the next slot to an unused cell of its type keeps the binding. */
  lemma BindsUse(cells: seq<Cell>, types: seq<InfoType>, seeds: SeedProvider, b: Bind, k: nat)
    requires Binds(cells, types, seeds, b) && |b.inputs| < |types|
    requires k < |b.cells| && b.cells[k].infoType == types[|b.inputs|] && k !in b.inputs
    ensures Binds(cells, types, seeds, Bind(b.cells, b.inputs + [k], true))
  {
    var inputs := b.inputs + [k];
    forall m | 0 <= m < |inputs| ensures inputs[m] < |b.cells| && b.cells[inputs[m]].infoType == types[m] {
      if m < |b.inputs| {
        assert inputs[m] == b.inputs[m];
      }
    }
    forall k' | |cells| <= k' < |b.cells| ensures k' in inputs {
      assert k' in b.inputs;
    }
  }

  /** Binding the next slot to a new seed cell keeps the binding. */
  lemma BindsSeed(cells: seq<Cell>, types: seq<InfoType>, seeds: SeedProvider, b: Bind)
    requires Binds(cells, types, seeds, b) && |b.inputs| < |types| && Offered(seeds, types[|b.inputs|])
    ensures var t := types[|b.inputs|];
      Binds(cells, types, seeds, Bind(b.cells + [SeedCell(seeds, t)], b.inputs + [|b.cells|], true))
  {
    var t := types[|b.inputs|];
    var n := |b.cells|;
    var longer, inputs := b.cells + [SeedCell(seeds, t)], b.inputs + [n];
    assert longer[..|cells|] == b.cells[..|cells|];
    forall m | 0 <= m < |inputs| ensures inputs[m] < |longer| && longer[inputs[m]].infoType == types[m] {
      if m < |b.inputs| {
        assert inputs[m] == b.inputs[m] && longer[b.inputs[m]] == b.cells[b.inputs[m]];
      }
    }
    forall m | 0 <= m < |b.inputs| ensures inputs[m] != n {
      assert inputs[m] == b.inputs[m];
    }
    forall k' | |cells| <= k' < |longer|
      ensures k' in inputs && longer[k'].origin == Seeded
        && Offered(seeds, longer[k'].infoType) && longer[k'].value == seeds(longer[k'].infoType)
    {
      if k' < n {
        assert longer[k'] == b.cells[k'] && k' in b.inputs;
      }
    }
  }

  /** A failed binding stays failed: later slots change nothing. */
  lemma {:induction false} BindFailStays(cells: seq<Cell>, types: seq<InfoType>, seeds: SeedProvider, j: nat, m: nat)
    requires j <= m <= |types| && !BindCells(cells, types, seeds, j).bound
    ensures BindCells(cells, types, seeds, m) == BindCells(cells, types, seeds, j)
    decreases m - j
  {
    if m != j {
      BindFailStep(cells, types, seeds, j, j + 1);
      BindFailStays(cells, types, seeds, j + 1, m);
    }
  }

  /** A failed binding is not extended by the next slot. */
  lemma BindFailStep(cells: seq<Cell>, types: seq<InfoType>, seeds: SeedProvider, j: nat, next: nat)
    requires next == j + 1 && next <= |types| && !BindCells(cells, types, seeds, j).bound
    ensures BindCells(cells, types, seeds, next) == BindCells(cells, types, seeds, j)
  {
  }

  /** The values of the cells at the given positions, in order. */
  function CellValues(cells: seq<Cell>, idx: seq<nat>): (vs: seq<Value>)
    requires forall m :: 0 <= m < |idx| ==> idx[m] < |cells|
    ensures |vs| == |idx| && forall m :: 0 <= m < |idx| ==> vs[m] == cells[idx[m]].value
  {
    if idx == [] then [] else CellValues(cells, idx[..|idx| - 1]) + [cells[idx[|idx| - 1]].value]
  }

  // ------------------------------------------------------------------ running the plan

  /** The configuration after some steps, the number of rules applied, and whether
      every step so far succeeded. */
  datatype Run = Run(cells: seq<Cell>, applied: nat, ok: bool)

  /** Step `i`: bind the rule's inputs, run it (the executor's call index is the
      step), and keep its output when it is typed as planned or the rule is a
      search. A failed binding keeps the seeds it appended. */
  function StepRun(plan: Plan, exec: Executor, seeds: SeedProvider, cells: seq<Cell>, i: nat): (r: Run)
    requires i < |plan|
  {
    var rule := plan[i];
    var b := BindCells(cells, rule.inputTypes, seeds, |rule.inputTypes|);
    if !b.bound then Run(b.cells, i, false)
    else
      match exec(i, rule, CellValues(b.cells, b.inputs))
      case None => Run(b.cells, i, false)
      case Some(out) =>
        if out.infoType == rule.outputType || rule.operator == Search then
          Run(b.cells + [OutputCell(out, i, b.inputs)], i + 1, true)
        else Run(b.cells, i, false)
  }

  /** The cell holding the output of step `i` on the cells at positions `idx`. */
  function OutputCell(out: Output, i: nat, idx: seq<nat>): (c: Cell)
    ensures c.value == out.value && c.infoType == out.infoType && c.origin == Produced(i, idx)
  {
    Cell(out.value, out.infoType, Produced(i, idx))
  }

  /** A step whose binding succeeds keeps the rule's output exactly when the
      executor gives one typed as planned or the rule is a search. */
  lemma StepBound(plan: Plan, exec: Executor, seeds: SeedProvider, cells: seq<Cell>, i: nat)
    requires i < |plan| && BindCells(cells, plan[i].inputTypes, seeds, |plan[i].inputTypes|).bound
    ensures var b := BindCells(cells, plan[i].inputTypes, seeds, |plan[i].inputTypes|);
      var out := exec(i, plan[i], CellValues(b.cells, b.inputs));
      var r := StepRun(plan, exec, seeds, cells, i);
      (r.ok <==> out.Some? && (out.value.infoType == plan[i].outputType || plan[i].operator == Search))
      && r.cells == (if r.ok then b.cells + [OutputCell(out.value, i, b.inputs)] else b.cells)
  {
  }

  /** The first `n` steps from `start`; the first failure stops the run. */
  function RunSteps(plan: Plan, exec: Executor, seeds: SeedProvider, start: seq<Cell>, n: nat): (r: Run)
    requires n <= |plan|
    ensures r.applied <= n && (r.ok <==> r.applied == n)
    ensures |r.cells| >= |start| && r.cells[..|start|] == start
  {
    if n == 0 then Run(start, 0, true)
    else
      var prev := RunSteps(plan, exec, seeds, start, n - 1);
      if !prev.ok then prev else StepRun(plan, exec, seeds, prev.cells, n - 1)
  }

  /** The whole forward execution of `plan` from the seed cell. */
  function ForwardRun(plan: Plan, exec: Executor, seeds: SeedProvider, seed: Cell): Run
  {
    RunSteps(plan, exec, seeds, [seed], |plan|)
  }

  /** What `generate` needs to reach a question from a plan: a first rule with an
      input, a seed value for that input's type, and every step succeeding. */
  predicate Runs(plan: Plan, exec: Executor, seeds: SeedProvider)
  {
    && plan != [] && plan[0].inputTypes != []
    && seeds(plan[0].inputTypes[0]) != NoneValue
    && ForwardRun(plan, exec, seeds, SeedCell(seeds, plan[0].inputTypes[0])).ok
  }

  // ------------------------------------------------------------------ what a run builds

  /** What a cell after the start is: a seed of a simple type with its truthy sample
      value, or the output of step `i`'s rule on earlier, distinct cells of the
      rule's input types, typed as planned unless the rule is a search. */
  predicate CellFormed(plan: Plan, exec: Executor, seeds: SeedProvider, cells: seq<Cell>, k: nat)
    requires k < |cells|
  {
    match cells[k].origin
    case Seeded => Offered(seeds, cells[k].infoType) && cells[k].value == seeds(cells[k].infoType)
    case Produced(i, inputs) =>
      && i < |plan| && |inputs| == |plan[i].inputTypes|
      && (forall m :: 0 <= m < |inputs| ==> inputs[m] < k && cells[inputs[m]].infoType == plan[i].inputTypes[m])
      && (forall m, n :: 0 <= m < n < |inputs| ==> inputs[m] != inputs[n])
      && exec(i, plan[i], CellValues(cells, inputs)) == Some(Output(cells[k].value, cells[k].infoType))
      && (cells[k].infoType == plan[i].outputType || plan[i].operator == Search)
  }

  /** Every cell a run appends is formed as `CellFormed` says, by a step it applied. */
  lemma {:induction false} RunFormed(plan: Plan, exec: Executor, seeds: SeedProvider, start: seq<Cell>, n: nat)
    requires n <= |plan|
    ensures var r := RunSteps(plan, exec, seeds, start, n); AllFormed(plan, exec, seeds, r.cells, |start|, r.applied)
  {
    if n > 0 {
      var prev := RunSteps(plan, exec, seeds, start, n - 1);
      var r := RunSteps(plan, exec, seeds, start, n);
      RunFormed(plan, exec, seeds, start, n - 1);
      if prev.ok {
        assert prev.applied == n - 1;
        assert r == StepRun(plan, exec, seeds, prev.cells, prev.applied);
        StepFormed(plan, exec, seeds, start, prev.cells, prev.applied);
      } else {
        assert r == prev;
      }
    }
  }

  /** The cells from position `from` on are formed by the first `applied` steps. */
  predicate AllFormed(plan: Plan, exec: Executor, seeds: SeedProvider, cells: seq<Cell>, from: nat, applied: nat)
  {
    forall k :: from <= k < |cells| ==> Formed(plan, exec, seeds, cells, k, applied)
  }

  /** A cell formed by one of the first `applied` steps. */
  predicate Formed(plan: Plan, exec: Executor, seeds: SeedProvider, cells: seq<Cell>, k: nat, applied: nat)
    requires k < |cells|
  {
    CellFormed(plan, exec, seeds, cells, k) && (cells[k].origin.Produced? ==> cells[k].origin.step < applied)
  }

  /** A step keeps the cells already formed and forms the ones it appends. */
  lemma StepFormed(plan: Plan, exec: Executor, seeds: SeedProvider, start: seq<Cell>, cells: seq<Cell>, i: nat)
    requires i < |plan| && |start| <= |cells|
    requires AllFormed(plan, exec, seeds, cells, |start|, i)
    ensures var r := StepRun(plan, exec, seeds, cells, i); AllFormed(plan, exec, seeds, r.cells, |start|, r.applied)
  {
    var rule := plan[i];
    var b := BindCells(cells, rule.inputTypes, seeds, |rule.inputTypes|);
    BindFormed(plan, exec, seeds, start, cells, rule.inputTypes, b, i);
    if b.bound {
      var vs := CellValues(b.cells, b.inputs);
      var out := exec(i, rule, vs);
      if out.Some? && (out.value.infoType == rule.outputType || rule.operator == Search) {
        OutputFormed(plan, exec, seeds, start, b.cells, b.inputs, i, out.value, i + 1);
      }
    }
  }

  /** The cells after a binding are formed: the earlier ones stay so, the new seeds
      are. */
  lemma BindFormed(plan: Plan, exec: Executor, seeds: SeedProvider, start: seq<Cell>, cells: seq<Cell>,
                   types: seq<InfoType>, b: Bind, i: nat)
    requires |start| <= |cells| && Binds(cells, types, seeds, b)
    requires forall k :: |start| <= k < |cells| ==> Formed(plan, exec, seeds, cells, k, i)
    ensures forall k :: |start| <= k < |b.cells| ==> Formed(plan, exec, seeds, b.cells, k, i)
  {
    forall k | |start| <= k < |b.cells| ensures Formed(plan, exec, seeds, b.cells, k, i) {
      if k < |cells| {
        assert Formed(plan, exec, seeds, cells, k, i);
        FormedPrefix(plan, exec, seeds, cells, b.cells, k);
        assert b.cells[k] == cells[k];
      }
    }
  }

  /** The output of step `i`, appended, is formed, and so stay the cells before it. */
  lemma OutputFormed(plan: Plan, exec: Executor, seeds: SeedProvider, start: seq<Cell>, cells: seq<Cell>,
                     inputs: seq<nat>, i: nat, out: Output, applied: nat)
    requires i < |plan| && |start| <= |cells| && applied == i + 1
    requires forall k :: |start| <= k < |cells| ==> Formed(plan, exec, seeds, cells, k, i)
    requires |inputs| == |plan[i].inputTypes|
    requires forall m :: 0 <= m < |inputs| ==> inputs[m] < |cells| && cells[inputs[m]].infoType == plan[i].inputTypes[m]
    requires forall m, n :: 0 <= m < n < |inputs| ==> inputs[m] != inputs[n]
    requires exec(i, plan[i], CellValues(cells, inputs)) == Some(out)
    requires out.infoType == plan[i].outputType || plan[i].operator == Search
    ensures var longer := cells + [Cell(out.value, out.infoType, Produced(i, inputs))];
      forall k :: |start| <= k < |longer| ==> Formed(plan, exec, seeds, longer, k, applied)
  {
    var longer := cells + [Cell(out.value, out.infoType, Produced(i, inputs))];
    forall k | |start| <= k < |cells| ensures Formed(plan, exec, seeds, longer, k, applied) {
      assert Formed(plan, exec, seeds, cells, k, i);
      FormedPrefix(plan, exec, seeds, cells, longer, k);
      assert longer[k] == cells[k];
    }
    forall m | 0 <= m < |inputs| ensures longer[inputs[m]] == cells[inputs[m]] {
    }
    assert CellValues(longer, inputs) == CellValues(cells, inputs);
    assert CellFormed(plan, exec, seeds, longer, |cells|);
  }

  /** A formed cell stays formed when cells are appended after it. */
  lemma FormedPrefix(plan: Plan, exec: Executor, seeds: SeedProvider, cells: seq<Cell>, longer: seq<Cell>, k: nat)
    requires k < |cells| <= |longer| && longer[..|cells|] == cells
    requires CellFormed(plan, exec, seeds, cells, k)
    ensures CellFormed(plan, exec, seeds, longer, k)
  {
    assert longer[k] == cells[k];
    if cells[k].origin.Produced? {
      var inputs := cells[k].origin.inputs;
      forall m | 0 <= m < |inputs| ensures longer[inputs[m]] == cells[inputs[m]] {
        assert longer[..|cells|][inputs[m]] == cells[inputs[m]];
      }
      assert CellValues(longer, inputs) == CellValues(cells, inputs);
    }
  }

  /** A failed run stays failed: later steps change nothing. */
  lemma {:induction false} FailureStays(plan: Plan, exec: Executor, seeds: SeedProvider, start: seq<Cell>, n: nat, m: nat)
    requires n <= m <= |plan| && !RunSteps(plan, exec, seeds, start, n).ok
    ensures RunSteps(plan, exec, seeds, start, m) == RunSteps(plan, exec, seeds, start, n)
    decreases m
  {
    if m > n {
      FailureStays(plan, exec, seeds, start, n, m - 1);
    }
  }

  /** A run that applies every rule of a non-empty plan ends with the last rule's
      output, the answer the question asks about. */
  lemma LastIsFinalOutput(plan: Plan, exec: Executor, seeds: SeedProvider, start: seq<Cell>)
    requires plan != [] && RunSteps(plan, exec, seeds, start, |plan|).ok
    ensures var r := RunSteps(plan, exec, seeds, start, |plan|);
      |r.cells| > |start| && r.cells[|r.cells| - 1].origin.Produced?
      && r.cells[|r.cells| - 1].origin.step == |plan| - 1
  {
    var prev := RunSteps(plan, exec, seeds, start, |plan| - 1);
    assert prev.ok;
  }
}

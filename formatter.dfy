/** `format_question`: turns a trajectory into numbered natural-language steps. Each
    step is its rule's template with the input placeholders replaced by references
    to earlier states and the output placeholder by a phrase naming the output type;
    the last step is phrased as the question. */
module Formatter {
  import opened Strings
  import opened Types
  import opened BaseGenerator

  /** The enum name lowercased, with "_" as " ". */
  function TypeWords(t: InfoType): string
  {
    Replace(Lower(InfoTypeName(t)), "_", " ")
  }

  /** Type words keep the name's length, lowercase it and space out its underscores. */
  lemma TypeWordsShape(t: InfoType)
    ensures |TypeWords(t)| == |InfoTypeName(t)|
    ensures forall i :: 0 <= i < |InfoTypeName(t)| ==>
      TypeWords(t)[i] == if InfoTypeName(t)[i] == '_' then ' ' else LowerChar(InfoTypeName(t)[i])
  {
    ReplaceChar(Lower(InfoTypeName(t)), '_', ' ');
  }

  function ZeroHopText(seed: State, render: Render): string
  {
    "Starting with " + render(seed.value) + " (type: " + InfoTypeName(seed.infoType)
      + "), what can you determine about it?"
  }

  function IntroText(seed: State, render: Render): string
  {
    "Consider the starting entity: '" + render(seed.value) + "'. Please perform the following sequence of operations:"
  }

  function InitialRef(seed: State, render: Render): string
  {
    "the initial entity ('" + render(seed.value) + "')"
  }

  function StepRef(i: nat): string
  {
    "the result from step " + NatToString(i)
  }

  function EarlierRef(s: State, render: Render): string
  {
    "an earlier result ('" + render(s.value) + "')"
  }

  /** `state_ref_map` after its first `n` entries: the seed, then `config[1..n]`,
      a later entry for the same state overwriting an earlier one. */
  function RefMap(seed: State, config: seq<State>, n: nat, render: Render): map<State, string>
    requires n <= |config|
  {
    if n <= 1 then map[seed := InitialRef(seed, render)]
    else RefMap(seed, config, n - 1, render)[config[n - 1] := StepRef(n - 1)]
  }

  /** `state_ref_map.get(id(s), ...)`, with the earlier-result phrase as default. */
  function Reference(refs: map<State, string>, s: State, render: Render): string
  {
    if s in refs then refs[s] else EarlierRef(s, render)
  }

  /** A state's reference is the step of its last position after the seed, if any;
      else the initial-entity phrase for the seed; else the earlier-result phrase. */
  lemma ReferenceCases(seed: State, config: seq<State>, s: State, render: Render)
    requires |config| >= 1
    ensures var k := LastIndex(config, s);
      Reference(RefMap(seed, config, |config|, render), s, render)
        == if k >= 1 then StepRef(k) else if s == seed then InitialRef(seed, render) else EarlierRef(s, render)
  {
    RefMapEntries(seed, config, |config|, s, render);
    assert config[..|config|] == config;
  }

  lemma {:induction false} RefMapEntries(seed: State, config: seq<State>, n: nat, s: State, render: Render)
    requires 1 <= n <= |config|
    ensures var m, k := RefMap(seed, config, n, render), LastIndex(config[..n], s);
      && (s in m <==> k >= 1 || s == seed)
      && (k >= 1 ==> m[s] == StepRef(k))
      && (k < 1 && s == seed ==> m[s] == InitialRef(seed, render))
    decreases n
  {
    if n == 1 {
      var k := LastIndex(config[..1], s);
      assert k < 1;
    } else {
      RefMapEntries(seed, config, n - 1, s, render);
      assert config[..n][..n - 1] == config[..n - 1];
      assert config[..n][n - 1] == config[n - 1];
    }
  }

  /** The placeholder for input `j`. */
  function Placeholder(j: nat): (p: string)
    ensures |p| > 0
  {
    "{input" + NatToString(j) + "}"
  }

  /** The template with `{input0}`, `{input1}`, ... replaced, in that order, by the
      references of the inputs. */
  function Substitute(desc: string, inputs: seq<State>, refs: map<State, string>, render: Render): string
  {
    if inputs == [] then desc
    else
      var n := |inputs| - 1;
      Replace(Substitute(desc, inputs[..n], refs, render), Placeholder(n), Reference(refs, inputs[n], render))
  }

  /** A template without input placeholders is left as it is. */
  lemma {:induction false} SubstituteWithoutPlaceholders(desc: string, inputs: seq<State>, refs: map<State, string>,
                                                       render: Render)
    requires forall j :: 0 <= j < |inputs| ==> !Contains(desc, Placeholder(j))
    ensures Substitute(desc, inputs, refs, render) == desc
    decreases |inputs|
  {
    if inputs != [] {
      var n := |inputs| - 1;
      SubstituteWithoutPlaceholders(desc, inputs[..n], refs, render);
      ReplaceAbsent(desc, Placeholder(n), Reference(refs, inputs[n], render));
    }
  }

  /** The last step: `{output}` asks for the output, the text is stripped and made to
      end in "?", with " X?" after a dangling " of", " for" or " in". */
  function FinalText(desc: string, t: InfoType): (r: string)
    ensures EndsWith(r, "?")
    ensures var d := Strip(Replace(desc, "{output}", "what is the resulting " + TypeWords(t)));
      && StartsWith(r, d)
      && (EndsWith(d, "?") ==> r == d)
      && (r == d + " X?" <==> !EndsWith(d, "?") && (EndsWith(d, " of") || EndsWith(d, " for") || EndsWith(d, " in")))
  {
    var d := Strip(Replace(desc, "{output}", "what is the resulting " + TypeWords(t)));
    if EndsWith(d, "?") then d
    else if EndsWith(d, " of") || EndsWith(d, " for") || EndsWith(d, " in") then
      assert (d + " X?")[..|d|] == d;
      d + " X?"
    else
      assert (d + "?")[..|d|] == d;
      d + "?"
  }

  /** An intermediate step: `{output}` names the output; nothing else changes. */
  function MiddleText(desc: string, t: InfoType): string
  {
    Replace(desc, "{output}", "the resulting " + TypeWords(t))
  }

  /** An intermediate step without an output placeholder is its substituted template. */
  lemma MiddleTextWithoutOutput(desc: string, t: InfoType)
    requires !Contains(desc, "{output}")
    ensures MiddleText(desc, t) == desc
  {
    ReplaceAbsent(desc, "{output}", "the resulting " + TypeWords(t));
  }

  /** Step `i`: the template of `applied[i]`, with the inputs recorded on the state it
      produced, `config[i + 1]`. */
  function StepText(config: seq<State>, applied: seq<Rule>, i: nat, refs: map<State, string>, render: Render): string
    reads config
    requires i < |applied| < |config|
  {
    var desc := Substitute(applied[i].template, config[i + 1].sourceInputs, refs, render);
    if i + 1 == |applied| then FinalText(desc, applied[i].outputType) else MiddleText(desc, applied[i].outputType)
  }

  /** The first `n` numbered lines. */
  function StepLines(config: seq<State>, applied: seq<Rule>, n: nat, refs: map<State, string>, render: Render)
    : (lines: seq<string>)
    reads config
    requires n <= |applied| < |config|
    ensures |lines| == n
    ensures forall i :: 0 <= i < n ==> lines[i] == NatToString(i + 1) + ". " + StepText(config, applied, i, refs, render)
  {
    if n == 0 then []
    else StepLines(config, applied, n - 1, refs, render) + [NatToString(n) + ". " + StepText(config, applied, n - 1, refs, render)]
  }

  /** The question text. */
  function FormatSpec(seed: State, applied: seq<Rule>, config: seq<State>, render: Render): string
    reads config
    requires |applied| < |config|
  {
    if applied == [] then ZeroHopText(seed, render)
    else
      var refs := RefMap(seed, config, |config|, render);
      IntroText(seed, render) + "\n" + Join(StepLines(config, applied, |applied|, refs, render), "\n")
  }

  /** Every generated text is a question: it ends in "?". With steps, it opens with
      the introduction and its last line is the final step. */
  lemma FormatIsQuestion(seed: State, applied: seq<Rule>, config: seq<State>, render: Render)
    requires |applied| < |config|
    ensures EndsWith(FormatSpec(seed, applied, config, render), "?")
    ensures applied != [] ==> StartsWith(FormatSpec(seed, applied, config, render), IntroText(seed, render) + "\n")
    ensures applied != [] ==>
      var refs := RefMap(seed, config, |config|, render);
      EndsWith(FormatSpec(seed, applied, config, render), StepText(config, applied, |applied| - 1, refs, render))
  {
    var text := FormatSpec(seed, applied, config, render);
    if applied == [] {
      var z := ZeroHopText(seed, render);
      assert z[|z| - 1..] == "?";
    } else {
      var refs := RefMap(seed, config, |config|, render);
      var lines := StepLines(config, applied, |applied|, refs, render);
      var last := StepText(config, applied, |applied| - 1, refs, render);
      var head := IntroText(seed, render) + "\n";
      assert text == head + Join(lines, "\n");
      assert text[..|head|] == head;
      JoinEndsWithLast(lines, "\n");
      assert lines[|lines| - 1] == NatToString(|applied|) + ". " + last;
      EndsWithAppend(NatToString(|applied|) + ". ", last, last) by {
        assert last[|last| - |last|..] == last;
      }
      EndsWithTrans(Join(lines, "\n"), lines[|lines| - 1], last);
      EndsWithAppend(head, Join(lines, "\n"), last);
      EndsWithTrans(text, last, "?");
    }
  }

  /** `format_question`: builds the reference map, then one line per applied rule. */
  method FormatQuestion(seed: State, applied: seq<Rule>, config: seq<State>, render: Render) returns (text: string)
    requires |applied| < |config|
    ensures text == FormatSpec(seed, applied, config, render)
  {
    if applied == [] {
      return ZeroHopText(seed, render);
    }
    var refs := map[seed := InitialRef(seed, render)];
    for i := 1 to |config|
      invariant refs == RefMap(seed, config, i, render)
    {
      refs := refs[config[i] := StepRef(i)];
    }
    var steps: seq<string> := [];
    for i := 0 to |applied|
      invariant steps == StepLines(config, applied, i, refs, render)
    {
      var rule := applied[i];
      var desc := rule.template;
      var inputs := config[i + 1].sourceInputs;
      if inputs != [] {
        for j := 0 to |inputs|
          invariant desc == Substitute(rule.template, inputs[..j], refs, render)
        {
          assert inputs[..j + 1][..j] == inputs[..j];
          desc := Replace(desc, Placeholder(j), Reference(refs, inputs[j], render));
        }
        assert inputs[..|inputs|] == inputs;
      }
      if i + 1 == |applied| {
        desc := Replace(desc, "{output}", "what is the resulting " + TypeWords(rule.outputType));
        desc := Strip(desc);
        if !EndsWith(desc, "?") {
          if EndsWith(desc, " of") || EndsWith(desc, " for") || EndsWith(desc, " in") {
            desc := desc + " X?";
          } else {
            desc := desc + "?";
          }
        }
      } else {
        desc := Replace(desc, "{output}", "the resulting " + TypeWords(rule.outputType));
      }
      steps := steps + [NatToString(i + 1) + ". " + desc];
    }
    text := IntroText(seed, render) + "\n" + Join(steps, "\n");
  }
}

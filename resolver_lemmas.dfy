/** What the applicability resolver guarantees: which state each slot gets, when
    a rule is applicable at all, and the order of the options. */
module ResolverLemmas {
  import opened Strings
  import opened Types
  import opened BaseGenerator

  /** No state appears twice (by identity). */
  predicate Distinct(config: seq<State>)
  {
    forall i, j :: 0 <= i < j < |config| ==> config[i] != config[j]
  }

  /** How many slots of `types` have type `t`. */
  function Count(types: seq<InfoType>, t: InfoType): (n: nat)
    ensures n <= |types|
  {
    if types == [] then 0
    else Count(types[..|types| - 1], t) + (if types[|types| - 1] == t then 1 else 0)
  }

  /** Counting over a longer prefix never gives less, and the slot at `k` adds one
      when it has type `t`. */
  lemma {:induction false} CountPrefix(types: seq<InfoType>, t: InfoType, k: nat)
    requires k < |types|
    ensures Count(types[..k], t) + (if types[k] == t then 1 else 0) <= Count(types, t)
    decreases |types| - k
  {
    if k == |types| - 1 {
      assert types[..|types| - 1] == types[..k];
    } else {
      var p := types[..|types| - 1];
      assert p[..k] == types[..k] && p[k] == types[k];
      CountPrefix(p, t, k);
    }
  }

  /** The `j`-th slot of type `t` exists for every `j` below the count. */
  lemma {:induction false} Occurrence(types: seq<InfoType>, t: InfoType, j: nat) returns (k: nat)
    requires j < Count(types, t)
    ensures k < |types| && types[k] == t && Count(types[..k], t) == j
    decreases |types|
  {
    var p := types[..|types| - 1];
    if j < Count(p, t) {
      k := Occurrence(p, t, j);
      assert p[..k] == types[..k];
    } else {
      k := |types| - 1;
      assert types[..k] == p;
    }
  }

  /** A state appended to the configuration comes first among the newest of its type. */
  lemma {:induction false} NewestOfTypeSnoc(config: seq<State>, s: State, t: InfoType)
    ensures NewestOfType(config + [s], t) == (if s.infoType == t then [s] else []) + NewestOfType(config, t)
    decreases |config|
  {
    if config == [] {
      assert ([] + [s])[1..] == [];
    } else {
      var tail, head := config[1..], if config[0].infoType == t then [config[0]] else [];
      assert (config + [s])[1..] == tail + [s] && (config + [s])[0] == config[0];
      NewestOfTypeSnoc(tail, s, t);
      ConcatAssoc(if s.infoType == t then [s] else [], NewestOfType(tail, t), head);
    }
  }

  lemma ConcatAssoc(a: seq<State>, b: seq<State>, c: seq<State>)
    ensures (a + b) + c == a + (b + c)
  {
  }

  /** A distinct configuration lists each state of a type once. */
  lemma {:induction false} NewestDistinct(config: seq<State>, t: InfoType)
    requires Distinct(config)
    ensures Distinct(NewestOfType(config, t))
    decreases |config|
  {
    if config != [] {
      var rest := config[1..];
      assert Distinct(rest) by {
        forall i, j | 0 <= i < j < |rest| ensures rest[i] != rest[j] {
          assert rest[i] == config[i + 1] && rest[j] == config[j + 1];
        }
      }
      NewestDistinct(rest, t);
      assert config[0] !in rest;
      assert config[0] !in NewestOfType(rest, t);
    }
  }

  /** Scanning a distinct list whose first `c` entries, and only those, are used
      finds entry `c`, if there is one. */
  lemma {:induction false} FirstUnusedAfterPrefix(cands: seq<State>, used: seq<State>, c: nat, m: nat)
    requires Distinct(cands) && m <= c
    requires forall j :: 0 <= j < |cands| ==> (cands[j] in used <==> j < c)
    ensures m <= |cands| ==> FirstUnused(cands[m..], used) == (if c < |cands| then Some(cands[c]) else None)
    decreases |cands| - m
  {
    if m < |cands| {
      assert cands[m..][0] == cands[m];
      assert cands[m..][1..] == cands[m + 1..];
      if m < c {
        FirstUnusedAfterPrefix(cands, used, c, m + 1);
      }
    }
  }

  /** Every slot finds a state of its type not taken by an earlier slot. */
  predicate SlotsAvailable(config: seq<State>, types: seq<InfoType>)
  {
    forall k :: 0 <= k < |types| ==> Count(types[..k], types[k]) < |NewestOfType(config, types[k])|
  }

  /** Slot `k` holds the state of its type ranked by the number of earlier slots of that type. */
  predicate BoundNewestFirst(config: seq<State>, types: seq<InfoType>, ins: seq<State>)
    requires SlotsAvailable(config, types) && |ins| == |types|
  {
    forall k :: 0 <= k < |types| ==> ins[k] == NewestOfType(config, types[k])[Count(types[..k], types[k])]
  }

  /** Once the slots of `p` are bound newest-first, a state of type `t` they took
      ranks below `Count(p, t)`. */
  lemma UsedAreNewest(config: seq<State>, p: seq<InfoType>, t: InfoType, prev: seq<State>, j: nat)
    requires Distinct(config) && SlotsAvailable(config, p) && |prev| == |p|
    requires BoundNewestFirst(config, p, prev)
    requires forall k :: 0 <= k < |p| ==> prev[k].infoType == p[k]
    requires j < |NewestOfType(config, t)| && NewestOfType(config, t)[j] in prev
    ensures j < Count(p, t)
  {
    var L := NewestOfType(config, t);
    NewestDistinct(config, t);
    var k :| 0 <= k < |prev| && prev[k] == L[j];
    assert p[k] == t;
    assert prev[k] == L[Count(p[..k], t)];
    CountPrefix(p, t, k);
  }

  /** Conversely the `Count(p, t)` newest states of type `t` were all taken. */
  lemma NewestAreUsed(config: seq<State>, p: seq<InfoType>, t: InfoType, prev: seq<State>, j: nat)
    requires SlotsAvailable(config, p) && |prev| == |p|
    requires BoundNewestFirst(config, p, prev)
    requires j < |NewestOfType(config, t)| && j < Count(p, t)
    ensures NewestOfType(config, t)[j] in prev
  {
    var k := Occurrence(p, t, j);
    assert prev[k] == NewestOfType(config, t)[j];
  }

  /** Input slot `k` is bound to the state of its type whose recency rank equals the
      number of earlier slots of that type: the newest for the first such slot, the
      second newest for the next, and so on. A rule binds exactly when every slot
      finds such a state. */
  lemma {:induction false} BindNewest(config: seq<State>, types: seq<InfoType>)
    requires Distinct(config)
    ensures Bind(config, types).Some? <==> SlotsAvailable(config, types)
    ensures Bind(config, types).Some? ==> BoundNewestFirst(config, types, Bind(config, types).value)
    decreases |types|
  {
    if types != [] {
      BindNewest(config, types[..|types| - 1]);
      BindNewestStep(config, types);
    }
  }

  /** The inductive step of `BindNewest`: from the prefix's binding to the whole. */
  lemma BindNewestStep(config: seq<State>, types: seq<InfoType>)
    requires Distinct(config) && types != []
    requires var p := types[..|types| - 1];
      Bind(config, p).Some? <==> SlotsAvailable(config, p)
    requires var p := types[..|types| - 1];
      Bind(config, p).Some? ==> BoundNewestFirst(config, p, Bind(config, p).value)
    ensures Bind(config, types).Some? <==> SlotsAvailable(config, types)
    ensures Bind(config, types).Some? ==> BoundNewestFirst(config, types, Bind(config, types).value)
  {
    var n := |types| - 1;
    var p := types[..n];
    var t := types[n];
    SlotsAvailableExtend(config, types);
    if Bind(config, p).Some? {
      var prev := Bind(config, p).value;
      var L := NewestOfType(config, t);
      var c := Count(p, t);
      NewestDistinct(config, t);
      forall j | 0 <= j < |L| ensures L[j] in prev <==> j < c {
        if L[j] in prev {
          UsedAreNewest(config, p, t, prev, j);
        }
        if j < c {
          NewestAreUsed(config, p, t, prev, j);
        }
      }
      FirstUnusedAfterPrefix(L, prev, c, 0);
      assert L[0..] == L;
      if Bind(config, types).Some? {
        assert Bind(config, types).value == prev + [L[c]];
        BoundNewestFirstExtend(config, types, prev, L[c]);
      }
    }
  }

  lemma BoundNewestFirstExtend(config: seq<State>, types: seq<InfoType>, prev: seq<State>, s: State)
    requires types != [] && SlotsAvailable(config, types) && |prev| + 1 == |types|
    requires SlotsAvailable(config, types[..|prev|]) && BoundNewestFirst(config, types[..|prev|], prev)
    requires s == NewestOfType(config, types[|prev|])[Count(types[..|prev|], types[|prev|])]
    ensures BoundNewestFirst(config, types, prev + [s])
  {
    var n := |prev|;
    var p := types[..n];
    var ins := prev + [s];
    forall k | 0 <= k < |types|
      ensures ins[k] == NewestOfType(config, types[k])[Count(types[..k], types[k])]
    {
      if k < n {
        assert types[..k] == p[..k] && types[k] == p[k];
        assert ins[k] == prev[k];
      } else {
        assert k == n && ins[k] == s;
      }
    }
  }

  /** The slot condition for a list of types is that of its prefix plus its last slot's. */
  lemma SlotsAvailableExtend(config: seq<State>, types: seq<InfoType>)
    requires types != []
    ensures var n := |types| - 1;
      SlotsAvailable(config, types) <==>
        SlotsAvailable(config, types[..n]) && Count(types[..n], types[n]) < |NewestOfType(config, types[n])|
  {
    var n := |types| - 1;
    var p := types[..n];
    if SlotsAvailable(config, types) {
      forall k | 0 <= k < n ensures Count(p[..k], p[k]) < |NewestOfType(config, p[k])| {
        assert types[..k] == p[..k] && types[k] == p[k];
      }
    }
    if SlotsAvailable(config, p) && Count(p, types[n]) < |NewestOfType(config, types[n])| {
      forall k | 0 <= k < |types| ensures Count(types[..k], types[k]) < |NewestOfType(config, types[k])| {
        if k < n {
          assert types[..k] == p[..k] && types[k] == p[k];
        } else {
          assert types[..k] == p;
        }
      }
    }
  }

  /** A rule is applicable iff the configuration holds, for every type, at least as
      many states of that type as the rule has slots of it. */
  lemma BindComplete(config: seq<State>, types: seq<InfoType>)
    requires Distinct(config)
    ensures Bind(config, types).Some? ==> forall t :: Count(types, t) <= |NewestOfType(config, t)|
    ensures (forall t :: Count(types, t) <= |NewestOfType(config, t)|) ==> Bind(config, types).Some?
  {
    BindNewest(config, types);
    if Bind(config, types).Some? {
      forall t ensures Count(types, t) <= |NewestOfType(config, t)| {
        SlotsBoundCount(config, types, t);
      }
    }
    if forall t :: Count(types, t) <= |NewestOfType(config, t)| {
      EnoughStatesSuffice(config, types);
    }
  }

  lemma EnoughStatesSuffice(config: seq<State>, types: seq<InfoType>)
    requires forall t :: Count(types, t) <= |NewestOfType(config, t)|
    ensures SlotsAvailable(config, types)
  {
    forall k | 0 <= k < |types|
      ensures Count(types[..k], types[k]) < |NewestOfType(config, types[k])|
    {
      CountPrefix(types, types[k], k);
    }
  }

  lemma SlotsBoundCount(config: seq<State>, types: seq<InfoType>, t: InfoType)
    requires SlotsAvailable(config, types)
    ensures Count(types, t) <= |NewestOfType(config, t)|
  {
    if Count(types, t) > 0 {
      var k := Occurrence(types, t, Count(types, t) - 1);
      assert Count(types[..k], types[k]) < |NewestOfType(config, types[k])|;
    }
  }

  /** The rules of a list of options. */
  function RulesOf(options: seq<Candidate>): (rs: seq<Rule>)
    ensures |rs| == |options|
    ensures forall i :: 0 <= i < |options| ==> rs[i] == options[i].rule
  {
    if options == [] then [] else [options[0].rule] + RulesOf(options[1..])
  }

  /** The first position of `r` in `rules`. */
  function IndexOf(rules: seq<Rule>, r: Rule): (i: nat)
    requires r in rules
    ensures i < |rules| && rules[i] == r
    ensures forall j :: 0 <= j < i ==> rules[j] != r
  {
    if rules[0] == r then 0 else 1 + IndexOf(rules[1..], r)
  }

  /** A rule is offered iff it is in the list and all its slots can be bound; the
      resolver knows nothing about which rules were applied before. */
  lemma ApplicableMembership(rules: seq<Rule>, config: seq<State>)
    ensures forall r :: r in RulesOf(Applicable(rules, config)) <==> r in rules && Bind(config, r.inputTypes).Some?
  {
    var opts := Applicable(rules, config);
    forall r | r in RulesOf(opts) ensures r in rules && Bind(config, r.inputTypes).Some? {
      var i :| 0 <= i < |opts| && RulesOf(opts)[i] == r;
      assert opts[i] in opts;
    }
    forall r | r in rules && Bind(config, r.inputTypes).Some? ensures r in RulesOf(opts) {
      var i :| 0 <= i < |rules| && rules[i] == r;
      ApplicableComplete(rules, config, i);
    }
  }

  /** A rule of the list whose slots can all be bound is offered. */
  lemma {:induction false} ApplicableComplete(rules: seq<Rule>, config: seq<State>, i: nat)
    requires i < |rules| && Bind(config, rules[i].inputTypes).Some?
    ensures rules[i] in RulesOf(Applicable(rules, config))
    decreases |rules|
  {
    var n := |rules| - 1;
    var prefix, tail := Applicable(rules[..n], config), Offer(rules[n], config);
    assert RulesOf(Applicable(rules, config)) == RulesOf(prefix) + RulesOf(tail) by {
      RulesOfAppend(prefix, tail);
    }
    if i == n {
      assert RulesOf(tail) == [rules[n]];
    } else {
      assert rules[..n][i] == rules[i];
      ApplicableComplete(rules[..n], config, i);
    }
  }

  lemma {:induction false} RulesOfAppend(a: seq<Candidate>, b: seq<Candidate>)
    ensures RulesOf(a + b) == RulesOf(a) + RulesOf(b)
  {
    var x, y := RulesOf(a + b), RulesOf(a) + RulesOf(b);
    forall i | 0 <= i < |x| ensures x[i] == y[i] {
      if i < |a| {
        assert (a + b)[i] == a[i];
      } else {
        assert (a + b)[i] == b[i - |a|];
      }
    }
  }

  /** Options in list order: each option's rule sits further along the list than
      the previous option's. */
  predicate InListOrder(rules: seq<Rule>, opts: seq<Candidate>)
    requires forall c :: c in opts ==> c.rule in rules
  {
    forall i, j :: 0 <= i < j < |opts| ==> IndexOf(rules, opts[i].rule) < IndexOf(rules, opts[j].rule)
  }

  /** Over a list without repeats, options come in list order, each rule at most once. */
  lemma {:induction false} ApplicableInOrder(rules: seq<Rule>, config: seq<State>)
    requires forall i, j :: 0 <= i < j < |rules| ==> rules[i] != rules[j]
    ensures InListOrder(rules, Applicable(rules, config))
    decreases |rules|
  {
    if rules != [] {
      var n := |rules| - 1;
      var p := rules[..n];
      ApplicableInOrder(p, config);
      var prefix := Applicable(p, config);
      var tail := Offer(rules[n], config);
      var opts := Applicable(rules, config);
      assert opts == prefix + tail;
      forall i | 0 <= i < |prefix| ensures IndexOf(rules, prefix[i].rule) == IndexOf(p, prefix[i].rule) < n {
        IndexOfPrefix(rules, n, prefix[i].rule);
      }
      if tail != [] {
        assert IndexOf(rules, rules[n]) == n;
      }
      forall i, j | 0 <= i < j < |opts|
        ensures IndexOf(rules, opts[i].rule) < IndexOf(rules, opts[j].rule)
      {
        assert opts[i] == prefix[i];
        if j < |prefix| {
          assert opts[j] == prefix[j];
        } else {
          assert opts[j] == tail[0];
        }
      }
    }
  }

  lemma IndexOfPrefix(rules: seq<Rule>, n: nat, r: Rule)
    requires n <= |rules| && r in rules[..n]
    ensures IndexOf(rules, r) == IndexOf(rules[..n], r) < n
  {
    var i := IndexOf(rules[..n], r);
    assert rules[i] == r;
    var i' := IndexOf(rules, r);
    assert i' <= i;
    assert rules[..n][i'] == r;
  }
}

/** What the diversity-weighted selector guarantees: the score range, when it
    refuses to choose, that it only ever returns a candidate, and that every
    candidate can be drawn. */
module SelectorLemmas {
  import opened Strings
  import opened Types
  import opened BaseGenerator

  /** The summed ages lie between 0 and `count` times the oldest possible age. */
  lemma {:induction false} AgeTotalsBounds(inputs: seq<State>, config: seq<State>)
    ensures 0 <= AgeTotals(inputs, config).0 <= AgeTotals(inputs, config).1 * (|config| - 1)
    decreases |inputs|
  {
    if inputs != [] {
      var p := inputs[..|inputs| - 1];
      AgeTotalsBounds(p, config);
      var (total, count) := AgeTotals(p, config);
      var idx := LastIndex(config, inputs[|inputs| - 1]);
      if idx != -1 {
        AddAge(total, count, |config| - 1, |config| - 1 - idx);
      }
    }
  }

  lemma AddAge(total: int, count: int, m: int, age: int)
    requires 0 <= total <= count * m && 0 <= age <= m
    ensures total + age <= (count + 1) * m
  {
    assert (count + 1) * m == count * m + m;
  }

  lemma RatioBounds(total: int, count: int, maxAge: int)
    requires count > 0 && maxAge > 0 && 0 <= total <= count * maxAge
    ensures 0.0 <= AgeRatio(total, count, maxAge) <= 1.0
  {
    var x, y, m := total as real, count as real, maxAge as real;
    assert (count * maxAge) as real == y * m;
    var q := x / y;
    assert q * y == x;
    assert q <= m by {
      assert (m - q) * y == y * m - x;
    }
    var r := q / m;
    assert r * m == q;
    assert (1.0 - r) * m == m - q;
    assert AgeRatio(total, count, maxAge) == r;
  }

  /** The recency bonus lies in [0, 0.5], and is 0 while the configuration is the seed alone. */
  lemma RecencyBounds(inputs: seq<State>, config: seq<State>)
    ensures 0.0 <= Recency(inputs, config) <= 0.5
    ensures |config| <= 1 ==> Recency(inputs, config) == 0.0
  {
    AgeTotalsBounds(inputs, config);
    var (total, count) := AgeTotals(inputs, config);
    if count > 0 && |config| - 1 > 0 {
      RatioBounds(total, count, |config| - 1);
    }
  }

  /** The diversity score: 1.0, plus 1.0 exactly when a previous rule had a different
      operator, plus a recency bonus of at most 0.5; so it lies in [1.0, 2.5]. */
  lemma DiversityBounds(c: Candidate, config: seq<State>, applied: seq<Rule>)
    ensures 1.0 <= DiversityScore(c, config, applied) <= 2.5
    ensures Novelty(c.rule, applied) == 1.0 <==>
      applied != [] && c.rule.operator != applied[|applied| - 1].operator
    ensures Novelty(c.rule, applied) == 0.0 || Novelty(c.rule, applied) == 1.0
  {
    RecencyBounds(c.inputs, config);
  }

  /** The floored weights of the candidates are each at least the floor. */
  lemma {:induction false} SumAtLeastFloor(ws: seq<real>)
    requires forall i :: 0 <= i < |ws| ==> ws[i] >= Floor
    ensures Sum(ws) >= |ws| as real * Floor
    ensures Sum(ws) == |ws| as real * Floor <==> forall i :: 0 <= i < |ws| ==> ws[i] == Floor
    decreases |ws|
  {
    if ws != [] {
      var p := ws[..|ws| - 1];
      SumAtLeastFloor(p);
      if Sum(ws) == |ws| as real * Floor {
        forall i | 0 <= i < |ws| ensures ws[i] == Floor {
          if i < |p| {
            assert ws[i] == p[i];
          }
        }
      }
      if forall i :: 0 <= i < |ws| ==> ws[i] == Floor {
        assert forall i :: 0 <= i < |p| ==> p[i] == Floor;
      }
    }
  }

  /** The selector refuses to choose when there is no candidate or every candidate's
      combined score is at or below the floor. */
  lemma SelectionRefuses(cands: seq<Candidate>, config: seq<State>, applied: seq<Rule>,
                         goal: Option<map<Rule, real>>, draw: real)
    requires forall i :: 0 <= i < |cands| ==> Combined(cands[i], config, applied, goal) <= Floor
    ensures Selection(cands, config, applied, goal, draw).None?
  {
    if cands != [] {
      var ws := Weights(cands, config, applied, goal);
      forall i | 0 <= i < |ws| ensures ws[i] == Floor {
        assert ws[i] == Weight(cands[i], config, applied, goal);
      }
      SumAtLeastFloor(ws);
    }
  }

  /** One candidate whose combined score is above the floor makes the selector choose,
      and what it chooses is one of the candidates, bound inputs included. */
  lemma SelectionChooses(cands: seq<Candidate>, config: seq<State>, applied: seq<Rule>,
                         goal: Option<map<Rule, real>>, draw: real, i: nat)
    requires i < |cands| && Combined(cands[i], config, applied, goal) > Floor
    ensures Selection(cands, config, applied, goal, draw).Some?
    ensures Selection(cands, config, applied, goal, draw).value in cands
  {
    var ws := Weights(cands, config, applied, goal);
    assert ws[i] == Weight(cands[i], config, applied, goal);
    assert ws[i] != Floor;
    forall j | 0 <= j < |ws| ensures ws[j] >= Floor {
      assert ws[j] == Weight(cands[j], config, applied, goal);
    }
    SumAtLeastFloor(ws);
    assert Sum(ws) > |ws| as real * Floor;
  }

  /** One candidate whose goal factor exceeds the floor is enough for a choice: the
      diversity score is at least 1, so its weight is above the floor. Without goal
      scores every candidate qualifies. */
  lemma SelectionSucceeds(cands: seq<Candidate>, config: seq<State>, applied: seq<Rule>,
                          goal: Option<map<Rule, real>>, draw: real, i: nat)
    requires i < |cands| && GoalFactor(goal, cands[i].rule) > Floor
    ensures Selection(cands, config, applied, goal, draw).Some?
  {
    var d, g := DiversityScore(cands[i], config, applied), GoalFactor(goal, cands[i].rule);
    DiversityBounds(cands[i], config, applied);
    ScaleAtLeast(d, g);
    assert Combined(cands[i], config, applied, goal) == d * g;
    SelectionChooses(cands, config, applied, goal, draw, i);
  }

  lemma ScaleAtLeast(d: real, g: real)
    requires d >= 1.0 && g >= 0.0
    ensures d * g >= g
  {
    assert d * g - g == (d - 1.0) * g;
  }

  lemma {:induction false} SumFront(ws: seq<real>)
    requires ws != []
    ensures Sum(ws) == ws[0] + Sum(ws[1..])
    decreases |ws|
  {
    if |ws| > 1 {
      var p := ws[..|ws| - 1];
      SumFront(p);
      assert p[1..] == ws[1..][..|ws[1..]| - 1];
    } else {
      assert ws[1..] == [];
      assert ws[..|ws| - 1] == [];
    }
  }

  lemma {:induction false} SumPositivePrefix(ws: seq<real>, k: nat)
    requires forall i :: 0 <= i < |ws| ==> ws[i] > 0.0
    requires k < |ws|
    ensures Sum(ws[..k]) < Sum(ws)
    ensures 0.0 <= Sum(ws[..k])
    decreases |ws|
  {
    var p := ws[..|ws| - 1];
    if k < |ws| - 1 {
      assert ws[..k] == p[..k];
      SumPositivePrefix(p, k);
    } else {
      assert ws[..k] == p;
      SumNonNegative(p);
    }
  }

  lemma {:induction false} SumNonNegative(ws: seq<real>)
    requires forall i :: 0 <= i < |ws| ==> ws[i] > 0.0
    ensures Sum(ws) >= 0.0
    decreases |ws|
  {
    if ws != [] {
      SumNonNegative(ws[..|ws| - 1]);
    }
  }

  /** With positive weights, the point where index `k`'s interval starts picks `k`. */
  lemma {:induction false} PickAtPrefixSum(ws: seq<real>, k: nat)
    requires forall i :: 0 <= i < |ws| ==> ws[i] > 0.0
    requires k < |ws|
    ensures Pick(ws, Sum(ws[..k])) == k
    decreases k
  {
    if k == 0 {
      assert ws[..0] == [];
    } else {
      var prefix := ws[..k];
      SumFront(prefix);
      assert prefix[1..] == ws[1..][..k - 1];
      SumNonNegative(ws[1..][..k - 1]);
      PickAtPrefixSum(ws[1..], k - 1);
    }
  }

  /** Every candidate can be drawn: when the selector chooses at all, each
      candidate is the choice for some uniform draw in [0, 1). */
  lemma SelectionReachable(cands: seq<Candidate>, config: seq<State>, applied: seq<Rule>,
                           goal: Option<map<Rule, real>>, draw: real, k: nat)
    requires Selection(cands, config, applied, goal, draw).Some? && k < |cands|
    ensures exists d :: 0.0 <= d < 1.0 && Selection(cands, config, applied, goal, d) == Some(cands[k])
  {
    var ws := Weights(cands, config, applied, goal);
    forall i | 0 <= i < |ws| ensures ws[i] > 0.0 {
      assert ws[i] >= Floor;
    }
    SumPositivePrefix(ws, k);
    assert Sum(ws) > |ws| as real * Floor;
    var d := ScaledFraction(ws, Sum(ws[..k]));
    PickAtPrefixSum(ws, k);
    assert Pick(ws, Scaled(d, ws)) == k;
    assert Selection(cands, config, applied, goal, d) == Some(cands[k]);
  }

  /** A draw in [0, 1) that scales to a given point below the total weight. */
  lemma ScaledFraction(ws: seq<real>, a: real) returns (d: real)
    requires 0.0 <= a < Sum(ws)
    ensures 0.0 <= d < 1.0 && Scaled(d, ws) == a
  {
    var total := Sum(ws);
    d := Fraction(a, total);
    assert Scaled(d, ws) == d * total;
  }

  /** `a / b` for `0 <= a < b`: a draw in [0, 1) that scales back to `a`. */
  lemma Fraction(a: real, b: real) returns (d: real)
    requires 0.0 <= a < b
    ensures 0.0 <= d < 1.0 && d * b == a
  {
    d := a / b;
    assert d * b == a;
    assert (1.0 - d) * b == b - a;
  }
}

/** The table operators: lookup, filter and aggregate over a table given as a
    list of dictionaries keyed by column name. Each takes the argument list of its
    rule and yields a typed value, or None when it fails. */
module TableOps {
  import opened Strings
  import opened Types

  // ------------------------------------------------------------------ tables

  /** `isinstance(t, list) and all(isinstance(row, dict) for row in t)`. */
  predicate IsTable(v: Value)
  {
    v.ListValue? && forall i :: 0 <= i < |v.items| ==> v.items[i].DictValue?
  }

  /** `column in row`. */
  predicate HasColumn(row: Value, column: string)
  {
    row.DictValue? && column in row.entries
  }

  /** `isinstance(v, (int, float))` and the number it is; a bool is an int. */
  function Number(v: Value): Option<real>
  {
    match v
    case BoolValue(b) => Some(if b then 1.0 else 0.0)
    case IntValue(i) => Some(i as real)
    case FloatValue(r) => Some(r)
    case _ => None
  }

  // ------------------------------------------------------------------ lookup

  /** A row whose key cell, rendered, is `want`. */
  predicate KeyMatches(row: Value, key: string, want: string, render: Render)
  {
    HasColumn(row, key) && render(row.entries[key]) == want
  }

  /** The index of the first row whose key cell renders as `want`. */
  function FirstKeyMatch(rows: seq<Value>, key: string, want: string, render: Render): (r: Option<nat>)
    ensures r.Some? ==> r.value < |rows| && KeyMatches(rows[r.value], key, want, render)
    ensures r.Some? ==> forall j :: 0 <= j < r.value ==> !KeyMatches(rows[j], key, want, render)
    ensures r.None? ==> forall j :: 0 <= j < |rows| ==> !KeyMatches(rows[j], key, want, render)
  {
    if rows == [] then None
    else if KeyMatches(rows[0], key, want, render) then Some(0)
    else
      var rest := FirstKeyMatch(rows[1..], key, want, render);
      assert forall j :: 1 <= j < |rows| ==> rows[j] == rows[1..][j - 1];
      match rest
      case None => None
      case Some(k) => Some(k + 1)
  }

  /** The arguments a lookup accepts: four of them, a non-empty table, string
      column names, and both columns present in the first row. */
  predicate LookupArgsOk(args: seq<Value>)
  {
    && |args| == 4
    && IsTable(args[0]) && args[0].items != []
    && args[1].StrValue? && args[3].StrValue?
    && HasColumn(args[0].items[0], args[1].s) && HasColumn(args[0].items[0], args[3].s)
  }

  /** `simulate_table_lookup(args, expected_output_type)`: the target cell of the
      first row whose key cell renders as the key value does, typed as expected;
      None on bad arguments, when no row matches, when the matching row lacks the
      target column or when its cell is None. */
  method TableLookup(args: seq<Value>, expected: InfoType, render: Render) returns (out: Option<Output>)
    ensures !LookupArgsOk(args) ==> out.None?
    ensures LookupArgsOk(args) ==>
      var rows, target := args[0].items, args[3].s;
      match FirstKeyMatch(rows, args[1].s, render(args[2]), render)
      case None => out.None?
      case Some(k) =>
        out == if HasColumn(rows[k], target) && rows[k].entries[target] != NoneValue
               then Some(Output(rows[k].entries[target], expected))
               else None
  {
    if |args| != 4 {
      return None;
    }
    var table, key, keyValue, target := args[0], args[1], args[2], args[3];
    if !IsTable(table) || table.items == [] || !key.StrValue? || !target.StrValue? {
      return None;
    }
    var rows := table.items;
    if !HasColumn(rows[0], key.s) || !HasColumn(rows[0], target.s) {
      return None;
    }
    var want := render(keyValue);
    var found := NoneValue;
    var i := 0;
    while i < |rows|
      invariant 0 <= i <= |rows|
      invariant forall j :: 0 <= j < i ==> !KeyMatches(rows[j], key.s, want, render)
    {
      var row := rows[i];
      if HasColumn(row, key.s) && render(row.entries[key.s]) == want {
        if target.s !in row.entries {
          return None;
        }
        found := row.entries[target.s];
        break;
      }
      i := i + 1;
    }
    if found == NoneValue {
      return None;
    }
    return Some(Output(found, expected));
  }

  // ------------------------------------------------------------------ filter

  /** The comparisons a filter accepts, once normalised. */
  const Comparisons: seq<string> := ["equals", "==", "is", "greater than", ">", "less than", "<"]

  predicate IsEquality(comp: string)
  {
    comp == "equals" || comp == "==" || comp == "is"
  }

  predicate IsGreater(comp: string)
  {
    comp == "greater than" || comp == ">"
  }

  predicate IsLess(comp: string)
  {
    comp == "less than" || comp == "<"
  }

  /** Each accepted comparison is a test for equality, greater or less. */
  lemma ComparisonKinds(comp: string)
    ensures comp in Comparisons <==> IsEquality(comp) || IsGreater(comp) || IsLess(comp)
  {
    if IsEquality(comp) || IsGreater(comp) || IsLess(comp) {
      assert comp == Comparisons[0] || comp == Comparisons[1] || comp == Comparisons[2] || comp == Comparisons[3]
        || comp == Comparisons[4] || comp == Comparisons[5] || comp == Comparisons[6];
    }
  }

  /** `comparison_type_str.lower().replace("_", " ")`: lowercased, with every
      underscore a space. */
  function NormalizeComparison(s: string): (r: string)
    ensures |r| == |s|
    ensures forall i :: 0 <= i < |s| ==> r[i] == if s[i] == '_' then ' ' else LowerChar(s[i])
  {
    ReplaceChar(Lower(s), '_', ' ');
    Replace(Lower(s), "_", " ")
  }

  /** Normalising a normalised comparison changes nothing. */
  lemma NormalizeIdempotent(s: string)
    ensures NormalizeComparison(NormalizeComparison(s)) == NormalizeComparison(s)
  {
    var r := NormalizeComparison(s);
    var rr := NormalizeComparison(r);
    forall i | 0 <= i < |s| ensures rr[i] == r[i] {
      assert rr[i] == if r[i] == '_' then ' ' else LowerChar(r[i]);
    }
  }

  /** `float(v)`: a number converts, a string as `parse` says (the text-to-number
      conversion is library behaviour), anything else raises. */
  function ToFloat(v: Value, parse: string -> Option<real>): Option<real>
  {
    if Number(v).Some? then Number(v) else if v.StrValue? then parse(v.s) else None
  }

  /** The numerical comparison of the filter. */
  predicate NumericMatch(comp: string, x: real, y: real)
  {
    (IsGreater(comp) && x > y) || (IsLess(comp) && x < y) || (IsEquality(comp) && x == y)
  }

  /** Whether a row whose filter cell holds `v` is kept: two numbers compare as
      numbers, and for equality also by their text; otherwise an ordering converts
      both sides with `float` (a conversion that raises drops the row) and equality
      compares the texts. */
  predicate CellMatches(v: Value, filter: Value, comp: string, parse: string -> Option<real>, render: Render)
  {
    if Number(v).Some? && Number(filter).Some? then
      NumericMatch(comp, Number(v).value, Number(filter).value) || (IsEquality(comp) && render(v) == render(filter))
    else if IsGreater(comp) || IsLess(comp) then
      var x, y := ToFloat(v, parse), ToFloat(filter, parse);
      x.Some? && y.Some? && NumericMatch(comp, x.value, y.value)
    else
      IsEquality(comp) && render(v) == render(filter)
  }

  predicate Keeps(row: Value, column: string, filter: Value, comp: string, parse: string -> Option<real>, render: Render)
  {
    HasColumn(row, column) && CellMatches(row.entries[column], filter, comp, parse, render)
  }

  /** The rows the filter keeps, in table order. */
  function Kept(rows: seq<Value>, column: string, filter: Value, comp: string, parse: string -> Option<real>,
                render: Render): (r: seq<Value>)
    ensures |r| <= |rows|
  {
    if rows == [] then []
    else
      var n := |rows| - 1;
      Kept(rows[..n], column, filter, comp, parse, render)
        + (if Keeps(rows[n], column, filter, comp, parse, render) then [rows[n]] else [])
  }

  /** A row is kept exactly when it is a row of the table that has the column and
      matches. */
  lemma {:induction false} KeptMembers(rows: seq<Value>, column: string, filter: Value, comp: string,
                                       parse: string -> Option<real>, render: Render)
    ensures forall x :: x in Kept(rows, column, filter, comp, parse, render) <==>
      x in rows && Keeps(x, column, filter, comp, parse, render)
    decreases |rows|
  {
    if rows != [] {
      var n := |rows| - 1;
      KeptMembers(rows[..n], column, filter, comp, parse, render);
      assert rows == rows[..n] + [rows[n]];
    }
  }

  /** Filtering keeps the table's order: the rows kept from two tables one after the
      other are the rows kept from each, one after the other. */
  lemma {:induction false} KeptAppend(a: seq<Value>, b: seq<Value>, column: string, filter: Value, comp: string,
                                      parse: string -> Option<real>, render: Render)
    ensures Kept(a + b, column, filter, comp, parse, render)
      == Kept(a, column, filter, comp, parse, render) + Kept(b, column, filter, comp, parse, render)
    decreases |b|
  {
    if b == [] {
      assert a + b == a;
    } else {
      var n := |b| - 1;
      assert (a + b)[..|a| + n] == a + b[..n] && (a + b)[|a| + n] == b[n];
      KeptAppend(a, b[..n], column, filter, comp, parse, render);
    }
  }

  /** Filtering a filtered table again with the same test changes nothing. */
  lemma {:induction false} KeptIdempotent(rows: seq<Value>, column: string, filter: Value, comp: string,
                                          parse: string -> Option<real>, render: Render)
    ensures Kept(Kept(rows, column, filter, comp, parse, render), column, filter, comp, parse, render)
      == Kept(rows, column, filter, comp, parse, render)
    decreases |rows|
  {
    if rows != [] {
      var n := |rows| - 1;
      var front := Kept(rows[..n], column, filter, comp, parse, render);
      var tail := if Keeps(rows[n], column, filter, comp, parse, render) then [rows[n]] else [];
      KeptIdempotent(rows[..n], column, filter, comp, parse, render);
      KeptAppend(front, tail, column, filter, comp, parse, render);
      if tail != [] {
        assert tail[..0] == [] && Kept(tail, column, filter, comp, parse, render) == tail;
      }
    }
  }

  /** The arguments a filter accepts: four of them, a table, string column name and
      comparison, and a comparison that normalises to an accepted one. */
  predicate FilterArgsOk(args: seq<Value>)
  {
    && |args| == 4
    && IsTable(args[0]) && args[1].StrValue? && args[2].StrValue?
    && NormalizeComparison(args[2].s) in Comparisons
  }

  /** `simulate_filter_table(args, expected_output_type)`: the rows kept, in order,
      as a table typed TABLE_DATA whatever the rule expects, even when none is kept;
      None on bad arguments. */
  method FilterTable(args: seq<Value>, expected: InfoType, parse: string -> Option<real>, render: Render)
    returns (out: Option<Output>)
    ensures !FilterArgsOk(args) ==> out.None?
    ensures FilterArgsOk(args) ==>
      out == Some(Output(ListValue(Kept(args[0].items, args[1].s, args[3], NormalizeComparison(args[2].s), parse, render)),
                         TableData))
  {
    if |args| != 4 {
      return None;
    }
    var table, column, comparison, filter := args[0], args[1], args[2], args[3];
    if !IsTable(table) || !column.StrValue? || !comparison.StrValue? {
      return None;
    }
    var comp := NormalizeComparison(comparison.s);
    if comp !in Comparisons {
      return None;
    }
    var rows := table.items;
    var filtered: seq<Value> := [];
    for i := 0 to |rows|
      invariant filtered == Kept(rows[..i], column.s, filter, comp, parse, render)
    {
      assert rows[..i + 1][..i] == rows[..i];
      var row := rows[i];
      if !HasColumn(row, column.s) {
        continue;
      }
      var matched := RowMatch(row.entries[column.s], filter, comp, parse, render);
      if matched {
        filtered := filtered + [row];
      }
    }
    assert rows[..|rows|] == rows;
    return Some(Output(ListValue(filtered), TableData));
  }

  /** The `try` block of the row loop: the numerical test first, then the textual
      one for equality; a conversion that raises leaves `match` false. */
  method RowMatch(v: Value, filter: Value, comp: string, parse: string -> Option<real>, render: Render)
    returns (matched: bool)
    ensures matched == CellMatches(v, filter, comp, parse, render)
  {
    matched := false;
    var x: Option<real> := None;
    var y: Option<real> := None;
    if Number(v).Some? && Number(filter).Some? {
      x, y := Number(v), Number(filter);
    } else if IsGreater(comp) || IsLess(comp) {
      x := ToFloat(v, parse);
      if x.None? {
        return false;
      }
      y := ToFloat(filter, parse);
      if y.None? {
        return false;
      }
    }
    if x.Some? && y.Some? {
      if IsGreater(comp) && x.value > y.value {
        matched := true;
      } else if IsLess(comp) && x.value < y.value {
        matched := true;
      } else if IsEquality(comp) && x.value == y.value {
        matched := true;
      }
    }
    if !matched && IsEquality(comp) {
      if render(v) == render(filter) {
        matched := true;
      }
    }
  }

  // ------------------------------------------------------------------ aggregate

  /** The aggregation names accepted, once lowercased. */
  const Aggregations: seq<string> := ["sum", "average", "avg", "mean"]

  /** The numeric cells of the column, in table order; rows without it and other
      values are skipped. */
  function NumericCells(rows: seq<Value>, column: string): (r: seq<Value>)
    ensures |r| <= |rows|
    ensures forall i :: 0 <= i < |r| ==> Number(r[i]).Some?
  {
    if rows == [] then []
    else
      var n := |rows| - 1;
      var row := rows[n];
      NumericCells(rows[..n], column)
        + (if HasColumn(row, column) && Number(row.entries[column]).Some? then [row.entries[column]] else [])
  }

  /** The cells of two tables one after the other are the cells of each. */
  lemma {:induction false} NumericCellsAppend(a: seq<Value>, b: seq<Value>, column: string)
    ensures NumericCells(a + b, column) == NumericCells(a, column) + NumericCells(b, column)
    decreases |b|
  {
    if b == [] {
      assert a + b == a;
    } else {
      var n := |b| - 1;
      assert (a + b)[..|a| + n] == a + b[..n] && (a + b)[|a| + n] == b[n];
      NumericCellsAppend(a, b[..n], column);
    }
  }

  /** The exact sum of the numbers. */
  function Total(vals: seq<Value>): real
  {
    if vals == [] then 0.0
    else
      var n := |vals| - 1;
      Total(vals[..n]) + (match Number(vals[n]) case Some(x) => x case None => 0.0)
  }

  lemma {:induction false} TotalAppend(a: seq<Value>, b: seq<Value>)
    ensures Total(a + b) == Total(a) + Total(b)
    decreases |b|
  {
    if b == [] {
      assert a + b == a;
    } else {
      var n := |b| - 1;
      assert (a + b)[..|a| + n] == a + b[..n] && (a + b)[|a| + n] == b[n];
      TotalAppend(a, b[..n]);
    }
  }

  /** No float among them: every one an int (or a bool). */
  predicate AllIntegers(vals: seq<Value>)
  {
    forall i :: 0 <= i < |vals| ==> vals[i].IntValue? || vals[i].BoolValue?
  }

  /** The sum of the values that are ints (a bool counting as 0 or 1). */
  function IntTotal(vals: seq<Value>): int
  {
    if vals == [] then 0
    else
      var n := |vals| - 1;
      IntTotal(vals[..n]) + (match vals[n] case IntValue(i) => i case BoolValue(b) => (if b then 1 else 0) case _ => 0)
  }

  /** Integers sum to an integer: the exact total is the integer total. */
  lemma {:induction false} IntegerTotal(vals: seq<Value>)
    requires AllIntegers(vals)
    ensures Total(vals) == IntTotal(vals) as real
    decreases |vals|
  {
    if vals != [] {
      var n := |vals| - 1;
      IntegerTotal(vals[..n]);
    }
  }

  /** `sum(values)`: an int when every value is an integer, else a float. */
  function SumValue(vals: seq<Value>): Value
  {
    if AllIntegers(vals) then IntValue(IntTotal(vals)) else FloatValue(Total(vals))
  }

  /** `statistics.mean(values)`: an int when every value is an integer and the mean
      is whole, else a float. */
  function MeanValue(vals: seq<Value>): Value
    requires vals != []
  {
    var m := Total(vals) / (|vals| as real);
    if AllIntegers(vals) && m == m.Floor as real then IntValue(m.Floor) else FloatValue(m)
  }

  /** `sum` yields the total and `mean` the total over the count. */
  lemma AggregateNumbers(vals: seq<Value>)
    requires vals != []
    ensures Number(SumValue(vals)) == Some(Total(vals))
    ensures Number(MeanValue(vals)) == Some(Total(vals) / (|vals| as real))
  {
    if AllIntegers(vals) {
      IntegerTotal(vals);
    }
  }

  /** The mean lies between any bounds of the values. */
  lemma MeanWithin(vals: seq<Value>, lo: real, hi: real)
    requires vals != []
    requires forall i :: 0 <= i < |vals| ==> Number(vals[i]).Some? && lo <= Number(vals[i]).value <= hi
    ensures Number(MeanValue(vals)).Some?
    ensures lo <= Number(MeanValue(vals)).value <= hi
  {
    TotalBounds(vals, lo, hi);
    AggregateNumbers(vals);
    QuotientBounds(Total(vals), |vals| as real, lo, hi);
  }

  lemma QuotientBounds(t: real, n: real, lo: real, hi: real)
    requires n > 0.0 && lo * n <= t <= hi * n
    ensures lo <= t / n <= hi
  {
    assert (t / n) * n == t;
  }

  lemma {:induction false} TotalBounds(vals: seq<Value>, lo: real, hi: real)
    requires forall i :: 0 <= i < |vals| ==> Number(vals[i]).Some? && lo <= Number(vals[i]).value <= hi
    ensures lo * (|vals| as real) <= Total(vals) <= hi * (|vals| as real)
    decreases |vals|
  {
    if vals != [] {
      var n := |vals| - 1;
      TotalBounds(vals[..n], lo, hi);
      assert Number(vals[n]).Some?;
    }
  }

  /** The arguments an aggregation accepts: three of them, a string naming an
      accepted aggregation (any case), a table and a string column name. */
  predicate AggregateArgsOk(args: seq<Value>)
  {
    && |args| == 3
    && args[1].StrValue? && Lower(args[1].s) in Aggregations
    && IsTable(args[0]) && args[2].StrValue?
  }

  /** `simulate_aggregate_table(args, expected_output_type)`: the sum or the mean of
      the column's numeric cells, typed as expected; None on bad arguments or when
      the column has no numeric cell. */
  method AggregateTable(args: seq<Value>, expected: InfoType) returns (out: Option<Output>)
    ensures !AggregateArgsOk(args) ==> out.None?
    ensures AggregateArgsOk(args) ==>
      var cells := NumericCells(args[0].items, args[2].s);
      && (cells == [] ==> out.None?)
      && (cells != [] ==>
            out == Some(Output(if Lower(args[1].s) == "sum" then SumValue(cells) else MeanValue(cells), expected)))
  {
    if |args| != 3 {
      return None;
    }
    var table, aggName, column := args[0], args[1], args[2];
    if !aggName.StrValue? {
      return None;
    }
    var agg := Lower(aggName.s);
    if agg !in Aggregations {
      return None;
    }
    if !IsTable(table) || !column.StrValue? {
      return None;
    }
    var rows := table.items;
    var values: seq<Value> := [];
    for i := 0 to |rows|
      invariant values == NumericCells(rows[..i], column.s)
    {
      assert rows[..i + 1][..i] == rows[..i];
      var row := rows[i];
      if HasColumn(row, column.s) {
        var v := row.entries[column.s];
        if Number(v).Some? {
          values := values + [v];
        }
      }
    }
    assert rows[..|rows|] == rows;
    if values == [] {
      return None;
    }
    if agg == "sum" {
      return Some(Output(SumValue(values), expected));
    }
    return Some(Output(MeanValue(values), expected));
  }
}

/** The logic the two model-comparison charts (bar and radar) share:
    display names of metrics, the per-model visibility map, the rows
    projected onto visible models, and the value-axis domain picked from
    the visible numeric values. */
module ComparisonChart {
  import opened Strings
  import opened Wrappers
  import opened Numbers

  /** A field of a data row: a number, a string, or `undefined` when the
      row has no such field. */
  datatype Value = Num(x: real) | Text(s: string) | Undefined

  /** A data row: its metric name and one field per model. */
  datatype Row = Row(metric: string, fields: map<string, Value>)

  /** `item[key]`. */
  function Field(row: Row, key: string): Value
  {
    if key == "metric" then Text(row.metric)
    else if key in row.fields then row.fields[key]
    else Undefined
  }

  // ---------------------------------------------------------------------
  // Metric names

  /** `formatMetricName`: the difficulty prefixes `easy_`, `medium_` and
      `hard_` become `Easy `, `Medium ` and `Hard ` (and then the first
      `pass@` becomes `Pass@`); otherwise a leading `pass@` becomes
      `Pass@`; anything else is kept. */
  function FormatMetricName(metric: string): string
  {
    if "easy_" <= metric then ReplaceFirst(ReplaceFirst(metric, "easy_", "Easy "), "pass@", "Pass@")
    else if "medium_" <= metric then ReplaceFirst(ReplaceFirst(metric, "medium_", "Medium "), "pass@", "Pass@")
    else if "hard_" <= metric then ReplaceFirst(ReplaceFirst(metric, "hard_", "Hard "), "pass@", "Pass@")
    else if "pass@" <= metric then ReplaceFirst(metric, "pass@", "Pass@")
    else metric
  }

  /** A difficulty prefix is spelled out, and the first `pass@` after it is
      capitalised. */
  lemma FormatDifficultyMetric(rest: string)
    ensures FormatMetricName("easy_" + rest) == "Easy " + ReplaceFirst(rest, "pass@", "Pass@")
    ensures FormatMetricName("medium_" + rest) == "Medium " + ReplaceFirst(rest, "pass@", "Pass@")
    ensures FormatMetricName("hard_" + rest) == "Hard " + ReplaceFirst(rest, "pass@", "Pass@")
  {
    FormatEasyMetric(rest);
    FormatMediumMetric(rest);
    FormatHardMetric(rest);
  }

  /** After a difficulty prefix, the first `pass@` is capitalised and the
      text around it is kept. */
  lemma FormatDifficultyPassAt(rest: string, i: nat)
    requires OccursAt(rest, "pass@", i)
    requires forall j :: 0 <= j < i ==> !OccursAt(rest, "pass@", j)
    ensures FormatMetricName("easy_" + rest) == "Easy " + rest[..i] + "Pass@" + rest[i + 5..]
    ensures FormatMetricName("medium_" + rest) == "Medium " + rest[..i] + "Pass@" + rest[i + 5..]
    ensures FormatMetricName("hard_" + rest) == "Hard " + rest[..i] + "Pass@" + rest[i + 5..]
  {
    FormatDifficultyMetric(rest);
    ReplaceFirstAt(rest, "pass@", "Pass@", i);
  }

  /** After a difficulty prefix, a name without `pass@` is kept. */
  lemma FormatDifficultyWithoutPass(rest: string)
    requires forall i :: 0 <= i <= |rest| ==> !OccursAt(rest, "pass@", i)
    ensures FormatMetricName("easy_" + rest) == "Easy " + rest
    ensures FormatMetricName("medium_" + rest) == "Medium " + rest
    ensures FormatMetricName("hard_" + rest) == "Hard " + rest
  {
    FormatDifficultyMetric(rest);
    ReplaceFirstAbsent(rest, "pass@", "Pass@");
  }

  lemma FormatEasyMetric(rest: string)
    ensures FormatMetricName("easy_" + rest) == "Easy " + ReplaceFirst(rest, "pass@", "Pass@")
  {
    PrefixRewrite("easy_", "Easy ", rest);
  }

  lemma FormatMediumMetric(rest: string)
    ensures FormatMetricName("medium_" + rest) == "Medium " + ReplaceFirst(rest, "pass@", "Pass@")
  {
    PrefixRewrite("medium_", "Medium ", rest);
    assert !("easy_" <= "medium_" + rest) by { assert ("medium_" + rest)[0] == 'm'; }
  }

  lemma FormatHardMetric(rest: string)
    ensures FormatMetricName("hard_" + rest) == "Hard " + ReplaceFirst(rest, "pass@", "Pass@")
  {
    PrefixRewrite("hard_", "Hard ", rest);
    assert !("easy_" <= "hard_" + rest) by { assert ("hard_" + rest)[0] == 'h'; }
    assert !("medium_" <= "hard_" + rest) by { assert ("hard_" + rest)[0] == 'h'; }
  }

  lemma PrefixRewrite(prefix: string, word: string, rest: string)
    requires |prefix| > 0
    requires 'p' !in word
    ensures ReplaceFirst(ReplaceFirst(prefix + rest, prefix, word), "pass@", "Pass@")
         == word + ReplaceFirst(rest, "pass@", "Pass@")
  {
    ReplaceFirstAtStart(prefix, word, rest);
    ReplaceFirstSkip(word, rest, "pass@", "Pass@");
  }

  /** A leading `pass@` is capitalised. */
  lemma FormatPassMetric(rest: string)
    ensures FormatMetricName("pass@" + rest) == "Pass@" + rest
  {
    var s := "pass@" + rest;
    assert s[0] == 'p';
    assert !("easy_" <= s) && !("medium_" <= s) && !("hard_" <= s);
    ReplaceFirstAtStart("pass@", "Pass@", rest);
  }

  /** Names with none of the four prefixes are kept. */
  lemma FormatOtherMetric(metric: string)
    requires !("easy_" <= metric) && !("medium_" <= metric) && !("hard_" <= metric) && !("pass@" <= metric)
    ensures FormatMetricName(metric) == metric
  {
  }

  // ---------------------------------------------------------------------
  // Visibility

  /** `visibleModels[model]` is truthy: present and `true`. */
  predicate IsVisible(vis: map<string, bool>, model: string)
  {
    model in vis && vis[model]
  }

  /** `models.reduce((acc, model) => ({ ...acc, [model]: true }), {})`. */
  function AllVisible(models: seq<string>): (vis: map<string, bool>)
    ensures forall m :: m in vis <==> m in models
    ensures forall m :: m in vis ==> vis[m]
  {
    if models == [] then map[]
    else AllVisible(models[..|models| - 1])[models[|models| - 1] := true]
  }

  /** The initial visibility: the given map if any, else every model visible. */
  function InitialVisibility(models: seq<string>, activeModels: Option<map<string, bool>>): (vis: map<string, bool>)
    ensures activeModels.Some? ==> vis == activeModels.value
    ensures activeModels.None? ==> forall m :: IsVisible(vis, m) <==> m in models
  {
    match activeModels
    case Some(active) => active
    case None => AllVisible(models)
  }

  /** `{ ...prev, [model]: !prev[model] }`. */
  function Toggled(vis: map<string, bool>, model: string): map<string, bool>
  {
    vis[model := !IsVisible(vis, model)]
  }

  /** A toggle flips the visibility of its model and leaves every other
      entry as it was. */
  lemma ToggleFlipsOnlyItsModel(vis: map<string, bool>, model: string)
    ensures IsVisible(Toggled(vis, model), model) == !IsVisible(vis, model)
    ensures forall k :: k != model ==> (k in Toggled(vis, model) <==> k in vis)
    ensures forall k :: k != model && k in vis ==> Toggled(vis, model)[k] == vis[k]
  {
  }

  /** Toggling twice restores every model's visibility, and restores the
      map itself when the model had an entry. */
  lemma ToggleTwice(vis: map<string, bool>, model: string)
    ensures forall k :: IsVisible(Toggled(Toggled(vis, model), model), k) == IsVisible(vis, k)
    ensures model in vis ==> Toggled(Toggled(vis, model), model) == vis
  {
  }

  // ---------------------------------------------------------------------
  // Rows projected onto visible models

  /** `transformedData`'s row: `name` holds the metric, then each visible
      model gets the row's field for it, models taken in order. */
  function TransformRow(row: Row, models: seq<string>, vis: map<string, bool>): map<string, Value>
  {
    if models == [] then map["name" := Text(row.metric)]
    else
      var m := models[|models| - 1];
      var item := TransformRow(row, models[..|models| - 1], vis);
      if IsVisible(vis, m) then item[m := Field(row, m)] else item
  }

  /** A transformed row has the key `name` and a key for each visible
      model, and no other; a visible model's entry is its field in the
      original row, and `name` is the metric unless a visible model is
      itself called `name`. */
  lemma {:induction false} TransformRowKeys(row: Row, models: seq<string>, vis: map<string, bool>)
    ensures forall k :: k in TransformRow(row, models, vis) <==> k == "name" || (k in models && IsVisible(vis, k))
    ensures forall k :: k in models && IsVisible(vis, k) ==> TransformRow(row, models, vis)[k] == Field(row, k)
    ensures !("name" in models && IsVisible(vis, "name")) ==> TransformRow(row, models, vis)["name"] == Text(row.metric)
  {
    if models != [] {
      var init := models[..|models| - 1];
      TransformRowKeys(row, init, vis);
      assert models == init + [models[|models| - 1]];
    }
  }

  /** A model with no entry in the visibility map is hidden: its column
      is left out of every transformed row. */
  lemma {:induction false} UnknownModelHidden(row: Row, models: seq<string>, vis: map<string, bool>, m: string)
    requires m !in vis && m != "name"
    ensures !IsVisible(vis, m)
    ensures m !in TransformRow(row, models, vis)
  {
    TransformRowKeys(row, models, vis);
  }

  /** `transformedData`. */
  function TransformRows(data: seq<Row>, models: seq<string>, vis: map<string, bool>): (rows: seq<map<string, Value>>)
    ensures |rows| == |data|
    ensures forall i :: 0 <= i < |data| ==> rows[i] == TransformRow(data[i], models, vis)
  {
    seq(|data|, i requires 0 <= i < |data| => TransformRow(data[i], models, vis))
  }

  // ---------------------------------------------------------------------
  // Visible numeric values

  /** The numeric fields of one row for the visible models, in model order. */
  function RowValues(row: Row, models: seq<string>, vis: map<string, bool>): seq<real>
  {
    if models == [] then []
    else
      var m := models[|models| - 1];
      RowValues(row, models[..|models| - 1], vis) +
        (if Field(row, m).Num? && IsVisible(vis, m) then [Field(row, m).x] else [])
  }

  /** The numeric fields of all rows for the visible models, row by row. */
  function VisibleValues(data: seq<Row>, models: seq<string>, vis: map<string, bool>): seq<real>
  {
    if data == [] then []
    else VisibleValues(data[..|data| - 1], models, vis) + RowValues(data[|data| - 1], models, vis)
  }

  /** A value is collected from a row exactly when some visible model has
      it as a number in that row. */
  lemma {:induction false} RowValuesMembers(row: Row, models: seq<string>, vis: map<string, bool>, v: real)
    ensures v in RowValues(row, models, vis) <==>
      exists j :: 0 <= j < |models| && IsVisible(vis, models[j]) && Field(row, models[j]) == Num(v)
  {
    if models != [] {
      var init := models[..|models| - 1];
      RowValuesMembers(row, init, vis, v);
      if v in RowValues(row, models, vis) && v !in RowValues(row, init, vis) {
        assert Field(row, models[|models| - 1]) == Num(v);
      }
      if exists j :: 0 <= j < |models| && IsVisible(vis, models[j]) && Field(row, models[j]) == Num(v) {
        var j :| 0 <= j < |models| && IsVisible(vis, models[j]) && Field(row, models[j]) == Num(v);
        if j < |models| - 1 {
          assert init[j] == models[j];
        }
      }
    }
  }

  /** Only numeric fields of visible models contribute, and all of them do. */
  lemma {:induction false} VisibleValuesMembers(data: seq<Row>, models: seq<string>, vis: map<string, bool>, v: real)
    ensures v in VisibleValues(data, models, vis) <==>
      exists i, j :: 0 <= i < |data| && 0 <= j < |models| && IsVisible(vis, models[j]) && Field(data[i], models[j]) == Num(v)
  {
    if data != [] {
      var init := data[..|data| - 1];
      var last := data[|data| - 1];
      VisibleValuesMembers(init, models, vis, v);
      RowValuesMembers(last, models, vis, v);
      if v in VisibleValues(data, models, vis) {
        if v in VisibleValues(init, models, vis) {
          var i, j :| 0 <= i < |init| && 0 <= j < |models| && IsVisible(vis, models[j]) && Field(init[i], models[j]) == Num(v);
          assert data[i] == init[i];
        } else {
          var j :| 0 <= j < |models| && IsVisible(vis, models[j]) && Field(last, models[j]) == Num(v);
          assert data[|data| - 1] == last;
        }
      }
      if exists i, j :: 0 <= i < |data| && 0 <= j < |models| && IsVisible(vis, models[j]) && Field(data[i], models[j]) == Num(v) {
        var i, j :| 0 <= i < |data| && 0 <= j < |models| && IsVisible(vis, models[j]) && Field(data[i], models[j]) == Num(v);
        if i < |data| - 1 {
          assert init[i] == data[i];
        }
      }
    }
  }

  /** The nested `forEach` that pushes the visible numeric values, row by
      row. */
  method CollectVisibleValues(data: seq<Row>, models: seq<string>, vis: map<string, bool>) returns (allValues: seq<real>)
    ensures allValues == VisibleValues(data, models, vis)
  {
    allValues := [];
    for i := 0 to |data|
      invariant allValues == VisibleValues(data[..i], models, vis)
    {
      var rowValues := CollectRowValues(data[i], models, vis);
      allValues := allValues + rowValues;
      assert data[..i + 1][..i] == data[..i];
    }
    assert data[..|data|] == data;
  }

  /** The inner `forEach` over the models for one row. */
  method CollectRowValues(row: Row, models: seq<string>, vis: map<string, bool>) returns (values: seq<real>)
    ensures values == RowValues(row, models, vis)
  {
    values := [];
    for j := 0 to |models|
      invariant values == RowValues(row, models[..j], vis)
    {
      assert models[..j + 1][..j] == models[..j];
      var value := Field(row, models[j]);
      if value.Num? && IsVisible(vis, models[j]) {
        values := values + [value.x];
      }
    }
    assert models[..|models|] == models;
  }

  // ---------------------------------------------------------------------
  // Value-axis domain

  function RMin(a: real, b: real): real { if a <= b then a else b }

  function RMax(a: real, b: real): real { if a >= b then a else b }

  /** `Math.floor`. */
  function Floor(x: real): (n: int)
    ensures n as real <= x < n as real + 1.0
  {
    x.Floor
  }

  /** `Math.ceil`. */
  function Ceil(x: real): (n: int)
    ensures n as real - 1.0 < x <= n as real
  {
    -((-x).Floor)
  }

  /** `Math.min(...values)`. */
  function SeqMin(values: seq<real>): (m: real)
    requires |values| > 0
    ensures m in values
    ensures forall v :: v in values ==> m <= v
  {
    if |values| == 1 then values[0]
    else
      var rest := SeqMin(values[1..]);
      assert forall v :: v in values ==> v == values[0] || v in values[1..];
      RMin(values[0], rest)
  }

  /** `Math.max(...values)`. */
  function SeqMax(values: seq<real>): (m: real)
    requires |values| > 0
    ensures m in values
    ensures forall v :: v in values ==> v <= m
  {
    if |values| == 1 then values[0]
    else
      var rest := SeqMax(values[1..]);
      assert forall v :: v in values ==> v == values[0] || v in values[1..];
      RMax(values[0], rest)
  }

  /** The axis domain picked from the collected values: `[0, 100]` without
      values; around the average, at least 10 wide, when the values spread
      less than 10; else the values padded by 5 on each side; always
      clipped to `[0, 100]` and rounded outward. */
  function Domain(values: seq<real>): (int, int)
  {
    if |values| == 0 then (0, 100)
    else
      var minValue := SeqMin(values);
      var maxValue := SeqMax(values);
      if maxValue - minValue < 10.0 then
        var avgValue := (minValue + maxValue) / 2.0;
        var range := RMax(10.0, (maxValue - minValue) * 3.0);
        var newMin := RMax(0.0, avgValue - range / 2.0);
        var newMax := RMin(100.0, avgValue + range / 2.0);
        (Floor(newMin), Ceil(newMax))
      else
        (Max(0, Floor(minValue - 5.0)), Min(100, Ceil(maxValue + 5.0)))
  }

  /** The domain never leaves `[0, 100]`. */
  lemma DomainWithinPercent(values: seq<real>)
    ensures 0 <= Domain(values).0 && Domain(values).1 <= 100
  {
  }

  /** When the values are percentages, the domain holds every one of them,
      in the narrow and in the padded case alike. */
  lemma DomainHoldsValues(values: seq<real>)
    requires forall v :: v in values ==> 0.0 <= v <= 100.0
    ensures forall v :: v in values ==> Domain(values).0 as real <= v <= Domain(values).1 as real
  {
    if |values| > 0 {
      var minValue := SeqMin(values);
      var maxValue := SeqMax(values);
      assert 0.0 <= minValue && maxValue <= 100.0;
    }
  }

  /** `domainRange`: `[0, 100]` when there are no rows or no models, else
      the domain of the visible numeric values. */
  method DomainRange(data: seq<Row>, models: seq<string>, vis: map<string, bool>) returns (lo: int, hi: int)
    ensures (lo, hi) == if |data| == 0 || |models| == 0 then (0, 100) else Domain(VisibleValues(data, models, vis))
  {
    if |data| == 0 || |models| == 0 {
      return 0, 100;
    }
    var allValues := CollectVisibleValues(data, models, vis);
    lo, hi := Domain(allValues).0, Domain(allValues).1;
  }

  /** Without rows, without models, or without visible numeric values, the
      domain is `[0, 100]`. */
  lemma {:induction false} EmptyDomain(data: seq<Row>, models: seq<string>, vis: map<string, bool>)
    requires |data| == 0 || |models| == 0 || forall i, j :: 0 <= i < |data| && 0 <= j < |models| && IsVisible(vis, models[j]) ==> !Field(data[i], models[j]).Num?
    ensures Domain(VisibleValues(data, models, vis)) == (0, 100)
  {
    var values := VisibleValues(data, models, vis);
    if |values| > 0 {
      VisibleValuesMembers(data, models, vis, values[0]);
    }
  }
}

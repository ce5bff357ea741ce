/** The bar chart comparing models metric by metric: its visibility state,
    the legend toggle, the projected rows and the value-axis domain. */
module BarChartView {
  import opened Wrappers
  import opened ComparisonChart

  class BarChart {
    /** The models compared (`models` prop). */
    var models: seq<string>
    /** `visibleModels`. */
    var visibleModels: map<string, bool>

    /** The initial state: the `activeModels` prop if given, else all models
        visible. */
    constructor(models: seq<string>, activeModels: Option<map<string, bool>>)
      ensures this.models == models
      ensures visibleModels == InitialVisibility(models, activeModels)
    {
      this.models := models;
      visibleModels := InitialVisibility(models, activeModels);
    }

    /** New `models` and `activeModels` props, and the effect that depends
        on both: a given `activeModels` replaces the visibility map, an
        absent one leaves it alone, so a model new to `models` with no
        entry in it stays hidden (`UnknownModelHidden`). */
    method PropsChanged(models: seq<string>, activeModels: Option<map<string, bool>>)
      modifies this
      ensures this.models == models
      ensures activeModels.Some? ==> visibleModels == activeModels.value
      ensures activeModels.None? ==> visibleModels == old(visibleModels)
    {
      this.models := models;
      if activeModels.Some? {
        visibleModels := activeModels.value;
      }
    }

    /** `handleModelToggle`: flips one model's visibility, nothing else. */
    method ToggleModel(model: string)
      modifies this
      ensures models == old(models)
      ensures visibleModels == Toggled(old(visibleModels), model)
      ensures IsVisible(visibleModels, model) == !IsVisible(old(visibleModels), model)
      ensures forall k :: k != model ==> IsVisible(visibleModels, k) == IsVisible(old(visibleModels), k)
    {
      visibleModels := Toggled(visibleModels, model);
    }

    /** `transformedData`. */
    function TransformedData(data: seq<Row>): (rows: seq<map<string, Value>>)
      reads this
      ensures |rows| == |data|
      ensures forall i :: 0 <= i < |data| ==> rows[i] == TransformRow(data[i], models, visibleModels)
    {
      TransformRows(data, models, visibleModels)
    }

    /** `domainRange` for the current visibility. */
    method Domain(data: seq<Row>) returns (lo: int, hi: int)
      ensures 0 <= lo && hi <= 100
      ensures (lo, hi) == if |data| == 0 || |models| == 0 then (0, 100) else ComparisonChart.Domain(VisibleValues(data, models, visibleModels))
    {
      lo, hi := DomainRange(data, models, visibleModels);
      DomainWithinPercent(VisibleValues(data, models, visibleModels));
    }
  }
}

/** The radar chart comparing models metric by metric: the same visibility
    state and domain as the bar chart, a legend click that toggles, and
    shortened axis labels. */
module RadarChartView {
  import opened Wrappers
  import opened ComparisonChart

  /** The angle-axis tick label: the formatted metric name, cut to eight
      characters and an ellipsis when longer than ten. */
  function TickLabel(metric: string): (shown: string)
    ensures |shown| <= 10 || |shown| == 11
    ensures |FormatMetricName(metric)| <= 10 ==> shown == FormatMetricName(metric)
    ensures |FormatMetricName(metric)| > 10 ==>
      |shown| == 11 && shown[..8] == FormatMetricName(metric)[..8] && shown[8..] == "..."
  {
    var formatted := FormatMetricName(metric);
    if |formatted| > 10 then formatted[..8] + "..." else formatted
  }

  class RadarChart {
    /** The models compared (`models` prop). */
    var models: seq<string>
    /** `visibleModels`. */
    var visibleModels: map<string, bool>

    constructor(models: seq<string>, activeModels: Option<map<string, bool>>)
      ensures this.models == models
      ensures visibleModels == InitialVisibility(models, activeModels)
    {
      this.models := models;
      visibleModels := InitialVisibility(models, activeModels);
    }

    /** New `models` and `activeModels` props, and the effect that depends
        on both, as in the bar chart. */
    method PropsChanged(models: seq<string>, activeModels: Option<map<string, bool>>)
      modifies this
      ensures this.models == models
      ensures activeModels.Some? ==> visibleModels == activeModels.value
      ensures activeModels.None? ==> visibleModels == old(visibleModels)
    {
      this.models := models;
      if activeModels.Some? {
        visibleModels := activeModels.value;
      }
    }

    /** `handleLegendClick`: flips the clicked model's visibility. */
    method LegendClick(model: string)
      modifies this
      ensures models == old(models)
      ensures visibleModels == Toggled(old(visibleModels), model)
      ensures IsVisible(visibleModels, model) == !IsVisible(old(visibleModels), model)
      ensures forall k :: k != model ==> IsVisible(visibleModels, k) == IsVisible(old(visibleModels), k)
    {
      visibleModels := Toggled(visibleModels, model);
    }

    /** `domainRange` for the current visibility. */
    method Domain(data: seq<Row>) returns (lo: int, hi: int)
      ensures 0 <= lo && hi <= 100
      ensures (lo, hi) == if |data| == 0 || |models| == 0 then (0, 100) else ComparisonChart.Domain(VisibleValues(data, models, visibleModels))
    {
      lo, hi := DomainRange(data, models, visibleModels);
      DomainWithinPercent(VisibleValues(data, models, visibleModels));
    }
  }
}

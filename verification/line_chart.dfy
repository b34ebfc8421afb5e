/**
  The interaction logic of the time-series line chart: which series the user
  has hidden through the legend, the legend items and chart datasets derived
  from the raw series and that hidden list, and the time period a finished
  zoom or pan gesture proposes.

  getNameForMetric, getColorByString, getTimeperiodForDuration and
  dateFromSeconds are not part of this model; they are the parameters
  `nameOf`, `colorOf`, `timeperiodForDuration` and `dateFromSeconds`.
 */
module LineChart {
  import opened Wrappers

  /** One sample: its timestamp in seconds and its value as text. */
  datatype Sample = Sample(timestamp: real, value: string)

  /** One series of the query result: its labels and its samples. */
  datatype MetricResult = MetricResult(metric: map<string, string>, values: seq<Sample>)

  /** The legend's record of one series. `name` is absent when the series has no `__name__` label. */
  datatype LegendItem = LegendItem(key: string, name: Option<string>, labelData: map<string, string>,
                                   color: string, checked: bool)

  /** A chart point: `x` in milliseconds; the value is kept as its text. */
  datatype Point = Point(y: string, x: real)

  datatype Dataset = Dataset(seriesLabel: string, data: seq<Point>, borderColor: string,
                             backgroundColor: string, hidden: bool)

  /** The range of the chart's time scale, in epoch milliseconds. */
  datatype Extent = Extent(min: real, max: real)

  /** A time period proposed to the application state, in epoch milliseconds. */
  datatype Period = Period(from: real, to: real)

  const NameLabel := "__name__"

  // ----- Projections -----

  function Points(values: seq<Sample>): (ps: seq<Point>)
    ensures |ps| == |values|
    ensures forall i :: 0 <= i < |ps| ==> ps[i].x == values[i].timestamp * 1000.0 && ps[i].y == values[i].value
  {
    seq(|values|, i requires 0 <= i < |values| => Point(values[i].value, values[i].timestamp * 1000.0))
  }

  function DatasetOf(d: MetricResult, hiddenData: seq<string>, nameOf: MetricResult -> string,
                     colorOf: string -> string): Dataset
  {
    var seriesLabel := nameOf(d);
    var color := colorOf(seriesLabel);
    Dataset(seriesLabel, Points(d.values), color, color, seriesLabel in hiddenData)
  }

  /** series.datasets: one dataset per series, in input order. */
  function Datasets(data: seq<MetricResult>, hiddenData: seq<string>, nameOf: MetricResult -> string,
                    colorOf: string -> string): (r: seq<Dataset>)
    ensures |r| == |data|
    ensures forall i :: 0 <= i < |r| ==> r[i].seriesLabel == nameOf(data[i]) && |r[i].data| == |data[i].values|
    ensures forall i :: 0 <= i < |r| ==> (r[i].hidden <==> nameOf(data[i]) in hiddenData)
    ensures forall i :: 0 <= i < |r| ==>
      r[i].data == Points(data[i].values) &&
      r[i].borderColor == colorOf(nameOf(data[i])) && r[i].backgroundColor == colorOf(nameOf(data[i]))
  {
    seq(|data|, i requires 0 <= i < |data| => DatasetOf(data[i], hiddenData, nameOf, colorOf))
  }

  function LegendItemOf(d: MetricResult, hiddenData: seq<string>, nameOf: MetricResult -> string,
                        colorOf: string -> string): LegendItem
  {
    var key := nameOf(d);
    var name := if NameLabel in d.metric then Some(d.metric[NameLabel]) else None;
    LegendItem(key, name, d.metric - {NameLabel}, colorOf(key), key !in hiddenData)
  }

  /** labels: one legend item per series, in input order. */
  function Labels(data: seq<MetricResult>, hiddenData: seq<string>, nameOf: MetricResult -> string,
                  colorOf: string -> string): (r: seq<LegendItem>)
    ensures |r| == |data|
    ensures forall i :: 0 <= i < |r| ==> r[i].key == nameOf(data[i])
    ensures forall i :: 0 <= i < |r| ==> (r[i].checked <==> nameOf(data[i]) !in hiddenData)
    ensures forall i, l :: 0 <= i < |r| ==> (l in r[i].labelData <==> l in data[i].metric && l != NameLabel)
    ensures forall i :: 0 <= i < |r| ==> (r[i].name.Some? <==> NameLabel in data[i].metric)
    ensures forall i :: 0 <= i < |r| && r[i].name.Some? ==> r[i].name.value == data[i].metric[NameLabel]
    ensures forall i :: 0 <= i < |r| ==> r[i].labelData == data[i].metric - {NameLabel}
    ensures forall i :: 0 <= i < |r| ==> r[i].color == colorOf(r[i].key)
  {
    seq(|data|, i requires 0 <= i < |data| => LegendItemOf(data[i], hiddenData, nameOf, colorOf))
  }

  /** A dataset is hidden exactly when its legend item is unchecked, and both
      carry the series' key and the same color. */
  lemma DatasetsMatchLabels(data: seq<MetricResult>, hiddenData: seq<string>, nameOf: MetricResult -> string,
                            colorOf: string -> string)
    ensures var ds, ls := Datasets(data, hiddenData, nameOf, colorOf), Labels(data, hiddenData, nameOf, colorOf);
      |ds| == |ls| &&
      forall i :: 0 <= i < |ds| ==>
        ds[i].hidden == !ls[i].checked && ds[i].seriesLabel == ls[i].key &&
        ds[i].borderColor == ls[i].color && ds[i].backgroundColor == ls[i].color
  {
  }

  // ----- The hidden-series policy -----

  /** hiddenData.filter(n => n !== key) */
  function RemoveKey(hidden: seq<string>, key: string): (r: seq<string>)
    ensures forall k :: k in r <==> k in hidden && k != key
    ensures key !in hidden ==> r == hidden
  {
    if hidden == [] then []
    else (if hidden[0] == key then [] else [hidden[0]]) + RemoveKey(hidden[1..], key)
  }

  function Keys(labels: seq<LegendItem>): (keys: seq<string>)
    ensures |keys| == |labels|
  {
    seq(|labels|, i requires 0 <= i < |labels| => labels[i].key)
  }

  /** labels.filter(label => label !== legendItem).map(({key}) => key): the
      keys of every legend item except the clicked one, in legend order. */
  function KeysExcept(labels: seq<LegendItem>, clicked: nat): (keys: seq<string>)
    requires clicked < |labels|
    ensures |keys| == |labels| - 1
    ensures forall j :: 0 <= j < clicked ==> keys[j] == labels[j].key
    ensures forall j :: clicked < j < |labels| ==> keys[j - 1] == labels[j].key
  {
    Keys(labels[..clicked]) + Keys(labels[clicked + 1..])
  }

  /**
    The hidden list after a click on legend item `clicked`: with ctrl held, a
    checked item is hidden and an unchecked one is shown; without ctrl, a
    click on a checked item while something is hidden shows everything,
    and any other click hides every other item.
   */
  function NextHidden(hiddenData: seq<string>, labels: seq<LegendItem>, ctrlKey: bool, clicked: nat): (r: seq<string>)
    requires clicked < |labels|
    ensures ctrlKey && labels[clicked].checked ==> r == hiddenData + [labels[clicked].key]
    ensures ctrlKey && !labels[clicked].checked ==>
      forall k :: k in r <==> k in hiddenData && k != labels[clicked].key
    ensures !ctrlKey && hiddenData != [] && labels[clicked].checked ==> r == []
    ensures !ctrlKey && (hiddenData == [] || !labels[clicked].checked) ==>
      && |r| == |labels| - 1
      && (forall j :: 0 <= j < clicked ==> r[j] == labels[j].key)
      && (forall j :: clicked < j < |labels| ==> r[j - 1] == labels[j].key)
  {
    var item := labels[clicked];
    if ctrlKey then
      if item.checked then hiddenData + [item.key] else RemoveKey(hiddenData, item.key)
    else if |hiddenData| > 0 && item.checked then []
    else KeysExcept(labels, clicked)
  }

  /** The chart view's own state: the keys of the series the user has hidden. */
  class LineChartView {
    var hiddenData: seq<string>

    constructor ()
      ensures hiddenData == []
    {
      hiddenData := [];
    }

    /** The legend as it is rendered now. */
    function Legend(data: seq<MetricResult>, nameOf: MetricResult -> string, colorOf: string -> string): seq<LegendItem>
      reads this
    {
      Labels(data, hiddenData, nameOf, colorOf)
    }

    /** onClickLegend on the `clicked`-th legend item. */
    method OnClickLegend(data: seq<MetricResult>, nameOf: MetricResult -> string, colorOf: string -> string,
                         ctrlKey: bool, clicked: nat)
      requires clicked < |data|
      modifies this
      ensures hiddenData == NextHidden(old(hiddenData), old(Legend(data, nameOf, colorOf)), ctrlKey, clicked)
    {
      var labels := Labels(data, hiddenData, nameOf, colorOf);
      var legendItem := labels[clicked];
      var checked := legendItem.checked;
      if ctrlKey {
        hiddenData := if checked then hiddenData + [legendItem.key] else RemoveKey(hiddenData, legendItem.key);
      } else if |hiddenData| > 0 && checked {
        hiddenData := [];
      } else {
        var hiddenLegends := KeysExcept(labels, clicked);
        hiddenData := hiddenLegends;
      }
    }
  }

  // ----- Zoom and pan -----

  /** getRangeTimeScale: a chart without a time scale reads as 0 to 0. */
  function RangeTimeScale(scale: Option<Extent>): (e: Extent)
    ensures scale.Some? ==> e == scale.value
    ensures scale.None? ==> e.min == 0.0 && e.max == 0.0
  {
    match scale
    case None => Extent(0.0, 0.0)
    case Some(e) => e
  }

  /**
    onZoomComplete: the new scale range becomes the period, unless a bound
    is 0 or the range is narrower than one second.
   */
  function OnZoomComplete(scale: Option<Extent>): (period: Option<Period>)
    ensures scale.None? ==> period.None?
    ensures period.Some? ==> period.value.to - period.value.from >= 1000.0
    ensures period.Some? ==> scale == Some(Extent(period.value.from, period.value.to))
    ensures period.Some? ==> period.value.from != 0.0 && period.value.to != 0.0
    ensures (scale.Some? && scale.value.min != 0.0 && scale.value.max != 0.0 &&
             scale.value.max - scale.value.min >= 1000.0) ==> period.Some?
  {
    var e := RangeTimeScale(scale);
    if e.min == 0.0 || e.max == 0.0 || e.max - e.min < 1000.0 then None
    else Some(Period(e.min, e.max))
  }

  /**
    onPanComplete: unless a bound is 0, the period is the window of the
    current duration that getTimeperiodForDuration places at the new end.
   */
  function OnPanComplete(scale: Option<Extent>, duration: string,
                         timeperiodForDuration: (string, real) -> (real, real),
                         dateFromSeconds: real -> real): (period: Option<Period>)
    ensures scale.None? ==> period.None?
    ensures period.None? <==> RangeTimeScale(scale).min == 0.0 || RangeTimeScale(scale).max == 0.0
    ensures period.Some? ==>
      var window := timeperiodForDuration(duration, RangeTimeScale(scale).max);
      period.value == Period(dateFromSeconds(window.0), dateFromSeconds(window.1))
  {
    var e := RangeTimeScale(scale);
    if e.min == 0.0 || e.max == 0.0 then None
    else
      var (start, end) := timeperiodForDuration(duration, e.max);
      Some(Period(dateFromSeconds(start), dateFromSeconds(end)))
  }
}

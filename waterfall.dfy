/** The waterfall (bridge) chart: a running total folded over the items decides
    where each bar starts and how tall it is. Numbers are reals; the text of
    the rendered HTML and the decimal rendering of values are outside the
    model. */
module Waterfall {
  import opened Wrappers

  /** One chart item. `kind` is the item's `type` field: 'total', 'subtotal', or
      anything else for a change. */
  datatype Item = Item(kind: string, value: real)

  predicate IsLevel(it: Item) {
    it.kind == "total" || it.kind == "subtotal"
  }

  datatype BarClass = TotalBar | SubtotalBar | DecreaseBar | IncreaseBar

  /** Where a bar's wrapper sits (`bottom`), how tall the bar is, its class, and
      the value its label shows. */
  datatype Bar = Bar(bottom: real, height: real, cls: BarClass, value: real)

  function Abs(x: real): real {
    if x < 0.0 then -x else x
  }

  function Min(a: real, b: real): real {
    if a <= b then a else b
  }

  // ---------------------------------------------------------------------
  // The running total and the bars it yields
  // ---------------------------------------------------------------------

  /** The running total after the given items: a total or subtotal sets it to its
      value, a change adds its value. */
  function Level(items: seq<Item>): real
    decreases |items|
  {
    if items == [] then 0.0
    else
      var last := items[|items| - 1];
      if IsLevel(last) then last.value else Level(items[..|items| - 1]) + last.value
  }

  /** The bar for one item, given the level before it. */
  function BarFor(it: Item, prev: real, scale: real): Bar {
    var cls := if it.kind == "total" then TotalBar
               else if it.kind == "subtotal" then SubtotalBar
               else if it.value < 0.0 then DecreaseBar else IncreaseBar;
    if IsLevel(it) then Bar(0.0, it.value * scale, cls, it.value)
    else if it.value < 0.0 then Bar((prev + it.value) * scale, Abs(it.value) * scale, cls, it.value)
    else Bar(prev * scale, it.value * scale, cls, it.value)
  }

  /** Every item's bar, each from the level after the items before it. */
  function Bars(data: seq<Item>, scale: real): (bars: seq<Bar>)
    ensures |bars| == |data|
  {
    seq(|data|, i requires 0 <= i < |data| => BarFor(data[i], Level(data[..i]), scale))
  }

  lemma LevelStep(data: seq<Item>, i: nat)
    requires i < |data|
    ensures Level(data[..i + 1]) == if IsLevel(data[i]) then data[i].value else Level(data[..i]) + data[i].value
  {
    assert data[..i + 1][..i] == data[..i];
  }

  /** A total or subtotal starts at 0, is `value·scale` tall and resets the level. */
  lemma TotalsStartAtZero(data: seq<Item>, scale: real, i: nat)
    requires i < |data| && IsLevel(data[i])
    ensures Bars(data, scale)[i].bottom == 0.0
    ensures Bars(data, scale)[i].height == data[i].value * scale
    ensures Level(data[..i + 1]) == data[i].value
  {
    LevelStep(data, i);
  }

  /** A change bar spans exactly from the level before it to the level after it:
      it starts at the lower of the two and is `|value|·scale` tall, so an increase
      builds up from the previous level and a decrease hangs from it. */
  lemma ChangeSpansLevels(data: seq<Item>, scale: real, i: nat)
    requires i < |data| && !IsLevel(data[i])
    ensures Level(data[..i + 1]) == Level(data[..i]) + data[i].value
    ensures Bars(data, scale)[i].bottom == Min(Level(data[..i]), Level(data[..i + 1])) * scale
    ensures Bars(data, scale)[i].height == Abs(data[i].value) * scale
    ensures data[i].value < 0.0 ==>
      Bars(data, scale)[i].bottom + Bars(data, scale)[i].height == Level(data[..i]) * scale
    ensures data[i].value >= 0.0 ==>
      Bars(data, scale)[i].bottom + Bars(data, scale)[i].height == Level(data[..i + 1]) * scale
  {
    LevelStep(data, i);
  }

  /** The bar class: total, subtotal, else decrease exactly for a negative value. */
  lemma BarClassRule(data: seq<Item>, scale: real, i: nat)
    requires i < |data|
    ensures Bars(data, scale)[i].cls == TotalBar <==> data[i].kind == "total"
    ensures Bars(data, scale)[i].cls == SubtotalBar <==> data[i].kind == "subtotal"
    ensures Bars(data, scale)[i].cls == DecreaseBar <==> !IsLevel(data[i]) && data[i].value < 0.0
    ensures Bars(data, scale)[i].cls == IncreaseBar <==> !IsLevel(data[i]) && data[i].value >= 0.0
  {
  }

  function Sum(items: seq<Item>): real
    decreases |items|
  {
    if items == [] then 0.0 else Sum(items[..|items| - 1]) + items[|items| - 1].value
  }

  /** After the last total or subtotal the level is that value plus the sum of the
      changes that follow it. */
  lemma {:induction false} LevelAccumulates(prefix: seq<Item>, changes: seq<Item>)
    requires forall k :: 0 <= k < |changes| ==> !IsLevel(changes[k])
    ensures Level(prefix + changes) == Level(prefix) + Sum(changes)
    decreases |changes|
  {
    if changes != [] {
      var init := changes[..|changes| - 1];
      assert (prefix + changes)[..|prefix + changes| - 1] == prefix + init;
      LevelAccumulates(prefix, init);
    } else {
      assert prefix + changes == prefix;
    }
  }

  // ---------------------------------------------------------------------
  // The scale
  // ---------------------------------------------------------------------

  /** The index of the first 'total' item (`data.find`). */
  function FirstTotal(data: seq<Item>): (r: Option<nat>)
    ensures r.Some? ==> r.value < |data| && data[r.value].kind == "total"
    ensures r.Some? ==> forall k :: 0 <= k < r.value ==> data[k].kind != "total"
    ensures r.None? ==> forall k :: 0 <= k < |data| ==> data[k].kind != "total"
  {
    if data == [] then None
    else if data[0].kind == "total" then Some(0)
    else match FirstTotal(data[1..])
      case None => None
      case Some(j) => Some(j + 1)
  }

  /** The largest absolute value. */
  function MaxAbs(data: seq<Item>): (m: real)
    requires data != []
    ensures forall k :: 0 <= k < |data| ==> Abs(data[k].value) <= m
    ensures exists k :: 0 <= k < |data| && Abs(data[k].value) == m
  {
    if |data| == 1 then Abs(data[0].value)
    else
      var rest := MaxAbs(data[1..]);
      assert forall k :: 1 <= k < |data| ==> data[k] == data[1..][k - 1];
      if Abs(data[0].value) >= rest then Abs(data[0].value) else rest
  }

  /** `maxValue || first total's value || largest absolute value`: a zero (or
      absent) candidate falls through to the next. */
  function ScaleMax(data: seq<Item>, maxValue: Option<real>): (m: real)
    requires data != []
    ensures maxValue.Some? && maxValue.value != 0.0 ==> m == maxValue.value
    ensures !(maxValue.Some? && maxValue.value != 0.0) ==>
      match FirstTotal(data)
      case Some(t) => (data[t].value != 0.0 ==> m == data[t].value) && (data[t].value == 0.0 ==> m == MaxAbs(data))
      case None => m == MaxAbs(data)
  {
    if maxValue.Some? && maxValue.value != 0.0 then maxValue.value
    else match FirstTotal(data)
      case Some(t) => if data[t].value != 0.0 then data[t].value else MaxAbs(data)
      case None => MaxAbs(data)
  }

  // ---------------------------------------------------------------------
  // renderWaterfall
  // ---------------------------------------------------------------------

  /** What the container receives: nothing for empty data; unusable geometry when
      the scale maximum is 0 (the height is divided by zero); else the bars. */
  datatype Chart = NoChart | ZeroScale | Drawn(scale: real, bars: seq<Bar>)

  /** The body of the per-item callback: the item's bar, and the running total
      after it. */
  method ItemBar(item: Item, runningTotal: real, scale: real) returns (bar: Bar, total: real)
    ensures bar == BarFor(item, runningTotal, scale)
    ensures total == if IsLevel(item) then item.value else runningTotal + item.value
  {
    var bottom, barHeight;
    total := runningTotal;
    if item.kind == "total" || item.kind == "subtotal" {
      bottom := 0.0;
      barHeight := item.value * scale;
      total := item.value;
    } else {
      var prevTotal := total;
      total := total + item.value;
      if item.value < 0.0 {
        bottom := total * scale;
        barHeight := Abs(item.value) * scale;
      } else {
        bottom := prevTotal * scale;
        barHeight := item.value * scale;
      }
    }
    var cls := if item.kind == "total" then TotalBar
               else if item.kind == "subtotal" then SubtotalBar
               else if item.value < 0.0 then DecreaseBar else IncreaseBar;
    bar := Bar(bottom, barHeight, cls, item.value);
  }

  /** `renderWaterfall`: the running total is updated item by item while the bars
      are emitted. */
  method RenderWaterfall(data: seq<Item>, height: real, maxValue: Option<real>) returns (chart: Chart)
    ensures data == [] <==> chart == NoChart
    ensures data != [] ==> (chart == ZeroScale <==> ScaleMax(data, maxValue) == 0.0)
    ensures chart.Drawn? ==> data != [] && chart.scale == height / ScaleMax(data, maxValue)
    ensures chart.Drawn? ==> chart.bars == Bars(data, chart.scale)
  {
    if data == [] {
      return NoChart;
    }
    var scaleMax := ScaleMax(data, maxValue);
    if scaleMax == 0.0 {
      return ZeroScale;
    }
    var scale := height / scaleMax;
    var runningTotal := 0.0;
    var bars: seq<Bar> := [];
    var i := 0;
    while i < |data|
      invariant 0 <= i <= |data|
      invariant runningTotal == Level(data[..i])
      invariant bars == Bars(data, scale)[..i]
    {
      var bar;
      bar, runningTotal := ItemBar(data[i], runningTotal, scale);
      LevelStep(data, i);
      assert Bars(data, scale)[..i + 1] == Bars(data, scale)[..i] + [bar];
      bars := bars + [bar];
      i := i + 1;
    }
    assert bars == Bars(data, scale);
    chart := Drawn(scale, bars);
  }

  // ---------------------------------------------------------------------
  // formatValue
  // ---------------------------------------------------------------------

  datatype Unit = Millions | Thousands | Units

  /** A formatted value: '$', the magnitude in the chosen unit with the given
      number of decimals, and the unit's suffix ('M', 'K' or none). */
  datatype Money = Money(unit: Unit, magnitude: real, decimals: nat)

  function Suffix(u: Unit): string {
    match u
    case Millions => "M"
    case Thousands => "K"
    case Units => ""
  }

  /** `formatValue`: the unit is chosen by the absolute value, so the sign is
      dropped. */
  function FormatValue(val: real): (r: Money)
    ensures r.magnitude >= 0.0
    ensures r.unit == Millions <==> Abs(val) >= 1000000.0
    ensures r.unit == Thousands <==> 1000.0 <= Abs(val) < 1000000.0
    ensures r.unit == Units <==> Abs(val) < 1000.0
    ensures r.unit == Millions ==> r.magnitude * 1000000.0 == Abs(val) && r.decimals == 2
    ensures r.unit == Thousands ==> r.magnitude * 1000.0 == Abs(val) && r.decimals == 0
    ensures r.unit == Units ==> r.magnitude == Abs(val) && r.decimals == 0
  {
    var a := Abs(val);
    if a >= 1000000.0 then Money(Millions, a / 1000000.0, 2)
    else if a >= 1000.0 then Money(Thousands, a / 1000.0, 0)
    else Money(Units, a, 0)
  }

  /** A value and its negation are shown the same way. */
  lemma FormatValueDropsSign(val: real)
    ensures FormatValue(-val) == FormatValue(val)
  {
  }
}

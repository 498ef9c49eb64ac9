/** The year-over-year variance chart: the percentage change of each row, the
    clamped bar width, and the favourable / positive classification. The
    one-decimal rendering of the percentage is outside the model. */
module VarianceChart {
  import opened Wrappers

  function Abs(x: real): real {
    if x < 0.0 then -x else x
  }

  function Max(a: real, b: real): real {
    if a >= b then a else b
  }

  function Min(a: real, b: real): real {
    if a <= b then a else b
  }

  /** `calculateVariance`: the change relative to the size of the prior value, in
      percent; a zero prior counts as +100% growth when the current value is
      positive and as -100% otherwise. */
  function CalculateVariance(current: real, prior: real): (v: real)
    ensures prior == 0.0 ==> (v == 100.0 <==> current > 0.0) && (v == -100.0 <==> current <= 0.0)
    ensures prior != 0.0 ==> v * Abs(prior) == (current - prior) * 100.0
  {
    if prior == 0.0 then (if current > 0.0 then 100.0 else -100.0)
    else ((current - prior) / Abs(prior)) * 100.0
  }

  /** With a non-zero prior, the variance has the sign of the change. */
  lemma VarianceSign(current: real, prior: real)
    requires prior != 0.0
    ensures CalculateVariance(current, prior) > 0.0 <==> current > prior
    ensures CalculateVariance(current, prior) == 0.0 <==> current == prior
    ensures CalculateVariance(current, prior) < 0.0 <==> current < prior
  {
    var v := CalculateVariance(current, prior);
    var a := Abs(prior);
    assert a > 0.0;
    assert v * a == (current - prior) * 100.0;
    if v > 0.0 { assert v * a > 0.0; }
    if v < 0.0 { assert v * a < 0.0; }
  }

  /** Both values at zero count as a fall. */
  lemma ZeroOverZero()
    ensures CalculateVariance(0.0, 0.0) == -100.0
  {
  }

  /** One chart row (its `label` is `caption` here): a section divider when
      `section` is non-empty, else a bar row.
      `favorable` is the item's direction ('up' or anything else). */
  datatype Item = Item(section: string, caption: string, current: real, prior: real,
                       favorable: string, highlight: bool)

  /** What one item renders. `width` is the bar width in percent of the
      container, absent when `maxPercent` is 0 (zero divided by zero). */
  datatype Row =
    | Divider(section: string)
    | BarRow(caption: string, variance: real, width: Option<real>, positive: bool,
             favourable: bool, highlight: bool, sign: string)

  /** `Math.max(-maxPercent, Math.min(maxPercent, variance))`. */
  function Clamp(v: real, maxPercent: real): real {
    Max(-maxPercent, Min(maxPercent, v))
  }

  function BarWidth(v: real, maxPercent: real): Option<real> {
    if maxPercent == 0.0 then None else Some(Abs(Clamp(v, maxPercent)) / maxPercent * 50.0)
  }

  predicate Favourable(v: real, favorable: string) {
    if favorable == "up" then v >= 0.0 else v <= 0.0
  }

  function RowFor(it: Item, maxPercent: real): Row {
    if it.section != "" then Divider(it.section)
    else
      var v := CalculateVariance(it.current, it.prior);
      BarRow(it.caption, v, BarWidth(v, maxPercent), v >= 0.0, Favourable(v, it.favorable),
             it.highlight, if v >= 0.0 then "+" else "")
  }

  /** For a positive maximum the clamped variance stays within ±maxPercent, it is
      the variance itself inside that band, and the width lies in [0, 50]. */
  lemma ClampBounds(v: real, maxPercent: real)
    requires maxPercent > 0.0
    ensures -maxPercent <= Clamp(v, maxPercent) <= maxPercent
    ensures -maxPercent <= v <= maxPercent ==> Clamp(v, maxPercent) == v
    ensures BarWidth(v, maxPercent).Some?
    ensures 0.0 <= BarWidth(v, maxPercent).value <= 50.0
  {
    var c := Abs(Clamp(v, maxPercent));
    assert 0.0 <= c <= maxPercent;
    FractionOfMax(c, maxPercent);
  }

  lemma FractionOfMax(c: real, m: real)
    requires 0.0 <= c <= m && m > 0.0
    ensures 0.0 <= c / m <= 1.0
  {
    var q := c / m;
    assert q * m == c;
    assert (q - 1.0) * m == c - m;
  }

  /** A section item renders only its divider. */
  lemma SectionIsDivider(it: Item, maxPercent: real)
    requires it.section != ""
    ensures RowFor(it, maxPercent) == Divider(it.section)
  {
  }

  /** Favourable means growth for an 'up' item and shrinkage otherwise; no change
      is favourable either way. */
  lemma FavourableRule(it: Item, maxPercent: real)
    requires it.section == ""
    ensures var r := RowFor(it, maxPercent);
      && (it.favorable == "up" ==> (r.favourable <==> r.variance >= 0.0))
      && (it.favorable != "up" ==> (r.favourable <==> r.variance <= 0.0))
      && (r.variance == 0.0 ==> r.favourable)
  {
  }

  /** The positive bar class and the '+' sign go together, exactly when the
      variance is not negative. */
  lemma PositiveIffPlus(it: Item, maxPercent: real)
    requires it.section == ""
    ensures var r := RowFor(it, maxPercent);
      && (r.positive <==> r.sign == "+")
      && (r.positive <==> r.variance >= 0.0)
      && (r.sign == "+" || r.sign == "")
  {
  }

  /** `renderVarianceChart`: rows are emitted in item order; empty data renders
      nothing. */
  method RenderVarianceChart(data: seq<Item>, maxPercent: real) returns (rows: seq<Row>)
    ensures |rows| == |data|
    ensures forall k :: 0 <= k < |data| ==> rows[k] == RowFor(data[k], maxPercent)
  {
    rows := [];
    var i := 0;
    while i < |data|
      invariant 0 <= i <= |data|
      invariant |rows| == i
      invariant forall k :: 0 <= k < i ==> rows[k] == RowFor(data[k], maxPercent)
    {
      var item := data[i];
      if item.section != "" {
        rows := rows + [Divider(item.section)];
      } else {
        var variance := CalculateVariance(item.current, item.prior);
        var clamped := Max(-maxPercent, Min(maxPercent, variance));
        var width := if maxPercent == 0.0 then None else Some(Abs(clamped) / maxPercent * 50.0);
        var isFavourable;
        if item.favorable == "up" {
          isFavourable := variance >= 0.0;
        } else {
          isFavourable := variance <= 0.0;
        }
        var sign := if variance >= 0.0 then "+" else "";
        rows := rows + [BarRow(item.caption, variance, width, variance >= 0.0, isFavourable,
                               item.highlight, sign)];
      }
      i := i + 1;
    }
  }
}

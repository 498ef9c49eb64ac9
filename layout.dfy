/** The slide layout engine's value-level rules: the aspect-ratio table, the
    preset catalogue, copy-on-write region edits, effective padding, the
    column-split clamp and substitution, and the placement plan the builder
    renders (a stacked flow or a grid). */
module SlideLayout {
  import opened Wrappers
  import opened Text

  // ---------------------------------------------------------------------
  // Aspect ratios
  // ---------------------------------------------------------------------

  datatype AspectRatio = AspectRatio(width: nat, height: nat, name: string, stack: bool)

  const RatioIds: seq<string> := ["16:9", "16:4", "4:3", "9:16"]

  /** The fixed aspect-ratio table; an identifier outside it has no entry. */
  function LookupRatio(id: string): (r: Option<AspectRatio>)
    ensures r.Some? <==> id in RatioIds
    ensures r.Some? ==> r.value.width > 0 && r.value.height > 0
  {
    if id == "16:9" then Some(AspectRatio(16, 9, "Desktop", false))
    else if id == "16:4" then Some(AspectRatio(16, 4, "Wide", false))
    else if id == "4:3" then Some(AspectRatio(4, 3, "Tablet", false))
    else if id == "9:16" then Some(AspectRatio(9, 16, "Mobile", true))
    else None
  }

  /** Compact rendering (smaller fonts and padding) is chosen by identifier. */
  predicate IsCompact(id: string) {
    id == "16:4" || id == "9:16"
  }

  /** Whether the ratio renders as a vertical stack instead of a grid. */
  function ShouldStack(id: string): (stack: bool)
    requires id in RatioIds
    ensures stack <==> id == "9:16"
  {
    LookupRatio(id).value.stack
  }

  /** Stacking is exactly the portrait ratio, and compact rendering is exactly
      the portrait ratio plus the one at least four times wider than high;
      so every stacking ratio is also compact. */
  lemma RatioModes(id: string)
    requires id in RatioIds
    ensures var a := LookupRatio(id).value;
      && (ShouldStack(id) <==> a.height > a.width)
      && (IsCompact(id) <==> a.height > a.width || a.width >= 4 * a.height)
      && (ShouldStack(id) ==> IsCompact(id))
  {
  }

  // ---------------------------------------------------------------------
  // Regions and layouts
  // ---------------------------------------------------------------------

  /** A grid placement: a single line number, or a span written as text ("1 / -1"). */
  datatype Track = Line(n: int) | Span(text: string)

  datatype Region = Region(
    id: string, name: string, row: Track, col: Track,
    color: string, component: string, padding: int)

  datatype Layout = Layout(
    name: string, regions: seq<Region>, rows: string, cols: string,
    stackOrder: seq<string>)

  const ComponentTypes: seq<string> := ["title", "markdown", "chart", "table", "image"]

  function Ids(rs: seq<Region>): (ids: seq<string>)
    ensures |ids| == |rs|
    ensures forall i :: 0 <= i < |rs| ==> ids[i] == rs[i].id
  {
    seq(|rs|, i requires 0 <= i < |rs| => rs[i].id)
  }

  predicate Distinct(s: seq<string>) {
    forall i, j :: 0 <= i < j < |s| ==> s[i] != s[j]
  }

  /** Region ids are unique and the stack order lists each of them exactly once. */
  predicate WellFormed(l: Layout) {
    && Distinct(Ids(l.regions))
    && multiset(l.stackOrder) == multiset(Ids(l.regions))
  }

  const TitleTwoColumns := Layout("Title + 2 Columns",
    [ Region("title", "Title", Line(1), Span("1 / -1"), "#4a6fa5", "title", 12),
      Region("left", "Description", Line(2), Line(1), "#6b8f71", "markdown", 12),
      Region("right", "Visualization", Line(2), Line(2), "#c9a227", "chart", 8) ],
    "auto 1fr", "35% 1fr", ["title", "right", "left"])

  const TwoColumns := Layout("Two Columns",
    [ Region("left", "Left", Line(1), Line(1), "#4a6fa5", "markdown", 12),
      Region("right", "Right", Line(1), Line(2), "#6b8f71", "chart", 8) ],
    "1fr", "1fr 1fr", ["left", "right"])

  const HeaderBodyFooter := Layout("Header + Body + Footer",
    [ Region("header", "Header", Line(1), Span("1 / -1"), "#4a6fa5", "title", 12),
      Region("body", "Body", Line(2), Span("1 / -1"), "#6b8f71", "chart", 8),
      Region("footer", "Footer", Line(3), Span("1 / -1"), "#c9a227", "markdown", 12) ],
    "auto 1fr auto", "1fr", ["header", "body", "footer"])

  const SidebarContent := Layout("Sidebar + Content",
    [ Region("sidebar", "Sidebar", Span("1 / -1"), Line(1), "#4a6fa5", "markdown", 12),
      Region("content", "Content", Span("1 / -1"), Line(2), "#6b8f71", "chart", 8) ],
    "1fr", "25% 1fr", ["content", "sidebar"])

  /** The preset catalogue, in menu order; the first entry is the initial layout. */
  const Presets: seq<Layout> := [TitleTwoColumns, TwoColumns, HeaderBodyFooter, SidebarContent]

  /** Every catalogued preset has unique region ids and a stack order that is a
      permutation of them; the preset names are unique too. */
  lemma PresetsWellFormed()
    ensures forall k :: 0 <= k < |Presets| ==> WellFormed(Presets[k])
    ensures forall i, j :: 0 <= i < j < |Presets| ==> Presets[i].name != Presets[j].name
  {
    PresetWellFormedEach();
    FourWellFormed(Presets, TitleTwoColumns, TwoColumns, HeaderBodyFooter, SidebarContent);
    FourNamesDistinct(Presets, TitleTwoColumns, TwoColumns, HeaderBodyFooter, SidebarContent);
  }

  lemma FourNamesDistinct(ps: seq<Layout>, a: Layout, b: Layout, c: Layout, d: Layout)
    requires ps == [a, b, c, d]
    requires a.name != b.name && a.name != c.name && a.name != d.name
    requires b.name != c.name && b.name != d.name && c.name != d.name
    ensures forall i, j :: 0 <= i < j < |ps| ==> ps[i].name != ps[j].name
  {
  }

  lemma FourWellFormed(ps: seq<Layout>, a: Layout, b: Layout, c: Layout, d: Layout)
    requires ps == [a, b, c, d]
    requires WellFormed(a) && WellFormed(b) && WellFormed(c) && WellFormed(d)
    ensures forall k :: 0 <= k < |ps| ==> WellFormed(ps[k])
  {
  }

  lemma PresetWellFormedEach()
    ensures WellFormed(TitleTwoColumns) && WellFormed(TwoColumns)
    ensures WellFormed(HeaderBodyFooter) && WellFormed(SidebarContent)
  {
    ThreeWellFormed(TitleTwoColumns);
    TwoWellFormed(TwoColumns);
    ThreeWellFormed(HeaderBodyFooter);
    TwoWellFormed(SidebarContent);
  }

  lemma TwoWellFormed(l: Layout)
    requires |l.regions| == 2 && l.regions[0].id != l.regions[1].id
    requires l.stackOrder == [l.regions[0].id, l.regions[1].id] || l.stackOrder == [l.regions[1].id, l.regions[0].id]
    ensures WellFormed(l)
  {
    var a, b := l.regions[0].id, l.regions[1].id;
    assert Ids(l.regions) == [a, b];
    assert multiset([a, b]) == multiset([b, a]);
  }

  lemma ThreeWellFormed(l: Layout)
    requires |l.regions| == 3
    requires var a, b, c := l.regions[0].id, l.regions[1].id, l.regions[2].id;
      a != b && b != c && a != c && (l.stackOrder == [a, b, c] || l.stackOrder == [a, c, b])
    ensures WellFormed(l)
  {
    var a, b, c := l.regions[0].id, l.regions[1].id, l.regions[2].id;
    assert Ids(l.regions) == [a, b, c];
    SwapLastTwo(a, b, c);
  }

  lemma SwapLastTwo<T>(a: T, b: T, c: T)
    ensures multiset([a, b, c]) == multiset([a, c, b])
  {
  }

  /** In a well-formed layout a name is in the stack order exactly when a region has it. */
  lemma StackOrderCoversRegions(l: Layout, id: string)
    requires WellFormed(l)
    ensures id in l.stackOrder <==> id in Ids(l.regions)
  {
    assert id in l.stackOrder <==> id in multiset(l.stackOrder);
    assert id in Ids(l.regions) <==> id in multiset(Ids(l.regions));
  }

  /** The first catalogued preset with the given name (Array.prototype.find). */
  function FindPresetIn(ps: seq<Layout>, name: string): (r: Option<nat>)
    ensures r.Some? ==> r.value < |ps| && ps[r.value].name == name
    ensures r.Some? ==> forall j :: 0 <= j < r.value ==> ps[j].name != name
    ensures r.None? ==> forall j :: 0 <= j < |ps| ==> ps[j].name != name
  {
    if ps == [] then None
    else if ps[0].name == name then Some(0)
    else match FindPresetIn(ps[1..], name)
      case None => None
      case Some(k) => Some(k + 1)
  }

  /** Preset selection: an equal copy of the named catalogue entry, or nothing for an
      unknown name. Datatype values are immutable, so the copy is independent of
      the catalogue by construction. */
  function FindPreset(name: string): (r: Option<Layout>)
    ensures r.Some? <==> exists k :: 0 <= k < |Presets| && Presets[k].name == name
    ensures r.Some? ==> r.value in Presets && r.value.name == name && WellFormed(r.value)
  {
    PresetsWellFormed();
    match FindPresetIn(Presets, name)
    case None => None
    case Some(k) => Some(Presets[k])
  }

  // ---------------------------------------------------------------------
  // Copy-on-write region edits
  // ---------------------------------------------------------------------

  datatype Edit = SetComponent(component: string) | SetPadding(padding: int)

  function ApplyEdit(r: Region, e: Edit): Region {
    match e
    case SetComponent(c) => r.(component := c)
    case SetPadding(p) => r.(padding := p)
  }

  /** `regions.map(r => r.id === id ? { ...r, field } : r)`. */
  function EditRegions(rs: seq<Region>, id: string, e: Edit): (out: seq<Region>)
    ensures |out| == |rs|
    ensures forall i :: 0 <= i < |rs| ==>
      out[i] == if rs[i].id == id then ApplyEdit(rs[i], e) else rs[i]
  {
    if rs == [] then []
    else [if rs[0].id == id then ApplyEdit(rs[0], e) else rs[0]] + EditRegions(rs[1..], id, e)
  }

  /** Reassigns the component of every region with the given id. */
  function UpdateRegionComponent(l: Layout, id: string, component: string): (r: Layout)
    ensures r.name == l.name && r.rows == l.rows && r.cols == l.cols
    ensures r.stackOrder == l.stackOrder
    ensures |r.regions| == |l.regions|
    ensures forall i :: 0 <= i < |l.regions| ==>
      if l.regions[i].id == id then r.regions[i] == l.regions[i].(component := component)
      else r.regions[i] == l.regions[i]
  {
    l.(regions := EditRegions(l.regions, id, SetComponent(component)))
  }

  /** Sets the padding of every region with the given id. */
  function UpdateRegionPadding(l: Layout, id: string, padding: int): (r: Layout)
    ensures r.name == l.name && r.rows == l.rows && r.cols == l.cols
    ensures r.stackOrder == l.stackOrder
    ensures |r.regions| == |l.regions|
    ensures forall i :: 0 <= i < |l.regions| ==>
      if l.regions[i].id == id then r.regions[i] == l.regions[i].(padding := padding)
      else r.regions[i] == l.regions[i]
  {
    l.(regions := EditRegions(l.regions, id, SetPadding(padding)))
  }

  /** An edit naming no region yields an equal layout. */
  lemma UpdateUnknownId(l: Layout, id: string, component: string, padding: int)
    requires id !in Ids(l.regions)
    ensures UpdateRegionComponent(l, id, component) == l
    ensures UpdateRegionPadding(l, id, padding) == l
  {
    var a, b := UpdateRegionComponent(l, id, component), UpdateRegionPadding(l, id, padding);
    forall i | 0 <= i < |l.regions| ensures a.regions[i] == l.regions[i] && b.regions[i] == l.regions[i] {
      assert Ids(l.regions)[i] == l.regions[i].id;
    }
    assert a.regions == l.regions;
    assert b.regions == l.regions;
  }

  /** Edits keep every region's id, so they keep a layout well formed. */
  lemma UpdatePreservesWellFormed(l: Layout, id: string, component: string, padding: int)
    requires WellFormed(l)
    ensures WellFormed(UpdateRegionComponent(l, id, component))
    ensures WellFormed(UpdateRegionPadding(l, id, padding))
  {
    assert Ids(UpdateRegionComponent(l, id, component).regions) == Ids(l.regions);
    assert Ids(UpdateRegionPadding(l, id, padding).regions) == Ids(l.regions);
  }

  /** Repeating an edit changes nothing more, and a component edit and a padding
      edit commute. */
  lemma UpdatesIdempotentAndCommute(l: Layout, id1: string, component: string, id2: string, padding: int)
    ensures UpdateRegionComponent(UpdateRegionComponent(l, id1, component), id1, component)
         == UpdateRegionComponent(l, id1, component)
    ensures UpdateRegionPadding(UpdateRegionComponent(l, id1, component), id2, padding)
         == UpdateRegionComponent(UpdateRegionPadding(l, id2, padding), id1, component)
  {
    var a := UpdateRegionComponent(UpdateRegionComponent(l, id1, component), id1, component);
    assert a.regions == UpdateRegionComponent(l, id1, component).regions;
    var b := UpdateRegionPadding(UpdateRegionComponent(l, id1, component), id2, padding);
    var c := UpdateRegionComponent(UpdateRegionPadding(l, id2, padding), id1, component);
    assert b.regions == c.regions;
  }

  // ---------------------------------------------------------------------
  // Padding
  // ---------------------------------------------------------------------

  /** The padding a region's content is drawn with: compact rendering takes 4 off
      but never goes below 4. */
  function EffectivePadding(compact: bool, padding: int): (p: int)
    ensures !compact ==> p == padding
    ensures compact ==> p >= 4 && p >= padding - 4
    ensures compact ==> (p == 4 || p == padding - 4)
  {
    if compact then (if 4 > padding - 4 then 4 else padding - 4) else padding
  }

  /** The padding the layout-view overlay shows, as written: `padding || 12`, so a
      padding of 0 is shown as 12. */
  function OverlayPaddingAsWritten(padding: int): (p: int)
    ensures padding != 0 ==> p == padding
  {
    if padding != 0 then padding else 12
  }

  /** The overlay as written disagrees with the content view for padding 0: the
      content is drawn with 0 while the overlay (and its selector) show 12. */
  lemma OverlayHidesZeroPadding()
    ensures OverlayPaddingAsWritten(0) == 12
    ensures EffectivePadding(false, 0) == 0
  {
  }

  /** The overlay padding with the default applied only to a missing value, as the
      content renderer's default parameter does; region paddings are always present. */
  function OverlayPadding(padding: int): (p: int)
    ensures p == EffectivePadding(false, padding)
  {
    padding
  }

  // ---------------------------------------------------------------------
  // Column split
  // ---------------------------------------------------------------------

  function Min(a: real, b: real): real { if a <= b then a else b }
  function Max(a: real, b: real): real { if a >= b then a else b }

  /** The split percentage for a pointer at `clientX` over a container whose left
      edge is `left` and whose width is `width`: `max(20, min(80, pct))`. A
      zero-width container divides by zero; the result is then 80 or 20 for a
      pointer right or left of the edge and None (NaN) for a pointer on it. */
  function ClampSplit(clientX: real, left: real, width: real): (pct: Option<real>)
    requires width >= 0.0
    ensures pct.Some? ==> 20.0 <= pct.value <= 80.0
    ensures width > 0.0 ==> pct.Some?
    ensures width > 0.0 && 20.0 <= (clientX - left) / width * 100.0 <= 80.0 ==>
      pct == Some((clientX - left) / width * 100.0)
    ensures width == 0.0 ==> (pct.None? <==> clientX == left)
  {
    if width > 0.0 then Some(Max(20.0, Min(80.0, (clientX - left) / width * 100.0)))
    else if clientX > left then Some(80.0)
    else if clientX < left then Some(20.0)
    else None
  }

  lemma DivMonotone(a: real, b: real, w: real)
    requires a <= b && w > 0.0
    ensures a / w * 100.0 <= b / w * 100.0
  {
    assert a / w <= b / w by {
      assert (b - a) / w >= 0.0;
      assert b / w - a / w == (b - a) / w;
    }
  }

  /** The split follows the pointer: moving it right never makes the split smaller. */
  lemma ClampSplitMonotone(x1: real, x2: real, left: real, width: real)
    requires x1 <= x2 && width > 0.0
    ensures ClampSplit(x1, left, width).value <= ClampSplit(x2, left, width).value
  {
    DivMonotone(x1 - left, x2 - left, width);
  }

  /** The regular expression /\d+%/ can match `s[i..k+1]`: a non-empty run of
      digits followed by a percent sign. */
  ghost predicate PercentTokenAt(s: string, i: int, k: int) {
    0 <= i < k < |s| && AllDigits(s[i..k]) && s[k] == '%'
  }

  /** A position inside a run of digits holds a digit. */
  lemma DigitInRun(s: string, i: int, k: int, j: int)
    ensures 0 <= i <= j < k <= |s| && AllDigits(s[i..k]) ==> IsDigit(s[j])
  {
    if 0 <= i <= j < k <= |s| && AllDigits(s[i..k]) {
      assert s[i..k][j - i] == s[j];
    }
  }

  /** At a given start position the token's end is determined. */
  lemma PercentTokenUnique(s: string, i: int, k1: int, k2: int)
    requires PercentTokenAt(s, i, k1) && PercentTokenAt(s, i, k2)
    ensures k1 == k2
  {
    DigitInRun(s, i, k2, k1);
    DigitInRun(s, i, k1, k2);
  }

  /** End of the run of digits starting at `i`. */
  function RunEnd(s: string, i: nat): (e: nat)
    requires i <= |s|
    ensures i <= e <= |s| && AllDigits(s[i..e])
    ensures e < |s| ==> !IsDigit(s[e])
    decreases |s| - i
  {
    if i < |s| && IsDigit(s[i]) then
      var e := RunEnd(s, i + 1);
      assert s[i..e] == [s[i]] + s[i + 1..e];
      e
    else i
  }

  /** No token starts at `i` when the digit run there is not followed by '%'. */
  lemma NoTokenAt(s: string, i: nat, k: int)
    requires i < |s|
    requires !(IsDigit(s[i]) && RunEnd(s, i) < |s| && s[RunEnd(s, i)] == '%')
    ensures !PercentTokenAt(s, i, k)
  {
    var e := RunEnd(s, i);
    DigitInRun(s, i, k, i);
    DigitInRun(s, i, e, k);
    DigitInRun(s, i, k, e);
  }

  /** The leftmost occurrence of /\d+%/ at or after `from`, as (start, index of '%'). */
  function FindPercentToken(s: string, from: nat): (r: Option<(nat, nat)>)
    requires from <= |s|
    ensures r.Some? ==> from <= r.value.0 && PercentTokenAt(s, r.value.0, r.value.1)
    ensures r.Some? ==> forall i, k :: from <= i < r.value.0 ==> !PercentTokenAt(s, i, k)
    ensures r.None? ==> forall i, k :: from <= i ==> !PercentTokenAt(s, i, k)
    decreases |s| - from
  {
    if from == |s| then None
    else if IsDigit(s[from]) && RunEnd(s, from) < |s| && s[RunEnd(s, from)] == '%' then
      Some((from, RunEnd(s, from)))
    else
      var r := FindPercentToken(s, from + 1);
      assert forall k :: !PercentTokenAt(s, from, k) by {
        forall k ensures !PercentTokenAt(s, from, k) { NoTokenAt(s, from, k); }
      }
      r
  }

  /** The column template handed to the grid: the first /\d+%/ token is replaced by
      the split's text followed by '%', when the template contains a '%'. */
  function ResolveColumns(cols: string, splitText: string): (r: string)
    ensures '%' !in cols ==> r == cols
  {
    if '%' in cols then
      match FindPercentToken(cols, 0)
      case None => cols
      case Some((i, k)) => cols[..i] + splitText + "%" + cols[k + 1..]
    else cols
  }

  /** Substitution rewrites exactly the leftmost token. */
  lemma ResolveColumnsLeftmost(cols: string, splitText: string, i: int, k: int)
    requires PercentTokenAt(cols, i, k)
    requires forall i', k' :: 0 <= i' < i ==> !PercentTokenAt(cols, i', k')
    ensures ResolveColumns(cols, splitText) == cols[..i] + splitText + "%" + cols[k + 1..]
  {
    assert cols[k] in cols;
    var r := FindPercentToken(cols, 0);
    var i0, k0 := r.value.0, r.value.1;
    assert i0 == i;
    PercentTokenUnique(cols, i, k, k0);
  }

  /** A template with no token is passed through unchanged, whatever the split. */
  lemma ResolveColumnsNoToken(cols: string, splitText: string)
    requires forall i, k :: !PercentTokenAt(cols, i, k)
    ensures ResolveColumns(cols, splitText) == cols
  {
  }

  /** "35% 1fr" with split 42 becomes "42% 1fr"; a template without '%' is kept. */
  lemma ResolveColumnsExamples()
    ensures ResolveColumns("35% 1fr", "42") == "42% 1fr"
    ensures ResolveColumns("1fr 1fr", "42") == "1fr 1fr"
  {
    var a := "35% 1fr";
    assert RunEnd(a, 0) == 2 by { assert RunEnd(a, 2) == 2; }
  }

  /** Only the first token of "1fr 30% 20%" is replaced. */
  lemma ResolveColumnsFirstTokenOnly()
    ensures ResolveColumns("1fr 30% 20%", "42") == "1fr 42% 20%"
  {
    var c := "1fr 30% 20%";
    assert RunEnd(c, 0) == 1;
    assert RunEnd(c, 4) == 6 by { assert RunEnd(c, 6) == 6; }
    assert FindPercentToken(c, 0) == Some((4, 6)) by {
      assert FindPercentToken(c, 4) == Some((4, 6));
    }
  }

  // ---------------------------------------------------------------------
  // Placement plan
  // ---------------------------------------------------------------------

  datatype Mode = LayoutMode | ContentMode

  datatype Height = Fixed(px: nat) | Auto

  /** What a placed region shows: the editing overlay (its name and padding), a
      content renderer with its effective padding, or nothing for a component
      type outside the closed enumeration. */
  datatype Body = Overlay(name: string, padding: int) | Rendered(component: string, padding: int) | Blank

  datatype Block = Block(id: string, height: Height, body: Body)

  datatype Cell = Cell(id: string, row: Track, col: Track, minHeight: nat, body: Body)

  datatype Plan =
    | Stacked(blocks: seq<Block>)
    | Grid(rows: string, cols: string, cells: seq<Cell>, divider: bool)

  /** What a region shows. In layout view the overlay carries the corrected
      padding (the one the content is drawn with), which differs from the
      source's `padding || 12` exactly for padding 0. In content view a known
      component is rendered with its effective padding and an unknown one shows
      nothing. */
  function RegionBody(r: Region, mode: Mode, compact: bool): (b: Body)
    ensures mode == LayoutMode ==> b.Overlay? && b.name == r.name && b.padding == EffectivePadding(false, r.padding)
    ensures mode == LayoutMode ==> (b.padding == OverlayPaddingAsWritten(r.padding) <==> r.padding != 0)
    ensures mode == ContentMode ==> (b.Rendered? <==> r.component in ComponentTypes) && (b.Blank? <==> r.component !in ComponentTypes)
    ensures b.Rendered? ==> b.component == r.component && b.padding == EffectivePadding(compact, r.padding)
  {
    if mode == LayoutMode then Overlay(r.name, OverlayPadding(r.padding))
    else if r.component in ComponentTypes then Rendered(r.component, EffectivePadding(compact, r.padding))
    else Blank
  }

  /** The first region with the given id (Array.prototype.find). */
  function FindRegion(rs: seq<Region>, id: string): (r: Option<nat>)
    ensures r.Some? ==> r.value < |rs| && rs[r.value].id == id
    ensures r.Some? ==> forall j :: 0 <= j < r.value ==> rs[j].id != id
    ensures r.None? <==> id !in Ids(rs)
  {
    if rs == [] then None
    else if rs[0].id == id then Some(0)
    else match FindRegion(rs[1..], id)
      case None =>
        assert Ids(rs) == [rs[0].id] + Ids(rs[1..]);
        None
      case Some(k) => Some(k + 1)
  }

  /** A stacked block: charts get a fixed 200-unit height, everything else is auto. */
  function BlockFor(r: Region, mode: Mode, compact: bool): (b: Block)
    ensures b.id == r.id && b.body == RegionBody(r, mode, compact)
    ensures b.height == (if r.component == "chart" then Fixed(200) else Auto)
  {
    Block(r.id, if r.component == "chart" then Fixed(200) else Auto, RegionBody(r, mode, compact))
  }

  /** The ids of `order` that name some region, in order. */
  function PresentIds(ids: seq<string>, order: seq<string>): (p: seq<string>)
    ensures |p| <= |order|
  {
    if order == [] then []
    else (if order[0] in ids then [order[0]] else []) + PresentIds(ids, order[1..])
  }

  lemma PresentIdsAll(ids: seq<string>, order: seq<string>)
    requires forall k :: 0 <= k < |order| ==> order[k] in ids
    ensures PresentIds(ids, order) == order
  {
  }

  /** Stack mode walks the stack order, skipping ids that name no region. */
  function StackBlocks(rs: seq<Region>, order: seq<string>, mode: Mode, compact: bool): seq<Block> {
    if order == [] then []
    else
      var rest := StackBlocks(rs, order[1..], mode, compact);
      match FindRegion(rs, order[0])
      case None => rest
      case Some(k) => [BlockFor(rs[k], mode, compact)] + rest
  }

  /** The blocks carry the given ids, one for one. */
  ghost predicate BlocksNamed(bs: seq<Block>, ids: seq<string>) {
    |bs| == |ids| && forall k :: 0 <= k < |bs| ==> bs[k].id == ids[k]
  }

  /** The block is drawn from the first region with its id. */
  ghost predicate BlockFound(rs: seq<Region>, b: Block, mode: Mode, compact: bool) {
    FindRegion(rs, b.id).Some? && b == BlockFor(rs[FindRegion(rs, b.id).value], mode, compact)
  }

  ghost predicate BlocksFound(rs: seq<Region>, bs: seq<Block>, mode: Mode, compact: bool) {
    forall k :: 0 <= k < |bs| ==> BlockFound(rs, bs[k], mode, compact)
  }

  lemma NamedCons(b: Block, rest: seq<Block>, id: string, ids: seq<string>)
    requires BlocksNamed(rest, ids) && b.id == id
    ensures BlocksNamed([b] + rest, [id] + ids)
  {
    var bs, ns := [b] + rest, [id] + ids;
    assert forall j :: 1 <= j < |bs| ==> bs[j] == rest[j - 1] && ns[j] == ids[j - 1];
  }

  lemma FoundCons(rs: seq<Region>, b: Block, rest: seq<Block>, mode: Mode, compact: bool)
    requires BlocksFound(rs, rest, mode, compact) && BlockFound(rs, b, mode, compact)
    ensures BlocksFound(rs, [b] + rest, mode, compact)
  {
    var bs := [b] + rest;
    assert forall j :: 1 <= j < |bs| ==> bs[j] == rest[j - 1];
  }

  /** One block per stack-order id that names a region, in that order. */
  lemma {:induction false} StackBlocksIds(rs: seq<Region>, order: seq<string>, mode: Mode, compact: bool)
    ensures BlocksNamed(StackBlocks(rs, order, mode, compact), PresentIds(Ids(rs), order))
  {
    if order != [] {
      StackBlocksIds(rs, order[1..], mode, compact);
      var rest := StackBlocks(rs, order[1..], mode, compact);
      var tail := PresentIds(Ids(rs), order[1..]);
      match FindRegion(rs, order[0])
      case None =>
        assert PresentIds(Ids(rs), order) == tail;
      case Some(k) =>
        assert order[0] in Ids(rs);
        assert PresentIds(Ids(rs), order) == [order[0]] + tail;
        NamedCons(BlockFor(rs[k], mode, compact), rest, order[0], tail);
    }
  }

  /** Each stacked block is drawn from the first region with its id. */
  lemma {:induction false} StackBlocksFound(rs: seq<Region>, order: seq<string>, mode: Mode, compact: bool)
    ensures BlocksFound(rs, StackBlocks(rs, order, mode, compact), mode, compact)
  {
    if order != [] {
      StackBlocksFound(rs, order[1..], mode, compact);
      var rest := StackBlocks(rs, order[1..], mode, compact);
      match FindRegion(rs, order[0])
      case None =>
      case Some(k) =>
        var b := BlockFor(rs[k], mode, compact);
        assert BlockFound(rs, b, mode, compact);
        FoundCons(rs, b, rest, mode, compact);
    }
  }

  /** For a well-formed layout the stacked blocks follow the stack order exactly. */
  lemma StackFollowsOrder(l: Layout, mode: Mode, compact: bool)
    requires WellFormed(l)
    ensures var bs := StackBlocks(l.regions, l.stackOrder, mode, compact);
      |bs| == |l.stackOrder| && forall k :: 0 <= k < |bs| ==> bs[k].id == l.stackOrder[k]
  {
    StackBlocksIds(l.regions, l.stackOrder, mode, compact);
    forall k | 0 <= k < |l.stackOrder| ensures l.stackOrder[k] in Ids(l.regions) {
      StackOrderCoversRegions(l, l.stackOrder[k]);
    }
    PresentIdsAll(Ids(l.regions), l.stackOrder);
  }

  /** Whether the region's row is an "auto" track of the row template
      (`rows.split(' ')[row - 1] === 'auto'`, using index 0 for a span). */
  function AutoRow(rows: string, row: Track): bool {
    var idx := if row.Line? then row.n - 1 else 0;
    var parts := Split(rows, ' ');
    0 <= idx < |parts| && parts[idx] == "auto"
  }

  /** For a template of space-separated tracks, a line number names an auto row
      exactly when that track is "auto". */
  lemma AutoRowOfTracks(tracks: seq<string>, n: int)
    requires |tracks| >= 1
    requires forall k :: 0 <= k < |tracks| ==> ' ' !in tracks[k]
    ensures AutoRow(Join(tracks, ' '), Line(n)) <==> 1 <= n <= |tracks| && tracks[n - 1] == "auto"
  {
    SplitJoin(tracks, ' ');
  }

  function CellFor(r: Region, rows: string, mode: Mode, compact: bool): Cell {
    Cell(r.id, r.row, r.col, if mode == LayoutMode && AutoRow(rows, r.row) then 60 else 0,
      RegionBody(r, mode, compact))
  }

  /** Grid mode places every region, in order, at its own row and column. */
  function GridCells(rs: seq<Region>, rows: string, mode: Mode, compact: bool): (cs: seq<Cell>)
    ensures |cs| == |rs|
    ensures forall i :: 0 <= i < |rs| ==>
      && cs[i].id == rs[i].id && cs[i].row == rs[i].row && cs[i].col == rs[i].col
      && cs[i].body == RegionBody(rs[i], mode, compact)
      && cs[i].minHeight == (if mode == LayoutMode && AutoRow(rows, rs[i].row) then 60 else 0)
  {
    if rs == [] then [] else [CellFor(rs[0], rows, mode, compact)] + GridCells(rs[1..], rows, mode, compact)
  }

  /** The placement plan for a layout under an aspect ratio, a view mode and the
      column split (given as its decimal text). */
  function Resolve(l: Layout, ratio: string, mode: Mode, splitText: string): (p: Plan)
    requires ratio in RatioIds
    ensures p.Stacked? <==> ratio == "9:16"
    ensures p.Stacked? ==> p.blocks == StackBlocks(l.regions, l.stackOrder, mode, IsCompact(ratio))
    ensures p.Grid? ==> p.rows == l.rows && p.cols == ResolveColumns(l.cols, splitText)
    ensures p.Grid? ==> p.cells == GridCells(l.regions, l.rows, mode, IsCompact(ratio))
    ensures p.Grid? ==> (p.divider <==> '%' in l.cols && mode == ContentMode)
  {
    var compact := IsCompact(ratio);
    if ShouldStack(ratio) then Stacked(StackBlocks(l.regions, l.stackOrder, mode, compact))
    else
      var resizable := '%' in l.cols && !ShouldStack(ratio);
      Grid(l.rows, ResolveColumns(l.cols, splitText), GridCells(l.regions, l.rows, mode, compact),
        resizable && mode == ContentMode)
  }

  /** The menu entry "Two Columns" selects the second preset. */
  lemma FindTwoColumns()
    ensures FindPreset("Two Columns") == Some(TwoColumns)
  {
    assert FindPresetIn(Presets, "Two Columns") == Some(1);
  }

  /** View "Two Columns" at 16:9 in content mode and make the right region a
      table: the left region stays in column 1 as markdown, the right one is in
      column 2 rendering a table, and the column tracks are untouched. */
  lemma TwoColumnsScenario(splitText: string)
    ensures var l := UpdateRegionComponent(TwoColumns, "right", "table");
      var p := Resolve(l, "16:9", ContentMode, splitText);
      && p.Grid? && p.cols == "1fr 1fr" && !p.divider && |p.cells| == 2
      && p.cells[0].id == "left" && p.cells[0].col == Line(1) && p.cells[0].body == Rendered("markdown", 12)
      && p.cells[1].id == "right" && p.cells[1].col == Line(2) && p.cells[1].body == Rendered("table", 8)
  {
    var l0 := TwoColumns;
    var l := UpdateRegionComponent(l0, "right", "table");
    assert l.regions == [l0.regions[0], l0.regions[1].(component := "table")];
    assert l.cols == "1fr 1fr";
    var cs := GridCells(l.regions, l.rows, ContentMode, false);
    assert cs[0].body == Rendered("markdown", 12);
    assert cs[1].body == Rendered("table", 8);
  }
}

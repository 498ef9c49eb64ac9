/** One editing session of the slide layout builder: the state the component
    keeps (layout, aspect ratio, view mode, column split) and the drag
    controller behind the column divider (the `isResizing` flag and the
    document-level mousemove/mouseup listeners a press attaches). */
module LayoutSession {
  import opened Wrappers
  import opened SlideLayout

  class Session {
    var layout: Layout
    var aspect: string
    var mode: Mode
    var colSplit: real
    var isResizing: bool
    /** Number of mousemove/mouseup listener pairs currently attached to the document. */
    var dragListeners: nat

    /** The session invariant: a catalogued ratio, a well-formed layout, a split in
        [20, 80], and the resizing flag raised exactly while listeners are attached. */
    ghost predicate Valid()
      reads this
    {
      && aspect in RatioIds
      && WellFormed(layout)
      && 20.0 <= colSplit <= 80.0
      && (isResizing <==> dragListeners > 0)
    }

    /** The initial state: the first preset (by reference, which is harmless since
        every edit copies), 16:9, layout view, a 35% split, no drag. */
    constructor ()
      ensures Valid()
      ensures layout == Presets[0] && aspect == "16:9" && mode == LayoutMode
      ensures colSplit == 35.0 && !isResizing && dragListeners == 0
    {
      PresetsWellFormed();
      layout := Presets[0];
      aspect := "16:9";
      mode := LayoutMode;
      colSplit := 35.0;
      isResizing := false;
      dragListeners := 0;
    }

    /** What the slide renders, for the split's decimal text. */
    function Plan(splitText: string): Plan
      reads this
      requires Valid()
    {
      Resolve(layout, aspect, mode, splitText)
    }

    /** The divider exists only over a grid whose column template has a '%' and only
        in content view. */
    predicate DividerShown()
      reads this
      requires Valid()
    {
      !ShouldStack(aspect) && '%' in layout.cols && mode == ContentMode
    }

    /** Choosing a preset from the menu: a catalogued name installs that preset and
        resets the split to 35; any other name changes nothing. */
    method SelectPreset(name: string)
      requires Valid()
      modifies this
      ensures Valid()
      ensures FindPreset(name).Some? ==> layout == FindPreset(name).value && colSplit == 35.0
      ensures FindPreset(name).None? ==> layout == old(layout) && colSplit == old(colSplit)
      ensures aspect == old(aspect) && mode == old(mode)
      ensures isResizing == old(isResizing) && dragListeners == old(dragListeners)
    {
      var preset := FindPreset(name);
      if preset.Some? {
        layout := preset.value;
        colSplit := 35.0;
      }
    }

    /** Choosing an aspect ratio from its menu (which offers only catalogued ratios). */
    method SelectAspect(id: string)
      requires Valid() && id in RatioIds
      modifies this
      ensures Valid()
      ensures aspect == id
      ensures layout == old(layout) && mode == old(mode) && colSplit == old(colSplit)
      ensures isResizing == old(isResizing) && dragListeners == old(dragListeners)
    {
      aspect := id;
    }

    method SelectMode(m: Mode)
      requires Valid()
      modifies this
      ensures Valid()
      ensures mode == m
      ensures layout == old(layout) && aspect == old(aspect) && colSplit == old(colSplit)
      ensures isResizing == old(isResizing) && dragListeners == old(dragListeners)
    {
      mode := m;
    }

    /** The overlay's component change: a new layout value replacing the old one. */
    method UpdateRegionComponent(id: string, component: string)
      requires Valid()
      modifies this
      ensures Valid()
      ensures layout == SlideLayout.UpdateRegionComponent(old(layout), id, component)
      ensures aspect == old(aspect) && mode == old(mode) && colSplit == old(colSplit)
      ensures isResizing == old(isResizing) && dragListeners == old(dragListeners)
    {
      UpdatePreservesWellFormed(layout, id, component, 0);
      layout := SlideLayout.UpdateRegionComponent(layout, id, component);
    }

    /** The overlay's padding selector: a new layout value replacing the old one. */
    method UpdateRegionPadding(id: string, padding: int)
      requires Valid()
      modifies this
      ensures Valid()
      ensures layout == SlideLayout.UpdateRegionPadding(old(layout), id, padding)
      ensures aspect == old(aspect) && mode == old(mode) && colSplit == old(colSplit)
      ensures isResizing == old(isResizing) && dragListeners == old(dragListeners)
    {
      UpdatePreservesWellFormed(layout, id, "", padding);
      layout := SlideLayout.UpdateRegionPadding(layout, id, padding);
    }

    /** A press on the divider: resizing starts and one more listener pair is
        attached (a second press before a release attaches a second pair). */
    method MouseDown()
      requires Valid() && DividerShown()
      modifies this
      ensures Valid()
      ensures isResizing && dragListeners == old(dragListeners) + 1
      ensures layout == old(layout) && aspect == old(aspect) && mode == old(mode)
      ensures colSplit == old(colSplit)
    {
      isResizing := true;
      dragListeners := dragListeners + 1;
    }

    /** A pointer move anywhere in the document: while a drag's listeners are
        attached and the container is mounted, the split becomes the clamped
        pointer position; otherwise nothing changes. */
    method MouseMove(clientX: real, left: real, width: real, hasContainer: bool)
      requires Valid() && width > 0.0
      modifies this
      ensures Valid()
      ensures if old(dragListeners) > 0 && hasContainer
        then colSplit == ClampSplit(clientX, left, width).value
        else colSplit == old(colSplit)
      ensures layout == old(layout) && aspect == old(aspect) && mode == old(mode)
      ensures isResizing == old(isResizing) && dragListeners == old(dragListeners)
    {
      if dragListeners > 0 && isResizing && hasContainer {
        colSplit := ClampSplit(clientX, left, width).value;
      }
    }

    /** A pointer release anywhere: every attached mouseup listener runs, clears the
        flag and detaches its own pair, so no listener is left. */
    method MouseUp()
      requires Valid()
      modifies this
      ensures Valid()
      ensures !isResizing && dragListeners == 0
      ensures layout == old(layout) && aspect == old(aspect) && mode == old(mode)
      ensures colSplit == old(colSplit)
    {
      if dragListeners > 0 {
        isResizing := false;
        dragListeners := 0;
      }
    }
  }

  /** Switching from a grid ratio to the stacking one and back restores the very
      same plan: the ratio never touches the layout. */
  method SwitchToStackAndBack(s: Session, splitText: string)
    requires s.Valid() && !ShouldStack(s.aspect)
    modifies s
    ensures s.Valid() && s.Plan(splitText).Grid?
    ensures s.Plan(splitText) == old(s.Plan(splitText))
  {
    var a := s.aspect;
    s.SelectAspect("9:16");
    assert s.Plan(splitText).Stacked?;
    s.SelectAspect(a);
  }
}

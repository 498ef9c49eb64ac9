/** Slide-over panels. Elements of the page are numbered; a panel is found by its
    id, or failing that by its `data-panel` attribute. The state is the active
    panel, the elements carrying the `active` class, whether the overlay carries
    it, and the body's `overflow` style. */
module SlidePanel {
  import opened Wrappers

  /** The page: the element with each id, the first element with each
      `data-panel` value, and whether an overlay element exists. */
  datatype Page = Page(byId: map<string, nat>, byDataPanel: map<string, nat>, hasOverlay: bool)

  datatype PanelState = PanelState(active: Option<nat>, activeClass: set<nat>,
                                   overlayActive: bool, overflow: string)

  /** `getElementById(panelId) || querySelector('[data-panel="…"]')`.
      `getElementById("")` finds nothing, so the empty id is looked up by its
      `data-panel` attribute only. */
  function Resolve(p: Page, panelId: string): (r: Option<nat>)
    ensures panelId != "" && panelId in p.byId ==> r == Some(p.byId[panelId])
    ensures (panelId == "" || panelId !in p.byId) && panelId in p.byDataPanel ==> r == Some(p.byDataPanel[panelId])
    ensures r.None? <==> (panelId == "" || panelId !in p.byId) && panelId !in p.byDataPanel
  {
    if panelId != "" && panelId in p.byId then Some(p.byId[panelId])
    else if panelId in p.byDataPanel then Some(p.byDataPanel[panelId])
    else None
  }

  /** `openPanel`: nothing happens when no element is found. */
  function OpenStep(p: Page, s: PanelState, panelId: string): PanelState {
    match Resolve(p, panelId)
    case None => s
    case Some(panel) =>
      var cleared := if s.active.Some? && s.active.value != panel then s.activeClass - {s.active.value}
                     else s.activeClass;
      PanelState(Some(panel), cleared + {panel}, s.overlayActive || p.hasOverlay, "hidden")
  }

  /** `closePanel`: the body scroll is restored even when no panel is active. */
  function CloseStep(p: Page, s: PanelState): PanelState {
    var cleared := if s.active.Some? then s.activeClass - {s.active.value} else s.activeClass;
    PanelState(None, cleared, s.overlayActive && !p.hasOverlay, "")
  }

  /** The document's keydown handler: Escape closes the active panel, if any. */
  function KeyStep(p: Page, s: PanelState, key: string): PanelState {
    if key == "Escape" && s.active.Some? then CloseStep(p, s) else s
  }

  /** The state the handlers keep: an active panel carries the class, the body
      does not scroll, and the overlay (when there is one) is shown; without an
      overlay element nothing shows one. */
  ghost predicate Consistent(p: Page, s: PanelState) {
    && (s.active.Some? ==> s.active.value in s.activeClass && s.overflow == "hidden"
                           && (p.hasOverlay ==> s.overlayActive))
    && (!p.hasOverlay ==> !s.overlayActive)
  }

  /** Opening a found panel makes it the only change among the active classes
      besides the previous panel's removal, and keeps the rest of the page. */
  lemma OpenFound(p: Page, s: PanelState, panelId: string)
    requires Resolve(p, panelId).Some?
    ensures var panel := Resolve(p, panelId).value;
      var t := OpenStep(p, s, panelId);
      && t.active == Some(panel)
      && panel in t.activeClass
      && t.overflow == "hidden"
      && (p.hasOverlay ==> t.overlayActive)
      && (s.active.Some? && s.active.value != panel ==> s.active.value !in t.activeClass)
      && (forall e :: e != panel && Some(e) != s.active ==> (e in t.activeClass <==> e in s.activeClass))
  {
  }

  /** An id that finds nothing changes nothing. */
  lemma OpenMissing(p: Page, s: PanelState, panelId: string)
    requires (panelId == "" || panelId !in p.byId) && panelId !in p.byDataPanel
    ensures OpenStep(p, s, panelId) == s
  {
  }

  /** Closing leaves no active panel, hides the overlay, restores scrolling, and
      removes only the active panel's class; closing twice is closing once. */
  lemma CloseResets(p: Page, s: PanelState)
    ensures var t := CloseStep(p, s);
      && t.active.None?
      && (p.hasOverlay ==> !t.overlayActive)
      && t.overflow == ""
      && (s.active.Some? ==> s.active.value !in t.activeClass)
      && (forall e :: Some(e) != s.active ==> (e in t.activeClass <==> e in s.activeClass))
    ensures CloseStep(p, CloseStep(p, s)) == CloseStep(p, s)
  {
  }

  /** Opening the same panel twice is opening it once. */
  lemma {:induction false} OpenTwice(p: Page, s: PanelState, panelId: string)
    ensures OpenStep(p, OpenStep(p, s, panelId), panelId) == OpenStep(p, s, panelId)
  {
    match Resolve(p, panelId)
    case None =>
    case Some(panel) =>
      var t := OpenStep(p, s, panelId);
      assert t.active == Some(panel);
      assert t.activeClass + {panel} == t.activeClass;
  }

  /** Every handler keeps the state consistent. */
  lemma StepsKeepConsistent(p: Page, s: PanelState, panelId: string, key: string)
    requires Consistent(p, s)
    ensures Consistent(p, OpenStep(p, s, panelId))
    ensures Consistent(p, CloseStep(p, s))
    ensures Consistent(p, KeyStep(p, s, key))
  {
  }

  /** Starting with no panel marked active, at most one panel ever carries the
      class, and it is the active one. */
  lemma {:induction false} AtMostOneActive(p: Page, s: PanelState, panelId: string)
    requires s.activeClass <= (if s.active.Some? then {s.active.value} else {})
    ensures var t := OpenStep(p, s, panelId);
      t.activeClass <= (if t.active.Some? then {t.active.value} else {})
    ensures var t := CloseStep(p, s); t.activeClass == {}
  {
    match Resolve(p, panelId)
    case None =>
    case Some(panel) =>
      var t := OpenStep(p, s, panelId);
      if s.active.Some? && s.active.value != panel {
        assert s.activeClass - {s.active.value} == {};
      }
      assert t.activeClass <= {panel};
  }

  /** Escape without an active panel leaves even the scroll style alone, unlike
      a direct `closePanel`. */
  lemma EscapeNeedsActivePanel(p: Page, s: PanelState, key: string)
    ensures key != "Escape" ==> KeyStep(p, s, key) == s
    ensures s.active.None? ==> KeyStep(p, s, key) == s
    ensures key == "Escape" && s.active.Some? ==> KeyStep(p, s, key).active.None?
    ensures s.active.None? && s.overflow != "" ==> KeyStep(p, s, key) != CloseStep(p, s)
  {
  }

  /** The module's state: the page, and the mutable attributes the handlers
      change. */
  class PanelPage {
    const page: Page
    var active: Option<nat>
    var activeClass: set<nat>
    var overlayActive: bool
    var overflow: string

    function State(): PanelState
      reads this
    {
      PanelState(active, activeClass, overlayActive, overflow)
    }

    ghost predicate Valid()
      reads this
    {
      Consistent(page, State())
    }

    /** The page as loaded: no active panel (`activePanel = null`). */
    constructor (page: Page, initiallyActive: set<nat>, initialOverflow: string)
      ensures Valid()
      ensures this.page == page
      ensures State() == PanelState(None, initiallyActive, false, initialOverflow)
    {
      this.page := page;
      active := None;
      activeClass := initiallyActive;
      overlayActive := false;
      overflow := initialOverflow;
    }

    /** `openPanel`. */
    method OpenPanel(panelId: string)
      requires Valid()
      modifies this
      ensures Valid()
      ensures State() == OpenStep(page, old(State()), panelId)
    {
      var panel := Resolve(page, panelId);
      if panel.Some? {
        if active.Some? && active != panel {
          activeClass := activeClass - {active.value};
        }
        activeClass := activeClass + {panel.value};
        active := panel;
        if page.hasOverlay {
          overlayActive := true;
        }
        overflow := "hidden";
      }
      StepsKeepConsistent(page, old(State()), panelId, "");
    }

    /** `closePanel`. */
    method ClosePanel()
      requires Valid()
      modifies this
      ensures Valid()
      ensures State() == CloseStep(page, old(State()))
    {
      if active.Some? {
        activeClass := activeClass - {active.value};
        active := None;
      }
      if page.hasOverlay {
        overlayActive := false;
      }
      overflow := "";
    }

    /** The keydown listener. */
    method KeyDown(key: string)
      requires Valid()
      modifies this
      ensures Valid()
      ensures State() == KeyStep(page, old(State()), key)
    {
      if key == "Escape" && active.Some? {
        ClosePanel();
      }
    }

    /** `getActivePanel`: under the handlers' invariant, the returned panel carries
        the active class and the body does not scroll. */
    function GetActivePanel(): (r: Option<nat>)
      requires Valid()
      reads this
      ensures r.Some? ==> r.value in activeClass && overflow == "hidden"
      ensures r.None? <==> active.None?
    {
      active
    }
  }
}

/** Dropdown menus. The dropdowns of a page are numbered in document order; a
    dropdown's menu is open when its number is in the `open` set. A dropdown that
    has both a trigger and a menu is "wired": only its trigger has a click
    handler. */
module Dropdown {
  import opened Wrappers

  /** Where a click lands: outside every dropdown, or inside dropdown `d`,
      possibly on its trigger. */
  datatype Target = Outside | InDropdown(d: nat, onTrigger: bool)

  /** The menus open after one click. A click on a wired trigger stops there
      (it never reaches the document handler): every other menu closes and its
      own menu toggles. A click outside every dropdown closes all menus. Any
      other click changes nothing. */
  function ClickStep(wired: set<nat>, open: set<nat>, t: Target): set<nat> {
    match t
    case Outside => {}
    case InDropdown(d, onTrigger) =>
      if onTrigger && d in wired then (if d in open then {} else {d})
      else open
  }

  /** `openDropdown`: adds the open class when the dropdown has a menu. */
  function Opened(menus: set<nat>, open: set<nat>, d: nat): set<nat> {
    if d in menus then open + {d} else open
  }

  /** `closeDropdown`. */
  function Closed(open: set<nat>, d: nat): set<nat> {
    open - {d}
  }

  /** A wired trigger click leaves at most that dropdown open, and opens it
      exactly when it was closed. */
  lemma TriggerClick(wired: set<nat>, open: set<nat>, d: nat)
    requires d in wired
    ensures ClickStep(wired, open, InDropdown(d, true)) <= {d}
    ensures d in ClickStep(wired, open, InDropdown(d, true)) <==> d !in open
  {
  }

  /** Clicking the same wired trigger twice closes every other menu and returns
      that one to the state it had. */
  lemma {:induction false} TriggerTwice(wired: set<nat>, open: set<nat>, d: nat)
    requires d in wired
    ensures ClickStep(wired, ClickStep(wired, open, InDropdown(d, true)), InDropdown(d, true))
            == (if d in open then {d} else {})
  {
    var once := ClickStep(wired, open, InDropdown(d, true));
    if d in open {
      assert once == {};
    } else {
      assert once == {d};
    }
  }

  /** Outside clicks close everything; clicks inside a dropdown that do not hit
      a wired trigger change nothing. */
  lemma OtherClicks(wired: set<nat>, open: set<nat>, t: Target)
    requires t.Outside? || !t.onTrigger || t.d !in wired
    ensures t.Outside? ==> ClickStep(wired, open, t) == {}
    ensures t.InDropdown? ==> ClickStep(wired, open, t) == open
  {
  }

  /** At most one menu open stays so under every click. */
  lemma ClickKeepsAtMostOne(wired: set<nat>, open: set<nat>, t: Target)
    requires |open| <= 1
    ensures |ClickStep(wired, open, t)| <= 1
  {
  }

  /** Opening then closing a dropdown leaves the others as they were and that one
      closed. */
  lemma OpenThenClose(menus: set<nat>, open: set<nat>, d: nat)
    ensures Closed(Opened(menus, open, d), d) == open - {d}
    ensures d in menus ==> d in Opened(menus, open, d)
    ensures forall e :: e != d ==> (e in Opened(menus, open, d) <==> e in open)
  {
  }

  /** The page: which dropdowns have a menu, which are wired, and which menus are
      open. */
  class DropdownPage {
    const menus: set<nat>
    const wired: set<nat>
    var open: set<nat>

    ghost predicate Valid()
      reads this
    {
      wired <= menus && open <= menus
    }

    /** `initDropdowns` on a page with the given structure; the menus already
        open in the markup stay open. */
    constructor (menus: set<nat>, triggers: set<nat>, initiallyOpen: set<nat>)
      requires initiallyOpen <= menus
      ensures Valid()
      ensures this.menus == menus && wired == menus * triggers
      ensures open == initiallyOpen
    {
      this.menus := menus;
      this.wired := menus * triggers;
      this.open := initiallyOpen;
    }

    /** Removes the open class from every menu except `keep`'s (`keep` outside
        the menus closes them all). */
    method CloseAllBut(keep: Option<nat>)
      modifies this
      ensures open == (if keep.Some? then old(open) * {keep.value} else {})
    {
      var kept := if keep.Some? then open * {keep.value} else {};
      var rest := open;
      while rest != {}
        invariant open == rest + kept
        invariant forall x :: x in kept ==> keep == Some(x)
        decreases rest
      {
        var m :| m in rest;
        if keep != Some(m) {
          assert m !in kept;
          open := open - {m};
        }
        rest := rest - {m};
      }
    }

    /** One click on the page: the trigger handler of a wired dropdown, or the
        document handler. */
    method Click(t: Target)
      requires Valid()
      modifies this
      ensures Valid()
      ensures open == ClickStep(wired, old(open), t)
    {
      match t
      case Outside =>
        CloseAllBut(None);
      case InDropdown(d, onTrigger) =>
        if onTrigger && d in wired {
          var wasOpen := d in open;
          CloseAllBut(Some(d));
          if d in open {
            open := open - {d};
          } else {
            open := open + {d};
          }
          assert wasOpen ==> open == {};
        }
    }

    /** `openDropdown`. */
    method OpenDropdown(d: nat)
      requires Valid()
      modifies this
      ensures Valid()
      ensures open == Opened(menus, old(open), d)
    {
      if d in menus {
        open := open + {d};
      }
    }

    /** `closeDropdown`. */
    method CloseDropdown(d: nat)
      requires Valid()
      modifies this
      ensures Valid()
      ensures open == Closed(old(open), d)
    {
      if d in menus {
        open := open - {d};
      }
    }

    /** `closeAllDropdowns`. */
    method CloseAllDropdowns()
      requires Valid()
      modifies this
      ensures Valid()
      ensures open == {}
    {
      CloseAllBut(None);
    }
  }
}

/** The `menu` object of the engine: its registry, breadcrumb separator and
    parent link, the calls that build it, and the hooks it fires. */
module Menus {
  import opened Storage

  /** `m_parent`: null for a root, otherwise the parent menu. Holding the
      parent as a value makes every ancestor chain finite. */
  datatype Link = Root | ParentIs(menu: Menu)

  /** A menu. `id` stands for the object's identity (`this`); `crumbShown` is
      what its `onBreadCrumb` hook returns (false unless a subclass says
      otherwise); `sep` is `m_sep`. */
  datatype Menu = Menu(id: nat, items: Items, sep: string, crumbShown: bool, parent: Link)

  /** The hook calls the engine makes, plus `Invoked(i)` for the invocation of
      entry `i`'s action. */
  datatype Event =
    | OnStartMenu
    | OnBeforeBreadCrumb
    | OnBreadCrumb(menu: nat)
    | OnBreadCrumbSep(sep: string)
    | OnAfterBreadCrumb
    | DisplayItem(index: nat, text: string)
    | UserInput
    | Invoked(index: nat)
    | OnPause
    | OnExitMenu
    | OnBadInput(badIndex: nat)

  /** A menu as every construction path leaves it: entry 0 exists and is the
      built-in exit. */
  predicate WellFormed(m: Menu)
  {
    |m.items| > 0 && IsExit(m.items[0].action)
  }

  /** `push(text, method, object)`: registers a bound-method item. */
  function PushMethod(m: Menu, text: string, callee: Method, target: nat): (r: Menu)
    ensures |r.items| == |m.items| + 1
    ensures r.items[..|m.items|] == m.items
    ensures r.items[|m.items|] == Entry(text, MethodItem(callee, target))
    ensures r.(items := m.items) == m
  {
    m.(items := Push(m.items, text, MethodItem(callee, target)))
  }

  /** `push(text, callable)`: registers a free-callable item. */
  function PushFunction(m: Menu, text: string, callable: nat): (r: Menu)
    ensures |r.items| == |m.items| + 1
    ensures r.items[..|m.items|] == m.items
    ensures r.items[|m.items|] == Entry(text, FunctionItem(callable))
    ensures r.(items := m.items) == m
  {
    m.(items := Push(m.items, text, FunctionItem(callable)))
  }

  /** `setExitMenuText`: relabels entry 0 when there is one; on an empty
      registry it registers `menuExit` bound to this menu under that text. */
  function SetExitMenuText(m: Menu, exitText: string): (r: Menu)
    ensures |m.items| > 0 ==>
              && |r.items| == |m.items|
              && r.items[0] == Entry(exitText, m.items[0].action)
              && r.items[1..] == m.items[1..]
    ensures |m.items| == 0 ==> r.items == [Entry(exitText, MethodItem(MenuExit, m.id))]
    ensures r.(items := m.items) == m
  {
    if |m.items| > 0 then
      m.(items := m.items[0 := m.items[0].(text := exitText)])
    else
      PushMethod(m, exitText, MenuExit, m.id)
  }

  /** The `menu()` constructor: no parent, an empty separator, and the exit
      entry labelled "Exit". */
  function NewMenu(id: nat): (m: Menu)
    ensures WellFormed(m)
    ensures |m.items| == 1 && m.items[0] == Entry("Exit", MethodItem(MenuExit, id))
    ensures m.id == id && m.parent == Root && m.sep == "" && !m.crumbShown
  {
    SetExitMenuText(Menu(id, [], "", false, Root), "Exit")
  }

  /** `clearMenu` as written: `storage::clear` runs its body only on an empty
      registry, so the menu keeps every entry. */
  function ClearMenuAsWritten(m: Menu): (r: Menu)
    ensures r == m
  {
    m.(items := ClearAsWritten(m.items))
  }

  /** `clearMenu` with the guard of `storage::clear` corrected: the registry,
      the exit entry included, is emptied and nothing else changes. */
  function ClearMenu(m: Menu): (r: Menu)
    ensures |r.items| == 0 && !WellFormed(r)
    ensures r.(items := m.items) == m
  {
    m.(items := Clear(m.items))
  }

  /** `setParent`. */
  function SetParent(m: Menu, parent: Menu): (r: Menu)
    ensures r.parent == ParentIs(parent)
    ensures r.(parent := m.parent) == m
  {
    m.(parent := ParentIs(parent))
  }

  /** `setBreadcrumbSeparator`. */
  function SetBreadcrumbSeparator(m: Menu, sep: string): (r: Menu)
    ensures r.sep == sep
    ensures r.(sep := m.sep) == m
  {
    m.(sep := sep)
  }

  /** Registers the given entries one after the other, as a sequence of
      `push` calls does. */
  function PushAll(m: Menu, entries: seq<Entry>): Menu
    decreases |entries|
  {
    if |entries| == 0 then m
    else
      var e := entries[|entries| - 1];
      var before := PushAll(m, entries[..|entries| - 1]);
      before.(items := Push(before.items, e.text, e.action))
  }

  /** However many items are pushed, the registry only grows at its end:
      every earlier entry, the exit entry at index 0 included, keeps its
      text, action and index. */
  lemma {:induction false} PushAllAppends(m: Menu, entries: seq<Entry>)
    ensures PushAll(m, entries).items == m.items + entries
    ensures PushAll(m, entries).(items := m.items) == m
    ensures WellFormed(m) ==> WellFormed(PushAll(m, entries)) && PushAll(m, entries).items[0] == m.items[0]
    decreases |entries|
  {
    if |entries| > 0 {
      var init := entries[..|entries| - 1];
      PushAllAppends(m, init);
      assert init + [entries[|entries| - 1]] == entries;
    }
  }

  /** `menu::initMenu`: runs the subclass's `onInitMenu`, modelled by the
      entries it registers; the registry grows by exactly those entries. */
  function InitMenu(m: Menu, registered: seq<Entry>): (r: Menu)
    ensures r.items == m.items + registered
    ensures r.(items := m.items) == m
    ensures WellFormed(m) ==> WellFormed(r) && r.items[0] == m.items[0]
  {
    PushAllAppends(m, registered);
    PushAll(m, registered)
  }

  /** A fresh menu's exit entry quits, whatever the outside world answers. */
  lemma NewMenuExitQuits(id: nat, answer: Signal)
    ensures Invoke(NewMenu(id).items[0].action, answer) == Quit
  {
  }
}

/** The breadcrumb protocol: `breadcrumb()` renders the ancestors first, then
    the menu itself, and puts a separator after a parent only when that
    parent's own breadcrumb answered true. */
module Breadcrumbs {
  import opened Menus

  /** What a `breadcrumb()` call fires, and the value it returns. */
  datatype Crumbs = Crumbs(events: seq<Event>, shown: bool)

  /** The root at the top of `m`'s parent chain. */
  function RootOf(m: Menu): (r: Menu)
    ensures r.parent == Root
    decreases m
  {
    match m.parent
    case Root => m
    case ParentIs(p) => RootOf(p)
  }

  predicate IsCrumbEvent(e: Event)
  {
    e.OnBreadCrumb? || e.OnBreadCrumbSep?
  }

  /** `menu::breadcrumb`, recursing through the parent link. */
  function Breadcrumb(m: Menu): (r: Crumbs)
    ensures r.shown == m.crumbShown
    ensures |r.events| > 0
    ensures r.events[0] == OnBreadCrumb(RootOf(m).id)
    ensures r.events[|r.events| - 1] == OnBreadCrumb(m.id)
    ensures forall i :: 0 <= i < |r.events| ==> IsCrumbEvent(r.events[i])
    decreases m
  {
    var before :=
      match m.parent
      case Root => []
      case ParentIs(p) =>
        var up := Breadcrumb(p);
        up.events + (if up.shown then [OnBreadCrumbSep(m.sep)] else []);
    Crumbs(before + [OnBreadCrumb(m.id)], m.crumbShown)
  }

  /** The ancestor chain of `m`, root first and `m` last. */
  function Chain(m: Menu): (c: seq<Menu>)
    ensures |c| > 0 && c[|c| - 1] == m && c[0] == RootOf(m)
    decreases m
  {
    match m.parent
    case Root => [m]
    case ParentIs(p) => Chain(p) + [m]
  }

  /** Each element of a chain has the element before it as its parent. */
  lemma {:induction false} ChainLinks(m: Menu)
    ensures var c := Chain(m);
            c[0].parent == Root &&
            forall i :: 0 < i < |c| ==> c[i].parent == ParentIs(c[i - 1])
    decreases m
  {
    match m.parent
    case Root =>
    case ParentIs(p) => ChainLinks(p);
  }

  /** What the `i`-th menu of a root-first chain contributes to the trail: its
      own `onBreadCrumb`, preceded by its separator exactly when the menu
      before it (its parent) answered true. */
  function Segment(chain: seq<Menu>, i: nat): seq<Event>
    requires i < |chain|
  {
    (if i > 0 && chain[i - 1].crumbShown then [OnBreadCrumbSep(chain[i].sep)] else [])
    + [OnBreadCrumb(chain[i].id)]
  }

  /** The trail of a root-first chain: the segments in order. */
  function Trail(chain: seq<Menu>): seq<Event>
    decreases |chain|
  {
    if |chain| == 0 then [] else Trail(chain[..|chain| - 1]) + Segment(chain, |chain| - 1)
  }

  /** The recursive walk renders exactly the segments of the ancestor chain,
      root first, and answers with the menu's own `onBreadCrumb`. */
  lemma {:induction false} BreadcrumbFollowsChain(m: Menu)
    ensures Breadcrumb(m) == Crumbs(Trail(Chain(m)), m.crumbShown)
    decreases m
  {
    match m.parent
    case Root =>
      assert Chain(m)[..0] == [];
    case ParentIs(p) =>
      BreadcrumbFollowsChain(p);
      var seg := (if p.crumbShown then [OnBreadCrumbSep(m.sep)] else []) + [OnBreadCrumb(m.id)];
      TrailOfChild(m);
      BreadcrumbOfChild(m);
  }

  /** One step of the recursive walk: the parent's part, its separator when
      the parent answered true, then the menu itself. */
  lemma BreadcrumbOfChild(m: Menu)
    requires m.parent.ParentIs?
    ensures var p := m.parent.menu;
            Breadcrumb(m).events
            == Breadcrumb(p).events + (if p.crumbShown then [OnBreadCrumbSep(m.sep)] else []) + [OnBreadCrumb(m.id)]
  {
  }

  /** Extending a chain by one child appends that child's segment. */
  lemma TrailOfChild(m: Menu)
    requires m.parent.ParentIs?
    ensures var p := m.parent.menu;
            Trail(Chain(m))
            == Trail(Chain(p)) + (if p.crumbShown then [OnBreadCrumbSep(m.sep)] else []) + [OnBreadCrumb(m.id)]
  {
    var p := m.parent.menu;
    var c := Chain(m);
    var n := |c|;
    assert c == Chain(p) + [m];
    assert c[..n - 1] == Chain(p);
    assert c[n - 2] == p;
  }

  /** Every ancestor is fully rendered before the menu itself: the parent's
      breadcrumb is a prefix of the child's. */
  lemma ParentRenderedFirst(m: Menu)
    requires m.parent.ParentIs?
    ensures var up := Breadcrumb(m.parent.menu).events;
            var here := Breadcrumb(m).events;
            |up| < |here| && here[..|up|] == up
  {
    BreadcrumbOfChild(m);
  }

  /** Separator placement: the trail has one `onBreadCrumb` per menu and a
      separator before menu `i > 0` exactly when menu `i - 1` answered true.
      When no menu answers true (the default `onBreadCrumb`), the trail holds
      only the menus, root first. */
  lemma {:induction false} TrailWithoutShownCrumbs(chain: seq<Menu>)
    requires forall i :: 0 <= i < |chain| ==> !chain[i].crumbShown
    ensures |Trail(chain)| == |chain|
    ensures forall i :: 0 <= i < |chain| ==> Trail(chain)[i] == OnBreadCrumb(chain[i].id)
    decreases |chain|
  {
    if |chain| > 0 {
      TrailWithoutShownCrumbs(chain[..|chain| - 1]);
    }
  }

  /** When every menu answers true, crumbs and separators alternate: menu `i`
      sits at position `2i`, and its separator right before it. */
  lemma {:induction false} TrailWithShownCrumbs(chain: seq<Menu>)
    requires |chain| > 0
    requires forall i :: 0 <= i < |chain| ==> chain[i].crumbShown
    ensures |Trail(chain)| == 2 * |chain| - 1
    ensures forall i :: 0 <= i < |chain| ==> Trail(chain)[2 * i] == OnBreadCrumb(chain[i].id)
    ensures forall i :: 0 < i < |chain| ==> Trail(chain)[2 * i - 1] == OnBreadCrumbSep(chain[i].sep)
    decreases |chain|
  {
    if |chain| > 1 {
      TrailWithShownCrumbs(chain[..|chain| - 1]);
    } else {
      assert chain[..0] == [];
    }
  }
}

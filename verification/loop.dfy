/** `menu::display`: the per-frame render / read / dispatch loop, driven by a
    finite script of what the outside world supplies on each pass. */
module Loop {
  import opened Storage
  import opened Menus
  import opened Breadcrumbs

  /** What the world supplies for one pass: the index `userInput` returns, the
      signal the selected action answers (ignored for `menuExit` and when no
      entry is selected), and what `onBadInput` answers (ignored when the
      index is in range). */
  datatype Step = Step(input: SizeT, answer: Signal, proceed: bool)

  /** How a pass ends: `break` out of the loop, or reach the
      `while (input != 0)` test with the selection's current value. */
  datatype Control = Break | Test(input: SizeT)

  /** The hooks one pass fires and how it ends. */
  datatype Pass = Pass(events: seq<Event>, control: Control)

  /** A run of the loop over a script: the hooks fired, whether the loop
      ended, and how many passes (script steps) it used. */
  datatype Outcome = Outcome(events: seq<Event>, finished: bool, passes: nat)

  predicate Again(c: Control)
  {
    c.Test? && c.input != 0
  }

  /** `init`: `menuSize() + 1` in `size_t`, computed once when `display()`
      starts and restored after a bad input. */
  function Init(m: Menu): SizeT
  {
    SizeSucc(|m.items|)
  }

  /** A registry small enough that `menuSize() + 1` does not wrap; a
      `std::vector` can never hold SIZE_MAX entries. */
  predicate Fits(m: Menu)
  {
    |m.items| < SIZE_MAX
  }

  /** The range-for over the registry from position `index` on: every entry
      but the one at index 0 is shown, in ascending index order. */
  function ItemLoop(items: Items, index: nat): (lines: seq<Event>)
    requires 0 < |items| && index <= |items|
    ensures var from := if index == 0 then 1 else index;
            && |lines| == |items| - from
            && forall k :: 0 <= k < |lines| ==> lines[k] == DisplayItem(from + k, items[from + k].text)
    decreases |items| - index
  {
    if index == |items| then []
    else (if index != 0 then [DisplayItem(index, items[index].text)] else []) + ItemLoop(items, index + 1)
  }

  /** The item lines of one frame: entries 1 .. size-1 in ascending order,
      then the exit entry 0 last. */
  function ItemLines(items: Items): (lines: seq<Event>)
    requires 0 < |items|
    ensures |lines| == |items|
    ensures forall k :: 0 <= k < |items| - 1 ==> lines[k] == DisplayItem(k + 1, items[k + 1].text)
    ensures lines[|items| - 1] == DisplayItem(0, items[0].text)
  {
    ItemLoop(items, 0) + [DisplayItem(0, items[0].text)]
  }

  /** `onStartMenu`, then `_breadcrumb()`: the before-hook, the breadcrumb
      walk from the root's crumb to this menu's, and the after-hook. */
  function Header(m: Menu): (h: seq<Event>)
    ensures 4 <= |h|
    ensures h[0] == OnStartMenu && h[1] == OnBeforeBreadCrumb && h[|h| - 1] == OnAfterBreadCrumb
    ensures h[2] == OnBreadCrumb(RootOf(m).id) && h[|h| - 2] == OnBreadCrumb(m.id)
  {
    [OnStartMenu, OnBeforeBreadCrumb] + Breadcrumb(m).events + [OnAfterBreadCrumb]
  }

  /** Everything a pass fires before it dispatches. */
  function Prologue(m: Menu): seq<Event>
    requires 0 < |m.items|
  {
    Header(m) + ItemLines(m.items) + [UserInput]
  }

  /** Hooks that only render or read; dispatch never fires one of these. */
  predicate IsRendering(e: Event)
  {
    || e.OnStartMenu? || e.OnBeforeBreadCrumb? || e.OnBreadCrumb? || e.OnBreadCrumbSep?
    || e.OnAfterBreadCrumb? || e.DisplayItem? || e.UserInput?
  }

  /** The dispatch on the selection read in this pass. In range: invoke that
      entry's action once; `quit_` fires `onExitMenu` and forces the selection
      to 0, `pause_` fires `onPause`, and `return_` fires nothing, the loop
      then going on while the selection is non-zero. Out of range: hand the
      index to `onBadInput`; on false fire `onExitMenu` and break, on true
      fire `onPause` and reset the selection to `init`. */
  function Dispatch(items: Items, step: Step, init: SizeT): (p: Pass)
    ensures Again(p.control) <==>
              if step.input < |items| then
                step.input != 0 && Invoke(items[step.input].action, step.answer) != Quit
              else
                step.proceed && init != 0
    ensures step.input >= |items| && step.proceed ==> p.control == Test(init)
    ensures step.input < |items| && Invoke(items[step.input].action, step.answer) == Quit ==> p.control == Test(0)
    ensures forall i :: 0 <= i < |p.events| ==> !IsRendering(p.events[i])
  {
    var input := step.input;
    if input < |items| then
      match Invoke(items[input].action, step.answer)
      case Quit => Pass([Invoked(input), OnExitMenu], Test(0))
      case Pause => Pass([Invoked(input), OnPause], Test(input))
      case Return => Pass([Invoked(input)], Test(input))
    else if !step.proceed then
      Pass([OnBadInput(input), OnExitMenu], Break)
    else
      Pass([OnBadInput(input), OnPause], Test(init))
  }

  /** One pass of the do-while body: it opens with `onStartMenu`, the input
      is read right before the dispatch, and the pass ends as its dispatch
      does. */
  function Frame(m: Menu, step: Step, init: SizeT): (p: Pass)
    requires 0 < |m.items|
    ensures var d := Dispatch(m.items, step, init);
            && |d.events| < |p.events|
            && p.events[0] == OnStartMenu
            && p.events[|p.events| - |d.events| - 1] == UserInput
            && p.control == d.control
  {
    var d := Dispatch(m.items, step, init);
    Pass(Prologue(m) + d.events, d.control)
  }

  /** Whether the loop goes round again after a pass on `step`. */
  predicate Continues(m: Menu, step: Step)
    requires 0 < |m.items|
  {
    Again(Frame(m, step, Init(m)).control)
  }

  /** The loop over a finite script, one step per pass. The real loop need
      not end, so the script length is the fuel: when the script runs out
      first the outcome is unfinished. */
  function Run(m: Menu, script: seq<Step>): (o: Outcome)
    requires 0 < |m.items|
    ensures o.passes <= |script|
    ensures o.finished ==> 0 < o.passes
    ensures !o.finished ==> o.passes == |script|
    decreases |script|
  {
    if |script| == 0 then Outcome([], false, 0)
    else
      var f := Frame(m, script[0], Init(m));
      if !Again(f.control) then Outcome(f.events, true, 1)
      else
        var rest := Run(m, script[1..]);
        Outcome(f.events + rest.events, rest.finished, rest.passes + 1)
  }

  /** The loop ends at the first pass that does not go round again, and
      nowhere else: every pass before the last one continues, and the last
      one stops exactly when the run finished. */
  lemma {:induction false} RunEndsAtFirstStop(m: Menu, script: seq<Step>)
    requires 0 < |m.items|
    ensures var o := Run(m, script);
            forall k :: 0 <= k < o.passes ==> (Continues(m, script[k]) <==> !(o.finished && k == o.passes - 1))
    decreases |script|
  {
    if 0 < |script| && Continues(m, script[0]) {
      RunEndsAtFirstStop(m, script[1..]);
      assert forall k :: 0 < k < |script| ==> script[1..][k - 1] == script[k];
    }
  }

  /** The outcome of a run that first fired `events` over `k` passes and then
      carried on as `o`. */
  function Resume(events: seq<Event>, k: nat, o: Outcome): Outcome
  {
    Outcome(events + o.events, o.finished, k + o.passes)
  }

  /** `display()` in its own shape: a do-while over the passes that leaves on
      `break` or when the selection is 0 at the loop test. */
  method Display(m: Menu, script: seq<Step>) returns (o: Outcome)
    requires 0 < |m.items|
    ensures o == Run(m, script)
  {
    var init := Init(m);
    var events: seq<Event> := [];
    var k := 0;
    while k < |script|
      invariant k <= |script|
      invariant Run(m, script) == Resume(events, k, Run(m, script[k..]))
      decreases |script| - k
    {
      var f := Frame(m, script[k], init);
      DisplayPass(m, script, events, k);
      events := events + f.events;
      k := k + 1;
      match f.control
      case Break =>
        return Outcome(events, true, k);
      case Test(input) =>
        if input == 0 {
          return Outcome(events, true, k);
        }
    }
    assert script[k..] == [];
    o := Outcome(events, false, k);
  }

  /** One pass of `display()` keeps the run's outcome in reach: it either
      ends the run with the pass's events added, or resumes after them. */
  lemma DisplayPass(m: Menu, script: seq<Step>, events: seq<Event>, k: nat)
    requires 0 < |m.items| && k < |script|
    requires Run(m, script) == Resume(events, k, Run(m, script[k..]))
    ensures var f := Frame(m, script[k], Init(m));
            if Again(f.control) then Run(m, script) == Resume(events + f.events, k + 1, Run(m, script[k + 1..]))
            else Run(m, script) == Outcome(events + f.events, true, k + 1)
  {
    RunUnfolds(m, script, k);
    ResumeTwice(events, k, Frame(m, script[k], Init(m)).events, Run(m, script[k + 1..]));
  }

  /** Resuming twice is resuming once with the events joined. */
  lemma ResumeTwice(events: seq<Event>, k: nat, more: seq<Event>, o: Outcome)
    ensures Resume(events, k, Resume(more, 1, o)) == Resume(events + more, k + 1, o)
    ensures Resume(events, k, Outcome(more, true, 1)) == Outcome(events + more, true, k + 1)
  {
    assert events + (more + o.events) == (events + more) + o.events;
  }

  /** One unfolding of the run from step `k` on. */
  lemma RunUnfolds(m: Menu, script: seq<Step>, k: nat)
    requires 0 < |m.items| && k < |script|
    ensures var f := Frame(m, script[k], Init(m));
            Run(m, script[k..])
            == if Again(f.control) then Resume(f.events, 1, Run(m, script[k + 1..]))
               else Outcome(f.events, true, 1)
  {
    assert script[k..][0] == script[k];
    assert script[k..][1..] == script[k + 1..];
  }

  /** Frame layout: `onStartMenu`, the before-hook, the breadcrumb trail of
      the ancestor chain (root first), the after-hook, the `size()` item
      lines in display order, the input read, then the dispatch. */
  lemma FrameLayout(m: Menu, step: Step, init: SizeT)
    requires 0 < |m.items|
    ensures Frame(m, step, init).events
            == [OnStartMenu, OnBeforeBreadCrumb] + Trail(Chain(m)) + [OnAfterBreadCrumb]
               + ItemLines(m.items) + [UserInput] + Dispatch(m.items, step, init).events
  {
    BreadcrumbFollowsChain(m);
  }

  /** Every event before the dispatch renders or reads. */
  lemma PrologueRenders(m: Menu)
    requires 0 < |m.items|
    ensures forall i :: 0 <= i < |Prologue(m)| ==> IsRendering(Prologue(m)[i])
  {
    var crumbs := Breadcrumb(m).events;
    var lines := ItemLines(m.items);
    var pro := Prologue(m);
    assert pro == [OnStartMenu, OnBeforeBreadCrumb] + crumbs + [OnAfterBreadCrumb] + lines + [UserInput];
    forall i | 0 <= i < |pro|
      ensures IsRendering(pro[i])
    {
      if 2 <= i < 2 + |crumbs| {
        assert pro[i] == crumbs[i - 2];
      } else if 3 + |crumbs| <= i < 3 + |crumbs| + |lines| {
        assert pro[i] == lines[i - 3 - |crumbs|];
      }
    }
  }

  /** The hooks the dispatch of one selection fires, counted. */
  lemma DispatchHooks(items: Items, step: Step, init: SizeT)
    ensures var ev := multiset(Dispatch(items, step, init).events);
            var i := step.input;
            var inRange := i < |items|;
            var s := if inRange then Invoke(items[i].action, step.answer) else Quit;
            && (forall j :: ev[Invoked(j)] == if inRange && j == i then 1 else 0)
            && (forall j :: ev[OnBadInput(j)] == if !inRange && j == i then 1 else 0)
            && ev[OnPause] == (if (inRange && s == Pause) || (!inRange && step.proceed) then 1 else 0)
            && ev[OnExitMenu] == (if (inRange && s == Quit) || (!inRange && !step.proceed) then 1 else 0)
  {
  }

  /** Hooks counted over any rendering prefix followed by a dispatch. */
  lemma HooksAfterRendering(items: Items, pro: seq<Event>, step: Step, init: SizeT)
    requires forall i :: 0 <= i < |pro| ==> IsRendering(pro[i])
    ensures var ev := multiset(pro + Dispatch(items, step, init).events);
            var i := step.input;
            var inRange := i < |items|;
            var s := if inRange then Invoke(items[i].action, step.answer) else Quit;
            && (forall j :: ev[Invoked(j)] == if inRange && j == i then 1 else 0)
            && (forall j :: ev[OnBadInput(j)] == if !inRange && j == i then 1 else 0)
            && ev[OnPause] == (if (inRange && s == Pause) || (!inRange && step.proceed) then 1 else 0)
            && ev[OnExitMenu] == (if (inRange && s == Quit) || (!inRange && !step.proceed) then 1 else 0)
  {
    var d := Dispatch(items, step, init).events;
    DispatchHooks(items, step, init);
    forall e | !IsRendering(e)
      ensures multiset(pro + d)[e] == multiset(d)[e]
    {
      CountPastPrologue(pro, d, e);
    }
  }

  /** A hook that does not render occurs past the prologue only. */
  lemma CountPastPrologue(pro: seq<Event>, d: seq<Event>, e: Event)
    requires forall i :: 0 <= i < |pro| ==> IsRendering(pro[i])
    requires !IsRendering(e)
    ensures multiset(pro + d)[e] == multiset(d)[e]
  {
    assert e !in pro;
  }

  /** Exactly which hooks a pass fires: the action of an in-range selection
      is invoked exactly once and nothing else is; an out-of-range index goes
      to `onBadInput` exactly once, that exact value, and invokes nothing;
      `onPause` and `onExitMenu` fire at most once and only on the branches
      that call them. */
  lemma FrameHooks(m: Menu, step: Step, init: SizeT)
    requires 0 < |m.items|
    ensures var ev := multiset(Frame(m, step, init).events);
            var i := step.input;
            var inRange := i < |m.items|;
            var s := if inRange then Invoke(m.items[i].action, step.answer) else Quit;
            && (forall j :: ev[Invoked(j)] == if inRange && j == i then 1 else 0)
            && (forall j :: ev[OnBadInput(j)] == if !inRange && j == i then 1 else 0)
            && ev[OnPause] == (if (inRange && s == Pause) || (!inRange && step.proceed) then 1 else 0)
            && ev[OnExitMenu] == (if (inRange && s == Quit) || (!inRange && !step.proceed) then 1 else 0)
  {
    PrologueRenders(m);
    HooksAfterRendering(m.items, Prologue(m), step, init);
  }

  /** Choosing 0 on a well-formed menu invokes `menuExit`, fires
      `onExitMenu`, and ends the loop. */
  lemma SelectingZeroExits(m: Menu, step: Step)
    requires WellFormed(m) && step.input == 0
    ensures !Continues(m, step)
    ensures Dispatch(m.items, step, Init(m)) == Pass([Invoked(0), OnExitMenu], Test(0))
  {
  }

  /** On a well-formed menu a pass fires `onExitMenu` exactly when it ends
      the loop, and then exactly once. */
  lemma FrameExitsIffStops(m: Menu, step: Step)
    requires WellFormed(m) && Fits(m)
    ensures multiset(Frame(m, step, Init(m)).events)[OnExitMenu] == if Continues(m, step) then 0 else 1
  {
    FrameHooks(m, step, Init(m));
  }

  /** Over a whole run on a well-formed menu, `onExitMenu` fires once if the
      loop ended and never if the script ran out first. */
  lemma {:induction false} ExitHookOnce(m: Menu, script: seq<Step>)
    requires WellFormed(m) && Fits(m)
    ensures multiset(Run(m, script).events)[OnExitMenu] == if Run(m, script).finished then 1 else 0
    decreases |script|
  {
    if |script| > 0 {
      FrameExitsIffStops(m, script[0]);
      if Continues(m, script[0]) {
        ExitHookOnce(m, script[1..]);
      }
    }
  }

  /** A bad input the `onBadInput` hook lets pass never ends the loop: the
      selection is reset to `init`, which is non-zero. */
  lemma BadInputContinues(m: Menu, step: Step)
    requires 0 < |m.items| && Fits(m)
    requires step.input >= |m.items| && step.proceed
    ensures Continues(m, step)
    ensures Frame(m, step, Init(m)).control == Test(|m.items| + 1)
  {
  }

  /** No action is invoked anywhere in `events`. */
  ghost predicate NoInvocation(events: seq<Event>)
  {
    forall j :: multiset(events)[Invoked(j)] == 0
  }

  /** Every selection of the script is out of range for `m`. */
  predicate AllOutOfRange(m: Menu, script: seq<Step>)
  {
    forall k :: 0 <= k < |script| ==> |m.items| <= script[k].input
  }

  /** A pass whose selection is out of range invokes no action. */
  lemma FrameOutOfRangeInvokesNothing(m: Menu, step: Step)
    requires 0 < |m.items| <= step.input
    ensures NoInvocation(Frame(m, step, Init(m)).events)
  {
    FrameHooks(m, step, Init(m));
  }

  /** No action invoked in either part means none in the whole. */
  lemma NoInvocationJoin(a: seq<Event>, b: seq<Event>)
    requires NoInvocation(a) && NoInvocation(b)
    ensures NoInvocation(a + b)
  {
    assert multiset(a + b) == multiset(a) + multiset(b);
  }

  /** The events of a run: the first pass's, then, if it went round again,
      those of the run on the rest of the script. */
  lemma RunEventsSplit(m: Menu, script: seq<Step>)
    requires 0 < |m.items| && 0 < |script|
    ensures var f := Frame(m, script[0], Init(m));
            Run(m, script).events == f.events + (if Again(f.control) then Run(m, script[1..]).events else [])
  {
  }

  lemma OutOfRangeTail(m: Menu, script: seq<Step>)
    requires 0 < |script| && AllOutOfRange(m, script)
    ensures AllOutOfRange(m, script[1..])
  {
    assert forall k :: 0 <= k < |script| - 1 ==> script[1..][k] == script[k + 1];
  }

  /** A run in which every selection is out of range invokes no action. */
  lemma {:induction false} NothingInvokedOutOfRange(m: Menu, script: seq<Step>)
    requires 0 < |m.items|
    requires AllOutOfRange(m, script)
    ensures NoInvocation(Run(m, script).events)
    decreases |script|
  {
    if 0 < |script| {
      FrameOutOfRangeInvokesNothing(m, script[0]);
      RunEventsSplit(m, script);
      if Again(Frame(m, script[0], Init(m)).control) {
        OutOfRangeTail(m, script);
        NothingInvokedOutOfRange(m, script[1..]);
        NoInvocationJoin(Frame(m, script[0], Init(m)).events, Run(m, script[1..]).events);
      } else {
        assert Frame(m, script[0], Init(m)).events + [] == Frame(m, script[0], Init(m)).events;
      }
    }
  }

  /** When every pass goes round again, the run never ends: it uses up the
      whole script. */
  lemma {:induction false} AllContinueNeverFinishes(m: Menu, script: seq<Step>)
    requires 0 < |m.items|
    requires forall k :: 0 <= k < |script| ==> Continues(m, script[k])
    ensures !Run(m, script).finished && Run(m, script).passes == |script|
    decreases |script|
  {
    if 0 < |script| {
      RunUnfolds(m, script, 0);
      assert script[0..] == script;
      var rest := script[1..];
      assert forall k :: 0 <= k < |rest| ==> rest[k] == script[k + 1];
      AllContinueNeverFinishes(m, rest);
    }
  }
}

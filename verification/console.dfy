/** The console adapter (`console::menu`): its prompt texts and index width,
    `initMenu`, the text each hook writes, how it reads a selection, and its
    answer to bad input. */
module Console {
  import opened Storage
  import opened Menus
  import opened Breadcrumbs
  import opened Loop
  import opened Decimal

  /** `prompt`: which of the four configurable texts `setText` changes. */
  datatype Prompt = PausePrompt | ChoicePrompt | InvalidPrompt | LocationPrompt

  /** The console's own state: `m_width` and the four prompt texts. */
  datatype Config = Config(width: nat, pause: string, choice: string, invalid: string, location: string)

  /** A console menu: the engine's menu together with the console state. */
  datatype ConsoleMenu = ConsoleMenu(base: Menu, config: Config)

  /** The text a prompt selector names. */
  function Text(c: Config, where: Prompt): string
  {
    match where
    case PausePrompt => c.pause
    case ChoicePrompt => c.choice
    case InvalidPrompt => c.invalid
    case LocationPrompt => c.location
  }

  /** The `console::menu()` constructor: the base menu with its exit entry,
      width 2 and the default prompts. */
  function NewConsoleMenu(id: nat): (cm: ConsoleMenu)
    ensures cm.base == NewMenu(id)
    ensures cm.config.width == 2
    ensures Text(cm.config, ChoicePrompt) == "choice: "
    ensures Text(cm.config, PausePrompt) == "press any key to continue..."
    ensures Text(cm.config, InvalidPrompt) == "invalid input!"
    ensures Text(cm.config, LocationPrompt) == "Location: "
  {
    ConsoleMenu(NewMenu(id), Config(2, "press any key to continue...", "choice: ", "invalid input!", "Location: "))
  }

  /** `setText`: changes the one text `where` selects and nothing else. */
  function SetText(c: Config, where: Prompt, s: string): (r: Config)
    ensures r.width == c.width
    ensures forall p :: Text(r, p) == if p == where then s else Text(c, p)
  {
    match where
    case PausePrompt => c.(pause := s)
    case ChoicePrompt => c.(choice := s)
    case InvalidPrompt => c.(invalid := s)
    case LocationPrompt => c.(location := s)
  }

  /** Setting the same text twice keeps only the last value. */
  lemma SetTextLastWins(c: Config, where: Prompt, s: string, t: string)
    ensures SetText(SetText(c, where, s), where, t) == SetText(c, where, t)
  {
  }

  /** Setting two different texts gives the same state in either order. */
  lemma SetTextCommutes(c: Config, p: Prompt, q: Prompt, s: string, t: string)
    requires p != q
    ensures SetText(SetText(c, p, s), q, t) == SetText(SetText(c, q, t), p, s)
  {
  }

  /** `onUserInputPrompt`: the choice prompt setter. */
  function OnUserInputPrompt(c: Config, prompt: string): (r: Config)
    ensures r == SetText(c, ChoicePrompt, prompt)
  {
    c.(choice := prompt)
  }

  /** `onPausePrompt`: the pause prompt setter. */
  function OnPausePrompt(c: Config, prompt: string): (r: Config)
    ensures r == SetText(c, PausePrompt, prompt)
  {
    c.(pause := prompt)
  }

  /** `onBadInputPrompt`: the invalid-input text setter. */
  function OnBadInputPrompt(c: Config, prompt: string): (r: Config)
    ensures r == SetText(c, InvalidPrompt, prompt)
  {
    c.(invalid := prompt)
  }

  /** The number of characters `menuSize() + 1` takes in decimal. */
  function SizeDigits(m: Menu): nat
  {
    |ToDecimal(SizeSucc(|m.items|))|
  }

  /** `console::menu::initMenu`: runs `onInitMenu` (the entries it
      registers), then widens the index column to the larger of the old
      width and the digits of `menuSize() + 1`, and sets the breadcrumb
      separator to " >> ". */
  function InitMenu(cm: ConsoleMenu, registered: seq<Entry>): (r: ConsoleMenu)
    ensures r.base == SetBreadcrumbSeparator(Menus.InitMenu(cm.base, registered), " >> ")
    ensures r.base.items == cm.base.items + registered
    ensures r.config.(width := cm.config.width) == cm.config
    ensures cm.config.width <= r.config.width
    ensures SizeDigits(r.base) <= r.config.width
    ensures r.config.width == cm.config.width || r.config.width == SizeDigits(r.base)
  {
    var grown := Menus.InitMenu(cm.base, registered);
    var digits := SizeDigits(grown);
    var width := if cm.config.width < digits then digits else cm.config.width;
    ConsoleMenu(SetBreadcrumbSeparator(grown, " >> "), cm.config.(width := width))
  }

  /** Running `initMenu` again with an `onInitMenu` that registers nothing
      changes nothing. */
  lemma InitMenuIdempotent(cm: ConsoleMenu, registered: seq<Entry>)
    ensures InitMenu(InitMenu(cm, registered), []) == InitMenu(cm, registered)
  {
  }

  function Spaces(n: nat): (r: string)
    ensures |r| == n && forall k :: 0 <= k < n ==> r[k] == ' '
  {
    seq(n, _ => ' ')
  }

  /** `std::setw(w)` on a number: right-aligned in at least `w` characters,
      padded with spaces, never truncated. */
  function PadLeft(s: string, w: nat): (r: string)
    ensures |r| == if |s| < w then w else |s|
    ensures r[|r| - |s|..] == s
    ensures forall k :: 0 <= k < |r| - |s| ==> r[k] == ' '
  {
    if |s| < w then Spaces(w - |s|) + s else s
  }

  /** `displayItem`: the index padded to the width, ". ", the label, and the
      newline `std::endl` writes. */
  function ItemLine(c: Config, index: nat, text: string): (line: string)
    ensures 3 + |text| <= |line| && line[|line| - 1] == '\n'
    ensures line[|line| - 3 - |text|..|line| - 1] == ". " + text
  {
    PadLeft(ToDecimal(index), c.width) + ". " + text + "\n"
  }

  /** An item line read back: the index and the label, or nothing. */
  datatype ParsedLine = Unparsed | ItemAt(index: nat, text: string)

  function SkipSpaces(s: string): string
    decreases |s|
  {
    if 0 < |s| && s[0] == ' ' then SkipSpaces(s[1..]) else s
  }

  /** The length of the run of digits `s` starts with. */
  function DigitRun(s: string): (k: nat)
    ensures k <= |s| && AllDigits(s[..k])
    ensures k < |s| ==> !IsDigit(s[k])
    decreases |s|
  {
    if 0 < |s| && IsDigit(s[0]) then 1 + DigitRun(s[1..]) else 0
  }

  /** Reads an item line: leading spaces, the index digits, ". ", the label
      up to the final newline. */
  function ParseItemLine(line: string): ParsedLine
  {
    ParseIndexed(SkipSpaces(line))
  }

  /** Reads what follows the leading spaces of an item line. */
  function ParseIndexed(t: string): ParsedLine
  {
    var k := DigitRun(t);
    if k == 0 || |t| < k + 3 || t[k..k + 2] != ". " || t[|t| - 1] != '\n' then Unparsed
    else ItemAt(ParseDecimal(t[..k]), t[k + 2..|t| - 1])
  }

  lemma {:induction false} SkipSpacesPast(n: nat, rest: string)
    requires 0 < |rest| && rest[0] != ' '
    ensures SkipSpaces(Spaces(n) + rest) == rest
    decreases n
  {
    if n > 0 {
      assert (Spaces(n) + rest)[1..] == Spaces(n - 1) + rest;
      SkipSpacesPast(n - 1, rest);
    }
  }

  lemma {:induction false} DigitRunPast(d: string, rest: string)
    requires AllDigits(d)
    requires 0 < |rest| && !IsDigit(rest[0])
    ensures DigitRun(d + rest) == |d|
    decreases |d|
  {
    if 0 < |d| {
      assert (d + rest)[1..] == d[1..] + rest;
      DigitRunPast(d[1..], rest);
    }
  }

  /** When the digit run is followed by ". " and the text ends in a newline,
      the parse takes the digits and the label between. */
  lemma ParseIndexedAccepts(t: string, k: nat)
    requires DigitRun(t) == k && 0 < k && k + 3 <= |t|
    requires t[k..k + 2] == ". " && t[|t| - 1] == '\n'
    ensures ParseIndexed(t) == ItemAt(ParseDecimal(t[..k]), t[k + 2..|t| - 1])
  {
  }

  /** Where the digits, the ". " and the label sit in an unpadded line. */
  lemma IndexedLineSlices(d: string, text: string)
    ensures var t := d + (". " + text + "\n");
            && |d| + 3 <= |t|
            && t[..|d|] == d
            && t[|d|..|d| + 2] == ". "
            && t[|t| - 1] == '\n'
            && t[|d| + 2..|t| - 1] == text
  {
    var t := d + (". " + text + "\n");
    assert t[|d|] == '.' && t[|d| + 1] == ' ';
  }

  /** Digits followed by ". ", a label and a newline read back as the
      digits' value and the label. */
  lemma ParseIndexedLine(d: string, text: string)
    requires 0 < |d| && AllDigits(d)
    ensures ParseIndexed(d + (". " + text + "\n")) == ItemAt(ParseDecimal(d), text)
  {
    IndexedLineSlices(d, text);
    DigitRunPast(d, ". " + text + "\n");
    ParseIndexedAccepts(d + (". " + text + "\n"), |d|);
  }

  /** Padding in front changes nothing of what is read. */
  lemma ParsePaddedLine(pad: nat, d: string, text: string)
    requires 0 < |d| && AllDigits(d)
    ensures ParseItemLine(Spaces(pad) + (d + (". " + text + "\n"))) == ItemAt(ParseDecimal(d), text)
  {
    SkipSpacesPast(pad, d + (". " + text + "\n"));
    ParseIndexedLine(d, text);
  }

  /** An item line is its padding followed by the digits, ". ", the label
      and the newline. */
  lemma ItemLineShape(c: Config, index: nat, text: string)
    ensures var d := ToDecimal(index);
            ItemLine(c, index, text) == Spaces(if |d| < c.width then c.width - |d| else 0) + (d + (". " + text + "\n"))
  {
  }

  /** Every item line reads back as the index and label it was made from:
      the padding only adds spaces and a wide index is written in full. */
  lemma ItemLineRoundTrip(c: Config, index: nat, text: string)
    ensures ParseItemLine(ItemLine(c, index, text)) == ItemAt(index, text)
  {
    var d := ToDecimal(index);
    ItemLineShape(c, index, text);
    ParsePaddedLine(if |d| < c.width then c.width - |d| else 0, d, text);
    DecimalRoundTrip(index);
  }

  /** An index that fits the width puts the ". " right after column `width`. */
  lemma ItemLineColumns(c: Config, index: nat, text: string)
    requires |ToDecimal(index)| <= c.width
    ensures |PadLeft(ToDecimal(index), c.width)| == c.width
    ensures ItemLine(c, index, text)[c.width..c.width + 2] == ". "
  {
    var p := PadLeft(ToDecimal(index), c.width);
    assert |p| == c.width;
    assert ItemLine(c, index, text) == p + ". " + text + "\n";
    SeparatorAfter(p, text);
  }

  /** Whatever comes first, ". " follows it directly. */
  lemma SeparatorAfter(p: string, text: string)
    ensures (p + ". " + text + "\n")[|p|..|p| + 2] == ". "
  {
    var line := p + ". " + text + "\n";
    assert line[|p|] == '.' && line[|p| + 1] == ' ';
  }

  /** After `initMenu`, every index of the menu is written in exactly the
      configured width, so the ". " of all item lines lines up. */
  lemma InitMenuAlignsItems(cm: ConsoleMenu, registered: seq<Entry>, index: nat, text: string)
    requires |cm.base.items| + |registered| < SIZE_MAX
    requires index < |cm.base.items| + |registered|
    ensures var c := InitMenu(cm, registered).config;
            |PadLeft(ToDecimal(index), c.width)| == c.width
            && ItemLine(c, index, text)[c.width..c.width + 2] == ". "
  {
    var r := InitMenu(cm, registered);
    var size := |r.base.items|;
    assert SizeSucc(size) == size + 1;
    DecimalLengthMonotone(index, size + 1);
    ItemLineColumns(r.config, index, text);
  }

  /** What the console writes for each hook. `onBeforeBreadCrumb` writes the
      literal "Location: ", not the configurable location text; the default
      `onBreadCrumb` writes nothing. */
  function Render(c: Config, e: Event): string
  {
    match e
    case OnStartMenu => ""
    case OnBeforeBreadCrumb => "Location: "
    case OnBreadCrumb(_) => ""
    case OnBreadCrumbSep(s) => s
    case OnAfterBreadCrumb => "\n\n"
    case DisplayItem(i, t) => ItemLine(c, i, t)
    case UserInput => c.choice
    case Invoked(_) => ""
    case OnPause => c.pause
    case OnExitMenu => ""
    case OnBadInput(_) => c.invalid + "\n"
  }

  /** What each hook writes on the console: an item line that reads back as
      its index and label; the literal "Location: " and the blank line
      around the breadcrumb; the separator as given; the choice and pause
      prompts as configured; the invalid-input text and a newline; nothing
      for the hooks the console leaves at their defaults. */
  lemma HookText(c: Config, e: Event)
    ensures e.DisplayItem? ==> ParseItemLine(Render(c, e)) == ItemAt(e.index, e.text)
    ensures e.OnBeforeBreadCrumb? ==> Render(c, e) == "Location: "
    ensures e.OnAfterBreadCrumb? ==> Render(c, e) == "\n\n"
    ensures e.OnBreadCrumbSep? ==> Render(c, e) == e.sep
    ensures e.UserInput? ==> Render(c, e) == Text(c, ChoicePrompt)
    ensures e.OnPause? ==> Render(c, e) == Text(c, PausePrompt)
    ensures e.OnBadInput? ==> Render(c, e) == Text(c, InvalidPrompt) + "\n"
    ensures e.OnStartMenu? || e.OnBreadCrumb? || e.Invoked? || e.OnExitMenu? ==> Render(c, e) == ""
  {
    if e.DisplayItem? {
      ItemLineRoundTrip(c, e.index, e.text);
    }
  }

  /** The console text of a trace of hooks. */
  function Output(c: Config, events: seq<Event>): string
    decreases |events|
  {
    if |events| == 0 then "" else Output(c, events[..|events| - 1]) + Render(c, events[|events| - 1])
  }

  /** The location text is stored but never written: changing it leaves the
      console output of every trace unchanged. */
  lemma {:induction false} LocationTextUnused(c: Config, s: string, events: seq<Event>)
    ensures Output(SetText(c, LocationPrompt, s), events) == Output(c, events)
    decreases |events|
  {
    if 0 < |events| {
      LocationTextUnused(c, s, events[..|events| - 1]);
    }
  }

  lemma {:induction false} OutputAppend(c: Config, a: seq<Event>, b: seq<Event>)
    ensures Output(c, a + b) == Output(c, a) + Output(c, b)
    decreases |b|
  {
    if 0 < |b| {
      assert (a + b)[..|a + b| - 1] == a + b[..|b| - 1];
      assert (a + b)[|a + b| - 1] == b[|b| - 1];
      OutputAppend(c, a, b[..|b| - 1]);
    } else {
      assert a + b == a;
    }
  }

  lemma OutputSingle(c: Config, e: Event)
    ensures Output(c, [e]) == Render(c, e)
  {
    assert [e][..0] == [];
  }

  lemma {:induction false} OutputOfCrumbsOnly(c: Config, events: seq<Event>)
    requires forall i :: 0 <= i < |events| ==> events[i].OnBreadCrumb?
    ensures Output(c, events) == ""
    decreases |events|
  {
    if 0 < |events| {
      OutputOfCrumbsOnly(c, events[..|events| - 1]);
    }
  }

  /** The text of three traces one after the other. */
  lemma OutputJoin3(c: Config, a: seq<Event>, b: seq<Event>, d: seq<Event>)
    ensures Output(c, a + b + d) == Output(c, a) + Output(c, b) + Output(c, d)
  {
    OutputAppend(c, a, b);
    OutputAppend(c, a + b, d);
  }

  /** `onStartMenu` writes nothing and `onBeforeBreadCrumb` the literal
      "Location: ". */
  lemma LocationPrefixText(c: Config)
    ensures Output(c, [OnStartMenu, OnBeforeBreadCrumb]) == "Location: "
  {
    OutputAppend(c, [OnStartMenu], [OnBeforeBreadCrumb]);
    assert [OnStartMenu] + [OnBeforeBreadCrumb] == [OnStartMenu, OnBeforeBreadCrumb];
    OutputSingle(c, OnStartMenu);
    OutputSingle(c, OnBeforeBreadCrumb);
  }

  lemma LocationLine()
    ensures "Location: " + "" + "\n\n" == "Location: \n\n"
  {
  }

  /** With the default `onBreadCrumb` on every menu of the chain, the
      breadcrumb walk fires only `onBreadCrumb` hooks. */
  lemma DefaultCrumbsOnly(m: Menu)
    requires forall i :: 0 <= i < |Chain(m)| ==> !Chain(m)[i].crumbShown
    ensures forall i :: 0 <= i < |Breadcrumb(m).events| ==> Breadcrumb(m).events[i].OnBreadCrumb?
  {
    var t := Trail(Chain(m));
    assert Breadcrumb(m).events == t by {
      BreadcrumbFollowsChain(m);
    }
    assert forall i :: 0 <= i < |t| ==> t[i] == OnBreadCrumb(Chain(m)[i].id) by {
      TrailWithoutShownCrumbs(Chain(m));
    }
  }

  /** With the default `onBreadCrumb` on every menu of the chain, a console
      breadcrumb is just "Location: " and the blank line: no names, no
      separators. */
  lemma ConsoleBreadcrumbText(c: Config, m: Menu)
    requires forall i :: 0 <= i < |Chain(m)| ==> !Chain(m)[i].crumbShown
    ensures Output(c, Header(m)) == "Location: \n\n"
  {
    var pre := [OnStartMenu, OnBeforeBreadCrumb];
    var crumbs := Breadcrumb(m).events;
    var post := [OnAfterBreadCrumb];
    assert Header(m) == pre + crumbs + post;
    OutputJoin3(c, pre, crumbs, post);
    assert Output(c, pre) == "Location: " by {
      LocationPrefixText(c);
    }
    assert Output(c, crumbs) == "" by {
      DefaultCrumbsOnly(m);
      OutputOfCrumbsOnly(c, crumbs);
    }
    assert Output(c, post) == "\n\n" by {
      OutputSingle(c, OnAfterBreadCrumb);
    }
    LocationLine();
  }

  /** What extracting a `size_t` from `std::cin` produced. */
  datatype Read = Number(value: SizeT) | Unreadable

  /** `userInput`: the number read, or `size_t(-1)` when extraction failed. */
  function UserInputValue(r: Read): (i: SizeT)
    ensures r.Unreadable? ==> i == SIZE_MAX
    ensures r.Number? ==> i == r.value
  {
    match r
    case Number(v) => v
    case Unreadable => SIZE_MAX
  }

  /** `onBadInput`: writes the invalid-input text and always asks to go on. */
  function BadInputAnswer(c: Config, badIndex: SizeT): (keepGoing: bool)
    ensures keepGoing
  {
    true
  }

  /** One pass of a console menu: the selection `userInput` produced, the
      answer of the selected action, and the console's bad-input answer. */
  function ConsoleStep(c: Config, r: Read, answer: Signal): Step
  {
    Step(UserInputValue(r), answer, BadInputAnswer(c, UserInputValue(r)))
  }

  /** On a console menu a bad selection never ends the loop: nothing is
      invoked, `onBadInput` gets that exact index, `onPause` fires once and
      `onExitMenu` does not. */
  lemma ConsoleBadInputContinues(cm: ConsoleMenu, r: Read, answer: Signal)
    requires 0 < |cm.base.items| && Fits(cm.base)
    requires |cm.base.items| <= UserInputValue(r)
    ensures var step := ConsoleStep(cm.config, r, answer);
            var ev := multiset(Frame(cm.base, step, Init(cm.base)).events);
            && Continues(cm.base, step)
            && (forall j :: ev[Invoked(j)] == 0)
            && ev[OnBadInput(UserInputValue(r))] == 1
            && ev[OnPause] == 1
            && ev[OnExitMenu] == 0
  {
    var step := ConsoleStep(cm.config, r, answer);
    FrameHooks(cm.base, step, Init(cm.base));
    BadInputContinues(cm.base, step);
  }

  /** The parse-failure sentinel always takes the bad-input branch, on every
      registry a `std::vector` can hold: nothing is invoked, `onBadInput` gets
      `size_t(-1)`, and then either `onPause` and the reset to `init`, or
      `onExitMenu` and the break. */
  lemma UnreadableTakesBadInputBranch(items: Items, answer: Signal, proceed: bool, init: SizeT)
    requires |items| <= SIZE_MAX
    ensures var d := Dispatch(items, Step(UserInputValue(Unreadable), answer, proceed), init);
            && d.events == [OnBadInput(SIZE_MAX), if proceed then OnPause else OnExitMenu]
            && d.control == (if proceed then Test(init) else Break)
            && NoInvocation(d.events)
  {
    var d := Dispatch(items, Step(UserInputValue(Unreadable), answer, proceed), init);
    assert forall j :: Invoked(j) !in d.events;
  }

  /** A console menu fed only unreadable input never leaves its loop and
      never invokes an action, however long the script. */
  lemma UnreadableInputNeverEnds(cm: ConsoleMenu, answers: seq<Signal>)
    requires 0 < |cm.base.items| && Fits(cm.base)
    ensures var script := seq(|answers|, k requires 0 <= k < |answers| => ConsoleStep(cm.config, Unreadable, answers[k]));
            var o := Run(cm.base, script);
            && !o.finished
            && o.passes == |answers|
            && NoInvocation(o.events)
  {
    var script := seq(|answers|, k requires 0 <= k < |answers| => ConsoleStep(cm.config, Unreadable, answers[k]));
    forall k | 0 <= k < |script|
      ensures Continues(cm.base, script[k]) && |cm.base.items| <= script[k].input
    {
      ConsoleBadInputContinues(cm, Unreadable, answers[k]);
    }
    AllContinueNeverFinishes(cm.base, script);
    NothingInvokedOutOfRange(cm.base, script);
  }
}

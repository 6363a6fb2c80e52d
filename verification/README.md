# wy menu engine in Dafny

A functional model of the `wy::menu` text-menu engine (`include/wy/menu.h`) and
its console adapter (`include/wy/menu-console.h`), with proofs about it.

- **Registry** (`storage.dfy`, module `Storage`). The `storage` wrapper is an
  append-only sequence of (label, action) entries. An action is either a bound
  method (the built-in `menuExit` or a user method) or a free callable. It
  answers one of the three `retval` signals.
- **Menu** (`menus.dfy`, module `Menus`). The `menu` object covers:
  - its constructor, which registers the exit entry "Exit" at index 0;
  - the two `push` overloads and `setExitMenuText`;
  - `clearMenu`, `setParent`, `setBreadcrumbSeparator` and `initMenu`.

  The menu's hooks are the `Event` values a run emits.
- **Breadcrumb** (`breadcrumbs.dfy`, module `Breadcrumbs`). The recursive
  `breadcrumb()` walk over the parent link is proved equal to a root-first
  trail over the ancestor chain.
- **Loop** (`loop.dfy`, module `Loop`). `display()` is modelled as a pure
  function `Run` from a finite script of passes to the hook trace, an "ended"
  flag and a pass count. Each pass of the script supplies:
  - the index `userInput` returns;
  - the signal the selected action answers;
  - what `onBadInput` answers.

  `Display` is the same loop written as the source's do-while. It is proved
  equal to `Run`.
- **Decimal text** (`decimal.dfy`, module `Decimal`). Writing a `size_t` as
  decimal, as the console does with `operator<<`, and reading it back.
- **Console adapter** (`console.dfy`, module `Console`). This covers:
  - the prompt texts and `setText`;
  - the `initMenu` width rule;
  - the item-line format and the text each hook writes;
  - the `size_t(-1)` sentinel of `userInput`;
  - an `onBadInput` that always continues.

`size_t` is `Storage.SizeT`, the naturals up to `SIZE_MAX = 2^64 - 1`.
`menuSize() + 1` wraps explicitly (`Storage.SizeSucc`). Lemmas that need the
sum not to wrap require `|items| < SIZE_MAX`, which any `std::vector` meets.

## Model

| member | source | states |
|---|---|---|
| Storage.SizeSucc | include/wy/menu.h:162 | `size + 1` in `size_t`: one more below `SIZE_MAX`, wrapping to 0 at `SIZE_MAX` |
| Storage.Invoke | include/wy/menu.h:38-56 | `invoke()` on an entry: a bound method or callable answers what the outside world supplies, except the built-in `menuExit` (line 122), which always answers `quit_` |
| Storage.Push | include/wy/menu.h:97-100 | the registry grows by one entry at index `size()`, and every earlier entry stays as it was |
| Storage.ClearAsWritten | include/wy/menu.h:71-80 | as written, `clear` leaves every registry unchanged: its body runs only when the registry is already empty |
| Storage.ClearGuardCounterexample | include/wy/menu.h:71-80 | a one-entry registry survives `clear` as written, but the corrected `clear` empties it |
| Storage.Clear | include/wy/menu.h:71-80 | the intended `clear`: the registry ends up empty |
| Menus.PushMethod | include/wy/menu.h:216-221 | `push(text, method, object)` appends exactly one bound-method entry; every earlier entry and every other field of the menu is unchanged |
| Menus.PushFunction | include/wy/menu.h:223-228 | `push(text, callable)` appends exactly one callable entry; nothing else changes |
| Menus.PushAllAppends | include/wy/menu.h:216-228 | any series of pushes only appends: the registry becomes old entries followed by new ones, and entry 0 (the exit) keeps its label and action |
| Menus.SetExitMenuText | include/wy/menu.h:230-238 | on a non-empty registry, only the label of entry 0 changes (size, all actions and all other labels stay); on an empty registry a `menuExit` entry for this menu is registered |
| Menus.NewMenu | include/wy/menu.h:116-120 | a new menu has no parent and exactly one entry, "Exit", bound to its own `menuExit` |
| Menus.NewMenuExitQuits | include/wy/menu.h:122 | invoking a new menu's exit entry answers `quit_`, whatever a user action would answer |
| Menus.ClearMenuAsWritten | include/wy/menu.h:124 | `clearMenu` as written leaves the menu unchanged |
| Menus.ClearMenu | include/wy/menu.h:124 | with the guard corrected, `clearMenu` empties the registry, exit entry included, and changes nothing else |
| Menus.SetParent | include/wy/menu.h:126 | only the parent link changes, and it now names the given menu |
| Menus.SetBreadcrumbSeparator | include/wy/menu.h:128 | only the separator changes |
| Menus.InitMenu | include/wy/menu.h:153-156 | `initMenu` of the base class: the registry grows by exactly the entries `onInitMenu` registers, and the exit entry is kept |
| Breadcrumbs.Breadcrumb | include/wy/menu.h:133-142 | the walk emits only crumb and separator hooks; it starts with the root's `onBreadCrumb`, ends with the menu's own, and returns the menu's own `onBreadCrumb` answer |
| Breadcrumbs.BreadcrumbFollowsChain | include/wy/menu.h:133-142 | the recursive walk equals the root-first trail of the ancestor chain: each menu's `onBreadCrumb`, preceded by its separator exactly when its parent answered true |
| Breadcrumbs.ParentRenderedFirst | include/wy/menu.h:135-141 | the parent's walk is a strict prefix of the child's walk |
| Breadcrumbs.TrailWithoutShownCrumbs | include/wy/menu.h:129-142 | when every `onBreadCrumb` answers false (the default), the trail has no separators: one crumb per menu, root first |
| Breadcrumbs.TrailWithShownCrumbs | include/wy/menu.h:133-142 | when every `onBreadCrumb` answers true, crumbs and separators alternate: menu i is at position 2i and its separator just before it; no separator precedes the root |
| Loop.ItemLoop | include/wy/menu.h:169-175 | the range-for shows every entry except index 0, in ascending index order, each with its own label |
| Loop.ItemLines | include/wy/menu.h:169-176 | a frame shows exactly `size()` items: indices 1 to size-1 in ascending order, then index 0 last, each with its entry's label |
| Loop.Header | include/wy/menu.h:165-166 | a frame opens with `onStartMenu` and then `_breadcrumb()` (lines 240-245): `onBeforeBreadCrumb`, the walk from the root's `onBreadCrumb` to this menu's, then `onAfterBreadCrumb` |
| Loop.Frame | include/wy/menu.h:165-212 | one pass of the do-while body opens with `onStartMenu`, reads the input right before the dispatch, and ends (break, or the selection at the loop test) as its dispatch does |
| Loop.FrameLayout | include/wy/menu.h:164-180 | hook order within a frame: `onStartMenu`, `onBeforeBreadCrumb`, the breadcrumb trail, `onAfterBreadCrumb`, the item lines, the input read, then the dispatch |
| Loop.Dispatch | include/wy/menu.h:182-212 | the loop goes round again exactly when: (a) an in-range, non-zero selection's action does not quit, or (b) an out-of-range index is accepted by `onBadInput` and `init` is non-zero. `quit_` forces the selection to 0; accepted bad input resets it to `init`; dispatch renders nothing |
| Loop.DispatchHooks | include/wy/menu.h:182-212 | dispatch hooks, counted. An in-range selection invokes exactly that entry once. An out-of-range index reaches `onBadInput` once with that exact value and invokes nothing. `onPause` and `onExitMenu` fire once on their branches and never otherwise |
| Loop.FrameHooks | include/wy/menu.h:164-212 | the same counts hold for a whole frame, rendering included |
| Loop.SelectingZeroExits | include/wy/menu.h:188-193 | choosing 0 on a well-formed menu invokes `menuExit`, fires `onExitMenu`, and ends the loop |
| Loop.FrameExitsIffStops | include/wy/menu.h:182-213 | a frame fires `onExitMenu` if and only if the loop stops after it, and then exactly once |
| Loop.BadInputContinues | include/wy/menu.h:202-212 | an out-of-range index that `onBadInput` accepts never ends the loop; the selection is reset to `size() + 1` |
| Loop.FrameOutOfRangeInvokesNothing | include/wy/menu.h:182-212 | a frame whose selection is out of range invokes no action |
| Loop.Run | include/wy/menu.h:160-214 | a run uses at most one pass per script step; an ended run used at least one pass; a run that has not ended used every step |
| Loop.RunEndsAtFirstStop | include/wy/menu.h:164-213 | the loop ends at the first pass whose dispatch stops it, and only there: every earlier pass continues |
| Loop.AllContinueNeverFinishes | include/wy/menu.h:164-213 | if every pass continues, the loop never ends and uses the whole script |
| Loop.ExitHookOnce | include/wy/menu.h:160-214 | over a whole run, `onExitMenu` fires once if the loop ended and never if the script ran out first |
| Loop.NothingInvokedOutOfRange | include/wy/menu.h:160-214 | a run in which every selection is out of range invokes no action |
| Loop.Display | include/wy/menu.h:160-214 | the do-while loop, with `break` and the `input != 0` test, computes exactly the outcome of `Run` |
| Decimal.ToDecimal | include/wy/menu-console.h:77-78 | `ss << n` writes a non-empty run of digits, and "0" for zero |
| Decimal.ToDecimalMagnitude | include/wy/menu-console.h:77-79 | the text has no superfluous digits: a positive n with a text of len digits satisfies 10^(len-1) <= n < 10^len |
| Decimal.DecimalRoundTrip | include/wy/menu-console.h:77-78 | reading the decimal text of n back gives n |
| Decimal.DecimalLengthMonotone | include/wy/menu-console.h:77-79 | a larger number never has a shorter text |
| Console.NewConsoleMenu | include/wy/menu-console.h:14-19 | a new console menu has width 2 and the prompts "choice: ", "press any key to continue...", "invalid input!" and "Location: " around a fresh base menu |
| Console.SetText | include/wy/menu-console.h:105-122 | `setText(where, s)` makes the selected prompt `s`; the other three prompts and the width are unchanged |
| Console.SetTextLastWins | include/wy/menu-console.h:105-122 | setting the same prompt twice keeps only the second value |
| Console.SetTextCommutes | include/wy/menu-console.h:105-122 | setting two different prompts gives the same state in either order |
| Console.OnUserInputPrompt | include/wy/menu-console.h:49-52 | the choice setter is `setText(choice, ...)`, so it changes only its own field |
| Console.OnPausePrompt | include/wy/menu-console.h:59-62 | the pause setter is `setText(pause, ...)` |
| Console.OnBadInputPrompt | include/wy/menu-console.h:69-72 | the invalid-input setter is `setText(invalid, ...)` |
| Console.InitMenu | include/wy/menu-console.h:74-81 | after `onInitMenu`'s entries: the width becomes the larger of the old width and the digit count of `menuSize() + 1`, so it never decreases; the separator becomes " >> "; the prompts are kept |
| Console.InitMenuIdempotent | include/wy/menu-console.h:74-81 | a second `initMenu` whose `onInitMenu` registers nothing changes nothing |
| Console.PadLeft | include/wy/menu-console.h:22-24 | `std::setw(w)` output is the text right-aligned in max(w, length) characters: spaces, then the text untruncated |
| Console.ItemLine | include/wy/menu-console.h:20-27 | a `displayItem` line ends with ". ", the label and the newline `std::endl` writes |
| Console.ItemLineRoundTrip | include/wy/menu-console.h:20-27 | every item line reads back as the index and label it was made from, for any width: a wide index is not truncated |
| Console.ItemLineColumns | include/wy/menu-console.h:20-27 | an index no wider than the width is padded to exactly the width, and ". " follows at that column |
| Console.InitMenuAlignsItems | include/wy/menu-console.h:74-81 | after `initMenu`, every index of the registry fills exactly the width, so all the ". " line up |
| Console.LocationTextUnused | include/wy/menu-console.h:37-40 | changing the location prompt changes no output, since `onBeforeBreadCrumb` writes the literal "Location: " |
| Console.HookText | include/wy/menu-console.h:20-72 | what each console hook writes: an item line that reads back as its index and label; the literal "Location: " before the breadcrumb and a blank line after it; the separator as given; the configured choice and pause prompts; the invalid-input text and a newline; nothing for `onStartMenu`, `onBreadCrumb` and `onExitMenu`, which the console leaves at their defaults |
| Console.ConsoleBreadcrumbText | include/wy/menu-console.h:37-48 | with the default `onBreadCrumb` on every menu of the chain, the breadcrumb writes exactly "Location: " and a blank line: no names, no separators |
| Console.UserInputValue | include/wy/menu-console.h:28-36 | a failed extraction yields `size_t(-1)` = `SIZE_MAX`; otherwise the value read |
| Console.UnreadableTakesBadInputBranch | include/wy/menu-console.h:30-33 | the `size_t(-1)` sentinel always takes the bad-input branch on any registry: no action is invoked, `onBadInput` gets `SIZE_MAX`, and then `onPause` with the selection reset to `init`, or `onExitMenu` and the break |
| Console.BadInputAnswer | include/wy/menu-console.h:64-68 | the console's `onBadInput` always answers "go on" |
| Console.ConsoleBadInputContinues | include/wy/menu-console.h:64-68 | for a console menu, a bad selection continues the loop: no invocation, `onBadInput` once with that index, `onPause` once, no `onExitMenu` |
| Console.UnreadableInputNeverEnds | include/wy/menu-console.h:30-33 | a console menu fed only unreadable input never leaves its loop and never invokes an action, however long the script |

## Left out

- Stream I/O is modelled as events, not characters on a device. This covers `std::cout`/`std::cin`, `clearCin`, the `putback`/`get` key read in `onPause`, and `std::endl` flushing. `Console.Output` gives the text written for a trace.
- `clearScreen` is left out: it is a process-level `system()` call with no effect on the menu state.
- Heap allocation, `delete` and the object-slicing concern of `storage` are left out. The destructors `~storage`/`~menu` are out too; they only free memory.
- Invoking an action is not modelled as a call. The pointer-to-member call (`methodItem`) and the functor call (`functionItem`) become the signal the script supplies for that pass. Only `menuExit` has a fixed answer, `quit_`.
- Nested sub-menus run from an action are opaque: such an action is one call returning a signal.
- The whole menu (registry, separator, parent link) and the console configuration are fixed during `display()`. In the source an action may call `push`, `setBreadcrumbSeparator`, `setParent`, `setText` or a prompt setter on the running menu and change later frames; `Loop.Run` and `Console.Output` use one menu and one configuration for every pass.
- `onBreadCrumb` is modelled as a fixed per-menu answer (`crumbShown`). The other hooks are events, and subclasses decide what they do.
- `onInitMenu` is pure virtual. It is modelled only by the entries it registers.
- `size`, `operator[]`, `begin`, `end`, `empty` and `menuSize` are plain sequence operations (`|items|`, `items[i]`, a range over `items`).
- Loop.Run: the real loop may never end. The model runs at most one pass per script step, and a run that has not ended stops when the script runs out.
- Menus.Link: the parent is held as a value captured when `setParent` is called, not as a pointer. A parent changed afterwards is not seen, and a cyclic parent chain cannot be built. The source would recurse without bound on such a chain.
- Loop.BadInputContinues: requires `size() < SIZE_MAX`, so that `init` does not wrap to 0. A `std::vector` cannot get that large.
- Console.InitMenuAlignsItems: requires `size() < SIZE_MAX`, for the same reason.
- Console.UserInputValue: does not model how `operator>>` reads text. A negative number, an overflowing number or trailing text are folded into "a value was read" or "extraction failed".
- Menus.ClearMenu: after a real clear, the registry has no entry 0, and `display()` would read `m_storage[0]` out of bounds. The model does not run the loop on an empty registry: `Run` requires at least one entry.
- `setText` takes a non-const reference in the source. This makes no difference to what it stores.

## Findings

| source | as written | input that shows it | evidently intended | confidence | as-written member | corrected member |
|---|---|---|---|---|---|---|
| include/wy/menu.h:71-80 | `clear` deletes the actions and empties the vector only when `m_entries.empty()` holds, so a non-empty registry is never cleared and its actions are never deleted (`clearMenu` and both destructors do nothing) | a registry holding only the exit entry (any menu after construction) | the guard is `!m_entries.empty()`: `clear` deletes every action and leaves the registry empty | high, not executed | Storage.ClearAsWritten, Menus.ClearMenuAsWritten, Storage.ClearGuardCounterexample | Storage.Clear, Menus.ClearMenu |

/** The item registry of a menu: an append-only sequence of (text, action)
    entries, the actions it can hold and the signal an action answers with. */
module Storage {

  /** The largest `size_t` on a 64-bit target; `size_t(-1)` converts to it. */
  const SIZE_MAX: nat := 0xFFFF_FFFF_FFFF_FFFF

  /** An unsigned 64-bit index, as `size_t`. */
  type SizeT = x: nat | x <= SIZE_MAX

  /** `n + 1` computed in `size_t`: it wraps to 0 past SIZE_MAX. */
  function SizeSucc(n: nat): (r: SizeT)
    ensures n < SIZE_MAX ==> r == n + 1
    ensures n == SIZE_MAX ==> r == 0
  {
    (n + 1) % (SIZE_MAX + 1)
  }

  /** `retval`: what an action tells the display loop to do next. */
  datatype Signal = Quit | Return | Pause

  /** A pointer to a member function: the built-in `menuExit`, or one of the
      application's own methods, known only by a name. */
  datatype Method = MenuExit | UserMethod(name: nat)

  /** The two kinds of item: a method bound to a target object (`methodItem`)
      and a free callable or closure (`functionItem`). Objects are known by an
      identity number. */
  datatype Action =
    | MethodItem(callee: Method, target: nat)
    | FunctionItem(callable: nat)

  predicate IsExit(a: Action)
  {
    a.MethodItem? && a.callee == MenuExit
  }

  /** Invoking an action. `menuExit` always answers `quit_`; what any other
      action answers, a closure that runs a sub-menu included, is decided
      outside the engine and arrives as `answer`. */
  function Invoke(a: Action, answer: Signal): (s: Signal)
    ensures IsExit(a) ==> s == Quit
    ensures !IsExit(a) ==> s == answer
  {
    if IsExit(a) then Quit else answer
  }

  datatype Entry = Entry(text: string, action: Action)

  type Items = seq<Entry>

  /** `storage::push`: appends one entry at index `size()`; every earlier
      entry keeps its position. */
  function Push(items: Items, text: string, action: Action): (r: Items)
    ensures |r| == |items| + 1
    ensures r[..|items|] == items
    ensures r[|items|] == Entry(text, action)
  {
    items + [Entry(text, action)]
  }

  /** `storage::clear` as it is written: the guard tests `empty()`, so the
      deletion loop and the vector clear only ever run on an empty registry.
      Nothing is ever removed. */
  function ClearAsWritten(items: Items): (r: Items)
    ensures r == items
  {
    if |items| == 0 then [] else items
  }

  /** `storage::clear` with the guard the deleter evidently intends
      (`!empty()`): every entry is released and the registry is emptied. */
  function Clear(items: Items): (r: Items)
    ensures |r| == 0
  {
    if |items| == 0 then items else []
  }

  /** A registry holding only the exit entry is left untouched by the clear
      as written, while the intended clear empties it. */
  lemma ClearGuardCounterexample()
    ensures var items := [Entry("Exit", MethodItem(MenuExit, 0))];
            ClearAsWritten(items) == items && Clear(items) == [] && ClearAsWritten(items) != Clear(items)
  {
  }
}

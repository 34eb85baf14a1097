/** The host's context menu as the overlay sees it: an ordered list of
    entries, of which only the last (the one under the cursor) matters. */
module Menu {
  import opened Options
  import Strings

  /** The host's action kinds. The eight named ones are those the overlay
      reacts to; every other kind the host knows is `OtherAction`. */
  datatype MenuAction =
    | ItemUseOnWidget
    | CcOp
    | ItemUse
    | ItemFirstOption
    | ItemSecondOption
    | ItemThirdOption
    | ItemFourthOption
    | ItemFifthOption
    | OtherAction
  {
    /** An action performed on an item: the overlay only looks further
        for these. */
    predicate IsItemAction()
    {
      !OtherAction?
    }
  }

  /** One menu entry. `kind` is the host's numeric action code, `param0` the
      slot index within a container and `param1` the packed id of the widget
      the entry belongs to. */
  datatype MenuEntry = MenuEntry(
    option: string,
    target: string,
    kind: int,
    param0: int,
    param1: int)

  /** The last entry, if there is one. */
  function LastEntry(entries: seq<MenuEntry>): (r: Option<MenuEntry>)
    ensures r.None? <==> |entries| == 0
    ensures forall prefix, e :: entries == prefix + [e] ==> r == Some(e)
  {
    if |entries| == 0 then None else Some(entries[|entries| - 1])
  }

  /** Entries the overlay treats as interface buttons and never annotates:
      no target text, an option mentioning "View", or a negative slot. */
  predicate IsInterfaceButton(e: MenuEntry)
  {
    |e.target| == 0 || Strings.Contains(e.option, "View") || e.param0 < 0
  }
}

/** The per-frame decision of the herblore recipes overlay: given the host's
    menu state, decide whether to show a tooltip over the hovered inventory
    or bank item and, if so, with which text. */
module Overlay {
  import opened Options
  import opened Strings
  import opened Menu
  import opened Containers

  /** Section labels, "Primary for:" and "Secondary for:" wrapped in the
      host's colour tags (lime, aqua, and grey for " for:"). */
  const PrimaryLabel: string := "<col=00ff00>Primary</col><col=eeeeee> for:</col>"
  const SecondaryLabel: string := "<col=00ffff>Secondary</col><col=eeeeee> for:</col>"

  /** Cache keys are the role tag followed by the item name. */
  const PrimaryKey: string := "1"
  const SecondaryKey: string := "2"

  /** The two user options. */
  datatype Config = Config(showPrimaryIngredients: bool, showSecondaryIngredients: bool)
  {
    /** At least one of the two displays is switched on. */
    predicate Enabled()
    {
      showPrimaryIngredients || showSecondaryIngredients
    }
  }

  /** The static ingredient index: every primary ingredient name, and every
      secondary ingredient string (matched by containment, not equality). */
  datatype Ingredients = Ingredients(primary: set<string>, secondary: seq<string>)

  /** What the overlay reads from the host client in one frame. `actionOf`
      maps a numeric action code to its kind, `groupOf` a packed widget id to
      its interface group, `itemName` an item id to its display name. */
  datatype Host = Host(
    menuOpen: bool,
    entries: seq<MenuEntry>,
    actionOf: int -> MenuAction,
    groupOf: int -> int,
    inventory: Option<Container>,
    bank: Option<Container>,
    itemName: int -> string)

  /** The result of one render call: the tooltip handed to the host's tooltip
      manager, if any, and the overlay's text buffer afterwards. */
  datatype RenderOutcome = RenderOutcome(tooltip: Option<string>, buffer: string)

  /** The cached tooltip text for a cache key (a total function of the key:
      the text is computed from static data). */
  type CacheText = string -> string

  /** Some secondary ingredient string contains `name`. The test is
      directional: `name` must occur inside the ingredient string. */
  function IsSecondary(secondary: seq<string>, name: string): (r: bool)
    ensures r <==> exists i :: 0 <= i < |secondary| && Occurs(name, secondary[i])
  {
    if |secondary| == 0 then
      false
    else
      assert forall i :: 0 < i < |secondary| ==> secondary[i] == secondary[1..][i - 1];
      Contains(secondary[0], name) || IsSecondary(secondary[1..], name)
  }

  /** Declarative meaning of "the cursor is over item `id`", written
      against the host's raw state rather than the helpers below: the last
      menu entry is not an interface button, its action is one of the eight
      item actions, its widget lies in an item group and is an item widget,
      and the container behind that widget is present and holds `id` at the
      entry's slot. */
  ghost predicate Hovers(host: Host, w: WidgetIds, id: int)
  {
    && |host.entries| > 0
    && var e := host.entries[|host.entries| - 1];
    && |e.target| > 0
    && !Occurs("View", e.option)
    && e.param0 >= 0
    && host.actionOf(e.kind) != OtherAction
    && host.groupOf(e.param1) in {w.inventoryGroup, w.bankGroup, w.bankInventoryGroup}
    && (if e.param1 == w.inventoryItems || e.param1 == w.bankInventoryItems then
          host.inventory.Some? && e.param0 in host.inventory.value
          && host.inventory.value[e.param0] == id
        else
          e.param1 == w.bankItems && host.bank.Some? && e.param0 in host.bank.value
          && host.bank.value[e.param0] == id)
  }

  /** The item id under the cursor, if the last menu entry designates an item
      in the inventory, the bank, or the bank's view of the inventory. */
  function HoveredItem(host: Host, w: WidgetIds): (r: Option<int>)
    ensures r.Some? ==> Hovers(host, w, r.value)
    ensures r.None? ==> forall id :: !Hovers(host, w, id)
  {
    match LastEntry(host.entries)
    case None => None
    case Some(e) =>
      if IsInterfaceButton(e) then None
      else if !host.actionOf(e.kind).IsItemAction() then None
      else if !w.IsItemGroup(host.groupOf(e.param1)) then None
      else
        match GetContainer(w, e.param1, host.inventory, host.bank)
        case None => None
        case Some(c) => GetItem(c, e.param0)
  }

  /** One labelled section, present only when `shown`. */
  function Section(shown: bool, heading: string, text: string): (r: string)
  {
    if shown then heading + text else ""
  }

  /** The text appended for an item called `name`: the primary section, then
      the secondary section, each present when its display is on and the item
      plays that role. Both may be absent, leaving the text empty. */
  function TooltipText(cfg: Config, ing: Ingredients, cache: CacheText, name: string): (r: string)
    ensures
      var primary :=
        if cfg.showPrimaryIngredients && name in ing.primary
        then PrimaryLabel + cache("1" + name) else "";
      var secondary :=
        if cfg.showSecondaryIngredients
           && exists i :: 0 <= i < |ing.secondary| && Occurs(name, ing.secondary[i])
        then SecondaryLabel + cache("2" + name) else "";
      r == primary + secondary
  {
    Section(cfg.showPrimaryIngredients && name in ing.primary,
            PrimaryLabel, cache(PrimaryKey + name))
    + Section(cfg.showSecondaryIngredients && IsSecondary(ing.secondary, name),
              SecondaryLabel, cache(SecondaryKey + name))
  }

  /** Hands the buffer to the tooltip manager and clears it. */
  function AddTooltip(buffer: string): (r: RenderOutcome)
  {
    RenderOutcome(Some(buffer), "")
  }

  /** One render call. `buffer` is the overlay's text buffer on entry. */
  function Render(cfg: Config, host: Host, w: WidgetIds, ing: Ingredients,
                  cache: CacheText, buffer: string): (r: RenderOutcome)
    ensures r.tooltip.Some? ==> r.buffer == "" && buffer <= r.tooltip.value
    ensures r.tooltip.None? ==> r.buffer == buffer
  {
    if host.menuOpen then
      RenderOutcome(None, buffer)
    else if !cfg.Enabled() then
      RenderOutcome(None, buffer)
    else
      match HoveredItem(host, w)
      case None => RenderOutcome(None, buffer)
      case Some(id) =>
        AddTooltip(buffer + TooltipText(cfg, ing, cache, host.itemName(id)))
  }

  /** The inputs of one frame; the widget constants, the ingredient index and
      the cached texts are fixed for the life of the overlay. */
  datatype Frame = Frame(cfg: Config, host: Host)

  /** Successive render calls, threading the buffer from one to the next.
      Returns the tooltip of each frame and the final buffer. */
  function RenderFrames(frames: seq<Frame>, w: WidgetIds, ing: Ingredients,
                        cache: CacheText, buffer: string): (r: (seq<Option<string>>, string))
    ensures |r.0| == |frames|
    ensures buffer == "" ==> r.1 == ""
    decreases |frames|
  {
    if |frames| == 0 then
      ([], buffer)
    else
      var first := Render(frames[0].cfg, frames[0].host, w, ing, cache, buffer);
      var rest := RenderFrames(frames[1..], w, ing, cache, first.buffer);
      ([first.tooltip] + rest.0, rest.1)
  }
}

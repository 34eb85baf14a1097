/** Properties of the overlay's per-frame decision: when a tooltip is
    submitted, with which text, and what happens to the text buffer. */
module OverlayProperties {
  import opened Options
  import opened Strings
  import opened Menu
  import opened Containers
  import opened Overlay

  /** With the host menu open, or both displays off, nothing is submitted
      and the buffer is left as it was. */
  lemma DisabledRendersNothing(cfg: Config, host: Host, w: WidgetIds, ing: Ingredients,
                               cache: CacheText, buffer: string)
    requires host.menuOpen || (!cfg.showPrimaryIngredients && !cfg.showSecondaryIngredients)
    ensures Render(cfg, host, w, ing, cache, buffer) == RenderOutcome(None, buffer)
  {
  }

  /** Only the last menu entry is examined: the entries before it never
      change the outcome. */
  lemma OnlyLastEntryMatters(cfg: Config, host: Host, w: WidgetIds, ing: Ingredients,
                             cache: CacheText, buffer: string,
                             prefix: seq<MenuEntry>, e: MenuEntry)
    requires host.entries == prefix + [e]
    ensures Render(cfg, host, w, ing, cache, buffer)
         == Render(cfg, host.(entries := [e]), w, ing, cache, buffer)
  {
  }

  /** No entries, an empty target, an option containing "View" or a negative
      slot: no tooltip. */
  lemma InterfaceButtonsRenderNothing(cfg: Config, host: Host, w: WidgetIds, ing: Ingredients,
                                      cache: CacheText, buffer: string)
    requires
      || |host.entries| == 0
      || var e := host.entries[|host.entries| - 1];
         |e.target| == 0 || Occurs("View", e.option) || e.param0 < 0
    ensures Render(cfg, host, w, ing, cache, buffer).tooltip.None?
  {
  }

  /** An action outside the eight item actions, or a widget outside the
      inventory, bank and bank-inventory groups: no tooltip. */
  lemma OtherActionsAndGroupsRenderNothing(cfg: Config, host: Host, w: WidgetIds,
                                           ing: Ingredients, cache: CacheText, buffer: string)
    requires |host.entries| > 0
    requires
      var e := host.entries[|host.entries| - 1];
      || host.actionOf(e.kind) == OtherAction
      || host.groupOf(e.param1) !in {w.inventoryGroup, w.bankGroup, w.bankInventoryGroup}
    ensures Render(cfg, host, w, ing, cache, buffer).tooltip.None?
  {
  }

  /** A widget with no container, an absent container, or an empty slot: no
      tooltip. */
  lemma MissingItemRendersNothing(cfg: Config, host: Host, w: WidgetIds, ing: Ingredients,
                                  cache: CacheText, buffer: string)
    requires |host.entries| > 0
    requires
      var e := host.entries[|host.entries| - 1];
      || e.param1 !in {w.inventoryItems, w.bankInventoryItems, w.bankItems}
      || ((e.param1 == w.inventoryItems || e.param1 == w.bankInventoryItems)
          && (host.inventory.None? || e.param0 !in host.inventory.value))
      || (e.param1 == w.bankItems
          && e.param1 != w.inventoryItems && e.param1 != w.bankInventoryItems
          && (host.bank.None? || e.param0 !in host.bank.value))
    ensures Render(cfg, host, w, ing, cache, buffer).tooltip.None?
  {
  }

  /** A tooltip is submitted exactly when the menu is closed, some display is
      on and the cursor is over an item. */
  lemma SubmitsIff(cfg: Config, host: Host, w: WidgetIds, ing: Ingredients,
                   cache: CacheText, buffer: string)
    ensures Render(cfg, host, w, ing, cache, buffer).tooltip.Some?
        <==> !host.menuOpen && cfg.Enabled() && exists id :: Hovers(host, w, id)
  {
  }

  /** The submitted text: the pending buffer, then the primary label and the
      cached "1"+name text when primary display is on and the name is a
      primary ingredient, then the secondary label and the cached "2"+name
      text when secondary display is on and the name occurs inside some
      secondary ingredient string. The buffer is empty afterwards. */
  lemma SubmittedText(cfg: Config, host: Host, w: WidgetIds, ing: Ingredients,
                      cache: CacheText, buffer: string, id: int)
    requires !host.menuOpen && cfg.Enabled() && Hovers(host, w, id)
    ensures
      var name := host.itemName(id);
      var primary :=
        if cfg.showPrimaryIngredients && name in ing.primary
        then PrimaryLabel + cache("1" + name) else "";
      var secondary :=
        if cfg.showSecondaryIngredients
           && exists i :: 0 <= i < |ing.secondary| && Occurs(name, ing.secondary[i])
        then SecondaryLabel + cache("2" + name) else "";
      Render(cfg, host, w, ing, cache, buffer)
        == RenderOutcome(Some(buffer + primary + secondary), "")
  {
    var name := host.itemName(id);
    assert IsSecondary(ing.secondary, name)
        <==> exists i :: 0 <= i < |ing.secondary| && Occurs(name, ing.secondary[i]);
    var primary := Section(cfg.showPrimaryIngredients && name in ing.primary,
                           PrimaryLabel, cache("1" + name));
    var secondary := Section(cfg.showSecondaryIngredients && IsSecondary(ing.secondary, name),
                             SecondaryLabel, cache("2" + name));
    assert buffer + (primary + secondary) == buffer + primary + secondary;
  }

  /** A resolved item that is no ingredient still gets a tooltip, with empty
      text. */
  lemma NonIngredientGetsEmptyTooltip(cfg: Config, host: Host, w: WidgetIds, ing: Ingredients,
                                      cache: CacheText, id: int)
    requires !host.menuOpen && cfg.Enabled() && Hovers(host, w, id)
    requires host.itemName(id) !in ing.primary
    requires forall i :: 0 <= i < |ing.secondary| ==> !Occurs(host.itemName(id), ing.secondary[i])
    ensures Render(cfg, host, w, ing, cache, "") == RenderOutcome(Some(""), "")
  {
  }

  /** The appended text is empty exactly when neither section is included. */
  lemma TooltipTextEmptyIff(cfg: Config, ing: Ingredients, cache: CacheText, name: string)
    ensures TooltipText(cfg, ing, cache, name) == ""
        <==> !(cfg.showPrimaryIngredients && name in ing.primary)
             && !(cfg.showSecondaryIngredients && IsSecondary(ing.secondary, name))
  {
  }

  /** The primary section always comes first: the text with both displays on
      is the primary-only text followed by the secondary-only text. */
  lemma PrimaryBeforeSecondary(ing: Ingredients, cache: CacheText, name: string)
    ensures TooltipText(Config(true, true), ing, cache, name)
         == TooltipText(Config(true, false), ing, cache, name)
          + TooltipText(Config(false, true), ing, cache, name)
  {
  }

  /** Whether a tooltip is submitted does not depend on which display is on,
      only on at least one being on. */
  lemma SubmissionIgnoresWhichDisplay(cfg1: Config, cfg2: Config, host: Host, w: WidgetIds,
                                      ing: Ingredients, cache: CacheText, buffer: string)
    requires cfg1.Enabled() && cfg2.Enabled()
    ensures Render(cfg1, host, w, ing, cache, buffer).tooltip.Some?
        <==> Render(cfg2, host, w, ing, cache, buffer).tooltip.Some?
  {
  }

  /** The secondary test is directional: a name longer than every secondary
      ingredient string never matches, even when it contains one of them. */
  lemma SecondaryMatchIsDirectional(secondary: seq<string>, name: string)
    requires forall i :: 0 <= i < |secondary| ==> |secondary[i]| < |name|
    ensures !IsSecondary(secondary, name)
  {
  }

  /** "grass" matches the ingredient "Snape grass", but "Snape grass seed"
      does not, although it contains that ingredient. */
  lemma SecondaryMatchExample()
    ensures IsSecondary(["Snape grass"], "grass")
    ensures !IsSecondary(["Snape grass"], "Snape grass seed")
  {
  }

  /** When the host's widget constants are consistent, every widget that has
      a container passes the group test, so that test never rejects an item
      widget. */
  lemma ItemWidgetsPassGroupTest(w: WidgetIds, groupOf: int -> int, widgetId: int)
    requires w.Consistent(groupOf)
    requires ContainerOf(w, widgetId).Some?
    ensures w.IsItemGroup(groupOf(widgetId))
  {
  }

  /** Across successive frames that start with an empty buffer, the buffer is
      empty after every frame, so each frame's tooltip is exactly the one the
      frame would produce on its own: no text leaks from one frame into the
      next. */
  lemma {:induction false} FramesDoNotLeak(frames: seq<Frame>, w: WidgetIds, ing: Ingredients,
                                           cache: CacheText)
    ensures RenderFrames(frames, w, ing, cache, "").1 == ""
    ensures forall i :: 0 <= i < |frames| ==>
              RenderFrames(frames, w, ing, cache, "").0[i]
                == Render(frames[i].cfg, frames[i].host, w, ing, cache, "").tooltip
    decreases |frames|
  {
    if |frames| > 0 {
      var first := Render(frames[0].cfg, frames[0].host, w, ing, cache, "");
      assert first.buffer == "";
      FramesDoNotLeak(frames[1..], w, ing, cache);
      forall i | 0 < i < |frames|
        ensures RenderFrames(frames, w, ing, cache, "").0[i]
             == Render(frames[i].cfg, frames[i].host, w, ing, cache, "").tooltip
      {
        assert frames[1..][i - 1] == frames[i];
      }
    }
  }
}

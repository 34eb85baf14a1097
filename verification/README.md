# Herblore recipes overlay — Dafny model

A model of the per-frame decision made by `HerbloreRecipesOverlay`, the
overlay of the herblore recipes plugin for the RuneLite game client. On
every frame the overlay looks at the client's context menu. If the last
entry is an item action on an inventory, bank or bank-inventory slot, it
resolves the item's name. It then builds a tooltip with a "Primary for:"
section and a "Secondary for:" section, each taken from a text cache, and
hands that tooltip to the host's tooltip manager.

The model is pure and functional:

- `Options` — `Option<T>`, standing for Java's `Optional` and nullable references.
- `Strings` — Java's `String.contains` (`Contains`), proved equal to a
  declarative "occurs as a substring" (`Occurs`).
- `Menu` — menu entries, the host's action kinds, the last-entry lookup and
  the interface-button test.
- `Containers` — item containers (a slot-to-item-id map), the widget
  constants, the widget-to-container mapping (`getContainer`) and the slot
  lookup (`getContainerItem`).
- `Overlay` — the render step. `Hovers` is a declarative description of
  "the cursor is over item `id`", written against the host's raw state.
  `HoveredItem`, the guard chain, is proved to resolve exactly that item.
  `Render` takes the config, the host's state for the frame, the widget
  constants, the ingredient index, the cache text and the text buffer on
  entry. It returns the submitted tooltip, if any, and the buffer
  afterwards. `RenderFrames` threads the buffer through successive frames.
- `OverlayProperties` — the properties of the decision. `SubmitsIff`,
  `SubmittedText` and `NonIngredientGetsEmptyTooltip` are stated against
  `Hovers`; the lemmas about rejected entries are stated against the raw
  menu entry, widget constants and containers.

Line 144 calls `addTooltip` for every resolved item, even when no
section was appended. So a non-ingredient such as "Bucket" gets a tooltip
with empty text (`NonIngredientGetsEmptyTooltip`).

## Model

| member | source | states |
|---|---|---|
| Strings.Contains | src/main/java/com/herblorerecipes/HerbloreRecipesOverlay.java:88 | `s.contains(sub)` holds exactly when `sub` occurs somewhere in `s`. This includes the empty string, which occurs in every string. |
| Menu.LastEntry | src/main/java/com/herblorerecipes/HerbloreRecipesOverlay.java:77-85 | There is no entry exactly when the list is empty. For a list `prefix + [e]` the entry is `e`. |
| Containers.ContainerOf | src/main/java/com/herblorerecipes/HerbloreRecipesOverlay.java:156-166 | The inventory and bank-inventory widget ids map to the inventory. The bank item widget id maps to the bank, unless it equals one of the inventory ids, because those are tested first. Every other widget id maps to no container. |
| Containers.GetContainer | src/main/java/com/herblorerecipes/HerbloreRecipesOverlay.java:158-165 | A container is returned only for one of the three item widgets. It is whatever the host holds, possibly nothing, for the inventory or the bank accordingly. |
| Containers.GetItem | src/main/java/com/herblorerecipes/HerbloreRecipesOverlay.java:168-171 | An item is found exactly when the slot is occupied. The item is the one held there. |
| Overlay.IsSecondary | src/main/java/com/herblorerecipes/HerbloreRecipesOverlay.java:131 | The name counts as a secondary ingredient exactly when it occurs inside some secondary ingredient string. |
| Overlay.Render | src/main/java/com/herblorerecipes/HerbloreRecipesOverlay.java:64-154 | When a tooltip is submitted through `AddTooltip` (lines 173-177), its text starts with the pending buffer and the buffer is cleared. When none is submitted, the buffer is untouched. |
| Overlay.HoveredItem | src/main/java/com/herblorerecipes/HerbloreRecipesOverlay.java:77-118 | The guard chain resolves an item only when `Hovers` holds of it, and resolves nothing when no item is hovered. `Hovers` means: the last entry is not an interface button and has one of the eight item actions, and its widget is in one of the three groups. The widget must also be an item widget whose container is present and holds the item at slot `param0`. |
| Overlay.TooltipText | src/main/java/com/herblorerecipes/HerbloreRecipesOverlay.java:122-139 | The appended text is the primary label plus `cache("1"+name)` when primary display is on and the name is in the primary set. That is followed by the secondary label plus `cache("2"+name)` when secondary display is on and the name occurs inside some secondary string. Each section is otherwise empty. |
| OverlayProperties.DisabledRendersNothing | src/main/java/com/herblorerecipes/HerbloreRecipesOverlay.java:66-75 | With the menu open, or both displays off, there is no tooltip and the buffer is unchanged. |
| OverlayProperties.OnlyLastEntryMatters | src/main/java/com/herblorerecipes/HerbloreRecipesOverlay.java:77-85 | Entries before the last one never change the outcome. |
| OverlayProperties.InterfaceButtonsRenderNothing | src/main/java/com/herblorerecipes/HerbloreRecipesOverlay.java:80-93 | Each of these gives no tooltip: an empty entry list, an empty target, an option containing "View", or a negative `param0`. |
| OverlayProperties.OtherActionsAndGroupsRenderNothing | src/main/java/com/herblorerecipes/HerbloreRecipesOverlay.java:99-113 | An action outside the eight listed kinds gives no tooltip. So does a widget group other than inventory, bank or bank-inventory. |
| OverlayProperties.MissingItemRendersNothing | src/main/java/com/herblorerecipes/HerbloreRecipesOverlay.java:114-149 | An absent container, or an empty slot at `param0`, gives no tooltip. |
| OverlayProperties.SubmitsIff | src/main/java/com/herblorerecipes/HerbloreRecipesOverlay.java:66-153 | A tooltip is submitted if and only if the menu is closed, some display is on and the cursor is over an item. |
| OverlayProperties.SubmittedText | src/main/java/com/herblorerecipes/HerbloreRecipesOverlay.java:120-144 | The tooltip text has up to two sections, primary first. The primary section is the primary label plus `cache("1"+name)`, included exactly when primary display is on and the name is in the primary set. The secondary section is the secondary label plus `cache("2"+name)`, included exactly when secondary display is on and the name occurs in some secondary string. The buffer is empty afterwards. |
| OverlayProperties.NonIngredientGetsEmptyTooltip | src/main/java/com/herblorerecipes/HerbloreRecipesOverlay.java:144 | A resolved item that is not an ingredient still gets a tooltip, and its text is empty. |
| OverlayProperties.TooltipTextEmptyIff | src/main/java/com/herblorerecipes/HerbloreRecipesOverlay.java:122-139 | The appended text is empty exactly when neither section is included. |
| OverlayProperties.PrimaryBeforeSecondary | src/main/java/com/herblorerecipes/HerbloreRecipesOverlay.java:122-139 | The text with both displays on is the primary-only text followed by the secondary-only text. |
| OverlayProperties.SubmissionIgnoresWhichDisplay | src/main/java/com/herblorerecipes/HerbloreRecipesOverlay.java:71-144 | Whether a tooltip is submitted depends only on at least one display being on. Which display is on does not matter. |
| OverlayProperties.SecondaryMatchIsDirectional | src/main/java/com/herblorerecipes/HerbloreRecipesOverlay.java:131 | A name longer than every secondary string never matches, even when it contains one of them. |
| OverlayProperties.ItemWidgetsPassGroupTest | src/main/java/com/herblorerecipes/HerbloreRecipesOverlay.java:109-114 | When the widget constants lie in their own groups, every widget that has a container passes the group test. |
| OverlayProperties.FramesDoNotLeak | src/main/java/com/herblorerecipes/HerbloreRecipesOverlay.java:173-177 | Over successive frames starting from an empty buffer, the buffer is empty after every frame. Each frame's tooltip is the one that frame would produce on its own. |

## Left out

- Guava `LoadingCache`, its size bound and its 30-minute access expiry: this is library behaviour tied to the wall clock. The cached text is a total function of the key (`CacheText`).
- The cache loader's `ExecutionException`, rethrown as a `RuntimeException` (lines 127-128 and 136-137): not modelled; the exception would propagate out of `render`. If it were thrown, the label already appended would stay in the buffer.
- `HerbloreRecipesCacheLoader`, `Potion` and `HerbloreRecipesConfig` are not part of this model. Their data are parameters: the primary set, the secondary strings, the cache text and the two flags.
- RuneLite host API. `Client.isMenuOpen`, `getMenuEntries` and `getItemContainer` become fields of `Host`. So do `MenuAction.of`, `WidgetInfo.TO_GROUP` and `ItemManager.getItemComposition(..).getName()`, as functions. The widget group and packed-id constants are the `WidgetIds` parameter. `MenuAction.of` is assumed to map every code to some kind.
- `TooltipManager.add`: the submitted tooltip is returned as `RenderOutcome.tooltip` instead.
- AWT. `render` always returns `null`, and `Graphics2D` is unused. `Color` and `ColorUtil.wrapWithColorTag` are left out: the labels are constants written in RuneLite's colour-tag form, and no property depends on their content except that they are non-empty.
- The dependency-injection constructor and overlay positioning.
- Strings.Contains: works on sequences of Unicode characters, while Java's `String.contains` works on UTF-16 code units; for well-formed text, containment and emptiness agree.
- 32-bit integers: widget ids and slots are only compared, never computed with, so `int` stands for Java's `int` without wrap-around.

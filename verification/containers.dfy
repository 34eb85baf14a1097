/** Item containers and the widgets that display them. */
module Containers {
  import opened Options

  /** A live item container: the item id held in each occupied slot. A slot
      that is out of range or empty is simply not a key. */
  type Container = map<int, int>

  /** The two containers the overlay can read from the host. */
  datatype InventoryId = Inventory | Bank

  /** The host's widget constants the overlay compares against: three
      interface group ids and the packed ids of the three item widgets. */
  datatype WidgetIds = WidgetIds(
    inventoryGroup: int,
    bankGroup: int,
    bankInventoryGroup: int,
    inventoryItems: int,
    bankItems: int,
    bankInventoryItems: int)
  {
    /** The groups whose items the overlay annotates. */
    predicate IsItemGroup(group: int)
    {
      group == inventoryGroup || group == bankGroup || group == bankInventoryGroup
    }

    /** Each packed item-widget id lies in its own group under the host's
        widget-id-to-group function. */
    ghost predicate Consistent(groupOf: int -> int)
    {
      && groupOf(inventoryItems) == inventoryGroup
      && groupOf(bankItems) == bankGroup
      && groupOf(bankInventoryItems) == bankInventoryGroup
    }
  }

  /** Which container backs the widget with packed id `widgetId`. The
      inventory widget and the bank's copy of the inventory both show the
      player's inventory; the bank item widget shows the bank; no other
      widget has a container. The inventory test is made first. */
  function ContainerOf(w: WidgetIds, widgetId: int): (r: Option<InventoryId>)
    ensures r == Some(Inventory) <==>
              widgetId == w.inventoryItems || widgetId == w.bankInventoryItems
    ensures r == Some(Bank) <==>
              widgetId == w.bankItems
              && widgetId != w.inventoryItems && widgetId != w.bankInventoryItems
    ensures r.None? <==>
              widgetId !in {w.inventoryItems, w.bankInventoryItems, w.bankItems}
  {
    if widgetId == w.inventoryItems || widgetId == w.bankInventoryItems then
      Some(Inventory)
    else if widgetId == w.bankItems then
      Some(Bank)
    else
      None
  }

  /** The container for a widget, given what the host currently holds for
      the inventory and the bank (either may be absent, for instance the bank
      while it has never been opened). */
  function GetContainer(w: WidgetIds, widgetId: int,
                        inventory: Option<Container>,
                        bank: Option<Container>): (r: Option<Container>)
    ensures r.Some? ==> ContainerOf(w, widgetId).Some?
    ensures ContainerOf(w, widgetId) == Some(Inventory) ==> r == inventory
    ensures ContainerOf(w, widgetId) == Some(Bank) ==> r == bank
  {
    match ContainerOf(w, widgetId)
    case None => None
    case Some(Inventory) => inventory
    case Some(Bank) => bank
  }

  /** The item in `slot` of container `c`, absent when the slot holds none. */
  function GetItem(c: Container, slot: int): (r: Option<int>)
    ensures r.Some? <==> slot in c
    ensures r.Some? ==> r.value == c[slot]
  {
    if slot in c then Some(c[slot]) else None
  }
}

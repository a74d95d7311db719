/** The `Home` page component: the remote `inventory` collection it writes
    to and the `inventory` list it keeps and renders. Each operation runs to
    completion before the next one starts. */
module Page {
  import opened Inventory

  class Home {
    /** The remote `inventory` collection. */
    var store: Store
    /** The `inventory` state: the list last read back from the collection. */
    var inventory: seq<Item>

    /** The page before its first refresh: the collection as it stands, and
        an empty list. */
    constructor (remote: Store)
      ensures store == remote && inventory == []
    {
      store := remote;
      inventory := [];
    }

    /** `updateInventory`: scans the collection and replaces the list with
        one record per document, in the order the scan yields them. */
    method UpdateInventory()
      modifies this`inventory
      ensures Lists(inventory, store)
    {
      var inventoryList: seq<Item> := [];
      var pending := store.Keys;
      while pending != {}
        invariant pending <= store.Keys
        invariant DistinctNames(inventoryList)
        invariant forall i :: 0 <= i < |inventoryList| ==>
          inventoryList[i].name in store && inventoryList[i].name !in pending
          && store[inventoryList[i].name] == inventoryList[i].quantity
        invariant forall k :: k in store && k !in pending ==> Item(k, store[k]) in inventoryList
        decreases pending
      {
        var id :| id in pending;
        inventoryList := inventoryList + [Item(id, store[id])];
        pending := pending - {id};
      }
      inventory := inventoryList;
    }

    /** `addItem`: one more unit of `item`, then a refresh. */
    method AddItem(item: string)
      modifies this
      ensures store == Added(old(store), item)
      ensures Lists(inventory, store)
      ensures Item(item, if item in old(store) then old(store[item]) + 1 else 1) in inventory
    {
      if item in store {
        var quantity := store[item];
        store := store[item := quantity + 1];
      } else {
        store := store[item := 1];
      }
      UpdateInventory();
    }

    /** `removeItem`: one unit fewer of `item` (the record goes when its last
        unit does), then a refresh. */
    method RemoveItem(item: string)
      modifies this
      ensures store == Removed(old(store), item)
      ensures Lists(inventory, store)
      ensures old(item in store && store[item] == 1) ==>
        forall i :: 0 <= i < |inventory| ==> inventory[i].name != item
      ensures old(item in store && store[item] != 1) ==> Item(item, old(store[item]) - 1) in inventory
    {
      if item in store {
        var quantity := store[item];
        if quantity == 1 {
          store := store - {item};
        } else {
          store := store[item := quantity - 1];
        }
      }
      UpdateInventory();
    }
  }

  /** From an empty collection: add "apple" twice, remove it twice. */
  method AppleScenario()
  {
    var home := new Home(map[]);
    home.UpdateInventory();
    ListsSize(home.inventory, home.store);
    assert home.inventory == [];
    home.AddItem("apple");
    ListsSingleton(home.inventory, "apple", 1);
    assert home.inventory == [Item("apple", 1)];
    home.AddItem("apple");
    ListsSingleton(home.inventory, "apple", 2);
    assert home.inventory == [Item("apple", 2)];
    home.RemoveItem("apple");
    ListsSingleton(home.inventory, "apple", 1);
    assert home.inventory == [Item("apple", 1)];
    home.RemoveItem("apple");
    assert home.store == map[];
    ListsSize(home.inventory, home.store);
    assert home.inventory == [];
  }
}

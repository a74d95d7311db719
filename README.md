# Pantry Tracker inventory model

A Dafny model of the logic of the Pantry Tracker page (`app/page.js`). The page
keeps its items in a remote document collection named `inventory`. Each
document id is an item name, and each document body holds a `quantity`. The
page offers three things:

- an Add button, which creates an item with quantity 1 or adds one unit to it;
- a Remove button, which takes one unit away and deletes the record when the
  last unit goes;
- a search box, which shows only the items whose name contains the search
  term, ignoring case.

After every change the page reads the whole collection again and rebuilds its
list.

The model has three modules:

- `Inventory` (`inventory.dfy`) holds the data model: an `Item` record, and the
  collection as a `Store = map<string, int>` from document id to quantity.
  `Added` and `Removed` are the update rules of the two buttons, with their
  frame and invariant properties. `Lists(inv, s)` says that `inv` is a listing
  of the collection `s`. Lemmas relate these definitions.
- `Page` (`page.dfy`) holds the class `Home`. It has the collection as a `store`
  field and the rendered list as an `inventory` field. Its methods
  `UpdateInventory`, `AddItem` and `RemoveItem` change those fields in place, as
  the page does. `AppleScenario` runs the add, add, remove, remove sequence on
  "apple", starting from an empty collection, and asserts the list after each
  step.
- `Search` (`search.dfy`) holds the search filter and the card title. `Lower`
  is lower-casing. `Includes` is `String.prototype.includes`. `Filter` is the
  `filter` call at line 153, and `Capitalize` is the title expression at line
  159.

The collection scan returns documents in an order that the store decides.
`UpdateInventory` therefore takes the next document id by nondeterministic
choice (`:|`). Its contract holds for every scan order.

## Model

| member | source | states |
|---|---|---|
| Inventory.Added | app/page.js:31-41 | After addItem(n), n is present. Its quantity is the old quantity plus one, or 1 if n was new. Every other key and quantity is unchanged. If every stored quantity was at least 1 before, every one still is. |
| Inventory.Removed | app/page.js:46-58 | After removeItem(n): an absent n leaves the store unchanged; quantity 1 deletes n; any other quantity q leaves n with q-1. Every other key and quantity is unchanged. The store invariant (every quantity at least 1) is preserved. |
| Inventory.AddThenRemove | app/page.js:31-61 | Adding one unit of n and then removing one restores the original store exactly. This holds whenever n is absent or holds a non-zero quantity, so it holds in every store that keeps the invariant. |
| Inventory.RemoveThenAdd | app/page.js:31-58 | Removing one unit of a present item and then adding one restores the original store, including when the remove deleted the record. |
| Inventory.ListsSize | app/page.js:20-26 | A list rebuilt from the collection has exactly one record per stored document. |
| Inventory.ListsPositive | app/page.js:20-26 | If the store keeps its invariant, every record in the rebuilt list has quantity at least 1, so no zero-quantity record is ever shown. |
| Inventory.ListsSingleton | app/page.js:20-26 | The only listing of a one-document collection is that document's record. |
| Page.Home.constructor | app/page.js:12 | The page starts with an empty list over the collection as it stands. |
| Page.Home.UpdateInventory | app/page.js:17-27 | The new list holds one record {name: document id, quantity} per document, with no name twice, in any scan order. The collection is not changed. |
| Page.Home.AddItem | app/page.js:31-44 | The collection becomes Added(old, item). The refreshed list lists it and contains the item with its new quantity, which is 1 for a new name. |
| Page.Home.RemoveItem | app/page.js:46-61 | The collection becomes Removed(old, item). The refreshed list lists it. An item that had quantity 1 is gone from the list. An item with any other quantity q stays, with q-1. |
| Search.Lower | app/page.js:153 | Lower-casing keeps the length, maps every character through the ASCII case map, and leaves no upper-case ASCII letter. |
| Search.LowerIdempotent | app/page.js:153 | Lower-casing an already lower-cased string changes nothing. |
| Search.IncludesIffOccurs | app/page.js:153 | `includes` is true exactly when the needle occurs in the string at some index k, read as the slice [k, k + length of the needle). Both directions are proved. |
| Search.Filter | app/page.js:153 | The filtered list is no longer than the list. A record is in it exactly when it is in the list and its lower-cased name contains the lower-cased term. |
| Search.FilterSubsequence | app/page.js:153 | The filtered list is a subsequence of the list: same records, same order. |
| Search.FilterConcat | app/page.js:153 | Filtering a concatenation gives the concatenation of the filtered parts. So each record is kept or dropped on its own, in order. |
| Search.FilterEmptyTerm | app/page.js:153 | The empty search term keeps every record, in order. |
| Search.FilterCaseInsensitive | app/page.js:153 | Two search terms that are equal after lower-casing select the same records. |
| Search.RiceExample | app/page.js:153 | The term "ri" shows the item "Rice". |
| Search.BananaExample | app/page.js:153 | With "Banana" and "apple" in the list, the term "an" shows only "Banana". |
| Search.Capitalize | app/page.js:159 | The title has the name's length. Every character after the first is unchanged. The first is not a lower-case ASCII letter. The title lower-cases to the same string as the name. |
| Search.CapitalizeIdempotent | app/page.js:159 | Capitalising a title again leaves it unchanged. |
| Search.MatchesTitle | app/page.js:153-159 | A record matches a search term exactly when its displayed title does. |

## Left out

- Firestore calls (`getDoc`, `setDoc`, `deleteDoc`, `getDocs`, `query`, `collection`, `doc`) are replaced by the `store` map field. Their failures and network behaviour are not modelled. The page has no error handling of its own, so a failed call leaves the list as it was.
- Firestore's rules on document ids are not modelled. Any string is a key, although an empty id or an id containing "/" would be rejected or read as a nested path.
- The order of the collection scan belongs to the store. The model allows every order.
- Async interleaving is not modelled. Concurrent add/remove calls race through their read-modify-write. Each operation is taken as atomic and sequential.
- React state hooks, `useEffect`, the modal handlers, `handleSearch` and `setItemName` are UI wiring. Only the filter expression they feed is modelled.
- All JSX and MUI layout is left out. The edit `IconButton` has no handler and so no behaviour.
- `console.log` at line 28 is left out.
- `app/layout.js` holds fonts, metadata and the HTML shell. It is not part of this model.
- Search.Lower: models `toLowerCase` as the ASCII case map only. Full Unicode case mapping, including mappings that change the length of a string, is not modelled.
- Search.Capitalize: models `toUpperCase` of the first character as the ASCII case map only. It treats a string as a sequence of characters, not of UTF-16 code units.
- Quantities are unbounded integers. JavaScript numbers are doubles and lose precision above 2^53.
- A document body that is not `{quantity: <number>}` is not modelled. In the spread `{name: doc.id, ...doc.data()}`, a `name` field in the body would override the id. The page never writes such a field.

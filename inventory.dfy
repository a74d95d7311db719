/** The remote `inventory` collection of the pantry page, seen as a keyed
    table from item name (the document id) to the `quantity` field of the
    document body, together with the update rules of the Add and Remove
    buttons and the relation between the table and the list the page shows. */
module Inventory {

  /** One record of the rendered list: the document id and its quantity. */
  datatype Item = Item(name: string, quantity: int)

  /** The collection: document id to quantity. */
  type Store = map<string, int>

  /** The data-model invariant: no stored record has a quantity below one. */
  ghost predicate AllPositive(s: Store)
  {
    forall k :: k in s ==> s[k] >= 1
  }

  /** `s` and `t` hold the same keys with the same quantities, except
      possibly at key `n`. */
  ghost predicate AgreeExcept(s: Store, t: Store, n: string)
  {
    forall k :: k != n ==> (k in s <==> k in t) && (k in s ==> s[k] == t[k])
  }

  /** The store after `addItem(n)`: an existing record gains one unit, a
      missing one is created with quantity one. */
  function Added(s: Store, n: string): (r: Store)
    ensures n in r && r[n] == (if n in s then s[n] + 1 else 1)
    ensures AgreeExcept(s, r, n)
    ensures AllPositive(s) ==> AllPositive(r)
  {
    if n in s then s[n := s[n] + 1] else s[n := 1]
  }

  /** The store after `removeItem(n)`: a record with quantity exactly one
      is deleted, any other record loses one unit, a missing key is left
      alone. */
  function Removed(s: Store, n: string): (r: Store)
    ensures n !in s ==> r == s
    ensures n in s && s[n] == 1 ==> n !in r
    ensures n in s && s[n] != 1 ==> n in r && r[n] == s[n] - 1
    ensures AgreeExcept(s, r, n)
    ensures AllPositive(s) ==> AllPositive(r)
  {
    if n !in s then s
    else if s[n] == 1 then s - {n}
    else s[n := s[n] - 1]
  }

  /** Adding one unit and then removing one unit gives back the original
      store, as long as the key does not hold quantity zero (which a store
      satisfying AllPositive never does). */
  lemma AddThenRemove(s: Store, n: string)
    requires n in s ==> s[n] != 0
    ensures Removed(Added(s, n), n) == s
  {
    if n !in s {
      assert Added(s, n) - {n} == s;
    }
  }

  /** Removing one unit of a present item and adding it back gives back the
      original store, whatever the quantity was. */
  lemma RemoveThenAdd(s: Store, n: string)
    requires n in s
    ensures Added(Removed(s, n), n) == s
  {
    if s[n] == 1 {
      assert (s - {n})[n := 1] == s;
    }
  }

  /** No two records of a list carry the same name. */
  ghost predicate DistinctNames(inv: seq<Item>)
  {
    forall i, j :: 0 <= i < j < |inv| ==> inv[i].name != inv[j].name
  }

  /** `inv` is a listing of the collection `s`: one record per document, in
      some order, each carrying the document's id and quantity. */
  ghost predicate Lists(inv: seq<Item>, s: Store)
  {
    && DistinctNames(inv)
    && (forall i :: 0 <= i < |inv| ==> inv[i].name in s && s[inv[i].name] == inv[i].quantity)
    && (forall k :: k in s ==> Item(k, s[k]) in inv)
  }

  /** A listing has exactly one record per stored document. */
  lemma {:induction false} ListsSize(inv: seq<Item>, s: Store)
    requires Lists(inv, s)
    ensures |inv| == |s|
  {
    if inv == [] {
      assert s.Keys == {};
    } else {
      var k := inv[0].name;
      var rest := s - {k};
      forall i | 0 <= i < |inv[1..]|
        ensures inv[1..][i].name in rest && rest[inv[1..][i].name] == inv[1..][i].quantity
      {
        assert inv[1..][i] == inv[i + 1];
      }
      forall j | j in rest ensures Item(j, rest[j]) in inv[1..] {
        assert Item(j, s[j]) in inv;
        var i :| 0 <= i < |inv| && inv[i] == Item(j, s[j]);
        assert i != 0;
        assert inv[1..][i - 1] == inv[i];
      }
      ListsSize(inv[1..], rest);
      assert rest.Keys == s.Keys - {k};
    }
  }

  /** Every record of a listing of a store satisfying AllPositive has a
      quantity of at least one: no zero-quantity record is ever shown. */
  lemma ListsPositive(inv: seq<Item>, s: Store)
    requires Lists(inv, s) && AllPositive(s)
    ensures forall i :: 0 <= i < |inv| ==> inv[i].quantity >= 1
  {
  }

  /** The only listing of a one-document store is that document's record. */
  lemma ListsSingleton(inv: seq<Item>, k: string, q: int)
    requires Lists(inv, map[k := q])
    ensures inv == [Item(k, q)]
  {
    ListsSize(inv, map[k := q]);
    assert Item(k, q) in inv;
  }
}

/**
 * The inventory payload and `parse_inventory_data`: the decoded JSON of a
 * 200 response, and the items kept for valuation.
 */
module Inventory {
  import opened Wrappers
  import opened Text

  /**
   * `totalCashPriceToday` of an item, in cents: absent (read as 0), a number,
   * or a value `float()` cannot read, which makes the valuation raise.
   */
  datatype Price = Absent | Cents(amount: int) | Malformed

  /** One entry of `data.inventory`; an absent key is `None`. */
  datatype Item = Item(category: Option<string>, name: Option<string>, price: Price, imgURL: Option<string>)

  /** The `data` object: its `isWaiting` flag (absent reads as false) and its `inventory` list (absent reads as []). */
  datatype Data = Data(isWaiting: bool, inventory: seq<Item>)

  /**
   * The decoded top-level object: its `success` key, its `data` key, and
   * whether it holds any other key (which matters only to its truth value).
   */
  datatype Body = Body(success: Option<bool>, data: Option<Data>, otherKeys: bool)

  /** Python's truth value of the decoded object: false only for `{}`. */
  predicate Truthy(body: Body) {
    body.success.Some? || body.data.Some? || body.otherKeys
  }

  /** `inventory_data.get("data", {}).get("inventory", [])`. */
  function InventoryOf(body: Body): seq<Item> {
    match body.data
    case None => []
    case Some(d) => d.inventory
  }

  /** The comprehension's condition: not a `Container`, and the lower-cased name (default `''`) not excluded. */
  predicate Kept(item: Item, excluded: seq<string>) {
    item.category.GetOr("") != "Container" && Lower(item.name.GetOr("")) !in excluded
  }

  /** The list comprehension of lines 90-94. */
  function FilterItems(items: seq<Item>, excluded: seq<string>): seq<Item> {
    if items == [] then []
    else
      var last := items[|items| - 1];
      FilterItems(items[..|items| - 1], excluded) + (if Kept(last, excluded) then [last] else [])
  }

  /** The positions of `items` that the comprehension keeps, in increasing order. */
  function KeptIndices(items: seq<Item>, excluded: seq<string>): seq<nat> {
    if items == [] then []
    else
      KeptIndices(items[..|items| - 1], excluded) + (if Kept(items[|items| - 1], excluded) then [|items| - 1] else [])
  }

  /** `r` is the subsequence of `s` at the strictly increasing positions `idx`. */
  ghost predicate SubsequenceAt(r: seq<Item>, s: seq<Item>, idx: seq<nat>) {
    && |idx| == |r|
    && (forall k :: 0 <= k < |idx| ==> idx[k] < |s| && s[idx[k]] == r[k])
    && (forall k, l :: 0 <= k < l < |idx| ==> idx[k] < idx[l])
  }

  /**
   * The filtered list is the order-preserving subsequence of the inventory at
   * exactly the positions whose item passes the condition.
   */
  lemma {:induction false} FilterIsKeptSubsequence(items: seq<Item>, excluded: seq<string>)
    ensures SubsequenceAt(FilterItems(items, excluded), items, KeptIndices(items, excluded))
    ensures forall i :: 0 <= i < |items| ==> (Kept(items[i], excluded) <==> i in KeptIndices(items, excluded))
  {
    if items != [] {
      var init := items[..|items| - 1];
      FilterIsKeptSubsequence(init, excluded);
      var idx := KeptIndices(init, excluded);
      assert forall k :: 0 <= k < |idx| ==> idx[k] < |init|;
      forall i | 0 <= i < |init|
        ensures Kept(items[i], excluded) <==> i in KeptIndices(items, excluded)
      {
        assert items[i] == init[i];
      }
    }
  }

  /** An item is in the filtered list exactly when it is in the inventory and passes the condition. */
  lemma FilterMembership(items: seq<Item>, excluded: seq<string>, x: Item)
    ensures x in FilterItems(items, excluded) <==> x in items && Kept(x, excluded)
  {
    FilterIsKeptSubsequence(items, excluded);
    var r, idx := FilterItems(items, excluded), KeptIndices(items, excluded);
    if x in items && Kept(x, excluded) {
      var i :| 0 <= i < |items| && items[i] == x;
      var k :| 0 <= k < |idx| && idx[k] == i;
      assert r[k] == x;
    }
    if x in r {
      var k :| 0 <= k < |r| && r[k] == x;
      assert items[idx[k]] == x;
    }
  }

  lemma FilterMembershipAll(items: seq<Item>, excluded: seq<string>)
    ensures forall x :: x in FilterItems(items, excluded) <==> x in items && Kept(x, excluded)
  {
    forall x {
      FilterMembership(items, excluded, x);
    }
  }

  /**
   * `parse_inventory_data`: `None` for a falsy payload, and otherwise the
   * filtered inventory (the `"items"` value of the returned dict), which holds
   * exactly the inventory's items that pass the condition.
   */
  function ParseInventory(body: Body, excluded: seq<string>): (r: Option<seq<Item>>)
    ensures r.None? <==> !Truthy(body)
    ensures r.Some? ==> forall x :: x in r.value <==> x in InventoryOf(body) && Kept(x, excluded)
  {
    if !Truthy(body) then None
    else
      FilterMembershipAll(InventoryOf(body), excluded);
      Some(FilterItems(InventoryOf(body), excluded))
  }
}

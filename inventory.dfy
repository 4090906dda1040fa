/**
 * The inventory page of src/app/inventory/page.tsx: the add-item form, the append with
 * a numbered id, the stock-status badge and the paginated table. The list starts as the
 * (empty) `inventory` of src/lib/data.ts.
 */
module Inventory {
  import opened Wrappers
  import opened Text
  import opened Types
  import Pagination

  /** The badge: `In Stock` above the threshold, `Low` at or below it. */
  datatype StockStatus = InStock | Low

  function Status(item: InventoryItem): (s: StockStatus)
    ensures s == InStock <==> item.inStock > item.lowThreshold
  {
    if item.inStock > item.lowThreshold then InStock else Low
  }

  /** Adding stock never turns an `In Stock` item `Low`; equality with the threshold is `Low`. */
  lemma StatusMonotone(item: InventoryItem, more: int)
    requires 0 <= more
    ensures Status(item) == InStock ==> Status(item.(inStock := item.inStock + more)) == InStock
    ensures Status(item.(inStock := item.lowThreshold)) == Low
  {
  }

  /** What the form holds (`inStock` and `lowThreshold` already coerced to numbers). */
  datatype ItemFormValues = ItemFormValues(
    name: string,
    category: string,
    inStock: int,
    unit: string,
    lowThreshold: int)

  /** The values once the schema accepted them. */
  datatype ItemDraft = ItemDraft(name: string, category: ItemCategory, inStock: nat, unit: StockUnit, lowThreshold: nat)

  /**
   * `formSchema`: a name of at least two characters, one of the four categories and units,
   * and a stock level and threshold that are not negative. The first failing field gives the message.
   */
  function ValidateItemForm(v: ItemFormValues): (r: Result<ItemDraft>)
    ensures r.Ok? <==>
      && JsLength(v.name) >= 2 && v.inStock >= 0 && v.lowThreshold >= 0
      && v.category in {"Ice Cream", "Toppings", "Cones", "Supplies"}
      && v.unit in {"Tubs", "Bags", "Boxes", "Units"}
    ensures r.Ok? ==> (r.value.name == v.name && r.value.inStock == v.inStock && r.value.lowThreshold == v.lowThreshold
      && ItemCategoryName(r.value.category) == v.category && UnitName(r.value.unit) == v.unit)
    ensures v.inStock < 0 && JsLength(v.name) >= 2 && ParseItemCategory(v.category).Some? ==> r == Err("Stock can't be negative.")
  {
    if JsLength(v.name) < 2 then Err("Item name must be at least 2 characters.")
    else match ParseItemCategory(v.category)
      case None => Err("Invalid enum value")
      case Some(c) =>
        if v.inStock < 0 then Err("Stock can't be negative.")
        else match ParseUnit(v.unit)
          case None => Err("Invalid enum value")
          case Some(u) =>
            if v.lowThreshold < 0 then Err("Threshold can't be negative.")
            else Ok(ItemDraft(v.name, c, v.inStock, u, v.lowThreshold))
  }

  /** The form's default values (with a name filled in) pass it. */
  lemma DefaultsAccepted(name: string)
    requires JsLength(name) >= 2
    ensures ValidateItemForm(ItemFormValues(name, "Ice Cream", 0, "Tubs", 10))
      == Ok(ItemDraft(name, IceCream, 0, Tubs, 10))
  {
  }

  /** `[...current, { id: `inv-${length + 1}`, ...values }]`. */
  function Appended(items: seq<InventoryItem>, d: ItemDraft): (r: seq<InventoryItem>)
    ensures |r| == |items| + 1 && r[..|items|] == items
    ensures r[|items|] == InventoryItem(NumberedId("inv-", |items| + 1), d.name, d.category, d.inStock, d.unit, d.lowThreshold)
  {
    items + [InventoryItem(NumberedId("inv-", |items| + 1), d.name, d.category, d.inStock, d.unit, d.lowThreshold)]
  }

  /** The list after adding `drafts` one after another. */
  function AddAll(items: seq<InventoryItem>, drafts: seq<ItemDraft>): seq<InventoryItem>
    decreases |drafts|
  {
    if drafts == [] then items else AddAll(Appended(items, drafts[0]), drafts[1..])
  }

  /** The ids are `inv-1`, `inv-2`, ... in list order. */
  ghost predicate NumberedInOrder(items: seq<InventoryItem>)
  {
    forall i :: 0 <= i < |items| ==> items[i].id == NumberedId("inv-", i + 1)
  }

  lemma {:induction false} AddAllNumbers(items: seq<InventoryItem>, drafts: seq<ItemDraft>)
    requires NumberedInOrder(items)
    ensures |AddAll(items, drafts)| == |items| + |drafts|
    ensures NumberedInOrder(AddAll(items, drafts))
    decreases |drafts|
  {
    if drafts != [] {
      AddAllNumbers(Appended(items, drafts[0]), drafts[1..]);
    }
  }

  /** From the empty initial list, `k` adds give the ids `inv-1` .. `inv-k`, no two alike. */
  lemma AddsFromEmpty(drafts: seq<ItemDraft>)
    ensures var items := AddAll([], drafts);
      && |items| == |drafts|
      && (forall i :: 0 <= i < |items| ==> items[i].id == NumberedId("inv-", i + 1))
      && (forall i, j :: 0 <= i < j < |items| ==> items[i].id != items[j].id)
  {
    AddAllNumbers([], drafts);
    var items := AddAll([], drafts);
    forall i, j | 0 <= i < j < |items| ensures items[i].id != items[j].id {
      NumberedIdInjective("inv-", i + 1, j + 1);
    }
  }

  class InventoryPage {
    var inventory: seq<InventoryItem>
    var addDialogOpen: bool
    var currentPage: int

    ghost predicate Valid()
      reads this
    {
      Pagination.InRange(currentPage, |inventory|)
    }

    constructor ()
      ensures Valid()
      ensures inventory == [] && !addDialogOpen && currentPage == 1
    {
      inventory := [];
      addDialogOpen := false;
      currentPage := 1;
    }

    /** `onSubmit`: one item appended, the dialog closed. */
    method Add(d: ItemDraft)
      requires Valid()
      modifies this
      ensures Valid()
      ensures inventory == Appended(old(inventory), d)
      ensures !addDialogOpen && currentPage == old(currentPage)
    {
      Pagination.GrowingKeepsInRange(currentPage, |inventory|, |inventory| + 1);
      inventory := Appended(inventory, d);
      addDialogOpen := false;
    }

    /** `paginatedInventory`: positions `[(page-1)*5, page*5)` of the list, in list order. */
    function PaginatedInventory(): (r: seq<InventoryItem>)
      reads this
      ensures |r| <= Pagination.ItemsPerPage
      ensures 1 <= currentPage ==> var start := (currentPage - 1) * Pagination.ItemsPerPage;
        |r| == if start >= |inventory| then 0 else if |inventory| - start < Pagination.ItemsPerPage then |inventory| - start else Pagination.ItemsPerPage
      ensures 1 <= currentPage ==> forall k :: 0 <= k < |r| ==>
        (currentPage - 1) * Pagination.ItemsPerPage + k < |inventory| &&
        r[k] == inventory[(currentPage - 1) * Pagination.ItemsPerPage + k]
    {
      Pagination.PageSliceBounded(inventory, currentPage);
      if 1 <= currentPage then
        Pagination.PageSliceAt(inventory, currentPage);
        Pagination.PageSlice(inventory, currentPage)
      else
        Pagination.PageSlice(inventory, currentPage)
    }

    method PreviousPage()
      requires Valid()
      modifies this
      ensures Valid()
      ensures currentPage == Pagination.Previous(old(currentPage))
      ensures inventory == old(inventory) && addDialogOpen == old(addDialogOpen)
    {
      Pagination.StepsStayInRange(currentPage, |inventory|);
      currentPage := Pagination.Previous(currentPage);
    }

    method NextPage()
      requires Valid()
      modifies this
      ensures Valid()
      ensures currentPage == Pagination.Next(old(currentPage), |inventory|)
      ensures inventory == old(inventory) && addDialogOpen == old(addDialogOpen)
    {
      Pagination.StepsStayInRange(currentPage, |inventory|);
      currentPage := Pagination.Next(currentPage, |inventory|);
    }
  }
}

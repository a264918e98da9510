/** The to-do list of the Angular application (challenge-3): items with a
    title and a `complete` flag, a three-valued filter, the static list
    operations of `TodoController`, and the caller's array of items, which
    `addItem` grows in place. */
module AngularTodo {

  import opened Lists
  import opened Optional

  /** A to-do item; `complete` means it has been checked off. */
  datatype Item = Item(title: string, complete: bool)

  /** `new Item(title)`: a new item is never complete. */
  function NewItem(title: string): (item: Item)
    ensures item.title == title && !item.complete
  {
    Item(title, false)
  }

  /** The filter values, each with the string the controller hands out for it
      (`getAllFilterValue`, `getActiveFilterValue`, `getCompleteFilterValue`). */
  datatype FilterValue = All | Active | Complete
  {
    function Value(): string
    {
      match this
      case All => "all"
      case Active => "active"
      case Complete => "complete"
    }
  }

  /** Looking a string up among the filter values: only the three strings
      of the enum name a filter. */
  function FilterFromValue(value: string): (f: Option<FilterValue>)
    ensures f.Some? ==> f.value.Value() == value
  {
    if value == "all" then Some(All)
    else if value == "active" then Some(Active)
    else if value == "complete" then Some(Complete)
    else None
  }

  /** Every filter value is found again from its string. */
  lemma FilterValueRoundTrip(f: FilterValue)
    ensures FilterFromValue(f.Value()) == Some(f)
  {
  }

  /** `filterFunctions.get(f)`: the item predicate each filter stands for. */
  function Predicate(f: FilterValue): (p: Item -> bool)
    ensures f == All ==> forall item: Item :: p(item)
    ensures f == Active ==> forall item: Item :: p(item) == !item.complete
    ensures f == Complete ==> forall item: Item :: p(item) == item.complete
  {
    match f
    case All => (item: Item) => true
    case Active => (item: Item) => !item.complete
    case Complete => (item: Item) => item.complete
  }

  /** The positions of `items` that the filter `f` lets through. */
  function Shown(items: seq<Item>, f: FilterValue): seq<nat>
  {
    Positions(Predicate(f), items)
  }

  /** `TodoController.getActiveItems`: exactly the items that are not
      complete, as an order-preserving subsequence of `items`. */
  function ActiveItems(items: seq<Item>): (r: seq<Item>)
    ensures PicksOut(r, items, Shown(items, Active))
    ensures forall i :: 0 <= i < |items| ==> (i in Shown(items, Active) <==> !items[i].complete)
  {
    FilterIsSubsequence(Predicate(Active), items);
    Filter(Predicate(Active), items)
  }

  /** `TodoController.getCompleteItems`: exactly the complete items, as an
      order-preserving subsequence of `items`. */
  function CompleteItems(items: seq<Item>): (r: seq<Item>)
    ensures PicksOut(r, items, Shown(items, Complete))
    ensures forall i :: 0 <= i < |items| ==> (i in Shown(items, Complete) <==> items[i].complete)
  {
    FilterIsSubsequence(Predicate(Complete), items);
    Filter(Predicate(Complete), items)
  }

  /** `TodoController.getFilteredItems`: every item under `All`; under
      `Active` and `Complete` the same list as `getActiveItems` and
      `getCompleteItems`. */
  function FilteredItems(items: seq<Item>, filter: FilterValue): (r: seq<Item>)
    ensures filter == All ==> r == items
    ensures filter == Active ==> r == ActiveItems(items)
    ensures filter == Complete ==> r == CompleteItems(items)
  {
    if filter == All then
      FilterKeepsAll(Predicate(All), items);
      Filter(Predicate(filter), items)
    else
      Filter(Predicate(filter), items)
  }

  /** The active and the complete items partition the list: each position is
      in exactly one of them, their lengths add up to the list's, and
      together they hold every item as often as the list does. */
  lemma ActiveCompletePartition(items: seq<Item>)
    ensures forall i :: 0 <= i < |items| ==> (i in Shown(items, Active) <==> i !in Shown(items, Complete))
    ensures |ActiveItems(items)| + |CompleteItems(items)| == |items|
    ensures multiset(ActiveItems(items)) + multiset(CompleteItems(items)) == multiset(items)
  {
    var active, complete := ActiveItems(items), CompleteItems(items);
    FilterComplement(Predicate(Active), Predicate(Complete), items);
  }

  /** The list after `addItem(itemToAdd, items)`: unchanged for an empty
      title, otherwise with a new item at the end. */
  function AddedItem(items: seq<Item>, itemToAdd: string): (r: seq<Item>)
    ensures itemToAdd == "" ==> r == items
    ensures itemToAdd != "" ==> |r| == |items| + 1 && r[..|items|] == items
    ensures itemToAdd != "" ==> r[|items|] == Item(itemToAdd, false)
  {
    if itemToAdd == "" then items else items + [NewItem(itemToAdd)]
  }

  /** Adding an item with a title puts it at the end of the active items and
      leaves the complete items as they were; an empty title changes
      neither. */
  lemma AddItemViews(items: seq<Item>, itemToAdd: string)
    ensures itemToAdd != "" ==> ActiveItems(AddedItem(items, itemToAdd)) == ActiveItems(items) + [NewItem(itemToAdd)]
    ensures itemToAdd == "" ==> ActiveItems(AddedItem(items, itemToAdd)) == ActiveItems(items)
    ensures CompleteItems(AddedItem(items, itemToAdd)) == CompleteItems(items)
  {
    if itemToAdd != "" {
      FilterAppend(Predicate(Active), items, [NewItem(itemToAdd)]);
      FilterAppend(Predicate(Complete), items, [NewItem(itemToAdd)]);
    }
  }

  /** A JavaScript array of items, owned by the caller and grown in place. */
  class ItemArray {
    var elements: seq<Item>

    constructor (elements: seq<Item>)
      ensures this.elements == elements
    {
      this.elements := elements;
    }

    /** `push`: appends one item at the end. */
    method Push(item: Item)
      modifies this
      ensures elements == old(elements) + [item]
    {
      elements := elements + [item];
    }
  }

  /** `TodoController.addItem`: discards an empty title; otherwise pushes a
      new, not complete item with that title onto the caller's array. */
  method AddItem(itemToAdd: string, items: ItemArray)
    modifies items
    ensures items.elements == AddedItem(old(items.elements), itemToAdd)
    ensures itemToAdd == "" ==> items.elements == old(items.elements)
    ensures itemToAdd != "" ==> |items.elements| == |old(items.elements)| + 1
    ensures itemToAdd != "" ==> items.elements[..|old(items.elements)|] == old(items.elements)
    ensures itemToAdd != "" ==> items.elements[|old(items.elements)|] == Item(itemToAdd, false)
  {
    if itemToAdd == "" {
      return;
    }
    items.Push(NewItem(itemToAdd));
  }
}

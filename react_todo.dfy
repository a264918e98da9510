/** The to-do list of the React application (challenge-3-react): items with
    a title and an `active` flag, a three-valued filter, and the `TodoApp`
    component whose state `{items, filter}` the list operations replace. */
module ReactTodo {

  import opened Lists
  import opened Optional

  /** A to-do item; `active` means it has not been checked off, and a newly
      created item is active. */
  datatype Item = Item(title: string, active: bool := true)

  /** The filter values, each with the string the select option carries. */
  datatype FilterValue = All | Active | Complete
  {
    function Value(): string
    {
      match this
      case All => "all"
      case Active => "active"
      case Complete => "complete"
    }
  }

  /** Looking a string up among the filter values: only the three strings
      of the enum name a filter. */
  function FilterFromValue(value: string): (f: Option<FilterValue>)
    ensures f.Some? ==> f.value.Value() == value
  {
    if value == "all" then Some(All)
    else if value == "active" then Some(Active)
    else if value == "complete" then Some(Complete)
    else None
  }

  /** Every filter value is found again from its string. */
  lemma FilterValueRoundTrip(f: FilterValue)
    ensures FilterFromValue(f.Value()) == Some(f)
  {
  }

  /** `filterFunctions.get(f)`: the item predicate each filter stands for. */
  function Predicate(f: FilterValue): (p: Item -> bool)
    ensures f == All ==> forall item: Item :: p(item)
    ensures f == Active ==> forall item: Item :: p(item) == item.active
    ensures f == Complete ==> forall item: Item :: p(item) == !item.active
  {
    match f
    case All => (item: Item) => true
    case Active => (item: Item) => item.active
    case Complete => (item: Item) => !item.active
  }

  /** The positions of `items` that the filter `f` lets through. */
  function Shown(items: seq<Item>, f: FilterValue): seq<nat>
  {
    Positions(Predicate(f), items)
  }

  /** `items.filter(filterFunctions.get(f))`: the view of the list under `f`,
      an order-preserving subsequence holding every item under `All`, exactly
      the active ones under `Active` and exactly the checked-off ones under
      `Complete`. */
  function View(items: seq<Item>, f: FilterValue): (r: seq<Item>)
    ensures PicksOut(r, items, Shown(items, f))
    ensures f == All ==> r == items
    ensures f == Active ==> forall i :: 0 <= i < |items| ==> (i in Shown(items, f) <==> items[i].active)
    ensures f == Complete ==> forall i :: 0 <= i < |items| ==> (i in Shown(items, f) <==> !items[i].active)
  {
    FilterIsSubsequence(Predicate(f), items);
    if f == All then
      FilterKeepsAll(Predicate(f), items);
      Filter(Predicate(f), items)
    else
      Filter(Predicate(f), items)
  }

  /** The active and the complete view partition the list: each position is
      shown by exactly one of them, their lengths add up to the list's, and
      together they hold every item as often as the list does. */
  lemma ViewsPartition(items: seq<Item>)
    ensures forall i :: 0 <= i < |items| ==> (i in Shown(items, Active) <==> i !in Shown(items, Complete))
    ensures |View(items, Active)| + |View(items, Complete)| == |items|
    ensures multiset(View(items, Active)) + multiset(View(items, Complete)) == multiset(items)
  {
    var active, complete := View(items, Active), View(items, Complete);
    FilterComplement(Predicate(Active), Predicate(Complete), items);
  }

  /** The list after `addItem(itemName)`: a new active item at the end. */
  function AddedItem(items: seq<Item>, itemName: string): (r: seq<Item>)
    ensures |r| == |items| + 1 && r[..|items|] == items
    ensures r[|items|] == Item(itemName, true)
  {
    items + [Item(itemName)]
  }

  /** Adding an item puts it at the end of the active view and leaves the
      complete view as it was. */
  lemma AddItemViews(items: seq<Item>, itemName: string)
    ensures View(AddedItem(items, itemName), Active) == View(items, Active) + [Item(itemName)]
    ensures View(AddedItem(items, itemName), Complete) == View(items, Complete)
  {
    FilterAppend(Predicate(Active), items, [Item(itemName)]);
    FilterAppend(Predicate(Complete), items, [Item(itemName)]);
  }

  /** Clearing the completed items leaves exactly the active view, and
      clearing again changes nothing. */
  lemma ClearCompletedIdempotent(items: seq<Item>)
    ensures View(View(items, Active), Active) == View(items, Active)
    ensures View(View(items, Active), Complete) == []
  {
    var cleared := View(items, Active);
    FilterIdempotent(Predicate(Active), items);
    assert forall i :: 0 <= i < |cleared| ==> cleared[i] in cleared;
    FilterDropsAll(Predicate(Complete), cleared);
  }

  /** The list after `toggleActive` on the item at position `i`: every item
      is kept except that one, which is replaced by a copy with the same
      title and the opposite flag. A position outside the list (an item no
      longer in it) matches nothing, and the list is unchanged. */
  function Toggled(items: seq<Item>, i: nat): (r: seq<Item>)
    ensures |r| == |items|
    ensures forall k :: 0 <= k < |items| && k != i ==> r[k] == items[k]
    ensures i < |items| ==> r[i].title == items[i].title && r[i].active == !items[i].active
  {
    seq(|items|, k requires 0 <= k < |items| =>
      if k != i then items[k] else Item(items[k].title, !items[k].active))
  }

  /** Toggling the same item twice restores the list. */
  lemma ToggleTwice(items: seq<Item>, i: nat)
    ensures Toggled(Toggled(items, i), i) == items
  {
  }

  /** Toggling an item moves it from one view to the other: the complete
      view grows by one when an active item is checked off and shrinks by
      one when a checked-off item is reactivated. */
  lemma ToggleMovesBetweenViews(items: seq<Item>, i: nat)
    requires i < |items|
    ensures items[i].active ==> |View(Toggled(items, i), Complete)| == |View(items, Complete)| + 1
    ensures !items[i].active ==> |View(Toggled(items, i), Complete)| + 1 == |View(items, Complete)|
    ensures |View(Toggled(items, i), Active)| + |View(Toggled(items, i), Complete)| == |items|
  {
    var flipped := Item(items[i].title, !items[i].active);
    assert Toggled(items, i) == items[i := flipped];
    FilterUpdateLength(Predicate(Complete), items, i, flipped);
    ViewsPartition(Toggled(items, i));
  }

  /** `TodoList.getActiveClass`: the CSS class of a checked-off item is
      "done", that of an active item is empty. */
  function ActiveClass(item: Item): (c: string)
    ensures c == "done" <==> !item.active
    ensures c == "" <==> item.active
  {
    if !item.active then "done" else ""
  }

  /** The `TodoApp` component's state and the operations that replace it. */
  class TodoApp {
    var items: seq<Item>
    var filter: FilterValue

    /** The initial state: no items, every item shown. */
    constructor ()
      ensures items == [] && filter == All
      ensures !CompleteItemsExist()
    {
      items := [];
      filter := All;
    }

    /** `addItem`: appends a new active item; an empty title is accepted. */
    method AddItem(itemName: string)
      modifies this
      ensures items == AddedItem(old(items), itemName)
      ensures |items| == |old(items)| + 1 && items[..|old(items)|] == old(items)
      ensures items[|items| - 1] == Item(itemName, true)
      ensures filter == old(filter)
    {
      items := items + [Item(itemName)];
    }

    /** `clearCompleted`: keeps only the active items, in their order. */
    method ClearCompleted()
      modifies this
      ensures items == View(old(items), Active)
      ensures forall x :: x in items <==> x in old(items) && x.active
      ensures filter == old(filter)
    {
      items := Filter(Predicate(Active), items);
    }

    /** `getCompleteItems`: the checked-off items, in their order. */
    function CompleteItems(): (r: seq<Item>)
      reads this
      ensures PicksOut(r, items, Shown(items, Complete))
      ensures forall i :: 0 <= i < |items| ==> (i in Shown(items, Complete) <==> !items[i].active)
      ensures forall x :: x in r <==> x in items && !x.active
      ensures |r| + |View(items, Active)| == |items|
    {
      ViewsPartition(items);
      View(items, Complete)
    }

    /** `getFilteredItems`: the items that pass the current filter, which is
      the list the component renders. */
    function FilteredItems(): (r: seq<Item>)
      reads this
      ensures PicksOut(r, items, Shown(items, filter))
      ensures filter == All ==> r == items
      ensures filter == Active ==> forall i :: 0 <= i < |items| ==> (i in Shown(items, filter) <==> items[i].active)
      ensures filter == Complete ==> forall i :: 0 <= i < |items| ==> (i in Shown(items, filter) <==> !items[i].active)
      ensures filter == Active ==> forall x :: x in r <==> x in items && x.active
      ensures filter == Complete ==> forall x :: x in r <==> x in items && !x.active
    {
      View(items, filter)
    }

    /** `completeItemsExist`, which enables the "Clear Complete" button:
      true exactly when some item is checked off. */
    function CompleteItemsExist(): (b: bool)
      reads this
      ensures b <==> exists i :: 0 <= i < |items| && !items[i].active
    {
      var complete := CompleteItems();
      assert |complete| != 0 ==> complete[0] in complete;
      assert forall i :: 0 <= i < |items| ==> items[i] in items;
      |complete| != 0
    }

    /** `setFilter`: changes the filter and nothing else. */
    method SetFilter(f: FilterValue)
      modifies this
      ensures filter == f && items == old(items)
    {
      filter := f;
    }

    /** `toggleActive` on the item at position `i` of the list. */
    method ToggleActive(i: nat)
      modifies this
      ensures items == Toggled(old(items), i)
      ensures filter == old(filter)
    {
      items := Toggled(items, i);
    }
  }
}

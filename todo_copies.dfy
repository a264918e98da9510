/** The two to-do applications keep the same list with opposite flags: a
    React item is `active` exactly when the Angular item is not `complete`.
    Across that translation their filters and their add operations agree,
    except that only the Angular `addItem` discards an empty title. */
module TodoCopies {

  import opened Lists
  import ReactTodo
  import AngularTodo

  /** The Angular item that stands for a React item. */
  function ToAngular(item: ReactTodo.Item): AngularTodo.Item
  {
    AngularTodo.Item(item.title, !item.active)
  }

  /** The Angular filter value with the same string as a React one. */
  function SameFilter(f: ReactTodo.FilterValue): (g: AngularTodo.FilterValue)
    ensures g.Value() == f.Value()
  {
    match f
    case All => AngularTodo.All
    case Active => AngularTodo.Active
    case Complete => AngularTodo.Complete
  }

  /** Filtering the React list and translating the result gives the Angular
      controller's filtered items of the translated list. */
  lemma ViewsAgree(items: seq<ReactTodo.Item>, f: ReactTodo.FilterValue)
    ensures Map(ToAngular, ReactTodo.View(items, f))
         == AngularTodo.FilteredItems(Map(ToAngular, items), SameFilter(f))
  {
    var p, q := AngularTodo.Predicate(SameFilter(f)), ReactTodo.Predicate(f);
    assert forall x :: q(x) == p(ToAngular(x));
    FilterMap(p, q, ToAngular, items);
  }

  /** With a non-empty title both `addItem`s append the same new item. */
  lemma AddItemAgrees(items: seq<ReactTodo.Item>, title: string)
    requires title != ""
    ensures Map(ToAngular, ReactTodo.AddedItem(items, title))
         == AngularTodo.AddedItem(Map(ToAngular, items), title)
  {
  }

  /** With an empty title the two differ: the React list grows by an item
      with the empty title, the Angular list stays as it was. */
  lemma AddEmptyTitleDiffers(items: seq<ReactTodo.Item>)
    ensures |ReactTodo.AddedItem(items, "")| == |items| + 1
    ensures ReactTodo.AddedItem(items, "")[|items|] == ReactTodo.Item("", true)
    ensures AngularTodo.AddedItem(Map(ToAngular, items), "") == Map(ToAngular, items)
  {
  }
}

# To-do list logic of the LogoJoyTest exercises

The repository holds two independent to-do list applications, one built with
React (`challenge-3-react`) and one with AngularJS (`challenge-3`). Both keep an
in-memory list of items, each with a title and a boolean flag. Both filter the
list by a three-valued filter: all, active or complete. This project models that
list logic in Dafny and proves what each operation promises.

- `lists.dfy` (module `Lists`) models JavaScript's `Array.prototype.filter`,
  which both copies use. `Filter` is proved to return the order-preserving
  subsequence of the elements that pass. `Positions` gives the ascending
  positions they come from, and `PicksOut` states the correspondence. The
  module also has `Map`, an element-wise mapping over a list. No source `map`
  call is modelled with it: `TodoCopies` uses it to translate items from one
  copy to the other. The React `map` inside `toggleActive` is modelled by
  `ReactTodo.Toggled`.
- `react_todo.dfy` (module `ReactTodo`) models the React copy:
  - `Item(title, active := true)` is the item.
  - `FilterValue` and `Predicate` are the enum and the `filterFunctions` map.
  - `View` is `items.filter(filterFunctions.get(f))`.
  - The class `TodoApp` has the component state as fields: `items: seq<Item>`
    and `filter`. Its methods assign whole new lists, as `setState` does.
  - `toggleActive` finds its target by object identity. Every item is a fresh
    object, so the model names the target by its position in `items`. The k-th
    item on screen is `items[Shown(items, filter)[k]]`, by `View`'s contract.
- `angular_todo.dfy` (module `AngularTodo`) models the AngularJS copy:
  - `Item(title, complete)` is the item, and `NewItem` builds one with
    `complete = false`.
  - The static filters of `TodoController` are functions over the list value,
    so they cannot change the caller's list.
  - `addItem` grows the caller's array in place. The class `ItemArray` models
    that array, and `AddItem` is a method that modifies it.
- `todo_copies.dfy` (module `TodoCopies`) relates the two copies. A React item
  maps to the Angular item with the opposite flag. Under that mapping the two
  filters agree, and the two `addItem`s agree on every non-empty title. On the
  empty title they differ: React appends an item, Angular discards the title.
- `option.dfy` (module `Optional`) holds the `Option` type, which is the result
  of looking a filter string up.

The two `addItem`s treat an empty title differently. The Angular copy discards
it: its doc comment says so, and its guard returns early
(challenge-3/src/js/main.js:88, 94-96). The React copy appends an item with
whatever string the input holds, empty or not
(challenge-3-react/src/js/main.js:204-208). The model follows each copy's code,
and `TodoCopies.AddEmptyTitleDiffers` states the difference.

## Model

| member | source | states |
|---|---|---|
| Lists.Filter | challenge-3-react/src/js/main.js:232-233 | `Array.filter`: the result is no longer than the input, and holds an element exactly when the input holds it and it passes the predicate |
| Lists.FilterIsSubsequence | challenge-3/src/js/main.js:38-40 | the filter result is the input read at the ascending positions of the passing elements; a position is kept iff its element passes |
| ReactTodo.FilterFromValue | challenge-3-react/src/js/main.js:18-23 | a string names a filter value only if it is that value's string |
| ReactTodo.FilterValueRoundTrip | challenge-3-react/src/js/main.js:18-23 | each of the three filter values is found again from its string |
| ReactTodo.Predicate | challenge-3-react/src/js/main.js:29-33 | `filterFunctions`: ALL passes every item, ACTIVE passes exactly the items with `active = true`, COMPLETE exactly those with `active = false` |
| ReactTodo.AddedItem | challenge-3-react/src/js/main.js:204-208 | the list after `addItem`: one longer, earlier items unchanged, and the last item has the given title and `active = true`, even for an empty title |
| ReactTodo.View | challenge-3-react/src/js/main.js:29-33 | the filtered view is an order-preserving subsequence of the list: all items under ALL, exactly the active ones under ACTIVE, exactly the inactive ones under COMPLETE |
| ReactTodo.ViewsPartition | challenge-3-react/src/js/main.js:31-32 | each position is in exactly one of the active and complete views; their lengths sum to the list length and their multisets sum to the list's |
| ReactTodo.AddItemViews | challenge-3-react/src/js/main.js:204-208 | after adding, the new item ends the active view and the complete view is unchanged |
| ReactTodo.ClearCompletedIdempotent | challenge-3-react/src/js/main.js:213-218 | clearing twice equals clearing once, and no completed item is left |
| ReactTodo.Toggled | challenge-3-react/src/js/main.js:248-258 | toggling keeps the length; at the target it keeps the title and negates `active`; every other position is unchanged; a target not in the list changes nothing |
| ReactTodo.ToggleTwice | challenge-3-react/src/js/main.js:248-258 | toggling the same item twice restores the list |
| ReactTodo.ToggleMovesBetweenViews | challenge-3-react/src/js/main.js:248-258 | toggling grows the complete view by one when the item was active and shrinks it by one otherwise; the views still partition the list |
| ReactTodo.ActiveClass | challenge-3-react/src/js/main.js:109-111 | the class is "done" iff the item is not active, and empty iff it is active |
| ReactTodo.TodoApp.constructor | challenge-3-react/src/js/main.js:194-197 | initial state: no items, filter ALL, no completed items |
| ReactTodo.TodoApp.AddItem | challenge-3-react/src/js/main.js:204-208 | appends exactly one active item with the given title, empty or not; earlier items and the filter are unchanged |
| ReactTodo.TodoApp.ClearCompleted | challenge-3-react/src/js/main.js:213-218 | the new list is the active view of the old one, holding exactly its active items; the filter is unchanged |
| ReactTodo.TodoApp.CompleteItems | challenge-3-react/src/js/main.js:223-226 | an order-preserving subsequence of the list that keeps a position exactly when its item has `active = false`; its length plus the active view's is the list length |
| ReactTodo.TodoApp.FilteredItems | challenge-3-react/src/js/main.js:231-234 | the view under the current filter is an order-preserving subsequence: every item under ALL; under ACTIVE or COMPLETE it keeps a position exactly when its item is active or inactive |
| ReactTodo.TodoApp.CompleteItemsExist | challenge-3-react/src/js/main.js:273 | true iff some item has `active = false` |
| ReactTodo.TodoApp.SetFilter | challenge-3-react/src/js/main.js:239-243 | sets the filter; the items are untouched |
| ReactTodo.TodoApp.ToggleActive | challenge-3-react/src/js/main.js:248-258 | the new list is `Toggled` of the old one at the target position; the filter is unchanged |
| AngularTodo.FilterFromValue | challenge-3/src/js/main.js:16-21 | a string names a filter value only if it is that value's string |
| AngularTodo.FilterValueRoundTrip | challenge-3/src/js/main.js:16-21 | each of the three filter values is found again from its string |
| AngularTodo.NewItem | challenge-3/src/js/main.js:10-13 | a new item carries the given title and has `complete = false` |
| AngularTodo.Predicate | challenge-3/src/js/main.js:27-31 | `filterFunctions`: ALL passes every item, ACTIVE passes exactly the items with `complete = false`, COMPLETE exactly those with `complete = true` |
| AngularTodo.AddedItem | challenge-3/src/js/main.js:93-98 | the list after `addItem`: unchanged for an empty title; otherwise one longer, earlier items unchanged, and the last item has that title and `complete = false` |
| AngularTodo.ActiveItems | challenge-3/src/js/main.js:72-74 | exactly the items with `complete = false`, as an order-preserving subsequence of the input |
| AngularTodo.CompleteItems | challenge-3/src/js/main.js:82-84 | exactly the items with `complete = true`, as an order-preserving subsequence of the input |
| AngularTodo.FilteredItems | challenge-3/src/js/main.js:38-40 | the input under ALL; the active items under ACTIVE; the complete items under COMPLETE |
| AngularTodo.ActiveCompletePartition | challenge-3/src/js/main.js:29-30 | each position is in exactly one of the active and complete items; their lengths sum to the list length and their multisets sum to the list's |
| AngularTodo.AddItemViews | challenge-3/src/js/main.js:93-98 | a titled add puts the new item at the end of the active items; an empty title changes neither view; the complete items never change |
| AngularTodo.ItemArray.Push | challenge-3/src/js/main.js:97 | appends one item at the end of the caller's array |
| AngularTodo.AddItem | challenge-3/src/js/main.js:93-98 | an empty title leaves the array unchanged; otherwise the array grows by one, earlier elements are unchanged, and the last element has that title and `complete = false` |
| TodoCopies.SameFilter | challenge-3/src/js/main.js:16-21 | each React filter value corresponds to the Angular filter value with the same string |
| TodoCopies.ViewsAgree | challenge-3/src/js/main.js:27-31 | translating the React view gives the Angular filtered items of the translated list, for every filter |
| TodoCopies.AddItemAgrees | challenge-3/src/js/main.js:93-98 | for a non-empty title both copies append the same item |
| TodoCopies.AddEmptyTitleDiffers | challenge-3-react/src/js/main.js:204-208 | for the empty title React appends an active item and Angular leaves the list unchanged |

## Left out

- Rendering is not modelled: JSX, `ReactDOM.render`, the Angular module registration and the templates are framework glue.
- Input handling is not modelled. This covers the `TodoAddCta` input state and Enter key, the `TodoFooter` select wiring, the `onEnterKey` directive and `getClass`.
- `setState` runs asynchronously and batches updates. The model applies each state update at once, in call order.
- Item identity is not modelled. `toggleActive` compares object references, and the model uses a position in the list instead. A stale reference, meaning an item no longer in the list, becomes a position past the end, where nothing changes.
- Unknown filter strings are not modelled. `Map.get` would return `undefined` and `Array.filter` would throw. `FilterFromValue` returns `None` for such a string, and the list operations take only the three enum values.
- AngularTodo.AddItem: the title is a string, so the only falsy title modelled is the empty string. An `undefined` or `null` title, from an input the user never typed in, is also discarded by the source.
- Toggling an Angular item is not modelled. It happens through a checkbox binding in the page template, which is not part of this model.
- The filter-value getters `getAllFilterValue`, `getActiveFilterValue` and `getCompleteFilterValue` are not modelled separately. Each only returns a constant, which `FilterValue.Value` gives.
- The build pipelines (`challenge-1/gulpfile.js`, `challenge-3/gulpfile.js`) are not modelled. They are configuration over third-party tools.
- The concurrent file reader `challenge-2/fileio.js` is not modelled. It is file I/O and promise aggregation.

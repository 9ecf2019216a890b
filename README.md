# RecyclerView adapters: row list, drag reorder and infinite looping

This project models the logic of three Android `RecyclerView` adapters written in
Kotlin, and proves properties of that model:

- `RecyclerViewAdapter` keeps the rows it displays in `items`, a mutable list of
  (view type, payload) pairs. Rows are added, removed and cleared in place; a row
  added without an item stores the shared `NOT_SET` sentinel, which `getItem`
  hands out and `remove` accepts like any other item. The widget reads the row
  count through `getItemCount`, and reads rows through `getItem` and
  `getItemViewType`, which first map the position with `positionCalibrate`.
  The adapter also keeps a duplicate-free list of the view holders attached to
  the window.
- `DraggableRecyclerAdapter` reorders rows when the user drags one holder onto
  another. It moves the dragged row to the target position by swapping it with
  its neighbour, step by step. The net effect is a rotation of the rows between
  the two positions. It also removes a row on swipe-to-dismiss and remembers
  whether any holder it created can be swiped.
- `InfiniteRecyclerViewAdapter` makes a list of more than one row wrap around.
  It reports `Int.MAX_VALUE` rows and maps a position back to a row with
  Kotlin's `%`. Scrolling starts at the largest multiple of the row count at or
  below `Int.MAX_VALUE / 2`.

Layout:

- `rows.dfy`, module `Rows`: the row datatypes, and the sequence operations the
  list mutations are specified by (`Insert`, `InsertAll`, `RemoveAt`,
  `RemoveFirst`, `FirstMatch`, `WithoutViewType`, `RemoveEach`), with lemmas on
  what they mean.
- `infinite.dfy`, module `InfiniteLoop`: the 32-bit index arithmetic of the
  infinite adapter, with Kotlin's truncating `%` written out (`Rem`).
- `adapters.dfy`, module `Adapters`: the adapter object as a class whose
  `items`, `holders`, `swipeable`, `wasInitPosition` and call log are updated
  in place by its methods.
  - The three Kotlin classes share this state. `kind` records which one an
    object is; the base class itself tests `this is InfiniteRecyclerViewAdapter`.
  - `ViewHolder` is a class, so holders compare by identity, as in Kotlin.
- `drag.dfy`, module `DragAndDrop`: `Move`, the rotation that specifies a drag,
  and the drag and dismiss operations of the draggable adapter.
  - The swap loop is proved against `Swaps`, a recursive definition of running
    the swaps one by one.
  - `SwapsFinish` shows that `Swaps` performs the rotation.

Exceptions are values. `ArrayList.add`, `removeAt`, `Collections.swap` and the
list reads raise `IndexOutOfBoundsException` for an index outside the list; the
model returns `Fail(IndexOutOfBounds)` / `Failure(IndexOutOfBounds)`, with the
state the exception leaves behind. In particular:

- `onItemDismiss` with a negative position raises in `removeAt` before it
  notifies anything.
- `onItemSwap` with a source position outside the list raises on the first
  swap. With only the target position outside, it raises once the moving row
  reaches the end of the list, and the partial rotation stays in place.

The widget callbacks (`notifyItemMoved`, `notifyItemRemoved`,
`notifyDataSetChanged`, the diff dispatch and the scroll to the start position)
are entries appended to an abstract log, `log`.

## Model

| member | source | states |
|---|---|---|
| Rows.ToPayload | RecyclerViewAdapter.kt:127 | a null item is stored as the `NOT_SET` sentinel, any other item as itself |
| Rows.Insert | RecyclerViewAdapter.kt:127 | `items.add(i, x)` lengthens the list by one and puts `x` at `i` |
| Rows.InsertAt | RecyclerViewAdapter.kt:126-128 | after `add(i, x)` the new row is at `i`, earlier rows are unchanged, later rows moved one step right |
| Rows.InsertThenRemove | RecyclerViewAdapter.kt:126-128 | removing at the index just inserted at gives back the list |
| Rows.InsertAll | RecyclerViewAdapter.kt:146-154 | the list with a block inserted at `i` is longer by the block's length |
| Rows.InsertAllAt | RecyclerViewAdapter.kt:146-154 | a block inserted at `i` keeps the prefix, lies at `i .. i+n-1` in order, and is followed by the rest of the list |
| Rows.InsertAllStep | RecyclerViewAdapter.kt:146-154 | adding the elements one by one at `index + i` is inserting the whole block at `index` |
| Rows.RowsOf | RecyclerViewAdapter.kt:137-154 | the rows `addAll` creates: one `(viewType, item ?: NOT_SET)` row per element, in order (a definition; `AddAll` and `AddAllAt` are stated with it) |
| Rows.RemoveAt | DraggableRecyclerAdapter.kt:39 | `removeAt(i)` shortens the list by one and removes exactly the element at `i` from its multiset |
| Rows.RemoveAtAt | DraggableRecyclerAdapter.kt:39 | after `removeAt(i)` earlier elements are unchanged and later ones moved one step left |
| Rows.RemoveFirst | RecyclerViewAdapter.kt:94 | `list.remove(x)` leaves the list unchanged when `x` is absent, otherwise drops one occurrence of `x` |
| Rows.RemoveFirstAt | RecyclerViewAdapter.kt:156-162 | removing by value removes at the value's first position |
| Rows.RemoveFirstDistinct | RecyclerViewAdapter.kt:92-96 | removing a holder from a duplicate-free list removes exactly that holder and keeps the list duplicate-free |
| Rows.Matches | RecyclerViewAdapter.kt:157-170 | the test `firstOrNull` applies: `it.second == item` for `remove(item)`, `it.first == viewType` for `remove(viewType)` (a definition; `FirstMatch` is stated with it) |
| Rows.FirstMatch | RecyclerViewAdapter.kt:157-159 | `firstOrNull` finds the first accepted row: it is accepted and no earlier row is |
| Rows.RemoveFirstMatch | RecyclerViewAdapter.kt:156-162 | the list shrinks by one iff some row is accepted, is unchanged if none is, and gains no row |
| Rows.RemoveFirstOfFirstMatch | RecyclerViewAdapter.kt:156-162 | `firstOrNull` followed by `items.remove(row)` takes out exactly the first accepted row |
| Rows.WithoutViewType | RecyclerViewAdapter.kt:176-180 | no row of the view type is left, and the list shrinks iff it had one |
| Rows.WithoutViewTypeConcat | RecyclerViewAdapter.kt:176-180 | filtering by view type commutes with concatenation, so the kept rows keep their relative order |
| Rows.WithoutViewTypeCounts | RecyclerViewAdapter.kt:176-180 | every row of another view type survives as often as it occurred |
| Rows.WithoutViewTypeNoop | RecyclerViewAdapter.kt:176-180 | a list without rows of the view type is left as it is |
| Rows.RemoveEach | RecyclerViewAdapter.kt:164-166 | `removeAll(list)` skips null elements, removes the first row carrying each other element in turn, and never lengthens the list |
| Rows.RemoveEachShrinks | RecyclerViewAdapter.kt:164-166 | `removeAll(list)` only takes rows away, at most one per element of the list |
| Rows.RemoveEachAbsent | RecyclerViewAdapter.kt:164-166 | elements that are no row's payload remove nothing |
| InfiniteLoop.Rem | InfiniteRecyclerViewAdapter.kt:25 | Kotlin's `%` keeps the sign of the dividend and stays below the divisor in size |
| InfiniteLoop.Loop | InfiniteRecyclerViewAdapter.kt:9-10 | `loop` holds exactly when the list has more than one row (a definition; its consequences are stated by `ItemCount`, `InitPosition` and `PositionCalibrate`) |
| InfiniteLoop.LoopOffset | InfiniteRecyclerViewAdapter.kt:12-13 | `loopOffset` lies in `[0, size)` and `LOOP_INIT_POSITION - loopOffset` is a multiple of the size |
| InfiniteLoop.InitPosition | InfiniteRecyclerViewAdapter.kt:15-16 | when looping, `LOOP_INIT_POSITION - size < initPosition <= LOOP_INIT_POSITION < Int.MAX_VALUE`; otherwise 0, without evaluating `loopOffset` |
| InfiniteLoop.ItemCount | InfiniteRecyclerViewAdapter.kt:20 | the count is `Int.MAX_VALUE` exactly when the list loops (more than one row), and the row count otherwise |
| InfiniteLoop.PositionCalibrate | InfiniteRecyclerViewAdapter.kt:24-26 | when looping, a non-negative position maps into `[0, size)`; otherwise it is returned unchanged |
| InfiniteLoop.ReportedPositionsReadable | InfiniteRecyclerViewAdapter.kt:20-26 | every position below the reported count maps to an existing row |
| InfiniteLoop.CalibratePeriodic | InfiniteRecyclerViewAdapter.kt:24-26 | when looping, positions one list length apart map to the same row |
| InfiniteLoop.CalibrateMultiple | InfiniteRecyclerViewAdapter.kt:24-26 | every multiple of the size, negative ones included, maps to row 0 |
| InfiniteLoop.InitPositionShowsFirstRow | InfiniteRecyclerViewAdapter.kt:12-16 | when looping, `initPosition % size == 0`, so the start position shows row 0 |
| InfiniteLoop.CalibrateNotPeriodicAcrossZero | InfiniteRecyclerViewAdapter.kt:24-26 | a negative position keeps its sign through `%`, so periodicity fails across zero |
| Adapters.ViewHolder.constructor | DraggableRecyclerAdapter.kt:77-86 | a new holder is bound to no row (`NO_POSITION`) and carries its class's `Draggable`, `isDragEnabled()` and `Swipeable` answers unchanged |
| Adapters.RecyclerViewAdapter.constructor | RecyclerViewAdapter.kt:26-27 | a new adapter has no rows, no holders, is not swipeable, and has `wasInitPosition == 0` |
| Adapters.RecyclerViewAdapter.PositionCalibrate | RecyclerViewAdapter.kt:75 | the identity, except in a looping infinite adapter, where it maps a non-negative position into the list |
| Adapters.RecyclerViewAdapter.GetItemCount | RecyclerViewAdapter.kt:50 | `Int.MAX_VALUE` in a looping infinite adapter, and `items.size` in every other case |
| Adapters.RecyclerViewAdapter.GetItem | RecyclerViewAdapter.kt:52 | the payload of `items[positionCalibrate(p)]`, raising exactly when that index is outside the list |
| Adapters.RecyclerViewAdapter.GetItemViewType | RecyclerViewAdapter.kt:73 | the view type of `items[positionCalibrate(p)]`, raising exactly when that index is outside the list |
| Adapters.RecyclerViewAdapter.InitPosition | InfiniteRecyclerViewAdapter.kt:15-16 | when looping, the start position is a multiple of the size and calibrates to row 0; otherwise it is 0 |
| Adapters.RecyclerViewAdapter.GetUniqueItemCount | InfiniteRecyclerViewAdapter.kt:22 | always `items.size`; equal to `getItemCount` when not looping, and not above it otherwise |
| Adapters.RecyclerViewAdapter.OnViewAttachedToWindow | RecyclerViewAdapter.kt:86-90 | appends the holder only when it is absent, so `holders` stays duplicate-free |
| Adapters.RecyclerViewAdapter.OnViewDetachedFromWindow | RecyclerViewAdapter.kt:92-96 | removes the holder, keeps every other one, and keeps `holders` duplicate-free |
| Adapters.RecyclerViewAdapter.AddRow | RecyclerViewAdapter.kt:130-132 | inserts the pair at `index` when `0 <= index <= size`, otherwise raises and changes nothing |
| Adapters.RecyclerViewAdapter.Add | RecyclerViewAdapter.kt:126-128 | inserts `(viewType, item ?: NOT_SET)` at `index` when `0 <= index <= size`, otherwise raises and changes nothing |
| Adapters.RecyclerViewAdapter.AddAll | RecyclerViewAdapter.kt:137-144 | appends one row per element, in order; a null list adds nothing |
| Adapters.RecyclerViewAdapter.AddAllAt | RecyclerViewAdapter.kt:146-154 | places the list's rows at `index .. index+n-1` keeping prefix and suffix; a null or empty list changes nothing; a bad index raises with nothing changed |
| Adapters.RecyclerViewAdapter.RemoveFirstWhere | RecyclerViewAdapter.kt:156-162 | returns true iff some row is accepted; then exactly the first accepted row is removed, otherwise nothing changes |
| Adapters.RecyclerViewAdapter.Remove | RecyclerViewAdapter.kt:156-162 | for any item, the `NOT_SET` sentinel included, returns true iff some row carries it; then exactly the first such row is removed, otherwise nothing changes |
| Adapters.RecyclerViewAdapter.RemoveViewType | RecyclerViewAdapter.kt:168-174 | returns true iff some row has the view type; then exactly the first such row is removed, otherwise nothing changes |
| Adapters.RecyclerViewAdapter.RemoveAllItems | RecyclerViewAdapter.kt:164-166 | removes, for each non-null element in turn (the sentinel included), the first row carrying it; a null list removes nothing |
| Adapters.RecyclerViewAdapter.RemoveAllViewType | RecyclerViewAdapter.kt:176-180 | leaves no row of the view type, keeps the others in order, and returns true iff a row was removed |
| Adapters.RecyclerViewAdapter.Clear | RecyclerViewAdapter.kt:182-184 | empties `items` |
| Adapters.RecyclerViewAdapter.NotifyDataSetChange | RecyclerViewAdapter.kt:98-124 | applies the update, then redraws everything or dispatches a diff against the old rows; an infinite adapter stores the new `initPosition` in `wasInitPosition` and scrolls there only when it changed |
| Adapters.ReportedPositionsReadable | InfiniteRecyclerViewAdapter.kt:20-26 | in every adapter, `getItem` and `getItemViewType` succeed for every position below `getItemCount` |
| Adapters.LoopingRowsRepeat | InfiniteRecyclerViewAdapter.kt:24-26 | a looping adapter shows the same row again one list length further on |
| Adapters.StartShowsFirstRow | InfiniteRecyclerViewAdapter.kt:15-16 | a looping adapter's start position shows the first row |
| DragAndDrop.Move | DraggableRecyclerAdapter.kt:43-67 | the rotation a drag performs keeps the length; where each row goes is stated by `MoveAt` |
| DragAndDrop.MoveAt | DraggableRecyclerAdapter.kt:52-59 | after the move, the row from `from` is at `to`, the rows strictly between shifted one step toward `from`, and the others are unchanged |
| DragAndDrop.MovePermutes | DraggableRecyclerAdapter.kt:56-59 | a move only reorders the rows: the multiset of rows is unchanged |
| DragAndDrop.MoveInverse | DraggableRecyclerAdapter.kt:43-67 | dragging the row back from `to` to `from` restores the list |
| DragAndDrop.MoveStep | DraggableRecyclerAdapter.kt:56-59 | one more swap with the next neighbour carries the move one position further |
| DragAndDrop.Swapped | DraggableRecyclerAdapter.kt:57 | `Collections.swap` on two indices inside the list keeps its length; the exchange is its definition |
| DragAndDrop.Swap | DraggableRecyclerAdapter.kt:57 | `Collections.swap` exchanges the two rows, or raises with nothing changed when an index is outside the list |
| DragAndDrop.Swaps | DraggableRecyclerAdapter.kt:56-59 | the reference definition of the loop: `count` swaps of the moving row with its neighbour, following it, stopping at the first swap that raises; its properties are the `Swaps…` lemmas |
| DragAndDrop.Direction | DraggableRecyclerAdapter.kt:54 | `direction`: -1 when the source lies after the target, 1 otherwise (a definition) |
| DragAndDrop.Distance | DraggableRecyclerAdapter.kt:52 | `swapCount = abs(sourcePosition - targetPosition)` (a definition) |
| DragAndDrop.SwapsAdvance | DraggableRecyclerAdapter.kt:56-59 | a swap inside the list leaves the remaining swaps starting one position further along the move |
| DragAndDrop.SwapsAtEdge | DraggableRecyclerAdapter.kt:56-59 | a swap past the end of the list raises with the row at the end, as far toward the target as the list reaches |
| DragAndDrop.SwapsFinish | DraggableRecyclerAdapter.kt:52-59 | from any point of the loop, the swaps still to come complete the move to the target, or raise with the row at the end of the list |
| DragAndDrop.SwapsFromOutside | DraggableRecyclerAdapter.kt:56-59 | with the source outside the list the first swap raises and nothing changes |
| DragAndDrop.SwapsInside | DraggableRecyclerAdapter.kt:52-59 | when source and target are in the list, each of the `abs(s - t)` swaps succeeds and the list after them is the move from `s` to `t` |
| DragAndDrop.SwapStepwise | DraggableRecyclerAdapter.kt:52-59 | the loop of `abs(s - t)` swaps moves the row from `s` to `t` when both are in the list, and raises otherwise |
| DragAndDrop.CanDrag | DraggableRecyclerAdapter.kt:44-45 | a holder can be dragged when it is `Draggable` and its `isDragEnabled()` is true (a definition) |
| DragAndDrop.Moves | DraggableRecyclerAdapter.kt:44-50 | the guard under which `onItemSwap` swaps: both holders can be dragged and their positions differ (a definition; every ensures of `OnItemSwap` is split on it) |
| DragAndDrop.OnItemSwap | DraggableRecyclerAdapter.kt:43-67 | both holders draggable and enabled at different positions in the list: rotation, `notifyItemMoved`, true; otherwise false and nothing changes, or the swap raises; rows are always only permuted |
| DragAndDrop.OnItemDismiss | DraggableRecyclerAdapter.kt:38-41 | removes exactly the row at a position below the count; a larger position removes nothing; both notify the removal; a negative position raises with nothing changed |
| DragAndDrop.OnCreateViewHolder | DraggableRecyclerAdapter.kt:17-21 | the adapter becomes swipeable once it creates a `Swipeable` holder and stays so |
| DragAndDrop.IsLongPressDragEnabled | DraggableRecyclerAdapter.kt:69-71 | returns the flag the adapter was constructed with |
| DragAndDrop.IsItemViewSwipeEnabled | DraggableRecyclerAdapter.kt:73-75 | true exactly when some holder created so far is `Swipeable` |

## Left out

- `DiffCallback` (RecyclerViewAdapter.kt:239-308) and `DiffUtil`: reflection over annotated fields and a library diff. The diff dispatch is a log entry carrying the old rows.
- The `Builder` classes of all three adapters. They build holders through reflection and stored lambdas.
- `onCreateHolder` and view inflation. `OnCreateViewHolder` takes the created holder as a parameter.
- `onBindViewHolder`, `onAttachedToRecyclerView`, `currentItem` and `removeRecyclerViewInsets`. These are host toolkit calls.
- `startDrag`: it hands the holder to `ItemTouchHelper`, or throws for a holder that is not `Draggable`. No adapter state changes.
- The holders' own `onViewAttachedToWindow`, `onViewDetachedFromWindow` and `onDragStateChanged` hooks. They are user code with no adapter state.
- DragHelperCallback.kt, RecyclerViewExt.kt and RecyclerViewTouchInterceptorListener.kt: touch-helper glue, float animations and gesture interception.
- Adapters.RecyclerViewAdapter.NotifyDataSetChange: the caller's `unit` block is modelled as a function of the rows. A block that changes other adapter state is not modelled.
- Adapters.RecyclerViewAdapter.NotifyDataSetChange: the scroll to the new start position is logged whatever the layout manager. The source scrolls only for linear and staggered-grid layout managers.
- Adapters.RecyclerViewAdapter.AddAllAt: list sizes and `index + i` are unbounded integers. The 32-bit limit of `ArrayList` and `Int` overflow are not modelled.
- Adapters.RecyclerViewAdapter.AddAll: the same unbounded-size simplification applies.
- DragAndDrop.Move: its own contract states only the length. Where every row goes is stated by `MoveAt`, and the permutation by `MovePermutes`. Those facts are kept out of the function's contract so that the proofs that use `Move` stay within the solver's limits.
- DragAndDrop.Swapped: its own contract states only the length, for the same reason. The exchange is the function's definition.
- DragAndDrop.Swaps: it has no contract of its own. What the swaps do is stated by `SwapsAdvance`, `SwapsAtEdge`, `SwapsFinish`, `SwapsInside` and `SwapsFromOutside`.
- InfiniteLoop.CalibratePeriodic: periodicity is stated only for non-negative positions. Kotlin's truncating `%` is not periodic across zero; `CalibrateNotPeriodicAcrossZero` shows this. The widget never reads a negative position.
- Adapters.ViewHolder: `isDragEnabled()` is a constant fixed when the holder is created. A Kotlin holder can override it with logic over its own state, so its answer could change between calls. `onItemSwap` reads it once per call, so no contract depends on the difference.
- `adapterPosition` of a holder is an `Int` in `[-1, Int.MAX_VALUE)`. `-1` is `NO_POSITION`.

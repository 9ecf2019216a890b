/** The adapter object: its row list `items`, the duplicate-free list of attached
    holders, and the reads the list widget makes through `positionCalibrate`.
    The plain, draggable and infinite adapters share this state and differ only
    where their subclasses override or add members, recorded by `kind`. */
module Adapters {
  import opened Rows
  import InfiniteLoop

  /** `RecyclerView.NO_POSITION`: a holder that is not bound to a row. */
  const NO_POSITION: int := -1

  /** What `adapterPosition` can return: no position, or an index into a list of
      at most `Int.MAX_VALUE` rows. */
  type Position = p: int | -1 <= p < 0x7fff_ffff

  /** A view holder, compared by identity as Kotlin compares them. The three
      constants say whether its class implements `Draggable` (and what
      `isDragEnabled()` answers) and whether it implements `Swipeable`. */
  class ViewHolder {
    const isDraggable: bool
    const dragEnabled: bool
    const isSwipeable: bool
    var adapterPosition: Position

    constructor(isDraggable: bool, dragEnabled: bool, isSwipeable: bool)
      ensures this.isDraggable == isDraggable && this.dragEnabled == dragEnabled
      ensures this.isSwipeable == isSwipeable
      ensures adapterPosition == NO_POSITION
    {
      this.isDraggable := isDraggable;
      this.dragEnabled := dragEnabled;
      this.isSwipeable := isSwipeable;
      adapterPosition := NO_POSITION;
    }
  }

  /** Which adapter class the object is an instance of. */
  datatype Kind = Plain | Draggable(longPressDragEnabled: bool) | Infinite

  /** The calls the adapter makes into the list widget, in order. */
  datatype HostCall<T> =
    | ItemMoved(from: int, to: int)
    | ItemRemoved(position: int)
    | DataSetChanged
    | DiffDispatched(before: seq<Row<T>>, detectMoves: bool)
    | ScrolledTo(position: int)

  class RecyclerViewAdapter<T(==)> {
    const kind: Kind
    /** The rows, in display order. */
    var items: seq<Row<T>>
    /** The holders currently attached to the window. */
    var holders: seq<ViewHolder>
    /** Draggable adapters: whether a `Swipeable` holder has been created. */
    var swipeable: bool
    /** Draggable adapters: every holder created so far. */
    ghost var created: seq<ViewHolder>
    /** Infinite adapters: the start position last scrolled to. */
    var wasInitPosition: int
    /** Calls made into the list widget. */
    var log: seq<HostCall<T>>

    ghost predicate Valid()
      reads this`holders, this`swipeable, this`created
    {
      NoDuplicates(holders) &&
      (swipeable <==> exists h :: h in created && h.isSwipeable)
    }

    constructor(kind: Kind)
      ensures Valid()
      ensures this.kind == kind && items == [] && holders == [] && log == []
      ensures !swipeable && created == [] && wasInitPosition == 0
    {
      this.kind := kind;
      items, holders, log := [], [], [];
      swipeable, created, wasInitPosition := false, [], 0;
    }

    /** `positionCalibrate`: the identity, except in the infinite adapter. */
    function PositionCalibrate(position: int): (r: int)
      reads this`items
      ensures kind.Infinite? && InfiniteLoop.Loop(|items|) && 0 <= position ==> 0 <= r < |items|
      ensures !(kind.Infinite? && InfiniteLoop.Loop(|items|)) ==> r == position
    {
      if kind.Infinite? then InfiniteLoop.PositionCalibrate(|items|, position) else position
    }

    /** `getItemCount`: the number of rows, or `Int.MAX_VALUE` in a looping
        infinite adapter. */
    function GetItemCount(): (r: int)
      reads this`items
      ensures kind.Infinite? && InfiniteLoop.Loop(|items|) ==> r == InfiniteLoop.INT_MAX
      ensures !(kind.Infinite? && InfiniteLoop.Loop(|items|)) ==> r == |items|
    {
      if kind.Infinite? then InfiniteLoop.ItemCount(|items|) else |items|
    }

    /** `getItem`: the payload of the row a position shows. */
    function GetItem(position: int): (r: Result<Payload<T>>)
      reads this`items
      ensures r.Success? <==> 0 <= PositionCalibrate(position) < |items|
      ensures r.Success? ==> r.value == items[PositionCalibrate(position)].payload
    {
      var i := PositionCalibrate(position);
      if 0 <= i < |items| then Success(items[i].payload) else Failure(IndexOutOfBounds)
    }

    /** `getItemViewType`: the view type of the row a position shows. */
    function GetItemViewType(position: int): (r: Result<int>)
      reads this`items
      ensures r.Success? <==> 0 <= PositionCalibrate(position) < |items|
      ensures r.Success? ==> r.value == items[PositionCalibrate(position)].viewType
    {
      var i := PositionCalibrate(position);
      if 0 <= i < |items| then Success(items[i].viewType) else Failure(IndexOutOfBounds)
    }

    /** Infinite adapters: `initPosition`. */
    function InitPosition(): (r: int)
      requires kind.Infinite?
      reads this`items
      ensures InfiniteLoop.Loop(|items|) ==> r % |items| == 0 && PositionCalibrate(r) == 0
      ensures !InfiniteLoop.Loop(|items|) ==> r == 0
    {
      var r := InfiniteLoop.InitPosition(|items|);
      if InfiniteLoop.Loop(|items|) then
        InfiniteLoop.InitPositionShowsFirstRow(|items|);
        r
      else r
    }

    /** Infinite adapters: `getUniqueItemCount`, the real number of rows whether
        the list loops or not. */
    function GetUniqueItemCount(): (r: int)
      requires kind.Infinite?
      reads this`items
      ensures r == |items|
      ensures r <= InfiniteLoop.INT_MAX ==> r <= GetItemCount()
      ensures !InfiniteLoop.Loop(|items|) ==> r == GetItemCount()
    {
      |items|
    }

    /** `onViewAttachedToWindow`: records the holder unless it is already there. */
    method OnViewAttachedToWindow(holder: ViewHolder)
      requires Valid()
      modifies this`holders
      ensures Valid()
      ensures holders == if holder in old(holders) then old(holders) else old(holders) + [holder]
    {
      if holder !in holders {
        holders := holders + [holder];
      }
    }

    /** `onViewDetachedFromWindow`: forgets the holder. */
    method OnViewDetachedFromWindow(holder: ViewHolder)
      requires Valid()
      modifies this`holders
      ensures Valid()
      ensures holders == RemoveFirst(old(holders), holder)
      ensures forall h :: h in holders <==> h in old(holders) && h != holder
    {
      RemoveFirstDistinct(holders, holder);
      holders := RemoveFirst(holders, holder);
    }

    /** `add(index, pair)`: inserts a row, or raises when the index is not in
        0 .. size. */
    method AddRow(index: int, row: Row<T>) returns (s: Outcome)
      modifies this`items
      ensures s == if 0 <= index <= |old(items)| then Pass else Fail(IndexOutOfBounds)
      ensures items == if s.Pass? then Insert(old(items), index, row) else old(items)
    {
      if 0 <= index <= |items| {
        items := Insert(items, index, row);
        s := Pass;
      } else {
        s := Fail(IndexOutOfBounds);
      }
    }

    /** `add(index, item, viewType)`: inserts (viewType, item), storing the
        sentinel for a null item. */
    method Add(index: int, item: Option<T>, viewType: int) returns (s: Outcome)
      modifies this`items
      ensures s == if 0 <= index <= |old(items)| then Pass else Fail(IndexOutOfBounds)
      ensures items == if s.Pass? then Insert(old(items), index, Row(viewType, ToPayload(item))) else old(items)
    {
      if 0 <= index <= |items| {
        items := Insert(items, index, Row(viewType, ToPayload(item)));
        s := Pass;
      } else {
        s := Fail(IndexOutOfBounds);
      }
    }

    /** `addAll(items, viewType)`: appends one row per element, in order; a null
        list adds nothing. */
    method AddAll(list: Option<seq<Option<T>>>, viewType: int)
      modifies this`items
      ensures items == old(items) + if list.Some? then RowsOf(list.value, viewType) else []
    {
      if list.Some? {
        var xs := list.value;
        for i := 0 to |xs|
          invariant items == old(items) + RowsOf(xs[..i], viewType)
        {
          var s := Add(|items|, xs[i], viewType);
          assert items == old(items) + RowsOf(xs[..i], viewType) + [Row(viewType, ToPayload(xs[i]))];
          assert xs[..i + 1] == xs[..i] + [xs[i]];
          RowsOfSnoc(xs[..i], xs[i], viewType);
        }
        assert xs[..|xs|] == xs;
      }
    }

    /** `addAll(index, items, viewType)`: the list's rows land at index ..
        index + n - 1 in order. The first insertion raises when the index is
        not in 0 .. size, and then nothing has changed. */
    method AddAllAt(index: int, list: Option<seq<Option<T>>>, viewType: int) returns (s: Outcome)
      modifies this`items
      ensures list.None? || list.value == [] ==> s == Pass && items == old(items)
      ensures list.Some? && list.value != [] && 0 <= index <= |old(items)| ==>
        s == Pass && items == InsertAll(old(items), index, RowsOf(list.value, viewType))
      ensures list.Some? && list.value != [] && !(0 <= index <= |old(items)|) ==>
        s == Fail(IndexOutOfBounds) && items == old(items)
    {
      s := Pass;
      if list.Some? {
        var xs := list.value;
        ghost var start := items;
        for i := 0 to |xs|
          invariant s == Pass
          invariant 0 <= index <= |start| ==> items == InsertAll(start, index, RowsOf(xs[..i], viewType))
          invariant !(0 <= index <= |start|) ==> i == 0 && items == start
        {
          ghost var row := Row(viewType, ToPayload(xs[i]));
          s := Add(index + i, xs[i], viewType);
          if s.Fail? {
            return;
          }
          InsertAllStep(start, index, RowsOf(xs[..i], viewType), row);
          assert xs[..i + 1] == xs[..i] + [xs[i]];
          RowsOfSnoc(xs[..i], xs[i], viewType);
        }
        assert xs[..|xs|] == xs;
        if xs == [] {
          assert items == start;
        }
      }
    }

    /** `firstOrNull` then `items.remove(row)`: takes out the first row `c`
        accepts and reports whether there was one. */
    method RemoveFirstWhere(c: Criterion<T>) returns (removed: bool)
      modifies this`items
      ensures removed <==> exists k :: 0 <= k < |old(items)| && Matches(old(items)[k], c)
      ensures removed ==>
        FirstMatch(old(items), c) < |old(items)| && items == RemoveAt(old(items), FirstMatch(old(items), c))
      ensures !removed ==> items == old(items)
    {
      var i := FirstMatch(items, c);
      if i < |items| {
        var row := items[i];
        RemoveFirstOfFirstMatch(items, c);
        removed := row in items;
        items := RemoveFirst(items, row);
      } else {
        removed := false;
      }
    }

    /** `remove(item)`: takes out the first row whose payload equals `item`;
        true iff there was one. The item may be the `NOT_SET` sentinel that
        `getItem` hands out for a row added without an item; it then matches
        the first such row. */
    method Remove(item: Payload<T>) returns (removed: bool)
      modifies this`items
      ensures removed <==> exists k :: 0 <= k < |old(items)| && old(items)[k].payload == item
      ensures removed ==> exists i :: (0 <= i < |old(items)| && old(items)[i].payload == item &&
        (forall k :: 0 <= k < i ==> old(items)[k].payload != item) &&
        items == RemoveAt(old(items), i))
      ensures !removed ==> items == old(items)
      ensures items == RemoveFirstMatch(old(items), ByPayload(item))
    {
      removed := RemoveFirstWhere(ByPayload(item));
    }

    /** `remove(viewType)`: takes out the first row of that view type; true iff
        there was one. */
    method RemoveViewType(viewType: int) returns (removed: bool)
      modifies this`items
      ensures removed <==> exists k :: 0 <= k < |old(items)| && old(items)[k].viewType == viewType
      ensures removed ==> exists i :: (0 <= i < |old(items)| && old(items)[i].viewType == viewType &&
        (forall k :: 0 <= k < i ==> old(items)[k].viewType != viewType) &&
        items == RemoveAt(old(items), i))
      ensures !removed ==> items == old(items)
    {
      removed := RemoveFirstWhere(ByViewType(viewType));
    }

    /** `removeAll(items)`: removes, for each non-null element in turn, the
        first row carrying it; a null list removes nothing. */
    method RemoveAllItems(list: Option<seq<Option<Payload<T>>>>)
      modifies this`items
      ensures items == if list.Some? then RemoveEach(old(items), list.value) else old(items)
    {
      if list.Some? {
        var xs := list.value;
        for i := 0 to |xs|
          invariant items == RemoveEach(old(items), xs[..i])
        {
          assert xs[..i + 1][..i] == xs[..i];
          if xs[i].Some? {
            var removed := Remove(xs[i].value);
          }
        }
        assert xs[..|xs|] == xs;
      }
    }

    /** `removeAll(viewType)`: drops every row of that view type, keeping the
        others in order; true iff something was dropped. */
    method RemoveAllViewType(viewType: int) returns (removed: bool)
      modifies this`items
      ensures removed <==> exists k :: 0 <= k < |old(items)| && old(items)[k].viewType == viewType
      ensures items == WithoutViewType(old(items), viewType)
      ensures forall k :: 0 <= k < |items| ==> items[k].viewType != viewType
    {
      var kept := WithoutViewType(items, viewType);
      removed := |kept| < |items|;
      items := kept;
    }

    /** `clear`. */
    method Clear()
      modifies this`items
      ensures items == []
    {
      items := [];
    }

    /** `notifyDataSetChange`: runs the caller's update (given here as its effect
        on the rows), tells the widget to redraw everything or to apply a diff
        against the rows from before, and, in an infinite adapter whose start
        position moved, records and scrolls to the new start position. */
    method NotifyDataSetChange(animation: bool, detectMoves: bool, update: seq<Row<T>> -> seq<Row<T>>)
      modifies this`items, this`wasInitPosition, this`log
      ensures items == update(old(items))
      ensures kind.Infinite? ==> wasInitPosition == InfiniteLoop.InitPosition(|items|)
      ensures !kind.Infinite? ==> wasInitPosition == old(wasInitPosition)
      ensures log == old(log)
        + [if !animation || |old(items)| == 0 then DataSetChanged else DiffDispatched(old(items), detectMoves)]
        + (if kind.Infinite? && old(wasInitPosition) != InfiniteLoop.InitPosition(|items|)
           then [ScrolledTo(InfiniteLoop.InitPosition(|items|))] else [])
    {
      var transactionPairs := items;
      items := update(items);
      if !animation || |transactionPairs| == 0 {
        log := log + [DataSetChanged];
      } else {
        log := log + [DiffDispatched(transactionPairs, detectMoves)];
      }
      if kind.Infinite? && wasInitPosition != InitPosition() {
        wasInitPosition := InitPosition();
        log := log + [ScrolledTo(wasInitPosition)];
      }
    }
  }

  /** Every position below `getItemCount` can be read: the widget never asks
      for a row that is not there. */
  lemma ReportedPositionsReadable<T>(a: RecyclerViewAdapter<T>, position: int)
    requires 0 <= position < a.GetItemCount()
    ensures a.GetItem(position).Success? && a.GetItemViewType(position).Success?
  {
    if a.kind.Infinite? {
      InfiniteLoop.ReportedPositionsReadable(|a.items|, position);
    }
  }

  /** A looping infinite adapter shows the same row again one list length on. */
  lemma LoopingRowsRepeat<T>(a: RecyclerViewAdapter<T>, position: int)
    requires a.kind.Infinite? && InfiniteLoop.Loop(|a.items|)
    requires 0 <= position && position + |a.items| <= InfiniteLoop.INT_MAX
    ensures a.GetItem(position + |a.items|) == a.GetItem(position)
    ensures a.GetItemViewType(position + |a.items|) == a.GetItemViewType(position)
  {
    InfiniteLoop.CalibratePeriodic(|a.items|, position);
  }

  /** A looping infinite adapter starts on its first row. */
  lemma StartShowsFirstRow<T>(a: RecyclerViewAdapter<T>)
    requires a.kind.Infinite? && InfiniteLoop.Loop(|a.items|)
    ensures a.GetItem(a.InitPosition()) == Success(a.items[0].payload)
    ensures a.GetItemViewType(a.InitPosition()) == Success(a.items[0].viewType)
  {
  }
}

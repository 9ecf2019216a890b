/** Drag-to-reorder and swipe-to-dismiss of the draggable adapter. A drag moves
    one row from the source holder's position to the target holder's position by
    swapping neighbours until it arrives; the net effect is a rotation of the
    rows between the two positions. */
module DragAndDrop {
  import opened Rows
  import opened Adapters

  /** The rows after the one at `from` is lifted out and put back in at `to`:
      the rows strictly between the two shift one step toward `from`. */
  function Move<X>(s: seq<X>, from: nat, to: nat): (r: seq<X>)
    requires from < |s| && to < |s|
    ensures |r| == |s|
  {
    if from <= to then s[..from] + s[from + 1..to + 1] + [s[from]] + s[to + 1..]
    else s[..to] + [s[from]] + s[to..from] + s[from + 1..]
  }

  /** The index, before a move from `from` to `to`, of the row that the move
      puts at index `k`. */
  function MovedFrom(from: nat, to: nat, k: nat): nat {
    if k == to then from
    else if from < to && from <= k < to then k + 1
    else if to < from && to < k <= from then k - 1
    else k
  }

  /** Where each row ends up: the moved row at `to`, the rows strictly between
      one step closer to `from`, every other row where it was. */
  lemma MoveAt<X>(s: seq<X>, from: nat, to: nat, k: nat)
    requires from < |s| && to < |s| && k < |s|
    ensures MovedFrom(from, to, k) < |s|
    ensures Move(s, from, to)[k] == s[MovedFrom(from, to, k)]
  {
    var r := Move(s, from, to);
    if from <= to {
      var front, back := s[..from] + s[from + 1..to + 1], [s[from]] + s[to + 1..];
      assert r == front + back;
      if k < to {
        assert r[k] == front[k];
      } else {
        assert r[k] == back[k - to];
      }
    } else {
      var front, back := s[..to] + [s[from]], s[to..from] + s[from + 1..];
      assert r == front + back;
      if k <= to {
        assert r[k] == front[k];
      } else {
        assert r[k] == back[k - to - 1];
      }
    }
  }

  /** `Collections.swap` on a list, for two indices inside it. */
  function Swapped<X>(s: seq<X>, i: nat, j: nat): (r: seq<X>)
    requires i < |s| && j < |s|
    ensures |r| == |s|
  {
    s[i := s[j]][j := s[i]]
  }

  /** Exchanging two neighbouring blocks of a list keeps its elements. */
  lemma BlocksExchanged<X>(a: seq<X>, b: seq<X>, c: seq<X>, d: seq<X>)
    ensures multiset(a + c + b + d) == multiset(a + b + c + d)
  {
  }

  /** A move only reorders the rows. */
  lemma MovePermutes<X>(s: seq<X>, from: nat, to: nat)
    requires from < |s| && to < |s|
    ensures multiset(Move(s, from, to)) == multiset(s)
  {
    if from <= to {
      assert s == s[..from] + [s[from]] + s[from + 1..to + 1] + s[to + 1..];
      BlocksExchanged(s[..from], [s[from]], s[from + 1..to + 1], s[to + 1..]);
    } else {
      assert s == s[..to] + s[to..from] + [s[from]] + s[from + 1..];
      BlocksExchanged(s[..to], s[to..from], [s[from]], s[from + 1..]);
    }
  }

  /** Moving a row back where it came from restores the list. */
  lemma MoveInverse<X>(s: seq<X>, from: nat, to: nat)
    requires from < |s| && to < |s|
    ensures Move(Move(s, from, to), to, from) == s
  {
    var m := Move(s, from, to);
    var r := Move(m, to, from);
    forall k | 0 <= k < |s| ensures r[k] == s[k] {
      MoveAt(m, to, from, k);
      MoveAt(s, from, to, MovedFrom(to, from, k));
    }
  }

  /** A move onto its own position changes nothing. */
  lemma MoveToSelf<X>(s: seq<X>, from: nat)
    requires from < |s|
    ensures Move(s, from, from) == s
  {
    var r := Move(s, from, from);
    forall k | 0 <= k < |s| ensures r[k] == s[k] {
      MoveAt(s, from, from, k);
    }
  }

  /** One more swap of the moving row with its neighbour away from `from`
      carries the move one position further. */
  lemma MoveStep<X>(s: seq<X>, from: nat, m: nat, next: nat)
    requires from < |s| && m < |s| && next < |s|
    requires (from <= m && next == m + 1) || (m <= from && next + 1 == m)
    ensures Swapped(Move(s, from, m), m, next) == Move(s, from, next)
  {
    var a := Swapped(Move(s, from, m), m, next);
    var b := Move(s, from, next);
    MoveAt(s, from, m, m);
    MoveAt(s, from, m, next);
    forall k | 0 <= k < |s| ensures a[k] == b[k] {
      MoveAt(s, from, m, k);
      MoveAt(s, from, next, k);
    }
  }

  /** `Collections.swap(items, i, j)`: it reads index `i` and writes index `j`
      before anything changes, so an index outside the list raises and leaves
      the rows as they were. */
  method Swap<T(==)>(a: RecyclerViewAdapter<T>, i: int, j: int) returns (s: Outcome)
    modifies a`items
    ensures s == if 0 <= i < |old(a.items)| && 0 <= j < |old(a.items)| then Pass else Fail(IndexOutOfBounds)
    ensures a.items == if s.Pass? then Swapped(old(a.items), i, j) else old(a.items)
  {
    if !(0 <= i < |a.items| && 0 <= j < |a.items|) {
      return Fail(IndexOutOfBounds);
    }
    a.items := Swapped(a.items, i, j);
    return Pass;
  }

  /** The holder implements `Draggable` and its `isDragEnabled()` is true. */
  predicate CanDrag(h: ViewHolder) {
    h.isDraggable && h.dragEnabled
  }

  /** Both holders can be dragged and sit at different positions: the case in
      which `onItemSwap` swaps. */
  predicate Moves(source: ViewHolder, target: ViewHolder)
    reads source, target
  {
    CanDrag(source) && CanDrag(target) && source.adapterPosition != target.adapterPosition
  }

  predicate InRange(i: int, n: nat) {
    0 <= i < n
  }

  /** The index nearest to `i` in a list of `n` > 0 elements. */
  function Clamp(i: int, n: nat): (r: nat)
    requires n > 0
    ensures r < n
    ensures InRange(i, n) ==> r == i
    ensures i < 0 ==> r == 0
    ensures i >= n ==> r == n - 1
  {
    if i < 0 then 0 else if i >= n then n - 1 else i
  }

  /** What the swap loop leaves behind: the rows unchanged when `from` is
      outside the list, otherwise the row at `from` moved as far toward `to` as
      the list reaches. */
  function Stepwise<X>(s: seq<X>, from: int, to: int): (r: seq<X>)
    ensures |r| == |s|
  {
    if InRange(from, |s|) then Move(s, from, Clamp(to, |s|)) else s
  }

  /** One successful swap of the moving row with its neighbour away from
      `from` carries the loop's result one position further. */
  lemma StepwiseStep<X>(s: seq<X>, from: int, m: int, next: int)
    requires InRange(from, |s|) && InRange(m, |s|) && InRange(next, |s|)
    requires (from <= m && next == m + 1) || (m <= from && next + 1 == m)
    ensures Swapped(Stepwise(s, from, m), m, next) == Stepwise(s, from, next)
  {
    MoveStep(s, from, m, next);
  }

  /** `count` swaps of the row at `m` with its neighbour one step in
      `direction`, following it, the way the loop of `onItemSwap` runs them:
      the first swap whose indices leave the list raises and ends the run. */
  function Swaps<X>(s: seq<X>, m: int, direction: int, count: nat): (Outcome, seq<X>)
    decreases count
  {
    if count == 0 then (Pass, s)
    else if !(InRange(m, |s|) && InRange(m + direction, |s|)) then (Fail(IndexOutOfBounds), s)
    else Swaps(Swapped(s, m, m + direction), m + direction, direction, count - 1)
  }

  /** The direction the moving row travels: -1 toward the front, 1 toward the
      back. */
  function Direction(from: int, to: int): int {
    if from > to then -1 else 1
  }

  /** `abs(from - to)`. */
  function Distance(from: int, to: int): nat {
    if from > to then from - to else to - from
  }

  /** A swap that stays inside the list carries the run one step on. */
  lemma SwapsAdvance<X>(s: seq<X>, from: int, m: int, to: int)
    requires InRange(from, |s|) && InRange(m, |s|) && InRange(m + Direction(from, to), |s|)
    requires (from <= m < to) || (to < m <= from)
    ensures Swaps(Stepwise(s, from, m), m, Direction(from, to), Distance(m, to)) ==
            Swaps(Stepwise(s, from, m + Direction(from, to)), m + Direction(from, to), Direction(from, to),
                  Distance(m + Direction(from, to), to))
  {
    var d := Direction(from, to);
    var here := Stepwise(s, from, m);
    assert Distance(m + d, to) == Distance(m, to) - 1;
    assert Swaps(here, m, d, Distance(m, to)) == Swaps(Swapped(here, m, m + d), m + d, d, Distance(m, to) - 1);
    StepwiseStep(s, from, m, m + d);
  }

  /** A swap past the end of the list raises with the row at the end, which is
      as far toward `to` as the list reaches. */
  lemma SwapsAtEdge<X>(s: seq<X>, from: int, m: int, to: int)
    requires InRange(from, |s|) && InRange(m, |s|) && !InRange(m + Direction(from, to), |s|)
    requires (from <= m < to) || (to < m <= from)
    ensures !InRange(to, |s|)
    ensures Swaps(Stepwise(s, from, m), m, Direction(from, to), Distance(m, to)) ==
            (Fail(IndexOutOfBounds), Stepwise(s, from, to))
  {
    assert Clamp(to, |s|) == m == Clamp(m, |s|);
  }

  /** Wherever the loop stands, the swaps still to come finish the move: they
      bring the row from `from` to `to`, or raise at the end of the list with
      the row as far as it got. */
  lemma {:induction false} SwapsFinish<X>(s: seq<X>, from: int, m: int, to: int)
    requires InRange(from, |s|) && InRange(m, |s|)
    requires (from <= m <= to) || (to <= m <= from)
    ensures Swaps(Stepwise(s, from, m), m, Direction(from, to), Distance(m, to)) ==
            (if InRange(to, |s|) then Pass else Fail(IndexOutOfBounds), Stepwise(s, from, to))
    decreases Distance(m, to)
  {
    if m != to {
      if InRange(m + Direction(from, to), |s|) {
        SwapsAdvance(s, from, m, to);
        SwapsFinish(s, from, m + Direction(from, to), to);
      } else {
        SwapsAtEdge(s, from, m, to);
      }
    }
  }

  /** When the row to move lies outside the list the first swap raises. */
  lemma SwapsFromOutside<X>(s: seq<X>, from: int, to: int)
    requires !InRange(from, |s|) && from != to
    ensures Swaps(s, from, Direction(from, to), Distance(from, to)) == (Fail(IndexOutOfBounds), s)
  {
  }

  /** Swaps that all stay inside the list, one per step from `from` to `to`,
      leave the row from `from` at `to` and every row it passed one step back:
      after each step the list is the move to where the row has got. */
  lemma SwapsInside<X>(s: seq<X>, from: int, to: int)
    requires InRange(from, |s|) && InRange(to, |s|)
    ensures Swaps(s, from, Direction(from, to), Distance(from, to)) == (Pass, Move(s, from, to))
  {
    MoveToSelf(s, from);
    SwapsFinish(s, from, from, to);
  }

  /** The loop of `onItemSwap`: |from - to| times, swap the moving row (at
      `mountain`) with its neighbour toward `to`. A swap raises as soon as an
      index leaves the list: at once when `from` lies outside it, at the end of
      the list when only `to` does. */
  method SwapStepwise<T(==)>(a: RecyclerViewAdapter<T>, from: int, to: int) returns (s: Outcome)
    requires from != to
    modifies a`items
    ensures s == if InRange(from, |old(a.items)|) && InRange(to, |old(a.items)|) then Pass else Fail(IndexOutOfBounds)
    ensures a.items == Stepwise(old(a.items), from, to)
  {
    var swapCount := Distance(from, to);
    var mountain := from;
    var direction := Direction(from, to);
    ghost var start := a.items;
    ghost var run := Swaps(start, from, direction, swapCount);
    if InRange(from, |start|) {
      MoveToSelf(start, from);
      SwapsFinish(start, from, from, to);
    } else {
      SwapsFromOutside(start, from, to);
    }
    for i := 0 to swapCount
      invariant mountain == if direction == 1 then from + i else from - i
      invariant Swaps(a.items, mountain, direction, swapCount - i) == run
    {
      s := Swap(a, mountain, mountain + 1 * direction);
      if s.Fail? {
        return;
      }
      mountain := mountain + 1 * direction;
    }
    s := Pass;
  }

  /** `onItemSwap`: moves the source holder's row to the target holder's
      position and reports whether it moved anything; only a swap that raises
      keeps it from telling the widget about the move. */
  method OnItemSwap<T(==)>(a: RecyclerViewAdapter<T>, source: ViewHolder, target: ViewHolder)
    returns (r: Result<bool>)
    requires a.kind.Draggable?
    modifies a`items, a`log
    ensures multiset(a.items) == multiset(old(a.items))
    ensures !Moves(source, target) ==>
      r == Success(false) && a.items == old(a.items) && a.log == old(a.log)
    ensures Moves(source, target) &&
            InRange(source.adapterPosition, |old(a.items)|) && InRange(target.adapterPosition, |old(a.items)|) ==>
      r == Success(true) &&
      a.items == Move(old(a.items), source.adapterPosition, target.adapterPosition) &&
      a.log == old(a.log) + [ItemMoved(source.adapterPosition, target.adapterPosition)]
    ensures Moves(source, target) && !InRange(source.adapterPosition, |old(a.items)|) ==>
      r == Failure(IndexOutOfBounds) && a.items == old(a.items) && a.log == old(a.log)
    ensures Moves(source, target) &&
            InRange(source.adapterPosition, |old(a.items)|) && !InRange(target.adapterPosition, |old(a.items)|) ==>
      r == Failure(IndexOutOfBounds) && a.log == old(a.log) &&
      a.items == Move(old(a.items), source.adapterPosition,
                      if target.adapterPosition < source.adapterPosition then 0 else |old(a.items)| - 1)
  {
    if CanDrag(source) && CanDrag(target) {
      var sourcePosition: int := source.adapterPosition;
      var targetPosition: int := target.adapterPosition;
      if sourcePosition != targetPosition {
        var s := SwapStepwise(a, sourcePosition, targetPosition);
        ghost var n := |old(a.items)|;
        if InRange(sourcePosition, n) {
          MovePermutes(old(a.items), sourcePosition, Clamp(targetPosition, n));
        }
        if s.Fail? {
          return Failure(IndexOutOfBounds);
        }
        a.log := a.log + [ItemMoved(sourcePosition, targetPosition)];
        return Success(true);
      }
    }
    return Success(false);
  }

  /** `onItemDismiss`: removes the row at a position below the row count and
      tells the widget a row was removed there, even when the position was past
      the end and nothing was removed. A negative position makes `removeAt`
      raise before anything changes. */
  method OnItemDismiss<T(==)>(a: RecyclerViewAdapter<T>, position: int) returns (r: Outcome)
    requires a.kind.Draggable?
    modifies a`items, a`log
    ensures position < 0 ==> r == Fail(IndexOutOfBounds) && a.items == old(a.items) && a.log == old(a.log)
    ensures 0 <= position < |old(a.items)| ==>
      r == Pass && a.items == RemoveAt(old(a.items), position) && a.log == old(a.log) + [ItemRemoved(position)]
    ensures position >= |old(a.items)| ==>
      r == Pass && a.items == old(a.items) && a.log == old(a.log) + [ItemRemoved(position)]
  {
    if a.GetItemCount() > position {
      if position < 0 {
        return Fail(IndexOutOfBounds);
      }
      a.items := RemoveAt(a.items, position);
    }
    a.log := a.log + [ItemRemoved(position)];
    return Pass;
  }

  /** `onCreateViewHolder` of the draggable adapter: the adapter becomes
      swipeable once it has created a `Swipeable` holder, and stays so. */
  method OnCreateViewHolder<T(==)>(a: RecyclerViewAdapter<T>, holder: ViewHolder) returns (h: ViewHolder)
    requires a.kind.Draggable? && a.Valid()
    modifies a`swipeable, a`created
    ensures a.Valid() && h == holder
    ensures a.created == old(a.created) + [holder]
    ensures a.swipeable == (old(a.swipeable) || holder.isSwipeable)
  {
    a.created := a.created + [holder];
    a.swipeable := a.swipeable || holder.isSwipeable;
    h := holder;
  }

  /** `isLongPressDragEnabled`: the flag the adapter was constructed with. */
  function IsLongPressDragEnabled<T(==)>(a: RecyclerViewAdapter<T>): (r: bool)
    requires a.kind.Draggable?
    ensures r <==> a.kind == Draggable(true)
  {
    a.kind.longPressDragEnabled
  }

  /** `isItemViewSwipeEnabled`: whether any holder created so far is
      `Swipeable`. */
  function IsItemViewSwipeEnabled<T(==)>(a: RecyclerViewAdapter<T>): (r: bool)
    requires a.kind.Draggable? && a.Valid()
    reads a
    ensures r <==> exists h :: h in a.created && h.isSwipeable
  {
    a.swipeable
  }
}

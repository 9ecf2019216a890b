/** Value-level view of the row list an adapter keeps: `items` is a list of
    (view type, payload) pairs. This module defines the rows, the errors the
    list operations raise, and the sequence operations the adapter methods are
    specified by, together with what they mean. */
module Rows {

  datatype Option<T> = None | Some(value: T)

  /** The payload half of a row. `NotSet` is the shared `NOT_SET` sentinel that
      is stored when a row is added without an item (a null item). */
  datatype Payload<T> = NotSet | Item(value: T)

  /** One entry of `items`: the pair (view type, payload). */
  datatype Row<T> = Row(viewType: int, payload: Payload<T>)

  /** The one exception the list operations raise (an index outside the list). */
  datatype Error = IndexOutOfBounds

  /** Completion of an operation that returns nothing: normal, or by an exception. */
  datatype Outcome = Pass | Fail(error: Error)

  /** Completion of an operation that returns a value, or raises an exception. */
  datatype Result<R> = Success(value: R) | Failure(error: Error)

  /** `item ?: NOT_SET`: a null item becomes the sentinel. */
  function ToPayload<T>(item: Option<T>): (p: Payload<T>)
    ensures p.NotSet? <==> item.None?
    ensures item.Some? ==> p == Item(item.value)
  {
    match item
    case None => NotSet
    case Some(v) => Item(v)
  }

  /** The rows `addAll` creates, one per element of `items`, all of one view type. */
  function RowsOf<T>(items: seq<Option<T>>, viewType: int): (r: seq<Row<T>>)
    ensures |r| == |items|
  {
    seq(|items|, k requires 0 <= k < |items| => Row(viewType, ToPayload(items[k])))
  }

  /** Growing the list of items by one grows its rows by one. */
  lemma RowsOfSnoc<T>(items: seq<Option<T>>, item: Option<T>, viewType: int)
    ensures RowsOf(items + [item], viewType) == RowsOf(items, viewType) + [Row(viewType, ToPayload(item))]
  {
  }

  /** `list.add(i, x)` on a list `s` with 0 <= i <= |s|. */
  function Insert<X>(s: seq<X>, i: nat, x: X): (r: seq<X>)
    requires i <= |s|
    ensures |r| == |s| + 1 && r[i] == x
  {
    s[..i] + [x] + s[i..]
  }

  /** After an insertion the new element sits at `i`, the earlier elements are
      where they were and the later ones have moved one step right. */
  lemma InsertAt<X>(s: seq<X>, i: nat, x: X)
    requires i <= |s|
    ensures Insert(s, i, x)[i] == x
    ensures forall k :: 0 <= k < i ==> Insert(s, i, x)[k] == s[k]
    ensures forall k :: i <= k < |s| ==> Insert(s, i, x)[k + 1] == s[k]
  {
  }

  /** Removing at the index just inserted at gives back the list. */
  lemma InsertThenRemove<X>(s: seq<X>, i: nat, x: X)
    requires i <= |s|
    ensures RemoveAt(Insert(s, i, x), i) == s
  {
    var r := Insert(s, i, x);
    assert r[..i] == s[..i];
    assert r[i + 1..] == s[i..];
  }

  /** `xs` placed at positions i .. i+|xs|-1 of `s`, prefix and suffix kept. */
  function InsertAll<X>(s: seq<X>, i: nat, xs: seq<X>): (r: seq<X>)
    requires i <= |s|
    ensures |r| == |s| + |xs|
  {
    s[..i] + xs + s[i..]
  }

  /** After inserting `xs` at `i`: the prefix is kept, `xs` follows in order, and
      the rest of `s` comes after it. */
  lemma InsertAllAt<X>(s: seq<X>, i: nat, xs: seq<X>)
    requires i <= |s|
    ensures forall k :: 0 <= k < i ==> InsertAll(s, i, xs)[k] == s[k]
    ensures forall k :: 0 <= k < |xs| ==> InsertAll(s, i, xs)[i + k] == xs[k]
    ensures forall k :: i <= k < |s| ==> InsertAll(s, i, xs)[k + |xs|] == s[k]
  {
  }

  /** Inserting the elements of `xs + [x]` one by one at consecutive positions. */
  lemma InsertAllStep<X>(s: seq<X>, i: nat, xs: seq<X>, x: X)
    requires i <= |s|
    ensures Insert(InsertAll(s, i, xs), i + |xs|, x) == InsertAll(s, i, xs + [x])
  {
    var r := InsertAll(s, i, xs);
    assert r[..i + |xs|] == s[..i] + xs;
    assert r[i + |xs|..] == s[i..];
  }

  /** `list.removeAt(i)` on a list `s` with 0 <= i < |s|. */
  function RemoveAt<X>(s: seq<X>, i: nat): (r: seq<X>)
    requires i < |s|
    ensures |r| == |s| - 1
    ensures multiset(r) + multiset{s[i]} == multiset(s)
  {
    assert s == s[..i] + [s[i]] + s[i + 1..];
    s[..i] + s[i + 1..]
  }

  /** After removing the element at `i`, the earlier elements are where they
      were and the later ones have moved one step left. */
  lemma RemoveAtAt<X>(s: seq<X>, i: nat)
    requires i < |s|
    ensures forall k :: 0 <= k < i ==> RemoveAt(s, i)[k] == s[k]
    ensures forall k :: i <= k < |s| - 1 ==> RemoveAt(s, i)[k] == s[k + 1]
  {
  }

  /** `list.remove(x)`: drops the first element equal to `x`, if there is one. */
  function RemoveFirst<X(==)>(s: seq<X>, x: X): (r: seq<X>)
    ensures x !in s ==> r == s
    ensures x in s ==> |r| == |s| - 1
    ensures multiset(r) == multiset(s) - multiset{x}
  {
    if s == [] then []
    else if s[0] == x then
      assert s == [s[0]] + s[1..];
      s[1..]
    else
      assert s == [s[0]] + s[1..];
      [s[0]] + RemoveFirst(s[1..], x)
  }

  /** Removing at `i` > 0 keeps the head and removes at `i - 1` in the tail. */
  lemma RemoveAtTail<X>(s: seq<X>, i: nat)
    requires 0 < i < |s|
    ensures RemoveAt(s, i) == [s[0]] + RemoveAt(s[1..], i - 1)
  {
    assert s[..i] == [s[0]] + s[1..][..i - 1];
    assert s[i + 1..] == s[1..][i..];
  }

  /** Removing an element by value removes it at its first position. */
  lemma {:induction false} RemoveFirstAt<X>(s: seq<X>, i: nat)
    requires i < |s| && s[i] !in s[..i]
    ensures RemoveFirst(s, s[i]) == RemoveAt(s, i)
  {
    if i > 0 {
      assert s[0] != s[i] by {
        assert s[0] in s[..i];
      }
      assert s[1..][i - 1] == s[i] && s[i] !in s[1..][..i - 1] by {
        assert s[..i] == [s[0]] + s[1..][..i - 1];
      }
      RemoveFirstAt(s[1..], i - 1);
      RemoveAtTail(s, i);
    }
  }

  /** No element occurs twice. */
  ghost predicate NoDuplicates<X>(s: seq<X>) {
    forall x | x in s :: multiset(s)[x] == 1
  }

  /** Removing by value from a duplicate-free list removes every occurrence and
      keeps the list duplicate-free. */
  lemma RemoveFirstDistinct<X>(s: seq<X>, x: X)
    requires NoDuplicates(s)
    ensures NoDuplicates(RemoveFirst(s, x))
    ensures forall y :: y in RemoveFirst(s, x) <==> y in s && y != x
  {
    var r := RemoveFirst(s, x);
    forall y ensures y in r <==> y in s && y != x {
      assert y in r <==> y in multiset(r);
      assert y in s <==> y in multiset(s);
    }
  }

  /** What `firstOrNull` looks for: a payload equal to an item, or a view type. */
  datatype Criterion<T> = ByPayload(item: Payload<T>) | ByViewType(viewType: int)

  predicate Matches<T(==)>(row: Row<T>, c: Criterion<T>) {
    match c
    case ByPayload(item) => row.payload == item
    case ByViewType(viewType) => row.viewType == viewType
  }

  /** Position of the first row `c` accepts, or |s| when none does. */
  function FirstMatch<T(==)>(s: seq<Row<T>>, c: Criterion<T>): (i: nat)
    ensures i <= |s|
    ensures i < |s| ==> Matches(s[i], c)
    ensures forall k :: 0 <= k < i ==> !Matches(s[k], c)
  {
    if s == [] then 0
    else if Matches(s[0], c) then 0
    else 1 + FirstMatch(s[1..], c)
  }

  /** The rows with the first row `c` accepts taken out; unchanged when none does. */
  function RemoveFirstMatch<T(==)>(s: seq<Row<T>>, c: Criterion<T>): (r: seq<Row<T>>)
    ensures (exists k :: 0 <= k < |s| && Matches(s[k], c)) <==> |r| == |s| - 1
    ensures (forall k :: 0 <= k < |s| ==> !Matches(s[k], c)) ==> r == s
    ensures multiset(r) <= multiset(s)
  {
    var i := FirstMatch(s, c);
    if i < |s| then RemoveAt(s, i) else s
  }

  /** `firstOrNull` followed by `list.remove(row)` takes out exactly the first
      accepted row: no earlier row can equal it. */
  lemma RemoveFirstOfFirstMatch<T>(s: seq<Row<T>>, c: Criterion<T>)
    requires FirstMatch(s, c) < |s|
    ensures RemoveFirst(s, s[FirstMatch(s, c)]) == RemoveFirstMatch(s, c)
  {
    var i := FirstMatch(s, c);
    assert s[i] !in s[..i] by {
      forall k | 0 <= k < i ensures s[..i][k] != s[i] {
        assert !Matches(s[k], c);
      }
    }
    RemoveFirstAt(s, i);
  }

  /** The rows whose view type is not `viewType`, in their original order. */
  function WithoutViewType<T>(s: seq<Row<T>>, viewType: int): (r: seq<Row<T>>)
    ensures forall k :: 0 <= k < |r| ==> r[k].viewType != viewType
    ensures |r| <= |s|
    ensures |r| == |s| <==> forall k :: 0 <= k < |s| ==> s[k].viewType != viewType
  {
    if s == [] then []
    else if s[0].viewType == viewType then WithoutViewType(s[1..], viewType)
    else [s[0]] + WithoutViewType(s[1..], viewType)
  }

  /** Filtering commutes with concatenation, so relative order is kept. */
  lemma {:induction false} WithoutViewTypeConcat<T>(a: seq<Row<T>>, b: seq<Row<T>>, viewType: int)
    ensures WithoutViewType(a + b, viewType) == WithoutViewType(a, viewType) + WithoutViewType(b, viewType)
  {
    if a != [] {
      assert (a + b)[1..] == a[1..] + b;
      WithoutViewTypeConcat(a[1..], b, viewType);
    } else {
      assert a + b == b;
    }
  }

  /** Every row of another view type survives as often as it occurred; no row of
      `viewType` survives. */
  lemma {:induction false} WithoutViewTypeCounts<T>(s: seq<Row<T>>, viewType: int, row: Row<T>)
    ensures multiset(WithoutViewType(s, viewType))[row] ==
      if row.viewType == viewType then 0 else multiset(s)[row]
  {
    if s != [] {
      WithoutViewTypeCounts(s[1..], viewType, row);
      assert s == [s[0]] + s[1..];
    }
  }

  /** A list with no row of `viewType` is left as it is. */
  lemma {:induction false} WithoutViewTypeNoop<T>(s: seq<Row<T>>, viewType: int)
    requires forall k :: 0 <= k < |s| ==> s[k].viewType != viewType
    ensures WithoutViewType(s, viewType) == s
  {
    if s != [] {
      WithoutViewTypeNoop(s[1..], viewType);
      assert s == [s[0]] + s[1..];
    }
  }

  /** `removeAll(list)`: for each non-null element, in order, remove the first row
      carrying it. */
  function RemoveEach<T(==)>(s: seq<Row<T>>, items: seq<Option<Payload<T>>>): (r: seq<Row<T>>)
    ensures |r| <= |s|
    decreases |items|
  {
    if items == [] then s
    else
      var rest := RemoveEach(s, items[..|items| - 1]);
      match items[|items| - 1]
      case None => rest
      case Some(item) => RemoveFirstMatch(rest, ByPayload(item))
  }

  /** Removing a list of items only ever takes rows away, at most one per element. */
  lemma {:induction false} RemoveEachShrinks<T>(s: seq<Row<T>>, items: seq<Option<Payload<T>>>)
    ensures multiset(RemoveEach(s, items)) <= multiset(s)
    ensures |s| - |items| <= |RemoveEach(s, items)| <= |s|
  {
    if items != [] {
      RemoveEachShrinks(s, items[..|items| - 1]);
      var rest := RemoveEach(s, items[..|items| - 1]);
      assert |multiset(RemoveEach(s, items))| <= |multiset(rest)|;
    }
  }

  /** Items none of which is the payload of any row remove nothing. */
  lemma {:induction false} RemoveEachAbsent<T>(s: seq<Row<T>>, items: seq<Option<Payload<T>>>)
    requires forall j, k :: 0 <= j < |items| && 0 <= k < |s| && items[j].Some? ==> s[k].payload != items[j].value
    ensures RemoveEach(s, items) == s
  {
    if items != [] {
      RemoveEachAbsent(s, items[..|items| - 1]);
      var last := items[|items| - 1];
      if last.Some? {
        assert forall k :: 0 <= k < |s| ==> !Matches(s[k], ByPayload(last.value));
      }
    }
  }
}

/** Index arithmetic of the infinite (looping) adapter. With more than one row
    the adapter reports `Int.MAX_VALUE` rows and maps a reported position back to
    a row with Kotlin's `%` on 32-bit `Int`s; scrolling starts at a multiple of
    the row count near the middle of the `Int` range. */
module InfiniteLoop {

  /** `Int.MAX_VALUE`. */
  const INT_MAX: int := 0x7fff_ffff

  /** `Int.MAX_VALUE / 2`, where scrolling starts. */
  const LOOP_INIT_POSITION: int := INT_MAX / 2

  /** Kotlin's `a % n` for n > 0: it truncates toward zero, so the remainder has
      the sign of `a`. */
  function Rem(a: int, n: int): (r: int)
    requires n > 0
    ensures 0 <= a ==> 0 <= r < n
    ensures a < 0 ==> -n < r <= 0
    ensures a - r == (a / n) * n || a - r == -((-a) / n) * n
  {
    if a >= 0 then a % n else -((-a) % n)
  }

  /** `loop`: the list wraps around when it holds more than one row. */
  predicate Loop(size: nat) {
    size > 1
  }

  /** `loopOffset`; it divides by the size, so it needs a non-empty list. */
  function LoopOffset(size: nat): (r: int)
    requires size > 0
    ensures 0 <= r < size
    ensures LOOP_INIT_POSITION - r == size * (LOOP_INIT_POSITION / size)
  {
    LOOP_INIT_POSITION % size
  }

  /** `initPosition`: the position scrolling starts at. `loopOffset` is only
      evaluated when looping, so an empty list does not divide by zero. */
  function InitPosition(size: nat): (r: int)
    ensures Loop(size) ==> LOOP_INIT_POSITION - size < r <= LOOP_INIT_POSITION < INT_MAX
    ensures !Loop(size) ==> r == 0
  {
    if Loop(size) then LOOP_INIT_POSITION - LoopOffset(size) else 0
  }

  /** `getItemCount` of the looping adapter. */
  function ItemCount(size: nat): (r: int)
    ensures Loop(size) <==> r == INT_MAX
    ensures !Loop(size) ==> r == size
  {
    if Loop(size) then INT_MAX else size
  }

  /** `positionCalibrate`: the row a reported position shows. */
  function PositionCalibrate(size: nat, position: int): (r: int)
    ensures Loop(size) && 0 <= position ==> 0 <= r < size
    ensures !Loop(size) ==> r == position
  {
    if Loop(size) then Rem(position, size) else position
  }

  /** Every position below the reported count maps to a row of the list. */
  lemma ReportedPositionsReadable(size: nat, position: int)
    requires 0 <= position < ItemCount(size)
    ensures 0 <= PositionCalibrate(size, position) < size
  {
  }

  /** Adding one size to a non-negative position does not change its remainder. */
  lemma RemAddSize(a: int, n: int)
    requires 0 <= a && 0 < n
    ensures Rem(a + n, n) == Rem(a, n)
  {
    var q, r := a / n, a % n;
    assert a + n == (q + 1) * n + r;
    ModUnique(a + n, n, q + 1, r);
  }

  /** Euclidean division is unique. */
  lemma ModUnique(a: int, n: int, q: int, r: int)
    requires 0 < n && 0 <= r < n && a == q * n + r
    ensures a % n == r
  {
    var q0, r0 := a / n, a % n;
    assert q0 * n + r0 == a;
    var d := q - q0;
    assert d * n == q * n - q0 * n;
    if d > 0 {
      MulAtLeast(d, n);
    } else if d < 0 {
      MulAtLeast(-d, n);
    }
  }

  /** A positive multiple of `n` is at least `n`. */
  lemma {:induction false} MulAtLeast(d: int, n: int)
    requires 0 < d && 0 < n
    ensures d * n >= n
  {
    if d > 1 {
      MulAtLeast(d - 1, n);
      assert d * n == (d - 1) * n + n;
    }
  }

  /** A non-negative number below `n` is its own remainder. */
  lemma RemSmall(a: int, n: int)
    requires 0 <= a < n
    ensures a % n == a
  {
    ModUnique(a, n, 0, a);
  }

  /** When looping, positions one list length apart show the same row, as long as
      both are non-negative `Int`s. */
  lemma CalibratePeriodic(size: nat, position: int)
    requires Loop(size) && 0 <= position && position + size <= INT_MAX
    ensures PositionCalibrate(size, position + size) == PositionCalibrate(size, position)
  {
    RemAddSize(position, size);
  }

  /** Any multiple of the size, negative ones included, shows the first row:
      truncating `%` gives 0 on both sides of zero. */
  lemma {:induction false} CalibrateMultiple(size: nat, k: int)
    requires Loop(size)
    ensures PositionCalibrate(size, k * size) == 0
    decreases if k < 0 then 1 - k else k
  {
    if k > 0 {
      CalibrateMultiple(size, k - 1);
      RemAddSize((k - 1) * size, size);
      assert (k - 1) * size + size == k * size;
    } else if k < 0 {
      CalibrateMultiple(size, -k);
      assert -(k * size) == (-k) * size;
    }
  }

  /** When looping, the start position is a multiple of the size, so it shows the
      first row. */
  lemma InitPositionShowsFirstRow(size: nat)
    requires Loop(size)
    ensures InitPosition(size) % size == 0
    ensures PositionCalibrate(size, InitPosition(size)) == 0
  {
    var q := LOOP_INIT_POSITION / size;
    assert InitPosition(size) == q * size;
    CalibrateMultiple(size, q);
  }

  /** The remainder keeps the sign of a negative position, so the mapping is not
      periodic across zero: a position just below zero and the one a list length
      above it show different rows. */
  lemma CalibrateNotPeriodicAcrossZero(size: nat, position: int)
    requires Loop(size) && 0 < -position < size
    ensures PositionCalibrate(size, position) == position
    ensures PositionCalibrate(size, position + size) == position + size
    ensures PositionCalibrate(size, position + size) != PositionCalibrate(size, position)
  {
    RemSmall(-position, size);
    RemSmall(position + size, size);
  }
}

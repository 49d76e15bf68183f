/** serves/website/assets/js/moment-timezone.js: finding when the user's own clock changes. Instants are
  * milliseconds; `clock` says what offset the browser gives at each. */
module ZoneChange {
  datatype OffsetAt = OffsetAt(at: int, offset: real)

  function Probe(clock: int -> real, at: int): OffsetAt {
    OffsetAt(at, clock(at))
  }

  // A JavaScript number put through `| 0`, for one that is not negative.
  function ToInt32(n: nat): int {
    var m := n % 0x1_0000_0000;
    if m < 0x8000_0000 then m else m - 0x1_0000_0000
  }

  // The longest interval whose half still fits.
  const REACH: int := 0x8000_0000 * 120000

  /** Where the bisection of an interval ends: the instant it returns, and the other end. */
  function Bisected(clock: int -> real, low: int, high: int): (end: (int, int))
    requires low <= high < low + REACH
    decreases high - low
  {
    NoWrap(high - low);
    var diff := ToInt32((high - low) / 120000) * 60000;
    if diff == 0 then (low, high)
    else if clock(low + diff) == clock(low) then Bisected(clock, low + diff, high)
    else Bisected(clock, low, low + diff)
  }

  /** Bisection to the minute. It ends with less than two minutes between an instant that still has the
    * offset of `low` and one, `above`, that has not; the first is returned. */
  method FindChange(clock: int -> real, low: OffsetAt, high: OffsetAt) returns (found: OffsetAt, ghost above: int)
    requires low == Probe(clock, low.at) && high == Probe(clock, high.at)
    requires low.at <= high.at < low.at + REACH
    ensures (found.at, above) == Bisected(clock, low.at, high.at)
    ensures found == Probe(clock, found.at) && found.offset == low.offset
    ensures low.at <= found.at <= above <= high.at && above - found.at < 120000
    ensures high.offset != low.offset ==> clock(above) != low.offset
    ensures high.at - low.at < 120000 ==> found == low && above == high.at
    ensures Minutes(low.at, found.at)
    ensures above == high.at || Minutes(low.at, above)
  {
    var low', high' := low, high;
    while true
      invariant low.at <= low'.at <= high'.at <= high.at
      invariant Bisected(clock, low'.at, high'.at) == Bisected(clock, low.at, high.at)
      invariant low' == Probe(clock, low'.at)
      decreases high'.at - low'.at
    {
      NoWrap(high'.at - low'.at);
      var diff := ToInt32((high'.at - low'.at) / 120000) * 60000;
      if diff == 0 {
        break;
      }
      var mid := Probe(clock, low'.at + diff);
      if mid.offset == low'.offset {
        low' := mid;
      } else {
        high' := mid;
      }
    }
    NoWrap(high.at - low.at);
    BisectionEnds(clock, low.at, high.at);
    return low', high'.at;
  }

  predicate Minutes(from: int, to: int) {
    (to - from) % 60000 == 0
  }

  lemma MinutesApart(from: int, to: int, n: int)
    requires to == from + 60000 * n
    ensures Minutes(from, to)
  {
  }

  /** The reach is exact: of intervals up to twice as long, the first probe falls into the interval, neither
    * before its start nor behind its end, just if the interval is within reach. */
  lemma ReachIsExact(gap: nat)
    requires gap < 2 * REACH
    ensures 0 <= ToInt32(gap / 120000) * 60000 <= gap <==> gap < REACH
  {
    if gap < REACH {
      NoWrap(gap);
    }
  }

  lemma NoWrap(gap: nat)
    requires gap < REACH
    ensures ToInt32(gap / 120000) == gap / 120000
    ensures 120000 * (gap / 120000) <= gap < 120000 * (gap / 120000) + 120000
  {
  }

  /** Over whole minutes the interval closes to exactly one minute, so the clock has changed by then. */
  lemma ChangesWithinAMinute(clock: int -> real, low: int, high: int, found: int, above: int)
    requires clock(high) != clock(low) && Minutes(low, high)
    requires low <= found <= above <= high && above - found < 120000
    requires clock(found) == clock(low) && clock(above) != clock(low)
    requires Minutes(low, found) && (above == high || Minutes(low, above))
    ensures above == found + 60000 && clock(found + 60000) != clock(found)
  {
    assert Minutes(low, above);
    assert (above - found) % 60000 == 0;
  }

  /** If the clock changes once in between, the bisection pins that change down to the minute. */
  lemma PinsTheChange(clock: int -> real, low: int, high: int, change: int, found: int, above: int)
    requires low <= found <= above <= high
    requires clock(low) != clock(high) && clock(found) == clock(low) && clock(above) != clock(low)
    requires forall t :: low <= t <= high ==> clock(t) == if t < change then clock(low) else clock(high)
    ensures found < change <= above
  {
  }

  /** A minute after the instant that is found the clock has another offset. */
  ghost predicate ChangedByThen(clock: int -> real, low: int, high: int)
    requires low <= high < low + REACH
  {
    var found := Bisected(clock, low, high).0;
    clock(found + 60000) != clock(found)
  }

  /** A clock that changes at the very end of the interval. */
  function LateClock(high: int): int -> real {
    t => if t == high then 60.0 else 0.0
  }

  /** Off whole minutes a minute later may be too early: then no probe falls on the end of the interval,
    * and a clock that changes there has not changed. */
  lemma TooEarly(low: int, high: int)
    requires low < high < low + REACH && !Minutes(low, high)
    ensures LateClock(high)(low) != LateClock(high)(high)
    ensures !ChangedByThen(LateClock(high), low, high)
  {
    var clock := LateClock(high);
    BisectionEnds(clock, low, high);
    var found := Bisected(clock, low, high).0;
    assert Minutes(low, found + 60000);
  }

  /** A minute is always enough, whatever the clock, exactly when the end points are whole minutes apart. */
  lemma AMinuteIsEnough(low: int, high: int)
    requires low < high < low + REACH
    ensures Minutes(low, high) <==>
      forall clock: int -> real :: clock(low) != clock(high) ==> ChangedByThen(clock, low, high)
  {
    if Minutes(low, high) {
      forall clock: int -> real | clock(low) != clock(high)
        ensures ChangedByThen(clock, low, high)
      {
        BisectionEnds(clock, low, high);
        var (found, above) := Bisected(clock, low, high);
        ChangesWithinAMinute(clock, low, high, found, above);
      }
    } else {
      TooEarly(low, high);
    }
  }

  lemma {:induction false} BisectionEnds(clock: int -> real, low: int, high: int)
    requires low <= high < low + REACH
    ensures var (found, above) := Bisected(clock, low, high);
            && low <= found <= above <= high && above - found < 120000
            && clock(found) == clock(low)
            && (clock(high) != clock(low) ==> clock(above) != clock(low))
            && Minutes(low, found) && (above == high || Minutes(low, above))
    decreases high - low
  {
    NoWrap(high - low);
    var half := (high - low) / 120000;
    var mid := low + half * 60000;
    MinutesApart(low, mid, half);
    if half == 0 {
      assert Bisected(clock, low, high) == (low, high);
    } else if clock(mid) == clock(low) {
      BisectionEnds(clock, mid, high);
      var (found, above) := Bisected(clock, mid, high);
      assert Bisected(clock, low, high) == (found, above);
      MinutesAdd(low, mid, found);
      if above != high {
        MinutesAdd(low, mid, above);
      }
    } else {
      BisectionEnds(clock, low, mid);
      assert Bisected(clock, low, high) == Bisected(clock, low, mid);
    }
  }

  lemma MinutesAdd(a: int, b: int, c: int)
    requires Minutes(a, b) && Minutes(b, c)
    ensures Minutes(a, c)
  {
  }

  // ---- userOffsets

  /** The months among the first `n` at whose start the offset differs from the month before. */
  function Changed(clock: int -> real, month: nat -> int, n: nat): (changed: seq<nat>)
    ensures forall i :: 0 <= i < |changed| ==>
      1 <= changed[i] < n && clock(month(changed[i])) != clock(month(changed[i] - 1))
  {
    if n <= 1 then []
    else Changed(clock, month, n - 1) + if clock(month(n - 1)) != clock(month(n - 2)) then [n - 1] else []
  }

  /** Those are all of them, in order. */
  lemma {:induction false} ChangedExactly(clock: int -> real, month: nat -> int, n: nat, m: nat)
    ensures m in Changed(clock, month, n) <==> 1 <= m < n && clock(month(m)) != clock(month(m - 1))
    ensures forall i, j :: 0 <= i < j < |Changed(clock, month, n)| ==>
      Changed(clock, month, n)[i] < Changed(clock, month, n)[j]
  {
    if n > 1 {
      ChangedExactly(clock, month, n - 1, m);
    }
  }

  /** One entry for the start, two around each change, a minute apart. */
  ghost predicate AroundChanges(offsets: seq<OffsetAt>, clock: int -> real, month: nat -> int, n: nat) {
    var changed := Changed(clock, month, n);
    && |offsets| >= 1 + 2 * |changed|
    && offsets[0] == Probe(clock, month(0))
    && forall i :: 0 <= i < |changed| ==>
         PairAt(offsets, i, clock, month, changed[i])
  }

  /** The i-th pair after the first entry is around the change before month `m`. */
  ghost predicate PairAt(offsets: seq<OffsetAt>, i: nat, clock: int -> real, month: nat -> int, m: nat) {
    m > 0 && 2 + 2 * i < |offsets| && Around(offsets[1 + 2 * i], offsets[2 + 2 * i], clock, month(m - 1), month(m))
  }

  ghost predicate Around(before: OffsetAt, after: OffsetAt, clock: int -> real, low: int, high: int) {
    && before == Probe(clock, before.at) && after == Probe(clock, after.at)
    && low <= before.at && after.at == before.at + 60000 && after.at <= high
    && before.offset == clock(low) && after.offset != clock(low)
  }

  lemma NoChange(offsets: seq<OffsetAt>, clock: int -> real, month: nat -> int, n: nat)
    requires n > 0 && AroundChanges(offsets, clock, month, n) && clock(month(n)) == clock(month(n - 1))
    ensures Changed(clock, month, n + 1) == Changed(clock, month, n)
    ensures AroundChanges(offsets, clock, month, n + 1)
  {
  }

  lemma OneMoreChange(offsets: seq<OffsetAt>, clock: int -> real, month: nat -> int, n: nat, before: OffsetAt,
                      after: OffsetAt)
    requires n > 0 && AroundChanges(offsets, clock, month, n) && clock(month(n)) != clock(month(n - 1))
    requires |offsets| == 1 + 2 * |Changed(clock, month, n)|
    requires Around(before, after, clock, month(n - 1), month(n))
    ensures Changed(clock, month, n + 1) == Changed(clock, month, n) + [n]
    ensures AroundChanges(offsets + [before, after], clock, month, n + 1)
  {
    var changed, longer := Changed(clock, month, n), offsets + [before, after];
    assert Changed(clock, month, n + 1) == changed + [n];
    forall i | 0 <= i < |changed|
      ensures PairAt(longer, i, clock, month, changed[i])
    {
      assert PairAt(offsets, i, clock, month, changed[i]);
      assert longer[1 + 2 * i] == offsets[1 + 2 * i] && longer[2 + 2 * i] == offsets[2 + 2 * i];
    }
    assert longer[|offsets|] == before && longer[|offsets| + 1] == after;
    assert PairAt(longer, |changed|, clock, month, n);
  }

  /** Months are whole minutes long, and not longer than the bisection can halve. */
  predicate MonthFits(month: nat -> int, i: nat) {
    month(i) < month(i + 1) < month(i) + REACH && Minutes(month(i), month(i + 1))
  }

  /** `month(i)` is the start of the i-th month, `january` and `july` those of the four years: first the
    * entries around the changes, then the half years. */
  method UserOffsets(clock: int -> real, month: nat -> int, january: nat -> int, july: nat -> int)
    returns (offsets: seq<OffsetAt>, ghost around: seq<OffsetAt>, ghost halves: seq<OffsetAt>)
    requires forall i: nat :: i < 47 ==> MonthFits(month, i)
    ensures offsets == around + halves
    ensures |around| == 1 + 2 * |Changed(clock, month, 48)| && AroundChanges(around, clock, month, 48)
    ensures |halves| == 8
    ensures forall i :: 0 <= i < 4 ==>
      halves[2 * i] == Probe(clock, january(i)) && halves[2 * i + 1] == Probe(clock, july(i))
  {
    var monthly := MonthlyOffsets(clock, month);
    var halfYears := HalfYears(clock, january, july);
    return monthly + halfYears, monthly, halfYears;
  }

  method MonthlyOffsets(clock: int -> real, month: nat -> int) returns (offsets: seq<OffsetAt>)
    requires forall i: nat :: i < 47 ==> MonthFits(month, i)
    ensures AroundChanges(offsets, clock, month, 48)
    ensures |offsets| == 1 + 2 * |Changed(clock, month, 48)|
  {
    var last := Probe(clock, month(0));
    offsets := [last];
    for i := 1 to 48
      invariant last == Probe(clock, month(i - 1))
      invariant |offsets| == 1 + 2 * |Changed(clock, month, i)|
      invariant AroundChanges(offsets, clock, month, i)
    {
      var next := Probe(clock, month(i));
      if next.offset != last.offset {
        assert MonthFits(month, i - 1);
        var change, after := FindAround(clock, last, next);
        OneMoreChange(offsets, clock, month, i, change, after);
        offsets := offsets + [change, after];
      } else {
        NoChange(offsets, clock, month, i);
      }
      last := next;
    }
  }

  /** The last minute before a change, and the first after it. */
  method FindAround(clock: int -> real, last: OffsetAt, next: OffsetAt) returns (change: OffsetAt, after: OffsetAt)
    requires last == Probe(clock, last.at) && next == Probe(clock, next.at) && last.offset != next.offset
    requires last.at < next.at < last.at + REACH && Minutes(last.at, next.at)
    ensures Around(change, after, clock, last.at, next.at)
  {
    ghost var above;
    change, above := FindChange(clock, last, next);
    ChangesWithinAMinute(clock, last.at, next.at, change.at, above);
    after := Probe(clock, change.at + 60000);
  }

  method HalfYears(clock: int -> real, january: nat -> int, july: nat -> int) returns (offsets: seq<OffsetAt>)
    ensures |offsets| == 8
    ensures forall i :: 0 <= i < 4 ==>
      offsets[2 * i] == Probe(clock, january(i)) && offsets[2 * i + 1] == Probe(clock, july(i))
  {
    offsets := [];
    for i := 0 to 4
      invariant |offsets| == 2 * i
      invariant forall j :: 0 <= j < i ==>
        offsets[2 * j] == Probe(clock, january(j)) && offsets[2 * j + 1] == Probe(clock, july(j))
    {
      offsets := offsets + [Probe(clock, january(i)), Probe(clock, july(i))];
    }
  }
}

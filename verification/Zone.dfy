/** serves/website/assets/js/moment-timezone.js: the offset of a zone at an instant, and at a local time.
  * Instants are milliseconds and offsets are minutes to add to local time to get UTC, as reals. */
module Zone {
  import opened Wrappers
  import opened BaseSixty

  const MINUTE: real := 60000.0

  // A number as the zone data holds it; NaN is also what an array has past its end.
  datatype Number = Finite(value: real) | Infinity | NaN

  // ---- intToUntil

  /** Math.round. */
  function Round(x: real): int {
    (x + 0.5).Floor
  }

  /** What the minutes of the packed data add up to after entry `i`, each rounded to a millisecond. */
  function Until(minutes: seq<real>, i: nat): int
    requires i < |minutes|
  {
    (if i == 0 then 0 else Until(minutes, i - 1)) + Round(minutes[i] * MINUTE)
  }

  lemma RoundShift(n: int, x: real)
    ensures Round(n as real + x) == n + Round(x)
  {
    var y := x + 0.5;
    assert (n as real + x) + 0.5 == n as real + y;
    assert (n as real + y).Floor as real <= n as real + y < (n as real + y).Floor as real + 1.0;
  }

  /** The packed differences; what an entry that is no number adds does not matter. */
  ghost function Minutes(packed: seq<Number>): (minutes: seq<real>)
    ensures |minutes| == |packed|
    ensures forall i :: 0 <= i < |packed| && packed[i].Finite? ==> minutes[i] == packed[i].value
  {
    seq(|packed|, i requires 0 <= i < |packed| => if packed[i].Finite? then packed[i].value else 0.0)
  }

  /** In place: differences in minutes become instants in milliseconds, and the last becomes Infinity
    * whatever it was. Rounding happens at every step, and yet does not accumulate. */
  method IntToUntil(a: array<Number>)
    requires forall i :: 0 <= i < a.Length - 1 ==> a[i].Finite?
    modifies a
    ensures a.Length > 0 ==> a[a.Length - 1] == Infinity
    ensures forall i :: 0 <= i < a.Length - 1 ==> a[i] == Instant(Minutes(old(a[..])), i)
  {
    ghost var packed := a[..];
    for i := 0 to a.Length
      invariant forall j :: i <= j < a.Length ==> a[j] == packed[j]
      invariant forall j :: 0 <= j < i && j < a.Length - 1 ==> a[j] == Instant(Minutes(packed), j)
    {
      // array[i - 1] || 0
      var previous := if i > 0 && a[i - 1].Finite? then a[i - 1].value else 0.0;
      if i < a.Length - 1 {
        assert a[i] == packed[i];
        assert i > 0 ==> a[i - 1] == Instant(Minutes(packed), i - 1);
        InstantStep(Minutes(packed), i, previous);
      }
      a[i] := if a[i].Finite? then Finite(Round(previous + a[i].value * MINUTE) as real) else NaN;
    }
    if a.Length > 0 {
      a[a.Length - 1] := Infinity;
    }
  }

  ghost function Instant(minutes: seq<real>, i: nat): Number
    requires i < |minutes|
  {
    Finite(Until(minutes, i) as real)
  }

  lemma InstantStep(minutes: seq<real>, i: nat, previous: real)
    requires i < |minutes|
    requires if i == 0 then previous == 0.0 else Instant(minutes, i - 1) == Finite(previous)
    ensures Finite(Round(previous + minutes[i] * MINUTE) as real) == Instant(minutes, i)
  {
    RoundShift(if i == 0 then 0 else Until(minutes, i - 1), minutes[i] * MINUTE);
  }

  ghost predicate Rising(minutes: seq<real>) {
    forall i, j :: 0 <= i < j < |minutes| ==> Until(minutes, i) < Until(minutes, j)
  }

  ghost predicate Spaced(minutes: seq<real>) {
    forall i :: 0 < i < |minutes| ==> minutes[i] * 60000.0 >= 0.5
  }

  ghost function Sum(minutes: seq<real>): real {
    if minutes == [] then 0.0 else Sum(minutes[..|minutes| - 1]) + minutes[|minutes| - 1]
  }

  /** Rounding at every step never takes an instant further from the exact sum, in milliseconds, than half
    * a millisecond for each step. */
  lemma {:induction false} UntilNearSum(minutes: seq<real>, i: nat)
    requires i < |minutes|
    ensures -0.5 * (i + 1) as real <= Until(minutes, i) as real - 60000.0 * Sum(minutes[..i + 1])
    ensures Until(minutes, i) as real - 60000.0 * Sum(minutes[..i + 1]) <= 0.5 * (i + 1) as real
  {
    assert minutes[..i + 1][..i] == minutes[..i];
    if i > 0 {
      UntilNearSum(minutes, i - 1);
    }
  }

  /** The instants increase exactly when every difference after the first is at least half a millisecond. */
  lemma UntilsIncrease(minutes: seq<real>)
    ensures Rising(minutes) <==> Spaced(minutes)
  {
    if Spaced(minutes) {
      forall i, j | 0 <= i < j < |minutes|
        ensures Until(minutes, i) < Until(minutes, j)
      {
        UntilsIncreaseTo(minutes, i, j);
      }
    }
    if Rising(minutes) {
      forall i | 0 < i < |minutes|
        ensures minutes[i] * MINUTE >= 0.5
      {
        assert Until(minutes, i - 1) < Until(minutes, i);
        assert Round(minutes[i] * MINUTE) >= 1;
      }
    }
  }

  lemma {:induction false} UntilsIncreaseTo(minutes: seq<real>, i: nat, j: nat)
    requires i < j < |minutes|
    requires Spaced(minutes)
    ensures Until(minutes, i) < Until(minutes, j)
  {
    assert Round(minutes[j] * MINUTE) >= 1;
    if i < j - 1 {
      UntilsIncreaseTo(minutes, i, j - 1);
    }
  }

  // ---- Zone

  datatype Zone = Zone(offsets: seq<real>, untils: seq<Number>)

  // tz.moveAmbiguousForward and tz.moveInvalidForward.
  datatype Flags = Flags(ambiguousForward: bool, invalidForward: bool)

  /** One offset for each period, periods in order, the last without end. */
  ghost predicate Ordered(z: Zone) {
    && |z.offsets| == |z.untils| > 0
    && z.untils[|z.untils| - 1] == Infinity
    && (forall i :: 0 <= i < |z.untils| - 1 ==> z.untils[i].Finite?)
    && (forall i, j :: 0 <= i < j < |z.untils| - 1 ==> z.untils[i].value < z.untils[j].value)
  }

  predicate Before(t: real, n: Number) {
    match n
    case Finite(value) => t < value
    case Infinity => true
    case NaN => false
  }

  /** The period of an instant, None when the zone has none for it. */
  method Index(z: Zone, t: real) returns (index: Option<nat>)
    ensures match index
            case Some(i) => i < |z.untils| && Before(t, z.untils[i]) && forall j :: 0 <= j < i ==>
              !Before(t, z.untils[j])
            case None => forall j :: 0 <= j < |z.untils| ==> !Before(t, z.untils[j])
    ensures Ordered(z) ==> index == Some(Period(z, t, 0))
    ensures Ordered(z) ==>
      && index.Some? && index.value < |z.untils|
      && (forall j :: 0 <= j < index.value ==> z.untils[j].value <= t)
      && (forall j :: index.value <= j < |z.untils| - 1 ==> t < z.untils[j].value)
  {
    for i := 0 to |z.untils|
      invariant forall j :: 0 <= j < i ==> !Before(t, z.untils[j])
      invariant Ordered(z) ==> i < |z.untils| && Period(z, t, 0) == Period(z, t, i)
    {
      if Before(t, z.untils[i]) {
        return Some(i);
      }
    }
    return None;
  }

  function Period(z: Zone, t: real, from: nat): (i: nat)
    requires Ordered(z) && from < |z.untils|
    ensures from <= i < |z.untils| && Before(t, z.untils[i])
    ensures forall j :: from <= j < i ==> !Before(t, z.untils[j])
    decreases |z.untils| - from
  {
    if Before(t, z.untils[from]) then from else Period(z, t, from + 1)
  }

  ghost function OffsetAt(z: Zone, t: real): real
    requires Ordered(z)
  {
    z.offsets[Period(z, t, 0)]
  }

  /** The clock on the wall. */
  ghost function LocalTime(z: Zone, t: real): real
    requires Ordered(z)
  {
    t - OffsetAt(z, t) * MINUTE
  }

  /** The offset at which the end of period `i` is read as a local time. */
  function Moved(z: Zone, flags: Flags, i: nat): real
    requires Ordered(z) && i < |z.untils| - 1
  {
    var offset := z.offsets[i];
    if offset < z.offsets[i + 1] && flags.ambiguousForward then z.offsets[i + 1]
    else if i > 0 && offset > z.offsets[i - 1] && flags.invalidForward then z.offsets[i - 1]
    else offset
  }

  /** The period of a local time. */
  function Parsed(z: Zone, flags: Flags, local: real, from: nat): (k: nat)
    requires Ordered(z) && from < |z.untils|
    ensures from <= k < |z.untils|
    ensures forall i :: from <= i < k ==> local >= z.untils[i].value - Moved(z, flags, i) * MINUTE
    ensures k < |z.untils| - 1 ==> local < z.untils[k].value - Moved(z, flags, k) * MINUTE
    decreases |z.untils| - from
  {
    if from == |z.untils| - 1 || local < z.untils[from].value - Moved(z, flags, from) * MINUTE then from
    else Parsed(z, flags, local, from + 1)
  }

  method Parse(z: Zone, flags: Flags, local: real) returns (r: real)
    requires Ordered(z)
    ensures r == z.offsets[Parsed(z, flags, local, 0)]
  {
    var max := |z.untils| - 1;
    for i := 0 to max
      invariant Parsed(z, flags, local, 0) == Parsed(z, flags, local, i)
    {
      var offset, offsetNext := z.offsets[i], z.offsets[i + 1];
      var offsetPrev := z.offsets[if i > 0 then i - 1 else i];
      if offset < offsetNext && flags.ambiguousForward {
        offset := offsetNext;
      } else if offset > offsetPrev && flags.invalidForward {
        offset := offsetPrev;
      }
      if local < z.untils[i].value - offset * MINUTE {
        return z.offsets[i];
      }
    }
    return z.offsets[max];
  }

  method MapIndices<T>(source: seq<T>, indices: seq<nat>) returns (out: seq<T>)
    requires forall i :: 0 <= i < |indices| ==> indices[i] < |source|
    ensures |out| == |indices| && forall i :: 0 <= i < |out| ==> out[i] == source[indices[i]]
  {
    out := [];
    for i := 0 to |indices|
      invariant |out| == i && forall j :: 0 <= j < i ==> out[j] == source[indices[j]]
    {
      out := out + [source[indices[i]]];
    }
  }

  /** A zone from its packed numbers. Its periods are in order exactly when the packed differences are
    * positive once rounded. */
  method Unpack(offsets: seq<real>, indices: seq<nat>, packed: seq<Number>) returns (z: Zone)
    requires |packed| == |indices| > 0
    requires forall i :: 0 <= i < |indices| ==> indices[i] < |offsets|
    requires forall i :: 0 <= i < |packed| - 1 ==> packed[i].Finite?
    ensures |z.offsets| == |indices| && forall i :: 0 <= i < |indices| ==> z.offsets[i] == offsets[indices[i]]
    ensures |z.untils| == |packed| && z.untils[|packed| - 1] == Infinity
    ensures forall i :: 0 <= i < |packed| - 1 ==> z.untils[i] == Instant(Minutes(packed), i)
    ensures Ordered(z) <==> Spaced(Minutes(packed)[..|packed| - 1])
  {
    var a := new Number[|packed|](i requires 0 <= i < |packed| => packed[i]);
    assert a[..] == packed;
    IntToUntil(a);
    var mapped := MapIndices(offsets, indices);
    z := Zone(mapped, a[..]);
    UnpackedOrder(z, Minutes(packed));
  }

  lemma {:induction false} UntilOfPrefix(minutes: seq<real>, n: nat, i: nat)
    requires i < n <= |minutes|
    ensures Until(minutes[..n], i) == Until(minutes, i)
  {
    if i > 0 {
      UntilOfPrefix(minutes, n, i - 1);
    }
  }

  lemma UnpackedOrder(z: Zone, minutes: seq<real>)
    requires |z.offsets| == |z.untils| == |minutes| > 0
    requires z.untils[|z.untils| - 1] == Infinity
    requires forall i :: 0 <= i < |z.untils| - 1 ==> z.untils[i] == Instant(minutes, i)
    ensures Ordered(z) <==> Spaced(minutes[..|minutes| - 1])
  {
    var differences := minutes[..|minutes| - 1];
    forall i | 0 <= i < |differences|
      ensures z.untils[i].Finite? && z.untils[i].value == Until(differences, i) as real
    {
      UntilOfPrefix(minutes, |minutes| - 1, i);
    }
    UntilsIncrease(differences);
  }

  // ---- the packed text

  /** string.split(separator), for a separator of one character. */
  function Split(s: string, separator: char): (fields: seq<string>)
    ensures fields != []
  {
    if s == "" then [""]
    else
      var front := Split(s[..|s| - 1], separator);
      var last := |front| - 1;
      if s[|s| - 1] == separator then front + [""] else front[..last] + [front[last] + [s[|s| - 1]]]
  }

  function Join(fields: seq<string>, separator: char): string
    requires fields != []
  {
    var last := |fields| - 1;
    if last == 0 then fields[0] else Join(fields[..last], separator) + [separator] + fields[last]
  }

  lemma JoinLast(fields: seq<string>, separator: char, more: string)
    requires fields != []
    ensures var last := |fields| - 1;
            Join(fields[..last] + [fields[last] + more], separator) == Join(fields, separator) + more
    ensures Join(fields + [more], separator) == Join(fields, separator) + [separator] + more
  {
    var last := |fields| - 1;
    var longer := fields[..last] + [fields[last] + more];
    assert longer[..last] == fields[..last] && longer[last] == fields[last] + more;
    assert (fields + [more])[..last + 1] == fields;
    if last > 0 {
      var front := Join(fields[..last], separator) + [separator];
      assert front + (fields[last] + more) == front + fields[last] + more;
    }
  }

  /** Splitting is undone by joining. */
  lemma {:induction false} SplitThenJoin(s: string, separator: char)
    ensures Join(Split(s, separator), separator) == s
  {
    if s != "" {
      var shorter, c := s[..|s| - 1], s[|s| - 1];
      var front := Split(shorter, separator);
      SplitThenJoin(shorter, separator);
      assert s == shorter + [c];
      if c == separator {
        JoinLast(front, separator, "");
        assert Split(s, separator) == front + [""];
        assert shorter + [separator] + "" == s;
      } else {
        JoinLast(front, separator, [c]);
        assert Split(s, separator) == front[..|front| - 1] + [front[|front| - 1] + [c]];
      }
    }
  }

  /** And leaves no separator in a field. */
  lemma {:induction false} SplitFields(s: string, separator: char, i: nat)
    requires i < |Split(s, separator)|
    ensures separator !in Split(s, separator)[i]
  {
    if s != "" {
      var front := Split(s[..|s| - 1], separator);
      if i < |front| {
        SplitFields(s[..|s| - 1], separator, i);
      }
    }
  }

  /** The data of a zone: a name, abbreviations, offsets, the index of the offset of each period, and the
    * differences of the ends of the periods, of which the last may be missing. */
  predicate WellFormed(data: seq<string>) {
    && |data| >= 5 && data[3] != ""
    && |data[3]| - 1 <= |Split(data[4], ' ')| <= |data[3]|
    && forall i :: 0 <= i < |data[3]| ==> 0 <= CharCodeToInt(data[3][i]) < |Split(data[2], ' ')|
  }

  /** arrayToInt. */
  method ArrayToInt(texts: seq<string>) returns (numbers: seq<real>)
    ensures |numbers| == |texts| && forall i :: 0 <= i < |texts| ==> numbers[i] == Value(texts[i])
  {
    numbers := [];
    for i := 0 to |texts|
      invariant |numbers| == i && forall j :: 0 <= j < i ==> numbers[j] == Value(texts[j])
    {
      var number := UnpackBase60(texts[i]);
      numbers := numbers + [number];
    }
  }

  ghost function Values(texts: seq<string>, n: nat): (values: seq<real>)
    requires n <= |texts|
    ensures |values| == n && forall i :: 0 <= i < n ==> values[i] == Value(texts[i])
  {
    seq(n, i requires 0 <= i < n => Value(texts[i]))
  }

  /** The zone that well-formed data stand for: each period has the offset its digit points at, the ends
    * are the sums of the differences, and the periods are in order exactly when those are positive once
    * rounded. */
  ghost predicate StandsFor(data: seq<string>, z: Zone)
    requires WellFormed(data)
  {
    var offsets, differences := Split(data[2], ' '), Values(Split(data[4], ' '), |data[3]| - 1);
    && |z.offsets| == |z.untils| == |data[3]|
    && (forall i :: 0 <= i < |z.offsets| ==> z.offsets[i] == Value(offsets[CharCodeToInt(data[3][i])]))
    && (forall i :: 0 <= i < |differences| ==> z.untils[i] == Instant(differences, i))
    && (Ordered(z) <==> Spaced(differences))
  }

  /** unpack. */
  method UnpackText(packed: string) returns (z: Zone)
    requires WellFormed(Split(packed, '|'))
    ensures StandsFor(Split(packed, '|'), z)
  {
    z := UnpackData(Split(packed, '|'));
  }

  method UnpackData(data: seq<string>) returns (z: Zone)
    requires WellFormed(data)
    ensures StandsFor(data, z)
  {
    var offsets := ArrayToInt(Split(data[2], ' '));
    var untils := ArrayToInt(Split(data[4], ' '));
    z := UnpackNumbers(offsets, data[3], untils);
    assert Values(Split(data[4], ' '), |data[3]| - 1) == untils[..|data[3]| - 1];
  }

  method UnpackNumbers(offsets: seq<real>, digits: string, untils: seq<real>) returns (z: Zone)
    requires digits != "" && |digits| - 1 <= |untils| <= |digits|
    requires forall i :: 0 <= i < |digits| ==> 0 <= CharCodeToInt(digits[i]) < |offsets|
    ensures |z.offsets| == |z.untils| == |digits|
    ensures forall i :: 0 <= i < |digits| ==> z.offsets[i] == offsets[CharCodeToInt(digits[i])]
    ensures forall i :: 0 <= i < |digits| - 1 ==> z.untils[i] == Instant(untils[..|digits| - 1], i)
    ensures Ordered(z) <==> Spaced(untils[..|digits| - 1])
  {
    var n := |digits|;
    var indices: seq<nat> := seq(n, i requires 0 <= i < n => CharCodeToInt(digits[i]) as nat);
    var numbers := seq(n, i requires 0 <= i < n => if i < |untils| then Finite(untils[i]) else NaN);
    z := Unpack(offsets, indices, numbers);
    assert Minutes(numbers)[..n - 1] == untils[..n - 1];
    forall i | 0 <= i < n - 1
      ensures z.untils[i] == Instant(untils[..n - 1], i)
    {
      UntilOfPrefix(Minutes(numbers), n - 1, i);
    }
  }

  // ---- parse undoes the shift to local time

  /** No two offsets of the zone differ by more than this, in milliseconds. */
  ghost predicate Spread(z: Zone, d: real) {
    forall i, j :: 0 <= i < |z.offsets| && 0 <= j < |z.offsets| ==> (z.offsets[i] - z.offsets[j]) * MINUTE <= d
  }

  /** The instant is at least `d` after each transition or more than `d` before it. */
  ghost predicate Away(z: Zone, t: real, d: real)
    requires Ordered(z)
  {
    forall i :: 0 <= i < |z.untils| - 1 ==> t >= z.untils[i].value + d || t < z.untils[i].value - d
  }

  /** Period `k` has begun and not ended when transition `i` is moved as parse moves it. */
  ghost predicate After(z: Zone, flags: Flags, t: real, k: nat, i: nat)
    requires Ordered(z) && k < |z.untils| && i < |z.untils| - 1
  {
    t >= z.untils[i].value + (z.offsets[k] - Moved(z, flags, i)) * MINUTE
  }

  /** Where the loop of parse stops. */
  lemma ParsedCut(z: Zone, flags: Flags, t: real, k: nat, p: nat)
    requires Ordered(z) && k == Period(z, t, 0) && p == Parsed(z, flags, LocalTime(z, t), 0)
    ensures forall i :: 0 <= i < p ==> After(z, flags, t, k, i)
    ensures p < |z.untils| - 1 ==> !After(z, flags, t, k, p)
  {
    forall i | 0 <= i < |z.untils| - 1
      ensures After(z, flags, t, k, i) <==> LocalTime(z, t) >= z.untils[i].value - Moved(z, flags, i) * MINUTE
    {
    }
  }

  /** The period found is the right one exactly when each earlier transition, and the next one, is far
    * enough away for the offset it is read at. */
  lemma ParsedPeriod(z: Zone, flags: Flags, t: real, k: nat)
    requires Ordered(z) && k == Period(z, t, 0)
    ensures Parsed(z, flags, LocalTime(z, t), 0) == k
       <==> (forall i :: 0 <= i < k ==> After(z, flags, t, k, i)) && (k < |z.untils| - 1 ==> !After(z, flags, t, k, k))
  {
    ParsedCut(z, flags, t, k, Parsed(z, flags, LocalTime(z, t), 0));
  }

  lemma MovedLittle(z: Zone, flags: Flags, d: real, k: nat, i: nat)
    requires Ordered(z) && Spread(z, d) && k < |z.untils| && i < |z.untils| - 1
    ensures -d <= (z.offsets[k] - Moved(z, flags, i)) * MINUTE <= d
  {
    assert Moved(z, flags, i) in z.offsets;
    var m :| 0 <= m < |z.offsets| && z.offsets[m] == Moved(z, flags, i);
    assert (z.offsets[k] - z.offsets[m]) * MINUTE <= d;
    assert (z.offsets[m] - z.offsets[k]) * MINUTE <= d;
  }

  /** Away from the transitions, whatever the flags, parsing the local time gives the offset back. */
  lemma {:induction false} ParseUndoesShift(z: Zone, flags: Flags, t: real, d: real)
    requires Ordered(z) && Spread(z, d) && Away(z, t, d)
    ensures z.offsets[Parsed(z, flags, LocalTime(z, t), 0)] == OffsetAt(z, t)
  {
    var k := Period(z, t, 0);
    assert (z.offsets[k] - z.offsets[k]) * MINUTE <= d;
    ParsedPeriod(z, flags, t, k);
    forall i | 0 <= i < |z.untils| - 1
      ensures After(z, flags, t, k, i) <==> i < k
    {
      MovedLittle(z, flags, d, k, i);
      assert i < k ==> !Before(t, z.untils[i]);
      assert i > k ==> z.untils[k].value < z.untils[i].value;
    }
  }

  /** Being at least that far away on either side is not enough: just as far before a transition, an
    * ambiguous local time moved forward lands in the next period. */
  lemma ExactlySpreadBefore(u: real, a: real, b: real)
    requires a < b
    ensures var z := Zone([a, b], [Finite(u), Infinity]);
            var t := u - (b - a) * MINUTE;
            && Ordered(z) && Spread(z, (b - a) * MINUTE) && OffsetAt(z, t) == a
            && z.offsets[Parsed(z, Flags(true, false), LocalTime(z, t), 0)] == b
  {
    var z := Zone([a, b], [Finite(u), Infinity]);
    var t := u - (b - a) * MINUTE;
    assert (b - a) * MINUTE > 0.0;
    assert Period(z, t, 0) == 0;
    assert Moved(z, Flags(true, false), 0) == b;
    assert LocalTime(z, t) == u - b * MINUTE;
    assert Parsed(z, Flags(true, false), LocalTime(z, t), 1) == 1;
  }

  /** Transitions are further apart than twice what any two offsets differ by. */
  ghost predicate Sparse(z: Zone, d: real)
    requires Ordered(z)
  {
    forall i :: 0 <= i < |z.untils| - 2 ==> z.untils[i + 1].value - z.untils[i].value > 2.0 * d
  }

  /** In such a zone the offset comes back exactly when the transition before, if it changed the offset,
    * is far enough behind for the offset its end is read at, and the next one, if it changes the
    * offset, far enough ahead for its own. */
  lemma {:induction false} ParseExactly(z: Zone, flags: Flags, t: real, d: real, k: nat)
    requires Ordered(z) && Spread(z, d) && Sparse(z, d) && k == Period(z, t, 0)
    ensures z.offsets[Parsed(z, flags, LocalTime(z, t), 0)] == OffsetAt(z, t)
       <==> && (k > 0 && z.offsets[k - 1] != z.offsets[k] ==> After(z, flags, t, k, k - 1))
            && (k < |z.untils| - 1 && z.offsets[k + 1] != z.offsets[k] ==> !After(z, flags, t, k, k))
  {
    var p := Parsed(z, flags, LocalTime(z, t), 0);
    NearPeriod(z, flags, t, d, k, p);
    if 0 < k < |z.untils| - 1 {
      NotBoth(z, flags, t, d, k);
    }
  }

  /** Only a neighbour can be taken for the right period. */
  lemma NearPeriod(z: Zone, flags: Flags, t: real, d: real, k: nat, p: nat)
    requires Ordered(z) && Spread(z, d) && Sparse(z, d)
    requires k == Period(z, t, 0) && p == Parsed(z, flags, LocalTime(z, t), 0)
    ensures k - 1 <= p <= k + 1
    ensures p == k - 1 ==> !After(z, flags, t, k, k - 1)
    ensures p >= k && k > 0 ==> After(z, flags, t, k, k - 1)
    ensures p == k && k < |z.untils| - 1 ==> !After(z, flags, t, k, k)
    ensures p == k + 1 ==> After(z, flags, t, k, k)
  {
    ParsedCut(z, flags, t, k, p);
    if p < k - 1 {
      FarFromOthers(z, flags, t, d, k, p);
    }
    if k < p - 1 {
      FarFromOthers(z, flags, t, d, k, k + 1);
    }
  }

  /** An instant too close to the transition before is far from the next. */
  lemma NotBoth(z: Zone, flags: Flags, t: real, d: real, k: nat)
    requires Ordered(z) && Spread(z, d) && Sparse(z, d) && k == Period(z, t, 0) && 0 < k < |z.untils| - 1
    ensures After(z, flags, t, k, k) ==> After(z, flags, t, k, k - 1)
  {
    MovedLittle(z, flags, d, k, k);
    MovedLittle(z, flags, d, k, k - 1);
    assert z.untils[k - 1 + 1].value - z.untils[k - 1].value > 2.0 * d;
  }

  lemma FarFromOthers(z: Zone, flags: Flags, t: real, d: real, k: nat, i: nat)
    requires Ordered(z) && Spread(z, d) && Sparse(z, d) && k == Period(z, t, 0) && i < |z.untils| - 1
    ensures i < k - 1 ==> After(z, flags, t, k, i)
    ensures i > k ==> !After(z, flags, t, k, i)
  {
    MovedLittle(z, flags, d, k, i);
    if i < k - 1 {
      assert !Before(t, z.untils[k - 1]);
      assert z.untils[i + 1].value <= z.untils[k - 1].value;
    }
    if i > k {
      assert z.untils[k].value <= z.untils[i - 1].value;
      assert z.untils[i - 1 + 1].value - z.untils[i - 1].value > 2.0 * d;
    }
  }

  // ---- local times that the clock skips or shows twice

  /** A local time within `d` of the end of period `i`, as that period reads it. */
  ghost predicate NearEnd(z: Zone, local: real, d: real, i: nat)
    requires Ordered(z) && i < |z.untils| - 1
  {
    -d <= local - (z.untils[i].value - z.offsets[i] * 60000.0) <= d
  }

  /** In a zone of sparse transitions only this end decides. */
  lemma OnlyThisEnd(z: Zone, flags: Flags, local: real, d: real, i: nat)
    requires Ordered(z) && Spread(z, d) && Sparse(z, d) && i < |z.untils| - 1 && NearEnd(z, local, d, i)
    ensures Parsed(z, flags, local, 0) == if local < z.untils[i].value - Moved(z, flags, i) * MINUTE then i else i + 1
  {
    var p := Parsed(z, flags, local, 0);
    if p < i {
      OtherEnd(z, flags, local, d, i, p);
    }
    if i < |z.untils| - 2 {
      OtherEnd(z, flags, local, d, i, i + 1);
    }
  }

  lemma OtherEnd(z: Zone, flags: Flags, local: real, d: real, i: nat, j: nat)
    requires Ordered(z) && Spread(z, d) && Sparse(z, d) && i < |z.untils| - 1 && NearEnd(z, local, d, i)
    requires j < |z.untils| - 1 && j != i
    ensures local >= z.untils[j].value - Moved(z, flags, j) * MINUTE <==> j < i
  {
    MovedLittle(z, flags, d, i, j);
    if j < i {
      assert z.untils[j + 1].value - z.untils[j].value > 2.0 * d;
      assert z.untils[j + 1].value <= z.untils[i].value;
    } else {
      assert z.untils[i].value <= z.untils[j - 1].value;
      assert z.untils[j - 1 + 1].value - z.untils[j - 1].value > 2.0 * d;
    }
  }

  lemma SpreadOf(z: Zone, d: real, i: nat, j: nat)
    requires Spread(z, d) && i < |z.offsets| && j < |z.offsets|
    ensures -d <= z.offsets[i] * 60000.0 - z.offsets[j] * 60000.0 <= d
  {
    assert (z.offsets[i] - z.offsets[j]) * MINUTE <= d;
    assert (z.offsets[j] - z.offsets[i]) * MINUTE <= d;
  }

  /** Where the offset of a period is larger than the one before, which it will go back to, the local times
    * between its end as the two read it are skipped by the clock. They are taken for times of this period
    * exactly if invalid times are moved forward, and else for times of the next, unless the next period
    * has a larger offset still and ambiguous times are moved forward. */
  lemma SkippedTimes(z: Zone, flags: Flags, local: real, d: real, i: nat)
    requires Ordered(z) && Spread(z, d) && Sparse(z, d) && 0 < i < |z.untils| - 1
    requires z.offsets[i - 1] < z.offsets[i] && (z.offsets[i] >= z.offsets[i + 1] || !flags.ambiguousForward)
    requires z.untils[i].value - z.offsets[i] * 60000.0 <= local < z.untils[i].value - z.offsets[i - 1] * 60000.0
    ensures z.offsets[Parsed(z, flags, local, 0)] == z.offsets[if flags.invalidForward then i else i + 1]
  {
    SpreadOf(z, d, i, i - 1);
    OnlyThisEnd(z, flags, local, d, i);
  }

  /** Where the next period has a larger offset, the local times between the end of this one as the two
    * read it are shown twice. They are taken for times of the next period exactly if ambiguous times are
    * moved forward, and else for times of this one, whatever becomes of invalid times. */
  lemma RepeatedTimes(z: Zone, flags: Flags, local: real, d: real, i: nat)
    requires Ordered(z) && Spread(z, d) && Sparse(z, d) && i < |z.untils| - 1
    requires z.offsets[i] < z.offsets[i + 1]
    requires z.untils[i].value - z.offsets[i + 1] * 60000.0 <= local < z.untils[i].value - z.offsets[i] * 60000.0
    ensures z.offsets[Parsed(z, flags, local, 0)] == z.offsets[if flags.ambiguousForward then i + 1 else i]
  {
    SpreadOf(z, d, i + 1, i);
    OnlyThisEnd(z, flags, local, d, i);
  }

  /** All other local times near the end of a period are read as they should be, whatever the flags: before
    * the end as this period and the next read it, in this one; from the end on as this period, the next
    * and the one before read it, in the next. */
  lemma OtherTimes(z: Zone, flags: Flags, local: real, d: real, i: nat)
    requires Ordered(z) && Spread(z, d) && Sparse(z, d) && i < |z.untils| - 1 && NearEnd(z, local, d, i)
    ensures (forall j :: i <= j <= i + 1 ==> local < z.untils[i].value - z.offsets[j] * 60000.0) ==>
      z.offsets[Parsed(z, flags, local, 0)] == z.offsets[i]
    ensures (forall j :: i - 1 <= j <= i + 1 && 0 <= j ==> local >= z.untils[i].value - z.offsets[j] * 60000.0) ==>
      z.offsets[Parsed(z, flags, local, 0)] == z.offsets[i + 1]
  {
    OnlyThisEnd(z, flags, local, d, i);
    if forall j :: i - 1 <= j <= i + 1 && 0 <= j ==> local >= z.untils[i].value - z.offsets[j] * 60000.0 {
      assert local >= z.untils[i].value - z.offsets[i] * 60000.0;
    }
  }

  /** Clocks go forward by an hour at `u` and the site's flags move invalid times forward: half past in
    * the skipped hour is read with the offset of the period that ends. */
  lemma HalfPastInTheSkippedHour(u: real, local: real, flags: Flags)
    requires u > 3600000.0 * 2.0 && local == u - 270.0 * 60000.0 && !flags.ambiguousForward
    ensures var z := Zone([240.0, 300.0, 240.0], [Finite(0.0), Finite(u), Infinity]);
            && Ordered(z)
            && z.offsets[Parsed(z, flags, local, 0)] == if flags.invalidForward then 300.0 else 240.0
  {
    var z := Zone([240.0, 300.0, 240.0], [Finite(0.0), Finite(u), Infinity]);
    SkippedTimes(z, flags, local, 3600000.0, 1);
  }
}

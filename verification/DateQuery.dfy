/** Which incidents of a period go on the timeline and which are shown as scheduled:
  * serves/common.go, models/incident.go. */
module DateQuery {
  import opened Wrappers
  import opened Models
  import Seqs
  import Files

  // The first instant of 2000, 730119 days after the zero time.
  const YEAR_2000: Time := 730119 * 86400 * 1000000000

  predicate HasRealScheduledEndDate(incident: Incident) {
    incident.scheduledEnd != ZERO_TIME && incident.scheduledEnd > YEAR_2000
  }

  /** Asked at `now`; `disable` is the setting that keeps maintenances off the timeline for good. */
  predicate ShouldBeIncident(incident: Incident, now: Time, disable: bool) {
    if !disable then
      !((incident.isScheduled && incident.scheduledEnd > now)
        || (incident.isScheduled && (incident.state == RESOLVED || incident.state == IDLE)))
    else !HasRealScheduledEndDate(incident)
  }

  // ---- the period of a request

  const SECOND: Time := 1000000000
  const DAY: Time := 86400 * SECOND

  /** A date in the query of a request. */
  datatype Param = Missing | Date(at: Time) | Malformed

  datatype Query = Query(from: Param, to: Param)

  datatype Window = Window(from: Time, to: Time)

  function ParseDate(param: Param, default_: Time): Option<Time> {
    match param
    case Missing => Some(default_)
    case Date(at) => Some(at)
    case Malformed => None
  }

  /** periodFromReq: whole days around `midnight`, the start of today, unless the request says otherwise. */
  function PeriodFromReq(query: Query, midnight: Time, daysFrom: int, daysTo: int): Option<Window> {
    match ParseDate(query.from, midnight + daysFrom * DAY)
    case None => None
    case Some(from) =>
      match ParseDate(query.to, from - daysFrom * DAY + daysTo * DAY + DAY - SECOND)
      case None => None
      case Some(to) => Some(Window(from, to))
  }

  predicate Within(incident: Incident, window: Window) {
    window.from <= incident.createdAt <= window.to
  }

  /** What a store finds in a window, in its own order. */
  function Found(stored: seq<Incident>, window: Window): seq<Incident> {
    if stored == [] then []
    else
      var last := stored[|stored| - 1];
      Found(stored[..|stored| - 1], window) + if Within(last, window) then [last] else []
  }

  lemma {:induction false} FoundCounts(stored: seq<Incident>, window: Window, x: Incident)
    ensures multiset(Found(stored, window))[x]
         == if window.from <= x.createdAt <= window.to then multiset(stored)[x] else 0
  {
    if stored != [] {
      var front, last := stored[..|stored| - 1], stored[|stored| - 1];
      FoundCounts(front, window, x);
      Seqs.CountLast(stored, x);
      Seqs.CountMore(Found(front, window), if Within(last, window) then [last] else [], x);
    }
  }

  /** All that a file store lists. */
  ghost function Listed(files: map<string, Incident>, names: seq<string>): seq<Incident>
    requires forall i :: 0 <= i < |names| ==> names[i] in files || Files.Reserved(names[i])
  {
    if names == [] then []
    else
      var last := names[|names| - 1];
      Listed(files, names[..|names| - 1]) + if Files.Reserved(last) then [] else [files[last]]
  }

  /** What a directory or a bucket gives for a period is what the page takes a store to find in it. */
  lemma {:induction false} ListingIsFound(files: map<string, Incident>, names: seq<string>, window: Window)
    requires forall i :: 0 <= i < |names| ==> names[i] in files || Files.Reserved(names[i])
    ensures Files.InWindow(files, names, window.from, window.to) == Found(Listed(files, names), window)
  {
    if names != [] {
      var front, last := names[..|names| - 1], names[|names| - 1];
      ListingIsFound(files, front, window);
      var before, all := Listed(files, front), Listed(files, names);
      var shown := Files.InWindow(files, front, window.from, window.to);
      if Files.Reserved(last) {
        assert all == before && Files.InWindow(files, names, window.from, window.to) == shown;
      } else {
        assert all == before + [files[last]] && all[..|before|] == before;
        assert Found(all, window) == Found(before, window) + if Within(files[last], window) then [files[last]] else [];
      }
    }
  }

  /** How many of the incidents before place `k` of the store were created in a period: the place of that
    * incident in what a query for the period finds. */
  ghost function Earlier(stored: seq<Incident>, window: Window, k: nat): nat {
    |EarlierPlaces(stored, window, k)|
  }

  ghost function EarlierPlaces(stored: seq<Incident>, window: Window, k: nat): set<nat> {
    set j: nat | j < k && j < |stored| && window.from <= stored[j].createdAt <= window.to
  }

  lemma {:induction false} EarlierFound(stored: seq<Incident>, window: Window, k: nat)
    requires k <= |stored|
    ensures Earlier(stored, window, k) == |Found(stored[..k], window)|
  {
    if k > 0 {
      assert stored[..k][..k - 1] == stored[..k - 1];
      EarlierFound(stored, window, k - 1);
      OneMorePlace(stored, window, k - 1);
    }
  }

  lemma OneMorePlace(stored: seq<Incident>, window: Window, k: nat)
    requires k < |stored|
    ensures Earlier(stored, window, k + 1) == Earlier(stored, window, k) + if Within(stored[k], window) then 1 else 0
  {
    var before, after := EarlierPlaces(stored, window, k), EarlierPlaces(stored, window, k + 1);
    assert k !in before;
    if Within(stored[k], window) {
      assert after == before + {k};
    } else {
      assert after == before;
    }
  }

  /** A place in what is found is a place in the store. */
  lemma {:induction false} FoundPlaces(stored: seq<Incident>, window: Window, x: Incident, n: nat, found: nat -> bool,
                                       ok: nat -> bool)
    requires n <= |stored|
    requires forall k: nat :: k < |stored| ==>
      (ok(k) <==> window.from <= x.createdAt <= window.to && found(Earlier(stored, window, k)))
    ensures Seqs.Places(Found(stored[..n], window), x, found) == Seqs.Places(stored[..n], x, ok)
  {
    if n > 0 {
      FoundPlaces(stored, window, x, n - 1, found, ok);
      var front, last := stored[..n - 1], stored[n - 1];
      assert stored[..n][..n - 1] == front;
      EarlierFound(stored, window, n - 1);
      Seqs.PlacesLast(stored[..n], x, ok);
      var before, all := Found(front, window), Found(stored[..n], window);
      if Within(last, window) {
        assert all == before + [last] && all[..|before|] == before;
        Seqs.PlacesLast(all, x, found);
        assert last == x ==> (ok(n - 1) <==> found(|before|));
      } else {
        assert all == before;
        assert last == x ==> !ok(n - 1);
      }
    }
  }

  // ---- the two queries

  /** The incidents of the listing judged `wanted`, in order; the clock is read for each of them, and
    * `clock(i)` is what it says for the one at position `i`. */
  function Judged(listing: seq<Incident>, clock: nat -> Time, disable: bool, wanted: bool): seq<Incident> {
    if listing == [] then []
    else
      var n := |listing| - 1;
      Judged(listing[..n], clock, disable, wanted) + Last(listing, clock, disable, wanted)
  }

  /** The last of the listing, if that is judged so. */
  function Last(listing: seq<Incident>, clock: nat -> Time, disable: bool, wanted: bool): seq<Incident>
    requires listing != []
  {
    var n := |listing| - 1;
    if ShouldBeIncident(listing[n], clock(n), disable) == wanted then [listing[n]] else []
  }

  lemma {:induction false} JudgedPlaces(listing: seq<Incident>, clock: nat -> Time, disable: bool, wanted: bool,
                                        x: Incident, ok: nat -> bool)
    requires forall i: nat :: ok(i) <==> ShouldBeIncident(x, clock(i), disable) == wanted
    ensures multiset(Judged(listing, clock, disable, wanted))[x] == Seqs.Places(listing, x, ok)
  {
    if listing != [] {
      var front := listing[..|listing| - 1];
      JudgedPlaces(front, clock, disable, wanted, x, ok);
      Seqs.PlacesLast(listing, x, ok);
      Seqs.CountMore(Judged(front, clock, disable, wanted), Last(listing, clock, disable, wanted), x);
    }
  }

  /** How often an incident is judged scheduled: once for each place at which it is listed and the clock has
    * it so. Without the setting that is a maintenance whose end has not passed, or which is resolved or
    * idle; with it, whatever has a scheduled end after the first instant of 2000. */
  lemma ScheduledPlaces(listing: seq<Incident>, clock: nat -> Time, disable: bool, x: Incident)
    ensures multiset(Judged(listing, clock, disable, false))[x]
         == Seqs.Places(listing, x, (i: nat) =>
              if disable then x.scheduledEnd > 63082281600 * 1000000000
              else x.isScheduled && (x.scheduledEnd > clock(i) || x.state == RESOLVED || x.state == IDLE))
  {
    JudgedPlaces(listing, clock, disable, false, x, (i: nat) =>
      if disable then x.scheduledEnd > 63082281600 * 1000000000
      else x.isScheduled && (x.scheduledEnd > clock(i) || x.state == RESOLVED || x.state == IDLE));
  }

  /** And how often an incident: without the setting what is no maintenance, or one that is over but neither
    * resolved nor idle; with it, whatever has no such end. */
  lemma IncidentPlaces(listing: seq<Incident>, clock: nat -> Time, disable: bool, x: Incident)
    ensures multiset(Judged(listing, clock, disable, true))[x]
         == Seqs.Places(listing, x, (i: nat) =>
              if disable then x.scheduledEnd <= 63082281600 * 1000000000
              else !x.isScheduled || (x.scheduledEnd <= clock(i) && x.state != RESOLVED && x.state != IDLE))
  {
    JudgedPlaces(listing, clock, disable, true, x, (i: nat) =>
      if disable then x.scheduledEnd <= 63082281600 * 1000000000
      else !x.isScheduled || (x.scheduledEnd <= clock(i) && x.state != RESOLVED && x.state != IDLE));
  }

  ghost predicate LatestFirst(incidents: seq<Incident>) {
    forall i, j :: 0 <= i < j < |incidents| ==> incidents[i].createdAt >= incidents[j].createdAt
  }

  /** `listing` is what the store gives for the period, None when it fails. */
  method Scheduled(listing: Option<seq<Incident>>, clock: nat -> Time, disable: bool)
    returns (shown: Option<seq<Incident>>)
    ensures shown.Some? <==> listing.Some?
    ensures shown.Some? ==> OldestFirst(shown.value)
    ensures shown.Some? ==> multiset(shown.value) == multiset(Judged(listing.value, clock, disable, false))
    ensures shown.Some? ==> forall x ::
      multiset(shown.value)[x] ==
      Seqs.Places(listing.value, x, (i: nat) =>
           if disable then x.scheduledEnd > 63082281600 * 1000000000
           else x.isScheduled && (x.scheduledEnd > clock(i) || x.state == RESOLVED || x.state == IDLE))
  {
    if listing == None {
      return None;
    }
    var incidents := listing.value;
    var scheduled := [];
    for i := 0 to |incidents|
      invariant scheduled == Judged(incidents[..i], clock, disable, false)
    {
      assert incidents[..i + 1][..i] == incidents[..i];
      if !ShouldBeIncident(incidents[i], clock(i), disable) {
        scheduled := scheduled + [incidents[i]];
      }
    }
    assert incidents[..|incidents|] == incidents;
    forall x {
      ScheduledPlaces(incidents, clock, disable, x);
    }
    var sorted := SortByCreation(scheduled);
    return Some(sorted);
  }

  method IncidentsByParamsDate(listing: Option<seq<Incident>>, allType: bool, clock: nat -> Time, disable: bool)
    returns (shown: Option<seq<Incident>>)
    ensures shown.Some? <==> listing.Some?
    ensures shown.Some? ==> LatestFirst(shown.value)
    ensures shown.Some? ==>
      multiset(shown.value) == multiset(if allType then listing.value else Judged(listing.value, clock, disable, true))
    ensures shown.Some? && !allType ==> forall x ::
      multiset(shown.value)[x] ==
      Seqs.Places(listing.value, x, (i: nat) =>
           if disable then x.scheduledEnd <= 63082281600 * 1000000000
           else !x.isScheduled || (x.scheduledEnd <= clock(i) && x.state != RESOLVED && x.state != IDLE))
  {
    if listing == None {
      return None;
    }
    var incidents := listing.value;
    var final := [];
    for i := 0 to |incidents|
      invariant final == if allType then incidents[..i] else Judged(incidents[..i], clock, disable, true)
    {
      assert incidents[..i + 1][..i] == incidents[..i];
      if allType {
        final := final + [incidents[i]];
        continue;
      }
      if !ShouldBeIncident(incidents[i], clock(i), disable) {
        continue;
      }
      final := final + [incidents[i]];
    }
    assert incidents[..|incidents|] == incidents;
    forall x {
      IncidentPlaces(incidents, clock, disable, x);
    }
    var sorted := Seqs.SortBy(final, (x: Incident) => -x.createdAt);
    return Some(sorted);
  }

  /** Asked at one and the same moment, the two halves of a period lose nothing and share nothing: every
    * occurrence of an incident is on the side it belongs to, and none is on the other. */
  lemma {:induction false} OneReadingSplits(listing: seq<Incident>, clock: nat -> Time, now: Time, disable: bool,
                                            wanted: bool, x: Incident)
    requires forall k: nat :: clock(k) == now
    ensures multiset(Judged(listing, clock, disable, wanted))[x]
         == if ShouldBeIncident(x, now, disable) == wanted then multiset(listing)[x] else 0
  {
    if listing != [] {
      var n := |listing| - 1;
      OneReadingSplits(listing[..n], clock, now, disable, wanted, x);
      Seqs.CountLast(listing, x);
      Seqs.CountMore(Judged(listing[..n], clock, disable, wanted), Last(listing, clock, disable, wanted), x);
    }
  }

  // ---- the page asks twice

  /** Its scheduled end passes between the first look at it and the second. */
  predicate EndsBetween(incident: Incident, first: Time, second: Time, disable: bool) {
    && !disable && incident.isScheduled
    && incident.state != RESOLVED && incident.state != IDLE
    && first < incident.scheduledEnd <= second
  }

  /** An incident found once is judged once. */
  lemma {:induction false} JudgedCounts(listing: seq<Incident>, clock: nat -> Time, disable: bool, wanted: bool,
                                        i: nat, x: Incident)
    requires i < |listing| && listing[i] == x && multiset(listing)[x] == 1
    ensures multiset(Judged(listing, clock, disable, wanted))[x]
         == if ShouldBeIncident(x, clock(i), disable) == wanted then 1 else 0
  {
    var n := |listing| - 1;
    var front, last := Judged(listing[..n], clock, disable, wanted), Last(listing, clock, disable, wanted);
    Seqs.CountMore(front, last, x);
    Seqs.CountLast(listing, x);
    if i < n {
      assert x in listing[..n];
      JudgedCounts(listing[..n], clock, disable, wanted, i, x);
    } else {
      JudgedAmong(listing[..n], clock, disable, wanted, x);
    }
  }

  lemma {:induction false} JudgedAmong(listing: seq<Incident>, clock: nat -> Time, disable: bool, wanted: bool,
                                       x: Incident)
    requires x !in listing
    ensures multiset(Judged(listing, clock, disable, wanted))[x] == 0
  {
    if listing != [] {
      JudgedAmong(listing[..|listing| - 1], clock, disable, wanted, x);
    }
  }

  /** The page first asks for the timeline and later for the scheduled incidents. An incident of both
    * periods, found once in each, is shown exactly once, on one side or the other, unless its scheduled
    * end passes between the two looks: then it is on neither, and that is the only way to lose it. */
  lemma {:induction false} ShownOnceUnlessItEnds(timeline: seq<Incident>, scheduled: seq<Incident>,
                                                 first: nat -> Time, second: nat -> Time,
                              disable: bool, i: nat, j: nat, x: Incident)
    requires i < |timeline| && timeline[i] == x && multiset(timeline)[x] == 1
    requires j < |scheduled| && scheduled[j] == x && multiset(scheduled)[x] == 1
    requires first(i) <= second(j)
    ensures multiset(Judged(timeline, first, disable, true))[x] + multiset(Judged(scheduled, second, disable, false))[x]
         == if EndsBetween(x, first(i), second(j), disable) then 0 else 1
  {
    JudgedCounts(timeline, first, disable, true, i, x);
    JudgedCounts(scheduled, second, disable, false, j, x);
  }

  // ---- the page asks for two periods

  /** Whether the page shows the incident, looked at at `t` for the timeline and at `u` for the scheduled ones. */
  predicate OnTimeline(x: Incident, window: Window, t: Time, disable: bool) {
    Within(x, window) && ShouldBeIncident(x, t, disable)
  }

  predicate OnSchedule(x: Incident, window: Window, u: Time, disable: bool) {
    Within(x, window) && !ShouldBeIncident(x, u, disable)
  }

  /** What a query shows of a stored incident. `i` is its place in what the store finds. */
  lemma ShownBy(stored: seq<Incident>, window: Window, clock: nat -> Time, disable: bool, wanted: bool, x: Incident,
                i: nat)
    requires multiset(stored)[x] == 1
    requires Within(x, window) ==> i < |Found(stored, window)| && Found(stored, window)[i] == x
    ensures multiset(Judged(Found(stored, window), clock, disable, wanted))[x]
         == if Within(x, window) && ShouldBeIncident(x, clock(i), disable) == wanted then 1 else 0
  {
    FoundCounts(stored, window, x);
    if Within(x, window) {
      JudgedCounts(Found(stored, window), clock, disable, wanted, i, x);
    } else {
      JudgedAmong(Found(stored, window), clock, disable, wanted, x);
    }
  }

  /** Exactly when the page shows a stored incident, and that it shows it at most once: on the timeline if
    * it falls into the first period and is judged an incident when it is looked at there, among the
    * scheduled if it falls into the second and is not when it is looked at again. */
  lemma {:induction false} ShownExactly(stored: seq<Incident>, one: Window, two: Window, first: nat -> Time,
                                        second: nat -> Time,
                     disable: bool, x: Incident, i: nat, j: nat)
    requires multiset(stored)[x] == 1 && first(i) <= second(j)
    requires Within(x, one) ==> i < |Found(stored, one)| && Found(stored, one)[i] == x
    requires Within(x, two) ==> j < |Found(stored, two)| && Found(stored, two)[j] == x
    ensures multiset(Judged(Found(stored, one), first, disable, true))[x]
          + multiset(Judged(Found(stored, two), second, disable, false))[x]
         == if OnTimeline(x, one, first(i), disable) || OnSchedule(x, two, second(j), disable) then 1 else 0
  {
    ShownBy(stored, one, first, disable, true, x, i);
    ShownBy(stored, two, second, disable, false, x, j);
  }

  /** The periods of a request that names none: six days back to today, and today to twenty-six days on.
    * Judged at one moment, an incident is on the page exactly when it falls into the period of its own
    * side: six days back for an incident, but only today and later for a maintenance. */
  lemma DefaultPageShows(midnight: Time, t: Time, disable: bool, x: Incident)
    ensures var query := Query(Missing, Missing);
            var one, two := PeriodFromReq(query, midnight, -6, 0), PeriodFromReq(query, midnight, 0, 26);
            && one.Some? && two.Some?
            && (OnTimeline(x, one.value, t, disable) || OnSchedule(x, two.value, t, disable) <==>
                  if ShouldBeIncident(x, t, disable) then midnight - 6 * DAY <= x.createdAt <= midnight + DAY - SECOND
                  else midnight <= x.createdAt <= midnight + 27 * DAY - SECOND)
  {
  }

  /** So a maintenance under way that began before today is on neither side. */
  lemma OngoingMaintenanceIsNowhere(midnight: Time, t: Time, x: Incident)
    requires x.isScheduled && x.createdAt < midnight && x.scheduledEnd > t
    ensures !OnTimeline(x, PeriodFromReq(Query(Missing, Missing), midnight, -6, 0).value, t, false)
    ensures !OnSchedule(x, PeriodFromReq(Query(Missing, Missing), midnight, 0, 26).value, t, false)
  {
    DefaultPageShows(midnight, t, false, x);
  }

  /** A request that names the start of the period moves both: then nothing is lost but what is outside of
    * the longer one, or an incident later than the shorter one. */
  lemma ChosenPageShows(from: Time, midnight: Time, t: Time, disable: bool, x: Incident)
    ensures var query := Query(Date(from), Missing);
            var one, two := PeriodFromReq(query, midnight, -6, 0), PeriodFromReq(query, midnight, 0, 26);
            && one.Some? && two.Some?
            && (OnTimeline(x, one.value, t, disable) || OnSchedule(x, two.value, t, disable) <==>
                  && from <= x.createdAt
                  && x.createdAt <= from + (if ShouldBeIncident(x, t, disable) then 7 else 27) * DAY - SECOND)
  {
  }
}

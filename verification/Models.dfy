/** The values the status page works on: models/incident.go, models/message.go, models/flags.go. */
module Models {
  import opened Wrappers
  import Seqs

  // Nanoseconds since January 1 of year 1, UTC: Go's zero time is 0.
  type Time = int

  const ZERO_TIME: Time := 0

  // models.ComponentState
  const OPERATIONAL: int := 0
  const UNDER_MAINTENANCE: int := 1
  const MAJOR_OUTAGE: int := 4

  // models.IncidentState
  const UNRESOLVED: int := 0
  const RESOLVED: int := 1
  const IDLE: int := 3
  const CANCELLED: int := 4

  datatype Component = Component(name: string, group: string)

  datatype Message = Message(guid: string, incidentGuid: string, createdAt: Time, title: string, content: string)

  datatype Incident = Incident(
    guid: string,
    createdAt: Time,
    updatedAt: Time,
    state: int,
    componentState: int,
    components: Option<seq<Component>>,
    messages: seq<Message>,
    metadata: seq<string>,
    isScheduled: bool,
    scheduledEnd: Time,
    origin: string,
    persistent: bool)

  // Incident{}, what Find gives for a guid it does not find.
  const NO_INCIDENT := Incident("", ZERO_TIME, ZERO_TIME, 0, 0, None, [], [], false, ZERO_TIME, "", false)

  // ---- Incidents.Filter, Find, Less

  function Without(incidents: seq<Incident>, guid: string): seq<Incident> {
    if incidents == [] then []
    else
      var last := incidents[|incidents| - 1];
      Without(incidents[..|incidents| - 1], guid) + if last.guid == guid then [] else [last]
  }

  ghost predicate Unique(incidents: seq<Incident>) {
    forall i, j :: 0 <= i < j < |incidents| ==> incidents[i].guid != incidents[j].guid
  }

  ghost predicate OldestFirst(incidents: seq<Incident>) {
    forall i, j :: 0 <= i < j < |incidents| ==> incidents[i].createdAt <= incidents[j].createdAt
  }

  method Filter(incidents: seq<Incident>, guid: string) returns (kept: seq<Incident>)
    ensures kept == Without(incidents, guid)
  {
    kept := [];
    for i := 0 to |incidents|
      invariant kept == Without(incidents[..i], guid)
    {
      assert incidents[..i + 1][..i] == incidents[..i];
      if incidents[i].guid == guid {
        continue;
      }
      kept := kept + [incidents[i]];
    }
    assert incidents[..|incidents|] == incidents;
  }

  /** The first incident with the guid, NO_INCIDENT when there is none. */
  method Find(incidents: seq<Incident>, guid: string) returns (found: Incident)
    ensures (exists i :: 0 <= i < |incidents| && incidents[i].guid == guid) ==>
            exists i :: 0 <= i < |incidents| && found == incidents[i] && found.guid == guid
                     && forall j :: 0 <= j < i ==> incidents[j].guid != guid
    ensures (forall i :: 0 <= i < |incidents| ==> incidents[i].guid != guid) ==> found == NO_INCIDENT
  {
    for i := 0 to |incidents|
      invariant forall j :: 0 <= j < i ==> incidents[j].guid != guid
    {
      if incidents[i].guid == guid {
        return incidents[i];
      }
    }
    return NO_INCIDENT;
  }

  method SortByCreation(incidents: seq<Incident>) returns (sorted: seq<Incident>)
    ensures OldestFirst(sorted)
    ensures multiset(sorted) == multiset(incidents)
  {
    sorted := Seqs.SortBy(incidents, (x: Incident) => x.createdAt);
  }

  ghost predicate NewestFirst(messages: seq<Message>) {
    forall i, j :: 0 <= i < j < |messages| ==> messages[i].createdAt >= messages[j].createdAt
  }

  method SortMessages(messages: seq<Message>) returns (sorted: seq<Message>)
    ensures NewestFirst(sorted)
    ensures multiset(sorted) == multiset(messages)
  {
    sorted := Seqs.SortBy(messages, (x: Message) => -x.createdAt);
  }

  /** The same incident, its messages perhaps in another order. */
  ghost predicate SameUpToOrder(a: Incident, b: Incident) {
    a == b.(messages := a.messages) && multiset(a.messages) == multiset(b.messages)
  }

  /** The same incidents in the same order, each with its messages newest first. */
  ghost predicate SameListing(shown: seq<Incident>, stored: seq<Incident>) {
    |shown| == |stored|
    && forall i :: 0 <= i < |stored| ==> SameUpToOrder(shown[i], stored[i]) && NewestFirst(shown[i].messages)
  }

  lemma ListingGrows(shown: seq<Incident>, stored: seq<Incident>, next: Incident, incident: Incident)
    requires SameListing(shown, stored) && SameUpToOrder(next, incident) && NewestFirst(next.messages)
    ensures SameListing(shown + [next], stored + [incident])
  {
  }

  lemma {:induction false} WithoutMembers(incidents: seq<Incident>, guid: string, x: Incident)
    ensures x in Without(incidents, guid) <==> x in incidents && x.guid != guid
  {
    if incidents != [] {
      var front, last := incidents[..|incidents| - 1], incidents[|incidents| - 1];
      WithoutMembers(front, guid, x);
      assert incidents == front + [last];
    }
  }

  lemma {:induction false} WithoutUnique(incidents: seq<Incident>, guid: string)
    requires Unique(incidents)
    ensures Unique(Without(incidents, guid))
  {
    if incidents != [] {
      var front, last := incidents[..|incidents| - 1], incidents[|incidents| - 1];
      WithoutUnique(front, guid);
      var kept := Without(front, guid);
      forall i | 0 <= i < |kept|
        ensures kept[i].guid != last.guid
      {
        WithoutMembers(front, guid, kept[i]);
      }
    }
  }

  /** A sequence with each guid once stays so when it is put in another order. */
  lemma {:induction false} ReorderedUnique(a: seq<Incident>, b: seq<Incident>)
    requires Unique(a) && multiset(a) == multiset(b)
    ensures Unique(b)
  {
    if b != [] {
      Seqs.SameMembers(a, b);
      assert b[0] in b;
      var i :| 0 <= i < |a| && a[i] == b[0];
      var rest := a[..i] + a[i + 1..];
      Seqs.DroppedFromBoth(a, i, b);
      ReorderedUnique(rest, b[1..]);
      Seqs.SameMembers(rest, b[1..]);
      forall j | 1 <= j < |b|
        ensures b[j].guid != b[0].guid
      {
        assert b[1..][j - 1] in rest;
        var k :| 0 <= k < |rest| && rest[k] == b[j];
        assert rest[k] == a[if k < i then k else k + 1];
      }
    }
  }
}

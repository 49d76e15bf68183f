/** serves/api.go: the requests that change incidents. The store keeps what it is given. */
module Api {
  import opened Wrappers
  import opened Models

  // ---- what is read from a request

  datatype IncidentUpdate = IncidentUpdate(
    createdAt: Time,
    state: Option<int>,
    componentState: Option<int>,
    components: Option<seq<Component>>,
    messages: Option<seq<Message>>,
    metadata: Option<seq<string>>,
    isScheduled: Option<bool>,
    scheduledEnd: Time,
    noNotify: bool,
    persistent: Option<bool>)

  /** What the world outside answers while a request is handled: the clock and the uuids drawn for the
    * message at each position, whether reading fails, whether a notifier objects, how writing fails. */
  datatype Outside = Outside(
    now: Time,
    clock: nat -> Time,
    uuids: nat -> string,
    readFails: bool,
    vetoed: bool,
    writeError: Option<int>)

  ghost predicate GoodUuids(o: Outside) {
    forall i: nat :: o.uuids(i) != ""
  }

  const OK: int := 200
  const CREATED: int := 201
  const NOT_FOUND: int := 404
  const PRECONDITION_FAILED: int := 412
  const PRECONDITION_REQUIRED: int := 428
  const SERVER_ERROR: int := 500

  // ---- messages

  /** The message as messagesGuid leaves it. */
  function Stamped(guid: string, m: Message, now: Time, uuid: string): Message {
    if m.guid != "" then m.(incidentGuid := guid)
    else m.(incidentGuid := guid, createdAt := if m.createdAt == ZERO_TIME then now else m.createdAt, guid := uuid)
  }

  method MessagesGuid(guid: string, messages: array<Message>, o: Outside)
    modifies messages
    ensures forall i :: 0 <= i < messages.Length ==>
      messages[i] == Stamped(guid, old(messages[i]), o.clock(i), o.uuids(i))
    ensures forall i :: 0 <= i < messages.Length ==>
      var sent, kept := old(messages[i]), messages[i];
      && kept.title == sent.title && kept.content == sent.content && kept.incidentGuid == guid
      && kept.guid == (if sent.guid != "" then sent.guid else o.uuids(i))
      && kept.createdAt == (if sent.guid == "" && sent.createdAt == ZERO_TIME then o.clock(i) else sent.createdAt)
  {
    for i := 0 to messages.Length
      invariant forall j :: 0 <= j < i ==> messages[j] == Stamped(guid, old(messages[j]), o.clock(j), o.uuids(j))
      invariant forall j :: i <= j < messages.Length ==> messages[j] == old(messages[j])
    {
      var msg := messages[i].(incidentGuid := guid);
      if msg.guid != "" {
        messages[i] := msg;
        continue;
      }
      if msg.createdAt == ZERO_TIME {
        msg := msg.(createdAt := o.clock(i));
      }
      messages[i] := msg.(guid := o.uuids(i));
    }
  }

  ghost function AllStamped(guid: string, messages: seq<Message>, o: Outside): (stamped: seq<Message>)
    ensures |stamped| == |messages|
    ensures forall i :: 0 <= i < |messages| ==> stamped[i] == Stamped(guid, messages[i], o.clock(i), o.uuids(i))
  {
    seq(|messages|, i requires 0 <= i < |messages| => Stamped(guid, messages[i], o.clock(i), o.uuids(i)))
  }

  /** The messages kept of those sent: the text and the guid are the ones sent, as far as one was, and what
    * was missing is filled in. */
  ghost predicate FilledIn(guid: string, sent: seq<Message>, kept: seq<Message>, o: Outside) {
    && |kept| == |sent|
    && forall i :: 0 <= i < |sent| ==>
         && kept[i].title == sent[i].title && kept[i].content == sent[i].content && kept[i].incidentGuid == guid
         && kept[i].guid == (if sent[i].guid != "" then sent[i].guid else o.uuids(i))
         && kept[i].createdAt ==
              (if sent[i].guid == "" && sent[i].createdAt == ZERO_TIME then o.clock(i) else sent[i].createdAt)
  }

  /** The same messages, those with the guid under this title and with this content. */
  ghost predicate Retold(before: seq<Message>, after: seq<Message>, guid: string, title: string, content: string) {
    && |after| == |before|
    && forall i :: 0 <= i < |before| ==>
         && after[i].guid == before[i].guid && after[i].incidentGuid == before[i].incidentGuid
         && after[i].createdAt == before[i].createdAt
         && after[i].title == (if before[i].guid == guid then title else before[i].title)
         && after[i].content == (if before[i].guid == guid then content else before[i].content)
  }

  /** Every message with the guid gets this text; the rest of it stays. */
  method Rewrite(messages: array<Message>, guid: string, title: string, content: string)
    modifies messages
    ensures forall i :: 0 <= i < messages.Length ==>
      messages[i] ==
        if old(messages[i]).guid == guid then old(messages[i]).(title := title, content := content)
        else old(messages[i])
  {
    for i := 0 to messages.Length
      invariant forall j :: 0 <= j < i ==>
        messages[j] ==
          if old(messages[j]).guid == guid then old(messages[j]).(title := title, content := content)
          else old(messages[j])
      invariant forall j :: i <= j < messages.Length ==> messages[j] == old(messages[j])
    {
      if messages[i].guid == guid {
        messages[i] := messages[i].(title := title, content := content);
      }
    }
  }

  ghost function Rewritten(messages: seq<Message>, guid: string, title: string,
                           content: string): (rewritten: seq<Message>)
    ensures |rewritten| == |messages|
    ensures forall i :: 0 <= i < |messages| ==>
      rewritten[i] == if messages[i].guid == guid then messages[i].(title := title, content := content) else messages[i]
  {
    seq(|messages|, i requires 0 <= i < |messages| =>
      if messages[i].guid == guid then messages[i].(title := title, content := content) else messages[i])
  }

  function Kept(messages: seq<Message>, guid: string): seq<Message> {
    if messages == [] then []
    else
      var last := messages[|messages| - 1];
      Kept(messages[..|messages| - 1], guid) + if last.guid == guid then [] else [last]
  }

  lemma {:induction false} KeptMembers(messages: seq<Message>, guid: string, m: Message)
    ensures m in Kept(messages, guid) <==> m in messages && m.guid != guid
  {
    if messages != [] {
      KeptMembers(messages[..|messages| - 1], guid, m);
      assert messages == messages[..|messages| - 1] + [messages[|messages| - 1]];
    }
  }

  lemma KeptExactly(messages: seq<Message>, guid: string)
    ensures forall m :: m in Kept(messages, guid) <==> m in messages && m.guid != guid
  {
    forall m {
      KeptMembers(messages, guid, m);
    }
  }

  // ---- what must be true of every incident stored or sent out

  ghost predicate Named(messages: seq<Message>) {
    forall i :: 0 <= i < |messages| ==> messages[i].guid != ""
  }

  ghost predicate Sound(x: Incident, guid: string) {
    && x.guid == guid
    && x.components.Some?
    && (x.isScheduled ==> x.createdAt <= x.scheduledEnd)
    && Named(x.messages)
  }

  /** What CreateIncident asks of the incident it is sent. */
  predicate Acceptable(x: Incident, now: Time) {
    && x.components.Some? && x.components.value != []
    && x.componentState >= 0 && x.state >= 0
    && x.messages != []
    && (x.isScheduled ==> x.scheduledEnd != ZERO_TIME)
    && (x.isScheduled ==> (if x.createdAt == ZERO_TIME then now else x.createdAt) <= x.scheduledEnd)
  }

  ghost function Fresh(x: Incident, guid: string, baseUrl: string, o: Outside): Incident {
    var createdAt := if x.createdAt == ZERO_TIME then o.now else x.createdAt;
    x.(guid := guid, createdAt := createdAt, updatedAt := createdAt, origin := baseUrl,
       componentState := if x.isScheduled then UNDER_MAINTENANCE else x.componentState,
       messages := AllStamped(guid, x.messages, o))
  }

  /** What is stored of an incident sent in. */
  ghost predicate CreatedFrom(x: Incident, y: Incident, guid: string, baseUrl: string, o: Outside) {
    && y.guid == guid && y.origin == baseUrl
    && y.createdAt == y.updatedAt == (if x.createdAt == ZERO_TIME then o.now else x.createdAt)
    && y.componentState == (if x.isScheduled then UNDER_MAINTENANCE else x.componentState)
    && y.state == x.state && y.components == x.components && y.metadata == x.metadata
    && y.isScheduled == x.isScheduled && y.scheduledEnd == x.scheduledEnd && y.persistent == x.persistent
    && FilledIn(guid, x.messages, y.messages, o)
  }

  lemma FreshMeans(x: Incident, guid: string, baseUrl: string, o: Outside)
    ensures CreatedFrom(x, Fresh(x, guid, baseUrl, o), guid, baseUrl, o)
  {
  }

  predicate Partial(u: IncidentUpdate, flag: bool) {
    flag && u.messages.Some? && |u.messages.value| == 1 && u.messages.value[0].guid != ""
  }

  /** The messages an update leaves. A partial one, for one message, rewrites that message in place. */
  ghost function Updated(x: Incident, u: IncidentUpdate, flag: bool, guid: string, o: Outside): seq<Message> {
    if u.messages == None then x.messages
    else if Partial(u, flag) then
      var m := u.messages.value[0];
      Rewritten(x.messages, m.guid, m.title, m.content)
    else AllStamped(guid, u.messages.value, o)
  }

  /** The fields given replace those there; no update changes the guid. */
  ghost function Merged(x: Incident, u: IncidentUpdate, flag: bool, guid: string, baseUrl: string,
                        o: Outside): Incident {
    x.(componentState := if u.componentState.Some? then u.componentState.value else x.componentState,
       state := if u.state.Some? then u.state.value else x.state,
       isScheduled := if u.isScheduled.Some? then u.isScheduled.value else x.isScheduled,
       persistent := if u.persistent.Some? then u.persistent.value else x.persistent,
       scheduledEnd := if u.scheduledEnd != ZERO_TIME then u.scheduledEnd else x.scheduledEnd,
       createdAt := if u.createdAt != ZERO_TIME then u.createdAt else x.createdAt,
       components := if u.components.Some? then u.components else x.components,
       messages := Updated(x, u, flag, guid, o),
       metadata := if u.metadata.Some? then u.metadata.value else x.metadata,
       origin := baseUrl,
       updatedAt := o.now)
  }

  /** Each field given is there with its value, and each one not given is as it was. */
  ghost predicate UpdatedFrom(x: Incident, u: IncidentUpdate, y: Incident) {
    && y.guid == x.guid
    && y.state == (if u.state.Some? then u.state.value else x.state)
    && y.componentState == (if u.componentState.Some? then u.componentState.value else x.componentState)
    && y.components == (if u.components.Some? then u.components else x.components)
    && y.metadata == (if u.metadata.Some? then u.metadata.value else x.metadata)
    && y.isScheduled == (if u.isScheduled.Some? then u.isScheduled.value else x.isScheduled)
    && y.persistent == (if u.persistent.Some? then u.persistent.value else x.persistent)
    && y.createdAt == (if u.createdAt != ZERO_TIME then u.createdAt else x.createdAt)
    && y.scheduledEnd == (if u.scheduledEnd != ZERO_TIME then u.scheduledEnd else x.scheduledEnd)
  }

  /** Without messages in the update they stay; a partial update of one message retells it; else those sent
    * take the place of all there were. */
  ghost predicate MessagesFrom(before: seq<Message>, sent: Option<seq<Message>>, flag: bool, guid: string,
                               after: seq<Message>, o: Outside) {
    match sent
    case None => after == before
    case Some(messages) =>
      if flag && |messages| == 1 && messages[0].guid != "" then
        Retold(before, after, messages[0].guid, messages[0].title, messages[0].content)
      else FilledIn(guid, messages, after, o)
  }

  lemma MergedMeans(x: Incident, u: IncidentUpdate, flag: bool, guid: string, baseUrl: string, o: Outside)
    ensures var y := Merged(x, u, flag, guid, baseUrl, o);
            && UpdatedFrom(x, u, y) && y.origin == baseUrl && y.updatedAt == o.now
            && MessagesFrom(x.messages, u.messages, flag, guid, y.messages, o)
  {
  }

  predicate Consistent(x: Incident) {
    x.isScheduled ==> x.createdAt <= x.scheduledEnd
  }

  lemma StampedAreNamed(guid: string, messages: seq<Message>, o: Outside)
    requires GoodUuids(o)
    ensures Named(AllStamped(guid, messages, o))
  {
  }

  /** An update of a sound incident is sound exactly when its dates are consistent. */
  lemma MergedIsSound(x: Incident, u: IncidentUpdate, flag: bool, guid: string, baseUrl: string, o: Outside)
    requires Sound(x, guid) && GoodUuids(o)
    ensures Sound(Merged(x, u, flag, guid, baseUrl, o), guid) <==> Consistent(Merged(x, u, flag, guid, baseUrl, o))
  {
    if u.messages.Some? {
      StampedAreNamed(guid, u.messages.value, o);
    }
  }

  // ---- what several requests do together

  /** The update that gives what `v` gives, and else what `u` gives. */
  function Then(u: IncidentUpdate, v: IncidentUpdate): IncidentUpdate {
    IncidentUpdate(
      if v.createdAt != ZERO_TIME then v.createdAt else u.createdAt,
      if v.state.Some? then v.state else u.state,
      if v.componentState.Some? then v.componentState else u.componentState,
      if v.components.Some? then v.components else u.components,
      if v.messages.Some? then v.messages else u.messages,
      if v.metadata.Some? then v.metadata else u.metadata,
      if v.isScheduled.Some? then v.isScheduled else u.isScheduled,
      if v.scheduledEnd != ZERO_TIME then v.scheduledEnd else u.scheduledEnd,
      v.noNotify,
      if v.persistent.Some? then v.persistent else u.persistent)
  }

  /** Two updates one after the other are one update, whatever the first one stored in between, unless the
    * second works on messages that the first brought. */
  lemma UpdatesCompose(x: Incident, u: IncidentUpdate, v: IncidentUpdate, uFlag: bool, vFlag: bool, guid: string,
                       baseUrl: string,
                       o: Outside, p: Outside)
    requires u.messages == None || (v.messages.Some? && !Partial(v, vFlag))
    ensures Merged(Merged(x, u, uFlag, guid, baseUrl, o), v, vFlag, guid, baseUrl, p)
         == Merged(x, Then(u, v), vFlag, guid, baseUrl, p)
  {
    assert Updated(Merged(x, u, uFlag, guid, baseUrl, o), v, vFlag, guid, p) == Updated(x, Then(u, v), vFlag, guid, p);
  }

  /** Deleting the message that was just added leaves the messages as they were, the guid being new. */
  lemma {:induction false} DeleteUndoesAdd(messages: seq<Message>, m: Message)
    requires forall i :: 0 <= i < |messages| ==> messages[i].guid != m.guid
    ensures Kept(messages + [m], m.guid) == messages
  {
    assert (messages + [m])[..|messages|] == messages;
    KeptAll(messages, m.guid);
  }

  lemma {:induction false} KeptAll(messages: seq<Message>, guid: string)
    requires forall i :: 0 <= i < |messages| ==> messages[i].guid != guid
    ensures Kept(messages, guid) == messages
  {
    if messages != [] {
      KeptAll(messages[..|messages| - 1], guid);
      assert messages == messages[..|messages| - 1] + [messages[|messages| - 1]];
    }
  }

  /** Of two new texts for one message the last one stays, and rewriting keeps which messages there are. */
  lemma LastTextStays(messages: seq<Message>, guid: string, title: string, content: string, title': string,
                      content': string)
    ensures Rewritten(Rewritten(messages, guid, title, content), guid, title', content')
         == Rewritten(messages, guid, title', content')
  {
  }

  /** Rewriting one message and deleting another can be done in either order. */
  lemma {:induction false} RewriteBesideDelete(messages: seq<Message>, guid: string, title: string, content: string,
                                               other: string)
    ensures Kept(Rewritten(messages, guid, title, content), other)
         == Rewritten(Kept(messages, other), guid, title, content)
  {
    if messages != [] {
      var n := |messages| - 1;
      var front, last := messages[..n], messages[n];
      RewriteBesideDelete(front, guid, title, content, other);
      assert Rewritten(messages, guid, title, content)[..n] == Rewritten(front, guid, title, content);
      var kept := Kept(front, other);
      assert Rewritten(kept + [last], guid, title, content)
          == Rewritten(kept, guid, title, content) + Rewritten([last], guid, title, content);
    } else {
      assert Rewritten([], guid, title, content) == [];
    }
  }

  // ---- the handlers

  datatype Event = Event(incident: Incident, asked: bool)

  /** How a request about a message is refused; the incident is read before the body. */
  ghost function Refused(present: bool, wellFormed: bool, o: Outside): int {
    if o.readFails then SERVER_ERROR
    else if !present then NOT_FOUND
    else if !wellFormed then PRECONDITION_REQUIRED
    else if o.writeError == Some(NOT_FOUND) then NOT_FOUND
    else SERVER_ERROR
  }

  datatype Request =
    | CreateIncident(guid: string, created: Option<Incident>)
    | Update(guid: string, update: Option<IncidentUpdate>, flag: bool)
    | Notify(guid: string)
    | Delete(guid: string)
    | AddMessage(guid: string, message: Option<Message>)
    | DeleteMessage(guid: string, messageGuid: string)
    | UpdateMessage(guid: string, messageGuid: string, message: Option<Message>)

  function At(store: map<string, Incident>, guid: string): Option<Incident> {
    if guid in store then Some(store[guid]) else None
  }

  class Serve {
    const baseUrl: string
    var store: map<string, Incident>
    var emitted: seq<Event>

    ghost predicate Valid()
      reads this
    {
      && (forall guid :: guid in store ==> Sound(store[guid], guid))
      && (forall i :: 0 <= i < |emitted| ==> Sound(emitted[i].incident, emitted[i].incident.guid))
    }

    constructor (baseUrl: string, store: map<string, Incident>)
      requires forall guid :: guid in store ==> Sound(store[guid], guid)
      ensures Valid() && this.baseUrl == baseUrl && this.store == store && emitted == []
    {
      this.baseUrl := baseUrl;
      this.store := store;
      emitted := [];
    }

    /** The pre-checkers dereference the components of what they are given. */
    method RunPreCheck(x: Incident, o: Outside) returns (vetoed: bool)
      requires x.components.Some?
      ensures vetoed == o.vetoed
    {
      return o.vetoed;
    }

    /** So do the notifiers. */
    method Emit(x: Incident, asked: bool)
      requires x.components.Some?
      modifies this`emitted
      ensures emitted == old(emitted) + [Event(x, asked)]
    {
      emitted := emitted + [Event(x, asked)];
    }

    /** The status for a read that gives nothing; `broken` is the one for a failure. */
    method Read(guid: string, broken: int, o: Outside) returns (x: Option<Incident>, status: int)
      ensures x.Some? <==> !o.readFails && guid in store
      ensures x.Some? ==> x.value == store[guid]
      ensures status == if o.readFails then broken else if guid !in store then NOT_FOUND else OK
    {
      if o.readFails {
        return None, broken;
      }
      if guid !in store {
        return None, NOT_FOUND;
      }
      return Some(store[guid]), OK;
    }

    method CreateIncident(body: Option<Incident>, guid: string, o: Outside) returns (status: int)
      requires Valid() && GoodUuids(o)
      modifies this`store, this`emitted
      ensures Valid()
      ensures status == CREATED <==> body.Some? && Acceptable(body.value, o.now) && !o.vetoed && o.writeError == None
      ensures status == CREATED <==>
        && body.Some? && !o.vetoed && o.writeError == None
        && var x := body.value;
           && x.components.Some? && |x.components.value| > 0 && |x.messages| > 0
           && x.componentState >= 0 && x.state >= 0
           && (x.isScheduled ==>
                 && x.scheduledEnd != ZERO_TIME
                 && (if x.createdAt == ZERO_TIME then o.now else x.createdAt) <= x.scheduledEnd)
      ensures status == CREATED ==>
        && store == old(store)[guid := Fresh(body.value, guid, baseUrl, o)]
        && emitted == old(emitted) + [Event(Fresh(body.value, guid, baseUrl, o), false)]
      ensures status == CREATED ==>
        guid in store && CreatedFrom(body.value, store[guid], guid, baseUrl, o)
      ensures status != CREATED ==> store == old(store) && emitted == old(emitted)
      ensures body == None ==> status == PRECONDITION_REQUIRED
      ensures body.Some? && (!Acceptable(body.value, o.now) || o.vetoed) ==> status == PRECONDITION_FAILED
    {
      if body == None {
        return PRECONDITION_REQUIRED;
      }
      var x := body.value;
      if x.components == None || |x.components.value| == 0 {
        return PRECONDITION_FAILED;
      }
      if x.componentState < 0 {
        return PRECONDITION_FAILED;
      }
      if x.state < 0 {
        return PRECONDITION_FAILED;
      }
      if |x.messages| <= 0 {
        return PRECONDITION_FAILED;
      }
      if x.isScheduled && x.scheduledEnd == ZERO_TIME {
        return PRECONDITION_FAILED;
      }
      if x.isScheduled {
        x := x.(componentState := UNDER_MAINTENANCE);
      }
      x := x.(origin := baseUrl);
      if x.createdAt == ZERO_TIME {
        x := x.(createdAt := o.now);
      }
      x := x.(updatedAt := x.createdAt);
      if x.isScheduled && x.createdAt > x.scheduledEnd {
        return PRECONDITION_FAILED;
      }
      x := x.(guid := guid);
      var messages := StampAll(guid, x.messages, o);
      x := x.(messages := messages);
      StampedAreNamed(guid, body.value.messages, o);
      FreshMeans(body.value, guid, baseUrl, o);
      var vetoed := RunPreCheck(x, o);
      if vetoed {
        return PRECONDITION_FAILED;
      }
      if o.writeError.Some? {
        return SERVER_ERROR;
      }
      store := store[guid := x];
      Emit(x, false);
      return CREATED;
    }

    method StampAll(guid: string, messages: seq<Message>, o: Outside) returns (stamped: seq<Message>)
      ensures stamped == AllStamped(guid, messages, o)
    {
      var a := new Message[|messages|](i requires 0 <= i < |messages| => messages[i]);
      MessagesGuid(guid, a, o);
      stamped := a[..];
    }

    method RewriteAll(messages: seq<Message>, guid: string, title: string, content: string)
      returns (rewritten: seq<Message>)
      ensures rewritten == Rewritten(messages, guid, title, content)
    {
      var a := new Message[|messages|](i requires 0 <= i < |messages| => messages[i]);
      Rewrite(a, guid, title, content);
      rewritten := a[..];
    }

    /** The store's Update, and how its errors are answered. */
    method Save(guid: string, x: Incident, o: Outside) returns (status: int)
      modifies this`store
      ensures status == OK <==> o.writeError == None
      ensures store == if status == OK then old(store)[guid := x] else old(store)
      ensures o.writeError.Some? ==> status == if o.writeError.value == NOT_FOUND then NOT_FOUND else SERVER_ERROR
    {
      if o.writeError.Some? {
        return if o.writeError.value == NOT_FOUND then NOT_FOUND else SERVER_ERROR;
      }
      store := store[guid := x];
      return OK;
    }

    /** The messages part of an update. */
    method MergeMessages(x: Incident, u: IncidentUpdate, flag: bool, guid: string, o: Outside)
      returns (messages: seq<Message>)
      ensures messages == Updated(x, u, flag, guid, o)
    {
      messages := x.messages;
      if u.messages.Some? && |u.messages.value| == 0 {
        messages := [];
      }
      if u.messages.Some? && |u.messages.value| > 0 {
        if flag && |u.messages.value| == 1 && u.messages.value[0].guid != "" {
          var main := u.messages.value[0];
          messages := RewriteAll(x.messages, main.guid, main.title, main.content);
        } else {
          messages := StampAll(guid, u.messages.value, o);
        }
      }
    }

    method Merge(x: Incident, u: IncidentUpdate, flag: bool, guid: string, o: Outside) returns (merged: Incident)
      ensures merged == Merged(x, u, flag, guid, baseUrl, o).(origin := x.origin, updatedAt := x.updatedAt)
    {
      var messages := MergeMessages(x, u, flag, guid, o);
      var componentState := if u.componentState.Some? then u.componentState.value else x.componentState;
      var state := if u.state.Some? then u.state.value else x.state;
      var isScheduled := if u.isScheduled.Some? then u.isScheduled.value else x.isScheduled;
      var persistent := if u.persistent.Some? then u.persistent.value else x.persistent;
      var scheduledEnd := if u.scheduledEnd != ZERO_TIME then u.scheduledEnd else x.scheduledEnd;
      var createdAt := if u.createdAt != ZERO_TIME then u.createdAt else x.createdAt;
      var components := if u.components.Some? then u.components else x.components;
      var metadata := if u.metadata.Some? then u.metadata.value else x.metadata;
      merged := Incident(x.guid, createdAt, x.updatedAt, state, componentState, components, messages, metadata,
                         isScheduled, scheduledEnd, x.origin, persistent);
    }

    method Update(guid: string, body: Option<IncidentUpdate>, flag: bool, o: Outside) returns (status: int)
      requires Valid() && GoodUuids(o)
      modifies this`store, this`emitted
      ensures Valid()
      ensures status == OK <==>
        && body.Some? && !o.readFails && guid in old(store)
        && Consistent(Merged(old(store)[guid], body.value, flag, guid, baseUrl, o))
        && !o.vetoed && o.writeError == None
      ensures status == OK <==>
        && body.Some? && !o.readFails && guid in old(store) && !o.vetoed && o.writeError == None
        && var x, u := old(store)[guid], body.value;
           var start := if u.createdAt != ZERO_TIME then u.createdAt else x.createdAt;
           var end := if u.scheduledEnd != ZERO_TIME then u.scheduledEnd else x.scheduledEnd;
           (u.isScheduled == Some(true) || (u.isScheduled == None && x.isScheduled)) ==> start <= end
      ensures status == OK ==>
        && guid in old(store) && guid in store
        && UpdatedFrom(old(store)[guid], body.value, store[guid])
        && store[guid].origin == baseUrl && store[guid].updatedAt == o.now
        && MessagesFrom(old(store)[guid].messages, body.value.messages, flag, guid, store[guid].messages, o)
      ensures status == OK ==>
        && store == old(store)[guid := Merged(old(store)[guid], body.value, flag, guid, baseUrl, o)]
        && emitted == old(emitted) + if body.value.noNotify then [] else [Event(store[guid], false)]
      ensures status != OK ==> store == old(store) && emitted == old(emitted)
      ensures body == None || o.readFails ==> status == PRECONDITION_REQUIRED
      ensures body.Some? && !o.readFails ==>
        if guid !in old(store) then status == NOT_FOUND
        else !Consistent(Merged(old(store)[guid], body.value, flag, guid, baseUrl, o)) || o.vetoed ==>
          status == PRECONDITION_FAILED
    {
      if body == None {
        return PRECONDITION_REQUIRED;
      }
      var found;
      found, status := Read(guid, PRECONDITION_REQUIRED, o);
      if found == None {
        return;
      }
      var x := Merge(found.value, body.value, flag, guid, o);
      if x.isScheduled && x.createdAt > x.scheduledEnd {
        return PRECONDITION_FAILED;
      }
      x := x.(origin := baseUrl, updatedAt := o.now);
      MergedIsSound(found.value, body.value, flag, guid, baseUrl, o);
      MergedMeans(found.value, body.value, flag, guid, baseUrl, o);
      var vetoed := RunPreCheck(x, o);
      if vetoed {
        return PRECONDITION_FAILED;
      }
      status := Save(guid, x, o);
      if status == OK && !body.value.noNotify {
        Emit(x, false);
      }
    }

    /** Sends the incident out once more, on request. */
    method Notify(guid: string, o: Outside) returns (status: int)
      requires Valid()
      modifies this`emitted
      ensures Valid()
      ensures emitted == old(emitted) + if !o.readFails && guid in store then [Event(store[guid], true)] else []
      ensures status == if o.readFails then PRECONDITION_REQUIRED else if guid !in store then NOT_FOUND else OK
    {
      var found;
      found, status := Read(guid, PRECONDITION_REQUIRED, o);
      if found.Some? {
        Emit(found.value, true);
      }
    }

    method Delete(guid: string, o: Outside) returns (status: int)
      requires Valid()
      modifies this`store, this`emitted
      ensures Valid()
      ensures status == OK <==> !o.readFails && guid in old(store) && !o.vetoed && o.writeError == None
      ensures status == OK ==>
        && store == old(store) - {guid}
        && emitted == old(emitted) + [Event(old(store)[guid].(state := CANCELLED), true)]
      ensures status != OK ==> store == old(store) && emitted == old(emitted)
      ensures o.readFails ==> status == PRECONDITION_REQUIRED
      ensures !o.readFails ==>
        if guid !in old(store) then status == NOT_FOUND else o.vetoed ==> status == PRECONDITION_FAILED
    {
      var found;
      found, status := Read(guid, PRECONDITION_REQUIRED, o);
      if found == None {
        return;
      }
      var x := found.value.(state := CANCELLED);
      var vetoed := RunPreCheck(x, o);
      if vetoed {
        return PRECONDITION_FAILED;
      }
      if o.writeError.Some? {
        return if o.writeError.value == NOT_FOUND then NOT_FOUND else SERVER_ERROR;
      }
      store := store - {guid};
      Emit(x, true);
      return OK;
    }

    /** What is sent out says when; what is stored still says when it was last updated before. */
    method AddMessage(guid: string, body: Option<Message>, o: Outside) returns (status: int)
      requires Valid() && GoodUuids(o)
      modifies this`store, this`emitted
      ensures Valid()
      ensures status == CREATED <==> !o.readFails && guid in old(store) && body.Some? && o.writeError == None
      ensures status == CREATED ==>
        var x := old(store)[guid];
        var m := body.value.(guid := o.uuids(0),
                             createdAt := if body.value.createdAt == ZERO_TIME then o.now else body.value.createdAt);
        && store == old(store)[guid := x.(messages := x.messages + [m])]
        && emitted == old(emitted) + [Event(x.(messages := x.messages + [m], updatedAt := o.now), false)]
      ensures status != CREATED ==> store == old(store) && emitted == old(emitted)
      ensures status != CREATED ==> status == Refused(guid in old(store), body.Some?, o)
    {
      var found;
      found, status := Read(guid, SERVER_ERROR, o);
      if found == None {
        return;
      }
      if body == None {
        return PRECONDITION_REQUIRED;
      }
      var message := body.value;
      if message.createdAt == ZERO_TIME {
        message := message.(createdAt := o.now);
      }
      message := message.(guid := o.uuids(0));
      var x := found.value.(messages := found.value.messages + [message]);
      status := Save(guid, x, o);
      if status != OK {
        return;
      }
      x := x.(updatedAt := o.now);
      Emit(x, false);
      return CREATED;
    }

    method DeleteMessage(guid: string, messageGuid: string, o: Outside) returns (status: int)
      requires Valid()
      modifies this`store, this`emitted
      ensures Valid()
      ensures status == OK <==> !o.readFails && guid in old(store) && o.writeError == None
      ensures status == OK ==>
        var x := old(store)[guid];
        && store == old(store)[guid := x.(messages := Kept(x.messages, messageGuid), updatedAt := o.now)]
        && emitted == old(emitted) + [Event(store[guid], false)]
        && forall m :: m in store[guid].messages <==> m in x.messages && m.guid != messageGuid
      ensures status != OK ==> store == old(store) && emitted == old(emitted)
      ensures status != OK ==> status == Refused(guid in old(store), true, o)
    {
      var found;
      found, status := Read(guid, SERVER_ERROR, o);
      if found == None {
        return;
      }
      var messages := found.value.messages;
      var final := [];
      for i := 0 to |messages|
        invariant final == Kept(messages[..i], messageGuid)
      {
        assert messages[..i + 1][..i] == messages[..i];
        if messages[i].guid == messageGuid {
          continue;
        }
        final := final + [messages[i]];
      }
      assert messages[..|messages|] == messages;
      KeptExactly(messages, messageGuid);
      var x := found.value.(messages := final, updatedAt := o.now);
      status := Save(guid, x, o);
      if status == OK {
        Emit(x, false);
      }
    }

    method UpdateMessage(guid: string, messageGuid: string, body: Option<Message>, o: Outside) returns (status: int)
      requires Valid()
      modifies this`store, this`emitted
      ensures Valid()
      ensures status == OK <==> !o.readFails && guid in old(store) && body.Some? && o.writeError == None
      ensures status == OK ==>
        var x := old(store)[guid];
        var messages := Rewritten(x.messages, messageGuid, body.value.title, body.value.content);
        && store == old(store)[guid := x.(messages := messages)]
        && emitted == old(emitted) + [Event(x.(messages := messages, updatedAt := o.now), false)]
      ensures status == OK ==>
        && guid in old(store) && guid in store
        && var x, y := old(store)[guid], store[guid];
           && y == x.(messages := y.messages)
           && Retold(x.messages, y.messages, messageGuid, body.value.title, body.value.content)
      ensures status != OK ==> store == old(store) && emitted == old(emitted)
      ensures status != OK ==> status == Refused(guid in old(store), body.Some?, o)
    {
      var found;
      found, status := Read(guid, SERVER_ERROR, o);
      if found == None {
        return;
      }
      if body == None {
        return PRECONDITION_REQUIRED;
      }
      var messages := RewriteAll(found.value.messages, messageGuid, body.value.title, body.value.content);
      var x := found.value.(messages := messages);
      status := Save(guid, x, o);
      if status != OK {
        return;
      }
      x := x.(updatedAt := o.now);
      Emit(x, false);
      return OK;
    }

    method Handle(r: Request, o: Outside) returns (status: int)
      requires Valid() && GoodUuids(o)
      modifies this`store, this`emitted
      ensures Valid()
      ensures forall guid :: guid != r.guid ==> At(store, guid) == At(old(store), guid)
      ensures emitted == old(emitted) || exists e :: emitted == old(emitted) + [e]
    {
      match r
      case CreateIncident(guid, created) => status := CreateIncident(created, guid, o);
      case Update(guid, update, flag) => status := Update(guid, update, flag, o);
      case Notify(guid) => status := Notify(guid, o);
      case Delete(guid) => status := Delete(guid, o);
      case AddMessage(guid, message) => status := AddMessage(guid, message, o);
      case DeleteMessage(guid, messageGuid) => status := DeleteMessage(guid, messageGuid, o);
      case UpdateMessage(guid, messageGuid, message) => status := UpdateMessage(guid, messageGuid, message, o);
    }

    /** Over any run of requests everything stored or sent out stays sound, an incident that no request
      * names is as it was, and what has been sent out stays sent, at most one event for each request. */
    method Serving(requests: seq<Request>, outside: nat -> Outside)
      requires Valid() && forall i: nat :: GoodUuids(outside(i))
      modifies this`store, this`emitted
      ensures Valid()
      ensures forall guid :: (forall i :: 0 <= i < |requests| ==> requests[i].guid != guid) ==>
        At(store, guid) == At(old(store), guid)
      ensures old(emitted) <= emitted && |emitted| <= |old(emitted)| + |requests|
    {
      for i := 0 to |requests|
        invariant Valid()
        invariant forall guid :: (forall j :: 0 <= j < i ==> requests[j].guid != guid) ==>
          At(store, guid) == At(old(store), guid)
        invariant old(emitted) <= emitted && |emitted| <= |old(emitted)| + i
      {
        var _ := Handle(requests[i], outside(i));
      }
    }
  }
}

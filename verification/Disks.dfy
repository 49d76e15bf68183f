/** The two kinds of file store as one function: what an operation makes of the two places and of the
  * subscribers, given what the disk does meanwhile. storages/local.go, storages/s3.go. */
module Disks {
  import opened Wrappers
  import opened Models
  import opened StoreSpec
  import opened Files

  /** A directory looks in the persistent list first, a bucket at the plain object first. */
  datatype Kind = Directory | Bucket

  /** The plain files by name, the persistent list as a map, and the subscribers if that file exists. */
  datatype State = State(plain: map<string, Incident>, listed: map<string, Incident>, subs: Option<seq<string>>)

  const EMPTY := State(map[], map[], None)

  /** What the disk does during one operation: when it clears or deletes, when it reads and rewrites a
    * shared list, and when it writes a plain file. */
  datatype Disk = Disk(clear: DeleteIo, list: ListIo, fileFails: bool)

  /** For an operation that only reads and rewrites a list, or only writes a plain file. */
  function OnList(list: ListIo, fileFails: bool): Disk {
    Disk(DeleteIo(FINE, false), list, fileFails)
  }

  const NO_FAILURE := Disk(DeleteIo(FINE, false), FINE, false)

  function Cleared(guid: string, io: ListIo, s: State): State {
    if Fails(io) then s else s.(listed := s.listed - {guid})
  }

  function Listed(incident: Incident, io: ListIo, s: State): (State, Option<Error>) {
    if Fails(io) then (s, Some(Failed)) else (s.(listed := s.listed[incident.guid := incident]), None)
  }

  function Put(incident: Incident, fails: bool, s: State): (State, Option<Error>) {
    if fails then (s, Some(Failed)) else (s.(plain := s.plain[incident.guid := incident]), None)
  }

  /** Only a directory minds that a plain file is not there. */
  function Deleted(kind: Kind, guid: string, io: DeleteIo, s: State): (State, Option<Error>) {
    var t := Cleared(guid, io.list, s);
    if Fails(io.list) then (s, Some(Failed))
    else if kind == Directory && guid !in s.plain then (t, Some(NotExist))
    else if io.removeFails then (t, Some(Failed))
    else (t.(plain := s.plain - {guid}), None)
  }

  function Subs(s: State): seq<string> {
    if s.subs.Some? then s.subs.value else []
  }

  /** A bucket goes on with an empty list when the subscribers cannot be read. */
  function Joined(kind: Kind, email: string, io: ListIo, s: State): (State, Option<Error>) {
    var subs := if io.readFails then [] else Subs(s);
    if io.readFails && kind == Directory then (s, Some(Failed))
    else if email in subs then (s, None)
    else if io.writeFails then (s, Some(Failed))
    else (s.(subs := Some(subs + [email])), None)
  }

  function Parted(kind: Kind, email: string, io: ListIo, s: State): (State, Option<Error>) {
    if io.readFails then (s, Some(Failed))
    else if kind == Bucket && s.subs == None then (s, Some(NotExist))
    else if io.writeFails then (s, Some(Failed))
    else (s.(subs := Some(Others(Subs(s), email))), None)
  }

  /** One operation: the state it leaves and the error it reports. */
  function Next(kind: Kind, op: Op, disk: Disk, s: State): (State, Option<Error>) {
    match op
    case Create(incident) =>
      if incident.persistent then Listed(incident, disk.list, s) else Put(incident, disk.fileFails, s)
    case Update(guid, incident) =>
      if incident.persistent then Listed(incident, disk.list, Deleted(kind, guid, disk.clear, s).0)
      else Put(incident, disk.fileFails, Cleared(guid, disk.clear.list, s))
    case Delete(guid) => Deleted(kind, guid, disk.clear, s)
    case Subscribe(email) => Joined(kind, email, disk.list, s)
    case Unsubscribe(email) => Parted(kind, email, disk.list, s)
  }

  // ---- what is read

  ghost function Shown(kind: Kind, s: State, guid: string): Option<Value> {
    var (upper, lower) := if kind == Directory then (s.listed, s.plain) else (s.plain, s.listed);
    if guid in upper then Some(Stored(upper[guid])) else if guid in lower then Some(Stored(lower[guid])) else None
  }

  ghost function Incidents(kind: Kind, s: State): map<string, Incident> {
    if kind == Directory then s.plain + s.listed else s.listed + s.plain
  }

  ghost function View(kind: Kind, s: State): Contents {
    ContentsOf(Incidents(kind, s), Subs(s))
  }

  lemma LookView(kind: Kind, s: State, key: Key)
    ensures Look(View(kind, s), key)
         == match key
            case Guid(guid) => Shown(kind, s, guid)
            case Email(email) => if email in Subs(s) then Some(Subscribed) else None
  {
    ContentsLook(Incidents(kind, s), Subs(s), key);
  }

  /** Every plain file is where its guid says and not persistent, every listed incident is persistent. */
  ghost predicate Good(s: State) {
    && GoodFiles(s.plain)
    && forall guid :: guid in s.listed ==> s.listed[guid].guid == guid && s.listed[guid].persistent && Usable(guid)
  }

  /** What the application asks of a store: guids that can be file names, and updates that keep them. */
  predicate Fits(op: Op) {
    match op
    case Create(incident) => Usable(incident.guid)
    case Update(guid, incident) => Usable(guid) && incident.guid == guid
    case Delete(guid) => Usable(guid)
    case _ => true
  }

  lemma DeletedKeepsGood(kind: Kind, guid: string, io: DeleteIo, s: State)
    requires Good(s)
    ensures Good(Deleted(kind, guid, io, s).0) && Good(Cleared(guid, io.list, s))
  {
  }

  lemma WrittenKeepsGood(incident: Incident, io: ListIo, fails: bool, s: State)
    requires Good(s) && Usable(incident.guid)
    ensures incident.persistent ==> Good(Listed(incident, io, s).0)
    ensures !incident.persistent ==> Good(Put(incident, fails, s).0)
  {
  }

  lemma NextKeepsGood(kind: Kind, op: Op, disk: Disk, s: State)
    requires Good(s) && Fits(op)
    ensures Good(Next(kind, op, disk, s).0)
  {
    match op
    case Create(incident) => WrittenKeepsGood(incident, disk.list, disk.fileFails, s);
    case Update(guid, incident) =>
      DeletedKeepsGood(kind, guid, disk.clear, s);
      WrittenKeepsGood(incident, disk.list, disk.fileFails, Deleted(kind, guid, disk.clear, s).0);
      WrittenKeepsGood(incident, disk.list, disk.fileFails, Cleared(guid, disk.clear.list, s));
    case Delete(guid) => DeletedKeepsGood(kind, guid, disk.clear, s);
    case _ =>
  }

  // ---- when an operation puts a guid in both places, and when it does not do what it says

  ghost predicate InBoth(s: State, guid: string) {
    guid in s.plain && guid in s.listed
  }

  ghost predicate Separate(s: State) {
    forall guid :: !InBoth(s, guid)
  }

  /** The operation succeeds in one place and leaves its guid in the other: a creation whose guid is there
    * already, or an update whose clearing failed. */
  predicate Splits(kind: Kind, op: Op, disk: Disk, s: State) {
    && Next(kind, op, disk, s).1 == None
    && match op
       case Create(incident) => if incident.persistent then incident.guid in s.plain else incident.guid in s.listed
       case Update(guid, incident) =>
         if incident.persistent then (Fails(disk.clear.list) || disk.clear.removeFails) && guid in s.plain
         else Fails(disk.clear.list) && guid in s.listed
       case _ => false
  }

  /** And the other place is the one that is read first. */
  predicate Loses(kind: Kind, op: Op, disk: Disk, s: State) {
    Splits(kind, op, disk, s) && (kind == Directory <==> !op.incident.persistent)
  }

  /** A subscription that takes others off the list. */
  predicate Forgets(kind: Kind, op: Op, disk: Disk, s: State) {
    && kind == Bucket && op.Subscribe? && disk.list.readFails && !disk.list.writeFails
    && exists email :: email in Subs(s) && email != op.email
  }

  /** A failed operation that takes the incident off the list in front of an older plain file: a deletion
    * that cannot remove the file, or an update that cannot finish. */
  predicate Uncovers(kind: Kind, op: Op, disk: Disk, s: State) {
    && kind == Directory && Next(kind, op, disk, s).1.Some? && !Fails(disk.clear.list)
    && match op
       case Update(guid, incident) =>
         && guid in s.plain && guid in s.listed
         && if incident.persistent then disk.clear.removeFails else s.plain[guid] != incident
       case Delete(guid) => guid in s.plain && guid in s.listed && disk.clear.removeFails
       case _ => false
  }

  lemma SplitsExactly(kind: Kind, op: Op, disk: Disk, s: State)
    requires Good(s) && Fits(op) && (op.Create? || op.Update?) && Next(kind, op, disk, s).1 == None
    ensures InBoth(Next(kind, op, disk, s).0, KeyOf(op).guid) <==> Splits(kind, op, disk, s)
  {
  }

  /** An operation that fails, and a deletion in any case, puts nothing in both places. */
  lemma FailureNeverSplits(kind: Kind, op: Op, disk: Disk, s: State, guid: string)
    requires Good(s) && Fits(op) && !InBoth(s, guid)
    requires Next(kind, op, disk, s).1.Some? || (!op.Create? && !op.Update?) || KeyOf(op) != Guid(guid)
    ensures !InBoth(Next(kind, op, disk, s).0, guid)
  {
  }

  lemma SeparateExactly(kind: Kind, op: Op, disk: Disk, s: State)
    requires Good(s) && Fits(op) && Separate(s)
    ensures Separate(Next(kind, op, disk, s).0) <==> !Splits(kind, op, disk, s)
  {
    var s' := Next(kind, op, disk, s).0;
    if Splits(kind, op, disk, s) {
      SplitsExactly(kind, op, disk, s);
      assert InBoth(s', KeyOf(op).guid);
    } else {
      forall guid
        ensures !InBoth(s', guid)
      {
        assert !InBoth(s, guid);
        if Next(kind, op, disk, s).1 == None && (op.Create? || op.Update?) && KeyOf(op) == Guid(guid) {
          SplitsExactly(kind, op, disk, s);
        } else {
          FailureNeverSplits(kind, op, disk, s, guid);
        }
      }
    }
  }

  /** The same at one guid, in each of the places. */
  ghost predicate SameAt(s: State, t: State, guid: string) {
    && (guid in t.plain <==> guid in s.plain) && (guid in s.plain ==> t.plain[guid] == s.plain[guid])
    && (guid in t.listed <==> guid in s.listed) && (guid in s.listed ==> t.listed[guid] == s.listed[guid])
  }

  lemma OtherGuids(kind: Kind, op: Op, disk: Disk, s: State, guid: string)
    requires Fits(op) && KeyOf(op) != Guid(guid)
    ensures SameAt(s, Next(kind, op, disk, s).0, guid)
  {
    match op
    case Update(g, incident) =>
      assert SameAt(s, Deleted(kind, g, disk.clear, s).0, guid) && SameAt(s, Cleared(g, disk.clear.list, s), guid);
    case _ =>
  }

  lemma OtherEmails(kind: Kind, op: Op, disk: Disk, s: State, email: string)
    requires KeyOf(op) != Email(email) && !Forgets(kind, op, disk, s)
    ensures email in Subs(Next(kind, op, disk, s).0) <==> email in Subs(s)
  {
    match op
    case Unsubscribe(e) => OthersMembers(Subs(s), e, email);
    case _ =>
  }

  /** An operation touches its own key only, unless it forgets subscribers. */
  lemma Elsewhere(kind: Kind, op: Op, disk: Disk, s: State, key: Key)
    requires Fits(op) && key != KeyOf(op) && !Forgets(kind, op, disk, s)
    ensures Look(View(kind, Next(kind, op, disk, s).0), key) == Look(View(kind, s), key)
  {
    LookView(kind, s, key);
    LookView(kind, Next(kind, op, disk, s).0, key);
    match key
    case Guid(guid) => OtherGuids(kind, op, disk, s, guid);
    case Email(email) => OtherEmails(kind, op, disk, s, email);
  }

  /** How the operation ends as the protocol sees it. */
  ghost predicate Lands(op: Op, err: Option<Error>, before: Contents, after: Contents) {
    exists outcome :: (outcome == Accepted <==> err == None) && after == Land(op, outcome, before)
  }

  /** The same as before, or nothing any more. */
  ghost predicate SameOrGone(before: Option<Value>, after: Option<Value>) {
    after == before || after == None
  }

  /** Where nothing else changed, what is at the key decides. */
  lemma LandsByKey(op: Op, err: Option<Error>, before: Contents, after: Contents)
    requires forall key :: key != KeyOf(op) ==> Look(after, key) == Look(before, key)
    ensures after == Apply(op, before) <==> Look(after, KeyOf(op)) == ValueOf(op)
    ensures err == None ==> (Lands(op, err, before, after) <==> Look(after, KeyOf(op)) == ValueOf(op))
    ensures err.Some? ==>
      (Lands(op, err, before, after) <==> Harmless(op, Look(before, KeyOf(op)), Look(after, KeyOf(op))))
  {
    AgreesWith(op, before, after, Accepted);
    AgreesWith(op, before, after, Rejected(Untouched));
    AgreesWith(op, before, after, Rejected(Erased));
    AgreesWith(op, before, after, Rejected(Written));
    if err == None && after == Apply(op, before) {
      assert after == Land(op, Accepted, before);
    }
    if err.Some? && Look(after, KeyOf(op)) == Look(before, KeyOf(op)) {
      assert after == Land(op, Rejected(Untouched), before);
    } else if err.Some? && Look(after, KeyOf(op)) == None {
      assert after == Land(op, Rejected(Erased), before);
    } else if err.Some? && Look(after, KeyOf(op)) == ValueOf(op) {
      assert after == Land(op, Rejected(Written), before);
    }
  }

  /** All that a failed operation may leave at its key: what was there, nothing, or what it writes. */
  ghost predicate Harmless(op: Op, before: Option<Value>, after: Option<Value>) {
    after == before || after == None || after == ValueOf(op)
  }

  lemma AgreesWith(op: Op, before: Contents, after: Contents, outcome: Outcome)
    requires forall key :: key != KeyOf(op) ==> Look(after, key) == Look(before, key)
    ensures after == Land(op, outcome, before)
       <==> Look(after, KeyOf(op)) == Look(Land(op, outcome, before), KeyOf(op))
    ensures Look(Land(op, Accepted, before), KeyOf(op)) == ValueOf(op)
    ensures Look(Land(op, Rejected(Untouched), before), KeyOf(op)) == Look(before, KeyOf(op))
    ensures Look(Land(op, Rejected(Erased), before), KeyOf(op)) == None
    ensures Look(Land(op, Rejected(Written), before), KeyOf(op)) == ValueOf(op)
  {
    var landed := Land(op, outcome, before);
    forall key | key != KeyOf(op)
      ensures Look(landed, key) == Look(before, key)
    {
      match outcome
      case Accepted => LookApply(op, before, key);
      case Rejected(effect) => LookSmear(op, effect, before, key);
    }
    LookApply(op, before, KeyOf(op));
    if Look(after, KeyOf(op)) == Look(landed, KeyOf(op)) {
      forall key
        ensures Look(after, key) == Look(landed, key)
      {
      }
      SameLooks(after, landed);
    }
  }

  /** What a successful operation leaves at its key. */
  lemma SucceedsAtKey(kind: Kind, op: Op, disk: Disk, s: State)
    requires Good(s) && Fits(op) && Next(kind, op, disk, s).1 == None
    ensures Look(View(kind, Next(kind, op, disk, s).0), KeyOf(op)) == ValueOf(op) <==> !Loses(kind, op, disk, s)
  {
    var s' := Next(kind, op, disk, s).0;
    LookView(kind, s', KeyOf(op));
    if op.Create? || op.Update? {
      WroteAtKey(kind, op, disk, s);
    } else if op.Unsubscribe? {
      OthersMembers(Subs(s), op.email, op.email);
    }
  }

  lemma WroteAtKey(kind: Kind, op: Op, disk: Disk, s: State)
    requires Good(s) && Fits(op) && (op.Create? || op.Update?) && Next(kind, op, disk, s).1 == None
    ensures Shown(kind, Next(kind, op, disk, s).0, KeyOf(op).guid) == Some(Stored(op.incident))
       <==> !Loses(kind, op, disk, s)
  {
    var s', guid := Next(kind, op, disk, s).0, KeyOf(op).guid;
    NextKeepsGood(kind, op, disk, s);
    SplitsExactly(kind, op, disk, s);
    if op.incident.persistent {
      assert guid in s'.listed && s'.listed[guid] == op.incident;
    } else {
      assert guid in s'.plain && s'.plain[guid] == op.incident;
    }
  }

  /** What a failed operation leaves at its guid: something older exactly when it uncovers that. */
  lemma FailedGuid(kind: Kind, op: Op, disk: Disk, s: State)
    requires Good(s) && Fits(op) && Next(kind, op, disk, s).1.Some? && KeyOf(op).Guid?
    ensures var guid, t := KeyOf(op).guid, Next(kind, op, disk, s).0;
            && (Harmless(op, Shown(kind, s, guid), Shown(kind, t, guid)) <==> !Uncovers(kind, op, disk, s))
            && (Uncovers(kind, op, disk, s) ==> guid in t.plain && guid !in t.listed)
            && (InBoth(t, guid) ==> Shown(kind, t, guid) == Shown(kind, s, guid))
  {
    match op
    case Create(incident) =>
    case Update(guid, incident) =>
      if incident.persistent {
        FailedPersistent(kind, guid, incident, disk, s);
      } else {
        FailedPlain(kind, guid, incident, disk, s);
      }
    case Delete(guid) =>
      FailedDeletion(kind, guid, disk.clear, s);
  }

  lemma FailedDeletion(kind: Kind, guid: string, io: DeleteIo, s: State)
    requires Good(s)
    ensures var (t, err) := Deleted(kind, guid, io, s);
            var bares := kind == Directory && InBoth(s, guid) && !Fails(io.list) && io.removeFails;
            && (bares ==> guid in t.plain && guid !in t.listed && t.plain == s.plain)
            && (!bares ==> SameOrGone(Shown(kind, s, guid), Shown(kind, t, guid)))
            && (InBoth(t, guid) ==> t == s)
  {
  }

  lemma FailedPersistent(kind: Kind, guid: string, incident: Incident, disk: Disk, s: State)
    requires Good(s) && Fits(Update(guid, incident)) && incident.persistent
    requires Next(kind, Update(guid, incident), disk, s).1.Some?
    ensures var op, t := Update(guid, incident), Next(kind, Update(guid, incident), disk, s).0;
            && (Harmless(op, Shown(kind, s, guid), Shown(kind, t, guid)) <==> !Uncovers(kind, op, disk, s))
            && (Uncovers(kind, op, disk, s) ==> guid in t.plain && guid !in t.listed)
            && (InBoth(t, guid) ==> Shown(kind, t, guid) == Shown(kind, s, guid))
  {
    FailedDeletion(kind, guid, disk.clear, s);
  }

  lemma FailedPlain(kind: Kind, guid: string, incident: Incident, disk: Disk, s: State)
    requires Good(s) && Fits(Update(guid, incident)) && !incident.persistent
    requires Next(kind, Update(guid, incident), disk, s).1.Some?
    ensures var op, t := Update(guid, incident), Next(kind, Update(guid, incident), disk, s).0;
            && (Harmless(op, Shown(kind, s, guid), Shown(kind, t, guid)) <==> !Uncovers(kind, op, disk, s))
            && (Uncovers(kind, op, disk, s) ==> guid in t.plain && guid !in t.listed)
            && (InBoth(t, guid) ==> Shown(kind, t, guid) == Shown(kind, s, guid))
  {
  }

  lemma FailedEmail(kind: Kind, op: Op, disk: Disk, s: State)
    requires Next(kind, op, disk, s).1.Some? && KeyOf(op).Email?
    ensures Next(kind, op, disk, s).0 == s
  {
  }

  lemma FailsAtKey(kind: Kind, op: Op, disk: Disk, s: State)
    requires Good(s) && Fits(op) && Next(kind, op, disk, s).1.Some?
    ensures Harmless(op, Look(View(kind, s), KeyOf(op)), Look(View(kind, Next(kind, op, disk, s).0), KeyOf(op)))
       <==> !Uncovers(kind, op, disk, s)
  {
    LookView(kind, s, KeyOf(op));
    LookView(kind, Next(kind, op, disk, s).0, KeyOf(op));
    if KeyOf(op).Guid? {
      FailedGuid(kind, op, disk, s);
    } else {
      FailedEmail(kind, op, disk, s);
    }
  }

  /** Exactly when an operation does to the contents what the protocol takes it to do, from any state and
    * on any disk: unless it loses its write behind the place that is read first, forgets subscribers, or
    * fails after uncovering an older incident. */
  lemma LandsExactly(kind: Kind, op: Op, disk: Disk, s: State)
    requires Good(s) && Fits(op)
    ensures var (s', err) := Next(kind, op, disk, s);
            Lands(op, err, View(kind, s), View(kind, s')) <==>
              !Loses(kind, op, disk, s) && !Forgets(kind, op, disk, s) && !Uncovers(kind, op, disk, s)
  {
    var (s', err) := Next(kind, op, disk, s);
    if Forgets(kind, op, disk, s) {
      ForgetsVisibly(op, disk, s);
    } else {
      forall key | key != KeyOf(op)
        ensures Look(View(kind, s'), key) == Look(View(kind, s), key)
      {
        Elsewhere(kind, op, disk, s, key);
      }
      LandsByKey(op, err, View(kind, s), View(kind, s'));
      if err == None {
        SucceedsAtKey(kind, op, disk, s);
      } else {
        FailsAtKey(kind, op, disk, s);
      }
    }
  }

  /** A bucket never uncovers anything: a failed operation leaves what was there, or nothing. */
  lemma BucketFailsCleanly(op: Op, disk: Disk, s: State)
    requires Good(s) && Fits(op) && Next(Bucket, op, disk, s).1.Some?
    ensures SameOrGone(Look(View(Bucket, s), KeyOf(op)), Look(View(Bucket, Next(Bucket, op, disk, s).0), KeyOf(op)))
  {
    LookView(Bucket, s, KeyOf(op));
    LookView(Bucket, Next(Bucket, op, disk, s).0, KeyOf(op));
    if KeyOf(op).Guid? {
      BucketFailedGuid(op, disk, s);
    } else {
      FailedEmail(Bucket, op, disk, s);
    }
  }

  lemma BucketFailedGuid(op: Op, disk: Disk, s: State)
    requires Good(s) && Fits(op) && Next(Bucket, op, disk, s).1.Some? && KeyOf(op).Guid?
    ensures SameOrGone(Shown(Bucket, s, KeyOf(op).guid), Shown(Bucket, Next(Bucket, op, disk, s).0, KeyOf(op).guid))
  {
    FailedDeletion(Bucket, KeyOf(op).guid, disk.clear, s);
  }

  /** The operation has happened: it reported no error, or a directory reported the plain file of a deleted
    * incident as missing. */
  predicate Done(op: Op, err: Option<Error>) {
    err == None || (op.Delete? && err == Some(NotExist))
  }

  /** One that has happened is seen to have, exactly unless it loses its write or forgets subscribers. */
  lemma DoneExactly(kind: Kind, op: Op, disk: Disk, s: State)
    requires Good(s) && Fits(op) && Done(op, Next(kind, op, disk, s).1)
    ensures View(kind, Next(kind, op, disk, s).0) == Apply(op, View(kind, s))
       <==> !Loses(kind, op, disk, s) && !Forgets(kind, op, disk, s)
  {
    var (s', err) := Next(kind, op, disk, s);
    if Forgets(kind, op, disk, s) {
      ForgetsVisibly(op, disk, s);
      assert View(kind, s') == Apply(op, View(kind, s)) ==> View(kind, s') == Land(op, Accepted, View(kind, s));
    } else {
      forall key | key != KeyOf(op)
        ensures Look(View(kind, s'), key) == Look(View(kind, s), key)
      {
        Elsewhere(kind, op, disk, s, key);
      }
      LandsByKey(op, err, View(kind, s), View(kind, s'));
      if err == None {
        SucceedsAtKey(kind, op, disk, s);
      } else {
        LookView(kind, s', KeyOf(op));
      }
    }
  }

  // ---- a reachable failure

  const STUCK := Disk(DeleteIo(FINE, true), FINE, false)

  /** A plain incident made persistent while its file cannot be removed: the update reports success and
    * reads back right. Deleted while the file still cannot be removed, it is not gone, and not what it was
    * either: the deletion fails, and the incident from before the update is back. */
  lemma DeletionBringsBackTheOld(older: Incident, newer: Incident)
    requires Usable(older.guid) && newer.guid == older.guid && !older.persistent && newer.persistent
    ensures var guid := older.guid;
            var created := Next(Directory, Create(older), NO_FAILURE, EMPTY).0;
            var (updated, err) := Next(Directory, Update(guid, newer), STUCK, created);
            var (end, failed) := Next(Directory, Delete(guid), STUCK, updated);
            && err == None && Shown(Directory, updated, guid) == Some(Stored(newer))
            && View(Directory, updated) == Apply(Update(guid, newer), View(Directory, created))
            && failed == Some(Failed) && Shown(Directory, end, guid) == Some(Stored(older))
            && Uncovers(Directory, Delete(guid), STUCK, updated)
            && !Lands(Delete(guid), failed, View(Directory, updated), View(Directory, end))
  {
    var guid := older.guid;
    var created := Next(Directory, Create(older), NO_FAILURE, EMPTY).0;
    var updated := Next(Directory, Update(guid, newer), STUCK, created).0;
    NextKeepsGood(Directory, Create(older), NO_FAILURE, EMPTY);
    NextKeepsGood(Directory, Update(guid, newer), STUCK, created);
    DoneExactly(Directory, Update(guid, newer), STUCK, created);
    LandsExactly(Directory, Delete(guid), STUCK, updated);
  }

  lemma ForgetsVisibly(op: Op, disk: Disk, s: State)
    requires Forgets(Bucket, op, disk, s)
    ensures var (s', err) := Next(Bucket, op, disk, s);
            !Lands(op, err, View(Bucket, s), View(Bucket, s'))
  {
    var (s', err) := Next(Bucket, op, disk, s);
    var email :| email in Subs(s) && email != op.email;
    LookView(Bucket, s, Email(email));
    LookView(Bucket, s', Email(email));
    LookApply(op, View(Bucket, s), Email(email));
  }
}

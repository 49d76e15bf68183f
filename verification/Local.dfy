/** storages/local.go: incidents in files of a directory. */
module LocalStore {
  import opened Wrappers
  import opened Models
  import opened StoreSpec
  import opened Files
  import Disks

  class Local {
    var files: map<string, Incident>            // the plain files, by name
    var persistents: Option<seq<Incident>>      // persistents.json
    var subscribers: Option<seq<string>>        // subscribers.json

    ghost function List(): seq<Incident>
      reads this
    {
      ListOf(persistents)
    }

    ghost function Subs(): seq<string>
      reads this
    {
      if subscribers.Some? then subscribers.value else []
    }

    /** Holds in every reachable state, failures of the disk included. */
    ghost predicate Good()
      reads this
    {
      GoodList(List()) && GoodFiles(files)
    }

    /** No incident is in both places. */
    ghost predicate Separate()
      reads this
    {
      forall guid :: !InBoth(guid)
    }

    ghost predicate InBoth(guid: string)
      reads this
    {
      guid in files && guid in ListMap(List())
    }

    /** Where both places have an incident, the list is the one that is read. */
    ghost function Incidents(): map<string, Incident>
      reads this
    {
      files + ListMap(List())
    }

    ghost function View(): Contents
      reads this
    {
      ContentsOf(Incidents(), Subs())
    }

    /** What is in the two places, and the subscribers, as one value. */
    ghost function Places(): Disks.State
      reads this
    {
      Disks.State(files, ListMap(List()), subscribers)
    }

    constructor ()
      ensures Good() && Separate() && Incidents() == map[] && Subs() == [] && Places() == Disks.EMPTY
    {
      files := map[];
      persistents := None;
      subscribers := None;
    }

    /** Creating writes the map at the incident's guid exactly when the guid is not already in the
      * place that is read first. */
    method Create(incident: Incident, io: ListIo, fileFails: bool) returns (ret: Incident, err: Option<Error>)
      requires Good() && Usable(incident.guid)
      modifies this`files, this`persistents
      ensures Good() && ret == incident
      ensures err == if (if incident.persistent then Fails(io) else fileFails) then Some(Failed) else None
      ensures err.Some? ==> files == old(files) && persistents == old(persistents)
      ensures err.None? ==>
        (Incidents() == old(Incidents())[incident.guid := incident] <==>
           incident.persistent || incident.guid !in old(ListMap(List())))
      ensures files - {incident.guid} == old(files) - {incident.guid}
      ensures ListMap(List()) - {incident.guid} == old(ListMap(List())) - {incident.guid}
      ensures incident.guid !in old(Incidents()) ==> !InBoth(incident.guid)
      ensures (Places(), err)
           == Disks.Next(Disks.Directory, StoreSpec.Create(incident), Disks.OnList(io, fileFails), old(Places()))
    {
      ghost var listed := ListMap(List());
      OnlyThere(files, files, incident.guid, incident);
      OnlyThere(listed, listed, incident.guid, incident);
      LowerPut(files, listed, incident.guid, incident);
      UpperPut(files, listed, incident.guid, incident);
      ret := incident;
      if incident.persistent {
        persistents, err := AddPersistent(persistents, incident, io);
      } else if fileFails {
        err := Some(Failed);
      } else {
        ListMapMembers(List());
        files := files[incident.guid := incident];
        err := None;
      }
    }

    /** What the deletion leaves of the two places. The error says something else: a persistent
      * incident is gone, yet its plain file is missed and the deletion reports that it does not exist. */
    method Delete(guid: string, io: DeleteIo) returns (err: Option<Error>)
      requires Good() && Usable(guid)
      modifies this`files, this`persistents
      ensures Good()
      ensures err == if Fails(io.list) then Some(Failed)
                     else if guid !in old(files) then Some(NotExist)
                     else if io.removeFails then Some(Failed) else None
      ensures ListMap(List()) == if Fails(io.list) then old(ListMap(List())) else old(ListMap(List())) - {guid}
      ensures Fails(io.list) ==> persistents == old(persistents)
      ensures files == if err.None? then old(files) - {guid} else old(files)
      ensures err != Some(Failed) ==> Incidents() == old(Incidents()) - {guid}
      ensures (Places(), err)
           == Disks.Next(Disks.Directory, StoreSpec.Delete(guid), Disks.Disk(io, FINE, false), old(Places()))
    {
      BothDrop(files, ListMap(List()), guid);
      persistents, err := RemovePersistent(persistents, guid, io.list);
      if err.Some? {
        return err;
      }
      if guid !in files {
        err := Some(NotExist);
      } else if io.removeFails {
        err := Some(Failed);
      } else {
        files := files - {guid};
      }
    }

    /** The errors of the steps that clear the other place are dropped, so an update can report success
      * and not be read back: exactly when a persistent incident stops being so and the list could not
      * be rewritten. A failed update spoils nothing but its own guid, where it leaves the old incident,
      * the new one or none. An update whose disk does not fail sets right what earlier attempts left. */
    method Update(guid: string, incident: Incident, clear: DeleteIo, io: ListIo, fileFails: bool)
      returns (ret: Incident, err: Option<Error>)
      requires Good() && Usable(guid) && incident.guid == guid
      modifies this`files, this`persistents
      ensures Good() && ret == incident
      ensures err == if (if incident.persistent then Fails(io) else fileFails) then Some(Failed) else None
      ensures err.None? ==>
        (Incidents() == old(Incidents())[guid := incident] <==>
           incident.persistent || !Fails(clear.list) || guid !in old(ListMap(List())))
      ensures files - {guid} == old(files) - {guid} && ListMap(List()) - {guid} == old(ListMap(List())) - {guid}
      ensures err.Some? && old(!InBoth(guid)) ==> MayDrop(old(Incidents()), Incidents(), guid) && !InBoth(guid)
      ensures err.None? && !Fails(clear.list) && (incident.persistent ==> !clear.removeFails) ==>
        Incidents() == old(Incidents())[guid := incident] && !InBoth(guid)
      ensures (Places(), err)
           == Disks.Next(Disks.Directory, StoreSpec.Update(guid, incident), Disks.Disk(clear, io, fileFails),
                         old(Places()))
      ensures err.None? ==>
        (InBoth(guid) <==>
           if incident.persistent then (Fails(clear.list) || clear.removeFails) && guid in old(files)
           else Fails(clear.list) && guid in old(ListMap(List())))
    {
      ret := incident;
      if incident.persistent {
        err := UpdatePersistent(guid, incident, clear, io);
      } else {
        err := UpdatePlain(guid, incident, clear.list, fileFails);
      }
    }

    method UpdatePersistent(guid: string, incident: Incident, clear: DeleteIo, io: ListIo) returns (err: Option<Error>)
      requires Good() && Usable(guid) && incident.guid == guid && incident.persistent
      modifies this`files, this`persistents
      ensures Good()
      ensures err == if Fails(io) then Some(Failed) else None
      ensures err.None? ==> Incidents() == old(Incidents())[guid := incident]
      ensures files - {guid} == old(files) - {guid} && ListMap(List()) - {guid} == old(ListMap(List())) - {guid}
      ensures err.Some? && old(!InBoth(guid)) ==> MayDrop(old(Incidents()), Incidents(), guid) && !InBoth(guid)
      ensures err.None? && !Fails(clear.list) && !clear.removeFails ==> guid !in files
      ensures (Places(), err)
           == Disks.Next(Disks.Directory, StoreSpec.Update(guid, incident), Disks.Disk(clear, io, false),
                         old(Places()))
    {
      ghost var plain, listed := files, ListMap(List());
      BothDrop(plain, listed, guid);
      var _ := Delete(guid, clear);
      OnlyThere(plain, files, guid, incident);
      OnlyThere(listed, ListMap(List()), guid, incident);
      ClearedThenWritten(plain, listed, files, ListMap(List()), guid, incident);
      persistents, err := AddPersistent(persistents, incident, io);
    }

    method UpdatePlain(guid: string, incident: Incident, clear: ListIo, fileFails: bool) returns (err: Option<Error>)
      requires Good() && Usable(guid) && incident.guid == guid && !incident.persistent
      modifies this`files, this`persistents
      ensures Good()
      ensures err == if fileFails then Some(Failed) else None
      ensures err.None? ==>
        (Incidents() == old(Incidents())[guid := incident] <==> !Fails(clear) || guid !in old(ListMap(List())))
      ensures files - {guid} == old(files) - {guid} && ListMap(List()) - {guid} == old(ListMap(List())) - {guid}
      ensures err.Some? && old(!InBoth(guid)) ==> MayDrop(old(Incidents()), Incidents(), guid) && !InBoth(guid)
      ensures !Fails(clear) ==> guid !in ListMap(List())
      ensures (Places(), err)
           == Disks.Next(Disks.Directory, StoreSpec.Update(guid, incident),
                         Disks.Disk(DeleteIo(clear, false), FINE, fileFails), old(Places()))
    {
      ghost var plain, listed := files, ListMap(List());
      var cleared, _ := RemovePersistent(persistents, guid, clear);
      persistents := cleared;
      ghost var listed' := ListMap(List());
      OnlyThere(plain, plain, guid, incident);
      OnlyThere(listed, listed', guid, incident);
      ClearedThenWritten(plain, listed, plain, listed', guid, incident);
      if guid in listed' {
        ListMapMembers(List());
        StillOld(plain, listed, guid, incident);
      }
      if fileFails {
        return Some(Failed);
      }
      files := files[guid := incident];
      return None;
    }

    /** Reading is looking up the map. */
    method Read(guid: string, listFails: bool, fileFails: bool) returns (ret: Incident, err: Option<Error>)
      requires Good() && Usable(guid)
      ensures !listFails && !fileFails ==>
        if guid in Incidents() then err == None && ret == Incidents()[guid] else err == Some(NotExist)
      ensures err.None? ==> guid in Incidents() && ret == Incidents()[guid]
      ensures err.Some? ==> ret == NO_INCIDENT
    {
      ListMapMembers(List());
      var incidents;
      incidents, err := Persistents(persistents, listFails);
      if err.Some? {
        return NO_INCIDENT, err;
      }
      var found := Find(incidents, guid);
      if found.guid == guid {
        assert found in List();
        return found, None;
      }
      assert guid !in ListMap(List());
      if guid !in files {
        return NO_INCIDENT, Some(NotExist);
      }
      if fileFails {
        return NO_INCIDENT, Some(Failed);
      }
      return files[guid], None;
    }

    /** Walks the directory in its own order. The two shared files are passed over; the first file that
      * cannot be read ends the walk. */
    method ByDate(from: Time, to: Time, names: seq<string>, unreadable: set<string>)
      returns (incidents: seq<Incident>, err: Option<Error>, ghost stopped: nat)
      requires Good() && Lists(names, files)
      ensures stopped <= |names| && forall i :: 0 <= i < stopped ==> Reserved(names[i]) || names[i] !in unreadable
      ensures if stopped == |names| then err == None
              else err == Some(Failed) && !Reserved(names[stopped]) && names[stopped] in unreadable
      ensures incidents == InWindow(files, names[..stopped], from, to)
    {
      incidents := [];
      for i := 0 to |names|
        invariant incidents == InWindow(files, names[..i], from, to)
        invariant forall j :: 0 <= j < i ==> Reserved(names[j]) || names[j] !in unreadable
      {
        WindowStep(files, names, from, to, i);
        if names[i] == SUBSCRIBERS || names[i] == PERSISTENTS {
          continue;
        }
        if names[i] in unreadable {
          return incidents, Some(Failed), i;
        }
        var incident := files[names[i]];
        if incident.createdAt < from || incident.createdAt > to {
          continue;
        }
        incidents := incidents + [incident];
      }
      assert names[..|names|] == names;
      return incidents, None, |names|;
    }

    method RetrieveSubscribers(readFails: bool) returns (subs: seq<string>, err: Option<Error>)
      ensures err == if readFails then Some(Failed) else None
      ensures subs == if readFails then [] else Subs()
    {
      if readFails {
        return [], Some(Failed);
      }
      match subscribers
      case None => return [], None;
      case Some(list) => return list, None;
    }

    method Subscribe(email: string, io: ListIo) returns (err: Option<Error>)
      modifies this`subscribers
      ensures err.Some? ==> subscribers == old(subscribers)
      ensures err.None? <==> !io.readFails && (email in old(Subs()) || !io.writeFails)
      ensures err.None? ==> View() == Apply(StoreSpec.Subscribe(email), old(View()))
      ensures (Places(), err)
           == Disks.Next(Disks.Directory, StoreSpec.Subscribe(email), Disks.OnList(io, false), old(Places()))
    {
      var subs;
      subs, err := RetrieveSubscribers(io.readFails);
      if err.Some? {
        return err;
      }
      WroteSubscriber(Incidents(), subs, subs + [email], StoreSpec.Subscribe(email));
      if email in subs {
        WroteSubscriber(Incidents(), subs, subs, StoreSpec.Subscribe(email));
        return None;
      }
      if io.writeFails {
        return Some(Failed);
      }
      subscribers := Some(subs + [email]);
      return None;
    }

    method Unsubscribe(email: string, io: ListIo) returns (err: Option<Error>)
      modifies this`subscribers
      ensures err == if Fails(io) then Some(Failed) else None
      ensures err.Some? ==> subscribers == old(subscribers)
      ensures err.None? ==> View() == Apply(StoreSpec.Unsubscribe(email), old(View()))
      ensures (Places(), err)
           == Disks.Next(Disks.Directory, StoreSpec.Unsubscribe(email), Disks.OnList(io, false), old(Places()))
    {
      var subs;
      subs, err := RetrieveSubscribers(io.readFails);
      if err.Some? {
        return err;
      }
      TookOff(Incidents(), subs, email);
      subs := FilterStrSlice(email, subs);
      if io.writeFails {
        return Some(Failed);
      }
      subscribers := Some(subs);
      return None;
    }

    lemma GoodPlaces()
      requires Good()
      ensures Disks.Good(Places()) && View() == Disks.View(Disks.Directory, Places())
      ensures forall guid :: InBoth(guid) <==> Disks.InBoth(Places(), guid)
    {
      ListMapMembers(List());
    }

    /** Any operation, from any state and on any disk. What the store shows is then what the replication
      * protocol takes it to show, success or failure, exactly unless the operation loses its write behind
      * the list or fails after uncovering an older incident. */
    method Do(op: Op, disk: Disks.Disk) returns (err: Option<Error>)
      requires Good() && Disks.Fits(op)
      modifies this
      ensures Good() && (Places(), err) == Disks.Next(Disks.Directory, op, disk, old(Places()))
      ensures Disks.Lands(op, err, old(View()), View()) <==>
        && !Disks.Loses(Disks.Directory, op, disk, old(Places()))
        && !Disks.Uncovers(Disks.Directory, op, disk, old(Places()))
    {
      GoodPlaces();
      Disks.LandsExactly(Disks.Directory, op, disk, Places());
      match op {
        case Create(incident) =>
          var _, failed := Create(incident, disk.list, disk.fileFails);
          err := failed;
        case Update(guid, incident) =>
          var _, failed := Update(guid, incident, disk.clear, disk.list, disk.fileFails);
          err := failed;
        case Delete(guid) =>
          err := Delete(guid, disk.clear);
        case Subscribe(email) =>
          err := Subscribe(email, disk.list);
        case Unsubscribe(email) =>
          err := Unsubscribe(email, disk.list);
      }
      GoodPlaces();
    }
  }
}

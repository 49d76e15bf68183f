/** storages/s3.go: the same two places in a bucket, read in the other order. */
module S3Store {
  import opened Wrappers
  import opened Models
  import opened StoreSpec
  import opened Files
  import Disks

  class S3 {
    var objects: map<string, Incident>          // the plain objects, by key
    var persistents: Option<seq<Incident>>      // persistents.json
    var subscribers: Option<seq<string>>        // subscribers.json

    ghost function List(): seq<Incident>
      reads this
    {
      ListOf(persistents)
    }

    ghost function Subs(): seq<string>
      reads this
    {
      if subscribers.Some? then subscribers.value else []
    }

    ghost predicate Good()
      reads this
    {
      GoodList(List()) && GoodFiles(objects)
    }

    ghost predicate InBoth(guid: string)
      reads this
    {
      guid in objects && guid in ListMap(List())
    }

    ghost predicate Separate()
      reads this
    {
      forall guid :: !InBoth(guid)
    }

    /** Where both places have an incident, the object is the one that is read. */
    ghost function Incidents(): map<string, Incident>
      reads this
    {
      ListMap(List()) + objects
    }

    ghost function View(): Contents
      reads this
    {
      ContentsOf(Incidents(), Subs())
    }

    /** What is in the two places, and the subscribers, as one value. */
    ghost function Places(): Disks.State
      reads this
    {
      Disks.State(objects, ListMap(List()), subscribers)
    }

    constructor ()
      ensures Good() && Separate() && Incidents() == map[] && Subs() == [] && Places() == Disks.EMPTY
    {
      objects := map[];
      persistents := None;
      subscribers := None;
    }

    /** The mirror image of the local store: it is a persistent incident that must not have an object. */
    method Create(incident: Incident, io: ListIo, putFails: bool) returns (ret: Incident, err: Option<Error>)
      requires Good() && Usable(incident.guid)
      modifies this`objects, this`persistents
      ensures Good() && ret == incident
      ensures err == if (if incident.persistent then Fails(io) else putFails) then Some(Failed) else None
      ensures err.Some? ==> objects == old(objects) && persistents == old(persistents)
      ensures err.None? && !incident.persistent ==> objects == old(objects)[incident.guid := incident]
      ensures !incident.persistent ==> persistents == old(persistents)
      ensures err.None? ==>
        (Incidents() == old(Incidents())[incident.guid := incident] <==>
           !incident.persistent || incident.guid !in old(objects))
      ensures objects - {incident.guid} == old(objects) - {incident.guid}
      ensures ListMap(List()) - {incident.guid} == old(ListMap(List())) - {incident.guid}
      ensures incident.guid !in old(Incidents()) ==> !InBoth(incident.guid)
      ensures (Places(), err)
           == Disks.Next(Disks.Bucket, StoreSpec.Create(incident), Disks.OnList(io, putFails), old(Places()))
    {
      ghost var listed := ListMap(List());
      OnlyThere(objects, objects, incident.guid, incident);
      OnlyThere(listed, listed, incident.guid, incident);
      LowerPut(listed, objects, incident.guid, incident);
      UpperPut(listed, objects, incident.guid, incident);
      ret := incident;
      if incident.persistent {
        persistents, err := AddPersistent(persistents, incident, io);
      } else if putFails {
        err := Some(Failed);
      } else {
        objects := objects[incident.guid := incident];
        err := None;
      }
    }

    /** Deleting an object that is not there is no error in a bucket. */
    method Delete(guid: string, io: DeleteIo) returns (err: Option<Error>)
      requires Good() && Usable(guid)
      modifies this`objects, this`persistents
      ensures Good()
      ensures err == if Fails(io.list) || io.removeFails then Some(Failed) else None
      ensures ListMap(List()) == if Fails(io.list) then old(ListMap(List())) else old(ListMap(List())) - {guid}
      ensures Fails(io.list) ==> persistents == old(persistents)
      ensures objects == if err.None? then old(objects) - {guid} else old(objects)
      ensures err.None? ==> Incidents() == old(Incidents()) - {guid}
      ensures (Places(), err)
           == Disks.Next(Disks.Bucket, StoreSpec.Delete(guid), Disks.Disk(io, FINE, false), old(Places()))
    {
      BothDrop(ListMap(List()), objects, guid);
      persistents, err := RemovePersistent(persistents, guid, io.list);
      if err.Some? {
        return err;
      }
      if io.removeFails {
        return Some(Failed);
      }
      objects := objects - {guid};
      return None;
    }

    /** An update reports success and is not read back exactly when the incident becomes persistent and
      * its object could not be deleted. A plain incident is given the guid it is stored under. Otherwise
      * as for the local store. */
    method Update(guid: string, incident: Incident, clear: DeleteIo, io: ListIo, putFails: bool)
      returns (ret: Incident, err: Option<Error>)
      requires Good() && Usable(guid) && (incident.persistent ==> incident.guid == guid)
      modifies this`objects, this`persistents
      ensures Good() && ret == incident.(guid := guid)
      ensures err == if (if incident.persistent then Fails(io) else putFails) then Some(Failed) else None
      ensures err.None? ==>
        (Incidents() == old(Incidents())[guid := incident.(guid := guid)] <==>
           !incident.persistent || !(Fails(clear.list) || clear.removeFails) || guid !in old(objects))
      ensures objects - {guid} == old(objects) - {guid} && ListMap(List()) - {guid} == old(ListMap(List())) - {guid}
      ensures err.Some? && old(!InBoth(guid)) ==> MayDrop(old(Incidents()), Incidents(), guid)
      ensures err.None? && !Fails(clear.list) && (incident.persistent ==> !clear.removeFails) ==>
        Incidents() == old(Incidents())[guid := incident.(guid := guid)] && !InBoth(guid)
      ensures (Places(), err)
           == Disks.Next(Disks.Bucket, StoreSpec.Update(guid, incident.(guid := guid)), Disks.Disk(clear, io, putFails),
                         old(Places()))
      ensures err.None? ==>
        (InBoth(guid) <==>
           if incident.persistent then (Fails(clear.list) || clear.removeFails) && guid in old(objects)
           else Fails(clear.list) && guid in old(ListMap(List())))
    {
      if incident.persistent {
        err := UpdatePersistent(guid, incident, clear, io);
        return incident, err;
      }
      ghost var listed, plain := ListMap(List()), objects;
      BothDrop(listed, plain, guid);
      var cleared, _ := RemovePersistent(persistents, guid, clear.list);
      persistents := cleared;
      var named := incident.(guid := guid);
      OnlyThere(plain, objects, guid, named);
      OnlyThere(listed, ListMap(List()), guid, named);
      ClearedThenWritten(listed, plain, ListMap(List()), objects, guid, named);
      ret, err := Create(named, io, putFails);
    }

    method UpdatePersistent(guid: string, incident: Incident, clear: DeleteIo, io: ListIo) returns (err: Option<Error>)
      requires Good() && Usable(guid) && incident.guid == guid && incident.persistent
      modifies this`objects, this`persistents
      ensures Good()
      ensures err == if Fails(io) then Some(Failed) else None
      ensures err.None? ==>
        (Incidents() == old(Incidents())[guid := incident] <==>
           !(Fails(clear.list) || clear.removeFails) || guid !in old(objects))
      ensures objects - {guid} == old(objects) - {guid} && ListMap(List()) - {guid} == old(ListMap(List())) - {guid}
      ensures err.Some? && old(!InBoth(guid)) ==> MayDrop(old(Incidents()), Incidents(), guid)
      ensures !Fails(clear.list) && !clear.removeFails ==> guid !in objects
      ensures (Places(), err)
           == Disks.Next(Disks.Bucket, StoreSpec.Update(guid, incident), Disks.Disk(clear, io, false), old(Places()))
    {
      ghost var listed, plain := ListMap(List()), objects;
      BothDrop(listed, plain, guid);
      var _ := Delete(guid, clear);
      OnlyThere(plain, objects, guid, incident);
      OnlyThere(listed, ListMap(List()), guid, incident);
      ClearedThenWritten(listed, plain, ListMap(List()), objects, guid, incident);
      persistents, err := AddPersistent(persistents, incident, io);
    }

    /** Reading is looking up the map, the messages of a plain incident newest first. A list that cannot
      * be read is reported as a missing incident. */
    method Read(guid: string, getFails: bool, listFails: bool) returns (ret: Incident, err: Option<Error>)
      requires Good() && Usable(guid)
      ensures !getFails && !listFails ==>
        if guid in Incidents() then err == None && SameUpToOrder(ret, Incidents()[guid]) else err == Some(NotExist)
      ensures err.None? ==> guid in Incidents() && SameUpToOrder(ret, Incidents()[guid])
      ensures err.None? && guid in objects ==> NewestFirst(ret.messages)
      ensures err == if getFails then Some(Failed)
                     else if guid in objects then None
                     else if !listFails && guid in ListMap(List()) then None else Some(NotExist)
    {
      if getFails {
        return NO_INCIDENT, Some(Failed);
      }
      if guid !in objects {
        ListMapMembers(List());
        var incidents;
        incidents, err := Persistents(persistents, listFails);
        if err.Some? {
          return NO_INCIDENT, Some(NotExist);
        }
        var found := Find(incidents, guid);
        if found.guid == guid {
          assert found in List();
          return found, None;
        }
        assert guid !in ListMap(List());
        return NO_INCIDENT, Some(NotExist);
      }
      var incident := objects[guid];
      var messages := SortMessages(incident.messages);
      return incident.(messages := messages), None;
    }

    method ReadObject(name: string, getFails: bool) returns (incident: Incident, err: Option<Error>)
      requires Good() && name in objects
      ensures err.None? <==> !getFails
      ensures err.None? ==> SameUpToOrder(incident, objects[name]) && NewestFirst(incident.messages)
    {
      incident, err := Read(name, getFails, false);
      if err.None? {
        var messages := SortMessages(incident.messages);
        incident := incident.(messages := messages);
      }
    }

    /** Lists the bucket in its own order; the first object that cannot be read ends the listing. */
    method ByDate(from: Time, to: Time, names: seq<string>, unreadable: set<string>)
      returns (incidents: seq<Incident>, err: Option<Error>, ghost stopped: nat)
      requires Good() && Lists(names, objects)
      ensures stopped <= |names| && forall i :: 0 <= i < stopped ==> Reserved(names[i]) || names[i] !in unreadable
      ensures if stopped == |names| then err == None
              else err.Some? && !Reserved(names[stopped]) && names[stopped] in unreadable
      ensures SameListing(incidents, InWindow(objects, names[..stopped], from, to))
    {
      incidents := [];
      for i := 0 to |names|
        invariant forall j :: 0 <= j < i ==> Reserved(names[j]) || names[j] !in unreadable
        invariant SameListing(incidents, InWindow(objects, names[..i], from, to))
      {
        WindowStep(objects, names, from, to, i);
        if names[i] == SUBSCRIBERS || names[i] == PERSISTENTS {
          continue;
        }
        var incident, failed := ReadObject(names[i], names[i] in unreadable);
        if failed.Some? {
          return incidents, failed, i;
        }
        if incident.createdAt < from || incident.createdAt > to {
          continue;
        }
        ListingGrows(incidents, InWindow(objects, names[..i], from, to), incident, objects[names[i]]);
        incidents := incidents + [incident];
      }
      assert names[..|names|] == names;
      return incidents, None, |names|;
    }

    method RetrieveSubscribers(readFails: bool) returns (subs: seq<string>, err: Option<Error>)
      ensures err == if readFails then Some(Failed) else if subscribers.None? then Some(NotExist) else None
      ensures subs == if readFails then [] else Subs()
    {
      if readFails {
        return [], Some(Failed);
      }
      match subscribers
      case None => return [], Some(NotExist);
      case Some(list) => return list, None;
    }

    /** The error of the read is dropped. A subscription whose read failed takes every other subscriber
      * off the list, and reports success: it is a subscription exactly when the read did not fail or
      * there was nobody else to lose. */
    method Subscribe(email: string, io: ListIo) returns (err: Option<Error>)
      modifies this`subscribers
      ensures err.Some? ==> subscribers == old(subscribers)
      ensures err.None? <==> !io.writeFails || (!io.readFails && email in old(Subs()))
      ensures err.None? ==>
        (View() == Apply(StoreSpec.Subscribe(email), old(View())) <==>
           !io.readFails || forall x :: x in old(Subs()) ==> x == email)
      ensures (Places(), err)
           == Disks.Next(Disks.Bucket, StoreSpec.Subscribe(email), Disks.OnList(io, false), old(Places()))
    {
      var subs, _ := RetrieveSubscribers(io.readFails);
      WroteSubscriber(Incidents(), Subs(), subs + [email], StoreSpec.Subscribe(email));
      if email in subs {
        WroteSubscriber(Incidents(), Subs(), subs, StoreSpec.Subscribe(email));
        return None;
      }
      if io.writeFails {
        return Some(Failed);
      }
      subscribers := Some(subs + [email]);
      return None;
    }

    method Unsubscribe(email: string, io: ListIo) returns (err: Option<Error>)
      modifies this`subscribers
      ensures err == if io.readFails then Some(Failed)
                     else if old(subscribers).None? then Some(NotExist)
                     else if io.writeFails then Some(Failed) else None
      ensures err.Some? ==> subscribers == old(subscribers)
      ensures err.None? ==> View() == Apply(StoreSpec.Unsubscribe(email), old(View()))
      ensures (Places(), err)
           == Disks.Next(Disks.Bucket, StoreSpec.Unsubscribe(email), Disks.OnList(io, false), old(Places()))
    {
      var subs;
      subs, err := RetrieveSubscribers(io.readFails);
      if err.Some? {
        return err;
      }
      TookOff(Incidents(), subs, email);
      subs := FilterStrSlice(email, subs);
      if io.writeFails {
        return Some(Failed);
      }
      subscribers := Some(subs);
      return None;
    }

    lemma GoodPlaces()
      requires Good()
      ensures Disks.Good(Places()) && View() == Disks.View(Disks.Bucket, Places())
      ensures forall guid :: InBoth(guid) <==> Disks.InBoth(Places(), guid)
    {
      ListMapMembers(List());
    }

    /** Any operation, from any state and on any disk. What the store shows is then what the replication
      * protocol takes it to show, success or failure, exactly unless the operation loses its write behind
      * the object or forgets subscribers; and a failed one leaves what was there, or nothing. */
    method Do(op: Op, disk: Disks.Disk) returns (err: Option<Error>)
      requires Good() && Disks.Fits(op)
      modifies this
      ensures Good() && (Places(), err) == Disks.Next(Disks.Bucket, op, disk, old(Places()))
      ensures Disks.Lands(op, err, old(View()), View()) <==>
        !Disks.Loses(Disks.Bucket, op, disk, old(Places())) && !Disks.Forgets(Disks.Bucket, op, disk, old(Places()))
      ensures err.Some? ==> Disks.SameOrGone(Look(old(View()), KeyOf(op)), Look(View(), KeyOf(op)))
    {
      GoodPlaces();
      Disks.LandsExactly(Disks.Bucket, op, disk, Places());
      if Disks.Next(Disks.Bucket, op, disk, Places()).1.Some? {
        Disks.BucketFailsCleanly(op, disk, Places());
      }
      match op {
        case Create(incident) =>
          var _, failed := Create(incident, disk.list, disk.fileFails);
          err := failed;
        case Update(guid, incident) =>
          var _, failed := Update(guid, incident, disk.clear, disk.list, disk.fileFails);
          err := failed;
        case Delete(guid) =>
          err := Delete(guid, disk.clear);
        case Subscribe(email) =>
          err := Subscribe(email, disk.list);
        case Unsubscribe(email) =>
          err := Unsubscribe(email, disk.list);
      }
      GoodPlaces();
    }
  }
}

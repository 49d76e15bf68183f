/** The retry loop over the local store: attempts that did half their work do not show. */
module RetryLocal {
  import opened Wrappers
  import opened Models
  import opened StoreSpec
  import opened Files
  import opened DiskRuns
  import opened LocalStore
  import Disks

  /** Any operation tried up to `n` times, from any state and on any disk. The store then shows what the
    * protocol takes one operation to show, exactly unless the last attempt loses its write behind the
    * persistent list, or all fail and an older incident that one of them uncovered still lies open. */
  method Write(local: Local, op: Op, disks: nat -> Disks.Disk, n: nat) returns (err: Option<Error>)
    requires local.Good() && Disks.Fits(op) && n > 0
    modifies local
    ensures local.Good() && (local.Places(), err) == Tried(Disks.Directory, op, disks, 0, n, old(local.Places()))
    ensures Disks.Lands(op, err, old(local.View()), local.View())
       <==> Sound(Disks.Directory, op, disks, n, old(local.Places()))
    ensures err == None && !op.Create? && !op.Update? ==> local.View() == Apply(op, old(local.View()))
  {
    local.GoodPlaces();
    TriedLandsExactly(Disks.Directory, op, disks, n, local.Places());
    ghost var before := local.Places();
    err := Try(local, op, disks, n);
    local.GoodPlaces();
    if err == None && !op.Create? && !op.Update? {
      assert Sound(Disks.Directory, op, disks, n, before);
    }
  }

  /** The loop itself. */
  method Try(local: Local, op: Op, disks: nat -> Disks.Disk, n: nat) returns (err: Option<Error>)
    requires local.Good() && Disks.Fits(op) && n > 0
    modifies local
    ensures local.Good() && (local.Places(), err) == Tried(Disks.Directory, op, disks, 0, n, old(local.Places()))
  {
    ghost var s := local.Places();
    err := None;
    for i := 0 to n
      invariant local.Good()
      invariant i < n ==>
        Tried(Disks.Directory, op, disks, i, n, local.Places()) == Tried(Disks.Directory, op, disks, 0, n, s)
      invariant i == n ==> (local.Places(), err) == Tried(Disks.Directory, op, disks, 0, n, s)
    {
      err := local.Do(op, disks(i));
      if err != Some(Failed) {
        return;
      }
    }
  }

  /** An update tried up to `n` times. If it is reported as done, it has happened exactly as one update
    * that met no failure would have, unless the one attempt that counts could not take a persistent
    * incident off the list; if it is reported as failed, no other incident has changed, and this one, if
    * it was in one place at most, is as it was, or gone. */
  method Update(local: Local, guid: string, incident: Incident, disks: nat -> Disks.Disk, n: nat)
    returns (err: Option<Error>, tries: nat)
    requires local.Good() && Usable(guid) && incident.guid == guid
    modifies local`files, local`persistents
    ensures local.Good() && tries <= n && (n > 0 ==> tries > 0)
    ensures local.Incidents() - {guid} == old(local.Incidents()) - {guid}
    ensures err.Some? ==> tries == n
    ensures err.Some? && old(!local.InBoth(guid)) ==>
              MayDrop(old(local.Incidents()), local.Incidents(), guid) && !local.InBoth(guid)
    ensures err.None? && n > 0 && (incident.persistent || !Fails(disks(tries - 1).clear.list)) ==>
              local.Incidents() == old(local.Incidents())[guid := incident]
  {
    ghost var before, apart := local.Incidents(), !local.InBoth(guid);
    tries := 0;
    err := None;
    while tries < n
      invariant tries <= n
      invariant local.Good() && local.Incidents() - {guid} == before - {guid}
      invariant apart ==> !local.InBoth(guid) && MayDrop(before, local.Incidents(), guid)
      invariant tries > 0 ==> err.Some?
      invariant tries == 0 ==> err.None?
    {
      var disk := disks(tries);
      tries := tries + 1;
      err := Attempt(local, guid, incident, disk, before, apart);
      if err.None? {
        return;
      }
    }
  }

  /** One attempt, after failed ones that may have changed the incident from what was there `before`. */
  method Attempt(local: Local, guid: string, incident: Incident, disk: Disks.Disk, ghost before: map<string, Incident>,
                 ghost apart: bool)
    returns (err: Option<Error>)
    requires local.Good() && Usable(guid) && incident.guid == guid
    requires local.Incidents() - {guid} == before - {guid}
    requires apart ==> !local.InBoth(guid) && MayDrop(before, local.Incidents(), guid)
    modifies local`files, local`persistents
    ensures local.Good() && local.Incidents() - {guid} == before - {guid}
    ensures err.Some? && apart ==> MayDrop(before, local.Incidents(), guid) && !local.InBoth(guid)
    ensures err.None? && (incident.persistent || !Fails(disk.clear.list)) ==>
              local.Incidents() == before[guid := incident]
  {
    ghost var mid, files, listed := local.Incidents(), local.files, ListMap(local.List());
    var _, failed := local.Update(guid, incident, disk.clear, disk.list, disk.fileFails);
    ghost var after := local.Incidents();
    OthersStay(files, listed, local.files, ListMap(local.List()), guid);
    OthersThenPut(before, mid, guid, incident);
    if apart {
      MayDropTwice(before, mid, after, guid, incident);
    }
    err := failed;
  }

  lemma OthersStay(x: map<string, Incident>, y: map<string, Incident>, x': map<string, Incident>,
                   y': map<string, Incident>, guid: string)
    requires x' - {guid} == x - {guid} && y' - {guid} == y - {guid}
    ensures (x' + y') - {guid} == (x + y) - {guid}
  {
    assert forall g :: g != guid ==> (g in x' <==> g in x' - {guid}) && (g in x <==> g in x - {guid});
    assert forall g :: g != guid ==> (g in y' <==> g in y' - {guid}) && (g in y <==> g in y - {guid});
    forall g | g != guid
      ensures g in x' <==> g in x
      ensures g in y' <==> g in y
      ensures g in x ==> x'[g] == x[g]
      ensures g in y ==> y'[g] == y[g]
    {
      assert g in x ==> (x - {guid})[g] == x[g] && (x' - {guid})[g] == x'[g];
      assert g in y ==> (y - {guid})[g] == y[g] && (y' - {guid})[g] == y'[g];
    }
  }

  lemma OthersThenPut(before: map<string, Incident>, mid: map<string, Incident>, guid: string, incident: Incident)
    requires mid - {guid} == before - {guid}
    ensures mid[guid := incident] == before[guid := incident]
  {
    forall g | g != guid
      ensures g in mid <==> g in before
      ensures g in mid ==> mid[g] == before[g]
    {
      assert g in mid <==> g in mid - {guid};
      assert g in before <==> g in before - {guid};
      assert g in mid ==> (mid - {guid})[g] == mid[g] && (before - {guid})[g] == before[g];
    }
  }
}

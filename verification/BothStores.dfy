/** The local store and the bucket, driven by the same run of operations, each over a disk of its own. */
module BothStores {
  import opened Wrappers
  import opened Models
  import opened StoreSpec
  import opened Files
  import opened DiskRuns
  import opened LocalStore
  import opened S3Store
  import Disks

  /** The next operation of the run. */
  method StepLocal(local: Local, ops: seq<Op>, disks: nat -> Disks.Disk, i: nat) returns (err: Option<Error>)
    requires local.Good() && AllFit(ops) && i < |ops|
    requires local.Places() == Before(Disks.Directory, ops, disks, Disks.EMPTY, i)
    modifies local
    ensures local.Good() && local.Places() == Before(Disks.Directory, ops, disks, Disks.EMPTY, i + 1)
    ensures err == Reports(Disks.Directory, ops, disks, Disks.EMPTY, i)
  {
    OneMore(Disks.Directory, ops, disks, Disks.EMPTY, i);
    assert Disks.Fits(ops[i]);
    err := local.Do(ops[i], disks(i));
  }

  /** A run over a directory: the store ends in the state that the run leads to. */
  method DriveLocal(ops: seq<Op>, disks: nat -> Disks.Disk) returns (local: Local)
    requires AllFit(ops)
    ensures fresh(local) && local.Good()
    ensures local.Places() == After(Disks.Directory, ops, disks, Disks.EMPTY)
  {
    local := new Local();
    for i := 0 to |ops|
      invariant fresh(local) && local.Good()
      invariant local.Places() == Before(Disks.Directory, ops, disks, Disks.EMPTY, i)
    {
      var _ := StepLocal(local, ops, disks, i);
    }
    assert ops[..|ops|] == ops;
  }

  /** The next operation of the run. */
  method StepS3(s3: S3, ops: seq<Op>, disks: nat -> Disks.Disk, i: nat) returns (err: Option<Error>)
    requires s3.Good() && AllFit(ops) && i < |ops|
    requires s3.Places() == Before(Disks.Bucket, ops, disks, Disks.EMPTY, i)
    modifies s3
    ensures s3.Good() && s3.Places() == Before(Disks.Bucket, ops, disks, Disks.EMPTY, i + 1)
    ensures err == Reports(Disks.Bucket, ops, disks, Disks.EMPTY, i)
  {
    OneMore(Disks.Bucket, ops, disks, Disks.EMPTY, i);
    assert Disks.Fits(ops[i]);
    err := s3.Do(ops[i], disks(i));
  }

  /** The same over a bucket. */
  method DriveS3(ops: seq<Op>, disks: nat -> Disks.Disk) returns (s3: S3)
    requires AllFit(ops)
    ensures fresh(s3) && s3.Good()
    ensures s3.Places() == After(Disks.Bucket, ops, disks, Disks.EMPTY)
  {
    s3 := new S3();
    for i := 0 to |ops|
      invariant fresh(s3) && s3.Good()
      invariant s3.Places() == Before(Disks.Bucket, ops, disks, Disks.EMPTY, i)
    {
      var _ := StepS3(s3, ops, disks, i);
    }
    assert ops[..|ops|] == ops;
  }

  /** Any run of operations over two disks that fail as they like. If every operation has happened in both
    * stores, and none loses its write or forgets subscribers, then both show what the operations say and
    * hold the same incidents, even where one is in both places; and no incident is, if none is ever put
    * there. */
  method Drive(ops: seq<Op>, one: nat -> Disks.Disk, other: nat -> Disks.Disk) returns (local: Local, s3: S3)
    requires AllFit(ops)
    ensures fresh(local) && fresh(s3) && local.Good() && s3.Good()
    ensures local.Places() == After(Disks.Directory, ops, one, Disks.EMPTY)
    ensures s3.Places() == After(Disks.Bucket, ops, other, Disks.EMPTY)
    ensures Smooth(Disks.Directory, ops, one) && Smooth(Disks.Bucket, ops, other) ==>
      && local.View() == s3.View() == Fold(map[], ops)
      && local.Incidents() == s3.Incidents()
    ensures NeverSplits(Disks.Directory, ops, one) ==> local.Separate()
    ensures NeverSplits(Disks.Bucket, ops, other) ==> s3.Separate()
  {
    local := DriveLocal(ops, one);
    s3 := DriveS3(ops, other);
    local.GoodPlaces();
    s3.GoodPlaces();
    if NeverSplits(Disks.Directory, ops, one) {
      StaysSeparate(Disks.Directory, ops, one);
    }
    if NeverSplits(Disks.Bucket, ops, other) {
      StaysSeparate(Disks.Bucket, ops, other);
    }
    if Smooth(Disks.Directory, ops, one) && Smooth(Disks.Bucket, ops, other) {
      SameRunSameContents(ops, one, other);
      SameIncidents(local.Incidents(), local.Subs(), s3.Incidents(), s3.Subs());
    }
  }

  lemma SameIncidents(a: map<string, Incident>, subs: seq<string>, b: map<string, Incident>, subs': seq<string>)
    requires ContentsOf(a, subs) == ContentsOf(b, subs')
    ensures a == b
  {
    forall guid
      ensures guid in a <==> guid in b
      ensures guid in a ==> a[guid] == b[guid]
    {
      ContentsLook(a, subs, Guid(guid));
      ContentsLook(b, subs', Guid(guid));
    }
  }

  /** Every read then finds the same incident in both, up to the order of its messages, or in neither. */
  method ReadBoth(local: Local, s3: S3, guid: string) returns (a: Incident, b: Incident, found: bool)
    requires local.Good() && s3.Good() && local.Incidents() == s3.Incidents() && Usable(guid)
    ensures found <==> guid in local.Incidents()
    ensures found ==> SameUpToOrder(b, a) && a == local.Incidents()[guid]
  {
    var errA, errB;
    a, errA := local.Read(guid, false, false);
    b, errB := s3.Read(guid, false, false);
    assert errA.None? <==> errB.None?;
    found := errA.None?;
  }
}

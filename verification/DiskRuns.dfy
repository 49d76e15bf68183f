/** Whole runs of a file store over a disk that may fail at every step, and the retry loop over one. */
module DiskRuns {
  import opened Wrappers
  import opened StoreSpec
  import opened Files
  import opened Disks

  ghost predicate AllFit(ops: seq<Op>) {
    forall i :: 0 <= i < |ops| ==> Fits(ops[i])
  }

  function After(kind: Kind, ops: seq<Op>, disks: nat -> Disk, s: State): State {
    if ops == [] then s
    else Next(kind, ops[|ops| - 1], disks(|ops| - 1), After(kind, ops[..|ops| - 1], disks, s)).0
  }

  /** The state that operation `n` finds, and the error it reports. */
  function Before(kind: Kind, ops: seq<Op>, disks: nat -> Disk, s: State, n: nat): State
    requires n <= |ops|
  {
    After(kind, ops[..n], disks, s)
  }

  function Reports(kind: Kind, ops: seq<Op>, disks: nat -> Disk, s: State, n: nat): Option<Error>
    requires n < |ops|
  {
    Next(kind, ops[n], disks(n), Before(kind, ops, disks, s, n)).1
  }

  predicate SplitsAt(kind: Kind, ops: seq<Op>, disks: nat -> Disk, s: State, n: nat)
    requires n < |ops|
  {
    Splits(kind, ops[n], disks(n), Before(kind, ops, disks, s, n))
  }

  predicate ForgetsAt(kind: Kind, ops: seq<Op>, disks: nat -> Disk, s: State, n: nat)
    requires n < |ops|
  {
    Forgets(kind, ops[n], disks(n), Before(kind, ops, disks, s, n))
  }

  predicate LosesAt(kind: Kind, ops: seq<Op>, disks: nat -> Disk, s: State, n: nat)
    requires n < |ops|
  {
    Loses(kind, ops[n], disks(n), Before(kind, ops, disks, s, n))
  }

  predicate UncoversAt(kind: Kind, ops: seq<Op>, disks: nat -> Disk, s: State, n: nat)
    requires n < |ops|
  {
    Uncovers(kind, ops[n], disks(n), Before(kind, ops, disks, s, n))
  }

  lemma OneMore(kind: Kind, ops: seq<Op>, disks: nat -> Disk, s: State, n: nat)
    requires n < |ops|
    ensures Before(kind, ops, disks, s, n + 1) == Next(kind, ops[n], disks(n), Before(kind, ops, disks, s, n)).0
  {
    assert ops[..n + 1][..n] == ops[..n];
  }

  lemma {:induction false} RunKeepsGood(kind: Kind, ops: seq<Op>, disks: nat -> Disk, s: State, n: nat)
    requires Good(s) && AllFit(ops) && n <= |ops|
    ensures Good(Before(kind, ops, disks, s, n))
  {
    if n > 0 {
      RunKeepsGood(kind, ops, disks, s, n - 1);
      OneMore(kind, ops, disks, s, n - 1);
      NextKeepsGood(kind, ops[n - 1], disks(n - 1), Before(kind, ops, disks, s, n - 1));
    }
  }

  lemma {:induction false} SeparateUpTo(kind: Kind, ops: seq<Op>, disks: nat -> Disk, s: State, n: nat)
    requires Good(s) && Separate(s) && AllFit(ops) && n <= |ops|
    requires forall m :: 0 <= m < n ==> !SplitsAt(kind, ops, disks, s, m)
    ensures Separate(Before(kind, ops, disks, s, n))
  {
    if n > 0 {
      SeparateUpTo(kind, ops, disks, s, n - 1);
      OneMore(kind, ops, disks, s, n - 1);
      RunKeepsGood(kind, ops, disks, s, n - 1);
      assert !SplitsAt(kind, ops, disks, s, n - 1);
      SeparateExactly(kind, ops[n - 1], disks(n - 1), Before(kind, ops, disks, s, n - 1));
    } else {
      assert ops[..0] == [];
    }
  }

  /** Over any run on any disk: no guid is ever in both places, exactly when no operation splits one. */
  lemma {:induction false} SeparateThroughout(kind: Kind, ops: seq<Op>, disks: nat -> Disk, s: State)
    requires Good(s) && Separate(s) && AllFit(ops)
    ensures (forall n :: 0 <= n <= |ops| ==> Separate(Before(kind, ops, disks, s, n)))
       <==> (forall n :: 0 <= n < |ops| ==> !SplitsAt(kind, ops, disks, s, n))
  {
    if forall n :: 0 <= n < |ops| ==> !SplitsAt(kind, ops, disks, s, n) {
      forall n | 0 <= n <= |ops|
        ensures Separate(Before(kind, ops, disks, s, n))
      {
        SeparateUpTo(kind, ops, disks, s, n);
      }
    }
    if forall n :: 0 <= n <= |ops| ==> Separate(Before(kind, ops, disks, s, n)) {
      forall n | 0 <= n < |ops|
        ensures !SplitsAt(kind, ops, disks, s, n)
      {
        assert Separate(Before(kind, ops, disks, s, n)) && Separate(Before(kind, ops, disks, s, n + 1));
        OneMore(kind, ops, disks, s, n);
        RunKeepsGood(kind, ops, disks, s, n);
        SeparateExactly(kind, ops[n], disks(n), Before(kind, ops, disks, s, n));
      }
    }
  }

  // ---- the store as the protocol sees it

  function LandAll(contents: Contents, ops: seq<Op>, outcomes: seq<Outcome>): Contents
    requires |outcomes| == |ops|
  {
    if ops == [] then contents
    else
      var n := |ops| - 1;
      Land(ops[n], outcomes[n], LandAll(contents, ops[..n], outcomes[..n]))
  }

  predicate CleanAt(kind: Kind, ops: seq<Op>, disks: nat -> Disk, s: State, n: nat)
    requires n < |ops|
  {
    !LosesAt(kind, ops, disks, s, n) && !ForgetsAt(kind, ops, disks, s, n) && !UncoversAt(kind, ops, disks, s, n)
  }

  /** No operation loses its write, forgets subscribers, or uncovers an older incident. */
  ghost predicate Undisturbed(kind: Kind, ops: seq<Op>, disks: nat -> Disk, s: State) {
    forall n :: 0 <= n < |ops| ==> CleanAt(kind, ops, disks, s, n)
  }

  /** What the store shows before each operation and at the end. */
  ghost function Views(kind: Kind, ops: seq<Op>, disks: nat -> Disk, s: State): (views: seq<Contents>)
    ensures |views| == |ops| + 1
    ensures forall n :: 0 <= n <= |ops| ==> views[n] == View(kind, Before(kind, ops, disks, s, n))
  {
    seq(|ops| + 1, n requires 0 <= n <= |ops| => View(kind, Before(kind, ops, disks, s, n)))
  }

  ghost function AllReports(kind: Kind, ops: seq<Op>, disks: nat -> Disk, s: State): (errs: seq<Option<Error>>)
    ensures |errs| == |ops|
    ensures forall n :: 0 <= n < |ops| ==> errs[n] == Reports(kind, ops, disks, s, n)
  {
    seq(|ops|, n requires 0 <= n < |ops| => Reports(kind, ops, disks, s, n))
  }

  ghost predicate LandsAt(ops: seq<Op>, errs: seq<Option<Error>>, views: seq<Contents>, n: nat)
    requires |errs| == |ops| && |views| == |ops| + 1 && n < |ops|
  {
    Lands(ops[n], errs[n], views[n], views[n + 1])
  }

  ghost predicate AllLand(ops: seq<Op>, errs: seq<Option<Error>>, views: seq<Contents>)
    requires |errs| == |ops| && |views| == |ops| + 1
  {
    forall n :: 0 <= n < |ops| ==> LandsAt(ops, errs, views, n)
  }

  lemma LandsAtExactly(kind: Kind, ops: seq<Op>, disks: nat -> Disk, s: State, n: nat)
    requires Good(s) && AllFit(ops) && n < |ops|
    ensures LandsAt(ops, AllReports(kind, ops, disks, s), Views(kind, ops, disks, s), n)
       <==> CleanAt(kind, ops, disks, s, n)
  {
    RunKeepsGood(kind, ops, disks, s, n);
    OneMore(kind, ops, disks, s, n);
    LandsExactly(kind, ops[n], disks(n), Before(kind, ops, disks, s, n));
  }

  ghost predicate OutcomesOf(errs: seq<Option<Error>>, outcomes: seq<Outcome>) {
    |outcomes| == |errs| && forall n :: 0 <= n < |errs| ==> (outcomes[n] == Accepted <==> errs[n] == None)
  }

  lemma {:induction false} LandingOneByOne(ops: seq<Op>, errs: seq<Option<Error>>, views: seq<Contents>, n: nat)
    returns (outcomes: seq<Outcome>)
    requires |errs| == |ops| && |views| == |ops| + 1 && AllLand(ops, errs, views) && n <= |ops|
    ensures OutcomesOf(errs[..n], outcomes) && views[n] == LandAll(views[0], ops[..n], outcomes)
  {
    if n == 0 {
      outcomes := [];
    } else {
      var front := LandingOneByOne(ops, errs, views, n - 1);
      assert LandsAt(ops, errs, views, n - 1);
      var outcome := TheOutcome(ops[n - 1], errs[n - 1], views[n - 1], views[n]);
      LandOne(views[0], ops, n - 1, front, outcome);
      outcomes := front + [outcome];
    }
  }

  /** From any state and on any disk, every operation of a run does to the contents what the protocol takes
    * it to do exactly when none loses its write, forgets subscribers or uncovers an older incident. */
  lemma {:induction false} RunLandsExactly(kind: Kind, ops: seq<Op>, disks: nat -> Disk, s: State)
    requires Good(s) && AllFit(ops)
    ensures AllLand(ops, AllReports(kind, ops, disks, s), Views(kind, ops, disks, s))
       <==> Undisturbed(kind, ops, disks, s)
  {
    forall n | 0 <= n < |ops|
      ensures LandsAt(ops, AllReports(kind, ops, disks, s), Views(kind, ops, disks, s), n)
         <==> CleanAt(kind, ops, disks, s, n)
    {
      LandsAtExactly(kind, ops, disks, s, n);
    }
  }

  /** Such a run is a run of the store the replication protocol assumes: each operation that reports success
    * has happened, each that reports an error has at most touched its own key. */
  lemma {:induction false} RunLands(kind: Kind, ops: seq<Op>, disks: nat -> Disk, s: State)
    returns (outcomes: seq<Outcome>)
    requires Good(s) && AllFit(ops) && Undisturbed(kind, ops, disks, s)
    ensures OutcomesOf(AllReports(kind, ops, disks, s), outcomes)
    ensures View(kind, After(kind, ops, disks, s)) == LandAll(View(kind, s), ops, outcomes)
  {
    var errs, views := AllReports(kind, ops, disks, s), Views(kind, ops, disks, s);
    RunLandsExactly(kind, ops, disks, s);
    outcomes := LandingOneByOne(ops, errs, views, |ops|);
    assert ops[..|ops|] == ops && errs[..|ops|] == errs && ops[..0] == [];
  }

  lemma TheOutcome(op: Op, err: Option<Error>, before: Contents, after: Contents) returns (outcome: Outcome)
    requires Lands(op, err, before, after)
    ensures (outcome == Accepted <==> err == None) && after == Land(op, outcome, before)
  {
    outcome :| (outcome == Accepted <==> err == None) && after == Land(op, outcome, before);
  }

  lemma LandOne(contents: Contents, ops: seq<Op>, n: nat, outcomes: seq<Outcome>, outcome: Outcome)
    requires n < |ops| && |outcomes| == n
    ensures LandAll(contents, ops[..n + 1], outcomes + [outcome])
         == Land(ops[n], outcome, LandAll(contents, ops[..n], outcomes))
  {
    assert ops[..n + 1][..n] == ops[..n] && (outcomes + [outcome])[..n] == outcomes;
  }

  lemma {:induction false} AppliedOneByOne(ops: seq<Op>, views: seq<Contents>, n: nat)
    requires |views| == |ops| + 1 && n <= |ops|
    requires forall m :: 0 <= m < |ops| ==> views[m + 1] == Apply(ops[m], views[m])
    ensures views[n] == Fold(views[0], ops[..n])
  {
    if n > 0 {
      AppliedOneByOne(ops, views, n - 1);
      assert ops[..n][..n - 1] == ops[..n - 1];
      assert views[n - 1 + 1] == Apply(ops[n - 1], views[n - 1]);
    }
  }

  ghost predicate AllDone(kind: Kind, ops: seq<Op>, disks: nat -> Disk, s: State) {
    forall n :: 0 <= n < |ops| ==> Done(ops[n], Reports(kind, ops, disks, s, n))
  }

  /** What the store shows follows the operations step by step. */
  ghost predicate FollowsFold(kind: Kind, ops: seq<Op>, disks: nat -> Disk, s: State) {
    forall n :: 0 <= n <= |ops| ==> View(kind, Before(kind, ops, disks, s, n)) == Fold(View(kind, s), ops[..n])
  }

  lemma FoldMore(contents: Contents, ops: seq<Op>, n: nat)
    requires n < |ops|
    ensures Fold(contents, ops[..n + 1]) == Apply(ops[n], Fold(contents, ops[..n]))
  {
    assert ops[..n + 1] == ops[..n] + [ops[n]];
    FoldAppend(contents, ops[..n], ops[n]);
  }

  lemma AppliedAt(kind: Kind, ops: seq<Op>, disks: nat -> Disk, s: State, n: nat)
    requires Good(s) && AllFit(ops) && AllDone(kind, ops, disks, s) && n < |ops|
    ensures View(kind, Before(kind, ops, disks, s, n + 1)) == Apply(ops[n], View(kind, Before(kind, ops, disks, s, n)))
       <==> !LosesAt(kind, ops, disks, s, n) && !ForgetsAt(kind, ops, disks, s, n)
  {
    RunKeepsGood(kind, ops, disks, s, n);
    OneMore(kind, ops, disks, s, n);
    assert Done(ops[n], Reports(kind, ops, disks, s, n));
    DoneExactly(kind, ops[n], disks(n), Before(kind, ops, disks, s, n));
  }

  /** When every operation has happened, the store shows at every moment exactly what the operations so far
    * say, if and only if none loses its write or forgets subscribers. */
  lemma {:induction false} RunIsFold(kind: Kind, ops: seq<Op>, disks: nat -> Disk, s: State)
    requires Good(s) && AllFit(ops) && AllDone(kind, ops, disks, s)
    ensures FollowsFold(kind, ops, disks, s)
       <==> (forall n :: 0 <= n < |ops| ==> !LosesAt(kind, ops, disks, s, n) && !ForgetsAt(kind, ops, disks, s, n))
  {
    if forall n :: 0 <= n < |ops| ==> !LosesAt(kind, ops, disks, s, n) && !ForgetsAt(kind, ops, disks, s, n) {
      var views := Views(kind, ops, disks, s);
      forall m | 0 <= m < |ops|
        ensures views[m + 1] == Apply(ops[m], views[m])
      {
        AppliedAt(kind, ops, disks, s, m);
      }
      assert ops[..0] == [];
      forall n | 0 <= n <= |ops|
        ensures View(kind, Before(kind, ops, disks, s, n)) == Fold(View(kind, s), ops[..n])
      {
        AppliedOneByOne(ops, views, n);
      }
    }
    if FollowsFold(kind, ops, disks, s) {
      forall n | 0 <= n < |ops|
        ensures !LosesAt(kind, ops, disks, s, n) && !ForgetsAt(kind, ops, disks, s, n)
      {
        FoldMore(View(kind, s), ops, n);
        assert View(kind, Before(kind, ops, disks, s, n)) == Fold(View(kind, s), ops[..n]);
        assert View(kind, Before(kind, ops, disks, s, n + 1)) == Fold(View(kind, s), ops[..n + 1]);
        AppliedAt(kind, ops, disks, s, n);
      }
    }
  }

  /** From nothing every operation happens, and none loses its write or forgets subscribers. */
  ghost predicate Smooth(kind: Kind, ops: seq<Op>, disks: nat -> Disk) {
    && AllDone(kind, ops, disks, EMPTY)
    && forall n :: 0 <= n < |ops| ==> !LosesAt(kind, ops, disks, EMPTY, n) && !ForgetsAt(kind, ops, disks, EMPTY, n)
  }

  ghost predicate NeverSplits(kind: Kind, ops: seq<Op>, disks: nat -> Disk) {
    forall n :: 0 <= n < |ops| ==> !SplitsAt(kind, ops, disks, EMPTY, n)
  }

  lemma ShowsFold(kind: Kind, ops: seq<Op>, disks: nat -> Disk)
    requires AllFit(ops) && Smooth(kind, ops, disks)
    ensures View(kind, After(kind, ops, disks, EMPTY)) == Fold(map[], ops)
  {
    assert View(kind, EMPTY) == map[];
    RunIsFold(kind, ops, disks, EMPTY);
    assert ops[..|ops|] == ops;
    assert View(kind, Before(kind, ops, disks, EMPTY, |ops|)) == Fold(map[], ops[..|ops|]);
  }

  lemma StaysSeparate(kind: Kind, ops: seq<Op>, disks: nat -> Disk)
    requires AllFit(ops) && NeverSplits(kind, ops, disks)
    ensures Separate(After(kind, ops, disks, EMPTY))
  {
    SeparateUpTo(kind, ops, disks, EMPTY, |ops|);
    assert ops[..|ops|] == ops;
  }

  /** Two stores of either kind, over disks of their own, driven by the same run from nothing: where every
    * operation has happened and none loses its write or forgets subscribers, both hold what the operations
    * say, even with guids in both places; and each guid is in one place if no operation splits one. */
  lemma {:induction false} SameRunSameContents(ops: seq<Op>, one: nat -> Disk, other: nat -> Disk)
    requires AllFit(ops)
    requires Smooth(Directory, ops, one) && Smooth(Bucket, ops, other)
    ensures View(Directory, After(Directory, ops, one, EMPTY)) == Fold(map[], ops)
    ensures View(Bucket, After(Bucket, ops, other, EMPTY)) == Fold(map[], ops)
    ensures NeverSplits(Directory, ops, one) ==> Separate(After(Directory, ops, one, EMPTY))
    ensures NeverSplits(Bucket, ops, other) ==> Separate(After(Bucket, ops, other, EMPTY))
  {
    ShowsFold(Directory, ops, one);
    ShowsFold(Bucket, ops, other);
    if NeverSplits(Directory, ops, one) {
      StaysSeparate(Directory, ops, one);
    }
    if NeverSplits(Bucket, ops, other) {
      StaysSeparate(Bucket, ops, other);
    }
  }

  // ---- a disk that never fails

  function Fine(): nat -> Disk {
    n => NO_FAILURE
  }

  /** It splits nothing, if creations bring new guids, and forgets nobody. Only a bucket that has never had
    * a subscriber turns anything down: taking one off. */
  lemma FineStep(kind: Kind, op: Op, s: State)
    requires op.Create? ==> op.incident.guid !in Incidents(kind, s)
    ensures !Splits(kind, op, NO_FAILURE, s) && !Forgets(kind, op, NO_FAILURE, s)
    ensures Done(op, Next(kind, op, NO_FAILURE, s).1) <==> !(op.Unsubscribe? && kind == Bucket && s.subs == None)
    ensures Next(kind, op, NO_FAILURE, s).0.subs.Some?
       <==> s.subs.Some? || op.Subscribe? || (op.Unsubscribe? && kind == Directory)
  {
  }

  /** What the application asks of a store: creations bring guids of their own. */
  ghost predicate NewGuids(ops: seq<Op>) {
    forall n :: 0 <= n < |ops| && ops[n].Create? ==> KeyOf(ops[n]) !in Fold(map[], ops[..n])
  }

  /** Nobody is taken off the list of a bucket before somebody was put on it. */
  ghost predicate SubscribedFirst(kind: Kind, ops: seq<Op>) {
    kind == Bucket ==>
      forall n :: 0 <= n < |ops| && ops[n].Unsubscribe? ==> exists m :: 0 <= m < n && ops[m].Subscribe?
  }

  lemma {:induction false} HasSubscribers(ops: seq<Op>, n: nat)
    requires n <= |ops|
    ensures Before(Bucket, ops, Fine(), EMPTY, n).subs.Some? <==> exists m :: 0 <= m < n && ops[m].Subscribe?
  {
    if n > 0 {
      HasSubscribers(ops, n - 1);
      OneMore(Bucket, ops, Fine(), EMPTY, n - 1);
      FineSubs(ops[n - 1], Before(Bucket, ops, Fine(), EMPTY, n - 1));
    }
  }

  lemma FineSubs(op: Op, s: State)
    ensures Next(Bucket, op, NO_FAILURE, s).0.subs.Some? <==> s.subs.Some? || op.Subscribe?
  {
  }

  /** On a disk that never fails, every run whose creations bring new guids is smooth and splits nothing,
    * the persistent flag of an incident changing as it may: always in a directory, and in a bucket exactly
    * when nobody is taken off the list before somebody was put on it. */
  lemma {:induction false} FineRunIsSmooth(kind: Kind, ops: seq<Op>)
    requires AllFit(ops) && NewGuids(ops)
    ensures Smooth(kind, ops, Fine()) <==> SubscribedFirst(kind, ops)
    ensures SubscribedFirst(kind, ops) ==> NeverSplits(kind, ops, Fine())
  {
    if SubscribedFirst(kind, ops) {
      FineUpTo(kind, ops, |ops|);
      assert ops[..|ops|] == ops;
    }
    if Smooth(kind, ops, Fine()) && kind == Bucket {
      forall n | 0 <= n < |ops| && ops[n].Unsubscribe?
        ensures exists m :: 0 <= m < n && ops[m].Subscribe?
      {
        HasSubscribers(ops, n);
        assert Done(ops[n], Reports(Bucket, ops, Fine(), EMPTY, n));
      }
    }
  }

  lemma {:induction false} FineUpTo(kind: Kind, ops: seq<Op>, n: nat)
    requires AllFit(ops) && NewGuids(ops) && SubscribedFirst(kind, ops) && n <= |ops|
    ensures Smooth(kind, ops[..n], Fine()) && NeverSplits(kind, ops[..n], Fine())
  {
    if n > 0 {
      var m := n - 1;
      FineUpTo(kind, ops, m);
      FineAt(kind, ops, m);
      PrefixSmooth(kind, ops, m);
    } else {
      assert ops[..0] == [];
    }
  }

  lemma FineAt(kind: Kind, ops: seq<Op>, n: nat)
    requires AllFit(ops) && NewGuids(ops) && SubscribedFirst(kind, ops) && n < |ops|
    requires Smooth(kind, ops[..n], Fine())
    ensures !SplitsAt(kind, ops, Fine(), EMPTY, n) && !ForgetsAt(kind, ops, Fine(), EMPTY, n)
    ensures Done(ops[n], Reports(kind, ops, Fine(), EMPTY, n))
  {
    var s := Before(kind, ops, Fine(), EMPTY, n);
    ShowsFold(kind, ops[..n], Fine());
    if ops[n].Create? {
      LookView(kind, s, KeyOf(ops[n]));
      assert KeyOf(ops[n]) !in Fold(map[], ops[..n]);
    }
    FineStep(kind, ops[n], s);
    if kind == Bucket {
      HasSubscribers(ops, n);
    }
  }

  lemma PrefixSmooth(kind: Kind, ops: seq<Op>, n: nat)
    requires n < |ops| && Smooth(kind, ops[..n], Fine()) && NeverSplits(kind, ops[..n], Fine())
    requires !SplitsAt(kind, ops, Fine(), EMPTY, n) && !ForgetsAt(kind, ops, Fine(), EMPTY, n)
    requires Done(ops[n], Reports(kind, ops, Fine(), EMPTY, n))
    ensures Smooth(kind, ops[..n + 1], Fine()) && NeverSplits(kind, ops[..n + 1], Fine())
  {
    var front, longer := ops[..n], ops[..n + 1];
    forall m | 0 <= m < |longer|
      ensures !SplitsAt(kind, longer, Fine(), EMPTY, m) && !LosesAt(kind, longer, Fine(), EMPTY, m)
      ensures !ForgetsAt(kind, longer, Fine(), EMPTY, m)
      ensures Done(longer[m], Reports(kind, longer, Fine(), EMPTY, m))
    {
      assert longer[..m] == ops[..m] && longer[m] == ops[m];
      if m < n {
        assert front[..m] == ops[..m];
        assert !SplitsAt(kind, front, Fine(), EMPTY, m) && !ForgetsAt(kind, front, Fine(), EMPTY, m);
        assert !LosesAt(kind, front, Fine(), EMPTY, m) && Done(front[m], Reports(kind, front, Fine(), EMPTY, m));
      }
    }
  }

  // ---- the retry loop over a file store

  /** Attempts from the `i`-th of `n` on: up to the first that succeeds or finds nothing. */
  function Tried(kind: Kind, op: Op, disks: nat -> Disk, i: nat, n: nat, s: State): (State, Option<Error>)
    requires i < n
    decreases n - i
  {
    var (t, err) := Next(kind, op, disks(i), s);
    if err != Some(Failed) || i == n - 1 then (t, err) else Tried(kind, op, disks, i + 1, n, t)
  }

  /** The state the last of them finds, and which one it is. */
  function LastTry(kind: Kind, op: Op, disks: nat -> Disk, i: nat, n: nat, s: State): (last: (State, nat))
    requires i < n
    ensures i <= last.1 < n
    decreases n - i
  {
    var (t, err) := Next(kind, op, disks(i), s);
    if err != Some(Failed) || i == n - 1 then (s, i) else LastTry(kind, op, disks, i + 1, n, t)
  }

  /** The attempt fails, and yet has removed the plain file. */
  predicate Drops(op: Op, disk: Disk) {
    op.Update? && op.incident.persistent && !Fails(disk.clear.list) && !disk.clear.removeFails
  }

  /** After the last attempt an older incident lies open: some attempt uncovered it and none since removed
    * it. `open` says that one did before the `i`-th. */
  predicate LiesOpen(kind: Kind, op: Op, disks: nat -> Disk, i: nat, n: nat, s: State, open: bool)
    requires i < n
    decreases n - i
  {
    var (t, err) := Next(kind, op, disks(i), s);
    var now := Uncovers(kind, op, disks(i), s) || (open && !Drops(op, disks(i)));
    if err != Some(Failed) || i == n - 1 then now else LiesOpen(kind, op, disks, i + 1, n, t, now)
  }

  /** Where attempts that failed have got: from what `s` shows to what `t` does. */
  ghost predicate Astray(kind: Kind, op: Op, s: State, t: State, open: bool)
    requires KeyOf(op).Guid?
  {
    var guid := KeyOf(op).guid;
    && (open ==> kind == Directory && guid in t.plain && guid !in t.listed)
    && (open <==> !Harmless(op, Shown(kind, s, guid), Shown(kind, t, guid)))
    && (InBoth(t, guid) ==> Shown(kind, t, guid) == Shown(kind, s, guid))
  }

  /** One more failed attempt. */
  lemma AstrayMore(kind: Kind, op: Op, disk: Disk, s: State, t: State, open: bool)
    requires Good(t) && Fits(op) && KeyOf(op).Guid? && Astray(kind, op, s, t, open)
    requires Next(kind, op, disk, t).1.Some?
    ensures Astray(kind, op, s, Next(kind, op, disk, t).0, Uncovers(kind, op, disk, t) || (open && !Drops(op, disk)))
  {
    FailedGuid(kind, op, disk, t);
    if open {
      OpenMore(op, disk, t);
    } else if Uncovers(kind, op, disk, t) {
      assert InBoth(t, KeyOf(op).guid);
    }
  }

  /** What a failed attempt makes of an incident that lies open. */
  lemma OpenMore(op: Op, disk: Disk, t: State)
    requires Good(t) && Fits(op) && KeyOf(op).Guid? && Next(Directory, op, disk, t).1.Some?
    requires KeyOf(op).guid in t.plain && KeyOf(op).guid !in t.listed
    ensures var guid, u := KeyOf(op).guid, Next(Directory, op, disk, t).0;
            && guid !in u.listed
            && if Drops(op, disk) then guid !in u.plain else guid in u.plain && u.plain[guid] == t.plain[guid]
  {
  }

  /** What has been tried since `s`, wherever the attempts have got to. */
  lemma {:induction false} TriedAstray(kind: Kind, op: Op, disks: nat -> Disk, i: nat, n: nat, s: State, t: State,
                                       open: bool)
    requires i < n && Good(t) && Fits(op) && KeyOf(op).Guid? && Astray(kind, op, s, t, open)
    requires forall key :: key != KeyOf(op) ==> Look(View(kind, t), key) == Look(View(kind, s), key)
    ensures var (end, err) := Tried(kind, op, disks, i, n, t);
            var (found, last) := LastTry(kind, op, disks, i, n, t);
            Lands(op, err, View(kind, s), View(kind, end)) <==>
              if err == None then !Loses(kind, op, disks(last), found) else !LiesOpen(kind, op, disks, i, n, t, open)
    decreases n - i
  {
    var (u, err) := Next(kind, op, disks(i), t);
    if err != Some(Failed) || i == n - 1 {
      EndsAstray(kind, op, disks(i), s, t, open);
    } else {
      forall key | key != KeyOf(op)
        ensures Look(View(kind, u), key) == Look(View(kind, s), key)
      {
        Elsewhere(kind, op, disks(i), t, key);
      }
      AstrayMore(kind, op, disks(i), s, t, open);
      NextKeepsGood(kind, op, disks(i), t);
      TriedAstray(kind, op, disks, i + 1, n, s, u, Uncovers(kind, op, disks(i), t) || (open && !Drops(op, disks(i))));
    }
  }

  /** The last attempt decides. */
  lemma EndsAstray(kind: Kind, op: Op, disk: Disk, s: State, t: State, open: bool)
    requires Good(t) && Fits(op) && KeyOf(op).Guid? && Astray(kind, op, s, t, open)
    requires forall key :: key != KeyOf(op) ==> Look(View(kind, t), key) == Look(View(kind, s), key)
    ensures var (u, err) := Next(kind, op, disk, t);
            Lands(op, err, View(kind, s), View(kind, u)) <==>
              if err == None then !Loses(kind, op, disk, t)
              else !(Uncovers(kind, op, disk, t) || (open && !Drops(op, disk)))
  {
    var (u, err) := Next(kind, op, disk, t);
    forall key | key != KeyOf(op)
      ensures Look(View(kind, u), key) == Look(View(kind, s), key)
    {
      Elsewhere(kind, op, disk, t, key);
    }
    LandsByKey(op, err, View(kind, s), View(kind, u));
    if err == None {
      SucceedsAtKey(kind, op, disk, t);
    } else {
      AstrayMore(kind, op, disk, s, t, open);
      LookView(kind, s, KeyOf(op));
      LookView(kind, u, KeyOf(op));
    }
  }

  /** A subscription that fails has not touched anything. */
  lemma {:induction false} TriedSubscription(kind: Kind, op: Op, disks: nat -> Disk, i: nat, n: nat, s: State)
    requires i < n && Good(s) && KeyOf(op).Email?
    ensures var (end, err) := Tried(kind, op, disks, i, n, s);
            var (found, last) := LastTry(kind, op, disks, i, n, s);
            && found == s && (end, err) == Next(kind, op, disks(last), s)
            && (Lands(op, err, View(kind, s), View(kind, end)) <==> !Forgets(kind, op, disks(last), s))
            && !LiesOpen(kind, op, disks, i, n, s, false)
    decreases n - i
  {
    var (t, err) := Next(kind, op, disks(i), s);
    if err != Some(Failed) || i == n - 1 {
      LandsExactly(kind, op, disks(i), s);
    } else {
      FailedEmail(kind, op, disks(i), s);
      TriedSubscription(kind, op, disks, i + 1, n, s);
    }
  }

  /** The whole effort is one operation as the protocol takes it: it does not lose or forget with its last
    * attempt, nor fail with an older incident lying open. */
  predicate Sound(kind: Kind, op: Op, disks: nat -> Disk, n: nat, s: State)
    requires n > 0
  {
    var (found, last) := LastTry(kind, op, disks, 0, n, s);
    if Tried(kind, op, disks, 0, n, s).1 == None then
      !Loses(kind, op, disks(last), found) && !Forgets(kind, op, disks(last), found)
    else !LiesOpen(kind, op, disks, 0, n, s, false)
  }

  /** Exactly when any operation tried through the retry loop, from any state and on any disk, does to the
    * contents what the protocol takes it to do. Attempts that failed halfway do not show in the end, except
    * where all of them fail and one has uncovered an older incident that none has removed since. */
  lemma {:induction false} TriedLandsExactly(kind: Kind, op: Op, disks: nat -> Disk, n: nat, s: State)
    requires n > 0 && Good(s) && Fits(op)
    ensures var (t, err) := Tried(kind, op, disks, 0, n, s);
            Lands(op, err, View(kind, s), View(kind, t)) <==> Sound(kind, op, disks, n, s)
  {
    if KeyOf(op).Guid? {
      TriedAstray(kind, op, disks, 0, n, s, s, false);
    } else {
      TriedSubscription(kind, op, disks, 0, n, s);
    }
  }

  /** Doing a thing twice is doing it once: every operation is idempotent on the contents. */
  lemma {:induction false} AgainIsOnce(kind: Kind, op: Op, first: Disk, second: Disk, s: State)
    requires Good(s) && Fits(op)
    requires !Loses(kind, op, first, s) && !Forgets(kind, op, first, s) && Done(op, Next(kind, op, first, s).1)
    requires var t := Next(kind, op, first, s).0;
             !Loses(kind, op, second, t) && !Forgets(kind, op, second, t) && Done(op, Next(kind, op, second, t).1)
    ensures var t := Next(kind, op, first, s).0;
            View(kind, Next(kind, op, second, t).0) == View(kind, t)
  {
    var t := Next(kind, op, first, s).0;
    NextKeepsGood(kind, op, first, s);
    DoneExactly(kind, op, first, s);
    DoneExactly(kind, op, second, t);
    RetriedWriteIsOneWrite(op, Written, View(kind, s));
  }

  // ---- a deletion that is never reported as done

  /** Nothing of the run writes a plain file under the guid. */
  ghost predicate NoPlain(ops: seq<Op>, guid: string) {
    forall i :: 0 <= i < |ops| && (ops[i].Create? || ops[i].Update?) && KeyOf(ops[i]) == Guid(guid) ==>
      ops[i].incident.persistent
  }

  lemma {:induction false} StaysAway(ops: seq<Op>, disks: nat -> Disk, s: State, guid: string)
    requires AllFit(ops) && NoPlain(ops, guid) && guid !in s.plain
    ensures guid !in After(Directory, ops, disks, s).plain
  {
    if ops != [] {
      StaysAway(ops[..|ops| - 1], disks, s, guid);
    }
  }

  /** Where a directory has no plain file under a guid, every deletion of it reports an error, in every
    * run that writes none: the record of deleting a persistent incident is never taken off the log. */
  lemma DeletionNeverReportsSuccess(ops: seq<Op>, disks: nat -> Disk, s: State, guid: string, disk: Disk, n: nat)
    requires AllFit(ops) && NoPlain(ops, guid) && guid !in s.plain && n > 0
    ensures Next(Directory, Delete(guid), disk, After(Directory, ops, disks, s)).1.Some?
    ensures Tried(Directory, Delete(guid), disks, 0, n, After(Directory, ops, disks, s)).1.Some?
  {
    StaysAway(ops, disks, s, guid);
    TriedInVain(disks, 0, n, After(Directory, ops, disks, s), guid);
  }

  lemma {:induction false} TriedInVain(disks: nat -> Disk, i: nat, n: nat, s: State, guid: string)
    requires i < n && guid !in s.plain
    ensures Tried(Directory, Delete(guid), disks, i, n, s).1.Some?
    decreases n - i
  {
    var (t, err) := Next(Directory, Delete(guid), disks(i), s);
    if err == Some(Failed) && i < n - 1 {
      TriedInVain(disks, i + 1, n, t, guid);
    }
  }
}

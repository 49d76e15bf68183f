/** No write is lost and none is replayed twice, in every interleaving. */
module Conservation {
  import opened StoreSpec
  import opened Protocol
  import opened Ideals

  datatype Fate = Direct | Waiting | Replayed

  /** What `fate` means for the write `id` in world `w`. */
  ghost predicate Has(w: World, id: nat, fate: Fate)
    requires id < |w.issued|
  {
    match fate
    case Direct => w.issued[id].direct && id in w.applied && id !in w.log
    case Waiting => IsLive(w, id) && id !in w.applied
    case Replayed => !w.issued[id].direct && id in w.done && id in w.applied
  }

  lemma {:induction false} DistinctCounts(ids: seq<nat>, id: nat)
    requires Distinct(ids)
    ensures multiset(ids)[id] == if id in ids then 1 else 0
  {
    if ids != [] {
      var front, last := ids[..|ids| - 1], ids[|ids| - 1];
      DistinctCounts(front, id);
      assert ids == front + [last];
    }
  }

  /** Every write ever issued has exactly one fate, and it took effect at its store exactly once,
    * unless it is still waiting in the log, when it has not taken effect at all. */
  lemma EveryWriteHasOneFate(stores: map<string, Contents>, steps: seq<Step>, id: nat)
    requires id < |Run(Start(stores), steps).issued|
    ensures exists fate :: Has(Run(Start(stores), steps), id, fate)
    ensures forall f, g :: Has(Run(Start(stores), steps), id, f) && Has(Run(Start(stores), steps), id, g) ==> f == g
    ensures multiset(Run(Start(stores), steps).applied)[id]
         == if Has(Run(Start(stores), steps), id, Waiting) then 0 else 1
  {
    var w := Run(Start(stores), steps);
    RunKeepsInv(Start(stores), steps);
    DistinctCounts(w.applied, id);
    if w.issued[id].direct {
      assert Has(w, id, Direct);
    } else if id in w.done {
      assert Has(w, id, Replayed);
    } else {
      assert Has(w, id, Waiting);
    }
  }

  /** The writes below `n` that have not taken effect, oldest first. */
  ghost function Backlog(n: nat, applied: seq<nat>): seq<nat> {
    if n == 0 then []
    else Backlog(n - 1, applied) + if n - 1 in applied then [] else [n - 1]
  }

  lemma {:induction false} BacklogMember(n: nat, applied: seq<nat>, id: nat)
    ensures id in Backlog(n, applied) <==> id < n && id !in applied
  {
    if n > 0 {
      BacklogMember(n - 1, applied, id);
    }
  }

  lemma {:induction false} BacklogIncreasing(n: nat, applied: seq<nat>)
    ensures Increasing(Backlog(n, applied))
  {
    if n > 0 {
      BacklogIncreasing(n - 1, applied);
      var older := Backlog(n - 1, applied);
      forall id | id in older
        ensures id < n - 1
      {
        BacklogMember(n - 1, applied, id);
      }
      AppendIncreasing(older, n - 1);
    }
  }

  lemma HeadIsMember(ids: seq<nat>)
    ensures ids != [] ==> exists id :: id in ids
  {
    if ids != [] {
      assert ids[0] in ids;
    }
  }

  lemma LastIsGreatest(ids: seq<nat>, id: nat)
    requires Increasing(ids) && id in ids
    ensures id <= ids[|ids| - 1]
  {
  }

  lemma FrontMember(ids: seq<nat>, id: nat)
    requires Increasing(ids) && ids != []
    ensures id in ids[..|ids| - 1] <==> id in ids && id != ids[|ids| - 1]
  {
    assert ids == ids[..|ids| - 1] + [ids[|ids| - 1]];
  }

  lemma SameLast(a: seq<nat>, b: seq<nat>)
    requires Increasing(a) && Increasing(b) && a != [] && b != []
    requires forall id: nat :: id in a <==> id in b
    ensures a[|a| - 1] == b[|b| - 1]
  {
    var x, y := a[|a| - 1], b[|b| - 1];
    assert x in b && y in a;
    LastIsGreatest(a, y);
    LastIsGreatest(b, x);
  }

  /** An increasing sequence is determined by its members. */
  lemma {:induction false} IncreasingUnique(a: seq<nat>, b: seq<nat>)
    requires Increasing(a) && Increasing(b)
    requires forall id: nat :: id in a <==> id in b
    ensures a == b
  {
    HeadIsMember(a);
    HeadIsMember(b);
    if a != [] && b != [] {
      SameLast(a, b);
      var a', b' := a[..|a| - 1], b[..|b| - 1];
      forall id: nat
        ensures id in a' <==> id in b'
      {
        FrontMember(a, id);
        FrontMember(b, id);
      }
      IncreasingUnique(a', b');
      assert a == a' + [a[|a| - 1]] && b == b' + [b[|b| - 1]];
    }
  }

  /** The records not marked deleted are, in log order, exactly the writes the stores still miss,
    * in the order they were issued. */
  lemma LogIsBacklog(stores: map<string, Contents>, steps: seq<Step>)
    ensures var w := Run(Start(stores), steps);
            Live(w.log, w.done) == Backlog(|w.issued|, w.applied)
  {
    var w := Run(Start(stores), steps);
    RunKeepsInv(Start(stores), steps);
    LiveIncreasing(w.log, w.done);
    BacklogIncreasing(|w.issued|, w.applied);
    forall id: nat
      ensures id in Live(w.log, w.done) <==> id in Backlog(|w.issued|, w.applied)
    {
      BacklogMember(|w.issued|, w.applied, id);
      LiveMembers(w.log, w.done, id);
    }
    IncreasingUnique(Live(w.log, w.done), Backlog(|w.issued|, w.applied));
  }

  /** The step replays the record with success. */
  predicate TakesOff(w: World, step: Step, id: nat) {
    step == ReplayOne(Accepted) && w.todo != [] && w.todo[0] == id
  }

  ghost predicate AlwaysRefused(w: World, steps: seq<Step>, id: nat) {
    steps != [] ==>
      AlwaysRefused(w, steps[..|steps| - 1], id) && !TakesOff(Run(w, steps[..|steps| - 1]), steps[|steps| - 1], id)
  }

  lemma NextTakesOff(w: World, step: Step, id: nat)
    requires Inv(w) && IsLive(w, id)
    ensures IsLive(Next(w, step), id) <==> !TakesOff(w, step, id)
  {
    LiveMembers(w.log, w.done, id);
    if TakesOff(w, step, id) {
      ReplayKeepsInv(w, Accepted);
    }
  }

  /** A record waits until it is replayed with success, and no longer: one whose store always reports an
    * error waits for ever, whatever else happens. */
  lemma {:induction false} WaitsWhileRefused(w: World, steps: seq<Step>, id: nat)
    requires Inv(w) && IsLive(w, id)
    ensures IsLive(Run(w, steps), id) <==> AlwaysRefused(w, steps, id)
  {
    if steps != [] {
      var front := steps[..|steps| - 1];
      var mid := Run(w, front);
      WaitsWhileRefused(w, front, id);
      RunKeepsInv(w, front);
      if IsLive(mid, id) {
        NextTakesOff(mid, steps[|steps| - 1], id);
      } else {
        if id !in mid.done {
          StaysKnown(w, front, id);
        }
        assert id in Next(mid, steps[|steps| - 1]).done;
      }
    }
  }

  /** What has been in the log and is not done has never been taken off it. */
  lemma {:induction false} StaysKnown(w: World, steps: seq<Step>, id: nat)
    requires IsLive(w, id) && id !in Run(w, steps).done
    ensures IsLive(Run(w, steps), id)
  {
    if steps != [] {
      var mid := Run(w, steps[..|steps| - 1]);
      StaysKnown(w, steps[..|steps| - 1], id);
      LiveMembers(mid.log, mid.done, id);
    }
  }

  // ---- the cleaner

  /** The two worlds differ at most in which deleted records their logs still hold. */
  ghost predicate SameButDeleted(v: World, w: World) {
    v == w.(log := v.log) && Live(v.log, v.done) == Live(w.log, w.done)
  }

  lemma WriteIgnoresDeleted(v: World, w: World, url: string, op: Op, outcome: Outcome)
    requires SameButDeleted(v, w) && url in w.stores
    ensures SameButDeleted(Write(v, url, op, outcome), Write(w, url, op, outcome))
  {
    LiveOfAppend(v.log, |v.issued|, v.done);
    LiveOfAppend(w.log, |w.issued|, w.done);
  }

  lemma ReplayIgnoresDeleted(v: World, w: World, outcome: Outcome)
    requires SameButDeleted(v, w) && w.todo != [] && Known(w, w.todo[0])
    ensures SameButDeleted(Replay(v, outcome), Replay(w, outcome))
  {
    LiveShrinks(v.log, v.done, {w.todo[0]});
    LiveShrinks(w.log, w.done, {w.todo[0]});
  }

  lemma NextIgnoresDeleted(v: World, w: World, step: Step)
    requires SameButDeleted(v, w)
    ensures SameButDeleted(Next(v, step), Next(w, step))
  {
    match step
    case WriteOne(url, op, outcome) =>
      if url in w.stores {
        WriteIgnoresDeleted(v, w, url, op, outcome);
      }
    case Snapshot =>
    case ReplayOne(outcome) =>
      if w.todo != [] && Known(w, w.todo[0]) {
        ReplayIgnoresDeleted(v, w, outcome);
      }
    case Clean =>
      LiveTwice(v.log, v.done);
      LiveTwice(w.log, w.done);
  }

  lemma {:induction false} RunIgnoresDeleted(v: World, w: World, steps: seq<Step>)
    requires SameButDeleted(v, w)
    ensures SameButDeleted(Run(v, steps), Run(w, steps))
  {
    if steps != [] {
      RunIgnoresDeleted(v, w, steps[..|steps| - 1]);
      NextIgnoresDeleted(Run(v, steps[..|steps| - 1]), Run(w, steps[..|steps| - 1]), steps[|steps| - 1]);
    }
  }

  /** Running the cleaner once more, at any moment and even in the middle of a replay pass, changes
    * nothing but the deleted records left in the log: not a store, not a snapshot, not a fate. */
  lemma CleaningIsInvisible(w: World, steps: seq<Step>)
    ensures SameButDeleted(Run(Next(w, Clean), steps), Run(w, steps))
  {
    LiveTwice(w.log, w.done);
    RunIgnoresDeleted(Next(w, Clean), w, steps);
  }

  // ---- what the stores hold

  ghost predicate Below(ids: seq<nat>, n: nat) {
    forall i :: 0 <= i < |ids| ==> ids[i] < n
  }

  /** The writes of `ids` that went to `url`. */
  ghost function OpsAt(issued: seq<Issue>, url: string, ids: seq<nat>): seq<Op>
    requires Below(ids, |issued|)
  {
    if ids == [] then []
    else
      var last := ids[|ids| - 1];
      OpsAt(issued, url, ids[..|ids| - 1]) + if issued[last].url == url then [issued[last].op] else []
  }

  lemma {:induction false} OpsAtOlder(issued: seq<Issue>, more: seq<Issue>, url: string, ids: seq<nat>)
    requires Below(ids, |issued|)
    ensures OpsAt(issued + more, url, ids) == OpsAt(issued, url, ids)
  {
    if ids != [] {
      OpsAtOlder(issued, more, url, ids[..|ids| - 1]);
    }
  }

  lemma OpsAtMore(issued: seq<Issue>, url: string, ids: seq<nat>, id: nat)
    requires Below(ids, |issued|) && id < |issued|
    ensures OpsAt(issued, url, ids + [id])
         == if issued[id].url == url then OpsAt(issued, url, ids) + [issued[id].op] else OpsAt(issued, url, ids)
  {
    assert (ids + [id])[..|ids|] == ids;
    assert Below(ids + [id], |issued|);
  }

  /** What the writes counted as applied at the store make of it. */
  ghost function Counted(w: World, url: string, start: Contents): Contents
    requires Below(w.applied, |w.issued|)
  {
    Fold(start, OpsAt(w.issued, url, w.applied))
  }

  lemma CountedMore(w: World, w': World, url: string, start: Contents, id: nat)
    requires Below(w.applied, |w.issued|) && id < |w'.issued| && w'.applied == w.applied + [id]
    requires |w.issued| <= |w'.issued| && w'.issued[..|w.issued|] == w.issued
    ensures Below(w'.applied, |w'.issued|)
    ensures Counted(w', url, start)
         == if w'.issued[id].url == url then Apply(w'.issued[id].op, Counted(w, url, start)) else Counted(w, url, start)
  {
    assert w'.issued == w.issued + w'.issued[|w.issued|..];
    OpsAtOlder(w.issued, w'.issued[|w.issued|..], url, w.applied);
    OpsAtMore(w'.issued, url, w.applied, id);
    FoldAppend(start, OpsAt(w.issued, url, w.applied), w'.issued[id].op);
  }

  /** A write that reports an error has not happened. */
  predicate FailsCleanly(step: Step) {
    match step
    case WriteOne(_, _, Rejected(effect)) => effect == Untouched
    case ReplayOne(Rejected(effect)) => effect == Untouched
    case _ => true
  }

  ghost predicate Faithful(w: World, stores: map<string, Contents>) {
    && w.stores.Keys == stores.Keys
    && Below(w.applied, |w.issued|)
    && forall url :: url in stores ==> w.stores[url] == Counted(w, url, stores[url])
  }

  /** The write `id` takes effect at its store. */
  lemma TakeEffect(w: World, w': World, stores: map<string, Contents>, id: nat)
    requires Faithful(w, stores)
    requires id < |w'.issued| && w'.issued[id].url in w.stores
    requires |w.issued| <= |w'.issued| && w'.issued[..|w.issued|] == w.issued
    requires w'.applied == w.applied + [id]
    requires var Issue(url, op, _) := w'.issued[id];
             w'.stores == w.stores[url := Apply(op, w.stores[url])]
    ensures Faithful(w', stores)
  {
    var Issue(at, op, _) := w'.issued[id];
    forall url | url in stores
      ensures Below(w'.applied, |w'.issued|)
      ensures w'.stores[url] == Counted(w', url, stores[url])
    {
      CountedMore(w, w', url, stores[url], id);
      assert w.stores[url] == Counted(w, url, stores[url]);
      if url == at {
        assert w'.stores[url] == Apply(op, w.stores[url]);
      } else {
        assert w'.stores[url] == w.stores[url];
      }
    }
    assert w'.stores.Keys == stores.Keys;
    CountedMore(w, w', at, map[], id);
  }

  lemma NextKeepsFaithful(w: World, step: Step, stores: map<string, Contents>)
    requires Faithful(w, stores) && FailsCleanly(step)
    ensures Faithful(Next(w, step), stores)
  {
    var w' := Next(w, step);
    match step
    case WriteOne(url, op, outcome) =>
      if url in w.stores {
        assert w'.issued == w.issued + w'.issued[|w.issued|..];
        match outcome
        case Accepted =>
          TakeEffect(w, w', stores, |w.issued|);
        case Rejected(_) =>
          forall u | u in stores
            ensures w'.stores[u] == Counted(w', u, stores[u])
          {
            OpsAtOlder(w.issued, w'.issued[|w.issued|..], u, w.applied);
          }
      }
    case ReplayOne(outcome) =>
      if w' != w && outcome == Accepted {
        TakeEffect(w, w', stores, w.todo[0]);
      }
    case Snapshot =>
    case Clean =>
  }

  /** When a failed write leaves its store alone, each store holds exactly the writes the protocol
    * counts as applied there, in the order it counts them: nothing reached a store behind its back. */
  lemma {:induction false} StoresHoldWhatWasApplied(stores: map<string, Contents>, steps: seq<Step>)
    requires forall step :: step in steps ==> FailsCleanly(step)
    ensures Faithful(Run(Start(stores), steps), stores)
  {
    if steps != [] {
      var front := steps[..|steps| - 1];
      StoresHoldWhatWasApplied(stores, front);
      NextKeepsFaithful(Run(Start(stores), front), steps[|steps| - 1], stores);
    }
  }

  // ---- whatever a failed write leaves

  /** The store holds what was applied, wherever no record waits. */
  ghost predicate HoldsWhereClear(w: World, url: string, start: Contents) {
    && url in w.stores && Below(w.applied, |w.issued|)
    && forall key :: Clear(w, url, key) ==> Look(w.stores[url], key) == Look(Counted(w, url, start), key)
  }

  lemma AppliedIsBelow(w: World)
    requires Inv(w)
    ensures Below(w.applied, |w.issued|)
  {
    forall i | 0 <= i < |w.applied|
      ensures w.applied[i] < |w.issued|
    {
      assert w.applied[i] in w.applied;
    }
  }

  lemma WriteWhereClear(w: World, url: string, start: Contents, u: string, op: Op, outcome: Outcome, key: Key)
    requires Inv(w) && HoldsWhereClear(w, url, start) && u in w.stores
    requires Clear(Write(w, u, op, outcome), url, key)
    ensures Below(Write(w, u, op, outcome).applied, |Write(w, u, op, outcome).issued|)
    ensures Look(Write(w, u, op, outcome).stores[url], key) == Look(Counted(Write(w, u, op, outcome), url, start), key)
  {
    var w' := Write(w, u, op, outcome);
    forall id: nat | LiveOn(w, url, id)
      ensures KeyOf(w.issued[id].op) != key
    {
      assert LiveOn(w', url, id);
    }
    assert Clear(w, url, key);
    match outcome
    case Accepted =>
      CountedMore(w, w', url, start, |w.issued|);
      LookApply(op, w.stores[u], key);
      LookApply(op, Counted(w, url, start), key);
    case Rejected(effect) =>
      assert w'.issued[..|w.issued|] == w.issued;
      assert w'.issued == w.issued + [Issue(u, op, false)];
      OpsAtOlder(w.issued, [Issue(u, op, false)], url, w.applied);
      if u == url {
        assert LiveOn(w', url, |w.issued|);
        LookSmear(op, effect, w.stores[u], key);
      }
  }

  lemma ReplayWhereClear(w: World, url: string, start: Contents, outcome: Outcome, key: Key)
    requires Inv(w) && HoldsWhereClear(w, url, start) && w.todo != [] && Known(w, w.todo[0])
    requires Clear(Replay(w, outcome), url, key)
    ensures Below(Replay(w, outcome).applied, |w.issued|)
    ensures Look(Replay(w, outcome).stores[url], key) == Look(Counted(Replay(w, outcome), url, start), key)
  {
    var w', id := Replay(w, outcome), w.todo[0];
    var Issue(u, op, _) := w.issued[id];
    assert IsLive(w, id);
    match outcome
    case Accepted =>
      CountedMore(w, w', url, start, id);
      LookApply(op, w.stores[u], key);
      LookApply(op, Counted(w, url, start), key);
      if u != url || KeyOf(op) != key {
        forall j: nat | LiveOn(w, url, j)
          ensures KeyOf(w.issued[j].op) != key
        {
          assert j != id ==> LiveOn(w', url, j);
        }
        assert Clear(w, url, key);
      }
    case Rejected(effect) =>
      forall j: nat | LiveOn(w, url, j)
        ensures KeyOf(w.issued[j].op) != key
      {
        assert LiveOn(w', url, j);
      }
      assert Clear(w, url, key);
      if u == url {
        assert LiveOn(w, url, id);
        LookSmear(op, effect, w.stores[u], key);
      }
  }

  lemma NextHoldsWhereClear(w: World, step: Step, url: string, start: Contents)
    requires Inv(w) && HoldsWhereClear(w, url, start)
    ensures HoldsWhereClear(Next(w, step), url, start)
  {
    var w' := Next(w, step);
    NextKeepsInv(w, step);
    AppliedIsBelow(w');
    forall key | Clear(w', url, key)
      ensures Look(w'.stores[url], key) == Look(Counted(w', url, start), key)
    {
      match step
      case WriteOne(u, op, outcome) =>
        if u in w.stores {
          WriteWhereClear(w, url, start, u, op, outcome, key);
        }
      case ReplayOne(outcome) =>
        if w.todo != [] && Known(w, w.todo[0]) {
          ReplayWhereClear(w, url, start, outcome, key);
        }
      case Snapshot =>
        SameWaiting(w, w', url, key);
      case Clean =>
        forall id: nat { LiveMembers(w.log, w.done, id); }
        SameWaiting(w, w', url, key);
    }
  }

  lemma SameWaiting(w: World, w': World, url: string, key: Key)
    requires w'.issued == w.issued && forall id: nat :: IsLive(w', id) <==> IsLive(w, id)
    ensures Clear(w', url, key) <==> Clear(w, url, key)
  {
    forall id: nat
      ensures LiveOn(w', url, id) <==> LiveOn(w, url, id)
    {
    }
  }

  /** Whatever failed writes and replays leave at their keys, each store holds at every key that no record
    * waits for what the writes counted as applied there make of it: a failure shows at most until its
    * record is replayed. A store no record waits for holds exactly those writes. */
  lemma {:induction false} StoresHoldWhereNothingWaits(stores: map<string, Contents>, steps: seq<Step>, url: string)
    requires url in stores
    ensures var w := Run(Start(stores), steps);
            && HoldsWhereClear(w, url, stores[url])
            && (Drained(w, url) ==> w.stores[url] == Counted(w, url, stores[url]))
  {
    if steps != [] {
      var front := steps[..|steps| - 1];
      StoresHoldWhereNothingWaits(stores, front, url);
      RunKeepsInv(Start(stores), front);
      NextHoldsWhereClear(Run(Start(stores), front), steps[|steps| - 1], url, stores[url]);
    }
    var w := Run(Start(stores), steps);
    if Drained(w, url) {
      forall key
        ensures Look(w.stores[url], key) == Look(Counted(w, url, stores[url]), key)
      {
        assert Clear(w, url, key);
      }
      SameLooks(w.stores[url], Counted(w, url, stores[url]));
    }
  }
}

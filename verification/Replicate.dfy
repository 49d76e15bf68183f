/** storages/replicate.go: every write goes to every store, and what a store misses is logged.
  * The records are objects, shared between the log and the pass of the replay loop; the stores, which
  * nothing else refers to, are values that change as a write through the retry loop changes them. */
module ReplicateStore {
  import opened Wrappers
  import opened Models
  import opened StoreSpec
  import opened Protocol

  class Record {
    const storeUrl: string
    const op: Op              // action, data and incident
    var deleted: bool
    ghost const id: nat       // which write it stands for

    constructor (storeUrl: string, op: Op, ghost id: nat)
      ensures this.storeUrl == storeUrl && this.op == op && this.id == id && !deleted
    {
      this.storeUrl := storeUrl;
      this.op := op;
      this.id := id;
      deleted := false;
    }
  }

  ghost function Ids(records: seq<Record>): (ids: seq<nat>)
    ensures |ids| == |records|
    ensures forall i :: 0 <= i < |records| ==> ids[i] == records[i].id
  {
    seq(|records|, i requires 0 <= i < |records| => records[i].id)
  }

  class Replicate {
    var stores: map<string, Contents>
    var records: seq<Record>
    var todo: seq<Record>                 // what the replay loop has left of its pass
    ghost var world: World                // the same, and what has been issued and applied so far
    ghost var made: set<Record>           // every record ever made
    ghost var logged: map<nat, Record>    // the same, by the write each stands for

    ghost predicate Named(rs: seq<Record>)
      reads this
    {
      forall i :: 0 <= i < |rs| ==> rs[i].id in logged && logged[rs[i].id] == rs[i]
    }

    ghost predicate Shape()
      reads this, made
    {
      && Named(records) && Named(todo)
      && world.stores == stores
      && world.log == Ids(records)
      && world.todo == Ids(todo)
      && (forall id :: id in logged ==>
            && logged[id] in made && logged[id].id == id && id < |world.issued|
            && world.issued[id] == Issue(logged[id].storeUrl, logged[id].op, false))
      && (forall id :: id in world.done <==> id in logged && logged[id].deleted)
    }

    ghost predicate Valid()
      reads this, made
    {
      Shape() && Reached(world)
    }

    constructor (stores: map<string, Contents>)
      ensures this.stores == stores && Valid() && made == {} && world == Start(stores)
    {
      this.stores := stores;
      records := [];
      todo := [];
      world := Start(stores);
      logged := map[];
      made := {};
      StartIsReached(stores);
    }

    method AddRecord(storeUrl: string, op: Op)
      requires Named(records) && Named(todo) && |world.issued| !in logged
      modifies this`records, this`logged, this`made
      ensures Named(records) && Named(todo)
      ensures Ids(records) == old(Ids(records)) + [|world.issued|]
      ensures fresh(made - old(made))
      ensures exists record: Record :: record in made && fresh(record) && !record.deleted && record.id == |world.issued|
                && record.storeUrl == storeUrl && record.op == op && logged == old(logged)[|world.issued| := record]
                && made == old(made) + {record}
    {
      var record := new Record(storeUrl, op, |world.issued|);
      logged := logged[|world.issued| := record];
      made := made + {record};
      records := records + [record];
    }

    /** The body of the loops of Create, Update, Delete, Subscribe and Unsubscribe. How the store's retry
      * loop ends is decided by the store. */
    method WriteOne(url: string, op: Op, outcome: Outcome) returns (ret: Op, taken: bool)
      requires Shape() && url in stores
      modifies this`stores, this`records, this`world, this`logged, this`made
      ensures Shape() && fresh(made - old(made))
      ensures ret == op && (taken <==> outcome == Accepted)
      ensures stores == old(stores)[url := Land(op, outcome, old(stores)[url])]
      ensures world == Next(old(world), Protocol.WriteOne(url, op, outcome))
    {
      ret, taken := op, outcome == Accepted;
      Settle(url, ret, taken, Land(op, outcome, stores[url]), outcome);
    }

    /** What follows an answer of the store at `url`: an error is logged with what the store gave back. */
    method Settle(url: string, ret: Op, taken: bool, contents: Contents, ghost outcome: Outcome)
      requires Shape() && url in stores
      requires contents == Land(ret, outcome, stores[url]) && (taken <==> outcome == Accepted)
      modifies this`stores, this`records, this`world, this`logged, this`made
      ensures Shape() && fresh(made - old(made))
      ensures stores == old(stores)[url := contents]
      ensures world == Next(old(world), Protocol.WriteOne(url, ret, outcome))
    {
      stores := stores[url := contents];
      if !taken {
        AddRecord(url, ret);
      }
      world := Next(world, Protocol.WriteOne(url, ret, outcome));
    }

    /** The stores in some order, each once: a walk through a Go map. */
    ghost predicate Walk(order: seq<string>)
      reads this
    {
      && (forall i :: 0 <= i < |order| ==> order[i] in stores)
      && (forall i, j :: 0 <= i < j < |order| ==> order[i] != order[j])
      && (forall url :: url in stores ==> url in order)
    }

    /** Create, Update, Delete, Subscribe and Unsubscribe. The write threaded through the loop stays the
      * caller's, so every store and every record gets that one. What becomes of a store depends on that
      * store alone, never on the order of the walk, and the caller gets an error exactly when there are
      * stores and none takes the write. */
    method Write(op: Op, order: seq<string>, outcomes: string -> Outcome)
      returns (ret: Op, failed: bool, ghost steps: seq<Step>)
      requires Valid() && Walk(order)
      modifies this`stores, this`records, this`world, this`logged, this`made
      ensures Valid()
      ensures ret == op
      ensures stores == map url | url in old(stores) :: Land(op, outcomes(url), old(stores)[url])
      ensures steps == StepsOf(order, op, outcomes) && world == Run(old(world), steps)
      ensures failed <==> old(stores) != map[] && forall url :: url in old(stores) ==> outcomes(url) != Accepted
    {
      ghost var before := world;
      StepsWrite(before, order, op, outcomes);
      ret, failed, steps := WalkStores(op, order, outcomes);
      RunIsReached(before, steps);
    }

    method WalkStores(op: Op, order: seq<string>, outcomes: string -> Outcome)
      returns (ret: Op, failed: bool, ghost steps: seq<Step>)
      requires Shape() && Walk(order)
      modifies this`stores, this`records, this`world, this`logged, this`made
      ensures Shape()
      ensures ret == op
      ensures steps == StepsOf(order, op, outcomes) && world == Run(old(world), steps)
      ensures failed <==> order != [] && NoneTakes(order, outcomes)
    {
      ghost var before := world;
      ret := op;
      failed := false;
      var allInError := true;
      assert StepsOf(order[..0], op, outcomes) == [];
      for i := 0 to |order|
        invariant Shape()
        invariant ret == op
        invariant forall url :: url in order ==> url in stores
        invariant world == Run(before, StepsOf(order[..i], op, outcomes))
        invariant allInError <==> NoneTakes(order[..i], outcomes)
        invariant failed ==> i > 0
        invariant i > 0 && allInError ==> failed
      {
        OneMoreWrite(before, order, i, op, outcomes);
        var taken;
        ret, taken := WriteOne(order[i], ret, outcomes(order[i]));
        failed := !taken;
        if taken {
          allInError := false;
        }
      }
      assert order[..|order|] == order;
      steps := StepsOf(order, op, outcomes);
      if !allInError {
        failed := false;
      }
    }

    /** The records not marked deleted, which both background loops collect under the lock. */
    method Pending() returns (pending: seq<Record>)
      requires Shape()
      ensures Named(pending) && Ids(pending) == Live(world.log, world.done)
      ensures forall r :: r in pending <==> r in records && !r.deleted
    {
      pending := [];
      for i := 0 to |records|
        invariant Named(pending) && Ids(pending) == Live(Ids(records[..i]), world.done)
        invariant forall r :: r in pending <==> r in records[..i] && !r.deleted
      {
        assert records[..i + 1] == records[..i] + [records[i]];
        assert Ids(records[..i + 1]) == Ids(records[..i]) + [records[i].id];
        LiveOfAppend(Ids(records[..i]), records[i].id, world.done);
        if records[i].deleted {
          continue;
        }
        assert Ids(pending + [records[i]]) == Ids(pending) + [records[i].id];
        pending := pending + [records[i]];
      }
      assert records[..|records|] == records;
    }

    /** One run of the cleaner. */
    method Clean()
      requires Valid()
      modifies this`records, this`world
      ensures Valid() && world == Next(old(world), Protocol.Clean)
      ensures forall r :: r in records <==> r in old(records) && !r.deleted
    {
      ghost var before := world;
      DropDeleted();
      NextIsReached(before, Protocol.Clean);
    }

    method DropDeleted()
      requires Shape()
      modifies this`records, this`world
      ensures Shape() && world == Next(old(world), Protocol.Clean)
      ensures forall r :: r in records <==> r in old(records) && !r.deleted
    {
      records := Pending();
      world := Next(world, Protocol.Clean);
    }

    /** The start of a replay pass. */
    method Snapshot()
      requires Valid() && todo == []
      modifies this`todo, this`world
      ensures Valid() && world == Next(old(world), Protocol.Snapshot)
      ensures forall r :: r in todo <==> r in records && !r.deleted
    {
      ghost var before := world;
      todo := Pending();
      world := Next(world, Protocol.Snapshot);
      NextIsReached(before, Protocol.Snapshot);
    }

    /** One turn of the replay loop. A record whose write fails again is passed over. */
    method ReplayOne(outcome: Outcome)
      requires Valid() && todo != []
      modifies this`stores, this`todo, this`world, todo[0]
      ensures Valid() && world == Next(old(world), Protocol.ReplayOne(outcome))
      ensures todo == old(todo)[1..]
      ensures outcome == Accepted ==> old(todo)[0].deleted
      ensures outcome != Accepted ==> old(todo)[0].deleted == old(todo[0].deleted)
    {
      ghost var before := world;
      ReachedKeepsInv(before);
      NextIsReached(before, Protocol.ReplayOne(outcome));
      PlayRecord(outcome);
    }

    method PlayRecord(outcome: Outcome)
      requires Shape() && todo != [] && Known(world, world.todo[0])
      modifies this`stores, this`todo, this`world, todo[0]
      ensures Shape() && world == Replay(old(world), outcome)
      ensures todo == old(todo)[1..]
      ensures outcome == Accepted ==> old(todo)[0].deleted
      ensures outcome != Accepted ==> old(todo)[0].deleted == old(todo[0].deleted)
    {
      var record := todo[0];
      stores := stores[record.storeUrl := Land(record.op, outcome, stores[record.storeUrl])];
      todo := todo[1..];
      if outcome == Accepted {
        record.deleted := true;
      }
      world := Replay(world, outcome);
    }

    /** One whole pass with nothing in between: it ends, and each record of the snapshot is tried once. */
    method Pass(outcomes: seq<Outcome>)
      requires Valid() && todo == []
      requires |outcomes| == |Live(world.log, world.done)|
      modifies this`stores, this`todo, this`world, made
      ensures Valid() && todo == [] && world == Run(old(world), PassSteps(outcomes))
    {
      ghost var before := world;
      Snapshot();
      assert [Protocol.Snapshot][..0] == [] && Run(before, []) == before;
      for i := 0 to |outcomes|
        invariant Valid() && |todo| == |outcomes| - i
        invariant world == Run(before, PassSteps(outcomes[..i]))
      {
        OneMoreReplay(before, outcomes, i);
        assert todo[0] in made;
        ReplayOne(outcomes[i]);
      }
      assert outcomes[..|outcomes|] == outcomes;
    }

    /** What the store answers when it is up. */
    ghost function HeldAt(url: string, up: set<string>, guid: string): Option<Incident>
      reads this
    {
      if url in up && url in stores && Guid(guid) in stores[url] && stores[url][Guid(guid)].Stored? then
        Some(stores[url][Guid(guid)].incident)
      else None
    }

    /** Read: the first store, in the order they are tried, that answers. */
    method Read(guid: string, order: seq<string>, up: set<string>) returns (found: Option<Incident>)
      requires Shape()
      ensures found == ReadFirst(world, order, up, guid)
      ensures found.Some? ==> exists i ::
        && 0 <= i < |order| && HeldAt(order[i], up, guid) == found
        && forall j :: 0 <= j < i ==> HeldAt(order[j], up, guid) == None
      ensures found.None? ==> forall i :: 0 <= i < |order| ==> HeldAt(order[i], up, guid) == None
    {
      for i := 0 to |order|
        invariant ReadFirst(world, order, up, guid) == ReadFirst(world, order[i..], up, guid)
        invariant forall j :: 0 <= j < i ==> HeldAt(order[j], up, guid) == None
      {
        if order[i] in up && order[i] in stores {
          var held := Look(stores[order[i]], Guid(guid));
          if held.Some? && held.value.Stored? {
            return Some(held.value.incident);
          }
        }
      }
      return None;
    }
  }

  /** The stores of the walk so far have seen the write, the others have not. */
  ghost function WrittenTo(stores: map<string, Contents>, order: seq<string>, op: Op,
                           outcomes: string -> Outcome): map<string, Contents>
  {
    map url | url in stores :: if url in order then Land(op, outcomes(url), stores[url]) else stores[url]
  }

  ghost function PassSteps(outcomes: seq<Outcome>): seq<Step> {
    if outcomes == [] then [Protocol.Snapshot]
    else PassSteps(outcomes[..|outcomes| - 1]) + [Protocol.ReplayOne(outcomes[|outcomes| - 1])]
  }

  lemma OneMoreReplay(w: World, outcomes: seq<Outcome>, i: nat)
    requires i < |outcomes|
    ensures Run(w, PassSteps(outcomes[..i + 1]))
         == Next(Run(w, PassSteps(outcomes[..i])), Protocol.ReplayOne(outcomes[i]))
  {
    assert outcomes[..i + 1][..i] == outcomes[..i];
    RunAppend(w, PassSteps(outcomes[..i]), Protocol.ReplayOne(outcomes[i]));
  }

  lemma OneMoreWrite(w: World, order: seq<string>, i: nat, op: Op, outcomes: string -> Outcome)
    requires i < |order|
    ensures Run(w, StepsOf(order[..i + 1], op, outcomes))
         == Next(Run(w, StepsOf(order[..i], op, outcomes)), Protocol.WriteOne(order[i], op, outcomes(order[i])))
    ensures NoneTakes(order[..i + 1], outcomes) <==> NoneTakes(order[..i], outcomes) && outcomes(order[i]) != Accepted
  {
    assert order[..i + 1] == order[..i] + [order[i]];
    assert order[..i + 1][..i] == order[..i];
    RunAppend(w, StepsOf(order[..i], op, outcomes), Protocol.WriteOne(order[i], op, outcomes(order[i])));
  }

  /** A walk reaches each of its stores once, and what it leaves there depends on that store alone. */
  lemma {:induction false} StepsWrite(w: World, order: seq<string>, op: Op, outcomes: string -> Outcome)
    requires forall j :: 0 <= j < |order| ==> order[j] in w.stores
    requires forall j, k :: 0 <= j < k < |order| ==> order[j] != order[k]
    ensures Run(w, StepsOf(order, op, outcomes)).stores == WrittenTo(w.stores, order, op, outcomes)
  {
    if order != [] {
      var front, url := order[..|order| - 1], order[|order| - 1];
      StepsWrite(w, front, op, outcomes);
      OneMoreWrite(w, order, |order| - 1, op, outcomes);
      assert order[..|order|] == order;
      OneMoreWritten(w.stores, order, op, outcomes);
      StoresAfterWrite(Run(w, StepsOf(front, op, outcomes)), url, op, outcomes(url));
    } else {
      assert StepsOf([], op, outcomes) == [];
    }
  }

  lemma OneMoreWritten(stores: map<string, Contents>, order: seq<string>, op: Op, outcomes: string -> Outcome)
    requires order != []
    requires forall j :: 0 <= j < |order| ==> order[j] in stores
    requires forall j, k :: 0 <= j < k < |order| ==> order[j] != order[k]
    ensures var front, url := order[..|order| - 1], order[|order| - 1];
            var before := WrittenTo(stores, front, op, outcomes);
            && url in before && before[url] == stores[url]
            && WrittenTo(stores, order, op, outcomes) == before[url := Land(op, outcomes(url), stores[url])]
  {
    var front, url := order[..|order| - 1], order[|order| - 1];
    assert order == front + [url];
    assert url !in front;
  }

  lemma StoresAfterWrite(w: World, url: string, op: Op, outcome: Outcome)
    requires url in w.stores
    ensures Next(w, Protocol.WriteOne(url, op, outcome)).stores == w.stores[url := Land(op, outcome, w.stores[url])]
  {
  }

  /** No store of the walk takes the write. */
  ghost predicate NoneTakes(order: seq<string>, outcomes: string -> Outcome) {
    forall url :: url in order ==> outcomes(url) != Accepted
  }

  /** Some run of the protocol leads here. */
  ghost predicate Reached(w: World) {
    exists stores, steps :: w == Run(Start(stores), steps)
  }

  lemma StartIsReached(stores: map<string, Contents>)
    ensures Reached(Start(stores))
  {
    assert Run(Start(stores), []) == Start(stores);
  }

  lemma NextIsReached(w: World, step: Step)
    requires Reached(w)
    ensures Reached(Next(w, step))
  {
    var stores, steps :| w == Run(Start(stores), steps);
    assert (steps + [step])[..|steps|] == steps;
    assert Run(Start(stores), steps + [step]) == Next(w, step);
  }

  lemma {:induction false} RunIsReached(w: World, steps: seq<Step>)
    requires Reached(w)
    ensures Reached(Run(w, steps))
  {
    if steps != [] {
      RunIsReached(w, steps[..|steps| - 1]);
      NextIsReached(Run(w, steps[..|steps| - 1]), steps[|steps| - 1]);
    }
  }

  lemma ReachedKeepsInv(w: World)
    requires Reached(w)
    ensures Inv(w)
    ensures w.todo != [] ==> Known(w, w.todo[0])
  {
    var stores, steps :| w == Run(Start(stores), steps);
    RunKeepsInv(Start(stores), steps);
    if w.todo != [] {
      assert w.todo[0] in w.todo && IsLive(w, w.todo[0]);
    }
  }
}

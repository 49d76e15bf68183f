/** The replication log as a step machine. One step is one write to one store, the start of a
  * replay pass, the replay of one record, or one run of the cleaner; the goroutines interleave
  * these steps in any order. A record is named by the position of its write in `issued`. */
module Protocol {
  import opened Wrappers
  import opened StoreSpec
  import opened Models

  /** One write handed to one store. `direct` says that the store took it at once. */
  datatype Issue = Issue(url: string, op: Op, direct: bool)

  datatype World = World(
    stores: map<string, Contents>,
    issued: seq<Issue>,   // every write handed to a store, in order
    log: seq<nat>,        // the records slice
    done: set<nat>,       // the records whose deleted flag is set
    todo: seq<nat>,       // what is left of the replay pass under way
    applied: seq<nat>)    // the writes that took effect, in the order they did

  datatype Step =
    | WriteOne(url: string, op: Op, outcome: Outcome)
    | Snapshot
    | ReplayOne(outcome: Outcome)
    | Clean

  /** The records of `log` whose deleted flag is not set, in order. */
  function Live(log: seq<nat>, done: set<nat>): seq<nat> {
    if log == [] then []
    else
      var last := log[|log| - 1];
      Live(log[..|log| - 1], done) + if last in done then [] else [last]
  }

  predicate Known(w: World, id: nat) {
    id < |w.issued| && w.issued[id].url in w.stores
  }

  /** A step that is not possible in `w` leaves it alone. */
  function Next(w: World, step: Step): World {
    match step
    case WriteOne(url, op, outcome) =>
      if url in w.stores then Write(w, url, op, outcome) else w
    case Snapshot =>
      if w.todo == [] then w.(todo := Live(w.log, w.done)) else w
    case ReplayOne(outcome) =>
      if w.todo != [] && Known(w, w.todo[0]) then Replay(w, outcome) else w
    case Clean =>
      w.(log := Live(w.log, w.done))
  }

  function Write(w: World, url: string, op: Op, outcome: Outcome): World
    requires url in w.stores
  {
    match outcome
    case Accepted =>
      w.(stores := w.stores[url := Apply(op, w.stores[url])],
         issued := w.issued + [Issue(url, op, true)],
         applied := w.applied + [|w.issued|])
    case Rejected(effect) =>
      w.(stores := w.stores[url := Smear(op, effect, w.stores[url])],
         issued := w.issued + [Issue(url, op, false)],
         log := w.log + [|w.issued|])
  }

  function Replay(w: World, outcome: Outcome): World
    requires w.todo != [] && Known(w, w.todo[0])
  {
    var id := w.todo[0];
    var Issue(url, op, _) := w.issued[id];
    match outcome
    case Accepted =>
      w.(stores := w.stores[url := Apply(op, w.stores[url])],
         done := w.done + {id},
         todo := w.todo[1..],
         applied := w.applied + [id])
    case Rejected(effect) =>
      w.(stores := w.stores[url := Smear(op, effect, w.stores[url])],
         todo := w.todo[1..])
  }

  function Run(w: World, steps: seq<Step>): World {
    if steps == [] then w
    else Next(Run(w, steps[..|steps| - 1]), steps[|steps| - 1])
  }

  function Start(stores: map<string, Contents>): World {
    World(stores, [], [], {}, [], [])
  }

  /** Replicate's Read: the first store, in the order they are tried, that answers. */
  function ReadFirst(w: World, order: seq<string>, up: set<string>, guid: string): Option<Incident> {
    if order == [] then None
    else if order[0] in up && order[0] in w.stores then
      match Look(w.stores[order[0]], Guid(guid))
      case Some(Stored(incident)) => Some(incident)
      case _ => ReadFirst(w, order[1..], up, guid)
    else ReadFirst(w, order[1..], up, guid)
  }

  lemma RunAppend(w: World, steps: seq<Step>, step: Step)
    ensures Run(w, steps + [step]) == Next(Run(w, steps), step)
  {
    assert (steps + [step])[..|steps|] == steps;
  }

  /** A run in two parts. */
  lemma {:induction false} RunConcat(w: World, steps: seq<Step>, more: seq<Step>)
    ensures Run(w, steps + more) == Run(Run(w, steps), more)
  {
    if more != [] {
      var front := more[..|more| - 1];
      assert steps + more == steps + front + [more[|more| - 1]];
      RunAppend(w, steps + front, more[|more| - 1]);
      RunConcat(w, steps, front);
    } else {
      assert steps + more == steps;
    }
  }

  /** One write to each of these stores, in this order, with the outcome each of them decides. */
  ghost function StepsOf(order: seq<string>, op: Op, outcomes: string -> Outcome): seq<Step> {
    if order == [] then []
    else
      var last := order[|order| - 1];
      StepsOf(order[..|order| - 1], op, outcomes) + [WriteOne(last, op, outcomes(last))]
  }

  // ---- the invariant of every reachable world

  ghost predicate Increasing(ids: seq<nat>) {
    forall i, j :: 0 <= i < j < |ids| ==> ids[i] < ids[j]
  }

  ghost predicate Distinct(ids: seq<nat>) {
    forall i, j :: 0 <= i < j < |ids| ==> ids[i] != ids[j]
  }

  ghost predicate IsLive(w: World, id: nat) {
    id in w.log && id !in w.done
  }

  /** Who may be where. */
  ghost predicate Placed(w: World) {
    && (forall id :: id in w.log ==> Known(w, id) && !w.issued[id].direct)
    && (forall id :: id in w.todo ==> IsLive(w, id))
    && (forall id :: id in w.done ==> id in w.applied)
    && (forall id :: id in w.applied ==> Known(w, id))
  }

  /** What happened to every write issued so far. */
  ghost predicate Settled(w: World) {
    forall id: nat :: id < |w.issued| ==>
      && w.issued[id].url in w.stores
      && (w.issued[id].direct ==> id in w.applied && id !in w.log && id !in w.done)
      && (!w.issued[id].direct ==> (id in w.applied <==> id in w.done))
      && (!w.issued[id].direct ==> id in w.done || id in w.log)
  }

  ghost predicate Inv(w: World) {
    && Increasing(w.log)
    && Increasing(w.todo)
    && Distinct(w.applied)
    && Placed(w)
    && Settled(w)
  }

  lemma {:induction false} LiveMembers(log: seq<nat>, done: set<nat>, id: nat)
    ensures id in Live(log, done) <==> id in log && id !in done
  {
    if log != [] {
      LiveMembers(log[..|log| - 1], done, id);
      assert log == log[..|log| - 1] + [log[|log| - 1]];
    }
  }

  lemma AppendIncreasing(ids: seq<nat>, last: nat)
    requires Increasing(ids)
    requires forall id :: id in ids ==> id < last
    ensures Increasing(ids + [last])
  {
    forall i, j | 0 <= i < j < |ids + [last]|
      ensures (ids + [last])[i] < (ids + [last])[j]
    {
      assert (ids + [last])[i] == ids[i] && ids[i] in ids;
    }
  }

  lemma {:induction false} LiveIncreasing(log: seq<nat>, done: set<nat>)
    requires Increasing(log)
    ensures Increasing(Live(log, done))
  {
    if log != [] {
      var front := log[..|log| - 1];
      LiveIncreasing(front, done);
      var last := log[|log| - 1];
      forall id | id in Live(front, done)
        ensures id < last
      {
        LiveMembers(front, done, id);
      }
      if last !in done {
        AppendIncreasing(Live(front, done), last);
      }
    }
  }

  lemma LiveOfAppend(log: seq<nat>, id: nat, done: set<nat>)
    ensures Live(log + [id], done) == Live(log, done) + if id in done then [] else [id]
  {
    assert (log + [id])[..|log|] == log;
  }

  /** Dropping the records marked deleted, and later those marked since, is dropping them all at once. */
  lemma {:induction false} LiveShrinks(log: seq<nat>, done: set<nat>, more: set<nat>)
    ensures Live(Live(log, done), done + more) == Live(log, done + more)
  {
    if log != [] {
      var front, last := log[..|log| - 1], log[|log| - 1];
      LiveShrinks(front, done, more);
      assert log == front + [last];
      LiveOfAppend(front, last, done);
      LiveOfAppend(front, last, done + more);
      if last !in done {
        LiveOfAppend(Live(front, done), last, done + more);
      } else {
        assert Live(log, done) == Live(front, done);
      }
    }
  }

  lemma LiveTwice(log: seq<nat>, done: set<nat>)
    ensures Live(Live(log, done), done) == Live(log, done)
  {
    LiveShrinks(log, done, {});
    assert done + {} == done;
  }

  lemma WriteKeepsInv(w: World, url: string, op: Op, outcome: Outcome)
    requires Inv(w) && url in w.stores
    ensures Inv(Write(w, url, op, outcome))
  {
    var id := |w.issued|;
    assert id !in w.log && id !in w.done && id !in w.applied;
    if outcome.Rejected? {
      AppendIncreasing(w.log, id);
    }
  }

  lemma ReplayKeepsInv(w: World, outcome: Outcome)
    requires Inv(w) && w.todo != []
    ensures Known(w, w.todo[0]) && Inv(Replay(w, outcome))
  {
    var id := w.todo[0];
    assert IsLive(w, id) && id !in w.applied;
    var w' := Replay(w, outcome);
    forall x | x in w'.todo
      ensures IsLive(w', x)
    {
      assert x in w.todo && x != id;
    }
  }

  lemma NextKeepsInv(w: World, step: Step)
    requires Inv(w)
    ensures Inv(Next(w, step))
  {
    match step
    case WriteOne(url, op, outcome) =>
      if url in w.stores {
        WriteKeepsInv(w, url, op, outcome);
      }
    case Snapshot =>
      LiveIncreasing(w.log, w.done);
      forall id: nat { LiveMembers(w.log, w.done, id); }
    case ReplayOne(outcome) =>
      if w.todo != [] {
        ReplayKeepsInv(w, outcome);
      }
    case Clean =>
      LiveIncreasing(w.log, w.done);
      forall id: nat { LiveMembers(w.log, w.done, id); }
  }

  lemma {:induction false} RunKeepsInv(w: World, steps: seq<Step>)
    requires Inv(w)
    ensures Inv(Run(w, steps))
  {
    if steps != [] {
      RunKeepsInv(w, steps[..|steps| - 1]);
      NextKeepsInv(Run(w, steps[..|steps| - 1]), steps[|steps| - 1]);
    }
  }
}

/** When a store that missed writes ends up equal to one that was never down. */
module Convergence {
  import opened StoreSpec
  import opened Protocol
  import opened Ideals

  /** The store is right wherever nothing waits for it. */
  ghost predicate RightWhereClear(w: World, url: string, start: Contents)
    requires url in w.stores
  {
    forall key :: Clear(w, url, key) ==> AgreesAt(w, url, start, key)
  }

  lemma DrainedIsIdeal(w: World, url: string, start: Contents)
    requires url in w.stores && Drained(w, url) && RightWhereClear(w, url, start)
    ensures w.stores[url] == Ideal(w, url, start)
  {
    forall key
      ensures Look(w.stores[url], key) == Look(Ideal(w, url, start), key)
    {
      assert Clear(w, url, key);
      assert AgreesAt(w, url, start, key);
    }
    SameLooks(w.stores[url], Ideal(w, url, start));
  }

  // ---- what one step does to what is known about `url`

  /** A write to another store, the start of a pass, or the cleaner. */
  predicate Elsewhere(w: World, step: Step, url: string) {
    match step
    case WriteOne(u, _, _) => u != url
    case ReplayOne(_) => !HeadAt(w, url)
    case _ => true
  }

  lemma ElsewhereKeepsLive(w: World, step: Step, url: string)
    requires Inv(w) && url in w.stores && Elsewhere(w, step, url)
    ensures forall id: nat :: LiveOn(Next(w, step), url, id) <==> LiveOn(w, url, id)
  {
    if step.Clean? {
      forall id: nat { LiveMembers(w.log, w.done, id); }
    }
  }

  lemma ElsewhereKeepsIdeal(w: World, step: Step, url: string, start: Contents)
    requires Inv(w) && url in w.stores && Elsewhere(w, step, url)
    ensures url in Next(w, step).stores && Next(w, step).stores[url] == w.stores[url]
    ensures Ideal(Next(w, step), url, start) == Ideal(w, url, start)
    ensures |w.issued| <= |Next(w, step).issued|
    ensures forall id: nat :: id < |w.issued| ==> Next(w, step).issued[id] == w.issued[id]
    ensures forall id: nat :: |w.issued| <= id < |Next(w, step).issued| ==> Next(w, step).issued[id].url != url
  {
    if step.WriteOne? && step.url in w.stores {
      IdealAppend(w, Next(w, step), url, start, Issue(step.url, step.op, step.outcome.Accepted?));
    }
  }

  lemma ElsewhereKeepsRight(w: World, step: Step, url: string, start: Contents)
    requires Inv(w) && url in w.stores && RightWhereClear(w, url, start) && Elsewhere(w, step, url)
    ensures url in Next(w, step).stores && RightWhereClear(Next(w, step), url, start)
    ensures forall id: nat :: LiveOn(Next(w, step), url, id) <==> LiveOn(w, url, id)
    ensures |w.issued| <= |Next(w, step).issued|
    ensures forall id: nat :: id < |w.issued| ==> Next(w, step).issued[id] == w.issued[id]
    ensures forall id: nat :: |w.issued| <= id < |Next(w, step).issued| ==> Next(w, step).issued[id].url != url
    ensures Next(w, step).stores[url] == w.stores[url]
    ensures Ideal(Next(w, step), url, start) == Ideal(w, url, start)
  {
    var w' := Next(w, step);
    ElsewhereKeepsLive(w, step, url);
    ElsewhereKeepsIdeal(w, step, url, start);
    forall key | Clear(w', url, key)
      ensures AgreesAt(w', url, start, key)
    {
      forall id: nat | LiveOn(w, url, id)
        ensures KeyOf(w.issued[id].op) != key
      {
        assert LiveOn(w', url, id);
      }
      assert Clear(w, url, key);
    }
  }

  /** A write that `url` refuses: it may only damage the key it now owes a record for. */
  lemma RefusalKeepsRight(w: World, url: string, op: Op, effect: Effect, start: Contents)
    requires Inv(w) && url in w.stores && RightWhereClear(w, url, start)
    ensures var w' := Write(w, url, op, Rejected(effect));
            && RightWhereClear(w', url, start)
            && forall id: nat :: LiveOn(w', url, id) <==> LiveOn(w, url, id) || id == |w.issued|
  {
    var w' := Write(w, url, op, Rejected(effect));
    assert |w.issued| !in w.done;
    IdealAppend(w, w', url, start, Issue(url, op, false));
    assert forall id: nat :: LiveOn(w', url, id) <==> LiveOn(w, url, id) || id == |w.issued|;
    forall key | Clear(w', url, key)
      ensures AgreesAt(w', url, start, key)
    {
      assert LiveOn(w', url, |w.issued|) && key != KeyOf(op);
      assert Clear(w, url, key) && AgreesAt(w, url, start, key);
      LookSmear(op, effect, w.stores[url], key);
      LookApply(op, Ideal(w, url, start), key);
    }
  }

  /** A replay that `url` refuses leaves its record, and the damage stays under that record. */
  lemma FailedReplayKeepsRight(w: World, url: string, effect: Effect, start: Contents)
    requires Inv(w) && url in w.stores && RightWhereClear(w, url, start)
    requires HeadAt(w, url)
    ensures var w' := Replay(w, Rejected(effect));
            && RightWhereClear(w', url, start)
            && forall id: nat :: LiveOn(w', url, id) <==> LiveOn(w, url, id)
  {
    var w' := Replay(w, Rejected(effect));
    assert forall id: nat :: LiveOn(w', url, id) <==> LiveOn(w, url, id);
    var op := w.issued[w.todo[0]].op;
    forall key | Clear(w', url, key)
      ensures AgreesAt(w', url, start, key)
    {
      assert LiveOn(w', url, w.todo[0]) && key != KeyOf(op);
      assert Clear(w, url, key) && AgreesAt(w, url, start, key);
      LookSmear(op, effect, w.stores[url], key);
    }
  }

  /** A successful replay repairs its key, provided the record was the newest write there or newer
    * records for the key still wait. */
  lemma ReplayKeepsRight(w: World, url: string, start: Contents)
    requires Inv(w) && url in w.stores && RightWhereClear(w, url, start)
    requires HeadAt(w, url)
    requires var key := KeyOf(w.issued[w.todo[0]].op);
             forall j: nat :: w.todo[0] < j && At(w.issued, url, key, j) ==> LiveOn(w, url, j)
    ensures var w' := Replay(w, Accepted);
            && RightWhereClear(w', url, start)
            && forall id: nat :: LiveOn(w', url, id) <==> LiveOn(w, url, id) && id != w.todo[0]
  {
    var w' := Replay(w, Accepted);
    var r := w.todo[0];
    var op := w.issued[r].op;
    assert forall id: nat :: LiveOn(w', url, id) <==> LiveOn(w, url, id) && id != r;
    forall key | Clear(w', url, key)
      ensures AgreesAt(w', url, start, key)
    {
      LookApply(op, w.stores[url], key);
      if key == KeyOf(op) {
        forall j: nat | r < j < |w.issued|
          ensures !At(w.issued, url, key, j)
        {
          assert LiveOn(w', url, j) ==> KeyOf(w'.issued[j].op) != key;
        }
        assert IsLastAt(w.issued, url, key, r);
        IdealAtLast(w, url, start, key, r);
      } else {
        assert Clear(w, url, key) && AgreesAt(w, url, start, key);
      }
    }
  }

  // ---- an outage followed by one good replay pass

  /** Every attempt at `url` fails. */
  predicate Misses(w: World, step: Step, url: string) {
    match step
    case WriteOne(u, _, outcome) => u == url ==> outcome.Rejected?
    case ReplayOne(outcome) => HeadAt(w, url) ==> outcome.Rejected?
    case _ => true
  }

  /** Every replay at `url` succeeds and nothing new is written there. */
  predicate CatchesUp(w: World, step: Step, url: string) {
    match step
    case WriteOne(u, _, _) => u != url
    case ReplayOne(outcome) => HeadAt(w, url) ==> outcome == Accepted
    case _ => true
  }

  predicate AllMiss(w: World, steps: seq<Step>, url: string) {
    steps != [] ==>
      AllMiss(w, steps[..|steps| - 1], url) && Misses(Run(w, steps[..|steps| - 1]), steps[|steps| - 1], url)
  }

  predicate AllCatchUp(w: World, steps: seq<Step>, url: string) {
    steps != [] ==>
      AllCatchUp(w, steps[..|steps| - 1], url) && CatchesUp(Run(w, steps[..|steps| - 1]), steps[|steps| - 1], url)
  }

  /** While `url` is down, what it owes is exactly what was issued since write `since`. */
  ghost predicate Down(w: World, url: string, start: Contents, since: nat) {
    && Inv(w) && url in w.stores
    && RightWhereClear(w, url, start)
    && since <= |w.issued|
    && forall id: nat :: id < |w.issued| && w.issued[id].url == url ==> (LiveOn(w, url, id) <==> since <= id)
  }

  /** While `url` catches up, the pass holds all it owes, newest write last. */
  ghost predicate CatchingUp(w: World, url: string, start: Contents) {
    && Inv(w) && url in w.stores
    && RightWhereClear(w, url, start)
    && (forall id: nat :: LiveOn(w, url, id) ==> id in w.todo)
    && (forall id: nat, j: nat :: LiveOn(w, url, id) && id < j < |w.issued| && w.issued[j].url == url ==>
          LiveOn(w, url, j))
  }

  lemma MissKeepsDown(w: World, step: Step, url: string, start: Contents, since: nat)
    requires Down(w, url, start, since) && Misses(w, step, url)
    ensures Down(Next(w, step), url, start, since)
  {
    NextKeepsInv(w, step);
    match step {
      case WriteOne(u, op, outcome) =>
        if u == url {
          RefusalKeepsRight(w, url, op, outcome.effect, start);
        } else {
          ElsewhereKeepsRight(w, step, url, start);
        }
      case ReplayOne(outcome) =>
        if HeadAt(w, url) {
          FailedReplayKeepsRight(w, url, outcome.effect, start);
        } else {
          ElsewhereKeepsRight(w, step, url, start);
        }
      case _ =>
        ElsewhereKeepsRight(w, step, url, start);
    }
  }

  lemma {:induction false} OutageKeepsDown(w: World, steps: seq<Step>, url: string, start: Contents, since: nat)
    requires Down(w, url, start, since) && AllMiss(w, steps, url)
    ensures Down(Run(w, steps), url, start, since)
  {
    if steps != [] {
      OutageKeepsDown(w, steps[..|steps| - 1], url, start, since);
      MissKeepsDown(Run(w, steps[..|steps| - 1]), steps[|steps| - 1], url, start, since);
    }
  }

  lemma CatchUpStep(w: World, step: Step, url: string, start: Contents)
    requires CatchingUp(w, url, start) && CatchesUp(w, step, url)
    ensures CatchingUp(Next(w, step), url, start)
  {
    NextKeepsInv(w, step);
    match step {
      case ReplayOne(outcome) =>
        if HeadAt(w, url) {
          assert LiveOn(w, url, w.todo[0]);
          ReplayKeepsRight(w, url, start);
        } else {
          ElsewhereKeepsRight(w, step, url, start);
        }
      case _ =>
        ElsewhereKeepsRight(w, step, url, start);
        forall id: nat { LiveMembers(w.log, w.done, id); }
    }
  }

  lemma {:induction false} CatchUpRun(w: World, steps: seq<Step>, url: string, start: Contents)
    requires CatchingUp(w, url, start) && AllCatchUp(w, steps, url)
    ensures CatchingUp(Run(w, steps), url, start)
  {
    if steps != [] {
      CatchUpRun(w, steps[..|steps| - 1], url, start);
      CatchUpStep(Run(w, steps[..|steps| - 1]), steps[|steps| - 1], url, start);
    }
  }

  /** A store in step with the writes, before the outage. */
  lemma InStep(w: World, url: string, start: Contents)
    requires Inv(w) && url in w.stores && Drained(w, url) && w.stores[url] == Ideal(w, url, start)
    ensures Down(w, url, start, |w.issued|)
  {
  }

  lemma PassStarts(w: World, url: string, start: Contents, since: nat)
    requires Down(w, url, start, since) && w.todo == []
    ensures CatchingUp(Next(w, Snapshot), url, start)
  {
    NextKeepsInv(w, Snapshot);
    ElsewhereKeepsRight(w, Snapshot, url, start);
    forall id: nat { LiveMembers(w.log, w.done, id); }
  }

  lemma PassDone(w: World, url: string, start: Contents)
    requires CatchingUp(w, url, start)
    requires forall id: nat :: id in w.todo && Known(w, id) ==> w.issued[id].url != url
    ensures Drained(w, url) && w.stores[url] == Ideal(w, url, start)
  {
    DrainedIsIdeal(w, url, start);
  }

  /** During an outage the log holds, for the store that is down, exactly the writes it missed. */
  lemma OutageLogsWhatWasMissed(w: World, outage: seq<Step>, url: string, start: Contents, id: nat)
    requires Inv(w) && url in w.stores && Drained(w, url) && w.stores[url] == Ideal(w, url, start)
    requires AllMiss(w, outage, url)
    requires id < |Run(w, outage).issued| && Run(w, outage).issued[id].url == url
    ensures id in Live(Run(w, outage).log, Run(w, outage).done) <==> |w.issued| <= id
  {
    InStep(w, url, start);
    OutageKeepsDown(w, outage, url, start, |w.issued|);
    LiveMembers(Run(w, outage).log, Run(w, outage).done, id);
  }

  /** A store in step with the writes goes down: every attempt at it fails, and may leave the key it
    * was aimed at in disorder, while other stores, passes and the cleaner go on as they please. Then a
    * pass starts throughout which the store is up and gets no new write. When the pass holds nothing
    * more for it, the store is what it would be had it never been down. */
  lemma {:induction false} OutageConverges(w: World, outage: seq<Step>, down: World, pass: seq<Step>, end: World,
                                           url: string, start: Contents)
    requires Inv(w) && url in w.stores && Drained(w, url) && w.stores[url] == Ideal(w, url, start)
    requires AllMiss(w, outage, url) && down == Run(w, outage) && down.todo == []
    requires AllCatchUp(Next(down, Snapshot), pass, url) && end == Run(Next(down, Snapshot), pass)
    requires forall id: nat :: id in end.todo && Known(end, id) ==> end.issued[id].url != url
    ensures url in end.stores && end.stores[url] == Ideal(end, url, start)
    ensures Drained(end, url)
  {
    InStep(w, url, start);
    OutageKeepsDown(w, outage, url, start, |w.issued|);
    PassStarts(down, url, start, |w.issued|);
    CatchUpRun(Next(down, Snapshot), pass, url, start);
    PassDone(end, url, start);
  }

  // ---- passes that succeed only in part

  /** Nothing is written to a key of `url` while a record waits for that key. */
  ghost predicate Patient(w: World, step: Step, url: string) {
    step.WriteOne? && step.url == url ==> Clear(w, url, KeyOf(step.op))
  }

  ghost predicate AllPatient(w: World, steps: seq<Step>, url: string) {
    steps != [] ==>
      AllPatient(w, steps[..|steps| - 1], url) && Patient(Run(w, steps[..|steps| - 1]), steps[|steps| - 1], url)
  }

  /** Every waiting record is the newest write at its key. */
  ghost predicate Waits(w: World, url: string, start: Contents) {
    && Inv(w) && url in w.stores
    && RightWhereClear(w, url, start)
    && forall id: nat :: LiveOn(w, url, id) ==> IsLastAt(w.issued, url, KeyOf(w.issued[id].op), id)
  }

  lemma DirectWriteKeepsRight(w: World, url: string, op: Op, start: Contents)
    requires Inv(w) && url in w.stores && RightWhereClear(w, url, start)
    ensures var w' := Write(w, url, op, Accepted);
            && RightWhereClear(w', url, start)
            && forall id: nat :: LiveOn(w', url, id) <==> LiveOn(w, url, id)
  {
    var w' := Write(w, url, op, Accepted);
    IdealAppend(w, w', url, start, Issue(url, op, true));
    assert forall id: nat :: LiveOn(w', url, id) <==> LiveOn(w, url, id);
    forall key | Clear(w', url, key)
      ensures AgreesAt(w', url, start, key)
    {
      assert Clear(w, url, key) && AgreesAt(w, url, start, key);
      LookApply(op, Ideal(w, url, start), key);
      LookApply(op, w.stores[url], key);
    }
  }

  lemma PatientStep(w: World, step: Step, url: string, start: Contents)
    requires Waits(w, url, start) && Patient(w, step, url)
    ensures Waits(Next(w, step), url, start)
  {
    NextKeepsInv(w, step);
    var w' := Next(w, step);
    match step {
      case WriteOne(u, op, outcome) =>
        if u == url {
          match outcome {
            case Accepted => DirectWriteKeepsRight(w, url, op, start);
            case Rejected(effect) => RefusalKeepsRight(w, url, op, effect, start);
          }
        } else {
          ElsewhereKeepsRight(w, step, url, start);
        }
      case ReplayOne(outcome) =>
        if HeadAt(w, url) {
          assert LiveOn(w, url, w.todo[0]);
          match outcome {
            case Accepted => ReplayKeepsRight(w, url, start);
            case Rejected(effect) => FailedReplayKeepsRight(w, url, effect, start);
          }
        } else {
          ElsewhereKeepsRight(w, step, url, start);
        }
      case _ =>
        ElsewhereKeepsRight(w, step, url, start);
    }
    forall id: nat | LiveOn(w', url, id)
      ensures IsLastAt(w'.issued, url, KeyOf(w'.issued[id].op), id)
    {
      if id < |w.issued| {
        var key := KeyOf(w.issued[id].op);
        assert LiveOn(w, url, id) && IsLastAt(w.issued, url, key, id);
        forall j: nat | id < j < |w'.issued|
          ensures !At(w'.issued, url, key, j)
        {
          assert j < |w.issued| ==> !At(w.issued, url, key, j);
        }
      }
    }
  }

  lemma {:induction false} PatientRun(w: World, steps: seq<Step>, url: string, start: Contents)
    requires Waits(w, url, start) && AllPatient(w, steps, url)
    ensures Waits(Run(w, steps), url, start)
  {
    if steps != [] {
      PatientRun(w, steps[..|steps| - 1], url, start);
      PatientStep(Run(w, steps[..|steps| - 1]), steps[|steps| - 1], url, start);
    }
  }

  /** If no write ever hits a key that a record waits for, then replaying out of order is harmless:
    * whatever fails and however often, once no record waits the store is as if never down, and at any
    * moment before that it is right at every key no record waits for. */
  lemma {:induction false} PatientWritersConverge(stores: map<string, Contents>, steps: seq<Step>, url: string)
    requires url in stores && AllPatient(Start(stores), steps, url)
    ensures var end := Run(Start(stores), steps);
            && url in end.stores
            && RightWhereClear(end, url, stores[url])
            && (Drained(end, url) ==> end.stores[url] == Ideal(end, url, stores[url]))
  {
    PatientRun(Start(stores), steps, url, stores[url]);
    var end := Run(Start(stores), steps);
    if Drained(end, url) {
      DrainedIsIdeal(end, url, stores[url]);
    }
  }
}

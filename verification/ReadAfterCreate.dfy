/** Reading an incident back after it was created, whatever the replay loop has got to. */
module ReadAfterCreate {
  import opened Wrappers
  import opened Models
  import opened StoreSpec
  import opened Protocol
  import opened Ideals

  /** Nothing but the loop that creates `incident` writes under its guid, and the loop visits a store once. */
  ghost predicate OnlyCreates(w: World, step: Step, incident: Incident) {
    step.WriteOne? && KeyOf(step.op) == Guid(incident.guid) ==>
      step.op == Create(incident) && forall id: nat :: !At(w.issued, step.url, Guid(incident.guid), id)
  }

  ghost predicate AllOnlyCreate(w: World, steps: seq<Step>, incident: Incident) {
    steps != [] ==>
      && AllOnlyCreate(w, steps[..|steps| - 1], incident)
      && OnlyCreates(Run(w, steps[..|steps| - 1]), steps[|steps| - 1], incident)
  }

  /** The guid has never been used. */
  ghost predicate Fresh(w: World, guid: string) {
    && (forall url :: url in w.stores ==> Guid(guid) !in w.stores[url])
    && (forall url, id: nat :: !At(w.issued, url, Guid(guid), id))
  }

  /** What the store at `url` holds under the guid, given how far the creation has got there. */
  ghost predicate HoldsAt(w: World, url: string, incident: Incident)
    requires url in w.stores
  {
    var key := Guid(incident.guid);
    var held := Look(w.stores[url], key);
    && (held == None || held == Some(Stored(incident)))
    && (forall id: nat :: At(w.issued, url, key, id) ==> w.issued[id].op == Create(incident))
    && (forall id: nat, j: nat :: At(w.issued, url, key, id) && At(w.issued, url, key, j) ==> id == j)
    && (forall id: nat :: At(w.issued, url, key, id) && id in w.applied ==> held == Some(Stored(incident)))
  }

  ghost predicate Holds(w: World, incident: Incident) {
    Inv(w) && forall url :: url in w.stores ==> HoldsAt(w, url, incident)
  }

  lemma NextHoldsAt(w: World, step: Step, url: string, incident: Incident)
    requires Holds(w, incident) && OnlyCreates(w, step, incident) && url in w.stores
    ensures url in Next(w, step).stores && HoldsAt(Next(w, step), url, incident)
  {
    var key := Guid(incident.guid);
    var w' := Next(w, step);
    assert HoldsAt(w, url, incident);
    match step {
      case WriteOne(u, op, outcome) =>
        forall id: nat
          ensures At(w'.issued, url, key, id) <==>
                  At(w.issued, url, key, id) || (u == url && u in w.stores && KeyOf(op) == key && id == |w.issued|)
        {
        }
        if u == url && KeyOf(op) != key {
          LookApply(op, w.stores[u], key);
          match outcome {
            case Accepted =>
            case Rejected(effect) => LookSmear(op, effect, w.stores[u], key);
          }
        }
      case ReplayOne(outcome) =>
        if HeadAt(w, url) {
          var id := w.todo[0];
          assert IsLive(w, id) && id !in w.applied;
          LookApply(w.issued[id].op, w.stores[url], key);
          if KeyOf(w.issued[id].op) == key {
            assert At(w.issued, url, key, id);
          } else {
            match outcome {
              case Accepted =>
              case Rejected(effect) => LookSmear(w.issued[id].op, effect, w.stores[url], key);
            }
          }
        }
      case _ =>
    }
  }

  lemma {:induction false} RunHolds(w: World, steps: seq<Step>, incident: Incident)
    requires Inv(w) && Fresh(w, incident.guid) && AllOnlyCreate(w, steps, incident)
    ensures Holds(Run(w, steps), incident)
  {
    if steps != [] {
      var front, step := steps[..|steps| - 1], steps[|steps| - 1];
      RunHolds(w, front, incident);
      var mid := Run(w, front);
      NextKeepsInv(mid, step);
      forall url | url in Next(mid, step).stores
        ensures HoldsAt(Next(mid, step), url, incident)
      {
        NextHoldsAt(mid, step, url, incident);
      }
    }
  }

  /** The creation has taken effect at the store, at once or by replay. */
  ghost predicate Took(w: World, url: string, guid: string) {
    exists id: nat :: At(w.issued, url, Guid(guid), id) && id in w.applied
  }

  lemma {:induction false} ReadFinds(w: World, order: seq<string>, up: set<string>, incident: Incident)
    requires Holds(w, incident)
    ensures ReadFirst(w, order, up, incident.guid) in {None, Some(incident)}
    ensures (exists url :: url in order && url in up && url in w.stores && Took(w, url, incident.guid))
            ==> ReadFirst(w, order, up, incident.guid) == Some(incident)
  {
    if order != [] {
      ReadFinds(w, order[1..], up, incident);
      if order[0] in w.stores {
        assert HoldsAt(w, order[0], incident);
      }
      if url :| url in order && url in up && url in w.stores && Took(w, url, incident.guid) {
        assert url == order[0] || url in order[1..];
      }
    }
  }

  /** Once an incident with a fresh guid is created, and until something else is written under its
    * guid, reading it back from any store that took it gives the incident that was created, in
    * whatever order the stores are tried, however replay, the cleaner and other writes interleave,
    * and even if refused attempts left their store in disorder. No read ever gives anything else. */
  lemma ReadsBackWhatWasCreated(w: World, steps: seq<Step>, incident: Incident, order: seq<string>, up: set<string>)
    requires Inv(w) && Fresh(w, incident.guid) && AllOnlyCreate(w, steps, incident)
    ensures var end := Run(w, steps);
            && ReadFirst(end, order, up, incident.guid) in {None, Some(incident)}
            && ((exists url :: url in order && url in up && url in end.stores && Took(end, url, incident.guid))
                ==> ReadFirst(end, order, up, incident.guid) == Some(incident))
  {
    RunHolds(w, steps, incident);
    ReadFinds(Run(w, steps), order, up, incident);
  }

  // ---- from the creation itself

  lemma TookNext(w: World, step: Step, url: string, guid: string)
    requires Took(w, url, guid)
    ensures Took(Next(w, step), url, guid)
  {
    var id: nat :| At(w.issued, url, Guid(guid), id) && id in w.applied;
    assert At(Next(w, step).issued, url, Guid(guid), id);
  }

  /** What a store took, it keeps having taken. */
  lemma {:induction false} TookLasts(w: World, steps: seq<Step>, url: string, guid: string)
    requires Took(w, url, guid)
    ensures Took(Run(w, steps), url, guid)
  {
    if steps != [] {
      TookLasts(w, steps[..|steps| - 1], url, guid);
      TookNext(Run(w, steps[..|steps| - 1]), steps[|steps| - 1], url, guid);
    }
  }

  ghost predicate Distinct(order: seq<string>) {
    forall i, j :: 0 <= i < j < |order| ==> order[i] != order[j]
  }

  ghost predicate AllStores(w: World, order: seq<string>) {
    forall url :: url in order ==> url in w.stores
  }

  lemma {:induction false} StoresStay(w: World, steps: seq<Step>)
    ensures Run(w, steps).stores.Keys == w.stores.Keys
  {
    if steps != [] {
      StoresStay(w, steps[..|steps| - 1]);
    }
  }

  /** The write loop of a creation writes to the stores it has visited only. */
  lemma {:induction false} NotYetWritten(w: World, order: seq<string>, incident: Incident,
                                         outcomes: string -> Outcome, url: string)
    requires Fresh(w, incident.guid) && url !in order
    ensures forall id: nat ::
              !At(Run(w, StepsOf(order, Create(incident), outcomes)).issued, url, Guid(incident.guid), id)
  {
    if order != [] {
      var front, last := order[..|order| - 1], order[|order| - 1];
      NotYetWritten(w, front, incident, outcomes, url);
      var mid := Run(w, StepsOf(front, Create(incident), outcomes));
      RunAppend(w, StepsOf(front, Create(incident), outcomes), WriteOne(last, Create(incident), outcomes(last)));
      assert last in order;
      forall id: nat
        ensures !At(Next(mid, WriteOne(last, Create(incident), outcomes(last))).issued, url, Guid(incident.guid), id)
      {
        assert !At(mid.issued, url, Guid(incident.guid), id);
      }
    }
  }

  lemma OneMoreOnlyCreates(w: World, steps: seq<Step>, step: Step, incident: Incident)
    requires AllOnlyCreate(w, steps, incident) && OnlyCreates(Run(w, steps), step, incident)
    ensures AllOnlyCreate(w, steps + [step], incident)
  {
    assert (steps + [step])[..|steps|] == steps;
  }

  lemma {:induction false} CreationOnlyCreates(w: World, order: seq<string>, incident: Incident,
                                               outcomes: string -> Outcome)
    requires Fresh(w, incident.guid) && Distinct(order)
    ensures AllOnlyCreate(w, StepsOf(order, Create(incident), outcomes), incident)
  {
    if order != [] {
      var front, last := order[..|order| - 1], order[|order| - 1];
      CreationOnlyCreates(w, front, incident, outcomes);
      assert last !in front;
      NotYetWritten(w, front, incident, outcomes, last);
      var step := WriteOne(last, Create(incident), outcomes(last));
      OneMoreOnlyCreates(w, StepsOf(front, Create(incident), outcomes), step, incident);
    }
  }

  /** The step hands no write under the guid to any store; it may well replay one. */
  predicate WritesElsewhere(step: Step, guid: string) {
    step.WriteOne? ==> KeyOf(step.op) != Guid(guid)
  }

  lemma {:induction false} LaterOnlyCreates(w: World, steps: seq<Step>, more: seq<Step>, incident: Incident)
    requires AllOnlyCreate(w, steps, incident)
    requires forall step :: step in more ==> WritesElsewhere(step, incident.guid)
    ensures AllOnlyCreate(w, steps + more, incident)
  {
    if more != [] {
      var front, last := more[..|more| - 1], more[|more| - 1];
      assert steps + more == steps + front + [last];
      LaterOnlyCreates(w, steps, front, incident);
      assert WritesElsewhere(last, incident.guid);
      OneMoreOnlyCreates(w, steps + front, last, incident);
    } else {
      assert steps + more == steps;
    }
  }

  /** A store that accepts the creation has taken it. */
  lemma {:induction false} AcceptedTook(w: World, order: seq<string>, incident: Incident, outcomes: string -> Outcome,
                                        url: string)
    requires url in order && AllStores(w, order) && outcomes(url) == Accepted
    ensures Took(Run(w, StepsOf(order, Create(incident), outcomes)), url, incident.guid)
  {
    var front, last := order[..|order| - 1], order[|order| - 1];
    var steps := StepsOf(front, Create(incident), outcomes);
    var mid, step := Run(w, steps), WriteOne(last, Create(incident), outcomes(last));
    RunAppend(w, steps, step);
    StoresStay(w, steps);
    if url == last {
      assert last in order;
      assert At(Next(mid, step).issued, url, Guid(incident.guid), |mid.issued|);
      assert |mid.issued| in Next(mid, step).applied;
    } else {
      assert order == front + [last] && url in front;
      assert forall u :: u in front ==> u in order;
      AcceptedTook(w, front, incident, outcomes, url);
      TookNext(mid, step, url, incident.guid);
    }
  }

  /** Creating an incident with a fresh guid at every store, as the write loop does, and going on in any
    * way that hands no other write under the guid to a store: replay of the records of the creation,
    * the cleaner, other writes. If one of the stores that accepted answers, a read gives that incident,
    * in whatever order the stores are tried. At least one store accepted whenever there are stores and
    * the creation reported no error. */
  lemma {:induction false} ReadsBackAfterCreate(w: World, order: seq<string>, incident: Incident,
                                                outcomes: string -> Outcome,
                                                more: seq<Step>, tried: seq<string>, up: set<string>)
    requires Inv(w) && Fresh(w, incident.guid) && Distinct(order) && AllStores(w, order)
    requires forall step :: step in more ==> WritesElsewhere(step, incident.guid)
    requires exists url :: url in order && outcomes(url) == Accepted && url in tried && url in up
    ensures ReadFirst(Run(w, StepsOf(order, Create(incident), outcomes) + more), tried, up, incident.guid)
         == Some(incident)
  {
    var creation := StepsOf(order, Create(incident), outcomes);
    var url :| url in order && outcomes(url) == Accepted && url in tried && url in up;
    CreationOnlyCreates(w, order, incident, outcomes);
    LaterOnlyCreates(w, creation, more, incident);
    AcceptedTook(w, order, incident, outcomes, url);
    RunConcat(w, creation, more);
    TookLasts(Run(w, creation), more, url, incident.guid);
    StoresStay(w, creation + more);
    ReadsBackWhatWasCreated(w, creation + more, incident, tried, up);
  }
}

/** One store of the replicate behind its retry loop: what the loop leaves is one outcome of the protocol. */
module Stack {
  import opened Wrappers
  import opened StoreSpec
  import opened Protocol
  import opened RetryStore
  import opened ReplicateStore

  /** How a write that meets this oracle ends. */
  function OutcomeOf(s: State, n: nat): Outcome
    requires n > 0
  {
    if Takes(s.oracle, s.calls, n) then Accepted
    else Rejected(Damage(s.oracle, s.calls, Calls(s.oracle, s.calls, n)))
  }

  /** The loops of the replicate see the store only so: it gives back the write it was handed, reports an
    * error exactly when the outcome is a rejection, and then holds what the protocol says it holds. */
  method WriteThrough(retry: Retry, op: Op) returns (ret: Op, taken: bool)
    requires retry.nbRetry > 0
    modifies retry.next
    ensures var outcome := OutcomeOf(old(retry.next.Now()), retry.nbRetry);
            && ret == op
            && (taken <==> outcome == Accepted)
            && retry.next.contents == Land(op, outcome, old(retry.next.contents))
  {
    var err;
    ret, err := retry.Write(op);
    taken := err == None;
  }

  /** Attempts that all took effect but were reported as failed leave what one write would have left; a
    * store is then right although its record waits, and replaying the record changes nothing. */
  lemma UnreportedWritesAreHarmless(op: Op, s: State, n: nat)
    requires n > 0 && forall k: nat :: s.oracle(k).Reject? && s.oracle(k).effect == Written
    ensures OutcomeOf(s, n).Rejected?
    ensures Land(op, OutcomeOf(s, n), s.contents) == Apply(op, s.contents)
    ensures Apply(op, Land(op, OutcomeOf(s, n), s.contents)) == Apply(op, s.contents)
  {
    assert Damage(s.oracle, s.calls, Calls(s.oracle, s.calls, n)) == Written;
    RetriedWriteIsOneWrite(op, Written, s.contents);
  }

  // ---- all the stores of the replicate behind their retry loops

  /** No two loops share a store, and each makes at least one attempt. */
  ghost predicate Apart(retries: map<string, Retry>) {
    && (forall u, v :: u in retries && v in retries && u != v ==> retries[u].next != retries[v].next)
    && (forall u :: u in retries ==> retries[u].nbRetry > 0)
  }

  ghost function Nexts(retries: map<string, Retry>): set<Store> {
    set u | u in retries :: retries[u].next
  }

  /** Every store as it is now. */
  ghost function Nows(retries: map<string, Retry>): (nows: map<string, State>)
    reads Nexts(retries)
    ensures nows.Keys == retries.Keys
    ensures forall u :: u in retries ==> nows[u] == retries[u].next.Now()
  {
    map u | u in retries :: retries[u].next.Now()
  }

  /** How a write ends at each store, if they are as in `nows`. */
  ghost function EndsAs(retries: map<string, Retry>, nows: map<string, State>): string -> Outcome
    requires Apart(retries) && nows.Keys == retries.Keys
  {
    u => if u in retries then OutcomeOf(nows[u], retries[u].nbRetry) else Accepted
  }

  /** What the stores hold when those of `order` have seen the write. */
  ghost predicate Landed(op: Op, before: map<string, State>, order: seq<string>, outcomes: string -> Outcome,
                         after: map<string, State>) {
    && after.Keys == before.Keys
    && (forall u :: u in before && u !in order ==> after[u] == before[u])
    && (forall u :: u in before && u in order ==> after[u].contents == Land(op, outcomes(u), before[u].contents))
  }

  lemma OneMoreLanded(op: Op, before: map<string, State>, order: seq<string>, i: nat, outcomes: string -> Outcome,
                      mid: map<string, State>, after: map<string, State>)
    requires i < |order| && Landed(op, before, order[..i], outcomes, mid) && after.Keys == mid.Keys
    requires order[i] in mid && order[i] !in order[..i]
    requires after[order[i]].contents == Land(op, outcomes(order[i]), mid[order[i]].contents)
    requires forall u :: u in mid && u != order[i] ==> after[u] == mid[u]
    ensures Landed(op, before, order[..i + 1], outcomes, after)
  {
    assert order[..i + 1] == order[..i] + [order[i]];
  }

  /** One write through one loop: only that store changes. */
  method WriteTo(retries: map<string, Retry>, url: string, op: Op) returns (ret: Op, taken: bool, outcome: Outcome)
    requires Apart(retries) && url in retries
    modifies Nexts(retries)
    ensures ret == op && (taken <==> outcome == Accepted)
    ensures outcome == OutcomeOf(old(Nows(retries))[url], retries[url].nbRetry)
    ensures Nows(retries)[url].contents == Land(op, outcome, old(Nows(retries))[url].contents)
    ensures forall u :: u in retries && u != url ==> Nows(retries)[u] == old(Nows(retries))[u]
  {
    outcome := OutcomeOf(retries[url].next.Now(), retries[url].nbRetry);
    ret, taken := WriteThrough(retries[url], op);
  }

  /** The stores of the replicate are what the stores behind the loops hold. */
  ghost predicate Mirrored(stores: map<string, Contents>, nows: map<string, State>) {
    stores.Keys == nows.Keys && forall u :: u in nows ==> stores[u] == nows[u].contents
  }

  lemma MirroredAgain(stores: map<string, Contents>, nows: map<string, State>, url: string, nows': map<string, State>)
    requires Mirrored(stores, nows) && url in nows && nows'.Keys == nows.Keys
    requires forall u :: u in nows && u != url ==> nows'[u] == nows[u]
    ensures Mirrored(stores[url := nows'[url].contents], nows')
  {
  }

  /** The retry loop runs; the replicate does not change meanwhile. */
  method Ask(r: Replicate, retries: map<string, Retry>, url: string, op: Op)
    returns (ret: Op, taken: bool, ghost outcome: Outcome)
    requires r.Shape() && Apart(retries) && url in retries
    modifies Nexts(retries)
    ensures r.Shape() && r.stores == old(r.stores) && r.world == old(r.world)
    ensures ret == op && (taken <==> outcome == Accepted)
    ensures outcome == OutcomeOf(old(Nows(retries))[url], retries[url].nbRetry)
    ensures Nows(retries)[url].contents == Land(op, outcome, old(Nows(retries))[url].contents)
    ensures forall u :: u in retries && u != url ==> Nows(retries)[u] == old(Nows(retries))[u]
  {
    var ended;
    ret, taken, ended := WriteTo(retries, url, op);
    outcome := ended;
  }

  /** The replicate draws the consequence; the stores do not change meanwhile. */
  method Answer(r: Replicate, ghost retries: map<string, Retry>, url: string, ret: Op, taken: bool, contents: Contents,
                ghost outcome: Outcome)
    requires r.Shape() && url in r.stores
    requires contents == Land(ret, outcome, r.stores[url]) && (taken <==> outcome == Accepted)
    modifies r`stores, r`records, r`world, r`logged, r`made
    ensures r.Shape() && r.stores == old(r.stores)[url := contents]
    ensures r.world == Next(old(r.world), Protocol.WriteOne(url, ret, outcome))
    ensures Nows(retries) == old(Nows(retries))
  {
    ghost var nows := Nows(retries);
    r.Settle(url, ret, taken, contents, outcome);
    forall u | u in retries
      ensures Nows(retries)[u] == nows[u]
    {
      assert retries[u].next.Now() == old(retries[u].next.Now());
    }
    assert Nows(retries) == nows;
  }

  /** One turn of the loops of Create, Update, Delete, Subscribe and Unsubscribe: the store behind its retry
    * loop is asked, and on an error what it gave back is logged. */
  method Turn(r: Replicate, retries: map<string, Retry>, url: string, op: Op)
    returns (ret: Op, taken: bool, ghost outcome: Outcome)
    requires r.Shape() && Apart(retries) && url in retries && Mirrored(r.stores, Nows(retries))
    modifies r`stores, r`records, r`world, r`logged, r`made, Nexts(retries)
    ensures r.Shape() && Mirrored(r.stores, Nows(retries))
    ensures ret == op && (taken <==> outcome == Accepted)
    ensures outcome == OutcomeOf(old(Nows(retries))[url], retries[url].nbRetry)
    ensures r.world == Next(old(r.world), Protocol.WriteOne(url, op, outcome))
    ensures Nows(retries)[url].contents == Land(op, outcome, old(Nows(retries))[url].contents)
    ensures forall u :: u in retries && u != url ==> Nows(retries)[u] == old(Nows(retries))[u]
  {
    ghost var stores, nows := r.stores, Nows(retries);
    ret, taken, outcome := Ask(r, retries, url, op);
    MirroredAgain(stores, nows, url, Nows(retries));
    assert retries[url].next.contents == Nows(retries)[url].contents;
    Answer(r, retries, url, ret, taken, retries[url].next.contents, outcome);
  }

  /** Replicate over Retry: the loop over real stores behind their retry loops. Each store ends the write as
    * its own oracle decides, whatever the order; the caller gets its own write back, and an error exactly
    * when there are stores and none took it; and the run of the protocol goes on by just these writes, so
    * what each store that refused has missed is logged, with the caller's write, and nothing else. */
  method Write(r: Replicate, retries: map<string, Retry>, order: seq<string>, op: Op) returns (ret: Op, failed: bool)
    requires r.Valid() && r.Walk(order) && Apart(retries) && Mirrored(r.stores, Nows(retries))
    modifies r`stores, r`records, r`world, r`logged, r`made, Nexts(retries)
    ensures r.Valid() && Mirrored(r.stores, Nows(retries))
    ensures ret == op
    ensures r.world == Run(old(r.world), StepsOf(order, op, EndsAs(retries, old(Nows(retries)))))
    ensures Landed(op, old(Nows(retries)), order, EndsAs(retries, old(Nows(retries))), Nows(retries))
    ensures failed <==> order != [] && NoneTakes(order, EndsAs(retries, old(Nows(retries))))
  {
    ghost var before := r.world;
    ghost var nows := Nows(retries);
    ret, failed := WalkThrough(r, retries, order, op);
    RunIsReached(before, StepsOf(order, op, EndsAs(retries, nows)));
  }

  method WalkThrough(r: Replicate, retries: map<string, Retry>, order: seq<string>, op: Op)
    returns (ret: Op, failed: bool)
    requires r.Shape() && r.Walk(order) && Apart(retries) && Mirrored(r.stores, Nows(retries))
    modifies r`stores, r`records, r`world, r`logged, r`made, Nexts(retries)
    ensures r.Shape() && Mirrored(r.stores, Nows(retries))
    ensures ret == op
    ensures r.world == Run(old(r.world), StepsOf(order, op, EndsAs(retries, old(Nows(retries)))))
    ensures Landed(op, old(Nows(retries)), order, EndsAs(retries, old(Nows(retries))), Nows(retries))
    ensures failed <==> order != [] && NoneTakes(order, EndsAs(retries, old(Nows(retries))))
  {
    ghost var before, nows := r.world, Nows(retries);
    ghost var outcomes := EndsAs(retries, nows);
    ret := op;
    failed := false;
    var allInError := true;
    assert StepsOf(order[..0], op, outcomes) == [] && order[..|order|] == order;
    for i := 0 to |order|
      invariant r.Shape() && Mirrored(r.stores, Nows(retries))
      invariant ret == op
      invariant r.world == Run(before, StepsOf(order[..i], op, outcomes))
      invariant Landed(op, nows, order[..i], outcomes, Nows(retries))
      invariant allInError <==> NoneTakes(order[..i], outcomes)
      invariant failed ==> i > 0
      invariant i > 0 && allInError ==> failed
    {
      assert order[i] !in order[..i];
      ghost var mid := Nows(retries);
      OneMoreWrite(before, order, i, op, outcomes);
      var taken;
      ghost var outcome;
      ret, taken, outcome := Turn(r, retries, order[i], ret);
      OneMoreLanded(op, nows, order, i, outcomes, mid, Nows(retries));
      failed := !taken;
      if taken {
        allInError := false;
      }
    }
    if !allInError {
      failed := false;
    }
  }
}

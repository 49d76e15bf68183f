/** Exactly when replayed records leave a store behind the writes issued to it. */
module Overtaking {
  import opened Wrappers
  import opened Models
  import opened StoreSpec
  import opened Protocol
  import opened Conservation
  import opened Ideals

  /** A newer write to the key of `id` has already taken effect at its store. */
  ghost predicate Overtaken(issued: seq<Issue>, applied: seq<nat>, id: nat)
    requires id < |issued|
  {
    exists j :: j in applied && id < j && At(issued, issued[id].url, KeyOf(issued[id].op), j)
  }

  /** The step replays a record that has been overtaken; the replay loop does not look. */
  ghost predicate ReplaysStale(w: World, step: Step) {
    step == ReplayOne(Accepted) && w.todo != [] && Known(w, w.todo[0]) && Overtaken(w.issued, w.applied, w.todo[0])
  }

  /** Position `p` of `applied` is the last to touch this key of this store. */
  ghost predicate Final(w: World, url: string, key: Key, p: nat) {
    && p < |w.applied| && At(w.issued, url, key, w.applied[p])
    && forall q: nat :: p < q < |w.applied| ==> !At(w.issued, url, key, w.applied[q])
  }

  ghost predicate StaleAt(w: World, p: nat)
    requires p < |w.applied| && w.applied[p] < |w.issued|
  {
    Overtaken(w.issued, w.applied[..p], w.applied[p])
  }

  /** The last write to take effect at a key is the last one issued there, unless it was overtaken. */
  lemma FinalIsNewest(w: World, url: string, key: Key, p: nat)
    requires Inv(w) && Drained(w, url) && Final(w, url, key, p)
    ensures IsLastAt(w.issued, url, key, w.applied[p]) <==> !StaleAt(w, p)
  {
    var id := w.applied[p];
    if StaleAt(w, p) {
      var j :| j in w.applied[..p] && id < j && At(w.issued, url, key, j);
    } else {
      forall j: nat | id < j < |w.issued|
        ensures !At(w.issued, url, key, j)
      {
        assert !LiveOn(w, url, j);
        if w.issued[j].url == url {
          assert j in w.applied;
          var q: nat :| q < |w.applied| && w.applied[q] == j;
          assert q < p ==> j in w.applied[..p];
          assert p < q ==> !At(w.issued, url, key, w.applied[q]);
        }
      }
    }
  }

  /** What a fold leaves at a key is what its last write there left. */
  lemma {:induction false} FoldAtFinal(w: World, url: string, start: Contents, key: Key, p: nat, ids: seq<nat>)
    requires Below(ids, |w.issued|)
    requires p < |ids| && At(w.issued, url, key, ids[p])
    requires forall q: nat :: p < q < |ids| ==> !At(w.issued, url, key, ids[q])
    ensures Look(Fold(start, OpsAt(w.issued, url, ids)), key) == ValueOf(w.issued[ids[p]].op)
  {
    FoldOnce(w, url, start, key, ids);
    if p < |ids| - 1 {
      FoldAtFinal(w, url, start, key, p, ids[..|ids| - 1]);
    }
  }

  lemma FoldOnce(w: World, url: string, start: Contents, key: Key, ids: seq<nat>)
    requires Below(ids, |w.issued|) && ids != []
    ensures Look(Fold(start, OpsAt(w.issued, url, ids)), key)
         == if At(w.issued, url, key, ids[|ids| - 1]) then ValueOf(w.issued[ids[|ids| - 1]].op)
            else Look(Fold(start, OpsAt(w.issued, url, ids[..|ids| - 1])), key)
  {
    var last := ids[|ids| - 1];
    var before := OpsAt(w.issued, url, ids[..|ids| - 1]);
    if w.issued[last].url == url {
      FoldAppend(start, before, w.issued[last].op);
      LookApply(w.issued[last].op, Fold(start, before), key);
    } else {
      assert OpsAt(w.issued, url, ids) == before;
    }
  }

  lemma {:induction false} FoldUntouched(w: World, url: string, start: Contents, key: Key, ids: seq<nat>)
    requires Below(ids, |w.issued|)
    requires forall q: nat :: q < |ids| ==> !At(w.issued, url, key, ids[q])
    ensures Look(Fold(start, OpsAt(w.issued, url, ids)), key) == Look(start, key)
  {
    if ids != [] {
      FoldOnce(w, url, start, key, ids);
      FoldUntouched(w, url, start, key, ids[..|ids| - 1]);
    }
  }

  lemma {:induction false} IdealUntouched(w: World, url: string, start: Contents, key: Key)
    requires forall j: nat :: !At(w.issued, url, key, j)
    ensures Look(Ideal(w, url, start), key) == Look(start, key)
    decreases |w.issued|
  {
    if w.issued != [] {
      var n := |w.issued| - 1;
      var front := w.(issued := w.issued[..n]);
      assert w.issued == front.issued + [w.issued[n]];
      IdealAppend(front, w, url, start, w.issued[n]);
      assert !At(w.issued, url, key, n);
      if w.issued[n].url == url {
        LookApply(w.issued[n].op, Ideal(front, url, start), key);
      }
      forall j: nat
        ensures !At(front.issued, url, key, j)
      {
        assert !At(w.issued, url, key, j);
      }
      IdealUntouched(front, url, start, key);
    }
  }

  lemma {:induction false} LastPosition(w: World, url: string, key: Key, n: nat) returns (p: nat)
    requires n <= |w.applied|
    requires exists q: nat :: q < n && At(w.issued, url, key, w.applied[q])
    ensures p < n && At(w.issued, url, key, w.applied[p])
    ensures forall q: nat :: p < q < n ==> !At(w.issued, url, key, w.applied[q])
  {
    if At(w.issued, url, key, w.applied[n - 1]) {
      p := n - 1;
    } else {
      p := LastPosition(w, url, key, n - 1);
    }
  }

  /** The last write to take effect at the key was overtaken, and writes something else than the newest
    * write issued there. */
  ghost predicate Spoiled(w: World, url: string, key: Key, p: nat) {
    && Final(w, url, key, p) && StaleAt(w, p)
    && exists j: nat :: IsLastAt(w.issued, url, key, j) && ValueOf(w.issued[j].op) != ValueOf(w.issued[w.applied[p]].op)
  }

  lemma {:induction false} NewestThere(issued: seq<Issue>, url: string, key: Key, id: nat) returns (newest: nat)
    requires At(issued, url, key, id)
    ensures IsLastAt(issued, url, key, newest)
    decreases |issued| - id
  {
    if j: nat :| id < j < |issued| && At(issued, url, key, j) {
      newest := NewestThere(issued, url, key, j);
    } else {
      newest := id;
    }
  }

  ghost predicate HoldsCounted(w: World, stores: map<string, Contents>, url: string) {
    url in stores && url in w.stores && Below(w.applied, |w.issued|) && w.stores[url] == Counted(w, url, stores[url])
  }

  /** At a key that was written, the store is right exactly when the last write there is not spoiled. */
  lemma RightAtFinal(w: World, stores: map<string, Contents>, url: string, key: Key, p: nat)
    requires Inv(w) && HoldsCounted(w, stores, url) && Drained(w, url) && Final(w, url, key, p)
    ensures AgreesAt(w, url, stores[url], key) <==> !Spoiled(w, url, key, p)
    ensures Look(w.stores[url], key) == ValueOf(w.issued[w.applied[p]].op)
    ensures IsLastAt(w.issued, url, key, w.applied[p]) <==> !StaleAt(w, p)
  {
    FinalIsNewest(w, url, key, p);
    FoldAtFinal(w, url, stores[url], key, p, w.applied);
    var newest := NewestThere(w.issued, url, key, w.applied[p]);
    IdealAtLast(w, url, stores[url], key, newest);
    forall j: nat | IsLastAt(w.issued, url, key, j)
      ensures j == newest
    {
    }
  }

  /** At a key where nothing took effect the store is right. */
  lemma RightWhereUntouched(w: World, stores: map<string, Contents>, url: string, key: Key)
    requires Inv(w) && HoldsCounted(w, stores, url) && Drained(w, url)
    requires forall q: nat :: q < |w.applied| ==> !At(w.issued, url, key, w.applied[q])
    ensures AgreesAt(w, url, stores[url], key)
  {
    FoldUntouched(w, url, stores[url], key, w.applied);
    forall j: nat
      ensures !At(w.issued, url, key, j)
    {
      assert !LiveOn(w, url, j);
      if j < |w.issued| && w.issued[j].url == url {
        assert j in w.applied;
        var q: nat :| q < |w.applied| && w.applied[q] == j;
        assert !At(w.issued, url, key, w.applied[q]);
      }
    }
    IdealUntouched(w, url, stores[url], key);
  }

  lemma RightAtKey(w: World, stores: map<string, Contents>, url: string, key: Key)
    requires Inv(w) && HoldsCounted(w, stores, url) && Drained(w, url)
    requires forall p: nat :: !Spoiled(w, url, key, p)
    ensures AgreesAt(w, url, stores[url], key)
  {
    if p: nat :| p < |w.applied| && At(w.issued, url, key, w.applied[p]) {
      var last := LastPosition(w, url, key, |w.applied|);
      assert Final(w, url, key, last);
      RightAtFinal(w, stores, url, key, last);
    } else {
      RightWhereUntouched(w, stores, url, key);
    }
  }

  /** Whatever failed writes leave behind, once no record waits the write in force at a key is the newest
    * one there exactly when it was not overtaken, and the store is as if never down exactly when no key
    * is spoiled. */
  lemma {:induction false} ConvergesUnlessOvertaken(stores: map<string, Contents>, steps: seq<Step>, url: string)
    requires url in stores && Drained(Run(Start(stores), steps), url)
    ensures var w := Run(Start(stores), steps);
            && url in w.stores
            && (forall key, p: nat :: Final(w, url, key, p) ==>
                  && Look(w.stores[url], key) == ValueOf(w.issued[w.applied[p]].op)
                  && (IsLastAt(w.issued, url, key, w.applied[p]) <==> !StaleAt(w, p)))
            && (w.stores[url] == Ideal(w, url, stores[url]) <==> forall key, p: nat :: !Spoiled(w, url, key, p))
  {
    var w := Run(Start(stores), steps);
    RunKeepsInv(Start(stores), steps);
    StoresHoldWhereNothingWaits(stores, steps, url);
    forall key, p: nat | Final(w, url, key, p)
      ensures Look(w.stores[url], key) == ValueOf(w.issued[w.applied[p]].op)
      ensures IsLastAt(w.issued, url, key, w.applied[p]) <==> !StaleAt(w, p)
      ensures AgreesAt(w, url, stores[url], key) <==> !Spoiled(w, url, key, p)
    {
      RightAtFinal(w, stores, url, key, p);
    }
    if forall key, p: nat :: !Spoiled(w, url, key, p) {
      forall key
        ensures Look(w.stores[url], key) == Look(Ideal(w, url, stores[url]), key)
      {
        RightAtKey(w, stores, url, key);
      }
      SameLooks(w.stores[url], Ideal(w, url, stores[url]));
    }
  }

  // ---- the guard a caller could check

  ghost predicate AnyStale(w: World, steps: seq<Step>) {
    steps != [] && (AnyStale(w, steps[..|steps| - 1]) || ReplaysStale(Run(w, steps[..|steps| - 1]), steps[|steps| - 1]))
  }

  lemma OvertakenStays(issued: seq<Issue>, more: seq<Issue>, applied: seq<nat>, id: nat)
    requires id < |issued| && Below(applied, |issued|)
    ensures Overtaken(issued + more, applied, id) <==> Overtaken(issued, applied, id)
  {
    var url, key := issued[id].url, KeyOf(issued[id].op);
    assert forall j: nat :: j < |issued| ==> (At(issued + more, url, key, j) <==> At(issued, url, key, j));
  }

  /** A step leaves what was stale stale, and adds nothing to it. */
  lemma OldStale(w: World, step: Step, p: nat)
    requires Inv(w) && p < |w.applied|
    ensures w.applied[p] < |w.issued| && p < |Next(w, step).applied|
    ensures Next(w, step).applied[p] == w.applied[p] && w.applied[p] < |Next(w, step).issued|
    ensures StaleAt(Next(w, step), p) <==> StaleAt(w, p)
  {
    var w' := Next(w, step);
    assert w'.issued == w.issued + w'.issued[|w.issued|..];
    assert w.applied[p] in w.applied && w'.applied[..p] == w.applied[..p];
    assert forall q :: 0 <= q < p ==> w.applied[q] in w.applied;
    OvertakenStays(w.issued, w'.issued[|w.issued|..], w.applied[..p], w.applied[p]);
  }

  /** What a step makes take effect is stale exactly when the step replays an overtaken record. */
  lemma NewStale(w: World, step: Step, p: nat)
    requires Inv(w) && |w.applied| <= p < |Next(w, step).applied|
    ensures Next(w, step).applied[p] < |Next(w, step).issued|
    ensures StaleAt(Next(w, step), p) <==> ReplaysStale(w, step)
  {
    var w' := Next(w, step);
    assert p == |w.applied| && w'.applied[..p] == w.applied;
    forall j | j in w.applied
      ensures j < |w.issued|
    {
    }
    if step.ReplayOne? {
      assert w'.issued == w.issued && w'.applied[p] == w.todo[0];
    } else {
      assert w'.applied[p] == |w.issued|;
    }
  }

  ghost predicate HasStale(w: World) {
    exists p: nat :: p < |w.applied| && w.applied[p] < |w.issued| && StaleAt(w, p)
  }

  lemma NextHasStale(w: World, step: Step)
    requires Inv(w)
    ensures HasStale(Next(w, step)) <==> HasStale(w) || ReplaysStale(w, step)
  {
    var w' := Next(w, step);
    if p: nat :| p < |w'.applied| && w'.applied[p] < |w'.issued| && StaleAt(w', p) {
      if p < |w.applied| {
        OldStale(w, step, p);
      } else {
        NewStale(w, step, p);
      }
    }
    if p: nat :| p < |w.applied| && w.applied[p] < |w.issued| && StaleAt(w, p) {
      OldStale(w, step, p);
    }
    if ReplaysStale(w, step) {
      NewStale(w, step, |w.applied|);
    }
  }

  /** An application is stale exactly when some replay step found its record already overtaken: the
    * condition of the theorem above can be checked before each replay. */
  lemma {:induction false} StaleFromReplay(stores: map<string, Contents>, steps: seq<Step>)
    ensures HasStale(Run(Start(stores), steps)) <==> AnyStale(Start(stores), steps)
  {
    if steps != [] {
      StaleFromReplay(stores, steps[..|steps| - 1]);
      RunKeepsInv(Start(stores), steps[..|steps| - 1]);
      NextHasStale(Run(Start(stores), steps[..|steps| - 1]), steps[|steps| - 1]);
    }
  }

  /** What has taken effect stays so, in its place, and stays as stale as it was. */
  lemma {:induction false} StaleStays(stores: map<string, Contents>, steps: seq<Step>, n: nat, p: nat)
    requires n <= |steps| && p < |Run(Start(stores), steps[..n]).applied|
    ensures var w, end := Run(Start(stores), steps[..n]), Run(Start(stores), steps);
            && p < |end.applied| && end.applied[p] == w.applied[p] && w.applied[p] < |w.issued| <= |end.issued|
            && end.issued[..|w.issued|] == w.issued
            && (StaleAt(end, p) <==> StaleAt(w, p))
    decreases |steps| - n
  {
    var w := Run(Start(stores), steps[..n]);
    RunKeepsInv(Start(stores), steps[..n]);
    assert w.applied[p] in w.applied;
    if n < |steps| {
      assert steps[..n + 1] == steps[..n] + [steps[n]];
      RunAppend(Start(stores), steps[..n], steps[n]);
      OldStale(w, steps[n], p);
      assert Next(w, steps[n]).issued[..|w.issued|] == w.issued;
      StaleStays(stores, steps, n + 1, p);
    } else {
      assert steps[..n] == steps;
    }
  }

  /** The step that made position `p` take effect. */
  lemma {:induction false} AppliedAt(stores: map<string, Contents>, steps: seq<Step>, p: nat) returns (n: nat)
    requires p < |Run(Start(stores), steps).applied|
    ensures n < |steps| && |Run(Start(stores), steps[..n]).applied| == p
    ensures p < |Run(Start(stores), steps[..n + 1]).applied|
  {
    var front := steps[..|steps| - 1];
    if p < |Run(Start(stores), front).applied| {
      n := AppliedAt(stores, front, p);
      assert front[..n] == steps[..n] && front[..n + 1] == steps[..n + 1];
    } else {
      n := |steps| - 1;
      assert steps[..n + 1] == steps;
    }
  }

  /** What a replay step makes take effect is there at the end, stale exactly when the step replays an
    * overtaken record. */
  lemma ReplayedAt(stores: map<string, Contents>, steps: seq<Step>, n: nat, p: nat)
    requires n < |steps| && p == |Run(Start(stores), steps[..n]).applied|
    requires p < |Run(Start(stores), steps[..n + 1]).applied|
    ensures var w, end := Run(Start(stores), steps[..n]), Run(Start(stores), steps);
            && p < |end.applied| && end.applied[p] < |end.issued|
            && (StaleAt(end, p) <==> ReplaysStale(w, steps[n]))
            && (ReplaysStale(w, steps[n]) ==>
                  end.applied[p] == w.todo[0] && end.issued[w.todo[0]] == w.issued[w.todo[0]])
  {
    var w := Run(Start(stores), steps[..n]);
    assert steps[..n + 1] == steps[..n] + [steps[n]];
    RunAppend(Start(stores), steps[..n], steps[n]);
    RunKeepsInv(Start(stores), steps[..n]);
    NewStale(w, steps[n], p);
    StaleStays(stores, steps, n + 1, p);
  }

  /** Step `n` replays a record although a newer write to its key has taken effect; nothing takes effect
    * there afterwards; and the newest write issued there in the whole run writes something else. */
  ghost predicate Spoils(stores: map<string, Contents>, steps: seq<Step>, url: string, n: nat)
    requires n < |steps|
  {
    var w, end := Run(Start(stores), steps[..n]), Run(Start(stores), steps);
    && ReplaysStale(w, steps[n]) && w.issued[w.todo[0]].url == url
    && var op := w.issued[w.todo[0]].op;
    && Final(end, url, KeyOf(op), |w.applied|)
    && exists j: nat :: IsLastAt(end.issued, url, KeyOf(op), j) && ValueOf(end.issued[j].op) != ValueOf(op)
  }

  lemma StepOfSpoiled(stores: map<string, Contents>, steps: seq<Step>, url: string, key: Key, p: nat) returns (n: nat)
    requires Spoiled(Run(Start(stores), steps), url, key, p)
    ensures n < |steps| && Spoils(stores, steps, url, n)
  {
    n := AppliedAt(stores, steps, p);
    ReplayedAt(stores, steps, n, p);
    var w := Run(Start(stores), steps[..n]);
    assert ReplaysStale(w, steps[n]);
    assert w.issued[w.todo[0]].url == url && KeyOf(w.issued[w.todo[0]].op) == key;
  }

  lemma SpoiledOfStep(stores: map<string, Contents>, steps: seq<Step>, url: string, n: nat)
    requires n < |steps| && Spoils(stores, steps, url, n)
    ensures var w := Run(Start(stores), steps[..n]);
            && w.todo != [] && w.todo[0] < |w.issued|
            && Spoiled(Run(Start(stores), steps), url, KeyOf(w.issued[w.todo[0]].op), |w.applied|)
  {
    var w := Run(Start(stores), steps[..n]);
    assert steps[..n + 1] == steps[..n] + [steps[n]];
    RunAppend(Start(stores), steps[..n], steps[n]);
    ReplayedAt(stores, steps, n, |w.applied|);
  }

  /** The exact condition on the run itself: whatever failed writes leave behind, once no record waits the
    * store is as if never down exactly when no step spoils a key. */
  lemma {:induction false} ConvergesUnlessSpoiled(stores: map<string, Contents>, steps: seq<Step>, url: string)
    requires url in stores && Drained(Run(Start(stores), steps), url)
    ensures url in Run(Start(stores), steps).stores
    ensures Run(Start(stores), steps).stores[url] == Ideal(Run(Start(stores), steps), url, stores[url])
       <==> forall n: nat :: n < |steps| ==> !Spoils(stores, steps, url, n)
  {
    ConvergesUnlessOvertaken(stores, steps, url);
    if key, p: nat :| Spoiled(Run(Start(stores), steps), url, key, p) {
      var n := StepOfSpoiled(stores, steps, url, key, p);
    }
    if n: nat :| n < |steps| && Spoils(stores, steps, url, n) {
      SpoiledOfStep(stores, steps, url, n);
    }
  }

  // ---- both hypotheses are needed

  lemma MissedWrite(w: World, url: string, op: Op)
    requires url in w.stores
    ensures Next(w, WriteOne(url, op, Rejected(Untouched)))
         == w.(issued := w.issued + [Issue(url, op, false)], log := w.log + [|w.issued|])
  {
    assert w.stores[url := w.stores[url]] == w.stores;
  }

  lemma MissedReplay(w: World)
    requires w.todo != [] && Known(w, w.todo[0])
    ensures Next(w, ReplayOne(Rejected(Untouched))) == w.(todo := w.todo[1..])
  {
    var url := w.issued[w.todo[0]].url;
    assert w.stores[url := w.stores[url]] == w.stores;
  }

  lemma TakenReplay(w: World, url: string, contents: Contents, id: nat, direct: bool, op: Op)
    requires w.stores == map[url := contents] && w.todo != [] && w.todo[0] == id
    requires id < |w.issued| && w.issued[id] == Issue(url, op, direct)
    ensures Next(w, ReplayOne(Accepted))
         == w.(stores := map[url := Apply(op, contents)], done := w.done + {id},
               todo := w.todo[1..], applied := w.applied + [id])
  {
    assert map[url := contents][url := Apply(op, contents)] == map[url := Apply(op, contents)];
  }

  lemma LiveOfTwo()
    ensures Live([0], {}) == [0] && Live([0, 1], {}) == [0, 1] && Live([0, 1], {1}) == [0]
  {
    LiveOfAppend([], 0, {});
    LiveOfAppend([0], 1, {});
    LiveOfAppend([], 0, {1});
    LiveOfAppend([0], 1, {1});
    assert [0] + [1] == [0, 1];
  }

  /** Nothing waits any more, and the store has the older incident where it should have the newer. */
  ghost predicate LeftBehind(end: World, url: string, contents: Contents, older: Incident, newer: Incident) {
    && Drained(end, url) && url in end.stores
    && Look(end.stores[url], Guid(older.guid)) == Some(Stored(older))
    && Look(Ideal(end, url, contents), Guid(older.guid)) == Some(Stored(newer))
  }

  lemma LeftWithOlder(end: World, url: string, contents: Contents, older: Incident, newer: Incident, direct: bool)
    requires older.guid == newer.guid
    requires end.issued == [Issue(url, Update(older.guid, older), false), Issue(url, Update(older.guid, newer), direct)]
    requires end.stores == map[url := Apply(Update(older.guid, older), Apply(Update(older.guid, newer), contents))]
    requires forall id :: id in end.log ==> id in end.done
    ensures LeftBehind(end, url, contents, older, newer)
  {
    IdealAtLast(end, url, contents, Guid(older.guid), 1);
  }

  /** A direct write that succeeds while an older record waits for the same incident: the pass then
    * puts the older incident back, and nothing is left in the log to repair it. */
  lemma ReplayUndoesNewerWrite(url: string, contents: Contents, older: Incident, newer: Incident)
    requires older.guid == newer.guid && older != newer
    ensures var guid := older.guid;
            var steps := [WriteOne(url, Update(guid, older), Rejected(Untouched))]
                       + [WriteOne(url, Update(guid, newer), Accepted)] + [Snapshot] + [ReplayOne(Accepted)];
            var end := Run(Start(map[url := contents]), steps);
            LeftBehind(end, url, contents, older, newer)
  {
    var guid := older.guid;
    var a, b := Update(guid, older), Update(guid, newer);
    var s1, s2 := WriteOne(url, a, Rejected(Untouched)), WriteOne(url, b, Accepted);
    var issued1, issued2 := [Issue(url, a, false)], [Issue(url, a, false), Issue(url, b, true)];
    var after := map[url := Apply(b, contents)];
    LiveOfTwo();
    var w0 := Start(map[url := contents]);
    var w1 := World(map[url := contents], issued1, [0], {}, [], []);
    var w2 := World(after, issued2, [0], {}, [], [1]);
    var w3 := w2.(todo := [0]);
    var w4 := World(map[url := Apply(a, Apply(b, contents))], issued2, [0], {0}, [], [1, 0]);
    MissedWrite(w0, url, a);
    RunAppend(w0, [], s1);
    assert [] + [s1] == [s1] && Run(w0, [s1]) == w1;
    assert w1.stores[url := Apply(b, contents)] == after;
    RunAppend(w0, [s1], s2);
    assert Run(w0, [s1] + [s2]) == w2;
    RunAppend(w0, [s1] + [s2], Snapshot);
    assert Run(w0, [s1] + [s2] + [Snapshot]) == w3;
    TakenReplay(w3, url, Apply(b, contents), 0, false, a);
    RunAppend(w0, [s1] + [s2] + [Snapshot], ReplayOne(Accepted));
    LeftWithOlder(w4, url, contents, older, newer, true);
  }

  ghost function Missed(op: Op, url: string): Step {
    WriteOne(url, op, Rejected(Untouched))
  }

  lemma TwoMissed(url: string, contents: Contents, a: Op, b: Op)
    ensures Run(Start(map[url := contents]), [Missed(a, url)] + [Missed(b, url)] + [Snapshot])
         == World(map[url := contents], [Issue(url, a, false), Issue(url, b, false)], [0, 1], {}, [0, 1], [])
  {
    LiveOfTwo();
    var w0 := Start(map[url := contents]);
    var w1 := World(map[url := contents], [Issue(url, a, false)], [0], {}, [], []);
    var w2 := World(map[url := contents], [Issue(url, a, false), Issue(url, b, false)], [0, 1], {}, [], []);
    MissedWrite(w0, url, a);
    RunAppend(w0, [], Missed(a, url));
    assert [] + [Missed(a, url)] == [Missed(a, url)];
    MissedWrite(w1, url, b);
    RunAppend(w0, [Missed(a, url)], Missed(b, url));
    RunAppend(w0, [Missed(a, url)] + [Missed(b, url)], Snapshot);
  }

  /** The older of two records fails once more, the newer succeeds. */
  lemma PartialPass(url: string, contents: Contents, a: Op, b: Op)
    ensures Run(Start(map[url := contents]), [Missed(a, url)] + [Missed(b, url)] + [Snapshot]
                  + [ReplayOne(Rejected(Untouched))] + [ReplayOne(Accepted)])
         == World(map[url := Apply(b, contents)], [Issue(url, a, false), Issue(url, b, false)], [0, 1], {1}, [], [1])
  {
    TwoMissed(url, contents, a, b);
    var w0 := Start(map[url := contents]);
    var w3 := World(map[url := contents], [Issue(url, a, false), Issue(url, b, false)], [0, 1], {}, [0, 1], []);
    var w4 := w3.(todo := [1]);
    var w5 := w3.(stores := map[url := Apply(b, contents)], done := {1}, todo := [], applied := [1]);
    MissedReplay(w3);
    TakenReplay(w4, url, contents, 1, false, b);
    var steps := [Missed(a, url)] + [Missed(b, url)] + [Snapshot];
    RunAppend(w0, steps, ReplayOne(Rejected(Untouched)));
    RunAppend(w0, steps + [ReplayOne(Rejected(Untouched))], ReplayOne(Accepted));
  }

  /** Two records for one incident, the older of which fails once more while the newer succeeds:
    * the next pass puts the older incident back. */
  lemma PartialPassSwapsRecords(url: string, contents: Contents, older: Incident, newer: Incident)
    requires older.guid == newer.guid && older != newer
    ensures var a, b := Update(older.guid, older), Update(older.guid, newer);
            var steps := [Missed(a, url)] + [Missed(b, url)] + [Snapshot]
                       + [ReplayOne(Rejected(Untouched))] + [ReplayOne(Accepted)]
                       + [Snapshot] + [ReplayOne(Accepted)];
            LeftBehind(Run(Start(map[url := contents]), steps), url, contents, older, newer)
  {
    var a, b := Update(older.guid, older), Update(older.guid, newer);
    PartialPass(url, contents, a, b);
    LiveOfTwo();
    var w0 := Start(map[url := contents]);
    var w5 := World(map[url := Apply(b, contents)], [Issue(url, a, false), Issue(url, b, false)], [0, 1], {1}, [], [1]);
    var w6 := w5.(todo := [0]);
    var w7 := w5.(stores := map[url := Apply(a, Apply(b, contents))], done := {0, 1}, applied := [1, 0]);
    TakenReplay(w6, url, Apply(b, contents), 0, false, a);
    assert {1} + {0} == {0, 1};
    var steps := [Missed(a, url)] + [Missed(b, url)] + [Snapshot]
               + [ReplayOne(Rejected(Untouched))] + [ReplayOne(Accepted)];
    RunAppend(w0, steps, Snapshot);
    RunAppend(w0, steps + [Snapshot], ReplayOne(Accepted));
    LeftWithOlder(w7, url, contents, older, newer, false);
  }
}

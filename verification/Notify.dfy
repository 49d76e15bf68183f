/** notifiers/manager.go, config/types.go: who is told of an event, and when the next event is taken. */
module Notify {
  import opened Models
  import Seqs

  // ---- config.ForComponent

  datatype ForComponent = ForComponent(requireAll: bool, groups: seq<string>, names: seq<string>)

  predicate NoFilter(lm: ForComponent) {
    lm.groups == [] && lm.names == []
  }

  /** Any, or all, of the groups and names listed are the component's. */
  predicate MatchesOne(lm: ForComponent, c: Component) {
    NoFilter(lm)
    || if lm.requireAll then
         (forall g :: g in lm.groups ==> g == c.group) && (forall n :: n in lm.names ==> n == c.name)
       else c.group in lm.groups || c.name in lm.names
  }

  /** Any, or all, of the components match. A filter never matches an event without components. */
  predicate Matches(lm: ForComponent, components: seq<Component>) {
    NoFilter(lm)
    || if lm.requireAll then components != [] && forall c :: c in components ==> MatchesOne(lm, c)
       else exists c :: c in components && MatchesOne(lm, c)
  }

  method MatchComponent(lm: ForComponent, c: Component) returns (match_: bool)
    ensures match_ == MatchesOne(lm, c)
    ensures match_ <==>
      || (lm.groups == [] && lm.names == [])
      || (lm.requireAll && (forall g :: g in lm.groups ==> g == c.group) && (forall n :: n in lm.names ==> n == c.name))
      || (!lm.requireAll && (c.group in lm.groups || c.name in lm.names))
  {
    if |lm.groups| == 0 && |lm.names| == 0 {
      return true;
    }
    match_ := false;
    for i := 0 to |lm.groups|
      invariant i > 0 ==> match_ == lm.requireAll
      invariant lm.requireAll ==> forall j :: 0 <= j < i ==> lm.groups[j] == c.group
      invariant !lm.requireAll ==> forall j :: 0 <= j < i ==> lm.groups[j] != c.group
    {
      assert lm.groups[i] in lm.groups;
      match_ := lm.groups[i] == c.group;
      if !match_ && lm.requireAll {
        return false;
      }
      if match_ && !lm.requireAll {
        return true;
      }
    }
    for i := 0 to |lm.names|
      invariant i > 0 || |lm.groups| > 0 ==> match_ == lm.requireAll
      invariant lm.requireAll ==> forall j :: 0 <= j < i ==> lm.names[j] == c.name
      invariant !lm.requireAll ==> forall j :: 0 <= j < i ==> lm.names[j] != c.name
    {
      assert lm.names[i] in lm.names;
      match_ := lm.names[i] == c.name;
      if !match_ && lm.requireAll {
        return false;
      }
      if match_ && !lm.requireAll {
        return true;
      }
    }
  }

  method MatchComponents(lm: ForComponent, components: seq<Component>) returns (match_: bool)
    ensures match_ == Matches(lm, components)
    ensures lm.groups == [] && lm.names == [] ==> match_
    ensures lm.groups != [] || lm.names != [] ==>
      (match_ <==>
         if lm.requireAll then
           components != [] && forall c :: c in components ==>
             (forall g :: g in lm.groups ==> g == c.group) && (forall n :: n in lm.names ==> n == c.name)
         else exists c :: c in components && (c.group in lm.groups || c.name in lm.names))
  {
    if |lm.groups| == 0 && |lm.names| == 0 {
      return true;
    }
    match_ := false;
    for i := 0 to |components|
      invariant i > 0 ==> match_ == lm.requireAll
      invariant i == 0 ==> !match_
      invariant forall j :: 0 <= j < i ==> MatchesOne(lm, components[j]) == lm.requireAll
    {
      match_ := MatchComponent(lm, components[i]);
      if !match_ && lm.requireAll {
        return false;
      }
      if match_ && !lm.requireAll {
        return true;
      }
    }
  }

  // ---- Notify, its spawned calls, and the wait group

  /** The call of one notifier for one event, both by position. */
  datatype Call = Call(event: nat, notifier: nat)

  datatype Mark = Started(call: Call) | Returned(call: Call)

  /** Where the loop is: waiting for an event, deciding about a notifier, or waiting for the calls. */
  datatype Phase = Receiving | Deciding(notifier: nat) | Waiting

  datatype World = World(
    taken: nat,           // how many events the loop has received
    phase: Phase,
    counter: int,         // the wait group
    spawned: set<Call>,   // goroutines that have not called their notifier yet
    running: set<Call>,   // calls that have not returned
    log: seq<Mark>)

  datatype Step = Receive | Decide | Wake | Start(call: Call) | Return(call: Call)

  /** How many notifiers there are, and which calls their filters ask for. */
  datatype Setup = Setup(notifiers: nat, asks: Call -> bool)

  /** The filters, in registration order, and the components each event is about. */
  function SetupOf(filters: seq<ForComponent>, events: nat -> seq<Component>): Setup {
    Setup(|filters|, (c: Call) => c.notifier < |filters| && Matches(filters[c.notifier], events(c.event)))
  }

  predicate Chosen(s: Setup, c: Call) {
    c.notifier < s.notifiers && s.asks(c)
  }

  /** The loop's steps, and those of the goroutines, in any order; an impossible step does nothing. */
  function Next(s: Setup, w: World, step: Step): World {
    match step
    case Receive =>
      if w.phase == Receiving && s.notifiers > 0 then w.(taken := w.taken + 1, phase := Deciding(0)) else w
    case Decide =>
      if w.phase.Deciding? && w.taken > 0 then
        if w.phase.notifier < s.notifiers then
          var call := Call(w.taken - 1, w.phase.notifier);
          var w' := w.(phase := Deciding(w.phase.notifier + 1));
          if Chosen(s, call) then w'.(counter := w.counter + 1, spawned := w.spawned + {call}) else w'
        else w.(phase := Waiting)
      else w
    case Wake =>
      if w.phase == Waiting && w.counter == 0 then w.(phase := Receiving) else w
    case Start(call) =>
      if call in w.spawned then
        w.(spawned := w.spawned - {call}, running := w.running + {call}, log := w.log + [Started(call)])
      else w
    case Return(call) =>
      if call in w.running then
        w.(running := w.running - {call}, counter := w.counter - 1, log := w.log + [Returned(call)])
      else w
  }

  const START := World(0, Receiving, 0, {}, {}, [])

  function Run(s: Setup, steps: seq<Step>): World {
    if steps == [] then START else Next(s, Run(s, steps[..|steps| - 1]), steps[|steps| - 1])
  }

  /** The loop has decided to make the call. */
  ghost predicate Due(s: Setup, w: World, c: Call) {
    && Chosen(s, c) && c.event < w.taken
    && (c.event == w.taken - 1 && w.phase.Deciding? ==> c.notifier < w.phase.notifier)
  }

  ghost predicate Counted(s: Setup, w: World, c: Call) {
    && multiset(w.log)[Started(c)] == (if Due(s, w, c) && c !in w.spawned then 1 else 0)
    && multiset(w.log)[Returned(c)] == (if Due(s, w, c) && c !in w.spawned && c !in w.running then 1 else 0)
  }

  /** At position `p` the call of an event starts when all calls of earlier events have returned. */
  ghost predicate Barred(s: Setup, log: seq<Mark>, p: nat)
    requires p < |log|
  {
    log[p].Started? ==>
      forall c: Call :: Chosen(s, c) && c.event < log[p].call.event ==> Returned(c) in log[..p]
  }

  /** Who is held by the wait group. */
  ghost predicate Held(s: Setup, w: World) {
    && w.counter == |w.spawned| + |w.running|
    && w.spawned !! w.running
    && (forall c :: c in w.spawned || c in w.running ==> Due(s, w, c) && c.event == w.taken - 1)
    && (w.phase == Receiving ==> w.counter == 0)
    && (w.phase != Receiving ==> w.taken > 0)
  }

  ghost predicate Tallied(s: Setup, w: World) {
    forall c: Call :: Counted(s, w, c)
  }

  ghost predicate AllBarred(s: Setup, log: seq<Mark>) {
    forall p :: 0 <= p < |log| ==> Barred(s, log, p)
  }

  ghost predicate Inv(s: Setup, w: World) {
    Held(s, w) && Tallied(s, w) && AllBarred(s, w.log)
  }

  lemma Quiet(s: Setup, w: World)
    requires Held(s, w) && w.counter == 0
    ensures w.spawned == {} && w.running == {}
  {
  }

  /** The same calls have been made and are waiting to be made, or the call just came due is. */
  ghost predicate SameButNew(s: Setup, w: World, w': World, c: Call) {
    if Due(s, w', c) && !Due(s, w, c) then c !in w.spawned && c in w'.spawned
    else (Due(s, w', c) <==> Due(s, w, c)) && (c in w'.spawned <==> c in w.spawned)
  }

  lemma SameCounts(s: Setup, w: World, w': World)
    requires Tallied(s, w) && w'.log == w.log && w'.running == w.running
    requires forall c: Call :: SameButNew(s, w, w', c)
    ensures Tallied(s, w')
  {
    forall c: Call
      ensures Counted(s, w', c)
    {
      assert Counted(s, w, c) && SameButNew(s, w, w', c);
    }
  }

  lemma ReceiveKeepsInv(s: Setup, w: World)
    requires Inv(s, w)
    ensures Inv(s, Next(s, w, Receive))
  {
    if w.phase == Receiving {
      Quiet(s, w);
    }
    SameCounts(s, w, Next(s, w, Receive));
  }

  lemma DecideKeepsInv(s: Setup, w: World)
    requires Inv(s, w) && w.phase.Deciding?
    ensures Inv(s, Next(s, w, Decide))
  {
    var call := Call(w.taken - 1, w.phase.notifier);
    assert !Due(s, w, call);
    assert call !in w.spawned && call !in w.running;
    SameCounts(s, w, Next(s, w, Decide));
  }

  lemma WakeKeepsInv(s: Setup, w: World)
    requires Inv(s, w)
    ensures Inv(s, Next(s, w, Wake))
  {
    SameCounts(s, w, Next(s, w, Wake));
  }

  lemma LoopKeepsInv(s: Setup, w: World, step: Step)
    requires Inv(s, w) && (step.Receive? || step.Decide? || step.Wake?)
    ensures Inv(s, Next(s, w, step))
  {
    if step.Receive? {
      ReceiveKeepsInv(s, w);
    } else if step.Wake? {
      WakeKeepsInv(s, w);
    } else if w.phase.Deciding? {
      DecideKeepsInv(s, w);
    }
  }

  /** What one more mark does to the barrier. */
  lemma BarredMore(s: Setup, log: seq<Mark>, mark: Mark)
    requires AllBarred(s, log)
    requires mark.Started? ==> forall c: Call :: Chosen(s, c) && c.event < mark.call.event ==> Returned(c) in log
    ensures AllBarred(s, log + [mark])
  {
    forall p | 0 <= p < |log + [mark]|
      ensures Barred(s, log + [mark], p)
    {
      if p < |log| {
        assert Barred(s, log, p);
        assert (log + [mark])[..p] == log[..p];
      } else {
        assert (log + [mark])[..p] == log;
      }
    }
  }

  lemma GoroutineKeepsHeld(s: Setup, w: World, step: Step)
    requires Held(s, w) && (step.Start? || step.Return?)
    ensures Held(s, Next(s, w, step))
  {
    if step.Start? && step.call in w.spawned {
      assert step.call !in w.running;
    }
  }

  lemma GoroutineKeepsTally(s: Setup, w: World, step: Step)
    requires Held(s, w) && Tallied(s, w) && (step.Start? || step.Return?)
    ensures Tallied(s, Next(s, w, step))
  {
    var w' := Next(s, w, step);
    forall c: Call
      ensures Counted(s, w', c)
    {
      assert Counted(s, w, c);
      assert Due(s, w', c) <==> Due(s, w, c);
    }
  }

  /** Only calls for the latest event can still be under way. */
  lemma EarlierReturned(s: Setup, w: World, call: Call, c: Call)
    requires Held(s, w) && Tallied(s, w) && call in w.spawned
    requires Chosen(s, c) && c.event < call.event
    ensures Returned(c) in w.log
  {
    assert Counted(s, w, c) && Due(s, w, c);
    assert c !in w.spawned && c !in w.running;
    assert multiset(w.log)[Returned(c)] == 1;
  }

  lemma GoroutineKeepsInv(s: Setup, w: World, step: Step)
    requires Inv(s, w) && (step.Start? || step.Return?)
    ensures Inv(s, Next(s, w, step))
  {
    GoroutineKeepsHeld(s, w, step);
    GoroutineKeepsTally(s, w, step);
    if step.Start? && step.call in w.spawned {
      forall c: Call | Chosen(s, c) && c.event < step.call.event
        ensures Returned(c) in w.log
      {
        EarlierReturned(s, w, step.call, c);
      }
      BarredMore(s, w.log, Started(step.call));
    } else if step.Return? {
      BarredMore(s, w.log, Returned(step.call));
    }
  }

  lemma {:induction false} RunKeepsInv(s: Setup, steps: seq<Step>)
    ensures Inv(s, Run(s, steps))
  {
    if steps != [] {
      var w, step := Run(s, steps[..|steps| - 1]), steps[|steps| - 1];
      RunKeepsInv(s, steps[..|steps| - 1]);
      if step.Start? || step.Return? {
        GoroutineKeepsInv(s, w, step);
      } else {
        LoopKeepsInv(s, w, step);
      }
    }
  }

  /** The loop is done with the event. */
  predicate Done(w: World, event: nat) {
    event < w.taken && (event == w.taken - 1 ==> w.phase == Receiving)
  }

  /** In every interleaving, once the loop is done with an event each notifier whose filter matches it
    * has been called once and has returned, and no other has been called. */
  lemma ToldExactlyOnce(s: Setup, steps: seq<Step>, event: nat, notifier: nat)
    requires Done(Run(s, steps), event)
    ensures var log, c := multiset(Run(s, steps).log), Call(event, notifier);
            log[Started(c)] == log[Returned(c)] == if Chosen(s, c) then 1 else 0
  {
    RunKeepsInv(s, steps);
    var w, c := Run(s, steps), Call(event, notifier);
    assert Counted(s, w, c);
    if w.phase == Receiving {
      Quiet(s, w);
    }
  }

  /** In every interleaving, no call is made for an event before every call for the events before it
    * has returned; and at no moment has a notifier been called twice, or unasked, for one event. */
  lemma NoOverlap(s: Setup, steps: seq<Step>, p: nat)
    requires p < |Run(s, steps).log| && Run(s, steps).log[p].Started?
    ensures var log := Run(s, steps).log;
            && Chosen(s, log[p].call)
            && (forall c: Call :: Chosen(s, c) && c.event < log[p].call.event ==> Returned(c) in log[..p])
            && (forall q :: 0 <= q < |log| && log[q] == log[p] ==> q == p)
  {
    RunKeepsInv(s, steps);
    var w := Run(s, steps);
    var c := w.log[p].call;
    assert Barred(s, w.log, p);
    assert Counted(s, w, c);
    assert w.log[p] in multiset(w.log);
    forall q | 0 <= q < |w.log| && w.log[q] == w.log[p]
      ensures q == p
    {
      if q != p {
        Seqs.Twice(w.log, if p < q then p else q, if p < q then q else p);
      }
    }
  }

  /** In terms of the filters themselves. */
  lemma ToldByFilter(filters: seq<ForComponent>, events: nat -> seq<Component>, steps: seq<Step>, event: nat,
                     notifier: nat)
    requires Done(Run(SetupOf(filters, events), steps), event)
    ensures var log := multiset(Run(SetupOf(filters, events), steps).log);
            log[Started(Call(event, notifier))] ==
              if notifier < |filters| && Matches(filters[notifier], events(event)) then 1 else 0
  {
    ToldExactlyOnce(SetupOf(filters, events), steps, event, notifier);
  }

  // ---- the loop never hangs on its own

  /** How much is left to do for the event under way. */
  function Left(s: Setup, w: World): int {
    3 * PhasesLeft(s, w.phase) + 2 * |w.spawned| + |w.running|
  }

  function PhasesLeft(s: Setup, phase: Phase): int {
    match phase
    case Receiving => 0
    case Deciding(k) => s.notifiers + 2 - k
    case Waiting => 1
  }

  lemma SomeStep(s: Setup, w: World) returns (possible: Step)
    requires Inv(s, w) && w.phase != Receiving
    ensures Next(s, w, possible) != w
  {
    if w.phase.Deciding? {
      possible := Decide;
    } else if c :| c in w.spawned {
      possible := Start(c);
      assert c !in Next(s, w, possible).spawned;
    } else if c :| c in w.running {
      possible := Return(c);
      assert c !in Next(s, w, possible).running;
    } else {
      possible := Wake;
    }
  }

  lemma GoroutineStepCloser(s: Setup, w: World, step: Step)
    requires w.spawned !! w.running && (step.Start? || step.Return?)
    requires Next(s, w, step) != w
    ensures Left(s, Next(s, w, step)) == Left(s, w) - 1
  {
    Shrinks(w.spawned, step.call);
    Shrinks(w.running, step.call);
    if step.Start? {
      assert step.call in w.spawned && step.call !in w.running;
      assert Next(s, w, step).phase == w.phase;
    } else {
      assert step.call in w.running;
      assert Next(s, w, step).spawned == w.spawned;
    }
  }

  lemma LoopStepCloser(s: Setup, w: World, step: Step)
    requires Inv(s, w) && w.phase != Receiving && !step.Start? && !step.Return?
    requires w.phase.Deciding? ==> w.phase.notifier <= s.notifiers
    requires Next(s, w, step) != w
    ensures Left(s, Next(s, w, step)) < Left(s, w)
  {
    if step.Decide? && w.phase.notifier < s.notifiers {
      Shrinks(w.spawned, Call(w.taken - 1, w.phase.notifier));
    }
  }

  lemma NothingLess(s: Setup, w: World)
    requires w.phase.Deciding? ==> w.phase.notifier <= s.notifiers
    ensures Left(s, w) >= 0
  {
  }

  lemma EachStepCloser(s: Setup, w: World, step: Step)
    requires Inv(s, w) && w.phase != Receiving
    requires w.phase.Deciding? ==> w.phase.notifier <= s.notifiers
    requires Next(s, w, step) != w
    ensures 0 <= Left(s, Next(s, w, step)) < Left(s, w)
  {
    if step.Start? || step.Return? {
      GoroutineStepCloser(s, w, step);
    } else {
      LoopStepCloser(s, w, step);
    }
    NothingLess(s, Next(s, w, step));
  }

  lemma Shrinks(calls: set<Call>, call: Call)
    ensures call in calls ==> |calls - {call}| == |calls| - 1
    ensures call !in calls ==> |calls + {call}| == |calls| + 1
  {
  }

  /** Until the loop is back at its channel some step is possible, whatever happened before, and every
    * possible step brings it closer: with notifiers that return, each event is finished. */
  lemma {:induction false} EventEnds(s: Setup, steps: seq<Step>)
    requires Run(s, steps).phase != Receiving
    ensures exists possible :: Next(s, Run(s, steps), possible) != Run(s, steps)
    ensures forall step :: Next(s, Run(s, steps), step) != Run(s, steps) ==>
      0 <= Left(s, Next(s, Run(s, steps), step)) < Left(s, Run(s, steps))
  {
    RunKeepsInv(s, steps);
    DecidesWithin(s, steps);
    var possible := SomeStep(s, Run(s, steps));
    forall step | Next(s, Run(s, steps), step) != Run(s, steps)
      ensures 0 <= Left(s, Next(s, Run(s, steps), step)) < Left(s, Run(s, steps))
    {
      EachStepCloser(s, Run(s, steps), step);
    }
  }

  lemma {:induction false} DecidesWithin(s: Setup, steps: seq<Step>)
    ensures var w := Run(s, steps); w.phase.Deciding? ==> w.phase.notifier <= s.notifiers
  {
    if steps != [] {
      DecidesWithin(s, steps[..|steps| - 1]);
    }
  }
}

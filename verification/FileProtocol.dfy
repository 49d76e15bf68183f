/** The replication protocol over file stores behind their retry loops. */
module FileProtocol {
  import opened Wrappers
  import opened StoreSpec
  import opened Protocol
  import opened Files
  import opened Overtaking
  import Ideals
  import Disks
  import DiskRuns

  datatype Node = Node(kind: Disks.Kind, state: Disks.State)

  /** The stores by url, and the books of the replicate: a world of the protocol without its stores. */
  datatype Real = Real(nodes: map<string, Node>, books: World)

  type Attempts = n: nat | n > 0 witness 1

  /** The steps of the protocol; where one asks a store, what its disk does during each attempt and how many
    * there are at most. */
  datatype RealStep =
    | Write(url: string, op: Op, disks: nat -> Disks.Disk, n: Attempts)
    | Snapshot
    | Replay(disks: nat -> Disks.Disk, n: Attempts)
    | Clean

  ghost function Views(nodes: map<string, Node>): map<string, Contents> {
    map url | url in nodes :: Disks.View(nodes[url].kind, nodes[url].state)
  }

  /** The replicate sees of its stores what they show. */
  ghost function Seen(r: Real): World {
    r.books.(stores := Views(r.nodes))
  }

  function Try(node: Node, op: Op, disks: nat -> Disks.Disk, n: Attempts): (Node, Option<Error>) {
    var (t, err) := DiskRuns.Tried(node.kind, op, disks, 0, n, node.state);
    (Node(node.kind, t), err)
  }

  /** The record that is next in the pass. */
  predicate HasNext(r: Real) {
    && r.books.todo != [] && r.books.todo[0] < |r.books.issued|
    && r.books.issued[r.books.todo[0]].url in r.nodes
  }

  function RealNext(r: Real, step: RealStep): Real {
    var b := r.books;
    match step
    case Write(url, op, disks, n) =>
      if url in r.nodes then
        var (node, err) := Try(r.nodes[url], op, disks, n);
        Real(r.nodes[url := node],
             if err == None then b.(issued := b.issued + [Issue(url, op, true)], applied := b.applied + [|b.issued|])
             else b.(issued := b.issued + [Issue(url, op, false)], log := b.log + [|b.issued|]))
      else r
    case Snapshot =>
      if b.todo == [] then r.(books := b.(todo := Live(b.log, b.done))) else r
    case Replay(disks, n) =>
      if HasNext(r) then
        var id := b.todo[0];
        var Issue(url, op, _) := b.issued[id];
        var (node, err) := Try(r.nodes[url], op, disks, n);
        Real(r.nodes[url := node],
             if err == None then b.(done := b.done + {id}, todo := b.todo[1..], applied := b.applied + [id])
             else b.(todo := b.todo[1..]))
      else r
    case Clean =>
      r.(books := b.(log := Live(b.log, b.done)))
  }

  function RealRun(r: Real, steps: seq<RealStep>): Real {
    if steps == [] then r else RealNext(RealRun(r, steps[..|steps| - 1]), steps[|steps| - 1])
  }

  ghost predicate GoodNodes(nodes: map<string, Node>) {
    forall url :: url in nodes ==> Disks.Good(nodes[url].state)
  }

  /** Every state is good, and every write ever issued can be put in a file. */
  ghost predicate Good(r: Real) {
    && GoodNodes(r.nodes)
    && (forall id :: 0 <= id < |r.books.issued| ==> Disks.Fits(r.books.issued[id].op))
  }

  /** The application asks for nothing else, and the effort the step takes neither loses a write with its
    * last attempt, nor forgets subscribers, nor fails with an older incident lying open. */
  predicate StepSound(r: Real, step: RealStep) {
    match step
    case Write(url, op, disks, n) =>
      Disks.Fits(op) && (url in r.nodes ==> DiskRuns.Sound(r.nodes[url].kind, op, disks, n, r.nodes[url].state))
    case Replay(disks, n) =>
      HasNext(r) ==>
        var Issue(url, op, _) := r.books.issued[r.books.todo[0]];
        DiskRuns.Sound(r.nodes[url].kind, op, disks, n, r.nodes[url].state)
    case _ => true
  }

  ghost predicate AllSound(r: Real, steps: seq<RealStep>) {
    steps != [] ==> AllSound(r, steps[..|steps| - 1]) && StepSound(RealRun(r, steps[..|steps| - 1]), steps[|steps| - 1])
  }

  /** The step of the protocol is this one, the outcome being what the store reported. */
  predicate Mirrors(r: Real, taken: RealStep, step: Step) {
    match taken
    case Write(url, op, disks, n) =>
      && step.WriteOne? && step.url == url && step.op == op
      && (url in r.nodes ==> (step.outcome == Accepted <==> Try(r.nodes[url], op, disks, n).1 == None))
    case Snapshot => step.Snapshot?
    case Replay(disks, n) =>
      && step.ReplayOne?
      && (HasNext(r) ==>
            var Issue(url, op, _) := r.books.issued[r.books.todo[0]];
            step.outcome == Accepted <==> Try(r.nodes[url], op, disks, n).1 == None)
    case Clean => step.Clean?
  }

  lemma {:induction false} TriedKeepsGood(kind: Disks.Kind, op: Op, disks: nat -> Disks.Disk, i: nat, n: nat,
                                          s: Disks.State)
    requires i < n && Disks.Good(s) && Disks.Fits(op)
    ensures Disks.Good(DiskRuns.Tried(kind, op, disks, i, n, s).0)
    decreases n - i
  {
    Disks.NextKeepsGood(kind, op, disks(i), s);
    var (t, err) := Disks.Next(kind, op, disks(i), s);
    if err == Some(Failed) && i < n - 1 {
      TriedKeepsGood(kind, op, disks, i + 1, n, t);
    }
  }

  /** A sound effort ends in one outcome of the protocol. */
  lemma TryLands(node: Node, op: Op, disks: nat -> Disks.Disk, n: Attempts) returns (outcome: Outcome)
    requires Disks.Good(node.state) && Disks.Fits(op) && DiskRuns.Sound(node.kind, op, disks, n, node.state)
    ensures var (after, err) := Try(node, op, disks, n);
            && Disks.Good(after.state) && (outcome == Accepted <==> err == None)
            && Disks.View(node.kind, after.state) == Land(op, outcome, Disks.View(node.kind, node.state))
  {
    DiskRuns.TriedLandsExactly(node.kind, op, disks, n, node.state);
    TriedKeepsGood(node.kind, op, disks, 0, n, node.state);
    var (t, err) := DiskRuns.Tried(node.kind, op, disks, 0, n, node.state);
    outcome := DiskRuns.TheOutcome(op, err, Disks.View(node.kind, node.state), Disks.View(node.kind, t));
  }

  lemma OneNode(nodes: map<string, Node>, url: string, node: Node)
    requires url in nodes && GoodNodes(nodes) && Disks.Good(node.state) && node.kind == nodes[url].kind
    ensures GoodNodes(nodes[url := node])
    ensures Views(nodes[url := node]) == Views(nodes)[url := Disks.View(node.kind, node.state)]
  {
  }

  /** The store at `url` after the effort, as the protocol sees it. */
  lemma TryAt(r: Real, url: string, op: Op, disks: nat -> Disks.Disk, n: Attempts) returns (outcome: Outcome)
    requires GoodNodes(r.nodes) && url in r.nodes && Disks.Fits(op)
    requires DiskRuns.Sound(r.nodes[url].kind, op, disks, n, r.nodes[url].state)
    ensures var (node, err) := Try(r.nodes[url], op, disks, n);
            && GoodNodes(r.nodes[url := node]) && (outcome == Accepted <==> err == None)
            && Views(r.nodes[url := node]) == Views(r.nodes)[url := Land(op, outcome, Views(r.nodes)[url])]
  {
    outcome := TryLands(r.nodes[url], op, disks, n);
    OneNode(r.nodes, url, Try(r.nodes[url], op, disks, n).0);
  }

  lemma WriteIsWrite(r: Real, url: string, op: Op, disks: nat -> Disks.Disk, n: Attempts) returns (outcome: Outcome)
    requires Good(r) && StepSound(r, Write(url, op, disks, n))
    ensures Good(RealNext(r, Write(url, op, disks, n)))
    ensures url in r.nodes ==> (outcome == Accepted <==> Try(r.nodes[url], op, disks, n).1 == None)
    ensures Seen(RealNext(r, Write(url, op, disks, n))) == Next(Seen(r), WriteOne(url, op, outcome))
  {
    if url in r.nodes {
      outcome := TryAt(r, url, op, disks, n);
    } else {
      outcome := Accepted;
    }
  }

  lemma ReplayIsReplay(r: Real, disks: nat -> Disks.Disk, n: Attempts) returns (outcome: Outcome)
    requires Good(r) && StepSound(r, Replay(disks, n))
    ensures Good(RealNext(r, Replay(disks, n)))
    ensures Mirrors(r, Replay(disks, n), ReplayOne(outcome))
    ensures Seen(RealNext(r, Replay(disks, n))) == Next(Seen(r), ReplayOne(outcome))
  {
    if HasNext(r) {
      var Issue(url, op, _) := r.books.issued[r.books.todo[0]];
      outcome := TryAt(r, url, op, disks, n);
    } else {
      outcome := Accepted;
    }
  }

  lemma StepIsStep(r: Real, taken: RealStep) returns (step: Step)
    requires Good(r) && StepSound(r, taken)
    ensures Good(RealNext(r, taken)) && Mirrors(r, taken, step)
    ensures Seen(RealNext(r, taken)) == Next(Seen(r), step)
  {
    match taken
    case Write(url, op, disks, n) =>
      var outcome := WriteIsWrite(r, url, op, disks, n);
      step := WriteOne(url, op, outcome);
    case Snapshot =>
      step := Protocol.Snapshot;
    case Replay(disks, n) =>
      var outcome := ReplayIsReplay(r, disks, n);
      step := ReplayOne(outcome);
    case Clean =>
      step := Protocol.Clean;
  }

  /** A run of writes, passes, replays and the cleaner over directories and buckets behind their retry loops,
    * each on a disk of its own that fails as it likes: where no effort loses, forgets or ends open, it is a
    * run of the protocol, step for step, whose stores are what the files show. */
  lemma {:induction false} RunIsRun(r: Real, taken: seq<RealStep>) returns (steps: seq<Step>)
    requires Good(r) && AllSound(r, taken)
    ensures Good(RealRun(r, taken)) && |steps| == |taken|
    ensures forall i :: 0 <= i < |taken| ==> Mirrors(RealRun(r, taken[..i]), taken[i], steps[i])
    ensures Seen(RealRun(r, taken)) == Run(Seen(r), steps)
  {
    if taken == [] {
      steps := [];
    } else {
      var last := |taken| - 1;
      var front := RunIsRun(r, taken[..last]);
      var step := StepIsStep(RealRun(r, taken[..last]), taken[last]);
      steps := front + [step];
      RunAppend(Seen(r), front, step);
      forall i | 0 <= i < |taken|
        ensures Mirrors(RealRun(r, taken[..i]), taken[i], steps[i])
      {
        if i < last {
          assert taken[..last][..i] == taken[..i];
        }
      }
    }
  }

  /** So everything proved of the protocol holds of the files: a store no record waits for shows what one
    * that was never down would, exactly when no replay spoiled a key. */
  lemma {:induction false} FilesConverge(nodes: map<string, Node>, taken: seq<RealStep>, url: string)
    returns (steps: seq<Step>)
    requires forall u :: u in nodes ==> nodes[u].state == Disks.EMPTY
    requires var r := Real(nodes, Start(map[]));
             AllSound(r, taken) && url in nodes && Ideals.Drained(Seen(RealRun(r, taken)), url)
    ensures var r := Real(nodes, Start(map[]));
            var end := Seen(RealRun(r, taken));
            && |steps| == |taken|
            && (forall i :: 0 <= i < |taken| ==> Mirrors(RealRun(r, taken[..i]), taken[i], steps[i]))
            && end == Run(Start(Seen(r).stores), steps) && url in end.stores && url in Seen(r).stores
            && (end.stores[url] == Ideals.Ideal(end, url, map[])
                <==> forall n: nat :: n < |steps| ==> !Spoils(Seen(r).stores, steps, url, n))
  {
    var r := Real(nodes, Start(map[]));
    steps := RunIsRun(r, taken);
    assert Seen(r) == Start(Seen(r).stores);
    assert Disks.View(nodes[url].kind, Disks.EMPTY) == map[];
    ConvergesUnlessSpoiled(Seen(r).stores, steps, url);
  }
}

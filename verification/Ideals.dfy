/** The store that was never down, and where a store agrees with it. */
module Ideals {
  import opened StoreSpec
  import opened Protocol

  /** The writes issued to `url`, in order. */
  function IssuedTo(issued: seq<Issue>, url: string): seq<Op> {
    if issued == [] then []
    else
      var last := issued[|issued| - 1];
      IssuedTo(issued[..|issued| - 1], url) + if last.url == url then [last.op] else []
  }

  /** A store that held `start` and was never down. */
  function Ideal(w: World, url: string, start: Contents): Contents {
    Fold(start, IssuedTo(w.issued, url))
  }

  predicate At(issued: seq<Issue>, url: string, key: Key, id: nat) {
    id < |issued| && issued[id].url == url && KeyOf(issued[id].op) == key
  }

  /** No later write to the same store touches the key of write `id`. */
  ghost predicate IsLastAt(issued: seq<Issue>, url: string, key: Key, id: nat) {
    At(issued, url, key, id) && forall j: nat :: id < j < |issued| ==> !At(issued, url, key, j)
  }

  ghost predicate LiveOn(w: World, url: string, id: nat) {
    IsLive(w, id) && id < |w.issued| && w.issued[id].url == url
  }

  /** The next record of the pass is for `url`. */
  predicate HeadAt(w: World, url: string) {
    w.todo != [] && Known(w, w.todo[0]) && w.issued[w.todo[0]].url == url
  }

  /** No record waits for this key of this store. */
  ghost predicate Clear(w: World, url: string, key: Key) {
    forall id: nat :: LiveOn(w, url, id) ==> KeyOf(w.issued[id].op) != key
  }

  ghost predicate Drained(w: World, url: string) {
    forall id: nat :: !LiveOn(w, url, id)
  }

  ghost predicate AgreesAt(w: World, url: string, start: Contents, key: Key)
    requires url in w.stores
  {
    Look(w.stores[url], key) == Look(Ideal(w, url, start), key)
  }

  lemma IdealAppend(w: World, w': World, url: string, start: Contents, issue: Issue)
    requires w'.issued == w.issued + [issue]
    ensures Ideal(w', url, start)
         == if issue.url == url then Apply(issue.op, Ideal(w, url, start)) else Ideal(w, url, start)
  {
    assert w'.issued[..|w.issued|] == w.issued;
    if issue.url == url {
      FoldAppend(start, IssuedTo(w.issued, url), issue.op);
    } else {
      assert IssuedTo(w'.issued, url) == IssuedTo(w.issued, url);
    }
  }

  /** The last write at a key decides what an ideal store holds there. */
  lemma {:induction false} IdealAtLast(w: World, url: string, start: Contents, key: Key, id: nat)
    requires IsLastAt(w.issued, url, key, id)
    ensures Look(Ideal(w, url, start), key) == ValueOf(w.issued[id].op)
    decreases |w.issued|
  {
    var n := |w.issued| - 1;
    var front := w.(issued := w.issued[..n]);
    assert w.issued == front.issued + [w.issued[n]];
    IdealAppend(front, w, url, start, w.issued[n]);
    if w.issued[n].url == url {
      LookApply(w.issued[n].op, Ideal(front, url, start), key);
    }
    if id < n {
      assert !At(w.issued, url, key, n);
      assert forall j: nat :: id < j < n ==> (At(front.issued, url, key, j) <==> At(w.issued, url, key, j));
      IdealAtLast(front, url, start, key, id);
    }
  }
}

/** Sequences that gain or lose one element, and sorting. */
module Seqs {
  lemma Inserted<T>(s: seq<T>, k: nat, x: T)
    requires k <= |s|
    ensures multiset(s[..k] + [x] + s[k..]) == multiset(s) + multiset{x}
  {
    assert s == s[..k] + s[k..];
  }

  lemma Dropped<T>(s: seq<T>, k: nat)
    requires k < |s|
    ensures multiset(s) == multiset(s[..k] + s[k + 1..]) + multiset{s[k]}
  {
    assert s == s[..k] + [s[k]] + s[k + 1..];
  }

  lemma CountLast<T>(s: seq<T>, x: T)
    requires s != []
    ensures multiset(s)[x] == multiset(s[..|s| - 1])[x] + if s[|s| - 1] == x then 1 else 0
  {
    assert s == s[..|s| - 1] + [s[|s| - 1]];
  }

  lemma CountMore<T>(s: seq<T>, more: seq<T>, x: T)
    ensures multiset(s + more)[x] == multiset(s)[x] + multiset(more)[x]
  {
  }

  lemma Twice<T>(s: seq<T>, i: nat, j: nat)
    requires i < j < |s| && s[i] == s[j]
    ensures multiset(s)[s[i]] >= 2
  {
    assert s == s[..j] + [s[j]] + s[j + 1..];
    assert s[i] in s[..j];
  }

  lemma {:induction false} Once<T>(s: seq<T>, x: T)
    requires forall i, j :: 0 <= i < j < |s| ==> s[i] != s[j]
    ensures multiset(s)[x] <= 1
  {
    if s != [] {
      Once(s[..|s| - 1], x);
      assert s == s[..|s| - 1] + [s[|s| - 1]];
    }
  }

  /** At how many places of the sequence `x` stands where `ok` holds of the place. */
  ghost function Places<T(!new)>(s: seq<T>, x: T, ok: nat -> bool): nat {
    |set i: nat | i < |s| && s[i] == x && ok(i)|
  }

  lemma PlacesLast<T(!new)>(s: seq<T>, x: T, ok: nat -> bool)
    requires s != []
    ensures Places(s, x, ok) == Places(s[..|s| - 1], x, ok) + if s[|s| - 1] == x && ok(|s| - 1) then 1 else 0
  {
    var n := |s| - 1;
    var before := set i: nat | i < n && s[..n][i] == x && ok(i);
    var all := set i: nat | i < |s| && s[i] == x && ok(i);
    assert n !in before;
    assert all == before + if s[n] == x && ok(n) then {n} else {};
  }

  lemma PlacesSame<T(!new)>(s: seq<T>, x: T, p: nat -> bool, q: nat -> bool)
    requires forall i: nat :: i < |s| && s[i] == x ==> p(i) == q(i)
    ensures Places(s, x, p) == Places(s, x, q)
  {
    assert (set i: nat | i < |s| && s[i] == x && p(i)) == (set i: nat | i < |s| && s[i] == x && q(i));
  }

  lemma {:induction false} PlacesAll<T(!new)>(s: seq<T>, x: T, ok: nat -> bool)
    requires forall i: nat :: i < |s| && s[i] == x ==> ok(i)
    ensures Places(s, x, ok) == multiset(s)[x]
  {
    if s != [] {
      PlacesLast(s, x, ok);
      CountLast(s, x);
      PlacesAll(s[..|s| - 1], x, ok);
    }
  }

  lemma PlacesNone<T(!new)>(s: seq<T>, x: T, ok: nat -> bool)
    requires forall i: nat :: i < |s| && s[i] == x ==> !ok(i)
    ensures Places(s, x, ok) == 0
  {
    assert (set i: nat | i < |s| && s[i] == x && ok(i)) == {};
  }

  /** Of what occurs once there is one place. */
  lemma PlacesOnce<T(!new)>(s: seq<T>, x: T, ok: nat -> bool, k: nat)
    requires k < |s| && s[k] == x && multiset(s)[x] == 1
    ensures Places(s, x, ok) == if ok(k) then 1 else 0
  {
    forall i: nat | i < |s| && s[i] == x
      ensures i == k
    {
      if i != k {
        Twice(s, if i < k then i else k, if i < k then k else i);
      }
    }
    assert (set i: nat | i < |s| && s[i] == x && ok(i)) == if ok(k) then {k} else {};
  }

  lemma Cancel<T>(m: multiset<T>, n: multiset<T>, x: T)
    requires m + multiset{x} == n + multiset{x}
    ensures m == n
  {
    forall y
      ensures m[y] == n[y]
    {
      assert (m + multiset{x})[y] == (n + multiset{x})[y];
    }
  }

  /** Two sequences with the same elements still have the same elements when one occurrence of `b`'s
    * head is dropped from each. */
  lemma DroppedFromBoth<T>(a: seq<T>, i: nat, b: seq<T>)
    requires i < |a| && b != [] && a[i] == b[0] && multiset(a) == multiset(b)
    ensures multiset(a[..i] + a[i + 1..]) == multiset(b[1..])
  {
    Dropped(a, i);
    Dropped(b, 0);
    assert b[..0] + b[1..] == b[1..];
    Cancel(multiset(a[..i] + a[i + 1..]), multiset(b[1..]), b[0]);
  }

  lemma SameMembers<T>(a: seq<T>, b: seq<T>)
    requires multiset(a) == multiset(b)
    ensures |a| == |b|
    ensures forall x :: x in a <==> x in b
  {
    forall x
      ensures x in a <==> x in b
    {
      assert x in multiset(a) <==> x in multiset(b);
    }
    assert |multiset(a)| == |multiset(b)|;
  }

  // ---- sort.Sort

  ghost predicate Ascending<T>(s: seq<T>, key: T -> int) {
    forall i, j :: 0 <= i < j < |s| ==> key(s[i]) <= key(s[j])
  }

  lemma InsertedInOrder<T>(s: seq<T>, k: nat, x: T, key: T -> int)
    requires Ascending(s, key) && k <= |s|
    requires k > 0 ==> key(s[k - 1]) <= key(x)
    requires forall j :: k <= j < |s| ==> key(x) < key(s[j])
    ensures Ascending(s[..k] + [x] + s[k..], key)
  {
    var longer := s[..k] + [x] + s[k..];
    forall i, j | 0 <= i < j < |longer|
      ensures key(longer[i]) <= key(longer[j])
    {
      assert longer[i] == if i < k then s[i] else if i == k then x else s[i - 1];
      assert longer[j] == if j < k then s[j] else if j == k then x else s[j - 1];
    }
  }

  method Insert<T>(s: seq<T>, x: T, key: T -> int) returns (longer: seq<T>)
    requires Ascending(s, key)
    ensures Ascending(longer, key)
    ensures multiset(longer) == multiset(s) + multiset{x}
  {
    var k := |s|;
    while k > 0 && key(x) < key(s[k - 1])
      invariant 0 <= k <= |s|
      invariant forall j :: k <= j < |s| ==> key(x) < key(s[j])
    {
      k := k - 1;
    }
    longer := s[..k] + [x] + s[k..];
    Inserted(s, k, x);
    InsertedInOrder(s, k, x, key);
  }

  /** Sorting by a key. Which of several elements with one key comes first is left open, as Go's
    * sort.Sort leaves it. */
  method SortBy<T>(s: seq<T>, key: T -> int) returns (sorted: seq<T>)
    ensures Ascending(sorted, key)
    ensures multiset(sorted) == multiset(s)
  {
    sorted := [];
    for i := 0 to |s|
      invariant Ascending(sorted, key)
      invariant multiset(sorted) == multiset(s[..i])
    {
      assert s[..i + 1] == s[..i] + [s[i]];
      sorted := Insert(sorted, s[i], key);
    }
    assert s[..|s|] == s;
  }
}

/** storages/retry.go: a write is tried a bounded number of times. */
module RetryStore {
  import opened Wrappers
  import opened StoreSpec
  import opened Files

  /** What the next attempt at a store does: it takes the write, or it reports an error, hands back
    * something else than it was given, and may all the same have touched the key. */
  datatype Attempt = Accept | Reject(error: Error, effect: Effect, garbage: Op)

  /** A store and what is left of its oracle, as a value. */
  datatype State = State(oracle: nat -> Attempt, contents: Contents, calls: nat)

  /** Any store, its failures decided beforehand by an arbitrary oracle. A store that takes a write
    * hands back what it was given. */
  class Store {
    const oracle: nat -> Attempt
    var contents: Contents
    var calls: nat

    function Now(): State
      reads this
    {
      State(oracle, contents, calls)
    }

    constructor (oracle: nat -> Attempt, contents: Contents)
      ensures this.oracle == oracle && this.contents == contents && calls == 0
    {
      this.oracle := oracle;
      this.contents := contents;
      calls := 0;
    }

    method Write(op: Op) returns (ret: Op, err: Option<Error>)
      modifies this
      ensures calls == old(calls) + 1
      ensures oracle(old(calls)) == Accept ==>
        ret == op && err == None && contents == Apply(op, old(contents))
      ensures oracle(old(calls)).Reject? ==>
        && ret == oracle(old(calls)).garbage
        && err == Some(oracle(old(calls)).error)
        && contents == Smear(op, oracle(old(calls)).effect, old(contents))
    {
      var attempt := oracle(calls);
      calls := calls + 1;
      match attempt
      case Accept =>
        contents := Apply(op, contents);
        return op, None;
      case Reject(error, effect, garbage) =>
        contents := Smear(op, effect, contents);
        return garbage, Some(error);
    }
  }

  /** The attempt at call `k` fails in a way that is worth another one. */
  predicate Again(oracle: nat -> Attempt, k: nat) {
    oracle(k).Reject? && oracle(k).error != NotExist
  }

  /** How often `n` tries at most call the store, starting at call `at`: up to the first that is taken
    * or reports that the thing does not exist. */
  function Calls(oracle: nat -> Attempt, at: nat, n: nat): (calls: nat)
    ensures calls <= n && (n > 0 ==> calls > 0)
    ensures forall k: nat :: at <= k < at + calls - 1 ==> Again(oracle, k)
    ensures 0 < calls < n ==> !Again(oracle, at + calls - 1)
    decreases n
  {
    if n == 0 then 0
    else if Again(oracle, at) then 1 + Calls(oracle, at + 1, n - 1)
    else 1
  }

  /** The attempt that decides the outcome. */
  function Last(oracle: nat -> Attempt, at: nat, n: nat): Attempt
    requires n > 0
  {
    oracle(at + Calls(oracle, at, n) - 1)
  }

  predicate Takes(oracle: nat -> Attempt, at: nat, n: nat)
    requires n > 0
  {
    Last(oracle, at, n) == Accept
  }

  /** What the failed attempts leave behind together. */
  function Damage(oracle: nat -> Attempt, at: nat, k: nat): Effect {
    if k == 0 then Untouched
    else
      var before := Damage(oracle, at, k - 1);
      if oracle(at + k - 1).Reject? then Compose(before, oracle(at + k - 1).effect) else before
  }

  /** A write through the retry loop as a function: the store afterwards. */
  function Retried(op: Op, s: State, n: nat): (s': State)
    requires n > 0
    ensures s'.oracle == s.oracle
  {
    var used := Calls(s.oracle, s.calls, n);
    s.(contents := if Takes(s.oracle, s.calls, n) then Apply(op, s.contents)
                   else Smear(op, Damage(s.oracle, s.calls, used), s.contents),
       calls := s.calls + used)
  }

  class Retry {
    const next: Store
    const nbRetry: nat

    constructor (next: Store, nbRetry: nat)
      ensures this.next == next && this.nbRetry == nbRetry
    {
      this.next := next;
      this.nbRetry := nbRetry;
    }

    /** Create, Update, Delete, Subscribe and Unsubscribe are this loop. What a failing store hands back
      * is thrown away, so the caller always gets back what it passed. However many attempts failed and
      * whatever they left, a write that is reported as taken has happened as if once; a write reported
      * as failed has at most touched its own key. With no attempt allowed, the write is reported as
      * taken without the store having seen it. */
    method Write(op: Op) returns (ret: Op, err: Option<Error>)
      modifies next
      ensures ret == op
      ensures nbRetry == 0 ==> err == None && next.contents == old(next.contents) && next.calls == old(next.calls)
      ensures nbRetry > 0 ==>
        && next.contents == Retried(op, old(next.Now()), nbRetry).contents
        && next.calls == Retried(op, old(next.Now()), nbRetry).calls
        && (err == None <==> Takes(next.oracle, old(next.calls), nbRetry))
        && (err.Some? ==> err.value == Last(next.oracle, old(next.calls), nbRetry).error)
      ensures nbRetry > 0 ==>
        && old(next.calls) < next.calls <= old(next.calls) + nbRetry
        && (forall k: nat :: old(next.calls) <= k < next.calls - 1 ==>
              next.oracle(k).Reject? && next.oracle(k).error != NotExist)
        && var last := next.oracle(next.calls - 1);
           && (err == None <==> last.Accept?) && (last.Reject? ==> err == Some(last.error))
           && (last.Reject? && last.error != NotExist ==> next.calls == old(next.calls) + nbRetry)
           && (last.Accept? ==> next.contents == Apply(op, old(next.contents)))
           && (last.Reject? ==>
                 || next.contents == old(next.contents)
                 || next.contents == old(next.contents) - {KeyOf(op)}
                 || next.contents == Apply(op, old(next.contents)))
    {
      if nbRetry > 0 {
        RetriedMeans(op, next.Now(), nbRetry);
      }
      ret, err := Attempts(op);
    }

    /** The loop itself. */
    method Attempts(op: Op) returns (ret: Op, err: Option<Error>)
      modifies next
      ensures ret == op
      ensures nbRetry == 0 ==> err == None && next.contents == old(next.contents) && next.calls == old(next.calls)
      ensures nbRetry > 0 ==>
        && next.contents == Retried(op, old(next.Now()), nbRetry).contents
        && next.calls == Retried(op, old(next.Now()), nbRetry).calls
        && (err == None <==> Takes(next.oracle, old(next.calls), nbRetry))
        && (err.Some? ==> err.value == Last(next.oracle, old(next.calls), nbRetry).error)
    {
      ghost var s := next.Now();
      err := None;
      for i := 0 to nbRetry
        invariant next.calls == s.calls + i
        invariant forall k: nat :: s.calls <= k < s.calls + i ==> Again(s.oracle, k)
        invariant i == 0 ==> err == None
        invariant i > 0 ==>
          err.Some? && Again(s.oracle, s.calls + i - 1) && err.value == s.oracle(s.calls + i - 1).error
        invariant next.contents == Smear(op, Damage(s.oracle, s.calls, i), s.contents)
      {
        if s.oracle(s.calls + i) == Accept {
          SucceedsAt(op, s, nbRetry, i);
        } else {
          FailsAt(op, s, nbRetry, i);
        }
        ret, err := next.Write(op);
        if err.Some? {
          if err.value == NotExist {
            return op, err;
          }
          continue;
        }
        return ret, err;
      }
      return op, err;
    }
  }

  /** What that comes to, attempt by attempt. */
  lemma RetriedMeans(op: Op, s: State, n: nat)
    requires n > 0
    ensures var end := Retried(op, s, n).calls;
            && s.calls < end <= s.calls + n
            && (forall k: nat :: s.calls <= k < end - 1 ==> s.oracle(k).Reject? && s.oracle(k).error != NotExist)
            && var last := s.oracle(end - 1);
               && Last(s.oracle, s.calls, n) == last
               && (last.Reject? && last.error != NotExist ==> end == s.calls + n)
    ensures var contents := Retried(op, s, n).contents;
            if Takes(s.oracle, s.calls, n) then contents == Apply(op, s.contents)
            else contents == s.contents || contents == s.contents - {KeyOf(op)} || contents == Apply(op, s.contents)
  {
    var used := Calls(s.oracle, s.calls, n);
    forall k: nat | s.calls <= k < s.calls + used - 1
      ensures s.oracle(k).Reject? && s.oracle(k).error != NotExist
    {
      assert Again(s.oracle, k);
    }
    assert used < n ==> !Again(s.oracle, s.calls + used - 1);
  }

  lemma SucceedsAt(op: Op, s: State, n: nat, i: nat)
    requires i < n && s.oracle(s.calls + i) == Accept
    requires forall k: nat :: s.calls <= k < s.calls + i ==> Again(s.oracle, k)
    ensures Takes(s.oracle, s.calls, n)
    ensures Retried(op, s, n).contents == Apply(op, Smear(op, Damage(s.oracle, s.calls, i), s.contents))
    ensures Retried(op, s, n).calls == s.calls + i + 1
  {
    CallsCount(s.oracle, s.calls, n, i + 1);
    RetriedWriteIsOneWrite(op, Damage(s.oracle, s.calls, i), s.contents);
  }

  lemma FailsAt(op: Op, s: State, n: nat, i: nat)
    requires i < n && s.oracle(s.calls + i).Reject?
    requires forall k: nat :: s.calls <= k < s.calls + i ==> Again(s.oracle, k)
    ensures Smear(op, s.oracle(s.calls + i).effect, Smear(op, Damage(s.oracle, s.calls, i), s.contents))
         == Smear(op, Damage(s.oracle, s.calls, i + 1), s.contents)
    ensures s.oracle(s.calls + i).error == NotExist || i == n - 1 ==>
      && !Takes(s.oracle, s.calls, n)
      && Last(s.oracle, s.calls, n) == s.oracle(s.calls + i)
      && Retried(op, s, n).contents == Smear(op, Damage(s.oracle, s.calls, i + 1), s.contents)
      && Retried(op, s, n).calls == s.calls + i + 1
  {
    SmearTwice(op, Damage(s.oracle, s.calls, i), s.oracle(s.calls + i).effect, s.contents);
    if s.oracle(s.calls + i).error == NotExist || i == n - 1 {
      CallsCount(s.oracle, s.calls, n, i + 1);
    }
  }

  /** The number of calls is the only one with its defining property. */
  lemma CallsCount(oracle: nat -> Attempt, at: nat, n: nat, calls: nat)
    requires calls <= n && (n > 0 ==> calls > 0)
    requires forall k: nat :: at <= k < at + calls - 1 ==> Again(oracle, k)
    requires 0 < calls < n ==> !Again(oracle, at + calls - 1)
    ensures Calls(oracle, at, n) == calls
  {
    var c := Calls(oracle, at, n);
    if n > 0 {
      var k: nat := at + (if c < calls then c else calls) - 1;
      assert c != calls ==> Again(oracle, k);
    }
  }
}

/** What one store holds and what one write does to it.
  * Every kind of store keeps incidents under their guid and subscribers under their
  * address, so a store is one finite map and each of the five writes touches one key. */
module StoreSpec {
  import opened Wrappers
  import opened Models

  datatype Op =
    | Create(incident: Incident)
    | Update(guid: string, incident: Incident)
    | Delete(guid: string)
    | Subscribe(email: string)
    | Unsubscribe(email: string)

  datatype Key = Guid(guid: string) | Email(email: string)

  datatype Value = Stored(incident: Incident) | Subscribed

  type Contents = map<Key, Value>

  /** The only key a write may touch. */
  function KeyOf(op: Op): Key {
    match op
    case Create(incident) => Guid(incident.guid)
    case Update(guid, _) => Guid(guid)
    case Delete(guid) => Guid(guid)
    case Subscribe(email) => Email(email)
    case Unsubscribe(email) => Email(email)
  }

  /** What a successful write leaves at its key, None for nothing. */
  function ValueOf(op: Op): Option<Value> {
    match op
    case Create(incident) => Some(Stored(incident))
    case Update(_, incident) => Some(Stored(incident))
    case Delete(_) => None
    case Subscribe(_) => Some(Subscribed)
    case Unsubscribe(_) => None
  }

  function Look(contents: Contents, key: Key): Option<Value> {
    if key in contents then Some(contents[key]) else None
  }

  function Apply(op: Op, contents: Contents): Contents {
    match ValueOf(op)
    case Some(value) => contents[KeyOf(op) := value]
    case None => contents - {KeyOf(op)}
  }

  /** What a write that reported an error may have done to its own key all the same. */
  datatype Effect = Untouched | Erased | Written

  function Smear(op: Op, effect: Effect, contents: Contents): Contents {
    match effect
    case Untouched => contents
    case Erased => contents - {KeyOf(op)}
    case Written => Apply(op, contents)
  }

  /** How a write ends for the one who asked for it. */
  datatype Outcome = Accepted | Rejected(effect: Effect)

  /** What a store holds after a write that ends so. */
  function Land(op: Op, outcome: Outcome, contents: Contents): Contents {
    match outcome
    case Accepted => Apply(op, contents)
    case Rejected(effect) => Smear(op, effect, contents)
  }

  /** The writes applied one after the other. */
  function Fold(contents: Contents, ops: seq<Op>): Contents {
    if ops == [] then contents
    else Apply(ops[|ops| - 1], Fold(contents, ops[..|ops| - 1]))
  }

  lemma FoldAppend(contents: Contents, ops: seq<Op>, op: Op)
    ensures Fold(contents, ops + [op]) == Apply(op, Fold(contents, ops))
  {
    assert (ops + [op])[..|ops|] == ops;
  }

  lemma LookApply(op: Op, contents: Contents, key: Key)
    ensures Look(Apply(op, contents), key) == if key == KeyOf(op) then ValueOf(op) else Look(contents, key)
  {
  }

  lemma LookSmear(op: Op, effect: Effect, contents: Contents, key: Key)
    requires key != KeyOf(op)
    ensures Look(Smear(op, effect, contents), key) == Look(contents, key)
  {
  }

  /** Two stores that answer every lookup alike are the same store. */
  lemma SameLooks(a: Contents, b: Contents)
    requires forall key :: Look(a, key) == Look(b, key)
    ensures a == b
  {
    forall key
      ensures key in a <==> key in b
      ensures key in a ==> a[key] == b[key]
    {
      assert Look(a, key) == Look(b, key);
    }
  }

  /** A failed attempt is absorbed by the attempt that follows it, whatever it left behind:
    * writing the same thing again ends where one write would have ended. */
  lemma RetriedWriteIsOneWrite(op: Op, effect: Effect, contents: Contents)
    ensures Apply(op, Smear(op, effect, contents)) == Apply(op, contents)
  {
    forall key
      ensures Look(Apply(op, Smear(op, effect, contents)), key) == Look(Apply(op, contents), key)
    {
      LookApply(op, Smear(op, effect, contents), key);
      LookApply(op, contents, key);
    }
    SameLooks(Apply(op, Smear(op, effect, contents)), Apply(op, contents));
  }

  /** Two failed attempts in a row leave no more damage than one. */
  function Compose(first: Effect, second: Effect): (effect: Effect) {
    if second == Untouched then first else second
  }

  lemma SmearTwice(op: Op, first: Effect, second: Effect, contents: Contents)
    ensures Smear(op, second, Smear(op, first, contents)) == Smear(op, Compose(first, second), contents)
  {
    if second == Written {
      RetriedWriteIsOneWrite(op, first, contents);
    }
  }
}

/** What the two kinds of file store share: an incident lives in a plain file of its own or in the
  * one list of persistent incidents. */
module Files {
  import opened Wrappers
  import opened Models
  import opened StoreSpec

  const SUBSCRIBERS := "subscribers.json"
  const PERSISTENTS := "persistents.json"

  datatype Error = NotExist | Failed

  predicate Usable(guid: string) {
    guid != "" && guid != SUBSCRIBERS && guid != PERSISTENTS
  }

  /** Whether reading, then rewriting the persistent list fails. */
  datatype ListIo = ListIo(readFails: bool, writeFails: bool)

  /** The same for a deletion, which then removes the plain file. */
  datatype DeleteIo = DeleteIo(list: ListIo, removeFails: bool)

  const FINE := ListIo(false, false)

  predicate Fails(io: ListIo) {
    io.readFails || io.writeFails
  }

  ghost predicate GoodList(list: seq<Incident>) {
    && Unique(list)
    && OldestFirst(list)
    && forall x :: x in list ==> x.persistent && Usable(x.guid)
  }

  ghost predicate GoodFiles(files: map<string, Incident>) {
    forall guid :: guid in files ==> files[guid].guid == guid && !files[guid].persistent && Usable(guid)
  }

  /** The list as a map from guid to incident. */
  ghost function ListMap(list: seq<Incident>): map<string, Incident> {
    if list == [] then map[]
    else
      var last := list[|list| - 1];
      ListMap(list[..|list| - 1])[last.guid := last]
  }

  lemma {:induction false} ListMapHas(list: seq<Incident>, x: Incident)
    requires Unique(list)
    ensures x in list <==> x.guid in ListMap(list) && ListMap(list)[x.guid] == x
  {
    if list != [] {
      var front, last := list[..|list| - 1], list[|list| - 1];
      ListMapHas(front, x);
      assert list == front + [last];
      assert x in list <==> x in front || x == last;
      assert x in front ==> exists i :: 0 <= i < |front| && list[i] == x;
    }
  }

  lemma {:induction false} ListMapKeys(list: seq<Incident>, guid: string)
    requires guid in ListMap(list)
    ensures ListMap(list)[guid].guid == guid
  {
    if list != [] && list[|list| - 1].guid != guid {
      ListMapKeys(list[..|list| - 1], guid);
    }
  }

  lemma ListMapMembers(list: seq<Incident>)
    requires Unique(list)
    ensures forall x :: x in list ==> x.guid in ListMap(list) && ListMap(list)[x.guid] == x
    ensures forall guid :: guid in ListMap(list) ==> ListMap(list)[guid] in list && ListMap(list)[guid].guid == guid
  {
    forall x { ListMapHas(list, x); }
    forall guid | guid in ListMap(list)
      ensures ListMap(list)[guid] in list && ListMap(list)[guid].guid == guid
    {
      ListMapKeys(list, guid);
      ListMapHas(list, ListMap(list)[guid]);
    }
  }

  /** Two lists with the same members are the same map. */
  lemma SameListMap(a: seq<Incident>, m: map<string, Incident>)
    requires Unique(a)
    requires forall x :: x in a ==> x.guid in m && m[x.guid] == x
    requires forall guid :: guid in m ==> m[guid] in a && m[guid].guid == guid
    ensures ListMap(a) == m
  {
    ListMapMembers(a);
  }

  lemma Rewritten(before: seq<Incident>, after: seq<Incident>)
    requires Unique(before) && multiset(after) == multiset(before)
    ensures Unique(after) && ListMap(after) == ListMap(before)
    ensures forall x :: x in after <==> x in before
  {
    ReorderedUnique(before, after);
    forall x
      ensures x in after <==> x in before
    {
      assert x in multiset(after) <==> x in multiset(before);
    }
    ListMapMembers(before);
    SameListMap(after, ListMap(before));
  }

  /** Filtering a guid out of a good list and sorting the rest. */
  lemma {:induction false} Removed(before: seq<Incident>, guid: string, after: seq<Incident>)
    requires GoodList(before)
    requires multiset(after) == multiset(Without(before, guid)) && OldestFirst(after)
    ensures GoodList(after)
    ensures ListMap(after) == ListMap(before) - {guid}
  {
    WithoutUnique(before, guid);
    Rewritten(Without(before, guid), after);
    forall x
      ensures x in after <==> x in before && x.guid != guid
    {
      WithoutMembers(before, guid, x);
    }
    ListMapMembers(before);
    SameListMap(after, ListMap(before) - {guid});
  }

  lemma ReplacedMembers(before: seq<Incident>, incident: Incident, after: seq<Incident>)
    requires forall x :: x in after <==> x in Without(before, incident.guid) + [incident]
    ensures forall x :: x in after <==> x == incident || (x in before && x.guid != incident.guid)
  {
    forall x
      ensures x in after <==> x == incident || (x in before && x.guid != incident.guid)
    {
      WithoutMembers(before, incident.guid, x);
    }
  }

  lemma ReplacedUnique(before: seq<Incident>, incident: Incident)
    requires Unique(before)
    ensures Unique(Without(before, incident.guid) + [incident])
  {
    var kept := Without(before, incident.guid);
    WithoutUnique(before, incident.guid);
    forall i | 0 <= i < |kept|
      ensures kept[i].guid != incident.guid
    {
      WithoutMembers(before, incident.guid, kept[i]);
    }
  }

  /** Replacing the incident with a guid in a good list, and sorting. */
  lemma {:induction false} Replaced(before: seq<Incident>, incident: Incident, after: seq<Incident>)
    requires GoodList(before) && incident.persistent && Usable(incident.guid)
    requires multiset(after) == multiset(Without(before, incident.guid) + [incident]) && OldestFirst(after)
    ensures GoodList(after)
    ensures ListMap(after) == ListMap(before)[incident.guid := incident]
  {
    ReplacedUnique(before, incident);
    Rewritten(Without(before, incident.guid) + [incident], after);
    ReplacedMembers(before, incident, after);
    ListMapMembers(before);
    SameListMap(after, ListMap(before)[incident.guid := incident]);
  }

  // ---- the list both kinds of store keep, as persistents.json holds it, None when there is no file

  ghost function ListOf(persistents: Option<seq<Incident>>): seq<Incident> {
    if persistents.Some? then persistents.value else []
  }

  method Persistents(persistents: Option<seq<Incident>>, readFails: bool)
    returns (incidents: seq<Incident>, err: Option<Error>)
    ensures err == if readFails then Some(Failed) else None
    ensures incidents == if readFails then [] else ListOf(persistents)
  {
    if readFails {
      return [], Some(Failed);
    }
    match persistents
    case None => return [], None;
    case Some(list) => return list, None;
  }

  method StorePersistents(persistents: Option<seq<Incident>>, incidents: seq<Incident>, writeFails: bool)
    returns (after: Option<seq<Incident>>, err: Option<Error>)
    ensures err == if writeFails then Some(Failed) else None
    ensures writeFails ==> after == persistents
    ensures !writeFails ==> after.Some? && OldestFirst(after.value) && multiset(after.value) == multiset(incidents)
  {
    var sorted := SortByCreation(incidents);
    if writeFails {
      return persistents, Some(Failed);
    }
    return Some(sorted), None;
  }

  /** The list stays good, and on success the map it stands for gains or replaces the incident. */
  method AddPersistent(persistents: Option<seq<Incident>>, incident: Incident, io: ListIo)
    returns (after: Option<seq<Incident>>, err: Option<Error>)
    requires GoodList(ListOf(persistents)) && incident.persistent && Usable(incident.guid)
    ensures GoodList(ListOf(after))
    ensures err == if Fails(io) then Some(Failed) else None
    ensures err.Some? ==> after == persistents
    ensures err.None? ==> ListMap(ListOf(after)) == ListMap(ListOf(persistents))[incident.guid := incident]
  {
    var incidents;
    incidents, err := Persistents(persistents, io.readFails);
    if err.Some? {
      return persistents, err;
    }
    incidents := Filter(incidents, incident.guid);
    incidents := incidents + [incident];
    after, err := StorePersistents(persistents, incidents, io.writeFails);
    if err.None? {
      Replaced(ListOf(persistents), incident, ListOf(after));
    }
  }

  /** The list stays good, and on success the map it stands for loses exactly the guid. */
  method RemovePersistent(persistents: Option<seq<Incident>>, guid: string, io: ListIo)
    returns (after: Option<seq<Incident>>, err: Option<Error>)
    requires GoodList(ListOf(persistents))
    ensures GoodList(ListOf(after))
    ensures err == if Fails(io) then Some(Failed) else None
    ensures err.Some? ==> after == persistents
    ensures err.None? ==> ListMap(ListOf(after)) == ListMap(ListOf(persistents)) - {guid}
  {
    var incidents;
    incidents, err := Persistents(persistents, io.readFails);
    if err.Some? {
      return persistents, err;
    }
    incidents := Filter(incidents, guid);
    after, err := StorePersistents(persistents, incidents, io.writeFails);
    if err.None? {
      Removed(ListOf(persistents), guid, ListOf(after));
    }
  }

  // ---- two places read as one map, `upper` first

  lemma UpperPut(lower: map<string, Incident>, upper: map<string, Incident>, guid: string, incident: Incident)
    ensures lower + upper[guid := incident] == (lower + upper)[guid := incident]
  {
  }

  lemma LowerPut(lower: map<string, Incident>, upper: map<string, Incident>, guid: string, incident: Incident)
    ensures lower[guid := incident] + upper
         == if guid in upper then lower + upper else (lower + upper)[guid := incident]
  {
  }

  lemma BothDrop(lower: map<string, Incident>, upper: map<string, Incident>, guid: string)
    ensures (lower - {guid}) + (upper - {guid}) == (lower + upper) - {guid}
    ensures guid !in lower ==> lower - {guid} == lower
    ensures guid !in upper ==> upper - {guid} == upper
  {
  }

  /** `after` is `before`, or `before` without the guid. */
  ghost predicate MayDrop(before: map<string, Incident>, after: map<string, Incident>, guid: string) {
    after == before || after == before - {guid}
  }

  lemma MayDropTwice(before: map<string, Incident>, mid: map<string, Incident>, after: map<string, Incident>,
                     guid: string, incident: Incident)
    requires MayDrop(before, mid, guid)
    ensures MayDrop(mid, after, guid) ==> MayDrop(before, after, guid)
    ensures after == mid[guid := incident] ==> after == before[guid := incident]
  {
    assert before - {guid} - {guid} == before - {guid};
    assert mid[guid := incident] == before[guid := incident];
  }

  /** One guid in one place is all that is ever written or dropped. */
  lemma OnlyThere(before: map<string, Incident>, after: map<string, Incident>, guid: string, incident: Incident)
    requires MayDrop(before, after, guid)
    ensures after - {guid} == before - {guid}
    ensures after[guid := incident] - {guid} == before - {guid}
  {
  }

  lemma StillOld(lower: map<string, Incident>, upper: map<string, Incident>, guid: string, incident: Incident)
    requires guid in upper && upper[guid] != incident
    ensures lower + upper != (lower + upper)[guid := incident]
  {
    assert (lower + upper)[guid] == upper[guid];
  }

  /** Clearing either place at a guid, as far as the disk lets it, and then writing one of them. */
  lemma ClearedThenWritten(lower: map<string, Incident>, upper: map<string, Incident>,
                           lower': map<string, Incident>, upper': map<string, Incident>,
                           guid: string, incident: Incident)
    requires MayDrop(lower, lower', guid) && MayDrop(upper, upper', guid)
    ensures lower' + upper'[guid := incident] == (lower + upper)[guid := incident]
    ensures guid !in upper' ==> lower'[guid := incident] + upper' == (lower + upper)[guid := incident]
    ensures guid in upper' ==> lower'[guid := incident] + upper' == lower + upper
    ensures !(guid in lower && guid in upper) ==> MayDrop(lower + upper, lower' + upper', guid)
  {
    MayDropThenPut(upper, upper', guid, incident);
    MayDropThenPut(lower, lower', guid, incident);
    UpperCovers(lower, lower', upper[guid := incident], guid);
    UpperPut(lower, upper, guid, incident);
    LowerPut(lower', upper', guid, incident);
    LowerLeft(lower, upper, lower', upper', guid, incident);
    if !(guid in lower && guid in upper) {
      DroppedOnce(lower, upper, lower', upper', guid);
    }
  }

  lemma MayDropThenPut(before: map<string, Incident>, after: map<string, Incident>, guid: string, incident: Incident)
    requires MayDrop(before, after, guid)
    ensures after[guid := incident] == before[guid := incident]
  {
  }

  lemma UpperCovers(lower: map<string, Incident>, lower': map<string, Incident>, upper: map<string, Incident>,
                    guid: string)
    requires MayDrop(lower, lower', guid) && guid in upper
    ensures lower' + upper == lower + upper
  {
  }

  lemma LowerLeft(lower: map<string, Incident>, upper: map<string, Incident>,
                  lower': map<string, Incident>, upper': map<string, Incident>, guid: string, incident: Incident)
    requires MayDrop(lower, lower', guid) && MayDrop(upper, upper', guid)
    ensures guid in upper' ==> lower' + upper' == lower + upper
    ensures guid !in upper' ==> (lower' + upper')[guid := incident] == (lower + upper)[guid := incident]
  {
    if guid in upper' {
      UpperCovers(lower, lower', upper', guid);
    }
  }

  lemma DroppedOnce(lower: map<string, Incident>, upper: map<string, Incident>,
                    lower': map<string, Incident>, upper': map<string, Incident>, guid: string)
    requires MayDrop(lower, lower', guid) && MayDrop(upper, upper', guid) && !(guid in lower && guid in upper)
    ensures MayDrop(lower + upper, lower' + upper', guid)
  {
    if guid in upper {
      assert lower - {guid} == lower;
      assert lower + (upper - {guid}) == (lower + upper) - {guid};
    } else {
      assert upper - {guid} == upper;
      assert (lower - {guid}) + upper == (lower + upper) - {guid};
    }
  }

  // ---- the contents of a file store as one map

  ghost function KeysOf(incidents: map<string, Incident>, subscribers: seq<string>): (keys: set<Key>)
    ensures forall guid :: Guid(guid) in keys <==> guid in incidents
    ensures forall email :: Email(email) in keys <==> email in subscribers
  {
    (set guid | guid in incidents :: Guid(guid)) + (set email | email in subscribers :: Email(email))
  }

  ghost function ContentsOf(incidents: map<string, Incident>, subscribers: seq<string>): Contents {
    map key | key in KeysOf(incidents, subscribers) ::
      match key
      case Guid(guid) => Stored(incidents[guid])
      case Email(_) => Subscribed
  }

  lemma ContentsLook(incidents: map<string, Incident>, subscribers: seq<string>, key: Key)
    ensures Look(ContentsOf(incidents, subscribers), key)
         == match key
            case Guid(guid) => if guid in incidents then Some(Stored(incidents[guid])) else None
            case Email(email) => if email in subscribers then Some(Subscribed) else None
  {
  }

  /** A store has put a subscriber on its list, or taken it off, exactly when its list says so. */
  lemma WroteSubscriber(incidents: map<string, Incident>, before: seq<string>, after: seq<string>, op: Op)
    requires op.Subscribe? || op.Unsubscribe?
    ensures ContentsOf(incidents, after) == Apply(op, ContentsOf(incidents, before))
       <==> forall email :: email in after <==> (if email == op.email then op.Subscribe? else email in before)
  {
    var x, y := ContentsOf(incidents, after), Apply(op, ContentsOf(incidents, before));
    forall key
      ensures Look(x, key) == Look(y, key) <==>
              (key.Email? ==>
                 (key.email in after <==> (if key.email == op.email then op.Subscribe? else key.email in before)))
    {
      ContentsLook(incidents, after, key);
      ContentsLook(incidents, before, key);
      LookApply(op, ContentsOf(incidents, before), key);
    }
    if x == y {
      forall email
        ensures email in after <==> (if email == op.email then op.Subscribe? else email in before)
      {
        assert Look(x, Email(email)) == Look(y, Email(email));
      }
    }
    if forall email :: email in after <==> (if email == op.email then op.Subscribe? else email in before) {
      SameLooks(x, y);
    }
  }

  function Others(emails: seq<string>, email: string): seq<string> {
    if emails == [] then []
    else
      var last := emails[|emails| - 1];
      Others(emails[..|emails| - 1], email) + if last == email then [] else [last]
  }

  lemma {:induction false} OthersMembers(emails: seq<string>, email: string, x: string)
    ensures x in Others(emails, email) <==> x in emails && x != email
  {
    if emails != [] {
      OthersMembers(emails[..|emails| - 1], email, x);
      assert emails == emails[..|emails| - 1] + [emails[|emails| - 1]];
    }
  }

  lemma TookOff(incidents: map<string, Incident>, subs: seq<string>, email: string)
    ensures ContentsOf(incidents, Others(subs, email)) == Apply(Unsubscribe(email), ContentsOf(incidents, subs))
  {
    forall x
      ensures x in Others(subs, email) <==> x in subs && x != email
    {
      OthersMembers(subs, email, x);
    }
    WroteSubscriber(incidents, subs, Others(subs, email), Unsubscribe(email));
  }

  method FilterStrSlice(email: string, emails: seq<string>) returns (final: seq<string>)
    ensures final == Others(emails, email)
  {
    final := [];
    for i := 0 to |emails|
      invariant final == Others(emails[..i], email)
    {
      assert emails[..i + 1][..i] == emails[..i];
      if emails[i] == email {
        continue;
      }
      final := final + [emails[i]];
    }
    assert emails[..|emails|] == emails;
  }

  // ---- what a directory or bucket lists

  predicate Reserved(name: string) {
    name == SUBSCRIBERS || name == PERSISTENTS
  }

  predicate Within(incident: Incident, from: Time, to: Time) {
    from <= incident.createdAt <= to
  }

  /** The listing names every plain file once, and nothing else but the two shared files. */
  ghost predicate Lists(names: seq<string>, files: map<string, Incident>) {
    && (forall i, j :: 0 <= i < j < |names| ==> names[i] != names[j])
    && (forall i :: 0 <= i < |names| ==> names[i] in files || Reserved(names[i]))
    && (forall guid :: guid in files ==> guid in names)
  }

  /** The incidents of the window, in the order of the listing. */
  ghost function InWindow(files: map<string, Incident>, names: seq<string>, from: Time, to: Time): seq<Incident>
    requires forall i :: 0 <= i < |names| ==> names[i] in files || Reserved(names[i])
  {
    if names == [] then []
    else
      var last := names[|names| - 1];
      InWindow(files, names[..|names| - 1], from, to)
      + if !Reserved(last) && Within(files[last], from, to) then [files[last]] else []
  }

  lemma WindowStep(files: map<string, Incident>, names: seq<string>, from: Time, to: Time, i: nat)
    requires i < |names| && forall j :: 0 <= j < |names| ==> names[j] in files || Reserved(names[j])
    ensures InWindow(files, names[..i + 1], from, to)
         == InWindow(files, names[..i], from, to)
            + if !Reserved(names[i]) && Within(files[names[i]], from, to) then [files[names[i]]] else []
  {
    assert names[..i + 1][..i] == names[..i];
  }

  lemma {:induction false} WindowCounts(files: map<string, Incident>, names: seq<string>, from: Time, to: Time,
                                        x: Incident)
    requires GoodFiles(files)
    requires forall i, j :: 0 <= i < j < |names| ==> names[i] != names[j]
    requires forall i :: 0 <= i < |names| ==> names[i] in files || Reserved(names[i])
    ensures multiset(InWindow(files, names, from, to))[x]
         == if x.guid in names && x.guid in files && files[x.guid] == x && from <= x.createdAt <= to then 1 else 0
  {
    if names != [] {
      var front, last := names[..|names| - 1], names[|names| - 1];
      WindowCounts(files, front, from, to, x);
      assert names == front + [last];
      assert last !in front;
    }
  }

  /** What is listed earlier is shown earlier. */
  lemma {:induction false} WindowInOrder(files: map<string, Incident>, names: seq<string>, from: Time, to: Time,
                                         i: nat, j: nat)
    requires forall k :: 0 <= k < |names| ==> names[k] in files || Reserved(names[k])
    requires i < j < |InWindow(files, names, from, to)|
    ensures var shown := InWindow(files, names, from, to);
            exists p, q :: 0 <= p < q < |names| && names[p] in files && names[q] in files
              && shown[i] == files[names[p]] && shown[j] == files[names[q]]
  {
    var n := |names| - 1;
    var front := InWindow(files, names[..n], from, to);
    if j < |front| {
      WindowInOrder(files, names[..n], from, to, i, j);
      var p, q :| 0 <= p < q < n && names[..n][p] in files && names[..n][q] in files
        && front[i] == files[names[..n][p]] && front[j] == files[names[..n][q]];
      assert names[p] in files && names[q] in files;
    } else {
      ShownFrom(files, names[..n], from, to, i);
      var p :| 0 <= p < n && names[..n][p] in files && front[i] == files[names[..n][p]];
      assert names[p] in files && names[n] in files;
    }
  }

  lemma {:induction false} ShownFrom(files: map<string, Incident>, names: seq<string>, from: Time, to: Time, i: nat)
    requires forall k :: 0 <= k < |names| ==> names[k] in files || Reserved(names[k])
    requires i < |InWindow(files, names, from, to)|
    ensures exists p :: 0 <= p < |names| && names[p] in files && InWindow(files, names, from, to)[i] == files[names[p]]
  {
    var n := |names| - 1;
    var front := InWindow(files, names[..n], from, to);
    if i < |front| {
      ShownFrom(files, names[..n], from, to, i);
      var p :| 0 <= p < n && names[..n][p] in files && front[i] == files[names[..n][p]];
      assert names[p] in files;
    } else {
      assert names[n] in files;
    }
  }

  lemma {:induction false} ListCounts(list: seq<Incident>, x: Incident)
    requires Unique(list)
    ensures multiset(list)[x] == if x in list then 1 else 0
  {
    if list != [] {
      var front, last := list[..|list| - 1], list[|list| - 1];
      ListCounts(front, x);
      assert list == front + [last];
      forall y | y in front
        ensures y.guid != last.guid
      {
        var i :| 0 <= i < |front| && list[i] == y;
      }
    }
  }

  ghost predicate Covers(files: map<string, Incident>, from: Time, to: Time) {
    forall guid :: guid in files ==> Within(files[guid], from, to)
  }

  /** How often `x` is shown, by the listing and the persistent list together. */
  ghost function TimesShown(files: map<string, Incident>, list: seq<Incident>, names: seq<string>, from: Time,
                            to: Time, x: Incident): nat
    requires Lists(names, files)
  {
    multiset(InWindow(files, names, from, to))[x] + multiset(list)[x]
  }

  /** How often it is stored: once or not at all. */
  ghost function TimesStored(files: map<string, Incident>, list: seq<Incident>, x: Incident): nat {
    if x in (files + ListMap(list)).Values then 1 else 0
  }

  lemma ShownTwice(files: map<string, Incident>, list: seq<Incident>, names: seq<string>, from: Time, to: Time,
                   x: Incident)
    requires GoodFiles(files) && GoodList(list) && Lists(names, files) && Covers(files, from, to)
    ensures TimesShown(files, list, names, from, to, x)
         == (if x.guid in files && files[x.guid] == x then 1 else 0) + (if x in list then 1 else 0)
    ensures x in (files + ListMap(list)).Values <==>
              x in list || (x.guid in files && files[x.guid] == x && x.guid !in ListMap(list))
  {
    WindowCounts(files, names, from, to, x);
    ListCounts(list, x);
    ListMapMembers(list);
    var stored := files + ListMap(list);
    assert x in stored.Values <==> x.guid in stored && stored[x.guid] == x;
  }

  /** Over a window that covers every plain incident, the listing and the persistent list together show
    * each stored incident once and nothing else: exactly when no incident is in both places. */
  lemma EachStoredOnce(files: map<string, Incident>, list: seq<Incident>, names: seq<string>, from: Time, to: Time)
    requires GoodFiles(files) && GoodList(list) && Lists(names, files) && Covers(files, from, to)
    ensures (forall guid :: !(guid in files && guid in ListMap(list)))
       <==> forall x :: TimesShown(files, list, names, from, to, x) == TimesStored(files, list, x)
  {
    ListMapMembers(list);
    forall x {
      ShownTwice(files, list, names, from, to, x);
    }
    forall guid | guid in files && guid in ListMap(list)
      ensures exists x :: TimesShown(files, list, names, from, to, x) != TimesStored(files, list, x)
    {
      var x := files[guid];
      ShownTwice(files, list, names, from, to, x);
    }
  }
}

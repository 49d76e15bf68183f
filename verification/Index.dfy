/** serves/index.go: the state of every component and group, and the timeline, of the status page. */
module Index {
  import opened Wrappers
  import opened Models
  import opened ComponentText
  import opened Regroup
  import DateQuery
  import Seqs

  // ---- what the page should say

  /** What an incident may concern: the component printed so, or the known components of a group. */
  datatype Target = Printed(text: string) | Within(group: string, known: set<string>)

  predicate Aims(c: Component, target: Target) {
    match target
    case Printed(text) => Print(c) == text
    case Within(group, known) => Print(c) in known && c.group == group
  }

  predicate Open(incident: Incident) {
    incident.state != RESOLVED && incident.components.Some?
  }

  predicate Aimed(components: seq<Component>, target: Target) {
    exists c :: c in components && Aims(c, target)
  }

  predicate Concerns(incident: Incident, target: Target) {
    Open(incident) && Aimed(incident.components.value, target)
  }

  /** The worst state of the incidents that concern the target, Operational when none is worse. */
  ghost predicate Worst(state: int, incidents: seq<Incident>, target: Target) {
    && state >= OPERATIONAL
    && (forall x :: x in incidents && Concerns(x, target) ==> x.componentState <= state)
    && (state == OPERATIONAL || exists x :: x in incidents && Concerns(x, target) && x.componentState == state)
  }

  ghost predicate SameButComponentOrder(x: Incident, y: Incident) {
    && x.state == y.state && x.componentState == y.componentState
    && x.components.Some? == y.components.Some?
    && (x.components.Some? ==> forall c :: c in x.components.value <==> c in y.components.value)
  }

  ghost predicate SameInOrder(a: seq<Incident>, b: seq<Incident>) {
    |a| == |b| && forall i :: 0 <= i < |a| ==> SameButComponentOrder(a[i], b[i])
  }

  lemma SameBackwards(a: seq<Incident>, b: seq<Incident>)
    requires SameInOrder(a, b)
    ensures SameInOrder(b, a)
  {
    forall i | 0 <= i < |b|
      ensures SameButComponentOrder(b[i], a[i])
    {
      assert SameButComponentOrder(a[i], b[i]);
    }
  }

  /** The worst state is one number, whatever the order of the incidents and of their components. */
  lemma WorstIsUnique(s: int, t: int, a: seq<Incident>, reordered: seq<Incident>, b: seq<Incident>, target: Target)
    requires Worst(s, a, target) && Worst(t, b, target)
    requires multiset(a) == multiset(reordered) && SameInOrder(reordered, b)
    ensures s == t
  {
    WorstReordered(s, a, reordered, target);
    WorstIsAtMost(s, t, reordered, b, target);
    SameBackwards(reordered, b);
    WorstIsAtMost(t, s, b, reordered, target);
  }

  lemma WorstReordered(s: int, a: seq<Incident>, b: seq<Incident>, target: Target)
    requires Worst(s, a, target) && multiset(a) == multiset(b)
    ensures Worst(s, b, target)
  {
    Seqs.SameMembers(a, b);
    if s != OPERATIONAL {
      var x :| x in a && Concerns(x, target) && x.componentState == s;
      assert x in b;
    }
  }

  lemma WorstIsAtMost(s: int, t: int, a: seq<Incident>, b: seq<Incident>, target: Target)
    requires Worst(s, a, target) && Worst(t, b, target) && SameInOrder(a, b)
    ensures s <= t
  {
    if s != OPERATIONAL {
      var x :| x in a && Concerns(x, target) && x.componentState == s;
      var i :| 0 <= i < |a| && a[i] == x;
      assert SameButComponentOrder(x, b[i]);
      StillConcerns(x, b[i], target);
      assert b[i] in b;
    }
  }

  lemma StillConcerns(x: Incident, y: Incident, target: Target)
    requires SameButComponentOrder(x, y) && Concerns(x, target)
    ensures Concerns(y, target)
  {
    var c :| c in x.components.value && Aims(c, target);
    assert c in y.components.value;
  }

  lemma WorstGrows(state: int, incidents: seq<Incident>, x: Incident, target: Target)
    requires Worst(state, incidents, target)
    ensures Worst(if Concerns(x, target) then Max(state, x.componentState) else state, incidents + [x], target)
  {
    if state != OPERATIONAL {
      var y :| y in incidents && Concerns(y, target) && y.componentState == state;
      assert y in incidents + [x];
    }
    assert x in incidents + [x];
  }

  function Max(a: int, b: int): int {
    if b > a then b else a
  }

  // ---- components and groups

  // config.Component
  datatype Configured = Configured(component: Component, description: string)

  class ComponentStateData {
    const name: string
    const description: string
    var state: int

    constructor (name: string, description: string)
      ensures this.name == name && this.description == description && state == OPERATIONAL
    {
      this.name, this.description := name, description;
      state := OPERATIONAL;
    }
  }

  ghost function Groups(config: seq<Configured>): (groups: seq<string>)
    ensures |groups| == |config|
    ensures forall k :: 0 <= k < |config| ==> groups[k] == config[k].component.group
  {
    seq(|config|, k requires 0 <= k < |config| => config[k].component.group)
  }

  ghost function Names(config: seq<Configured>): (names: seq<string>)
    ensures |names| == |config|
    ensures forall k :: 0 <= k < |config| ==> names[k] == Print(config[k].component)
  {
    seq(|config|, k requires 0 <= k < |config| => Print(config[k].component))
  }

  ghost function LastOf(names: seq<string>, name: string): (k: nat)
    requires name in names
    ensures k < |names| && names[k] == name
    ensures forall j :: k < j < |names| ==> names[j] != name
  {
    var n := |names| - 1;
    if names[n] == name then n else LastOf(names[..n], name)
  }

  /** No later component prints alike. */
  ghost predicate IsLast(names: seq<string>, k: nat)
    requires k < |names|
  {
    forall j :: k < j < |names| ==> names[j] != names[k]
  }

  /** Every printed name leads to the cell of the last component printed so. */
  ghost predicate Named(byName: map<string, ComponentStateData>, names: seq<string>, cells: seq<ComponentStateData>) {
    && |cells| == |names|
    && (forall name :: name in byName <==> name in names)
    && (forall name :: name in byName ==> byName[name] == cells[LastOf(names, name)])
  }

  lemma NamedMore(byName: map<string, ComponentStateData>, names: seq<string>, cells: seq<ComponentStateData>,
                  name: string, cell: ComponentStateData)
    requires Named(byName, names, cells)
    ensures Named(byName[name := cell], names + [name], cells + [cell])
  {
    assert (names + [name])[..|names|] == names;
  }

  /** config.Components.Regroups. */
  method Regroups(config: seq<Configured>) returns (regroups: map<string, seq<Configured>>)
    ensures Regrouped(regroups, Groups(config), config)
  {
    regroups := map[];
    for k := 0 to |config|
      invariant Regrouped(regroups, Groups(config[..k]), config[..k])
    {
      var c := config[k];
      var group := c.component.group;
      RegroupedMore(regroups, Groups(config[..k]), config[..k], group, c);
      assert config[..k + 1] == config[..k] + [c];
      assert Groups(config[..k + 1]) == Groups(config[..k]) + [group];
      if group in regroups {
        regroups := regroups[group := regroups[group] + [c]];
        continue;
      }
      regroups := regroups[group := [c]];
    }
    assert config[..|config|] == config;
  }

  ghost predicate Distinct(cells: seq<ComponentStateData>) {
    forall j, k :: 0 <= j < k < |cells| ==> cells[j] != cells[k]
  }

  /** One cell for each component of the configuration, found by its group and by its printed name. */
  ghost predicate Laid(byGroup: map<string, seq<ComponentStateData>>, byName: map<string, ComponentStateData>,
                       config: seq<Configured>, cells: seq<ComponentStateData>) {
    && Named(byName, Names(config), cells)
    && Regrouped(byGroup, Groups(config), cells)
    && Distinct(cells)
    && forall k :: 0 <= k < |cells| ==>
         cells[k].name == config[k].component.name && cells[k].description == config[k].description
  }

  lemma LaidMore(byGroup: map<string, seq<ComponentStateData>>, byName: map<string, ComponentStateData>,
                 config: seq<Configured>, cells: seq<ComponentStateData>, i: nat, cell: ComponentStateData)
    requires i < |config| && Laid(byGroup, byName, config[..i], cells) && cell !in cells
    requires cell.name == config[i].component.name && cell.description == config[i].description
    ensures var group := config[i].component.group;
            Laid(byGroup[group := if group in byGroup then byGroup[group] + [cell] else [cell]],
                 byName[Print(config[i].component) := cell], config[..i + 1], cells + [cell])
  {
    var component := config[i].component;
    assert Groups(config[..i + 1]) == Groups(config[..i]) + [component.group];
    assert Names(config[..i + 1]) == Names(config[..i]) + [Print(component)];
    RegroupedMore(byGroup, Groups(config[..i]), cells, component.group, cell);
    NamedMore(byName, Names(config[..i]), cells, Print(component), cell);
    DistinctMore(cells, cell);
  }

  lemma DistinctMore(cells: seq<ComponentStateData>, cell: ComponentStateData)
    requires Distinct(cells) && cell !in cells
    ensures Distinct(cells + [cell])
  {
  }

  method AddCell(config: seq<Configured>, i: nat, byGroup: map<string, seq<ComponentStateData>>,
                 byName: map<string, ComponentStateData>, ghost cells: seq<ComponentStateData>)
    returns (byGroup': map<string, seq<ComponentStateData>>, byName': map<string, ComponentStateData>,
             cell: ComponentStateData)
    requires i < |config| && Laid(byGroup, byName, config[..i], cells)
    ensures fresh(cell) && cell.state == OPERATIONAL
    ensures Laid(byGroup', byName', config[..i + 1], cells + [cell])
  {
    var component := config[i].component;
    cell := new ComponentStateData(component.name, config[i].description);
    LaidMore(byGroup, byName, config, cells, i, cell);
    var group := component.group;
    byGroup' := byGroup[group := if group in byGroup then byGroup[group] + [cell] else [cell]];
    byName' := byName[Print(component) := cell];
  }

  method MakeCells(config: seq<Configured>)
    returns (byGroup: map<string, seq<ComponentStateData>>, byName: map<string, ComponentStateData>,
             ghost cells: seq<ComponentStateData>)
    ensures Laid(byGroup, byName, config, cells)
    ensures forall cell :: cell in cells ==> fresh(cell) && cell.state == OPERATIONAL
  {
    byGroup, byName, cells := map[], map[], [];
    for i := 0 to |config|
      invariant Laid(byGroup, byName, config[..i], cells)
      invariant forall cell :: cell in cells ==> fresh(cell) && cell.state == OPERATIONAL
    {
      var cell;
      byGroup, byName, cell := AddCell(config, i, byGroup, byName, cells);
      cells := cells + [cell];
    }
    assert config[..|config|] == config;
  }

  // ---- the loop over the incidents

  ghost predicate Injective(byName: map<string, ComponentStateData>) {
    forall m, n :: m in byName && n in byName && m != n ==> byName[m] != byName[n]
  }

  lemma LaidIsInjective(byGroup: map<string, seq<ComponentStateData>>, byName: map<string, ComponentStateData>,
                        config: seq<Configured>, cells: seq<ComponentStateData>)
    requires Laid(byGroup, byName, config, cells)
    ensures Injective(byName)
  {
    var names := Names(config);
    forall m, n | m in byName && n in byName && m != n
      ensures byName[m] != byName[n]
    {
      var i, j := LastOf(names, m), LastOf(names, n);
      assert names[i] == m && names[j] == n;
      assert byName[m] == cells[i] && byName[n] == cells[j];
    }
  }

  function Raised(before: int, components: seq<Component>, state: int, target: Target): int {
    if Aimed(components, target) then Max(before, state) else before
  }

  lemma RaisedMore(s: int, components: seq<Component>, c: Component, state: int, target: Target)
    ensures Raised(s, components + [c], state, target)
         == if Aims(c, target) then Max(Raised(s, components, state, target), state)
            else Raised(s, components, state, target)
  {
    assert c in components + [c];
    assert forall d :: d in components + [c] <==> d in components || d == c;
  }

  /** Marks what one incident lists: the cells through their shared pointers, the groups in the map. */
  method Mark(components: seq<Component>, state: int, byName: map<string, ComponentStateData>,
              groupState: map<string, int>)
    returns (marked: map<string, int>)
    requires Injective(byName)
    modifies byName.Values
    ensures forall name :: name in byName ==>
      byName[name].state == Raised(old(byName[name].state), components, state, Printed(name))
    ensures marked.Keys == groupState.Keys
    ensures forall group :: group in marked ==>
      marked[group] == Raised(groupState[group], components, state, Within(group, byName.Keys))
  {
    marked := groupState;
    for i := 0 to |components|
      invariant forall name :: name in byName ==>
        byName[name].state == Raised(old(byName[name].state), components[..i], state, Printed(name))
      invariant marked.Keys == groupState.Keys
      invariant forall group :: group in marked ==>
        marked[group] == Raised(groupState[group], components[..i], state, Within(group, byName.Keys))
    {
      var c := components[i];
      assert components[..i + 1] == components[..i] + [c];
      forall s, target {
        RaisedMore(s, components[..i], c, state, target);
      }
      if Print(c) !in byName {
        continue;
      }
      var data := byName[Print(c)];
      if state > data.state {
        data.state := state;
      }
      if c.group in marked && state > marked[c.group] {
        marked := marked[c.group := state];
      }
    }
    assert components[..|components|] == components;
  }

  // ---- the timeline

  ghost function Days(incidents: seq<Incident>, day: Incident -> int): (days: seq<int>)
    ensures |days| == |incidents|
    ensures forall i :: 0 <= i < |incidents| ==> days[i] == day(incidents[i])
  {
    seq(|incidents|, i requires 0 <= i < |incidents| => day(incidents[i]))
  }

  /** One bucket for each day on which an incident was created or which is in `more`, and `dates` names
    * each bucket once. */
  ghost predicate Bucketed(timeline: map<int, seq<Incident>>, dates: seq<int>, incidents: seq<Incident>,
                           day: Incident -> int, more: seq<int>) {
    && (forall d :: d in timeline <==> d in Days(incidents, day) || d in more)
    && (forall d :: d in timeline ==> timeline[d] == Under(Days(incidents, day), incidents, d))
    && (forall d :: d in timeline <==> d in dates)
    && (forall i, j :: 0 <= i < j < |dates| ==> dates[i] != dates[j])
  }

  method AddToTimeline(timeline: map<int, seq<Incident>>, dates: seq<int>, ghost incidents: seq<Incident>,
                       day: Incident -> int, incident: Incident)
    returns (timeline': map<int, seq<Incident>>, dates': seq<int>)
    requires Bucketed(timeline, dates, incidents, day, [])
    ensures Bucketed(timeline', dates', incidents + [incident], day, [])
  {
    var date := day(incident);
    assert forall d :: d in timeline <==> d in Days(incidents, day);
    RegroupedMore(timeline, Days(incidents, day), incidents, date, incident);
    assert Days(incidents + [incident], day) == Days(incidents, day) + [date];
    if date in timeline {
      timeline', dates' := timeline[date := timeline[date] + [incident]], dates;
    } else {
      timeline', dates' := timeline[date := [incident]], dates + [date];
    }
  }

  ghost function FirstDays(week: nat -> int, n: nat): (days: seq<int>)
    ensures |days| == n && forall i :: 0 <= i < n ==> days[i] == week(i)
  {
    seq(n, i requires 0 <= i < n => week(i))
  }

  /** The seven days of the page get a bucket even when nothing happened. */
  method AddWeek(timeline: map<int, seq<Incident>>, dates: seq<int>, ghost incidents: seq<Incident>,
                 day: Incident -> int, week: nat -> int)
    returns (timeline': map<int, seq<Incident>>, dates': seq<int>)
    requires Bucketed(timeline, dates, incidents, day, [])
    ensures Bucketed(timeline', dates', incidents, day, FirstDays(week, 7))
  {
    timeline', dates' := timeline, dates;
    for i := 0 to 7
      invariant Bucketed(timeline', dates', incidents, day, FirstDays(week, i))
    {
      var date := week(i);
      assert FirstDays(week, i + 1) == FirstDays(week, i) + [date];
      if date !in timeline' {
        UnderNone(Days(incidents, day), incidents, date);
        timeline', dates' := timeline'[date := []], dates' + [date];
      }
    }
  }

  // ---- the page

  datatype IndexData = IndexData(
    groupState: map<string, int>,
    byGroup: map<string, seq<ComponentStateData>>,
    timeline: map<int, seq<Incident>>,
    dates: seq<int>,
    scheduled: seq<Incident>,
    persistents: seq<Incident>)

  ghost function Known(config: seq<Configured>): set<string> {
    set name | name in Names(config)
  }

  /** What the cell of component `k` shows. One that prints like a later one stays Operational. */
  ghost predicate Shows(state: int, config: seq<Configured>, incidents: seq<Incident>, k: nat)
    requires k < |config|
  {
    if IsLast(Names(config), k) then Worst(state, incidents, Printed(Names(config)[k])) else state == OPERATIONAL
  }

  ghost predicate CellsRight(cells: seq<ComponentStateData>, config: seq<Configured>, incidents: seq<Incident>)
    reads cells
    requires |cells| == |config|
  {
    forall k :: 0 <= k < |cells| ==> Shows(cells[k].state, config, incidents, k)
  }

  ghost predicate GroupsRight(groupState: map<string, int>, config: seq<Configured>, incidents: seq<Incident>) {
    && (forall group :: group in groupState <==> group in Groups(config))
    && (forall group :: group in groupState ==> Worst(groupState[group], incidents, Within(group, Known(config))))
  }

  /** One incident of the loop marks the states, if it is not over. */
  method MarkIncident(incident: Incident, ghost incidents: seq<Incident>,
                      byName: map<string, ComponentStateData>, groupState: map<string, int>)
    returns (marked: map<string, int>)
    requires Injective(byName)
    requires forall name :: name in byName ==> Worst(byName[name].state, incidents, Printed(name))
    requires forall group :: group in groupState ==> Worst(groupState[group], incidents, Within(group, byName.Keys))
    modifies byName.Values
    ensures forall name :: name in byName ==> Worst(byName[name].state, incidents + [incident], Printed(name))
    ensures marked.Keys == groupState.Keys
    ensures forall group :: group in marked ==> Worst(marked[group], incidents + [incident], Within(group, byName.Keys))
  {
    forall s, target | Worst(s, incidents, target) {
      WorstGrows(s, incidents, incident, target);
    }
    if incident.state == RESOLVED || incident.components == None {
      return groupState;
    }
    marked := Mark(incident.components.value, incident.componentState, byName, groupState);
  }

  /** The loop over the incidents. */
  method Tally(incidents: seq<Incident>, byName: map<string, ComponentStateData>, groupState: map<string, int>,
               day: Incident -> int)
    returns (marked: map<string, int>, timeline: map<int, seq<Incident>>, dates: seq<int>)
    requires Injective(byName)
    requires forall name :: name in byName ==> byName[name].state == OPERATIONAL
    requires forall group :: group in groupState ==> groupState[group] == OPERATIONAL
    modifies byName.Values
    ensures forall name :: name in byName ==> Worst(byName[name].state, incidents, Printed(name))
    ensures marked.Keys == groupState.Keys
    ensures forall group :: group in marked ==> Worst(marked[group], incidents, Within(group, byName.Keys))
    ensures Bucketed(timeline, dates, incidents, day, [])
  {
    marked, timeline, dates := groupState, map[], [];
    for i := 0 to |incidents|
      invariant forall name :: name in byName ==> Worst(byName[name].state, incidents[..i], Printed(name))
      invariant marked.Keys == groupState.Keys
      invariant forall group :: group in marked ==> Worst(marked[group], incidents[..i], Within(group, byName.Keys))
      invariant Bucketed(timeline, dates, incidents[..i], day, [])
    {
      assert incidents[..i + 1] == incidents[..i] + [incidents[i]];
      timeline, dates := AddToTimeline(timeline, dates, incidents[..i], day, incidents[i]);
      marked := MarkIncident(incidents[i], incidents[..i], byName, marked);
    }
    assert incidents[..|incidents|] == incidents;
  }

  ghost predicate Descending(dates: seq<int>) {
    forall i, j :: 0 <= i < j < |dates| ==> dates[i] > dates[j]
  }

  method SortDates(dates: seq<int>) returns (sorted: seq<int>)
    requires forall i, j :: 0 <= i < j < |dates| ==> dates[i] != dates[j]
    ensures Descending(sorted)
    ensures forall d :: d in sorted <==> d in dates
  {
    sorted := Seqs.SortBy(dates, (d: int) => -d);
    SortedDistinct(dates, sorted);
    Seqs.SameMembers(sorted, dates);
  }

  lemma SortedDistinct(dates: seq<int>, sorted: seq<int>)
    requires forall i, j :: 0 <= i < j < |dates| ==> dates[i] != dates[j]
    requires multiset(sorted) == multiset(dates) && Seqs.Ascending(sorted, (d: int) => -d)
    ensures Descending(sorted)
  {
    forall i, j | 0 <= i < j < |sorted|
      ensures sorted[i] > sorted[j]
    {
      var key := (d: int) => -d;
      assert key(sorted[i]) <= key(sorted[j]);
      if sorted[i] == sorted[j] {
        Seqs.Twice(sorted, i, j);
        Seqs.Once(dates, sorted[i]);
      }
    }
  }

  /** No name leads to the cell of a component that prints like a later one. */
  lemma Shadowed(byGroup: map<string, seq<ComponentStateData>>, byName: map<string, ComponentStateData>,
                 config: seq<Configured>, cells: seq<ComponentStateData>, k: nat)
    requires Laid(byGroup, byName, config, cells)
    requires k < |cells| && !IsLast(Names(config), k)
    ensures cells[k] !in byName.Values
  {
    forall name | name in byName
      ensures byName[name] != cells[k]
    {
      var j := LastOf(Names(config), name);
      assert byName[name] == cells[j] && j != k;
    }
  }

  lemma CellIsRight(byGroup: map<string, seq<ComponentStateData>>, byName: map<string, ComponentStateData>,
                    config: seq<Configured>, cells: seq<ComponentStateData>, k: nat)
    requires Laid(byGroup, byName, config, cells) && k < |cells|
    ensures Names(config)[k] in byName
    ensures if IsLast(Names(config), k) then byName[Names(config)[k]] == cells[k] else cells[k] !in byName.Values
  {
    var names := Names(config);
    assert names[k] in names;
    if IsLast(names, k) {
      assert LastOf(names, names[k]) == k;
    } else {
      Shadowed(byGroup, byName, config, cells, k);
    }
  }

  lemma CellsAreRight(byGroup: map<string, seq<ComponentStateData>>, byName: map<string, ComponentStateData>,
                      config: seq<Configured>, cells: seq<ComponentStateData>, incidents: seq<Incident>)
    requires Laid(byGroup, byName, config, cells)
    requires forall name :: name in byName ==> Worst(byName[name].state, incidents, Printed(name))
    requires forall cell :: cell in cells && cell !in byName.Values ==> cell.state == OPERATIONAL
    ensures CellsRight(cells, config, incidents)
  {
    forall k | 0 <= k < |cells|
      ensures Shows(cells[k].state, config, incidents, k)
    {
      CellIsRight(byGroup, byName, config, cells, k);
      assert cells[k] in cells;
    }
  }

  lemma KnownNames(byName: map<string, ComponentStateData>, config: seq<Configured>, cells: seq<ComponentStateData>)
    requires Named(byName, Names(config), cells)
    ensures byName.Keys == Known(config)
  {
  }

  /** What the incidents of the period make of the components, the groups and the timeline. */
  method States(config: seq<Configured>, incidents: seq<Incident>, day: Incident -> int, week: nat -> int)
    returns (groupState: map<string, int>, byGroup: map<string, seq<ComponentStateData>>,
             timeline: map<int, seq<Incident>>, dates: seq<int>, ghost cells: seq<ComponentStateData>)
    ensures |cells| == |config| && CellsRight(cells, config, incidents)
    ensures forall k :: 0 <= k < |cells| ==>
      cells[k].name == config[k].component.name && cells[k].description == config[k].description
    ensures Regrouped(byGroup, Groups(config), cells)
    ensures GroupsRight(groupState, config, incidents)
    ensures Bucketed(timeline, dates, incidents, day, FirstDays(week, 7)) && Descending(dates)
  {
    var byName;
    byGroup, byName, cells := MakeCells(config);
    LaidIsInjective(byGroup, byName, config, cells);
    KnownNames(byName, config, cells);
    var regroups := Regroups(config);
    groupState := map group | group in regroups :: OPERATIONAL;
    forall name | name in byName
      ensures byName[name] in cells
    {
    }
    groupState, timeline, dates := Tally(incidents, byName, groupState, day);
    CellsAreRight(byGroup, byName, config, cells, incidents);
    timeline, dates := AddWeek(timeline, dates, incidents, day, week);
    dates := SortDates(dates);
  }

  /** What the page finds in the world outside: the plain and the persistent incidents of the store and
    * whether the three queries to it fail; the start of today when each period is computed; the clock
    * during each query; the setting; and `day`, the day an incident was created in the zone its own time
    * carries, told by its date text, which is read back to
    * sort the dates. */
  datatype Outside = Outside(
    stored: seq<Incident>,
    persistents: seq<Incident>,
    fails: (bool, bool, bool),
    midnights: (Time, Time),
    first: nat -> Time,
    second: nat -> Time,
    disable: bool,
    day: Incident -> int)

  method ByDate(stored: seq<Incident>, window: DateQuery.Window, fails: bool) returns (found: Option<seq<Incident>>)
    ensures found == if fails then None else Some(DateQuery.Found(stored, window))
  {
    if fails {
      return None;
    }
    var incidents := [];
    for i := 0 to |stored|
      invariant incidents == DateQuery.Found(stored[..i], window)
    {
      assert stored[..i + 1][..i] == stored[..i];
      if DateQuery.Within(stored[i], window) {
        incidents := incidents + [stored[i]];
      }
    }
    assert stored[..|stored|] == stored;
    return Some(incidents);
  }

  /** Whether an incident at a place of the store belongs on the timeline: it was created in the period and
    * is no maintenance when the query looks at it, or one that is over and neither resolved nor idle. With
    * the setting only those without a scheduled end after the first instant of 2000 do. */
  ghost function TimelineAt(o: Outside, one: DateQuery.Window, x: Incident): nat -> bool {
    (k: nat) =>
      && one.from <= x.createdAt <= one.to
      && var now := o.first(DateQuery.Earlier(o.stored, one, k));
         if o.disable then x.scheduledEnd <= 63082281600 * 1000000000
         else !x.isScheduled || (x.scheduledEnd <= now && x.state != RESOLVED && x.state != IDLE)
  }

  /** And whether among the scheduled ones, by the other period and a later look. */
  ghost function ScheduleAt(o: Outside, two: DateQuery.Window, x: Incident): nat -> bool {
    (k: nat) =>
      && two.from <= x.createdAt <= two.to
      && var now := o.second(DateQuery.Earlier(o.stored, two, k));
         if o.disable then x.scheduledEnd > 63082281600 * 1000000000
         else x.isScheduled && (x.scheduledEnd > now || x.state == RESOLVED || x.state == IDLE)
  }

  /** getIndexData: the states and the timeline from the incidents of the period `one`, the scheduled ones
    * from the period `two`. The first goes from six days back to the end of today, the second from today to
    * the end of the twenty-sixth day after it, in nanoseconds; a request that names a start moves both, and
    * one that names an end cuts both there. `week(from, i)` is the i-th day from the start of the first. */
  method GetIndexData(config: seq<Configured>, query: DateQuery.Query, o: Outside, week: (Time, nat) -> int)
    returns (page: Option<IndexData>, ghost cells: seq<ComponentStateData>, ghost incidents: seq<Incident>,
             ghost one: DateQuery.Window, ghost two: DateQuery.Window)
    ensures page.Some? <==>
      query.from != DateQuery.Malformed && query.to != DateQuery.Malformed && o.fails == (false, false, false)
    ensures page.Some? ==>
      && one.from == (if query.from.Date? then query.from.at else o.midnights.0 - 6 * 86400000000000)
      && one.to == (if query.to.Date? then query.to.at else one.from + 7 * 86400000000000 - 1000000000)
      && two.from == (if query.from.Date? then query.from.at else o.midnights.1)
      && two.to == (if query.to.Date? then query.to.at else two.from + 27 * 86400000000000 - 1000000000)
    ensures page.Some? ==>
      && DateQuery.LatestFirst(incidents)
      && (forall x :: multiset(incidents)[x] == Seqs.Places(o.stored, x, TimelineAt(o, one, x)))
      && OldestFirst(page.value.scheduled)
      && (forall x :: multiset(page.value.scheduled)[x] == Seqs.Places(o.stored, x, ScheduleAt(o, two, x)))
      && page.value.persistents == o.persistents
    ensures page.Some? ==>
      && |cells| == |config| && CellsRight(cells, config, incidents)
      && Regrouped(page.value.byGroup, Groups(config), cells)
      && (forall k :: 0 <= k < |cells| ==>
            cells[k].name == config[k].component.name && cells[k].description == config[k].description)
      && GroupsRight(page.value.groupState, config, incidents)
    ensures page.Some? ==>
      && Bucketed(page.value.timeline, page.value.dates, incidents, o.day,
                  FirstDays((i: nat) => week(one.from, i), 7))
      && Descending(page.value.dates)
  {
    cells, incidents, one, two := [], [], DateQuery.Window(0, 0), DateQuery.Window(0, 0);
    var window := DateQuery.PeriodFromReq(query, o.midnights.0, -6, 0);
    if window == None {
      return None, cells, incidents, one, two;
    }
    one := window.value;
    var shown := AskTimeline(o, window.value);
    if shown == None {
      return None, cells, incidents, one, two;
    }
    incidents := shown.value;
    var groupState, byGroup, timeline, dates;
    var days := (i: nat) => week(window.value.from, i);
    groupState, byGroup, timeline, dates, cells := States(config, shown.value, o.day, days);
    var later := DateQuery.PeriodFromReq(query, o.midnights.1, 0, 26);
    if later == None {
      return None, cells, incidents, one, two;
    }
    two := later.value;
    var scheduled := AskSchedule(o, later.value);
    if scheduled == None || o.fails.2 {
      return None, cells, incidents, one, two;
    }
    page := Some(IndexData(groupState, byGroup, timeline, dates, scheduled.value, o.persistents));
  }

  /** The first query. */
  method AskTimeline(o: Outside, one: DateQuery.Window) returns (shown: Option<seq<Incident>>)
    ensures shown.Some? <==> !o.fails.0
    ensures shown.Some? ==> DateQuery.LatestFirst(shown.value)
    ensures shown.Some? ==> forall x :: multiset(shown.value)[x] == Seqs.Places(o.stored, x, TimelineAt(o, one, x))
  {
    var listing := ByDate(o.stored, one, o.fails.0);
    shown := DateQuery.IncidentsByParamsDate(listing, false, o.first, o.disable);
    assert o.stored[..|o.stored|] == o.stored;
    forall x: Incident {
      DateQuery.FoundPlaces(o.stored, one, x, |o.stored|,
        (i: nat) =>
          if o.disable then x.scheduledEnd <= 63082281600 * 1000000000
          else !x.isScheduled || (x.scheduledEnd <= o.first(i) && x.state != RESOLVED && x.state != IDLE),
        TimelineAt(o, one, x));
    }
  }

  /** The second query. */
  method AskSchedule(o: Outside, two: DateQuery.Window) returns (shown: Option<seq<Incident>>)
    ensures shown.Some? <==> !o.fails.1
    ensures shown.Some? ==> OldestFirst(shown.value)
    ensures shown.Some? ==> forall x :: multiset(shown.value)[x] == Seqs.Places(o.stored, x, ScheduleAt(o, two, x))
  {
    var listing := ByDate(o.stored, two, o.fails.1);
    shown := DateQuery.Scheduled(listing, o.second, o.disable);
    assert o.stored[..|o.stored|] == o.stored;
    forall x: Incident {
      DateQuery.FoundPlaces(o.stored, two, x, |o.stored|,
        (i: nat) =>
          if o.disable then x.scheduledEnd > 63082281600 * 1000000000
          else x.isScheduled && (x.scheduledEnd > o.second(i) || x.state == RESOLVED || x.state == IDLE),
        ScheduleAt(o, two, x));
    }
  }

  /** Exactly when a stored incident is on the page, where it is then exactly once: looked at for the timeline
    * at `t`, and for the scheduled incidents at `u`, not before. It is at place `k` of the store. */
  lemma OnThePage(o: Outside, one: DateQuery.Window, two: DateQuery.Window, x: Incident, k: nat, t: Time, u: Time)
    requires multiset(o.stored)[x] == 1 && k < |o.stored| && o.stored[k] == x
    requires t == o.first(DateQuery.Earlier(o.stored, one, k)) && u == o.second(DateQuery.Earlier(o.stored, two, k))
    requires t <= u
    ensures Seqs.Places(o.stored, x, TimelineAt(o, one, x)) + Seqs.Places(o.stored, x, ScheduleAt(o, two, x))
         == if DateQuery.OnTimeline(x, one, t, o.disable) || DateQuery.OnSchedule(x, two, u, o.disable) then 1 else 0
  {
    Seqs.PlacesOnce(o.stored, x, TimelineAt(o, one, x), k);
    Seqs.PlacesOnce(o.stored, x, ScheduleAt(o, two, x), k);
  }

  /** On the page of a request without dates, an incident that was not planned is on the timeline as often
    * as it is stored, if it was created in the last six days or today, and else not at all. */
  lemma UnplannedOnThePage(o: Outside, one: DateQuery.Window, x: Incident)
    requires one.from == o.midnights.0 - 6 * 86400000000000
    requires one.to == one.from + 7 * 86400000000000 - 1000000000
    requires !x.isScheduled && !o.disable
    ensures Seqs.Places(o.stored, x, TimelineAt(o, one, x))
         == if o.midnights.0 - 518400000000000 <= x.createdAt <= o.midnights.0 + 86399000000000
            then multiset(o.stored)[x] else 0
  {
    if one.from <= x.createdAt <= one.to {
      Seqs.PlacesAll(o.stored, x, TimelineAt(o, one, x));
    } else {
      Seqs.PlacesNone(o.stored, x, TimelineAt(o, one, x));
    }
  }

  // ---- what this means for the reader of the page

  /** The incident found is not resolved and lists the component. */
  ghost predicate Lists(incidents: seq<Incident>, x: Incident, c: Component) {
    x in incidents && x.state != RESOLVED && x.components.Some? && c in x.components.value
  }

  /** The cell of a component that no later one prints like: no unresolved incident found that lists it by
    * its text is worse, and one is as bad unless all is well. */
  lemma CellMeans(state: int, config: seq<Configured>, incidents: seq<Incident>, k: nat)
    requires k < |config| && Shows(state, config, incidents, k)
    requires forall j :: k < j < |config| ==> Print(config[j].component) != Print(config[k].component)
    ensures state >= 0
    ensures forall x, c :: Lists(incidents, x, c) && Print(c) == Print(config[k].component) ==>
      x.componentState <= state
    ensures state > 0 ==> exists x, c ::
      Lists(incidents, x, c) && Print(c) == Print(config[k].component) && x.componentState == state
  {
    var target := Printed(Names(config)[k]);
    assert IsLast(Names(config), k) && Worst(state, incidents, target);
    forall x, c | Lists(incidents, x, c) && Print(c) == Print(config[k].component)
      ensures x.componentState <= state
    {
      assert Aims(c, target) && Concerns(x, target);
    }
    if state > 0 {
      var x :| x in incidents && Concerns(x, target) && x.componentState == state;
      var c :| c in x.components.value && Aims(c, target);
      assert Lists(incidents, x, c);
    }
  }

  /** By its text the component is one of the configuration. */
  ghost predicate Configures(config: seq<Configured>, c: Component) {
    exists k :: 0 <= k < |config| && Print(config[k].component) == Print(c)
  }

  /** The same for a group: what counts is a component that is listed under it and configured. */
  lemma GroupMeans(groupState: map<string, int>, config: seq<Configured>, incidents: seq<Incident>, group: string)
    requires GroupsRight(groupState, config, incidents) && group in groupState
    ensures exists k :: 0 <= k < |config| && config[k].component.group == group
    ensures groupState[group] >= 0
    ensures forall x, c :: Lists(incidents, x, c) && c.group == group && Configures(config, c) ==>
      x.componentState <= groupState[group]
    ensures groupState[group] > 0 ==> exists x, c ::
      Lists(incidents, x, c) && c.group == group && Configures(config, c) && x.componentState == groupState[group]
  {
    var state, target := groupState[group], Within(group, Known(config));
    assert Worst(state, incidents, target);
    forall x, c | Lists(incidents, x, c) && c.group == group && Configures(config, c)
      ensures x.componentState <= state
    {
      ConfiguredIsKnown(config, c);
      assert Aims(c, target) && Concerns(x, target);
    }
    if state > 0 {
      var x :| x in incidents && Concerns(x, target) && x.componentState == state;
      var c :| c in x.components.value && Aims(c, target);
      ConfiguredIsKnown(config, c);
      assert Lists(incidents, x, c);
    }
  }

  lemma ConfiguredIsKnown(config: seq<Configured>, c: Component)
    ensures Configures(config, c) <==> Print(c) in Known(config)
  {
    var names := Names(config);
    if k :| 0 <= k < |config| && Print(config[k].component) == Print(c) {
      assert names[k] in names;
    }
  }

  /** The component read from a text prints as the text, less a separator at its start; and it is `c` if the
    * text is what `c` prints as and `c` is unambiguous, or a separator before the name of an ungrouped `c`. */
  lemma ReadAs(text: string, c: Component)
    ensures Print(Parse(text)) == if StartsWith(text, SEPARATOR) then text[3..] else text
    ensures Parse(text) == c
       <==> if StartsWith(text, SEPARATOR) then c.group == "" && text == SEPARATOR + Print(c)
            else text == Print(c) && Unambiguous(c)
  {
    StartIsSeparator(text);
    if StartsWith(text, SEPARATOR) {
      FirstSeparator(text, 0);
      assert Parse(text) == Component(text[3..], "") && text == SEPARATOR + text[3..];
    } else {
      PrintAfterParse(text);
      ParseAfterPrint(c);
    }
  }

  /** How a component can be listed, or concerned without being listed, by an incident read from texts. */
  ghost predicate Spelled(c: Component, texts: seq<string>) {
    Print(c) in texts && !StartsWith(Print(c), SEPARATOR)
  }

  ghost predicate SpelledApart(c: Component, texts: seq<string>) {
    SEPARATOR + Print(c) in texts
  }

  /** An incident whose components were read from these texts concerns a component exactly when it lists it,
    * unless a text is what the component prints as, or that behind a separator, and none of them reads as
    * the component: then it concerns the component without listing it. */
  lemma ConcernsWhatItLists(config: seq<Configured>, k: nat, x: Incident, texts: seq<string>)
    requires k < |config| && Open(x) && |texts| == |x.components.value|
    requires forall i :: 0 <= i < |texts| ==> x.components.value[i] == Parse(texts[i])
    ensures var c := config[k].component;
            && (Concerns(x, Printed(Names(config)[k])) <==> Spelled(c, texts) || SpelledApart(c, texts))
            && (c in x.components.value <==>
                  (Spelled(c, texts) && Unambiguous(c)) || (SpelledApart(c, texts) && c.group == ""))
  {
    var c, components := config[k].component, x.components.value;
    forall i | 0 <= i < |texts|
      ensures Print(components[i]) == Print(c) <==> SpelledBy(c, texts[i]) || texts[i] == SEPARATOR + Print(c)
      ensures components[i] == c <==>
        (SpelledBy(c, texts[i]) && Unambiguous(c)) || (texts[i] == SEPARATOR + Print(c) && c.group == "")
    {
      SpelledExactly(c, texts[i]);
    }
    AnyOf(config, k, x, texts);
  }

  predicate SpelledBy(c: Component, text: string) {
    text == Print(c) && !StartsWith(text, SEPARATOR)
  }

  lemma SpelledExactly(c: Component, text: string)
    ensures Print(Parse(text)) == Print(c) <==> SpelledBy(c, text) || text == SEPARATOR + Print(c)
    ensures Parse(text) == c
       <==> (SpelledBy(c, text) && Unambiguous(c)) || (text == SEPARATOR + Print(c) && c.group == "")
  {
    ReadAs(text, c);
    if StartsWith(text, SEPARATOR) {
      assert text == text[..3] + text[3..];
    }
    assert (SEPARATOR + Print(c))[..3] == SEPARATOR && (SEPARATOR + Print(c))[3..] == Print(c);
  }

  /** From one text to all of them. */
  lemma AnyOf(config: seq<Configured>, k: nat, x: Incident, texts: seq<string>)
    requires k < |config| && Open(x) && |texts| == |x.components.value|
    requires forall i :: 0 <= i < |texts| ==>
      (Print(x.components.value[i]) == Print(config[k].component) <==>
         SpelledBy(config[k].component, texts[i]) || texts[i] == SEPARATOR + Print(config[k].component))
    ensures Concerns(x, Printed(Names(config)[k]))
       <==> Spelled(config[k].component, texts) || SpelledApart(config[k].component, texts)
  {
    var c, components := config[k].component, x.components.value;
    if d :| d in components && Print(d) == Print(c) {
      var i :| 0 <= i < |components| && components[i] == d;
      assert texts[i] in texts;
    }
    if Spelled(c, texts) {
      var i :| 0 <= i < |texts| && texts[i] == Print(c);
      assert components[i] in components && Aims(components[i], Printed(Print(c)));
    }
    if SpelledApart(c, texts) {
      var i :| 0 <= i < |texts| && texts[i] == SEPARATOR + Print(c);
      assert components[i] in components && Aims(components[i], Printed(Print(c)));
    }
  }

  /** The state of the worst of the incidents that concern the target. */
  ghost function WorstOf(incidents: seq<Incident>, target: Target): (state: int)
    ensures Worst(state, incidents, target)
  {
    if incidents == [] then OPERATIONAL
    else
      var front, x := incidents[..|incidents| - 1], incidents[|incidents| - 1];
      WorstGrows(WorstOf(front, target), front, x, target);
      assert incidents == front + [x];
      if Concerns(x, target) then Max(WorstOf(front, target), x.componentState) else WorstOf(front, target)
  }

  lemma OneWorst(s: int, t: int, incidents: seq<Incident>, target: Target)
    requires Worst(s, incidents, target) && Worst(t, incidents, target)
    ensures s == t
  {
  }

  /** The printed name leads to a cell of the group. */
  ghost predicate CellIn(config: seq<Configured>, printed: string, group: string) {
    printed in Names(config) && config[LastOf(Names(config), printed)].component.group == group
  }

  /** The incident raises the cell of some component of the group, through its printed name. */
  ghost predicate RaisesCellIn(config: seq<Configured>, x: Incident, group: string) {
    Open(x) && exists c ::
      c in x.components.value && CellIn(config, Print(c), group)
  }

  /** The incident raises the group exactly when it raises one of its cells. */
  ghost predicate Agrees(config: seq<Configured>, x: Incident, group: string) {
    Concerns(x, Within(group, Known(config))) <==> RaisesCellIn(config, x, group)
  }

  /** The state of a group is the worst state among its components if every incident that is worse than
    * Operational raises both or neither. */
  lemma {:induction false} GroupIsWorstOfItsComponents(config: seq<Configured>, incidents: seq<Incident>,
                                                       states: seq<int>, group: string, state: int)
    requires |states| == |config| && group in Groups(config)
    requires forall x :: x in incidents && x.componentState > OPERATIONAL ==> Agrees(config, x, group)
    requires forall k :: 0 <= k < |config| ==> Shows(states[k], config, incidents, k)
    requires Worst(state, incidents, Within(group, Known(config)))
    ensures forall k :: 0 <= k < |config| && config[k].component.group == group ==> states[k] <= state
    ensures exists k :: 0 <= k < |config| && config[k].component.group == group && states[k] == state
  {
    forall k | 0 <= k < |config| && config[k].component.group == group
      ensures states[k] <= state
    {
      assert Shows(states[k], config, incidents, k);
      GroupIsNoBetter(config, incidents, states[k], state, k);
    }
    if state == OPERATIONAL {
      var k :| 0 <= k < |config| && Groups(config)[k] == group;
      assert Shows(states[k], config, incidents, k);
    } else {
      var k := GroupIsNoWorse(config, incidents, group, state);
      assert Shows(states[k], config, incidents, k);
    }
  }

  lemma GroupIsNoBetter(config: seq<Configured>, incidents: seq<Incident>, s: int, state: int, k: nat)
    requires k < |config| && Shows(s, config, incidents, k)
    requires forall x :: x in incidents && x.componentState > OPERATIONAL ==>
      Agrees(config, x, config[k].component.group)
    requires Worst(state, incidents, Within(config[k].component.group, Known(config)))
    ensures s <= state
  {
    if s != OPERATIONAL {
      var x :| x in incidents && Concerns(x, Printed(Names(config)[k])) && x.componentState == s;
      RaisesItsCell(config, x, k);
      assert Agrees(config, x, config[k].component.group);
    }
  }

  lemma RaisesItsCell(config: seq<Configured>, x: Incident, k: nat)
    requires k < |config| && IsLast(Names(config), k) && Concerns(x, Printed(Names(config)[k]))
    ensures RaisesCellIn(config, x, config[k].component.group)
  {
    var c :| c in x.components.value && Print(c) == Names(config)[k];
    assert LastOf(Names(config), Print(c)) == k;
  }

  lemma GroupIsNoWorse(config: seq<Configured>, incidents: seq<Incident>, group: string, state: int) returns (k: nat)
    requires forall x :: x in incidents && x.componentState > OPERATIONAL ==> Agrees(config, x, group)
    requires Worst(state, incidents, Within(group, Known(config))) && state != OPERATIONAL
    ensures k < |config| && config[k].component.group == group && IsLast(Names(config), k)
    ensures forall s :: Worst(s, incidents, Printed(Names(config)[k])) ==> state <= s
  {
    var x :| x in incidents && Concerns(x, Within(group, Known(config))) && x.componentState == state;
    assert Agrees(config, x, group);
    var c :| c in x.components.value && CellIn(config, Print(c), group);
    k := LastOf(Names(config), Print(c));
    assert Aims(c, Printed(Names(config)[k]));
    assert Concerns(x, Printed(Names(config)[k]));
  }

  /** What the cell of component `k` shows, and that the group shows the worst of its cells. */
  ghost function Shown(config: seq<Configured>, incidents: seq<Incident>, k: nat): (state: int)
    requires k < |config|
    ensures Shows(state, config, incidents, k)
  {
    if IsLast(Names(config), k) then WorstOf(incidents, Printed(Names(config)[k])) else OPERATIONAL
  }

  ghost predicate GroupIsMaximum(config: seq<Configured>, incidents: seq<Incident>, group: string) {
    var state := WorstOf(incidents, Within(group, Known(config)));
    && (forall k :: 0 <= k < |config| && config[k].component.group == group ==> Shown(config, incidents, k) <= state)
    && (exists k :: 0 <= k < |config| && config[k].component.group == group && Shown(config, incidents, k) == state)
  }

  ghost predicate From(incidents: seq<Incident>, pool: seq<Incident>) {
    forall x :: x in incidents ==> x in pool
  }

  /** Exactly when: whatever incidents of a pool the page has found, a group shows the worst of its
    * components if and only if every incident of the pool that is worse than Operational raises the
    * group exactly when it raises one of its cells. */
  lemma {:induction false} GroupIsMaximumExactly(config: seq<Configured>, pool: seq<Incident>, group: string)
    requires group in Groups(config)
    ensures (forall incidents :: From(incidents, pool) ==> GroupIsMaximum(config, incidents, group))
       <==> (forall x :: x in pool && x.componentState > OPERATIONAL ==> Agrees(config, x, group))
  {
    if forall x :: x in pool && x.componentState > OPERATIONAL ==> Agrees(config, x, group) {
      forall incidents | From(incidents, pool)
        ensures GroupIsMaximum(config, incidents, group)
      {
        AgreeingGroup(config, incidents, group);
      }
    }
    if forall incidents :: From(incidents, pool) ==> GroupIsMaximum(config, incidents, group) {
      forall x | x in pool && x.componentState > OPERATIONAL
        ensures Agrees(config, x, group)
      {
        assert From([x], pool);
        assert GroupIsMaximum(config, [x], group);
        OneIncidentGroup(config, x, group);
      }
    }
  }

  lemma {:induction false} AgreeingGroup(config: seq<Configured>, incidents: seq<Incident>, group: string)
    requires group in Groups(config)
    requires forall x :: x in incidents && x.componentState > OPERATIONAL ==> Agrees(config, x, group)
    ensures GroupIsMaximum(config, incidents, group)
  {
    var states := seq(|config|, k requires 0 <= k < |config| => Shown(config, incidents, k));
    GroupIsWorstOfItsComponents(config, incidents, states, group, WorstOf(incidents, Within(group, Known(config))));
  }

  /** One incident alone on the page decides it. */
  lemma {:induction false} OneIncidentGroup(config: seq<Configured>, x: Incident, group: string)
    requires group in Groups(config) && x.componentState > OPERATIONAL
    ensures GroupIsMaximum(config, [x], group) <==> Agrees(config, x, group)
  {
    if Agrees(config, x, group) {
      AgreeingGroup(config, [x], group);
    } else if RaisesCellIn(config, x, group) {
      var c :| c in x.components.value && CellIn(config, Print(c), group);
      var k := LastOf(Names(config), Print(c));
      assert Aims(c, Printed(Names(config)[k])) && x in [x];
      AloneShows(x, Printed(Names(config)[k]));
      AloneShows(x, Within(group, Known(config)));
      assert Shown(config, [x], k) > WorstOf([x], Within(group, Known(config)));
    } else {
      AloneShows(x, Within(group, Known(config)));
      forall k | 0 <= k < |config| && config[k].component.group == group
        ensures Shown(config, [x], k) == OPERATIONAL
      {
        AloneShows(x, Printed(Names(config)[k]));
        if IsLast(Names(config), k) && Concerns(x, Printed(Names(config)[k])) {
          RaisesItsCell(config, x, k);
        }
      }
    }
  }

  lemma AloneShows(x: Incident, target: Target)
    requires x.componentState > OPERATIONAL
    ensures WorstOf([x], target) == if Concerns(x, target) then x.componentState else OPERATIONAL
  {
    assert x in [x];
    assert Worst(if Concerns(x, target) then x.componentState else OPERATIONAL, [x], target);
    OneWorst(WorstOf([x], target), if Concerns(x, target) then x.componentState else OPERATIONAL, [x], target);
  }

  /** Where printing loses nothing, every incident agrees. */
  lemma UnambiguousAgrees(config: seq<Configured>, x: Incident, group: string)
    requires forall k :: 0 <= k < |config| ==> Unambiguous(config[k].component)
    requires Open(x) ==> forall c :: c in x.components.value ==> Unambiguous(c)
    ensures Agrees(config, x, group)
  {
    if Open(x) {
      forall c | c in x.components.value && Print(c) in Names(config)
        ensures config[LastOf(Names(config), Print(c))].component == c
      {
        PrintsApart(c, config[LastOf(Names(config), Print(c))].component);
      }
    }
  }

  /** A page with one configured component, and an incident that names it by the text it prints as, which
    * is how a request names components: the group shows what its only component shows exactly when that
    * component is unambiguous, or its text starts with the separator and so names something else. An
    * ungrouped component called "A - B" is red while the group of ungrouped components is green. */
  lemma OneComponentPage(component: Component, x: Incident)
    requires Open(x) && x.componentState > OPERATIONAL && x.components.value == [Parse(Print(component))]
    ensures GroupIsMaximum([Configured(component, "")], [x], component.group)
       <==> (Unambiguous(component) || StartsWith(Print(component), SEPARATOR))
  {
    var config, text := [Configured(component, "")], Print(component);
    var named := Parse(text);
    assert Groups(config)[0] == component.group && Names(config)[0] == text && config[0].component == component;
    OneIncidentGroup(config, x, component.group);
    assert forall c :: c in x.components.value <==> c == named;
    assert named in x.components.value;
    forall name
      ensures name in Names(config) <==> name == text
      ensures name in Known(config) <==> name == text
    {
    }
    assert RaisesCellIn(config, x, component.group) <==> Print(named) == text;
    assert Concerns(x, Within(component.group, Known(config)))
       <==> Print(named) == text && named.group == component.group
    by {
      assert Aims(named, Within(component.group, Known(config)))
         <==> Print(named) == text && named.group == component.group;
    }
    PrintAfterParse(text);
    ParseAfterPrint(component);
    if !StartsWith(text, SEPARATOR) && named.group == component.group {
      SamePrintedGroup(named, component);
    }
  }

  /** The other way round an ungrouped component whose name reads like a grouped one turns that component
    * red and leaves its group green. A request gets one into a store with one text only. */
  lemma GroupMayMissItsComponent(name: string, group: string, text: string, state: int, x: Incident)
    requires group != "" && state > OPERATIONAL && x.state != RESOLVED && x.componentState == state
    requires x.components == Some([Component(group + SEPARATOR + name, "")])
    ensures var config := [Configured(Component(name, group), "")];
            && Worst(state, [x], Printed(Names(config)[0]))
            && Worst(OPERATIONAL, [x], Within(group, Known(config)))
    ensures Parse(Print(Parse(text))) == x.components.value[0]
       <==> text == SEPARATOR + SEPARATOR + group + SEPARATOR + name
  {
    var c := x.components.value[0];
    assert c in x.components.value && Aims(c, Printed(group + SEPARATOR + name));
    assert x in [x];
    TextOfGroupedName(group, name, text);
  }

  /** Every incident is in the bucket of its day, as often as it was found, and in no other; and every
    * bucket is newest first. */
  lemma EachIncidentInOneBucket(timeline: map<int, seq<Incident>>, dates: seq<int>, incidents: seq<Incident>,
                                day: Incident -> int, more: seq<int>, x: Incident)
    requires Bucketed(timeline, dates, incidents, day, more) && DateQuery.LatestFirst(incidents)
    ensures forall d :: d in timeline ==>
      multiset(timeline[d])[x] == if day(x) == d then multiset(incidents)[x] else 0
    ensures x in incidents ==> day(x) in timeline
    ensures forall d :: d in timeline ==> DateQuery.LatestFirst(timeline[d])
  {
    var rank := (i: Incident) => -i.createdAt;
    forall d | d in timeline
      ensures multiset(timeline[d])[x] == if day(x) == d then multiset(incidents)[x] else 0
      ensures DateQuery.LatestFirst(timeline[d])
    {
      UnderCounts(Days(incidents, day), incidents, day, d, x);
      UnderInOrder(Days(incidents, day), incidents, d, rank);
      InRankOrder(timeline[d], rank);
    }
    if x in incidents {
      var i :| 0 <= i < |incidents| && incidents[i] == x;
      assert Days(incidents, day)[i] == day(x);
    }
  }

  lemma InRankOrder(bucket: seq<Incident>, rank: Incident -> int)
    requires Seqs.Ascending(bucket, rank) && forall i: Incident :: rank(i) == -i.createdAt
    ensures DateQuery.LatestFirst(bucket)
  {
    forall i, j | 0 <= i < j < |bucket|
      ensures bucket[i].createdAt >= bucket[j].createdAt
    {
      assert rank(bucket[i]) <= rank(bucket[j]);
    }
  }
}

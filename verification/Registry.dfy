/**
 The dataset registry of src/yfin/datasets/registry.py: registration, the expansion of names and
 aliases, and the depth-first resolution of dependencies.

 A Python dict whose values do not matter is the sequence of its keys in insertion order.
 */
module Registry {
  import opened Wrappers
  import opened Text

  datatype Dataset = Dataset(name: string, dependsOn: seq<string>)

  type Items = map<string, Dataset>

  datatype RegisterError = GroupIsAlias(dataset: string, group: string)

  datatype ResolveError =
    | UnknownDatasets(names: seq<string>)
    | UnknownDependency(name: string)
    | DependencyCycle(path: seq<string>)

  const ALL: string := "all"

  // ----------------------------------------------------------- ordered keys

  /** `d[x] = ...`: a key that is there keeps its place. */
  function Keep(keys: seq<string>, x: string): seq<string> {
    if x in keys then keys else keys + [x]
  }

  function KeepAll(keys: seq<string>, xs: seq<string>): seq<string> {
    if xs == [] then keys else Keep(KeepAll(keys, xs[..|xs| - 1]), xs[|xs| - 1])
  }

  ghost predicate Distinct(xs: seq<string>) {
    forall i, j :: 0 <= i < j < |xs| ==> xs[i] != xs[j]
  }

  /** Where a member occurs first. */
  function FirstAt(xs: seq<string>, x: string): (i: nat)
    requires x in xs
    ensures i < |xs| && xs[i] == x && x !in xs[..i]
  {
    if xs[0] == x then 0 else
      assert xs == [xs[0]] + xs[1..];
      var i := FirstAt(xs[1..], x);
      assert xs[..i + 1] == [xs[0]] + xs[1..][..i];
      i + 1
  }

  lemma OccursBefore(xs: seq<string>, i: nat, j: nat)
    requires i < j <= |xs|
    ensures xs[i] in xs[..j]
  {
    assert xs[..j][i] == xs[i];
  }

  lemma FirstAtPrefix(xs: seq<string>, n: nat, x: string)
    requires n <= |xs| && x in xs[..n]
    ensures FirstAt(xs, x) == FirstAt(xs[..n], x)
  {
    var prefix := xs[..n];
    var i, j := FirstAt(xs, x), FirstAt(prefix, x);
    if i < j { OccursBefore(prefix, i, j); }
    if j < i { OccursBefore(xs, j, i); }
  }

  /** A dict filled from a list holds its members once each, in the order of first occurrence. */
  lemma {:induction false} KeepAllIsFirstOccurrences(xs: seq<string>)
    ensures Distinct(KeepAll([], xs))
    ensures forall x :: x in KeepAll([], xs) <==> x in xs
    ensures forall i, j :: 0 <= i < j < |KeepAll([], xs)| ==>
        FirstAt(xs, KeepAll([], xs)[i]) < FirstAt(xs, KeepAll([], xs)[j])
  {
    if xs != [] {
      var n := |xs| - 1;
      var before, after := KeepAll([], xs[..n]), KeepAll([], xs);
      KeepAllIsFirstOccurrences(xs[..n]);
      assert xs == xs[..n] + [xs[n]];
      forall i, j | 0 <= i < j < |after| ensures FirstAt(xs, after[i]) < FirstAt(xs, after[j]) {
        FirstAtPrefix(xs, n, before[i]);
        if j < |before| {
          FirstAtPrefix(xs, n, before[j]);
        } else {
          assert FirstAt(xs, after[j]) >= n;
        }
      }
    }
  }

  // ---------------------------------------------------------------- catalog

  /** What a registry holds; `order` is the insertion order of the items. */
  datatype Catalog = Catalog(
    bootstrap: Option<string>, explicitAliases: map<string, seq<string>>,
    items: Items, order: seq<string>, groups: map<string, seq<string>>, optIn: set<string>)
  {
    /** `aliases`: explicit ones win over groups. */
    predicate IsAlias(name: string) {
      name in explicitAliases || name in groups
    }

    function Members(name: string): seq<string>
      requires IsAlias(name)
    {
      if name in explicitAliases then explicitAliases[name] else groups[name]
    }

    predicate IsDefault(name: string) {
      Some(name) != bootstrap && name !in optIn
    }
  }

  function DefaultOf(c: Catalog, names: seq<string>): seq<string> {
    if names == [] then []
    else
      var n := |names| - 1;
      DefaultOf(c, names[..n]) + if c.IsDefault(names[n]) then [names[n]] else []
  }

  /** `register`: everything but the group is stored before a clash of the group is noticed. */
  function Registered(c: Catalog, ds: Dataset, optIn: bool, group: Option<string>): Catalog {
    var stored := c.(items := c.items[ds.name := ds],
                     order := Keep(c.order, ds.name),
                     optIn := if optIn then c.optIn + {ds.name} else c.optIn - {ds.name});
    if group.None? || group.value in c.explicitAliases then stored
    else
      var members := if group.value in c.groups then c.groups[group.value] else [];
      stored.(groups := c.groups[group.value := Keep(members, ds.name)])
  }

  /** What every registration keeps. */
  ghost predicate WellKept(c: Catalog) {
    && Distinct(c.order)
    && (forall name :: name in c.order <==> name in c.items)
    && (forall name :: name in c.items ==> c.items[name].name == name)
    && c.optIn <= c.items.Keys
    && (forall group :: group in c.groups ==> group !in c.explicitAliases && WellGrouped(c, c.groups[group]))
  }

  ghost predicate WellGrouped(c: Catalog, members: seq<string>) {
    Distinct(members) && forall name :: name in members ==> name in c.items
  }

  lemma KeepDistinct(keys: seq<string>, x: string)
    requires Distinct(keys)
    ensures Distinct(Keep(keys, x))
    ensures forall y :: y in Keep(keys, x) <==> y in keys || y == x
  {
  }

  /** Registration keeps the invariant, also when it raises, and forgets no dataset. */
  lemma RegisteringKeepsWell(c: Catalog, ds: Dataset, optIn: bool, group: Option<string>)
    requires WellKept(c)
    ensures WellKept(Registered(c, ds, optIn, group))
    ensures c.order <= Registered(c, ds, optIn, group).order
    ensures forall name :: name != ds.name ==>
              && (name in Registered(c, ds, optIn, group).items <==> name in c.items)
              && (name in Registered(c, ds, optIn, group).optIn <==> name in c.optIn)
              && (name in c.items ==> Registered(c, ds, optIn, group).items[name] == c.items[name])
  {
    KeepDistinct(c.order, ds.name);
    RegisteredIsWell(c, ds, optIn, group);
  }

  lemma RegisteredIsWell(c: Catalog, ds: Dataset, optIn: bool, group: Option<string>)
    requires WellKept(c)
    ensures WellKept(Registered(c, ds, optIn, group))
  {
    var after := Registered(c, ds, optIn, group);
    KeepDistinct(c.order, ds.name);
    forall g | g in after.groups ensures g !in after.explicitAliases && WellGrouped(after, after.groups[g]) {
      GroupStaysWell(c, ds, optIn, group, g);
    }
  }

  lemma GroupStaysWell(c: Catalog, ds: Dataset, optIn: bool, group: Option<string>, g: string)
    requires WellKept(c) && g in Registered(c, ds, optIn, group).groups
    ensures g !in c.explicitAliases && WellGrouped(Registered(c, ds, optIn, group),
        Registered(c, ds, optIn, group).groups[g])
  {
    if g in c.groups {
      KeepDistinct(c.groups[g], ds.name);
    } else {
      KeepDistinct([], ds.name);
    }
  }

  // -------------------------------------------------------------- expansion

  /** What one name on the command line stands for. */
  function Targets(c: Catalog, raw: string): seq<string> {
    var name := Strip(raw);
    if name == "" then []
    else if name == ALL then DefaultOf(c, c.order)
    else if c.IsAlias(name) then c.Members(name)
    else [name]
  }

  function AllTargets(c: Catalog, names: seq<string>): seq<string> {
    if names == [] then []
    else AllTargets(c, names[..|names| - 1]) + Targets(c, names[|names| - 1])
  }

  function Expanded(c: Catalog, names: seq<string>): seq<string> {
    KeepAll([], AllTargets(c, names))
  }

  lemma {:induction false} KeepAllConcat(keys: seq<string>, xs: seq<string>, ys: seq<string>)
    ensures KeepAll(KeepAll(keys, xs), ys) == KeepAll(keys, xs + ys)
  {
    if ys == [] {
      assert xs + ys == xs;
    } else {
      var n := |ys| - 1;
      KeepAllConcat(keys, xs, ys[..n]);
      assert (xs + ys)[..|xs + ys| - 1] == xs + ys[..n];
    }
  }

  lemma {:induction false} DefaultMembers(c: Catalog, names: seq<string>, name: string)
    ensures name in DefaultOf(c, names) <==> name in names && c.IsDefault(name)
  {
    if names != [] {
      DefaultMembers(c, names[..|names| - 1], name);
      assert names == names[..|names| - 1] + [names[|names| - 1]];
    }
  }

  lemma {:induction false} TargetMembers(c: Catalog, names: seq<string>, name: string)
    ensures name in AllTargets(c, names) <==> exists k :: 0 <= k < |names| && name in Targets(c, names[k])
  {
    if names != [] {
      var n := |names| - 1;
      TargetMembers(c, names[..n], name);
      if k :| 0 <= k < n && name in Targets(c, names[..n][k]) {
        assert name in Targets(c, names[k]);
      }
      if k :| 0 <= k < |names| && name in Targets(c, names[k]) {
        assert k < n ==> name in Targets(c, names[..n][k]);
      }
    }
  }

  /** An expansion names each target of each given name once, in the order in which they first came. */
  lemma ExpansionIsExact(c: Catalog, names: seq<string>)
    ensures Distinct(Expanded(c, names))
    ensures forall name :: name in Expanded(c, names) <==> exists k :: 0 <= k < |names| && name in Targets(c, names[k])
    ensures var all, flat := Expanded(c, names), AllTargets(c, names);
      && (forall i :: 0 <= i < |all| ==> all[i] in flat)
      && forall i, j :: 0 <= i < j < |all| ==> FirstAt(flat, all[i]) < FirstAt(flat, all[j])
  {
    KeepAllIsFirstOccurrences(AllTargets(c, names));
    forall name ensures name in AllTargets(c, names) <==> exists k :: 0 <= k < |names| && name in Targets(c, names[k]) {
      TargetMembers(c, names, name);
    }
  }

  /** `all` stands for every registered dataset that is neither the bootstrap nor opt-in. */
  lemma AllIsTheDefaultSet(c: Catalog, name: string)
    requires WellKept(c)
    ensures name in Targets(c, ALL) <==> name in c.items && Some(name) != c.bootstrap && name !in c.optIn
  {
    DefaultMembers(c, c.order, name);
    assert Strip(ALL) == ALL;
  }

  // -------------------------------------------------------------- shadowing

  /** No group has the name of a dataset, as the `aliases` property says. */
  ghost predicate NoShadow(c: Catalog) {
    forall group :: group in c.groups ==> group !in c.items
  }

  /**
   Registration meets that exactly if the dataset does not take a group's name, and an accepted
   group does not take a dataset's; neither is checked.
   */
  lemma NoShadowAfterIff(c: Catalog, ds: Dataset, optIn: bool, group: Option<string>)
    ensures NoShadow(Registered(c, ds, optIn, group)) <==>
      && NoShadow(c) && ds.name !in c.groups
      && (group.Some? && group.value !in c.explicitAliases ==> group.value !in c.items && group.value != ds.name)
  {
    var after := Registered(c, ds, optIn, group);
    assert forall g :: g in c.groups ==> g in after.groups;
    assert forall name :: name in after.items <==> name in c.items || name == ds.name;
    if group.Some? && group.value !in c.explicitAliases {
      assert group.value in after.groups;
    }
  }

  /** A plain name of a registered dataset selects the dataset itself, or the group of its name. */
  lemma DatasetNameSelects(c: Catalog, name: string)
    requires WellKept(c) && name in c.items && name !in c.explicitAliases
    requires Trimmed(name) && name != "" && name != ALL
    ensures Expanded(c, [name]) == if name in c.groups then c.groups[name] else [name]
  {
    assert Strip(name) == name;
    assert [name][..0] == [];
    assert AllTargets(c, [name][..0]) == [];
    assert AllTargets(c, [name]) == Targets(c, name);
    if name in c.groups {
      assert WellGrouped(c, c.groups[name]);
    }
    KeepDistinctList(Targets(c, name));
  }

  /** A group may have a dataset's name; naming that dataset then selects the group's members instead. */
  lemma GroupShadowsDataset(c: Catalog, shadowed: Dataset, member: Dataset)
    requires WellKept(c) && shadowed.name != member.name
    requires Trimmed(shadowed.name) && shadowed.name != "" && shadowed.name != ALL
    requires !c.IsAlias(shadowed.name)
    ensures var after := Registered(Registered(c, shadowed, false, None), member, false, Some(shadowed.name));
      && WellKept(after) && shadowed.name in after.items
      && Expanded(after, [shadowed.name]) == [member.name]
  {
    var one := Registered(c, shadowed, false, None);
    var after := Registered(one, member, false, Some(shadowed.name));
    RegisteringKeepsWell(c, shadowed, false, None);
    RegisteringKeepsWell(one, member, false, Some(shadowed.name));
    DatasetNameSelects(after, shadowed.name);
  }

  /** The other way round: a dataset registered under the name of a group is not selected by its name. */
  lemma DatasetUnderGroupName(c: Catalog, member: Dataset, shadowed: Dataset)
    requires WellKept(c) && shadowed.name != member.name
    requires Trimmed(shadowed.name) && shadowed.name != "" && shadowed.name != ALL
    requires !c.IsAlias(shadowed.name)
    ensures var after := Registered(Registered(c, member, false, Some(shadowed.name)), shadowed, false, None);
      && WellKept(after) && shadowed.name in after.items
      && Expanded(after, [shadowed.name]) == [member.name]
  {
    var one := Registered(c, member, false, Some(shadowed.name));
    var after := Registered(one, shadowed, false, None);
    RegisteringKeepsWell(c, member, false, Some(shadowed.name));
    RegisteringKeepsWell(one, shadowed, false, None);
    DatasetNameSelects(after, shadowed.name);
  }

  /** One call of `register`. */
  datatype Registration = Registration(ds: Dataset, optIn: bool, group: Option<string>)

  function RegisteredAll(c: Catalog, calls: seq<Registration>): Catalog {
    if calls == [] then c
    else
      var last := calls[|calls| - 1];
      Registered(RegisteredAll(c, calls[..|calls| - 1]), last.ds, last.optIn, last.group)
  }

  function EmptyCatalog(bootstrap: Option<string>, aliases: map<string, seq<string>>): Catalog {
    Catalog(bootstrap, aliases, map[], [], map[], {})
  }

  /** Some call registers the name, or opens a group of it. */
  ghost predicate Names(calls: seq<Registration>, name: string) {
    exists i :: 0 <= i < |calls| && calls[i].ds.name == name
  }

  ghost predicate Groups(calls: seq<Registration>, aliases: map<string, seq<string>>, group: string) {
    group !in aliases && exists i :: 0 <= i < |calls| && calls[i].group == Some(group)
  }

  lemma {:induction false} CallsDecideNames(bootstrap: Option<string>, aliases: map<string, seq<string>>,
                                            calls: seq<Registration>)
    ensures var c := RegisteredAll(EmptyCatalog(bootstrap, aliases), calls);
      && WellKept(c) && c.explicitAliases == aliases
      && (forall name :: name in c.items <==> Names(calls, name))
      && (forall group :: group in c.groups <==> Groups(calls, aliases, group))
  {
    if calls != [] {
      var n := |calls| - 1;
      var before := RegisteredAll(EmptyCatalog(bootstrap, aliases), calls[..n]);
      CallsDecideNames(bootstrap, aliases, calls[..n]);
      RegisteringKeepsWell(before, calls[n].ds, calls[n].optIn, calls[n].group);
      NamesOfLast(calls, aliases);
    }
  }

  lemma NamesOfLast(calls: seq<Registration>, aliases: map<string, seq<string>>)
    requires calls != []
    ensures var n := |calls| - 1;
      && (forall name :: Names(calls, name) <==> Names(calls[..n], name) || calls[n].ds.name == name)
      && (forall group :: Groups(calls, aliases, group) <==>
            Groups(calls[..n], aliases, group) || (group !in aliases && calls[n].group == Some(group)))
  {
    var n := |calls| - 1;
    assert forall i :: 0 <= i < n ==> calls[..n][i] == calls[i];
  }

  /** After any registrations no group shadows a dataset exactly if no name was used for both. */
  lemma NoShadowEverIff(bootstrap: Option<string>, aliases: map<string, seq<string>>, calls: seq<Registration>)
    ensures NoShadow(RegisteredAll(EmptyCatalog(bootstrap, aliases), calls))
       <==> forall name :: !(Names(calls, name) && Groups(calls, aliases, name))
  {
    CallsDecideNames(bootstrap, aliases, calls);
  }

  // ------------------------------------------------------- depth-first visit

  datatype Colour = Visiting | Done

  datatype Search = Search(state: map<string, Colour>, ordered: seq<string>)

  /** `visit`. */
  function Visited(items: Items, s: Search, name: string, path: seq<string>): (r: Result<Search, ResolveError>)
    ensures r.Ok? ==> s.state.Keys <= r.value.state.Keys
    decreases |items.Keys - s.state.Keys|, 0
  {
    if name in s.state then
      if s.state[name].Done? then Ok(s) else Raised(DependencyCycle(path + [name]))
    else if name !in items then Raised(UnknownDependency(name))
    else
      var entered := s.(state := s.state[name := Visiting]);
      Shrinks(items, s, name);
      var inner := VisitedAll(items, entered, items[name].dependsOn, path + [name]);
      if inner.Raised? then inner
      else Ok(Search(inner.value.state[name := Done], inner.value.ordered + [name]))
  }

  function VisitedAll(items: Items, s: Search, names: seq<string>, path: seq<string>): (r: Result<Search, ResolveError>)
    ensures r.Ok? ==> s.state.Keys <= r.value.state.Keys
    decreases |items.Keys - s.state.Keys|, |names|
  {
    if names == [] then Ok(s)
    else
      var first := Visited(items, s, names[0], path);
      if first.Raised? then first
      else
        Fewer(items.Keys - first.value.state.Keys, items.Keys - s.state.Keys);
        VisitedAll(items, first.value, names[1..], path)
  }

  lemma {:induction false} Fewer(a: set<string>, b: set<string>)
    requires a <= b
    ensures |a| <= |b|
  {
    if x :| x in a {
      Fewer(a - {x}, b - {x});
    }
  }

  /** A visit that goes on colours a registered name that had no colour. */
  lemma Shrinks(items: Items, s: Search, name: string)
    requires name in items && name !in s.state
    ensures |items.Keys - s.state[name := Visiting].Keys| < |items.Keys - s.state.Keys|
  {
    var before, after := items.Keys - s.state.Keys, items.Keys - s.state[name := Visiting].Keys;
    assert name in before && name !in after;
    Fewer(after, before - {name});
  }

  /** The colours and the order that the visits of one resolution share. */
  class Resolution {
    const items: Items
    var state: map<string, Colour>
    var ordered: seq<string>

    constructor (items: Items)
      ensures this.items == items && View() == Search(map[], [])
    {
      this.items := items;
      state, ordered := map[], [];
    }

    function View(): Search
      reads this
    {
      Search(state, ordered)
    }

    /** The visit ended as the function says. */
    predicate Ended(r: Result<Search, ResolveError>, error: Option<ResolveError>)
      reads this
    {
      if r.Ok? then error == None && View() == r.value else error == Some(r.error)
    }

    method Visit(name: string, path: seq<string>) returns (error: Option<ResolveError>)
      modifies this
      ensures Ended(Visited(items, old(View()), name, path), error)
      decreases |items.Keys - state.Keys|, 0
    {
      if name in state && state[name].Done? { return None; }
      if name in state { return Some(DependencyCycle(path + [name])); }
      if name !in items { return Some(UnknownDependency(name)); }
      Shrinks(items, View(), name);
      state := state[name := Visiting];
      error := VisitAll(items[name].dependsOn, path + [name]);
      if error.Some? { return; }
      state := state[name := Done];
      ordered := ordered + [name];
    }

    /** The loop over dependencies, and over the wanted names. */
    method VisitAll(names: seq<string>, path: seq<string>) returns (error: Option<ResolveError>)
      modifies this
      ensures Ended(VisitedAll(items, old(View()), names, path), error)
      decreases |items.Keys - state.Keys|, |names|
    {
      var i := 0;
      while i < |names|
        invariant 0 <= i <= |names|
        invariant old(state.Keys) <= state.Keys
        invariant VisitedAll(items, old(View()), names, path) == VisitedAll(items, View(), names[i..], path)
      {
        Fewer(items.Keys - state.Keys, items.Keys - old(state.Keys));
        error := Visit(names[i], path);
        if error.Some? { return; }
        assert names[i..][1..] == names[i + 1..];
        i := i + 1;
      }
      return None;
    }
  }

  // ----------------------------------------------------------------- resolve

  function Selection(c: Catalog, names: Option<seq<string>>): seq<string> {
    if names.None? || names.value == [] then DefaultOf(c, c.order) else Expanded(c, names.value)
  }

  function Unregistered(items: Items, names: seq<string>): seq<string> {
    if names == [] then []
    else
      var n := |names| - 1;
      Unregistered(items, names[..n]) + if names[n] !in items then [names[n]] else []
  }

  function Wanted(c: Catalog, names: Option<seq<string>>): seq<string> {
    KeepAll(if c.bootstrap.Some? then [c.bootstrap.value] else [], Selection(c, names))
  }

  const FRESH: Search := Search(map[], [])

  /** The names that `resolve` returns, in order. */
  function Resolved(c: Catalog, names: Option<seq<string>>): Result<seq<string>, ResolveError> {
    var unknown := Unregistered(c.items, Selection(c, names));
    if unknown != [] then Raised(UnknownDatasets(unknown))
    else
      var end := VisitedAll(c.items, FRESH, Wanted(c, names), []);
      if end.Raised? then Raised(end.error) else Ok(end.value.ordered)
  }

  /** The datasets registered under these names, in the same order. */
  ghost predicate AreNamed(items: Items, datasets: seq<Dataset>, names: seq<string>) {
    && |datasets| == |names|
    && forall i :: 0 <= i < |names| ==> names[i] in items && datasets[i] == items[names[i]]
  }

  class Registry {
    const bootstrap: Option<string>
    const explicitAliases: map<string, seq<string>>
    var items: Items
    var order: seq<string>
    var groups: map<string, seq<string>>
    var optIn: set<string>

    constructor (bootstrap: Option<string>, aliases: map<string, seq<string>>)
      ensures View() == Catalog(bootstrap, aliases, map[], [], map[], {})
      ensures WellKept(View())
    {
      this.bootstrap, this.explicitAliases := bootstrap, aliases;
      items, order, groups, optIn := map[], [], map[], {};
    }

    function View(): Catalog
      reads this
    {
      Catalog(bootstrap, explicitAliases, items, order, groups, optIn)
    }

    method Register(ds: Dataset, optInFlag: bool, group: Option<string>) returns (r: Result<Dataset, RegisterError>)
      modifies this
      ensures View() == Registered(old(View()), ds, optInFlag, group)
      ensures r == if group.Some? && group.value in explicitAliases then Raised(GroupIsAlias(ds.name, group.value))
          else Ok(ds)
      ensures old(WellKept(View())) ==> WellKept(View())
    {
      if WellKeptNow() { RegisteringKeepsWell(View(), ds, optInFlag, group); }
      items, order := items[ds.name := ds], Keep(order, ds.name);
      if optInFlag {
        optIn := optIn + {ds.name};
      } else {
        optIn := optIn - {ds.name};
      }
      if group.Some? {
        if group.value in explicitAliases {
          return Raised(GroupIsAlias(ds.name, group.value));
        }
        var members := if group.value in groups then groups[group.value] else [];
        groups := groups[group.value := Keep(members, ds.name)];
      }
      return Ok(ds);
    }

    ghost predicate WellKeptNow()
      reads this
    {
      WellKept(View())
    }

    /** `_default_set`. */
    method DefaultSet() returns (names: seq<string>)
      ensures names == DefaultOf(View(), order)
    {
      names := [];
      var i := 0;
      while i < |order|
        invariant 0 <= i <= |order|
        invariant names == DefaultOf(View(), order[..i])
      {
        assert order[..i + 1][..i] == order[..i];
        if Some(order[i]) != bootstrap && order[i] !in optIn {
          names := names + [order[i]];
        }
        i := i + 1;
      }
      assert order[..i] == order;
    }

    /** `_expand`. */
    method Expand(names: seq<string>) returns (out: seq<string>)
      ensures out == Expanded(View(), names)
    {
      out := [];
      var i := 0;
      while i < |names|
        invariant 0 <= i <= |names|
        invariant out == Expanded(View(), names[..i])
      {
        var name := Strip(names[i]);
        var targets: seq<string> := [];
        if name == "" {
        } else if name == ALL {
          targets := DefaultSet();
        } else if name in explicitAliases {
          targets := explicitAliases[name];
        } else if name in groups {
          targets := groups[name];
        } else {
          targets := [name];
        }
        assert names[..i + 1][..i] == names[..i];
        KeepAllConcat([], AllTargets(View(), names[..i]), targets);
        out := KeepEach(out, targets);
        i := i + 1;
      }
      assert names[..i] == names;
    }

    method Resolve(names: Option<seq<string>>) returns (r: Result<seq<Dataset>, ResolveError>)
      ensures r.Ok? <==> Resolved(View(), names).Ok?
      ensures r.Raised? ==> Resolved(View(), names) == Raised(r.error)
      ensures r.Ok? ==> AreNamed(items, r.value, Resolved(View(), names).value)
    {
      var selected;
      if names.None? || names.value == [] {
        selected := DefaultSet();
      } else {
        selected := Expand(names.value);
      }
      var unknown := Missing(items, selected);
      if unknown != [] { return Raised(UnknownDatasets(unknown)); }
      var wanted := KeepEach(if bootstrap.Some? then [bootstrap.value] else [], selected);
      var resolution := new Resolution(items);
      var error := resolution.VisitAll(wanted, []);
      if error.Some? { return Raised(error.value); }
      VisitsFromFresh(items, wanted);
      var found, registered := resolution.ordered, items;
      r := Ok(seq(|found|, i requires 0 <= i < |found| && found[i] in registered => registered[found[i]]));
    }
  }

  /** Fills a dict with the names. */
  method KeepEach(keys: seq<string>, xs: seq<string>) returns (out: seq<string>)
    ensures out == KeepAll(keys, xs)
  {
    out := keys;
    var i := 0;
    while i < |xs|
      invariant 0 <= i <= |xs|
      invariant out == KeepAll(keys, xs[..i])
    {
      assert xs[..i + 1][..i] == xs[..i];
      if xs[i] !in out {
        out := out + [xs[i]];
      }
      i := i + 1;
    }
    assert xs[..i] == xs;
  }

  /** The names that are not registered. */
  method Missing(items: Items, names: seq<string>) returns (unknown: seq<string>)
    ensures unknown == Unregistered(items, names)
  {
    unknown := [];
    var i := 0;
    while i < |names|
      invariant 0 <= i <= |names|
      invariant unknown == Unregistered(items, names[..i])
    {
      assert names[..i + 1][..i] == names[..i];
      if names[i] !in items {
        unknown := unknown + [names[i]];
      }
      i := i + 1;
    }
    assert names[..i] == names;
  }

  // ------------------------------------------------------------ reachability

  ghost predicate Edge(items: Items, from: string, to: string) {
    from in items && to in items[from].dependsOn
  }

  /** Each name of the walk depends on the next one. */
  ghost predicate Walk(items: Items, p: seq<string>) {
    p != [] && forall i :: 0 < i < |p| ==> Edge(items, p[i - 1], p[i])
  }

  ghost predicate WalkTo(items: Items, roots: seq<string>, p: seq<string>, name: string) {
    Walk(items, p) && p[0] in roots && p[|p| - 1] == name
  }

  ghost predicate Reached(items: Items, roots: seq<string>, name: string) {
    exists p :: WalkTo(items, roots, p, name)
  }

  /** A walk whose last name is already on it. */
  ghost predicate Loops(items: Items, roots: seq<string>, p: seq<string>) {
    && Walk(items, p) && p[0] in roots
    && p[|p| - 1] in p[..|p| - 1]
  }

  ghost predicate Genuine(items: Items, roots: seq<string>, error: ResolveError) {
    && (error.DependencyCycle? ==> Loops(items, roots, error.path))
    && (error.UnknownDependency? ==> error.name !in items && Reached(items, roots, error.name))
    && !error.UnknownDatasets?
  }

  /** The last name of the path waits for this one; without a path it is a root. */
  ghost predicate Asked(items: Items, roots: seq<string>, path: seq<string>, name: string) {
    if path == [] then name in roots else Edge(items, path[|path| - 1], name)
  }

  ghost predicate DepsBefore(items: Items, ordered: seq<string>, i: nat)
    requires i < |ordered|
  {
    && ordered[i] in items
    && forall dep :: dep in items[ordered[i]].dependsOn ==> dep in ordered[..i]
  }

  /** Done names are ordered, once each, behind their dependencies. */
  ghost predicate Coherent(items: Items, s: Search) {
    && Distinct(s.ordered)
    && (forall name :: name in s.ordered <==> name in s.state && s.state[name].Done?)
    && (forall i :: 0 <= i < |s.ordered| ==> DepsBefore(items, s.ordered, i))
  }

  /** The names being visited are those of the path, and the path is a walk from a root. */
  ghost predicate OnPath(items: Items, roots: seq<string>, s: Search, path: seq<string>) {
    && (forall name :: name in path <==> name in s.state && s.state[name].Visiting?)
    && (path != [] ==> Walk(items, path) && path[0] in roots)
  }

  ghost predicate NewAreReached(items: Items, roots: seq<string>, s: Search, t: Search) {
    && s.ordered <= t.ordered
    && forall name :: name in t.ordered && name !in s.ordered ==> Reached(items, roots, name)
  }

  /** What a visit leaves: coherent colours, the same path, the asked names ordered. */
  ghost predicate Sound(items: Items, roots: seq<string>, s: Search, path: seq<string>, names: seq<string>,
                        r: Result<Search, ResolveError>) {
    if r.Raised? then Genuine(items, roots, r.error)
    else
      && Coherent(items, r.value) && OnPath(items, roots, r.value, path)
      && NewAreReached(items, roots, s, r.value)
      && forall name :: name in names ==> name in r.value.ordered
  }

  lemma LongerWalk(items: Items, roots: seq<string>, path: seq<string>, name: string)
    requires path != [] ==> Walk(items, path) && path[0] in roots
    requires Asked(items, roots, path, name)
    ensures WalkTo(items, roots, path + [name], name)
  {
  }

  lemma {:induction false} VisitIsSound(items: Items, roots: seq<string>, s: Search, name: string, path: seq<string>)
    requires Coherent(items, s) && OnPath(items, roots, s, path) && Asked(items, roots, path, name)
    ensures Sound(items, roots, s, path, [name], Visited(items, s, name, path))
    decreases |items.Keys - s.state.Keys|, 0
  {
    LongerWalk(items, roots, path, name);
    if name in s.state {
      if s.state[name].Visiting? {
        assert (path + [name])[..|path|] == path;
      }
    } else if name in items {
      var deps, inner := items[name].dependsOn, path + [name];
      var entered := s.(state := s.state[name := Visiting]);
      Shrinks(items, s, name);
      Enter(items, roots, s, name, path);
      VisitAllIsSound(items, roots, entered, deps, inner);
      var r := VisitedAll(items, entered, deps, inner);
      if r.Ok? {
        Leave(items, roots, s, name, path, r.value);
      }
    }
  }

  /** The first step of a visit: the name joins the path. */
  lemma Enter(items: Items, roots: seq<string>, s: Search, name: string, path: seq<string>)
    requires Coherent(items, s) && OnPath(items, roots, s, path) && Asked(items, roots, path, name)
    requires name in items && name !in s.state
    ensures Coherent(items, s.(state := s.state[name := Visiting]))
    ensures OnPath(items, roots, s.(state := s.state[name := Visiting]), path + [name])
    ensures forall dep :: dep in items[name].dependsOn ==> Asked(items, roots, path + [name], dep)
  {
    LongerWalk(items, roots, path, name);
  }

  /** The last step of a visit: the name turns from visited to done. */
  lemma Leave(items: Items, roots: seq<string>, s: Search, name: string, path: seq<string>, t: Search)
    requires name in items && name !in path && OnPath(items, roots, s, path)
    requires Coherent(items, t) && OnPath(items, roots, t, path + [name])
    requires NewAreReached(items, roots, s, t) && Reached(items, roots, name)
    requires forall dep :: dep in items[name].dependsOn ==> dep in t.ordered
    ensures Sound(items, roots, s, path, [name], Ok(Search(t.state[name := Done], t.ordered + [name])))
  {
    var u := Search(t.state[name := Done], t.ordered + [name]);
    assert name in path + [name];
    forall i | 0 <= i < |u.ordered| ensures DepsBefore(items, u.ordered, i) {
      if i < |t.ordered| {
        assert DepsBefore(items, t.ordered, i);
        assert u.ordered[..i] == t.ordered[..i];
      } else {
        assert u.ordered[..i] == t.ordered;
      }
    }
    forall n ensures n in path <==> n in u.state && u.state[n].Visiting? {
      assert n in path + [name] <==> n in path || n == name;
    }
  }

  lemma {:induction false} VisitAllIsSound(items: Items, roots: seq<string>, s: Search, names: seq<string>,
                                           path: seq<string>)
    requires Coherent(items, s) && OnPath(items, roots, s, path)
    requires forall name :: name in names ==> Asked(items, roots, path, name)
    ensures Sound(items, roots, s, path, names, VisitedAll(items, s, names, path))
    decreases |items.Keys - s.state.Keys|, |names|
  {
    if names != [] {
      VisitIsSound(items, roots, s, names[0], path);
      var first := Visited(items, s, names[0], path);
      if first.Ok? {
        Fewer(items.Keys - first.value.state.Keys, items.Keys - s.state.Keys);
        VisitAllIsSound(items, roots, first.value, names[1..], path);
        VisitsCompose(items, roots, s, names, path, first.value, VisitedAll(items, first.value, names[1..], path));
      }
    }
  }

  lemma VisitsCompose(items: Items, roots: seq<string>, s: Search, names: seq<string>, path: seq<string>,
                      first: Search, r: Result<Search, ResolveError>)
    requires names != [] && Sound(items, roots, s, path, [names[0]], Ok(first))
    requires Sound(items, roots, first, path, names[1..], r)
    ensures Sound(items, roots, s, path, names, r)
  {
    if r.Ok? {
      forall name | name in names ensures name in r.value.ordered {
        if name == names[0] {
          assert name in [names[0]];
        } else {
          assert names == [names[0]] + names[1..];
        }
      }
    }
  }

  lemma VisitsFromFresh(items: Items, roots: seq<string>)
    ensures Sound(items, roots, FRESH, [], roots, VisitedAll(items, FRESH, roots, []))
    ensures VisitedAll(items, FRESH, roots, []).Ok? ==>
      forall name :: name in VisitedAll(items, FRESH, roots, []).value.ordered ==> name in items
  {
    VisitAllIsSound(items, roots, FRESH, roots, []);
    var r := VisitedAll(items, FRESH, roots, []);
    if r.Ok? {
      forall name | name in r.value.ordered ensures name in items {
        var i :| 0 <= i < |r.value.ordered| && r.value.ordered[i] == name;
        assert DepsBefore(items, r.value.ordered, i);
      }
    }
  }

  // ------------------------------------------------------------ the theorems

  /** The order of a resolution: names once each, behind their dependencies, all reached from the roots. */
  ghost predicate Exact(items: Items, roots: seq<string>, ordered: seq<string>) {
    && Distinct(ordered)
    && (forall i :: 0 <= i < |ordered| ==> DepsBefore(items, ordered, i))
    && (forall name :: name in ordered <==> Reached(items, roots, name))
  }

  /** Everything reached is registered. */
  ghost predicate AllRegistered(items: Items, roots: seq<string>) {
    forall name :: Reached(items, roots, name) ==> name in items
  }

  ghost predicate Acyclic(items: Items, roots: seq<string>) {
    forall p :: !Loops(items, roots, p)
  }

  /** A walk from an ordered name goes down the order. */
  lemma {:induction false} WalksGoDown(items: Items, ordered: seq<string>, p: seq<string>, at: nat) returns (k: nat)
    requires forall i :: 0 <= i < |ordered| ==> DepsBefore(items, ordered, i)
    requires Walk(items, p) && at < |ordered| && p[0] == ordered[at]
    ensures k <= at && ordered[k] == p[|p| - 1] && (|p| > 1 ==> k < at)
    decreases |p|
  {
    if |p| == 1 {
      k := at;
    } else {
      assert DepsBefore(items, ordered, at) && Edge(items, p[0], p[1]);
      var next :| 0 <= next < at && ordered[..at][next] == p[1];
      WalkTail(items, p, 1);
      k := WalksGoDown(items, ordered, p[1..], next);
    }
  }

  lemma WalkTail(items: Items, p: seq<string>, n: nat)
    requires Walk(items, p) && n < |p|
    ensures Walk(items, p[n..])
  {
  }

  lemma RootReached(items: Items, roots: seq<string>, name: string)
    requires name in roots
    ensures Reached(items, roots, name)
  {
    assert WalkTo(items, roots, [name], name);
  }

  /** An order that holds the roots behind their dependencies holds everything that is reached, and no loop exists. */
  lemma OrderIsClosed(items: Items, roots: seq<string>, ordered: seq<string>, p: seq<string>)
    requires Distinct(ordered) && (forall i :: 0 <= i < |ordered| ==> DepsBefore(items, ordered, i))
    requires (forall name :: name in roots ==> name in ordered) && Walk(items, p) && p[0] in roots
    ensures p[|p| - 1] in ordered && !Loops(items, roots, p)
  {
    assert p[0] in ordered;
    var at :| 0 <= at < |ordered| && ordered[at] == p[0];
    var k := WalksGoDown(items, ordered, p, at);
    if Loops(items, roots, p) {
      var last := |p| - 1;
      var j :| 0 <= j < last && p[..last][j] == p[last];
      WalkTail(items, p, j);
      assert Walk(items, p[..j + 1]);
      var mid := WalksGoDown(items, ordered, p[..j + 1], at);
      var end := WalksGoDown(items, ordered, p[j..], mid);
    }
  }

  lemma VisitsAreExact(items: Items, roots: seq<string>)
    requires VisitedAll(items, FRESH, roots, []).Ok?
    ensures Exact(items, roots, VisitedAll(items, FRESH, roots, []).value.ordered)
    ensures Acyclic(items, roots)
  {
    var ordered := VisitedAll(items, FRESH, roots, []).value.ordered;
    VisitsFromFresh(items, roots);
    forall name | Reached(items, roots, name) ensures name in ordered {
      var p :| WalkTo(items, roots, p, name);
      OrderIsClosed(items, roots, ordered, p);
    }
    forall p ensures !Loops(items, roots, p) {
      if Walk(items, p) && p[0] in roots { OrderIsClosed(items, roots, ordered, p); }
    }
  }

  lemma {:induction false} UnregisteredMembers(items: Items, names: seq<string>, name: string)
    ensures name in Unregistered(items, names) <==> name in names && name !in items
  {
    if names != [] {
      UnregisteredMembers(items, names[..|names| - 1], name);
      assert names == names[..|names| - 1] + [names[|names| - 1]];
    }
  }

  /** Unregistered names are listed in the order of the names. */
  lemma {:induction false} UnregisteredInOrder(items: Items, names: seq<string>, p: nat, q: nat)
    returns (i: nat, j: nat)
    requires p < q < |Unregistered(items, names)|
    ensures i < j < |names| && names[i] == Unregistered(items, names)[p] && names[j] == Unregistered(items, names)[q]
  {
    var n := |names| - 1;
    var before := Unregistered(items, names[..n]);
    if q < |before| {
      i, j := UnregisteredInOrder(items, names[..n], p, q);
    } else {
      UnregisteredMembers(items, names[..n], before[p]);
      i :| 0 <= i < n && names[..n][i] == before[p];
      j := n;
    }
  }

  lemma {:induction false} KeepAllMembers(keys: seq<string>, xs: seq<string>)
    requires Distinct(keys)
    ensures keys <= KeepAll(keys, xs) && Distinct(KeepAll(keys, xs))
    ensures forall x :: x in KeepAll(keys, xs) <==> x in keys || x in xs
  {
    if xs != [] {
      KeepAllMembers(keys, xs[..|xs| - 1]);
      assert xs == xs[..|xs| - 1] + [xs[|xs| - 1]];
    }
  }

  /**
   A resolution that succeeds returns exactly the datasets reached from the bootstrap and the
   selected names, once each, each behind its dependencies.
   */
  lemma ResolutionIsExact(c: Catalog, names: Option<seq<string>>)
    requires Resolved(c, names).Ok?
    ensures Exact(c.items, Wanted(c, names), Resolved(c, names).value)
    ensures forall name :: name in Wanted(c, names) <==> Some(name) == c.bootstrap || name in Selection(c, names)
  {
    VisitsAreExact(c.items, Wanted(c, names));
    KeepAllMembers(if c.bootstrap.Some? then [c.bootstrap.value] else [], Selection(c, names));
  }

  /** It succeeds exactly if everything that is reached is registered and no walk comes back to itself. */
  lemma ResolutionSucceedsIff(c: Catalog, names: Option<seq<string>>)
    ensures Resolved(c, names).Ok? <==> AllRegistered(c.items, Wanted(c, names)) && Acyclic(c.items, Wanted(c, names))
  {
    var roots, unknown := Wanted(c, names), Unregistered(c.items, Selection(c, names));
    if unknown != [] {
      UnregisteredMembers(c.items, Selection(c, names), unknown[0]);
      KeepAllMembers(if c.bootstrap.Some? then [c.bootstrap.value] else [], Selection(c, names));
      RootReached(c.items, roots, unknown[0]);
    } else {
      VisitsFromFresh(c.items, roots);
      if Resolved(c, names).Ok? {
        VisitsAreExact(c.items, roots);
      }
    }
  }

  /** Each error tells the truth: unregistered selected names, a reached unregistered name, or a walk that loops. */
  lemma ErrorsAreGenuine(c: Catalog, names: Option<seq<string>>)
    requires Resolved(c, names).Raised?
    ensures Resolved(c, names).error.UnknownDatasets? ==>
      forall name :: name in Resolved(c, names).error.names <==> name in Selection(c, names) && name !in c.items
    ensures !Resolved(c, names).error.UnknownDatasets? ==>
      && Genuine(c.items, Wanted(c, names), Resolved(c, names).error)
      && forall name :: name in Selection(c, names) ==> name in c.items
  {
    forall name
      ensures name in Unregistered(c.items, Selection(c, names)) <==> name in Selection(c, names) && name !in c.items
    {
      UnregisteredMembers(c.items, Selection(c, names), name);
    }
    VisitsFromFresh(c.items, Wanted(c, names));
  }

  /** The default set never names an unregistered dataset. */
  lemma DefaultIsRegistered(c: Catalog)
    requires WellKept(c)
    ensures Resolved(c, None).Raised? ==> !Resolved(c, None).error.UnknownDatasets?
  {
    var unknown := Unregistered(c.items, Selection(c, None));
    VisitsFromFresh(c.items, Wanted(c, None));
    if unknown != [] {
      UnregisteredMembers(c.items, Selection(c, None), unknown[0]);
      DefaultMembers(c, c.order, unknown[0]);
    }
  }

  lemma {:induction false} KeepAllHead(b: string, xs: seq<string>)
    ensures KeepAll([b], xs) == [b] + KeepAll([b], xs)[1..]
  {
    KeepAllMembers([b], xs);
  }

  lemma {:induction false} VisitsSplit(items: Items, s: Search, first: seq<string>, rest: seq<string>,
                                       path: seq<string>)
    ensures var r := VisitedAll(items, s, first, path);
      VisitedAll(items, s, first + rest, path) == if r.Raised? then r else VisitedAll(items, r.value, rest, path)
    decreases |first|
  {
    if first == [] {
      assert first + rest == rest;
    } else {
      assert (first + rest)[1..] == first[1..] + rest;
      var next := Visited(items, s, first[0], path);
      if next.Ok? { VisitsSplit(items, next.value, first[1..], rest, path); }
    }
  }

  /**
   The order of a resolution follows the order of the wanted names: what the first k of them
   reach, the bootstrap among them, comes before everything else.
   */
  lemma {:induction false} EachPrefixIsExact(c: Catalog, names: Option<seq<string>>, k: nat) returns (n: nat)
    requires Resolved(c, names).Ok? && k <= |Wanted(c, names)|
    ensures n <= |Resolved(c, names).value|
    ensures Exact(c.items, Wanted(c, names)[..k], Resolved(c, names).value[..n])
  {
    var wanted := Wanted(c, names);
    assert wanted[..k] + wanted[k..] == wanted;
    n := PrefixOfVisits(c.items, wanted[..k], wanted[k..]);
  }

  lemma PrefixOfVisits(items: Items, first: seq<string>, rest: seq<string>) returns (n: nat)
    requires VisitedAll(items, FRESH, first + rest, []).Ok?
    ensures n <= |VisitedAll(items, FRESH, first + rest, []).value.ordered|
    ensures Exact(items, first, VisitedAll(items, FRESH, first + rest, []).value.ordered[..n])
  {
    VisitsSplit(items, FRESH, first, rest, []);
    VisitsAreExact(items, first);
    var s := VisitedAll(items, FRESH, first, []).value;
    VisitAllIsSound(items, first, FRESH, first, []);
    VisitAllIsSound(items, rest, s, rest, []);
    n := |s.ordered|;
    assert VisitedAll(items, FRESH, first + rest, []).value.ordered[..n] == s.ordered;
  }

  lemma ReachedThrough(items: Items, name: string, x: string)
    requires name in items && Reached(items, items[name].dependsOn, x)
    ensures Reached(items, [name], x)
  {
    var p :| WalkTo(items, items[name].dependsOn, p, x);
    assert WalkTo(items, [name], [name] + p, x);
  }

  lemma ReachedFromMore(items: Items, a: seq<string>, b: seq<string>, x: string)
    requires Reached(items, a, x) && forall name :: name in a ==> name in b
    ensures Reached(items, b, x)
  {
    var p :| WalkTo(items, a, p, x);
    assert WalkTo(items, b, p, x);
  }

  /** A visit orders only what the name reaches. */
  lemma {:induction false} VisitReaches(items: Items, s: Search, name: string, path: seq<string>, x: string)
    requires Visited(items, s, name, path).Ok?
    requires x in Visited(items, s, name, path).value.ordered && x !in s.ordered
    ensures Reached(items, [name], x)
    decreases |items.Keys - s.state.Keys|, 0
  {
    var entered := s.(state := s.state[name := Visiting]);
    Shrinks(items, s, name);
    if x == name {
      RootReached(items, [name], x);
    } else {
      VisitsReach(items, entered, items[name].dependsOn, path + [name], x);
      ReachedThrough(items, name, x);
    }
  }

  lemma {:induction false} VisitsReach(items: Items, s: Search, names: seq<string>, path: seq<string>, x: string)
    requires VisitedAll(items, s, names, path).Ok?
    requires x in VisitedAll(items, s, names, path).value.ordered && x !in s.ordered
    ensures Reached(items, names, x)
    decreases |items.Keys - s.state.Keys|, |names|
  {
    var first := Visited(items, s, names[0], path).value;
    Fewer(items.Keys - first.state.Keys, items.Keys - s.state.Keys);
    if x in first.ordered {
      VisitReaches(items, s, names[0], path, x);
      ReachedFromMore(items, [names[0]], names, x);
    } else {
      VisitsReach(items, first, names[1..], path, x);
      ReachedFromMore(items, names[1..], names, x);
    }
  }

  /** At every visit that goes on, what the first k dependencies reach is ordered before all that is new beside it. */
  lemma VisitFollowsDependencies(items: Items, roots: seq<string>, s: Search, name: string, path: seq<string>, k: nat)
    returns (m: nat)
    requires Coherent(items, s) && OnPath(items, roots, s, path) && Asked(items, roots, path, name)
    requires name in items && name !in s.state && k <= |items[name].dependsOn|
    requires Visited(items, s, name, path).Ok?
    ensures m <= |Visited(items, s, name, path).value.ordered|
    ensures var ordered := Visited(items, s, name, path).value.ordered;
      forall x :: x in ordered[..m] <==> x in s.ordered || Reached(items, items[name].dependsOn[..k], x)
  {
    var deps, inner, entered := items[name].dependsOn, path + [name], s.(state := s.state[name := Visiting]);
    assert deps[..k] + deps[k..] == deps;
    Enter(items, roots, s, name, path);
    VisitsSplit(items, entered, deps[..k], deps[k..], inner);
    VisitsAddReached(items, roots, entered, deps[..k], inner);
    var t := VisitedAll(items, entered, deps[..k], inner).value;
    VisitAllIsSound(items, roots, t, deps[k..], inner);
    var end := VisitedAll(items, entered, deps, inner).value;
    m := |t.ordered|;
    assert end.ordered[..m] == t.ordered && (end.ordered + [name])[..m] == t.ordered;
  }

  /** Visits add exactly what their names reach. */
  lemma VisitsAddReached(items: Items, roots: seq<string>, s: Search, names: seq<string>, path: seq<string>)
    requires Coherent(items, s) && OnPath(items, roots, s, path) && VisitedAll(items, s, names, path).Ok?
    requires forall name :: name in names ==> Asked(items, roots, path, name)
    ensures var t := VisitedAll(items, s, names, path).value;
      && Coherent(items, t) && OnPath(items, roots, t, path)
      && forall x :: x in t.ordered <==> x in s.ordered || Reached(items, names, x)
  {
    VisitAllIsSound(items, roots, s, names, path);
    var t := VisitedAll(items, s, names, path).value;
    forall x ensures x in t.ordered <==> x in s.ordered || Reached(items, names, x) {
      if x in t.ordered && x !in s.ordered { VisitsReach(items, s, names, path, x); }
      if p :| WalkTo(items, names, p, x) { OrderIsClosed(items, names, t.ordered, p); }
    }
  }

  /**
   The order follows the order of dependencies, too: behind what the wanted names before it reach,
   what the first k dependencies of a wanted name reach comes before everything else.
   */
  lemma DependenciesComeInOrder(c: Catalog, names: Option<seq<string>>, j: nat, k: nat) returns (m: nat)
    requires Resolved(c, names).Ok? && j < |Wanted(c, names)|
    requires var name := Wanted(c, names)[j];
      !Reached(c.items, Wanted(c, names)[..j], name) && name in c.items && k <= |c.items[name].dependsOn|
    ensures m <= |Resolved(c, names).value|
    ensures var earlier, deps := Wanted(c, names)[..j], c.items[Wanted(c, names)[j]].dependsOn[..k];
      forall x :: x in Resolved(c, names).value[..m] <==> Reached(c.items, earlier, x) || Reached(c.items, deps, x)
  {
    var items, wanted := c.items, Wanted(c, names);
    var s, t := AroundVisit(items, wanted, j);
    VisitsAreExact(items, wanted[..j]);
    m := VisitFollowsDependencies(items, wanted, s, wanted[j], [], k);
    assert Resolved(c, names).value[..m] == t.ordered[..m];
  }

  /** The search before and after the visit of a wanted name. */
  lemma AroundVisit(items: Items, wanted: seq<string>, j: nat) returns (s: Search, t: Search)
    requires VisitedAll(items, FRESH, wanted, []).Ok? && j < |wanted| && !Reached(items, wanted[..j], wanted[j])
    ensures VisitedAll(items, FRESH, wanted[..j], []) == Ok(s) && Visited(items, s, wanted[j], []) == Ok(t)
    ensures Coherent(items, s) && OnPath(items, wanted, s, []) && wanted[j] !in s.state
    ensures t.ordered <= VisitedAll(items, FRESH, wanted, []).value.ordered
  {
    var before, rest := wanted[..j], wanted[j..];
    assert before + rest == wanted;
    VisitsSplit(items, FRESH, before, rest, []);
    s := VisitedAll(items, FRESH, before, []).value;
    VisitAllIsSound(items, wanted, FRESH, before, []);
    VisitsAreExact(items, before);
    assert wanted[j] !in s.ordered;
    t := Visited(items, s, rest[0], []).value;
    VisitIsSound(items, wanted, s, rest[0], []);
    VisitAllIsSound(items, wanted, t, rest[1..], []);
  }

  /** The bootstrap heads the wanted names, so what it reaches comes first. */
  lemma {:induction false} BootstrapComesFirst(c: Catalog, names: Option<seq<string>>) returns (n: nat)
    requires c.bootstrap.Some? && Resolved(c, names).Ok?
    ensures n <= |Resolved(c, names).value|
    ensures Exact(c.items, [c.bootstrap.value], Resolved(c, names).value[..n])
  {
    KeepAllHead(c.bootstrap.value, Selection(c, names));
    assert Wanted(c, names)[..1] == [c.bootstrap.value];
    n := EachPrefixIsExact(c, names, 1);
  }

  lemma RestKeepsPrefix(items: Items, wanted: seq<string>, first: Search)
    requires wanted != [] && Visited(items, FRESH, wanted[0], []) == Ok(first)
    requires VisitedAll(items, FRESH, wanted, []).Ok?
    ensures first.ordered <= VisitedAll(items, FRESH, wanted, []).value.ordered
  {
    VisitIsSound(items, wanted, FRESH, wanted[0], []);
    VisitAllIsSound(items, wanted, first, wanted[1..], []);
  }

  // ------------------------------------------------------------- idempotence

  /** A name that stands for itself. */
  ghost predicate Plain(c: Catalog, name: string) {
    name != "" && Trimmed(name) && name != ALL && !c.IsAlias(name)
  }

  lemma {:induction false} PlainTargets(c: Catalog, names: seq<string>)
    requires forall name :: name in names ==> Plain(c, name)
    ensures AllTargets(c, names) == names
  {
    if names != [] {
      var n := |names| - 1;
      PlainTargets(c, names[..n]);
      assert names == names[..n] + [names[n]];
      assert Plain(c, names[n]) && Strip(names[n]) == names[n];
    }
  }

  lemma {:induction false} KeepDistinctList(xs: seq<string>)
    requires Distinct(xs)
    ensures KeepAll([], xs) == xs
  {
    if xs != [] {
      var n := |xs| - 1;
      KeepDistinctList(xs[..n]);
      assert xs == xs[..n] + [xs[n]];
      assert xs[n] !in xs[..n];
    }
  }

  function Without(xs: seq<string>, b: string): seq<string> {
    if xs == [] then [] else (if xs[0] == b then [] else [xs[0]]) + Without(xs[1..], b)
  }

  lemma {:induction false} WithoutLast(xs: seq<string>, b: string)
    requires xs != []
    ensures Without(xs, b) == Without(xs[..|xs| - 1], b) + if xs[|xs| - 1] == b then [] else [xs[|xs| - 1]]
  {
    if |xs| > 1 {
      WithoutLast(xs[1..], b);
      assert xs[1..][..|xs| - 2] == xs[..|xs| - 1][1..];
    }
  }

  lemma {:induction false} KeepBehindBootstrap(b: string, xs: seq<string>)
    requires Distinct(xs)
    ensures KeepAll([b], xs) == [b] + Without(xs, b)
  {
    if xs != [] {
      var n := |xs| - 1;
      KeepBehindBootstrap(b, xs[..n]);
      WithoutLast(xs, b);
      KeepAllMembers([b], xs[..n]);
      assert xs[n] !in xs[..n];
    }
  }

  /** All names done and nothing else: visiting done names again changes nothing. */
  lemma {:induction false} DoneAgain(items: Items, s: Search, names: seq<string>, path: seq<string>)
    requires forall name :: name in names ==> name in s.state && s.state[name].Done?
    ensures VisitedAll(items, s, names, path) == Ok(s)
  {
    if names != [] {
      DoneAgain(items, s, names[1..], path);
    }
  }

  /** The search that has ordered these names. */
  ghost predicate HasDone(s: Search, ordered: seq<string>) {
    && s.ordered == ordered
    && forall name :: name in s.state <==> name in ordered && (name in s.state ==> s.state[name].Done?)
  }

  ghost predicate GivesBack(items: Items, s: Search, names: seq<string>, order: seq<string>) {
    var r := VisitedAll(items, s, names, []);
    r.Ok? && r.value.ordered == order
  }

  /** Visiting the names of an order in that order gives it back. */
  lemma {:induction false} Replay(items: Items, order: seq<string>, skip: string, s: Search, i: nat, k: nat)
    requires Distinct(order) && forall j :: 0 <= j < |order| ==> DepsBefore(items, order, j)
    requires i <= k <= |order| && HasDone(s, order[..k])
    requires skip in order ==> skip in order[..k]
    ensures GivesBack(items, s, Without(order[i..], skip), order)
    decreases |order| - i
  {
    if i == |order| {
      assert order[i..] == [] && order[..k] == order;
    } else {
      assert order[i..][1..] == order[i + 1..];
      if i < k {
        ReplayDone(items, order, skip, s, i, k);
        Replay(items, order, skip, s, i + 1, k);
      } else {
        var t := ReplayOpen(items, order, skip, s, k);
        assert order[..k + 1] == order[..k] + [order[k]];
        Replay(items, order, skip, t, i + 1, k + 1);
      }
    }
  }

  lemma ReplayDone(items: Items, order: seq<string>, skip: string, s: Search, i: nat, k: nat)
    requires i < k <= |order| && HasDone(s, order[..k])
    ensures VisitedAll(items, s, Without(order[i..], skip), [])
        == VisitedAll(items, s, Without(order[i + 1..], skip), [])
  {
    assert order[i] in order[..k];
    assert order[i..][1..] == order[i + 1..];
    var all, rest := Without(order[i..], skip), Without(order[i + 1..], skip);
    if order[i] == skip {
      assert all == rest;
    } else {
      assert all == [order[i]] + rest && all[1..] == rest;
    }
  }

  lemma ReplayOpen(items: Items, order: seq<string>, skip: string, s: Search, k: nat) returns (t: Search)
    requires k < |order| && Distinct(order) && DepsBefore(items, order, k) && HasDone(s, order[..k])
    requires skip in order ==> skip in order[..k]
    ensures HasDone(t, order[..k + 1])
    ensures VisitedAll(items, s, Without(order[k..], skip), [])
        == VisitedAll(items, t, Without(order[k + 1..], skip), [])
  {
    t := ReplayNext(items, order, s, k);
    assert order[k..][1..] == order[k + 1..];
    assert order[k] in order && order[k] !in order[..k];
    var all, rest := Without(order[k..], skip), Without(order[k + 1..], skip);
    assert all == [order[k]] + rest && all[1..] == rest;
  }

  lemma ReplayNext(items: Items, order: seq<string>, s: Search, k: nat) returns (t: Search)
    requires k < |order| && Distinct(order) && DepsBefore(items, order, k) && HasDone(s, order[..k])
    ensures Visited(items, s, order[k], []) == Ok(t) && HasDone(t, order[..k + 1])
  {
    var name := order[k];
    assert name !in order[..k];
    var entered := s.(state := s.state[name := Visiting]);
    DoneAgain(items, entered, items[name].dependsOn, [name]);
    assert [] + [name] == [name];
    t := Search(entered.state[name := Done], s.ordered + [name]);
    assert order[..k + 1] == order[..k] + [name];
  }

  /**
   Resolving the names that a resolution returned gives them back in the same order, if each of
   them stands for itself. (No names at all would mean the default set.)
   */
  lemma {:induction false} ResolutionIsIdempotent(c: Catalog, names: Option<seq<string>>)
    requires Resolved(c, names).Ok? && Resolved(c, names).value != []
    requires forall name :: name in Resolved(c, names).value ==> Plain(c, name)
    ensures Resolved(c, Some(Resolved(c, names).value)) == Resolved(c, names)
  {
    var found, wanted := Resolved(c, names).value, Wanted(c, names);
    ResolutionIsExact(c, names);
    VisitsFromFresh(c.items, wanted);
    AllRegisteredSelected(c, found);
    SecondWanted(c, found);
    if c.bootstrap.None? {
      NoneSkipped(found);
      assert found[0..] == found;
      Replay(c.items, found, "", FRESH, 0, 0);
    } else {
      KeepAllHead(c.bootstrap.value, Selection(c, names));
      ReplayBootstrap(c.items, found, c.bootstrap.value, wanted);
    }
  }

  lemma AllRegisteredSelected(c: Catalog, found: seq<string>)
    requires forall name :: name in found ==> name in c.items
    ensures Unregistered(c.items, found) == []
  {
    if Unregistered(c.items, found) != [] {
      UnregisteredMembers(c.items, found, Unregistered(c.items, found)[0]);
    }
  }

  lemma SecondWanted(c: Catalog, found: seq<string>)
    requires Distinct(found) && found != [] && forall name :: name in found ==> Plain(c, name)
    ensures Selection(c, Some(found)) == found
    ensures Wanted(c, Some(found)) == if c.bootstrap.None? then found
        else [c.bootstrap.value] + Without(found, c.bootstrap.value)
  {
    PlainTargets(c, found);
    KeepDistinctList(found);
    if c.bootstrap.Some? {
      KeepBehindBootstrap(c.bootstrap.value, found);
    }
  }

  lemma {:induction false} NoneSkipped(xs: seq<string>)
    requires "" !in xs
    ensures Without(xs, "") == xs
  {
    if xs != [] {
      NoneSkipped(xs[1..]);
    }
  }

  lemma ReplayBootstrap(items: Items, found: seq<string>, b: string, wanted: seq<string>)
    requires wanted != [] && wanted[0] == b && Exact(items, wanted, found)
    requires VisitedAll(items, FRESH, wanted, []).Ok? && VisitedAll(items, FRESH, wanted, []).value.ordered == found
    ensures VisitedAll(items, FRESH, [b] + Without(found, b), []).Ok?
    ensures VisitedAll(items, FRESH, [b] + Without(found, b), []).value.ordered == found
  {
    var first := Visited(items, FRESH, b, []).value;
    RestKeepsPrefix(items, wanted, first);
    VisitIsSound(items, wanted, FRESH, b, []);
    var k := |first.ordered|;
    assert found[..k] == first.ordered && found[0..] == found;
    assert HasDone(first, found[..k]);
    Replay(items, found, b, first, 0, k);
    assert ([b] + Without(found, b))[1..] == Without(found, b);
  }
}

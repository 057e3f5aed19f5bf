/**
 What a registry of src/yfin/datasets/registry.py holds after its registrations, and which datasets
 a resolution delivers, said of the calls and of the names alone.
 */
module Selecting {
  import opened Wrappers
  import opened Text
  import opened Registry

  // ----------------------------------------------------------- registrations

  /** The last registration of the name. */
  ghost predicate LastCall(calls: seq<Registration>, name: string, i: int) {
    && 0 <= i < |calls| && calls[i].ds.name == name
    && forall k :: i < k < |calls| ==> calls[k].ds.name != name
  }

  /** The call puts the name into the group. */
  ghost predicate Joins(calls: seq<Registration>, group: string, name: string, i: int) {
    0 <= i < |calls| && calls[i].group == Some(group) && calls[i].ds.name == name
  }

  ghost predicate Joined(calls: seq<Registration>, group: string, name: string) {
    exists i :: Joins(calls, group, name, i)
  }

  /** The first registration of `a` comes before every one of `b`. */
  ghost predicate FirstBefore(calls: seq<Registration>, a: string, b: string) {
    exists i :: 0 <= i < |calls| && calls[i].ds.name == a
                && forall k :: 0 <= k < |calls| && calls[k].ds.name == b ==> i < k
  }

  ghost predicate JoinsBefore(calls: seq<Registration>, group: string, a: string, b: string) {
    exists i :: Joins(calls, group, a, i) && forall k :: Joins(calls, group, b, k) ==> i < k
  }

  /** The members of a group: those that joined it, once each, in the order in which they first did. */
  ghost predicate GroupOf(calls: seq<Registration>, group: string, members: seq<string>) {
    && Distinct(members)
    && (forall name :: name in members <==> Joined(calls, group, name))
    && forall p, q :: 0 <= p < q < |members| ==> JoinsBefore(calls, group, members[p], members[q])
  }

  ghost predicate OrderOf(calls: seq<Registration>, order: seq<string>) {
    && Distinct(order)
    && (forall name :: name in order <==> Names(calls, name))
    && forall p, q :: 0 <= p < q < |order| ==> FirstBefore(calls, order[p], order[q])
  }

  /** The last registration of a name decides its dataset and whether it is opt-in. */
  ghost predicate LastDecides(calls: seq<Registration>, c: Catalog) {
    forall name, i :: LastCall(calls, name, i) ==>
      name in c.items && c.items[name] == calls[i].ds && (name in c.optIn <==> calls[i].optIn)
  }

  lemma {:induction false} OrderOfCalls(bootstrap: Option<string>, aliases: map<string, seq<string>>,
                                        calls: seq<Registration>)
    ensures OrderOf(calls, RegisteredAll(EmptyCatalog(bootstrap, aliases), calls).order)
  {
    if calls != [] {
      var n := |calls| - 1;
      var before := RegisteredAll(EmptyCatalog(bootstrap, aliases), calls[..n]).order;
      OrderOfCalls(bootstrap, aliases, calls[..n]);
      NamesOfLast(calls, aliases);
      KeepDistinct(before, calls[n].ds.name);
      var order := Keep(before, calls[n].ds.name);
      forall p, q | 0 <= p < q < |order| ensures FirstBefore(calls, order[p], order[q]) {
        assert before[p] == order[p];
        if q < |before| {
          LongerFirstBefore(calls, order[p], order[q]);
        } else {
          NewComesLast(calls, before, order[p]);
        }
      }
    }
  }

  /** A name that is registered again keeps its place. */
  lemma LongerFirstBefore(calls: seq<Registration>, a: string, b: string)
    requires calls != [] && FirstBefore(calls[..|calls| - 1], a, b)
    ensures FirstBefore(calls, a, b)
  {
    var n := |calls| - 1;
    var i :| 0 <= i < n && calls[..n][i].ds.name == a
             && forall k :: 0 <= k < n && calls[..n][k].ds.name == b ==> i < k;
    forall k | 0 <= k < |calls| && calls[k].ds.name == b ensures i < k {
      if k < n { assert calls[..n][k] == calls[k]; }
    }
  }

  lemma NewComesLast(calls: seq<Registration>, before: seq<string>, a: string)
    requires calls != [] && OrderOf(calls[..|calls| - 1], before)
    requires a in before && calls[|calls| - 1].ds.name !in before
    ensures FirstBefore(calls, a, calls[|calls| - 1].ds.name)
  {
    var n := |calls| - 1;
    assert Names(calls[..n], a) && !Names(calls[..n], calls[n].ds.name);
    var i :| 0 <= i < n && calls[..n][i].ds.name == a;
    assert forall k :: 0 <= k < n ==> calls[k] == calls[..n][k] && calls[k].ds.name != calls[n].ds.name;
  }

  lemma {:induction false} LastCallDecides(bootstrap: Option<string>, aliases: map<string, seq<string>>,
                                           calls: seq<Registration>)
    ensures LastDecides(calls, RegisteredAll(EmptyCatalog(bootstrap, aliases), calls))
  {
    if calls != [] {
      var n := |calls| - 1;
      var c := RegisteredAll(EmptyCatalog(bootstrap, aliases), calls);
      LastCallDecides(bootstrap, aliases, calls[..n]);
      forall name, i | LastCall(calls, name, i)
        ensures name in c.items && c.items[name] == calls[i].ds && (name in c.optIn <==> calls[i].optIn)
      {
        if i < n { assert LastCall(calls[..n], name, i); }
      }
    }
  }

  lemma {:induction false} GroupsOfCalls(bootstrap: Option<string>, aliases: map<string, seq<string>>,
                                         calls: seq<Registration>, group: string)
    ensures var groups := RegisteredAll(EmptyCatalog(bootstrap, aliases), calls).groups;
      GroupOf(calls, group, if group in groups then groups[group] else []) || group in aliases
  {
    if calls != [] && group !in aliases {
      var n := |calls| - 1;
      var before := RegisteredAll(EmptyCatalog(bootstrap, aliases), calls[..n]);
      CallsDecideNames(bootstrap, aliases, calls[..n]);
      GroupsOfCalls(bootstrap, aliases, calls[..n], group);
      GroupOfLast(calls, group, if group in before.groups then before.groups[group] else []);
    }
  }

  lemma GroupOfLast(calls: seq<Registration>, group: string, before: seq<string>)
    requires calls != [] && GroupOf(calls[..|calls| - 1], group, before)
    ensures var last := calls[|calls| - 1];
      GroupOf(calls, group, if last.group == Some(group) then Keep(before, last.ds.name) else before)
  {
    var n := |calls| - 1;
    var last := calls[n];
    var after := if last.group == Some(group) then Keep(before, last.ds.name) else before;
    KeepDistinct(before, last.ds.name);
    forall name ensures name in after <==> Joined(calls, group, name) {
      JoinsLonger(calls, group, name);
    }
    forall p, q | 0 <= p < q < |after| ensures JoinsBefore(calls, group, after[p], after[q]) {
      assert before[p] == after[p] && before[p] in before;
      if q < |before| {
        LongerJoinsBefore(calls, group, after[p], after[q]);
      } else {
        NewJoinsLast(calls, group, after[p], after[q]);
      }
    }
  }

  lemma JoinsLonger(calls: seq<Registration>, group: string, name: string)
    requires calls != []
    ensures var n := |calls| - 1;
      Joined(calls, group, name) <==>
        Joined(calls[..n], group, name) || Joins(calls, group, name, n)
  {
    var n := |calls| - 1;
    if i :| Joins(calls, group, name, i) {
      if i < n { assert Joins(calls[..n], group, name, i); }
    }
    if i :| Joins(calls[..n], group, name, i) {
      assert Joins(calls, group, name, i);
    }
  }

  lemma LongerJoinsBefore(calls: seq<Registration>, group: string, a: string, b: string)
    requires calls != [] && JoinsBefore(calls[..|calls| - 1], group, a, b)
    ensures JoinsBefore(calls, group, a, b)
  {
    var n := |calls| - 1;
    var i :| Joins(calls[..n], group, a, i) && forall k :: Joins(calls[..n], group, b, k) ==> i < k;
    assert Joins(calls, group, a, i);
    forall k | Joins(calls, group, b, k) ensures i < k {
      if k < n { assert Joins(calls[..n], group, b, k); }
    }
  }

  lemma NewJoinsLast(calls: seq<Registration>, group: string, a: string, b: string)
    requires calls != [] && Joined(calls[..|calls| - 1], group, a) && !Joined(calls[..|calls| - 1], group, b)
    ensures JoinsBefore(calls, group, a, b)
  {
    var n := |calls| - 1;
    var i :| Joins(calls[..n], group, a, i);
    assert Joins(calls, group, a, i);
    forall k | Joins(calls, group, b, k) ensures i < k {
      if k < n { assert Joins(calls[..n], group, b, k); }
    }
  }

  /**
   What the registry holds after any registrations: the names in the order in which they were first
   registered, the dataset and the flag of the last registration of each, and in each group those
   that joined it, in the order in which they first did.
   */
  lemma {:induction false} RegistrationsDecide(bootstrap: Option<string>, aliases: map<string, seq<string>>,
                                               calls: seq<Registration>)
    ensures var c := RegisteredAll(EmptyCatalog(bootstrap, aliases), calls);
      && c.bootstrap == bootstrap && c.explicitAliases == aliases
      && OrderOf(calls, c.order) && LastDecides(calls, c)
      && (forall name :: name in c.items <==> Names(calls, name))
      && (forall group :: group in c.groups <==> Groups(calls, aliases, group))
      && forall group :: group in c.groups ==> GroupOf(calls, group, c.groups[group])
  {
    var c := RegisteredAll(EmptyCatalog(bootstrap, aliases), calls);
    BootstrapStays(bootstrap, aliases, calls);
    CallsDecideNames(bootstrap, aliases, calls);
    OrderOfCalls(bootstrap, aliases, calls);
    LastCallDecides(bootstrap, aliases, calls);
    forall group | group in c.groups ensures GroupOf(calls, group, c.groups[group]) {
      GroupsOfCalls(bootstrap, aliases, calls, group);
    }
  }

  lemma {:induction false} BootstrapStays(bootstrap: Option<string>, aliases: map<string, seq<string>>,
                                          calls: seq<Registration>)
    ensures RegisteredAll(EmptyCatalog(bootstrap, aliases), calls).bootstrap == bootstrap
  {
    if calls != [] { BootstrapStays(bootstrap, aliases, calls[..|calls| - 1]); }
  }

  // --------------------------------------------------------------- selection

  /** Registered, neither the bootstrap nor opt-in. */
  ghost predicate ByDefault(c: Catalog, n: string) {
    n in c.items && c.bootstrap != Some(n) && n !in c.optIn
  }

  /** The j-th dataset that a stripped name stands for; for `all`, j is its place among all registered ones. */
  ghost predicate StandsFor(c: Catalog, name: string, j: int, n: string) {
    if name == "" then false
    else if name == "all" then 0 <= j < |c.order| && c.order[j] == n && ByDefault(c, n)
    else if name in c.explicitAliases then 0 <= j < |c.explicitAliases[name]| && c.explicitAliases[name][j] == n
    else if name in c.groups then 0 <= j < |c.groups[name]| && c.groups[name][j] == n
    else j == 0 && n == name
  }

  /** The k-th given name stands for it, in the j-th place; no names at all mean `all`. */
  ghost predicate Selects(c: Catalog, names: Option<seq<string>>, k: int, j: int, n: string) {
    if names == None || names == Some([]) then k == 0 && StandsFor(c, "all", j, n)
    else 0 <= k < |names.value| && StandsFor(c, Strip(names.value[k]), j, n)
  }

  ghost predicate Selected(c: Catalog, names: Option<seq<string>>, n: string) {
    exists k, j :: Selects(c, names, k, j, n)
  }

  /** `a` is selected at a place before every place at which `b` is. */
  ghost predicate SelectedBefore(c: Catalog, names: Option<seq<string>>, a: string, b: string) {
    exists k, j :: Selects(c, names, k, j, a)
                   && forall k', j' :: Selects(c, names, k', j', b) ==> k < k' || (k == k' && j < j')
  }

  /** Where a list has its members, for the two kinds of lists that a name can stand for. */
  ghost predicate Lists(c: Catalog, name: string, targets: seq<string>) {
    && (forall n :: n in targets <==> exists j :: StandsFor(c, name, j, n))
    && forall p, q :: 0 <= p < q < |targets| && targets[q] !in targets[..q] ==>
          EarlierIn(c, name, targets[p], targets[q])
  }

  ghost predicate EarlierIn(c: Catalog, name: string, a: string, b: string) {
    exists j :: StandsFor(c, name, j, a) && forall j' :: StandsFor(c, name, j', b) ==> j < j'
  }

  lemma {:induction false} DefaultsInOrder(c: Catalog, names: seq<string>, p: nat, q: nat) returns (i: nat, j: nat)
    requires p < q < |DefaultOf(c, names)|
    ensures i < j < |names| && names[i] == DefaultOf(c, names)[p] && names[j] == DefaultOf(c, names)[q]
  {
    var n := |names| - 1;
    var before := DefaultOf(c, names[..n]);
    if q < |before| {
      i, j := DefaultsInOrder(c, names[..n], p, q);
    } else {
      DefaultMembers(c, names[..n], before[p]);
      i :| 0 <= i < n && names[..n][i] == before[p];
      j := n;
    }
  }

  lemma AllLists(c: Catalog)
    requires WellKept(c)
    ensures Lists(c, "all", DefaultOf(c, c.order))
  {
    var targets := DefaultOf(c, c.order);
    forall n ensures n in targets <==> exists j :: StandsFor(c, "all", j, n) {
      DefaultMembers(c, c.order, n);
      if n in targets {
        var j :| 0 <= j < |c.order| && c.order[j] == n;
        assert StandsFor(c, "all", j, n);
      }
    }
    forall p, q | 0 <= p < q < |targets| ensures EarlierIn(c, "all", targets[p], targets[q]) {
      DefaultMembers(c, c.order, targets[p]);
      var i, j := DefaultsInOrder(c, c.order, p, q);
      assert StandsFor(c, "all", i, targets[p]);
    }
  }

  /** A list whose places are the j of `StandsFor`. */
  lemma PlainLists(c: Catalog, name: string, members: seq<string>)
    requires forall j, n :: StandsFor(c, name, j, n) <==> 0 <= j < |members| && members[j] == n
    ensures Lists(c, name, members)
  {
    forall n ensures n in members <==> exists j :: StandsFor(c, name, j, n) {
      if n in members {
        var j :| 0 <= j < |members| && members[j] == n;
        assert StandsFor(c, name, j, n);
      }
    }
    forall p, q | 0 <= p < q < |members| && members[q] !in members[..q]
      ensures EarlierIn(c, name, members[p], members[q])
    {
      assert StandsFor(c, name, p, members[p]);
      forall i | 0 <= i < q ensures members[i] != members[q] {
        OccursBefore(members, i, q);
      }
    }
  }

  lemma TargetsList(c: Catalog, raw: string)
    requires WellKept(c)
    ensures Lists(c, Strip(raw), Targets(c, raw))
  {
    if Strip(raw) == "all" {
      AllLists(c);
    } else {
      PlainLists(c, Strip(raw), Targets(c, raw));
    }
  }

  /** The selection: what the names stand for, once each, in the order of the places. */
  ghost predicate IsSelection(c: Catalog, names: Option<seq<string>>, all: seq<string>) {
    && Distinct(all)
    && (forall n :: n in all <==> Selected(c, names, n))
    && forall p, q :: 0 <= p < q < |all| ==> SelectedBefore(c, names, all[p], all[q])
  }

  /** The names before position `k`; the first `k` as a list that is not empty. */
  ghost predicate PrefixSelection(c: Catalog, names: seq<string>, all: seq<string>) {
    && Distinct(all)
    && (forall n :: n in all <==> exists k, j :: At(c, names, k, j, n))
    && forall p, q :: 0 <= p < q < |all| ==> AtBefore(c, names, all[p], all[q])
  }

  ghost predicate At(c: Catalog, names: seq<string>, k: int, j: int, n: string) {
    0 <= k < |names| && StandsFor(c, Strip(names[k]), j, n)
  }

  ghost predicate AtBefore(c: Catalog, names: seq<string>, a: string, b: string) {
    exists k, j :: At(c, names, k, j, a) && forall k', j' :: At(c, names, k', j', b) ==> k < k' || (k == k' && j < j')
  }

  lemma {:induction false} ExpandedIsPrefixSelection(c: Catalog, names: seq<string>)
    requires WellKept(c)
    ensures PrefixSelection(c, names, Expanded(c, names))
  {
    if names != [] {
      var n := |names| - 1;
      var before, targets := Expanded(c, names[..n]), Targets(c, names[n]);
      ExpandedIsPrefixSelection(c, names[..n]);
      TargetsList(c, names[n]);
      KeepAllConcat([], AllTargets(c, names[..n]), targets);
      KeepAllMembers(before, targets);
      MembersOfLonger(c, names, before, targets);
      OrderOfLonger(c, names, before, targets);
    }
  }

  lemma AtLonger(c: Catalog, names: seq<string>, k: int, j: int, n: string)
    requires names != []
    ensures At(c, names, k, j, n) <==>
            At(c, names[..|names| - 1], k, j, n) || (k == |names| - 1 && StandsFor(c, Strip(names[k]), j, n))
  {
  }

  lemma MembersOfLonger(c: Catalog, names: seq<string>, before: seq<string>, targets: seq<string>)
    requires names != [] && PrefixSelection(c, names[..|names| - 1], before)
    requires Lists(c, Strip(names[|names| - 1]), targets)
    ensures forall x :: x in before || x in targets <==> exists k, j :: At(c, names, k, j, x)
  {
    var n := |names| - 1;
    forall x ensures x in before || x in targets <==> exists k, j :: At(c, names, k, j, x) {
      if x in before {
        var k, j :| At(c, names[..n], k, j, x);
        AtLonger(c, names, k, j, x);
      } else if x in targets {
        var j :| StandsFor(c, Strip(names[n]), j, x);
        assert At(c, names, n, j, x);
      }
      if k, j :| At(c, names, k, j, x) {
        AtLonger(c, names, k, j, x);
      }
    }
  }

  /** A member that was not there comes from a first occurrence among the targets, behind all before it. */
  lemma {:induction false} NewMember(keys: seq<string>, xs: seq<string>, q: nat) returns (t: nat)
    requires Distinct(keys) && |keys| <= q < |KeepAll(keys, xs)|
    ensures t < |xs| && xs[t] == KeepAll(keys, xs)[q] && xs[t] !in xs[..t] && xs[t] !in keys
    ensures forall p :: |keys| <= p < q ==> KeepAll(keys, xs)[p] in xs[..t]
  {
    KeepAllMembers(keys, xs);
    var n := |xs| - 1;
    var before := KeepAll(keys, xs[..n]);
    KeepAllMembers(keys, xs[..n]);
    if q < |before| {
      t := NewMember(keys, xs[..n], q);
      assert xs[..n][..t] == xs[..t];
    } else {
      t := n;
      forall p | |keys| <= p < q ensures before[p] in xs[..n] {
        assert before[p] in before;
        forall i | 0 <= i < |keys| ensures keys[i] != before[p] {
          assert keys[i] == before[i];
        }
      }
    }
  }

  lemma OrderOfLonger(c: Catalog, names: seq<string>, before: seq<string>, targets: seq<string>)
    requires names != [] && PrefixSelection(c, names[..|names| - 1], before)
    requires Lists(c, Strip(names[|names| - 1]), targets)
    ensures var all := KeepAll(before, targets);
      forall p, q :: 0 <= p < q < |all| ==> AtBefore(c, names, all[p], all[q])
  {
    var all := KeepAll(before, targets);
    KeepAllMembers(before, targets);
    forall p, q | 0 <= p < q < |all| ensures AtBefore(c, names, all[p], all[q]) {
      if q < |before| {
        OldBeforeOld(c, names, all[p], all[q]);
      } else {
        var t := NewMember(before, targets, q);
        if p < |before| {
          OldBeforeNew(c, names, before, all[p], all[q]);
        } else {
          var s :| 0 <= s < t && targets[..t][s] == all[p];
          NewBeforeNew(c, names, before, all[p], all[q]);
        }
      }
    }
  }

  lemma OldBeforeOld(c: Catalog, names: seq<string>, a: string, b: string)
    requires names != [] && AtBefore(c, names[..|names| - 1], a, b)
    ensures AtBefore(c, names, a, b)
  {
    var n := |names| - 1;
    var k, j :| At(c, names[..n], k, j, a)
                && forall k', j' :: At(c, names[..n], k', j', b) ==> k < k' || (k == k' && j < j');
    AtLonger(c, names, k, j, a);
    forall k', j' | At(c, names, k', j', b) ensures k < k' || (k == k' && j < j') {
      AtLonger(c, names, k', j', b);
    }
  }

  lemma OldBeforeNew(c: Catalog, names: seq<string>, before: seq<string>, a: string, b: string)
    requires names != [] && PrefixSelection(c, names[..|names| - 1], before) && a in before && b !in before
    ensures AtBefore(c, names, a, b)
  {
    var n := |names| - 1;
    var k, j :| At(c, names[..n], k, j, a);
    AtLonger(c, names, k, j, a);
    forall k', j' | At(c, names, k', j', b) ensures k < k' {
      AtLonger(c, names, k', j', b);
    }
  }

  lemma NewBeforeNew(c: Catalog, names: seq<string>, before: seq<string>, a: string, b: string)
    requires names != [] && PrefixSelection(c, names[..|names| - 1], before) && b !in before
    requires EarlierIn(c, Strip(names[|names| - 1]), a, b)
    ensures AtBefore(c, names, a, b)
  {
    var n := |names| - 1;
    var j :| StandsFor(c, Strip(names[n]), j, a) && forall j' :: StandsFor(c, Strip(names[n]), j', b) ==> j < j';
    assert At(c, names, n, j, a);
    forall k', j' | At(c, names, k', j', b) ensures n < k' || (n == k' && j < j') {
      AtLonger(c, names, k', j', b);
    }
  }

  /**
   What is selected: an explicit alias stands for its members, a group for those that joined it, any
   other name for itself, registered or not; `all`, no names and the empty list stand for every
   registered dataset that is neither the bootstrap nor opt-in, in registration order. The selection
   has each once, in the order in which they first come.
   */
  lemma SelectionIsExact(c: Catalog, names: Option<seq<string>>)
    requires WellKept(c)
    ensures IsSelection(c, names, Selection(c, names))
  {
    var all := Selection(c, names);
    if names == None || names == Some([]) {
      DefaultSelection(c, names);
    } else {
      ExpandedIsPrefixSelection(c, names.value);
      forall k, j, n ensures Selects(c, names, k, j, n) <==> At(c, names.value, k, j, n) {
      }
      forall n ensures n in all <==> Selected(c, names, n) {
        if k, j :| At(c, names.value, k, j, n) { assert Selects(c, names, k, j, n); }
        if k, j :| Selects(c, names, k, j, n) { assert At(c, names.value, k, j, n); }
      }
      forall p, q | 0 <= p < q < |all| ensures SelectedBefore(c, names, all[p], all[q]) {
        var k, j :| At(c, names.value, k, j, all[p])
                    && forall k', j' :: At(c, names.value, k', j', all[q]) ==> k < k' || (k == k' && j < j');
        assert Selects(c, names, k, j, all[p]);
      }
    }
  }

  lemma DefaultSelection(c: Catalog, names: Option<seq<string>>)
    requires WellKept(c) && (names == None || names == Some([]))
    ensures IsSelection(c, names, Selection(c, names))
  {
    var all := DefaultOf(c, c.order);
    AllLists(c);
    forall n ensures n in all <==> Selected(c, names, n) {
      if n in all {
        var j :| StandsFor(c, "all", j, n);
        assert Selects(c, names, 0, j, n);
      }
    }
    forall p, q | 0 <= p < q < |all| ensures all[p] != all[q] && SelectedBefore(c, names, all[p], all[q]) {
      var i, j := DefaultsInOrder(c, c.order, p, q);
      DefaultMembers(c, c.order, all[p]);
      assert Selects(c, names, 0, i, all[p]);
    }
  }

  /** A name on its own: the members of the alias or of the group, or the name itself. */
  lemma OneNameSelects(c: Catalog, raw: string)
    requires WellKept(c) && Strip(raw) != "" && Strip(raw) != "all"
    ensures var name := Strip(raw);
      && (name in c.explicitAliases && Distinct(c.explicitAliases[name]) ==>
            Selection(c, Some([raw])) == c.explicitAliases[name])
      && (name !in c.explicitAliases && name in c.groups ==> Selection(c, Some([raw])) == c.groups[name])
      && (name !in c.explicitAliases && name !in c.groups ==> Selection(c, Some([raw])) == [name])
  {
    assert [raw][..0] == [];
    assert AllTargets(c, [raw][..0]) == [];
    assert AllTargets(c, [raw]) == Targets(c, raw);
    if Strip(raw) !in c.explicitAliases && Strip(raw) in c.groups {
      assert WellGrouped(c, c.groups[Strip(raw)]);
    }
    if Distinct(Targets(c, raw)) { KeepDistinctList(Targets(c, raw)); }
  }

  // ---------------------------------------------------------------- delivery

  /** The bootstrap or a selected name. */
  ghost predicate Root(c: Catalog, names: Option<seq<string>>, n: string) {
    c.bootstrap == Some(n) || Selected(c, names, n)
  }

  /** It is a root, or some root needs it. */
  ghost predicate Needed(c: Catalog, names: Option<seq<string>>, n: string) {
    exists p :: Walk(c.items, p) && Root(c, names, p[0]) && p[|p| - 1] == n
  }

  lemma WantedAreRoots(c: Catalog, names: Option<seq<string>>)
    requires WellKept(c)
    ensures forall n :: n in Wanted(c, names) <==> Root(c, names, n)
    ensures forall n :: Reached(c.items, Wanted(c, names), n) <==> Needed(c, names, n)
  {
    SelectionIsExact(c, names);
    KeepAllMembers(if c.bootstrap.Some? then [c.bootstrap.value] else [], Selection(c, names));
    forall n ensures n in Wanted(c, names) <==> Root(c, names, n) {
      assert n in Selection(c, names) <==> Selected(c, names, n);
    }
    forall n ensures Reached(c.items, Wanted(c, names), n) <==> Needed(c, names, n) {
      if p :| WalkTo(c.items, Wanted(c, names), p, n) {
        assert Walk(c.items, p) && Root(c, names, p[0]) && p[|p| - 1] == n;
      }
      if p :| Walk(c.items, p) && Root(c, names, p[0]) && p[|p| - 1] == n {
        assert WalkTo(c.items, Wanted(c, names), p, n);
      }
    }
  }

  /**
   A resolution delivers exactly the datasets registered under the needed names, and each needed
   name is registered.
   */
  lemma DeliveryIsExact(c: Catalog, names: Option<seq<string>>, datasets: seq<Dataset>)
    requires WellKept(c) && Resolved(c, names).Ok? && AreNamed(c.items, datasets, Resolved(c, names).value)
    ensures forall n :: Needed(c, names, n) ==> n in c.items
    ensures forall ds :: ds in datasets <==> exists n :: n in c.items && Needed(c, names, n) && c.items[n] == ds
  {
    var found := Resolved(c, names).value;
    NeededAreFound(c, names);
    forall ds ensures ds in datasets <==> exists n :: n in c.items && Needed(c, names, n) && c.items[n] == ds {
      if ds in datasets {
        var i :| 0 <= i < |datasets| && datasets[i] == ds;
        assert found[i] in found;
      }
      if n :| n in c.items && Needed(c, names, n) && c.items[n] == ds {
        var i :| 0 <= i < |found| && found[i] == n;
        assert datasets[i] == ds;
      }
    }
  }

  lemma NeededAreFound(c: Catalog, names: Option<seq<string>>)
    requires WellKept(c) && Resolved(c, names).Ok?
    ensures forall n :: Needed(c, names, n) <==> n in Resolved(c, names).value
    ensures forall n :: n in Resolved(c, names).value ==> n in c.items
  {
    var found := Resolved(c, names).value;
    WantedAreRoots(c, names);
    VisitsAreExact(c.items, Wanted(c, names));
    VisitsFromFresh(c.items, Wanted(c, names));
    forall n ensures Needed(c, names, n) <==> n in found {
      assert n in found <==> Reached(c.items, Wanted(c, names), n);
    }
  }

  /** It reports unknown datasets exactly if some selected name is not registered, and then all of these. */
  lemma UnknownIsReportedIff(c: Catalog, names: Option<seq<string>>)
    requires WellKept(c)
    ensures (Resolved(c, names).Raised? && Resolved(c, names).error.UnknownDatasets?)
       <==> exists n :: Selected(c, names, n) && n !in c.items
    ensures Resolved(c, names).Raised? && Resolved(c, names).error.UnknownDatasets? ==>
      forall n :: n in Resolved(c, names).error.names <==> Selected(c, names, n) && n !in c.items
    ensures Resolved(c, names).Raised? && Resolved(c, names).error.UnknownDatasets? ==>
      var unknown := Resolved(c, names).error.names;
      forall p, q :: 0 <= p < q < |unknown| ==> SelectedBefore(c, names, unknown[p], unknown[q])
  {
    var unknown := Unregistered(c.items, Selection(c, names));
    SelectionIsExact(c, names);
    VisitsFromFresh(c.items, Wanted(c, names));
    forall n ensures n in unknown <==> Selected(c, names, n) && n !in c.items {
      UnregisteredMembers(c.items, Selection(c, names), n);
      assert n in Selection(c, names) <==> Selected(c, names, n);
    }
    if unknown != [] { assert unknown[0] in unknown; }
    forall p, q | 0 <= p < q < |unknown| ensures SelectedBefore(c, names, unknown[p], unknown[q]) {
      var i, j := UnregisteredInOrder(c.items, Selection(c, names), p, q);
    }
  }

  // -------------------------------------------------------- delivery in order

  /** The bootstrap and the first `k` selected names. */
  function FirstRoots(c: Catalog, names: Option<seq<string>>, k: nat): seq<string>
    requires k <= |Selection(c, names)|
  {
    (if c.bootstrap.Some? then [c.bootstrap.value] else []) + Selection(c, names)[..k]
  }

  lemma SameRootsReach(items: Items, a: seq<string>, b: seq<string>, ordered: seq<string>)
    requires Exact(items, a, ordered) && forall n :: n in a <==> n in b
    ensures Exact(items, b, ordered)
  {
    forall n ensures Reached(items, a, n) <==> Reached(items, b, n) {
      if p :| WalkTo(items, a, p, n) { assert WalkTo(items, b, p, n); }
      if p :| WalkTo(items, b, p, n) { assert WalkTo(items, a, p, n); }
    }
  }

  lemma KeepAllOfPart(keys: seq<string>, all: seq<string>, k: nat) returns (m: nat)
    requires Distinct(keys) && k <= |all|
    ensures m <= |KeepAll(keys, all)| && forall n :: n in KeepAll(keys, all)[..m] <==> n in keys + all[..k]
  {
    var some := KeepAll(keys, all[..k]);
    KeepAllMembers(keys, all[..k]);
    KeepAllConcat(keys, all[..k], all[k..]);
    KeepAllMembers(some, all[k..]);
    assert all[..k] + all[k..] == all;
    m := |some|;
    assert KeepAll(keys, all)[..m] == some;
  }

  /** What the bootstrap and the first `k` selected names need is delivered before everything else. */
  lemma DeliveryFollowsSelection(c: Catalog, names: Option<seq<string>>, k: nat) returns (n: nat)
    requires Resolved(c, names).Ok? && k <= |Selection(c, names)|
    ensures n <= |Resolved(c, names).value|
    ensures Exact(c.items, FirstRoots(c, names, k), Resolved(c, names).value[..n])
  {
    var m := KeepAllOfPart(if c.bootstrap.Some? then [c.bootstrap.value] else [], Selection(c, names), k);
    n := EachPrefixIsExact(c, names, m);
    SameRootsReach(c.items, Wanted(c, names)[..m], FirstRoots(c, names, k), Resolved(c, names).value[..n]);
  }
}

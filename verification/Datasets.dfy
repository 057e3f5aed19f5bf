/**
 The dataset contract of src/yfin/datasets/base.py: what a run wants written, the ungated
 write, and the row accounting. `mark_known` comes from src/yfin/datasets/common.py.
 */
module Datasets {
  import opened Wrappers
  import opened Storage

  datatype NormalizedResult = NormalizedResult(writes: seq<TableWrite>, skipped: Counters)
  {
    /** No write has a row and nothing was skipped upstream. */
    predicate IsEmpty() {
      (forall i :: 0 <= i < |writes| ==> writes[i].rows == []) && skipped == map[]
    }
  }

  function Fresh(result: NormalizedResult): Stats {
    Stats(map[], map[], result.skipped)
  }

  /** `plain_upsert`. */
  method PlainUpsert(writer: RowWriter, result: NormalizedResult) returns (stats: WriteStats)
    modifies writer
    ensures fresh(stats)
    ensures writer.tables == WrittenAll(old(writer.tables), result.writes)
    ensures stats.View() == CountedAll(Fresh(result), result.writes)
  {
    stats := new WriteStats(result.skipped);
    ApplyAll(writer, result.writes, stats);
  }

  method ApplyAll(writer: RowWriter, writes: seq<TableWrite>, stats: WriteStats)
    modifies writer, stats
    ensures writer.tables == WrittenAll(old(writer.tables), writes)
    ensures stats.View() == CountedAll(old(stats.View()), writes)
  {
    var i := 0;
    while i < |writes|
      invariant 0 <= i <= |writes|
      invariant writer.tables == WrittenAll(old(writer.tables), writes[..i])
      invariant stats.View() == CountedAll(old(stats.View()), writes[..i])
    {
      assert writes[..i + 1][..i] == writes[..i];
      ApplyWrite(writer, writes[i], stats);
      i := i + 1;
    }
    assert writes[..i] == writes;
  }

  // ------------------------------------------------------------------ actions

  /** What a write gate does: apply a write, count rows as skipped, keep a table in the counters. */
  datatype Action = Apply(write: TableWrite) | Skip(table: string, rows: int) | Keep(table: string)

  function Performed(store: Store, actions: seq<Action>): Store {
    if actions == [] then store
    else
      var before := Performed(store, actions[..|actions| - 1]);
      match actions[|actions| - 1]
      case Apply(w) => Written(before, w)
      case _ => before
  }

  function CountedAction(stats: Stats, action: Action): Stats {
    match action
    case Apply(w) => Counted(stats, w)
    case Skip(table, rows) => stats.(skipped := Added(stats.skipped, table, rows))
    case Keep(table) => stats.(attempted := Kept(stats.attempted, table), verified := Kept(stats.verified, table))
  }

  function CountedActions(stats: Stats, actions: seq<Action>): Stats {
    if actions == [] then stats
    else CountedAction(CountedActions(stats, actions[..|actions| - 1]), actions[|actions| - 1])
  }

  method Perform(writer: RowWriter, stats: WriteStats, action: Action)
    modifies writer, stats
    ensures writer.tables == Performed(old(writer.tables), [action])
    ensures stats.View() == CountedActions(old(stats.View()), [action])
  {
    assert [action][..0] == [];
    match action {
      case Apply(w) =>
        ApplyWrite(writer, w, stats);
      case Skip(table, rows) =>
        stats.skipped := Added(stats.skipped, table, rows);
      case Keep(table) =>
        stats.attempted, stats.verified := Kept(stats.attempted, table), Kept(stats.verified, table);
    }
  }

  lemma {:induction false} ActionsConcat(store: Store, stats: Stats, a: seq<Action>, b: seq<Action>)
    ensures Performed(store, a + b) == Performed(Performed(store, a), b)
    ensures CountedActions(stats, a + b) == CountedActions(CountedActions(stats, a), b)
  {
    if b == [] {
      assert a + b == a;
    } else {
      var n := |b| - 1;
      ActionsConcat(store, stats, a, b[..n]);
      var all := a + b;
      assert all[..|all| - 1] == a + b[..n] && all[|all| - 1] == b[n];
    }
  }

  method PerformAll(writer: RowWriter, stats: WriteStats, actions: seq<Action>)
    modifies writer, stats
    ensures writer.tables == Performed(old(writer.tables), actions)
    ensures stats.View() == CountedActions(old(stats.View()), actions)
  {
    var i := 0;
    while i < |actions|
      invariant 0 <= i <= |actions|
      invariant writer.tables == Performed(old(writer.tables), actions[..i])
      invariant stats.View() == CountedActions(old(stats.View()), actions[..i])
    {
      Perform(writer, stats, actions[i]);
      assert actions[..i + 1] == actions[..i] + [actions[i]];
      ActionsConcat(old(writer.tables), old(stats.View()), actions[..i], [actions[i]]);
      i := i + 1;
    }
    assert actions[..i] == actions;
  }

  function Applies(writes: seq<TableWrite>): seq<Action> {
    seq(|writes|, i requires 0 <= i < |writes| => Apply(writes[i]))
  }

  lemma {:induction false} UntouchedTable(store: Store, actions: seq<Action>, name: string)
    requires forall i :: 0 <= i < |actions| ==> actions[i].Apply? ==> actions[i].write.table != name
    ensures TableOf(Performed(store, actions), name) == TableOf(store, name)
  {
    if actions != [] {
      UntouchedTable(store, actions[..|actions| - 1], name);
    }
  }

  lemma ApplyOne(store: Store, w: TableWrite)
    ensures Performed(store, [Apply(w)]) == Written(store, w)
  {
    assert [Apply(w)][..0] == [];
  }

  // --------------------------------------------------------------- accounting

  /** The rows a result proposes for a table. */
  function RowsFor(writes: seq<TableWrite>, table: string): nat {
    if writes == [] then 0
    else
      var last := writes[|writes| - 1];
      RowsFor(writes[..|writes| - 1], table) + if last.table == table then |last.rows| else 0
  }

  lemma RowsForNext(writes: seq<TableWrite>, w: TableWrite, table: string)
    ensures RowsFor(writes + [w], table) == RowsFor(writes, table) + if w.table == table then |w.rows| else 0
    ensures writes + [] == writes
  {
    assert (writes + [w])[..|writes|] == writes;
  }

  /** Keys are named and no two rows of a write share one. */
  ghost predicate KeysApart(writes: seq<TableWrite>) {
    forall i :: 0 <= i < |writes| ==> writes[i].keyColumns != [] && DistinctKeys(writes[i].rows, writes[i].keyColumns)
  }

  /** Applying writes proposes and verifies exactly their rows, and skips none. */
  lemma {:induction false} CountedRows(stats: Stats, writes: seq<TableWrite>, table: string)
    requires KeysApart(writes)
    ensures var after := CountedAll(stats, writes);
      && Count(after.attempted, table) == Count(stats.attempted, table) + RowsFor(writes, table)
      && Count(after.verified, table) == Count(stats.verified, table) + RowsFor(writes, table)
      && after.skipped == stats.skipped
  {
    if writes != [] {
      var n := |writes| - 1;
      CountedRows(stats, writes[..n], table);
      DistinctKeyCountIsRows(writes[n].rows, writes[n].keyColumns);
    }
  }

  /** A table is in the counters exactly if it was, or some write names it. */
  lemma {:induction false} CountedTables(stats: Stats, writes: seq<TableWrite>, table: string)
    ensures CountedAll(stats, writes).Lists(table)
       <==> stats.Lists(table) || exists i :: 0 <= i < |writes| && writes[i].table == table
  {
    if writes != [] {
      var n := |writes| - 1;
      CountedTables(stats, writes[..n], table);
      if i :| 0 <= i < |writes| && writes[i].table == table {
        if i < n { assert writes[..n][i].table == table; }
      }
      if i :| 0 <= i < n && writes[..n][i].table == table {
        assert writes[i].table == table;
      }
    }
  }

  /** The rows that an action writes or skips in a table. */
  ghost function ActionRows(action: Action, table: string): int {
    match action
    case Apply(w) => if w.table == table then DistinctKeyCount(w) else 0
    case Skip(name, rows) => if name == table then rows else 0
    case Keep(_) => 0
  }

  ghost function RowsActed(actions: seq<Action>, table: string): int {
    if actions == [] then 0
    else RowsActed(actions[..|actions| - 1], table) + ActionRows(actions[|actions| - 1], table)
  }

  ghost function RowsSkipped(actions: seq<Action>, table: string): int {
    if actions == [] then 0
    else
      var last := actions[|actions| - 1];
      RowsSkipped(actions[..|actions| - 1], table) + if last.Skip? && last.table == table then last.rows else 0
  }

  ghost predicate Concerns(action: Action, table: string) {
    (if action.Apply? then action.write.table else action.table) == table
  }

  ghost predicate SomeConcerns(actions: seq<Action>, table: string) {
    exists i :: 0 <= i < |actions| && Concerns(actions[i], table)
  }

  /** Actions add what they write or skip to the counters, and list every table they concern. */
  lemma {:induction false} ActedCounts(stats: Stats, actions: seq<Action>, table: string)
    ensures var after := CountedActions(stats, actions);
      && Count(after.attempted, table) + Count(after.skipped, table)
         == Count(stats.attempted, table) + Count(stats.skipped, table) + RowsActed(actions, table)
      && Count(after.skipped, table) == Count(stats.skipped, table) + RowsSkipped(actions, table)
      && (after.Lists(table) <==> stats.Lists(table) || SomeConcerns(actions, table))
  {
    if actions != [] {
      var n := |actions| - 1;
      ActedCounts(stats, actions[..n], table);
      ActionCounts(CountedActions(stats, actions[..n]), actions[n], table);
      ConcernsLast(actions, table);
    }
  }

  lemma ActionCounts(stats: Stats, action: Action, table: string)
    ensures var after := CountedAction(stats, action);
      && Count(after.attempted, table) + Count(after.skipped, table)
         == Count(stats.attempted, table) + Count(stats.skipped, table) + ActionRows(action, table)
      && Count(after.skipped, table)
         == Count(stats.skipped, table) + (if action.Skip? && action.table == table then action.rows else 0)
      && (after.Lists(table) <==> stats.Lists(table) || Concerns(action, table))
  {
  }

  lemma ConcernsLast(actions: seq<Action>, table: string)
    requires actions != []
    ensures SomeConcerns(actions, table)
       <==> SomeConcerns(actions[..|actions| - 1], table) || Concerns(actions[|actions| - 1], table)
  {
    var n := |actions| - 1;
    if i :| 0 <= i < |actions| && Concerns(actions[i], table) {
      if i < n { assert Concerns(actions[..n][i], table); }
    }
    if i :| 0 <= i < n && Concerns(actions[..n][i], table) { assert Concerns(actions[i], table); }
  }

  lemma {:induction false} ActedConcat(a: seq<Action>, b: seq<Action>, table: string)
    ensures RowsActed(a + b, table) == RowsActed(a, table) + RowsActed(b, table)
    ensures RowsSkipped(a + b, table) == RowsSkipped(a, table) + RowsSkipped(b, table)
  {
    if b == [] {
      assert a + b == a;
    } else {
      var n := |b| - 1;
      assert (a + b)[..|a + b| - 1] == a + b[..n];
      ActedConcat(a, b[..n], table);
    }
  }

  lemma ActedOne(action: Action, table: string)
    ensures RowsActed([action], table) == ActionRows(action, table)
    ensures RowsSkipped([action], table) == if action.Skip? then ActionRows(action, table) else 0
    ensures RowsActed([], table) == 0 && RowsSkipped([], table) == 0
  {
    assert [action][..0] == [];
  }

  lemma {:induction false} ActedApplies(writes: seq<TableWrite>, table: string)
    requires KeysApart(writes)
    ensures RowsActed(Applies(writes), table) == RowsFor(writes, table) && RowsSkipped(Applies(writes), table) == 0
  {
    if writes != [] {
      var n := |writes| - 1;
      assert Applies(writes)[..n] == Applies(writes[..n]);
      ActedApplies(writes[..n], table);
      DistinctKeyCountIsRows(writes[n].rows, writes[n].keyColumns);
    }
  }

  /** `_sum_counters`: key by key, an entry of zero included. */
  function Summed(left: Counters, right: Counters): Counters {
    map name | name in left.Keys + right.Keys :: Count(left, name) + Count(right, name)
  }

  method SumCounters(left: Counters, right: Counters) returns (merged: Counters)
    ensures merged == Summed(left, right)
  {
    merged := left;
    var rest := right.Keys;
    while rest != {}
      invariant rest <= right.Keys
      invariant merged == Summed(left, Part(right, right.Keys - rest))
      decreases rest
    {
      var name :| name in rest;
      SummedNext(left, right, right.Keys - rest, name);
      assert right.Keys - (rest - {name}) == (right.Keys - rest) + {name};
      merged := Added(merged, name, right[name]);
      rest := rest - {name};
    }
    assert Part(right, right.Keys - rest) == right;
  }

  function Part(counters: Counters, names: set<string>): Counters {
    map name | name in counters && name in names :: counters[name]
  }

  lemma SummedNext(left: Counters, right: Counters, names: set<string>, name: string)
    requires name in right && name !in names
    ensures Summed(left, Part(right, names + {name})) == Added(Summed(left, Part(right, names)), name, right[name])
  {
  }

  function MergedStats(left: Stats, right: Stats): Stats {
    Stats(Summed(left.attempted, right.attempted), Summed(left.verified, right.verified),
          Summed(left.skipped, right.skipped))
  }

  /** `merge_stats`: a new object, the inputs untouched. */
  method MergeStats(left: WriteStats, right: WriteStats) returns (merged: WriteStats)
    ensures fresh(merged)
    ensures merged.View() == MergedStats(left.View(), right.View())
    ensures left.View() == old(left.View()) && right.View() == old(right.View())
  {
    var attempted := SumCounters(left.attempted, right.attempted);
    var verified := SumCounters(left.verified, right.verified);
    var skipped := SumCounters(left.skipped, right.skipped);
    merged := new WriteStats(skipped);
    merged.attempted, merged.verified := attempted, verified;
  }

  /** Summing is associative and commutative, loses no count and drops no entry. */
  lemma {:induction false} SummedIsExact(a: Counters, b: Counters, c: Counters, name: string)
    ensures Summed(Summed(a, b), c) == Summed(a, Summed(b, c))
    ensures Summed(a, b) == Summed(b, a)
    ensures Summed(a, map[]) == a
    ensures name in Summed(a, b) <==> name in a || name in b
    ensures Count(Summed(a, b), name) == Count(a, name) + Count(b, name)
  {
    SummedAssociates(a, b, c);
  }

  lemma SummedAssociates(a: Counters, b: Counters, c: Counters)
    ensures Summed(Summed(a, b), c) == Summed(a, Summed(b, c))
  {
    var l, r := Summed(Summed(a, b), c), Summed(a, Summed(b, c));
    assert l.Keys == r.Keys;
    forall name | name in l ensures l[name] == r[name] {
      assert Count(Summed(a, b), name) == Count(a, name) + Count(b, name);
      assert Count(Summed(b, c), name) == Count(b, name) + Count(c, name);
    }
  }

  /** So merging two runs' stats is, too, and a table listed on either side stays listed. */
  lemma {:induction false} MergingIsExact(a: Stats, b: Stats, c: Stats, table: string)
    ensures MergedStats(MergedStats(a, b), c) == MergedStats(a, MergedStats(b, c))
    ensures MergedStats(a, b) == MergedStats(b, a)
    ensures MergedStats(a, b).Lists(table) <==> a.Lists(table) || b.Lists(table)
  {
    SummedIsExact(a.attempted, b.attempted, c.attempted, table);
    SummedIsExact(a.verified, b.verified, c.verified, table);
    SummedIsExact(a.skipped, b.skipped, c.skipped, table);
  }

  /** Counting a split list of writes in two parts and merging is counting it in one. */
  lemma {:induction false} SplitCount(first: Stats, left: seq<TableWrite>, right: seq<TableWrite>)
    ensures MergedStats(CountedAll(first, left), CountedAll(Stats(map[], map[], map[]), right))
         == CountedAll(first, left + right)
  {
    if right == [] {
      assert left + right == left;
      MergedNothing(CountedAll(first, left));
    } else {
      var n := |right| - 1;
      var none := Stats(map[], map[], map[]);
      SplitCount(first, left, right[..n]);
      CountedNext(first, left + right[..n], right[n]);
      CountedNext(none, right[..n], right[n]);
      assert right[..n] + [right[n]] == right && left + right[..n] + [right[n]] == left + right;
      MergedNext(CountedAll(first, left), CountedAll(none, right[..n]), right[n]);
    }
  }

  lemma {:induction false} CountedNext(stats: Stats, writes: seq<TableWrite>, w: TableWrite)
    ensures CountedAll(stats, writes + [w]) == Counted(CountedAll(stats, writes), w)
  {
    assert (writes + [w])[..|writes|] == writes;
  }

  lemma MergedNothing(stats: Stats)
    ensures MergedStats(stats, Stats(map[], map[], map[])) == stats
  {
    SummedIsExact(stats.attempted, map[], map[], "");
    SummedIsExact(stats.verified, map[], map[], "");
    SummedIsExact(stats.skipped, map[], map[], "");
  }

  lemma MergedNext(a: Stats, b: Stats, w: TableWrite)
    ensures MergedStats(a, Counted(b, w)) == Counted(MergedStats(a, b), w)
  {
    AddedSums(a.attempted, b.attempted, w.table, DistinctKeyCount(w));
    AddedSums(a.verified, b.verified, w.table, if w.rows == [] then 0 else |ProposedKeys(w)|);
  }

  lemma AddedSums(a: Counters, b: Counters, table: string, n: int)
    ensures Summed(a, Added(b, table, n)) == Added(Summed(a, b), table, n)
  {
  }

  // --------------------------------------------------------------- mark_known

  /** Python's truth of a cell. */
  predicate Truthy(v: Value) {
    match v
    case Null => false
    case Bool(b) => b
    case Int(n) => n != 0
    case Str(text) => text != ""
  }

  function MarkedRow(row: Row, column: string, universe: set<Value>): Row {
    row["is_known" := Value.Bool(Truthy(Get(row, column)) && Get(row, column) in universe)]
  }

  function MarkedRows(rows: seq<Row>, column: string, universe: set<Value>): seq<Row> {
    seq(|rows|, i requires 0 <= i < |rows| => MarkedRow(rows[i], column, universe))
  }

  function Marked(w: TableWrite, column: string, universe: set<Value>): TableWrite {
    w.(rows := MarkedRows(w.rows, column, universe))
  }

  /** The symbols that the writes name. */
  function Candidates(writes: seq<TableWrite>, column: string): set<Value> {
    set i, k | 0 <= i < |writes| && 0 <= k < |writes[i].rows| && Truthy(Get(writes[i].rows[k], column))
      :: Get(writes[i].rows[k], column)
  }

  /** `mark_known`: one lookup of all the candidates decides every row. */
  method MarkKnown(universe: set<Value>, writes: seq<TableWrite>, column: string) returns (marked: seq<TableWrite>)
    ensures |marked| == |writes|
    ensures forall i :: 0 <= i < |writes| ==> marked[i] == Marked(writes[i], column, universe)
  {
    var known := Candidates(writes, column) * universe;
    marked := [];
    var i := 0;
    while i < |writes|
      invariant 0 <= i <= |writes| && |marked| == i
      invariant forall k :: 0 <= k < i ==> marked[k] == Marked(writes[k], column, universe)
    {
      var rows := MarkedRows(writes[i].rows, column, known);
      forall k | 0 <= k < |rows| ensures rows[k] == MarkedRow(writes[i].rows[k], column, universe) {
        assert Truthy(Get(writes[i].rows[k], column)) ==>
          Get(writes[i].rows[k], column) in Candidates(writes, column);
      }
      assert rows == MarkedRows(writes[i].rows, column, universe);
      marked := marked + [writes[i].(rows := rows)];
      i := i + 1;
    }
  }

  function Selected(writes: seq<TableWrite>, select: TableWrite -> bool): seq<TableWrite> {
    if writes == [] then []
    else
      var n := |writes| - 1;
      Selected(writes[..n], select) + if select(writes[n]) then [writes[n]] else []
  }

  /** A selected write stands in the selection after those selected before it. */
  lemma {:induction false} SelectedAt(writes: seq<TableWrite>, select: TableWrite -> bool, i: nat)
    requires i < |writes| && select(writes[i])
    ensures |Selected(writes[..i], select)| < |Selected(writes, select)|
    ensures Selected(writes, select)[|Selected(writes[..i], select)|] == writes[i]
    decreases |writes|
  {
    var n := |writes| - 1;
    if i < n {
      SelectedAt(writes[..n], select, i);
      assert writes[..n][..i] == writes[..i];
    }
  }

  lemma {:induction false} SelectedApart(writes: seq<TableWrite>, select: TableWrite -> bool)
    requires KeysApart(writes)
    ensures KeysApart(Selected(writes, select))
  {
    if writes != [] { SelectedApart(writes[..|writes| - 1], select); }
  }

  lemma {:induction false} SelectedNames(writes: seq<TableWrite>, select: TableWrite -> bool, w: TableWrite)
    ensures w in Selected(writes, select) <==> w in writes && select(w)
  {
    if writes != [] {
      var n := |writes| - 1;
      SelectedNames(writes[..n], select, w);
      assert writes == writes[..n] + [writes[n]];
    }
  }

  /** No other write names the table of write `i`. */
  ghost predicate Alone(writes: seq<TableWrite>, i: nat)
    requires i < |writes|
  {
    forall j :: 0 <= j < |writes| && j != i ==> writes[j].table != writes[i].table
  }

  lemma {:induction false} SelectedElsewhere(writes: seq<TableWrite>, select: TableWrite -> bool, table: string)
    requires forall j :: 0 <= j < |writes| ==> writes[j].table != table
    ensures forall j :: 0 <= j < |Selected(writes, select)| ==> Selected(writes, select)[j].table != table
  {
    if writes != [] { SelectedElsewhere(writes[..|writes| - 1], select, table); }
  }

  lemma {:induction false} SelectedAlone(writes: seq<TableWrite>, select: TableWrite -> bool, i: nat) returns (k: nat)
    requires i < |writes| && select(writes[i]) && Alone(writes, i)
    ensures k < |Selected(writes, select)| && Selected(writes, select)[k] == writes[i]
    ensures Alone(Selected(writes, select), k)
    decreases |writes|
  {
    var n := |writes| - 1;
    if i < n {
      assert writes[..n][i] == writes[i];
      k := SelectedAlone(writes[..n], select, i);
    } else {
      SelectedElsewhere(writes[..n], select, writes[n].table);
      k := |Selected(writes[..n], select)|;
    }
  }

  /** A table that only one write names ends as that write leaves it. */
  lemma {:induction false} WrittenAlone(store: Store, writes: seq<TableWrite>, i: nat)
    requires i < |writes| && Alone(writes, i)
    ensures TableOf(Performed(store, Applies(writes)), writes[i].table)
         == WrittenTable(TableOf(store, writes[i].table), writes[i])
    decreases |writes|
  {
    var n := |writes| - 1;
    assert Applies(writes)[..n] == Applies(writes[..n]);
    if i < n {
      assert writes[..n][i] == writes[i];
      WrittenAlone(store, writes[..n], i);
    } else {
      UntouchedTable(store, Applies(writes[..n]), writes[n].table);
    }
  }

  /** `mark_known_in`: the marked writes go back to their places, the others stay. */
  method MarkKnownIn(universe: set<Value>, result: NormalizedResult, select: TableWrite -> bool, column: string)
    returns (marked: NormalizedResult)
    ensures marked.skipped == result.skipped
    ensures |marked.writes| == |result.writes|
    ensures forall i :: 0 <= i < |result.writes| ==>
              marked.writes[i] == if select(result.writes[i]) then Marked(result.writes[i], column, universe)
                                  else result.writes[i]
  {
    var targets := Selected(result.writes, select);
    if targets == [] {
      forall i | 0 <= i < |result.writes| ensures !select(result.writes[i]) {
        if select(result.writes[i]) { SelectedAt(result.writes, select, i); }
      }
      return result;
    }
    var flagged := MarkKnown(universe, targets, column);
    var writes: seq<TableWrite> := [];
    var next, i := 0, 0;
    while i < |result.writes|
      invariant 0 <= i <= |result.writes| && |writes| == i
      invariant next == |Selected(result.writes[..i], select)|
      invariant forall j :: 0 <= j < i ==>
                  writes[j] == if select(result.writes[j]) then Marked(result.writes[j], column, universe)
                               else result.writes[j]
    {
      assert result.writes[..i + 1][..i] == result.writes[..i];
      if select(result.writes[i]) {
        SelectedAt(result.writes, select, i);
        writes, next := writes + [flagged[next]], next + 1;
      } else {
        writes := writes + [result.writes[i]];
      }
      i := i + 1;
    }
    return NormalizedResult(writes, result.skipped);
  }
}

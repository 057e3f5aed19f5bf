/**
 Snapshot plus change history, of src/yfin/datasets/snapshot_base.py: the snapshot table keeps
 one row per key, the history table gains a row only when the content hash moved.
 */
module SnapshotGate {
  import opened Wrappers
  import opened Storage
  import opened Datasets

  datatype Spec = Spec(snapshotTable: string, historyTable: string, keyColumns: seq<string>)
  {
    function KeyOf(row: Row): Key {
      Project(row, keyColumns)
    }

    /** The history key: the snapshot key and the time of the fetch. */
    function HistoryKeyColumns(): seq<string> {
      keyColumns + ["fetched_at"]
    }
  }

  /** `snapshot_writes`: the same rows, once for each table. */
  function SnapshotWrites(spec: Spec, rows: seq<Row>, snapshotUpdate: seq<string>,
                          historyUpdate: Option<seq<string>>): seq<TableWrite> {
    [TableWrite(spec.snapshotTable, rows, spec.keyColumns, snapshotUpdate, Upsert, ["symbol"], None),
     TableWrite(spec.historyTable, rows, spec.HistoryKeyColumns(),
                if historyUpdate.Some? then historyUpdate.value else snapshotUpdate, Upsert, ["symbol"], None)]
  }

  /** The snapshot already has the row's hash. */
  predicate Matched(spec: Spec, store: Store, row: Row) {
    var current := StoredHash(store, spec.snapshotTable, spec.KeyOf(row));
    (if current.Some? then current.value else Null) == Get(row, "content_hash")
  }

  function KeptRows(spec: Spec, store: Store, rows: seq<Row>, fullRefresh: bool): seq<Row> {
    if rows == [] then []
    else
      var n := |rows| - 1;
      KeptRows(spec, store, rows[..n], fullRefresh)
      + if fullRefresh || !Matched(spec, store, rows[n]) then [rows[n]] else []
  }

  /** The history writes that are left, and the skips that are counted first. */
  function KeptWrites(spec: Spec, store: Store, writes: seq<TableWrite>, fullRefresh: bool): seq<Action> {
    if writes == [] then []
    else
      var w := writes[|writes| - 1];
      KeptWrites(spec, store, writes[..|writes| - 1], fullRefresh)
      + [Apply(w.(rows := KeptRows(spec, store, w.rows, fullRefresh)))]
  }

  function SkipActions(spec: Spec, store: Store, writes: seq<TableWrite>, fullRefresh: bool): seq<Action> {
    if writes == [] then []
    else
      var w := writes[|writes| - 1];
      var skipped := |w.rows| - |KeptRows(spec, store, w.rows, fullRefresh)|;
      SkipActions(spec, store, writes[..|writes| - 1], fullRefresh) + if skipped != 0 then [Skip(w.table, skipped)]
        else []
  }

  function HistoryWrites(spec: Spec, writes: seq<TableWrite>): seq<TableWrite> {
    Selected(writes, (w: TableWrite) => w.table == spec.historyTable)
  }

  function OtherWrites(spec: Spec, writes: seq<TableWrite>): seq<TableWrite> {
    Selected(writes, (w: TableWrite) => w.table != spec.historyTable)
  }

  /** Compare first, then write everything else, then what is left of the history. */
  function Actions(spec: Spec, store: Store, result: NormalizedResult, fullRefresh: bool): seq<Action> {
    SkipActions(spec, store, HistoryWrites(spec, result.writes), fullRefresh)
    + Applies(OtherWrites(spec, result.writes))
    + KeptWrites(spec, store, HistoryWrites(spec, result.writes), fullRefresh)
  }

  function Gated(spec: Spec, store: Store, result: NormalizedResult, fullRefresh: bool): Store {
    Performed(store, Actions(spec, store, result, fullRefresh))
  }

  /** The comparison of one history write. */
  method CompareRows(spec: Spec, writer: RowWriter, rows: seq<Row>, fullRefresh: bool) returns (kept: seq<Row>,
                                                                                                skipped: nat)
    ensures kept == KeptRows(spec, writer.tables, rows, fullRefresh)
    ensures skipped == |rows| - |kept|
  {
    kept, skipped := [], 0;
    var i := 0;
    while i < |rows|
      invariant 0 <= i <= |rows|
      invariant kept == KeptRows(spec, writer.tables, rows[..i], fullRefresh)
      invariant skipped == i - |kept|
    {
      var row := rows[i];
      assert rows[..i + 1][..i] == rows[..i];
      i := i + 1;
      if fullRefresh {
        kept := kept + [row];
        continue;
      }
      var current := writer.CurrentHash(spec.snapshotTable, spec.KeyOf(row));
      if (if current.Some? then current.value else Null) == Get(row, "content_hash") {
        skipped := skipped + 1;
      } else {
        kept := kept + [row];
      }
    }
    assert rows[..i] == rows;
  }

  /** `snapshot_upsert`. */
  method SnapshotUpsert(spec: Spec, writer: RowWriter, result: NormalizedResult, fullRefresh: bool)
    returns (stats: WriteStats)
    modifies writer
    ensures fresh(stats)
    ensures writer.tables == Gated(spec, old(writer.tables), result, fullRefresh)
    ensures stats.View() == CountedActions(Fresh(result), Actions(spec, old(writer.tables), result, fullRefresh))
  {
    stats := new WriteStats(result.skipped);
    var history, others := HistoryWrites(spec, result.writes), OtherWrites(spec, result.writes);
    var keep := KeepHistory(spec, writer, history, stats, fullRefresh);
    ghost var skips := SkipActions(spec, writer.tables, history, fullRefresh);
    ActionsConcat(writer.tables, Fresh(result), skips, Applies(others));
    ActionsConcat(writer.tables, Fresh(result), skips + Applies(others), keep);
    SkipsWriteNothing(spec, writer.tables, history, fullRefresh, writer.tables);
    PerformAll(writer, stats, Applies(others));
    PerformAll(writer, stats, keep);
  }

  /** The comparisons, before any write. */
  method KeepHistory(spec: Spec, writer: RowWriter, history: seq<TableWrite>, stats: WriteStats, fullRefresh: bool)
    returns (keep: seq<Action>)
    modifies stats
    ensures keep == KeptWrites(spec, writer.tables, history, fullRefresh)
    ensures stats.View() == CountedActions(old(stats.View()), SkipActions(spec, writer.tables, history, fullRefresh))
  {
    keep := [];
    ghost var from, store := stats.View(), writer.tables;
    var i := 0;
    while i < |history|
      invariant 0 <= i <= |history| && writer.tables == store
      invariant keep == KeptWrites(spec, store, history[..i], fullRefresh)
      invariant stats.View() == CountedActions(from, SkipActions(spec, store, history[..i], fullRefresh))
    {
      NextSkip(spec, store, history, i, fullRefresh, from);
      var kept := SkipRows(spec, writer, history[i], stats, fullRefresh);
      keep := keep + [Apply(history[i].(rows := kept))];
      i := i + 1;
    }
    assert history[..i] == history;
  }

  /** The comparison of one history write, with its skips counted. */
  method SkipRows(spec: Spec, writer: RowWriter, w: TableWrite, stats: WriteStats, fullRefresh: bool)
    returns (kept: seq<Row>)
    modifies stats
    ensures kept == KeptRows(spec, writer.tables, w.rows, fullRefresh)
    ensures var before, skipped := old(stats.View()), |w.rows| - |kept|;
      stats.View() == if skipped != 0 then before.(skipped := Added(before.skipped, w.table, skipped)) else before
  {
    var skipped;
    kept, skipped := CompareRows(spec, writer, w.rows, fullRefresh);
    if skipped != 0 {
      stats.skipped := Added(stats.skipped, w.table, skipped);
    }
  }

  lemma NextSkip(spec: Spec, store: Store, writes: seq<TableWrite>, i: nat, fullRefresh: bool, from: Stats)
    requires i < |writes|
    ensures var skipped := |writes[i].rows| - |KeptRows(spec, store, writes[i].rows, fullRefresh)|;
      var before := CountedActions(from, SkipActions(spec, store, writes[..i], fullRefresh));
      CountedActions(from, SkipActions(spec, store, writes[..i + 1], fullRefresh))
      == if skipped != 0 then before.(skipped := Added(before.skipped, writes[i].table, skipped)) else before
    ensures KeptWrites(spec, store, writes[..i + 1], fullRefresh)
         == KeptWrites(spec, store, writes[..i], fullRefresh)
            + [Apply(writes[i].(rows := KeptRows(spec, store, writes[i].rows, fullRefresh)))]
  {
    assert writes[..i + 1][..i] == writes[..i];
    var before, after := SkipActions(spec, store, writes[..i], fullRefresh),
      SkipActions(spec, store, writes[..i + 1], fullRefresh);
    if after != before {
      assert after[..|after| - 1] == before;
    }
  }

  lemma {:induction false} SkipsWriteNothing(spec: Spec, store: Store, writes: seq<TableWrite>, fullRefresh: bool,
                                             at: Store)
    ensures Performed(at, SkipActions(spec, store, writes, fullRefresh)) == at
  {
    if writes != [] {
      var init := writes[..|writes| - 1];
      var actions, before := SkipActions(spec, store, writes, fullRefresh), SkipActions(spec, store, init, fullRefresh);
      SkipsWriteNothing(spec, store, init, fullRefresh, at);
      assert actions == before || actions[..|actions| - 1] == before;
    }
  }

  // ------------------------------------------------------ run-length encoding

  /** One fetch of a key. */
  datatype Event = Event(time: int, hash: Value, full: bool)

  ghost predicate Increasing(events: seq<Event>) {
    forall i, j :: 0 <= i < j < |events| ==> events[i].time < events[j].time
  }

  function LastHash(events: seq<Event>): Option<Value> {
    if events == [] then None else Some(events[|events| - 1].hash)
  }

  /** The history that should be kept: an entry where the hash moved or a refresh asked for one. */
  function Encoded(events: seq<Event>): map<int, Value> {
    if events == [] then map[]
    else
      var n := |events| - 1;
      if events[n].full || LastHash(events[..n]) != Some(events[n].hash)
      then Encoded(events[..n])[events[n].time := events[n].hash]
      else Encoded(events[..n])
  }

  /** The history's answer for a time: its latest entry that is not later. */
  ghost predicate ReadsAs(history: map<int, Value>, time: int, hash: Value) {
    exists t :: t in history && t <= time && history[t] == hash && forall u :: u in history && u <= time ==> u <= t
  }

  lemma {:induction false} EntriesAreEvents(events: seq<Event>, time: int)
    requires Increasing(events) && time in Encoded(events)
    ensures exists i :: 0 <= i < |events| && events[i].time == time && events[i].hash == Encoded(events)[time]
  {
    var n := |events| - 1;
    if time in Encoded(events[..n]) && !(time == events[n].time && Encoded(events)[time] == events[n].hash) {
      EntriesAreEvents(events[..n], time);
      var i :| 0 <= i < n && events[..n][i].time == time && events[..n][i].hash == Encoded(events[..n])[time];
      assert events[i].time < events[n].time;
    }
  }

  lemma EntriesAreEarlier(events: seq<Event>, before: map<int, Value>)
    requires Increasing(events) && events != [] && before == Encoded(events[..|events| - 1])
    ensures forall t :: t in before ==> t < events[|events| - 1].time
  {
    var n := |events| - 1;
    forall t | t in before ensures t < events[n].time {
      EntriesAreEvents(events[..n], t);
      var k :| 0 <= k < n && events[..n][k].time == t;
      assert events[k].time < events[n].time;
    }
  }

  /** Decoding the history at any fetch gives that fetch's hash. */
  lemma {:induction false} HistoryDecodes(events: seq<Event>, i: nat)
    requires Increasing(events) && i < |events|
    ensures ReadsAs(Encoded(events), events[i].time, events[i].hash)
    decreases |events|
  {
    var n := |events| - 1;
    var before, after := Encoded(events[..n]), Encoded(events);
    EntriesAreEarlier(events, before);
    if i < n {
      HistoryDecodes(events[..n], i);
      var t :| t in before && t <= events[i].time && before[t] == events[i].hash
               && forall u :: u in before && u <= events[i].time ==> u <= t;
      assert t in after && after[t] == events[i].hash;
    } else if after != before {
      assert after[events[n].time] == events[n].hash;
    } else {
      NewestEntry(events, n);
    }
  }

  /** An entry that is not written is not needed: the newest one says the same. */
  lemma NewestEntry(events: seq<Event>, n: nat)
    requires Increasing(events) && n == |events| - 1
    requires Encoded(events) == Encoded(events[..n])
    requires forall u :: u in Encoded(events[..n]) ==> u < events[n].time
    ensures ReadsAs(Encoded(events), events[n].time, events[n].hash)
    decreases |events|, 0
  {
    var before := Encoded(events[..n]);
    assert events[n].time !in before;
    assert n > 0 && events[n - 1].hash == events[n].hash;
    HistoryDecodes(events[..n], n - 1);
    var t :| t in before && t <= events[n - 1].time && before[t] == events[n].hash
             && forall u :: u in before && u <= events[n - 1].time ==> u <= t;
    forall u | u in before ensures u <= t {
      EntriesAreEvents(events[..n], u);
      var k :| 0 <= k < n && events[..n][k].time == u;
      assert k == n - 1 || events[k].time < events[n - 1].time;
    }
  }

  ghost predicate Adjacent(history: map<int, Value>, t: int, u: int) {
    t in history && u in history && t < u && forall v :: v in history && t < v ==> u <= v
  }

  /** Without refreshes the history is a run-length encoding: neighbours differ. */
  lemma {:induction false} NeighboursDiffer(events: seq<Event>, t: int, u: int)
    requires Increasing(events) && (forall i :: 0 <= i < |events| ==> !events[i].full)
    requires Adjacent(Encoded(events), t, u)
    ensures Encoded(events)[t] != Encoded(events)[u]
    decreases |events|
  {
    var n := |events| - 1;
    var before, after := Encoded(events[..n]), Encoded(events);
    if after == before {
      NeighboursDiffer(events[..n], t, u);
    } else {
      EntriesAreEarlier(events, before);
      assert forall v :: v in before ==> v in after;
      if u != events[n].time {
        assert Adjacent(before, t, u);
        NeighboursDiffer(events[..n], t, u);
      } else {
        assert n > 0;
        HistoryDecodes(events[..n], n - 1);
        var s :| s in before && s <= events[n - 1].time && before[s] == events[n - 1].hash
                 && forall v :: v in before && v <= events[n - 1].time ==> v <= s;
        EntriesAreEvents(events[..n], t);
        var k :| 0 <= k < n && events[..n][k].time == t;
        assert k == n - 1 || events[k].time < events[n - 1].time;
        assert s in after && s < u;
        assert t == s;
      }
    }
  }

  // ----------------------------------------------------------------- one run

  /** One run: its rows, when they were fetched, and the columns it updates. */
  datatype Run = Run(rows: seq<Row>, time: int, full: bool, snapshotUpdate: seq<string>,
                     historyUpdate: Option<seq<string>>)

  function ResultOf(spec: Spec, run: Run): NormalizedResult {
    NormalizedResult(SnapshotWrites(spec, run.rows, run.snapshotUpdate, run.historyUpdate), map[])
  }

  /** Keys are distinct, every row has the run's time and a hash, and hashes are updated. */
  ghost predicate ValidRun(spec: Spec, run: Run) {
    && spec.snapshotTable != spec.historyTable
    && DistinctKeys(run.rows, spec.keyColumns)
    && (forall i :: 0 <= i < |run.rows| ==>
          Get(run.rows[i], "fetched_at") == Int(run.time) && Get(run.rows[i], "content_hash") != Null)
    && "content_hash" in run.snapshotUpdate
    && (run.historyUpdate.Some? ==> "content_hash" in run.historyUpdate.value)
  }

  function After(spec: Spec, store: Store, run: Run): Store {
    Gated(spec, store, ResultOf(spec, run), run.full)
  }

  function HistoryKey(key: Key, time: int): Key {
    key + [Int(time)]
  }

  function HistoryAt(spec: Spec, store: Store, key: Key, time: int): Option<Value> {
    StoredHash(store, spec.historyTable, HistoryKey(key, time))
  }

  function SnapshotHash(spec: Spec, store: Store, key: Key): Option<Value> {
    StoredHash(store, spec.snapshotTable, key)
  }

  function HistoryWrite(spec: Spec, store: Store, run: Run): TableWrite {
    SnapshotWrites(spec, run.rows, run.snapshotUpdate,
        run.historyUpdate)[1].(rows := KeptRows(spec, store, run.rows, run.full))
  }

  lemma TwoWrites(spec: Spec, run: Run)
    requires spec.snapshotTable != spec.historyTable
    ensures var writes := ResultOf(spec, run).writes;
      HistoryWrites(spec, writes) == [writes[1]] && OtherWrites(spec, writes) == [writes[0]]
  {
    var writes := ResultOf(spec, run).writes;
    assert writes[..1] == [writes[0]] && writes[..1][..0] == [];
    assert HistoryWrites(spec, []) == [] && OtherWrites(spec, []) == [];
    assert HistoryWrites(spec, [writes[0]]) == [] && OtherWrites(spec, [writes[0]]) == [writes[0]];
  }

  lemma OneHistoryWrite(spec: Spec, store: Store, w: TableWrite, full: bool)
    ensures KeptWrites(spec, store, [w], full) == [Apply(w.(rows := KeptRows(spec, store, w.rows, full)))]
  {
    assert [w][..0] == [];
    assert KeptWrites(spec, store, [], full) == [];
  }

  lemma SkipThenTwo(store: Store, skips: seq<Action>, v: TableWrite, w: TableWrite)
    requires Performed(store, skips) == store
    ensures Performed(store, skips + [Apply(v)] + [Apply(w)]) == Written(Written(store, v), w)
  {
    var s0 := Stats(map[], map[], map[]);
    ActionsConcat(store, s0, skips + [Apply(v)], [Apply(w)]);
    ActionsConcat(store, s0, skips, [Apply(v)]);
    ApplyOne(store, v);
    ApplyOne(Written(store, v), w);
  }

  lemma RunActions(spec: Spec, store: Store, run: Run)
    requires spec.snapshotTable != spec.historyTable
    ensures var writes := ResultOf(spec, run).writes;
      Actions(spec, store, ResultOf(spec, run), run.full)
      == SkipActions(spec, store, [writes[1]], run.full) + [Apply(writes[0])] + [Apply(HistoryWrite(spec, store, run))]
  {
    var writes := ResultOf(spec, run).writes;
    TwoWrites(spec, run);
    OneHistoryWrite(spec, store, writes[1], run.full);
    assert Applies([writes[0]]) == [Apply(writes[0])];
  }

  /** The two tables after a run. */
  lemma TablesAfter(spec: Spec, store: Store, run: Run)
    requires spec.snapshotTable != spec.historyTable
    ensures TableOf(After(spec, store, run), spec.snapshotTable)
         == WrittenTable(TableOf(store, spec.snapshotTable), ResultOf(spec, run).writes[0])
    ensures TableOf(After(spec, store, run), spec.historyTable)
         == WrittenTable(TableOf(store, spec.historyTable), HistoryWrite(spec, store, run))
  {
    var writes, kept := ResultOf(spec, run).writes, HistoryWrite(spec, store, run);
    var skips := SkipActions(spec, store, [writes[1]], run.full);
    RunActions(spec, store, run);
    SkipsWriteNothing(spec, store, [writes[1]], run.full, store);
    TwoTablesWritten(spec, store, skips, writes[0], kept);
  }

  lemma TwoTablesWritten(spec: Spec, store: Store, skips: seq<Action>, snapshot: TableWrite, history: TableWrite)
    requires spec.snapshotTable != spec.historyTable && Performed(store, skips) == store
    requires snapshot.table == spec.snapshotTable && history.table == spec.historyTable
    ensures var after := Performed(store, skips + [Apply(snapshot)] + [Apply(history)]);
      && TableOf(after, spec.snapshotTable) == WrittenTable(TableOf(store, spec.snapshotTable), snapshot)
      && TableOf(after, spec.historyTable) == WrittenTable(TableOf(store, spec.historyTable), history)
  {
    SkipThenTwo(store, skips, snapshot, history);
  }

  lemma {:induction false} KeptMembers(spec: Spec, store: Store, rows: seq<Row>, full: bool, row: Row)
    ensures row in KeptRows(spec, store, rows, full) <==> row in rows && (full || !Matched(spec, store, row))
  {
    if rows != [] {
      var n := |rows| - 1;
      KeptMembers(spec, store, rows[..n], full, row);
      assert rows == rows[..n] + [rows[n]];
    }
  }

  lemma {:induction false} KeptDistinct(spec: Spec, store: Store, rows: seq<Row>, full: bool, columns: seq<string>)
    requires DistinctKeys(rows, columns)
    ensures DistinctKeys(KeptRows(spec, store, rows, full), columns)
  {
    if rows != [] {
      var n := |rows| - 1;
      var before := KeptRows(spec, store, rows[..n], full);
      KeptDistinct(spec, store, rows[..n], full, columns);
      forall i | 0 <= i < |before| ensures Project(before[i], columns) != Project(rows[n], columns) {
        KeptMembers(spec, store, rows[..n], full, before[i]);
        assert before[i] in before;
        var k :| 0 <= k < n && rows[..n][k] == before[i];
        assert rows[k] == before[i];
      }
    }
  }

  lemma HistoryProject(spec: Spec, row: Row)
    ensures Project(row, spec.HistoryKeyColumns()) == spec.KeyOf(row) + [Get(row, "fetched_at")]
  {
  }

  lemma HistoryDistinct(spec: Spec, rows: seq<Row>)
    requires DistinctKeys(rows, spec.keyColumns)
    ensures DistinctKeys(rows, spec.HistoryKeyColumns())
  {
    forall i, j | 0 <= i < j < |rows|
      ensures Project(rows[i], spec.HistoryKeyColumns()) != Project(rows[j], spec.HistoryKeyColumns())
    {
      HistoryProject(spec, rows[i]);
      HistoryProject(spec, rows[j]);
      var a, b := Project(rows[i], spec.HistoryKeyColumns()), Project(rows[j], spec.HistoryKeyColumns());
      assert a[..|spec.keyColumns|] == spec.KeyOf(rows[i]) && b[..|spec.keyColumns|] == spec.KeyOf(rows[j]);
    }
  }

  ghost predicate HasRow(spec: Spec, run: Run, key: Key) {
    exists i :: 0 <= i < |run.rows| && spec.KeyOf(run.rows[i]) == key
  }

  // ------------------------------------------------------------- what is stored

  /** The key is new to the snapshot, its hash moved, or the run refreshes everything. */
  ghost predicate Gains(spec: Spec, store: Store, run: Run, i: nat)
    requires i < |run.rows|
  {
    var snapshot, key := TableOf(store, spec.snapshotTable), spec.KeyOf(run.rows[i]);
    run.full || key !in snapshot || Get(snapshot[key], "content_hash") != Get(run.rows[i], "content_hash")
  }

  /** The snapshot row takes the row's cells: all of them for a new key, the update columns for a known one. */
  lemma SnapshotTakesRow(spec: Spec, store: Store, run: Run, i: nat, column: string)
    requires ValidRun(spec, run) && i < |run.rows|
    ensures var before, after := TableOf(store, spec.snapshotTable),
        TableOf(After(spec, store, run), spec.snapshotTable);
      var key, listed := spec.KeyOf(run.rows[i]), exists k :: 0 <= k < |run.rows| && column in run.rows[k];
      && key in after
      && Get(after[key], column)
         == if key in before && !(column in run.snapshotUpdate && listed) then Get(before[key], column)
            else Get(run.rows[i], column)
  {
    var w := ResultOf(spec, run).writes[0];
    TablesAfter(spec, store, run);
    assert LastOfKey(w.rows, w.keyColumns, i);
    WrittenCell(TableOf(store, spec.snapshotTable), w, i, column);
  }

  /** A snapshot row of a key that the run does not bring stays as it is. */
  lemma SnapshotStays(spec: Spec, store: Store, run: Run, key: Key)
    requires ValidRun(spec, run) && !HasRow(spec, run, key)
    ensures var before, after := TableOf(store, spec.snapshotTable),
        TableOf(After(spec, store, run), spec.snapshotTable);
      (key in after <==> key in before) && (key in before ==> after[key] == before[key])
  {
    TablesAfter(spec, store, run);
    NotUpserted(TableOf(store, spec.snapshotTable), ResultOf(spec, run).writes[0], key);
  }

  lemma KeptIffGains(spec: Spec, store: Store, run: Run, i: nat)
    requires ValidRun(spec, run) && i < |run.rows|
    ensures run.rows[i] in KeptRows(spec, store, run.rows, run.full) <==> Gains(spec, store, run, i)
  {
    KeptMembers(spec, store, run.rows, run.full, run.rows[i]);
  }

  lemma KeptIsHistoryRow(spec: Spec, store: Store, run: Run, k: nat) returns (i: nat)
    requires ValidRun(spec, run) && k < |KeptRows(spec, store, run.rows, run.full)|
    ensures i < |run.rows| && run.rows[i] == KeptRows(spec, store, run.rows, run.full)[k] && Gains(spec, store, run, i)
    ensures Project(run.rows[i], spec.HistoryKeyColumns()) == HistoryKey(spec.KeyOf(run.rows[i]), run.time)
  {
    var row := KeptRows(spec, store, run.rows, run.full)[k];
    KeptMembers(spec, store, run.rows, run.full, row);
    assert row in run.rows;
    i :| 0 <= i < |run.rows| && run.rows[i] == row;
    KeptIffGains(spec, store, run, i);
    HistoryProject(spec, row);
  }

  lemma HistoryKeysDiffer(a: Key, b: Key, s: int, t: int)
    requires HistoryKey(a, s) == HistoryKey(b, t)
    ensures a == b && s == t
  {
    var x, y := HistoryKey(a, s), HistoryKey(b, t);
    assert x[|a|] == y[|b|] && x[..|a|] == a && y[..|b|] == b;
  }

  /** A row that gains an entry leaves all its cells in the history, at its key and the time of the fetch. */
  lemma HistoryTakesRow(spec: Spec, store: Store, run: Run, i: nat, column: string)
    requires ValidRun(spec, run) && i < |run.rows| && Gains(spec, store, run, i)
    requires var entry := HistoryKey(spec.KeyOf(run.rows[i]), run.time);
      entry in TableOf(store, spec.historyTable) ==>
        column in run.rows[i] && column in (if run.historyUpdate.Some? then run.historyUpdate.value
            else run.snapshotUpdate)
    ensures var entry, after := HistoryKey(spec.KeyOf(run.rows[i]), run.time),
        TableOf(After(spec, store, run), spec.historyTable);
      entry in after && Get(after[entry], column) == Get(run.rows[i], column)
  {
    var w := HistoryWrite(spec, store, run);
    TablesAfter(spec, store, run);
    KeptIffGains(spec, store, run, i);
    var k :| 0 <= k < |w.rows| && w.rows[k] == run.rows[i];
    HistoryProject(spec, run.rows[i]);
    KeptDistinct(spec, store, run.rows, run.full, spec.keyColumns);
    HistoryDistinct(spec, w.rows);
    assert LastOfKey(w.rows, w.keyColumns, k);
    WrittenCell(TableOf(store, spec.historyTable), w, k, column);
    if column in run.rows[i] { assert Carries(w, column); }
  }

  /** The run touches a history entry only at its own time and for a row of that key that gains one. */
  lemma HistoryStays(spec: Spec, store: Store, run: Run, key: Key, time: int)
    requires ValidRun(spec, run)
    requires forall i :: 0 <= i < |run.rows| && spec.KeyOf(run.rows[i]) == key && time == run.time ==>
      !Gains(spec, store, run, i)
    ensures var before, after := TableOf(store, spec.historyTable), TableOf(After(spec, store, run), spec.historyTable);
      var entry := HistoryKey(key, time);
      (entry in after <==> entry in before) && (entry in before ==> after[entry] == before[entry])
  {
    var w := HistoryWrite(spec, store, run);
    TablesAfter(spec, store, run);
    forall k | 0 <= k < |w.rows| ensures Project(w.rows[k], w.keyColumns) != HistoryKey(key, time) {
      var i := KeptIsHistoryRow(spec, store, run, k);
      if HistoryKey(spec.KeyOf(run.rows[i]), run.time) == HistoryKey(key, time) {
        HistoryKeysDiffer(spec.KeyOf(run.rows[i]), key, run.time, time);
      }
    }
    NotUpserted(TableOf(store, spec.historyTable), w, HistoryKey(key, time));
  }

  // --------------------------------------------------------- the stored hashes

  lemma SnapshotAfter(spec: Spec, store: Store, run: Run, i: nat)
    requires ValidRun(spec, run) && i < |run.rows|
    ensures SnapshotHash(spec, After(spec, store, run), spec.KeyOf(run.rows[i]))
        == Some(Get(run.rows[i], "content_hash"))
  {
    SnapshotTakesRow(spec, store, run, i, "content_hash");
    assert "content_hash" in run.rows[i];
  }

  lemma SnapshotElsewhere(spec: Spec, store: Store, run: Run, key: Key)
    requires ValidRun(spec, run) && !HasRow(spec, run, key)
    ensures SnapshotHash(spec, After(spec, store, run), key) == SnapshotHash(spec, store, key)
  {
    SnapshotStays(spec, store, run, key);
  }

  /** The history changes at the run's time only, and there only for a hash that moved. */
  lemma HistoryAfter(spec: Spec, store: Store, run: Run, i: nat, time: int)
    requires ValidRun(spec, run) && i < |run.rows|
    ensures var key, hash := spec.KeyOf(run.rows[i]), Get(run.rows[i], "content_hash");
      HistoryAt(spec, After(spec, store, run), key, time)
      == if time == run.time && (run.full || SnapshotHash(spec, store, key) != Some(hash)) then Some(hash)
         else HistoryAt(spec, store, key, time)
  {
    var key := spec.KeyOf(run.rows[i]);
    assert Gains(spec, store, run, i) <==>
      run.full || SnapshotHash(spec, store, key) != Some(Get(run.rows[i], "content_hash"));
    if time == run.time && Gains(spec, store, run, i) {
      HistoryTakesRow(spec, store, run, i, "content_hash");
    } else {
      forall k | 0 <= k < |run.rows| && spec.KeyOf(run.rows[k]) == key ensures k == i {
        assert Project(run.rows[k], spec.keyColumns) == Project(run.rows[i], spec.keyColumns);
      }
      HistoryStays(spec, store, run, key, time);
    }
  }

  lemma HistoryElsewhere(spec: Spec, store: Store, run: Run, key: Key, time: int)
    requires ValidRun(spec, run) && !HasRow(spec, run, key)
    ensures HistoryAt(spec, After(spec, store, run), key, time) == HistoryAt(spec, store, key, time)
  {
    HistoryStays(spec, store, run, key, time);
  }

  // ---------------------------------------------------------------- all runs

  /** Runs in the order of strictly increasing times. */
  ghost predicate RunsInOrder(spec: Spec, runs: seq<Run>) {
    && (forall i :: 0 <= i < |runs| ==> ValidRun(spec, runs[i]))
    && (forall i, j :: 0 <= i < j < |runs| ==> runs[i].time < runs[j].time)
  }

  lemma InitInOrder(spec: Spec, runs: seq<Run>)
    requires RunsInOrder(spec, runs) && runs != []
    ensures RunsInOrder(spec, runs[..|runs| - 1]) && ValidRun(spec, runs[|runs| - 1])
  {
  }

  function AfterAll(spec: Spec, store: Store, runs: seq<Run>): Store {
    if runs == [] then store else After(spec, AfterAll(spec, store, runs[..|runs| - 1]), runs[|runs| - 1])
  }

  /** The fetches of one key. */
  ghost function Events(spec: Spec, runs: seq<Run>, key: Key): seq<Event> {
    if runs == [] then []
    else
      WithRun(spec, Events(spec, runs[..|runs| - 1], key), runs[|runs| - 1], key)
  }

  ghost function EventOf(spec: Spec, run: Run, key: Key): Event
    requires HasRow(spec, run, key)
  {
    var i :| 0 <= i < |run.rows| && spec.KeyOf(run.rows[i]) == key;
    Event(run.time, Get(run.rows[i], "content_hash"), run.full)
  }

  lemma {:induction false} EventsInOrder(spec: Spec, runs: seq<Run>, key: Key)
    requires RunsInOrder(spec, runs)
    ensures Increasing(Events(spec, runs, key))
    ensures forall i :: 0 <= i < |Events(spec, runs, key)| ==>
              exists r :: 0 <= r < |runs| && Events(spec, runs, key)[i].time == runs[r].time
                && Events(spec, runs, key)[i].full == runs[r].full
  {
    if runs != [] {
      var n := |runs| - 1;
      var before, events := Events(spec, runs[..n], key), Events(spec, runs, key);
      EventsInOrder(spec, runs[..n], key);
      forall i | 0 <= i < |events|
        ensures exists r :: 0 <= r < |runs| && events[i].time == runs[r].time && events[i].full == runs[r].full
        ensures i < |before| ==> events[i].time < runs[n].time
      {
        if i < |before| {
          var r :| 0 <= r < n && before[i].time == runs[..n][r].time && before[i].full == runs[..n][r].full;
          assert runs[r].time < runs[n].time;
        } else {
          assert events[i].time == runs[n].time;
        }
      }
    }
  }

  /** Nothing of the key is stored. */
  ghost predicate Untouched(spec: Spec, store: Store, key: Key) {
    && |key| == |spec.keyColumns|
    && SnapshotHash(spec, store, key) == None
    && forall time :: HistoryAt(spec, store, key, time) == None
  }

  function Entry(history: map<int, Value>, time: int): Option<Value> {
    if time in history then Some(history[time]) else None
  }

  /** A key's history as it is stored: time to hash. */
  ghost function HistoryOf(spec: Spec, store: Store, key: Key): int -> Option<Value> {
    time => HistoryAt(spec, store, key, time)
  }

  ghost predicate Mirrors(at: int -> Option<Value>, history: map<int, Value>) {
    forall time :: at(time) == Entry(history, time)
  }

  /** What the tables hold of a key is the encoding of these fetches. */
  ghost predicate Holds(spec: Spec, store: Store, key: Key, events: seq<Event>) {
    && SnapshotHash(spec, store, key) == LastHash(events)
    && Mirrors(HistoryOf(spec, store, key), Encoded(events))
  }

  lemma EncodedNext(events: seq<Event>, event: Event)
    ensures Encoded(events + [event])
         == if event.full || LastHash(events) != Some(event.hash) then Encoded(events)[event.time := event.hash]
            else Encoded(events)
  {
    var all := events + [event];
    assert all[..|events|] == events && all[|events|] == event;
  }

  lemma FetchedEntry(spec: Spec, store: Store, run: Run, i: nat, events: seq<Event>, time: int)
    requires ValidRun(spec, run) && i < |run.rows|
    requires SnapshotHash(spec, store, spec.KeyOf(run.rows[i])) == LastHash(events)
    requires HistoryAt(spec, store, spec.KeyOf(run.rows[i]), time) == Entry(Encoded(events), time)
    ensures var event := Event(run.time, Get(run.rows[i], "content_hash"), run.full);
      HistoryAt(spec, After(spec, store, run), spec.KeyOf(run.rows[i]), time) == Entry(Encoded(events + [event]), time)
  {
    EncodedNext(events, Event(run.time, Get(run.rows[i], "content_hash"), run.full));
    HistoryAfter(spec, store, run, i, time);
  }

  lemma FetchedKeyHolds(spec: Spec, store: Store, run: Run, key: Key, events: seq<Event>)
    requires ValidRun(spec, run) && HasRow(spec, run, key) && Holds(spec, store, key, events)
    ensures Holds(spec, After(spec, store, run), key, events + [EventOf(spec, run, key)])
  {
    var event, after := EventOf(spec, run, key), After(spec, store, run);
    var i :| 0 <= i < |run.rows| && spec.KeyOf(run.rows[i]) == key
      && event == Event(run.time, Get(run.rows[i], "content_hash"), run.full);
    SnapshotAfter(spec, store, run, i);
    forall time ensures HistoryOf(spec, after, key)(time) == Entry(Encoded(events + [event]), time) {
      assert HistoryOf(spec, store, key)(time) == Entry(Encoded(events), time);
      FetchedEntry(spec, store, run, i, events, time);
    }
  }

  lemma OtherKeyHolds(spec: Spec, store: Store, run: Run, key: Key, events: seq<Event>)
    requires ValidRun(spec, run) && |key| == |spec.keyColumns| && !HasRow(spec, run, key)
        && Holds(spec, store, key, events)
    ensures Holds(spec, After(spec, store, run), key, events)
  {
    SnapshotElsewhere(spec, store, run, key);
    forall time ensures HistoryOf(spec, After(spec, store, run), key)(time) == Entry(Encoded(events), time) {
      assert HistoryOf(spec, store, key)(time) == Entry(Encoded(events), time);
      HistoryElsewhere(spec, store, run, key, time);
    }
  }

  lemma UntouchedHolds(spec: Spec, store: Store, key: Key)
    requires Untouched(spec, store, key)
    ensures Holds(spec, store, key, [])
  {
    forall time ensures HistoryOf(spec, store, key)(time) == Entry(Encoded([]), time) {
      assert HistoryAt(spec, store, key, time) == None;
    }
  }

  /** The stored history of a key is the encoding of its fetches, the snapshot its last one. */
  lemma {:induction false} StoredIsEncoded(spec: Spec, store: Store, runs: seq<Run>, key: Key)
    requires RunsInOrder(spec, runs) && Untouched(spec, store, key)
    ensures Holds(spec, AfterAll(spec, store, runs), key, Events(spec, runs, key))
  {
    if runs == [] {
      UntouchedHolds(spec, store, key);
    } else {
      var n := |runs| - 1;
      var before, run := AfterAll(spec, store, runs[..n]), runs[n];
      var events := Events(spec, runs[..n], key);
      InitInOrder(spec, runs);
      StoredIsEncoded(spec, store, runs[..n], key);
      RunHolds(spec, before, run, key, events);
    }
  }

  ghost function WithRun(spec: Spec, events: seq<Event>, run: Run, key: Key): seq<Event> {
    events + if HasRow(spec, run, key) then [EventOf(spec, run, key)] else []
  }

  lemma RunHolds(spec: Spec, store: Store, run: Run, key: Key, events: seq<Event>)
    requires ValidRun(spec, run) && |key| == |spec.keyColumns| && Holds(spec, store, key, events)
    ensures Holds(spec, After(spec, store, run), key, WithRun(spec, events, run, key))
  {
    if HasRow(spec, run, key) {
      FetchedKeyHolds(spec, store, run, key, events);
    } else {
      OtherKeyHolds(spec, store, run, key, events);
      assert WithRun(spec, events, run, key) == events;
    }
  }

  /** The latest stored time that is not after `until`. */
  ghost predicate LatestEntry(at: int -> Option<Value>, until: int, time: int) {
    && time <= until && at(time).Some?
    && forall other :: at(other).Some? && other <= until ==> other <= time
  }

  /** Reading the latest entry not after the fetch gives the fetch's hash. */
  ghost predicate Answers(at: int -> Option<Value>, event: Event) {
    exists time :: LatestEntry(at, event.time, time) && at(time) == Some(event.hash)
  }

  lemma MirrorDecodes(at: int -> Option<Value>, events: seq<Event>, i: nat)
    requires Increasing(events) && Mirrors(at, Encoded(events)) && i < |events|
    ensures Answers(at, events[i])
  {
    var history := Encoded(events);
    HistoryDecodes(events, i);
    var t :| t in history && t <= events[i].time && history[t] == events[i].hash
             && forall u :: u in history && u <= events[i].time ==> u <= t;
    assert at(t) == Entry(history, t);
    assert LatestEntry(at, events[i].time, t);
  }

  ghost predicate AllAnswered(at: int -> Option<Value>, events: seq<Event>) {
    forall i :: 0 <= i < |events| ==> Answers(at, events[i])
  }

  lemma MirrorDecodesAll(at: int -> Option<Value>, events: seq<Event>)
    requires Increasing(events) && Mirrors(at, Encoded(events))
    ensures AllAnswered(at, events)
  {
    forall i | 0 <= i < |events| ensures Answers(at, events[i]) {
      MirrorDecodes(at, events, i);
    }
  }

  /** At every fetch of the key the latest history row not after it carries that fetch's hash. */
  lemma {:induction false} HistoryIsFaithful(spec: Spec, store: Store, runs: seq<Run>, key: Key)
    requires RunsInOrder(spec, runs) && Untouched(spec, store, key)
    ensures AllAnswered(HistoryOf(spec, AfterAll(spec, store, runs), key), Events(spec, runs, key))
  {
    var events := Events(spec, runs, key);
    EventsInOrder(spec, runs, key);
    StoredIsEncoded(spec, store, runs, key);
    MirrorDecodesAll(HistoryOf(spec, AfterAll(spec, store, runs), key), events);
  }

  lemma NewestEvent(at: int -> Option<Value>, events: seq<Event>)
    requires Increasing(events) && Mirrors(at, Encoded(events)) && events != []
    ensures exists time :: at(time) == LastHash(events) && forall other :: at(other).Some? ==> other <= time
  {
    var n := |events| - 1;
    MirrorDecodes(at, events, n);
    var time :| LatestEntry(at, events[n].time, time) && at(time) == Some(events[n].hash);
    forall other | at(other).Some? ensures other <= time {
      assert at(other) == Entry(Encoded(events), other);
      EntriesAreEvents(events, other);
      var k :| 0 <= k < |events| && events[k].time == other;
      assert k == n || events[k].time < events[n].time;
    }
  }

  /** Once a key was fetched, its newest history row and its snapshot row carry one hash. */
  lemma {:induction false} NewestAgreesWithSnapshot(spec: Spec, store: Store, runs: seq<Run>, key: Key)
    requires RunsInOrder(spec, runs) && Untouched(spec, store, key) && Events(spec, runs, key) != []
    ensures var at, snapshot := HistoryOf(spec, AfterAll(spec, store, runs), key),
        SnapshotHash(spec, AfterAll(spec, store, runs), key);
      && snapshot.Some?
      && exists time :: at(time) == snapshot && forall other :: at(other).Some? ==> other <= time
  {
    EventsInOrder(spec, runs, key);
    StoredIsEncoded(spec, store, runs, key);
    NewestEvent(HistoryOf(spec, AfterAll(spec, store, runs), key), Events(spec, runs, key));
  }

  lemma MirrorNeighbours(at: int -> Option<Value>, events: seq<Event>, t: int, u: int)
    requires Increasing(events) && Mirrors(at, Encoded(events)) && (forall i :: 0 <= i < |events| ==> !events[i].full)
    requires t < u && at(u).Some? && LatestEntry(at, u - 1, t)
    ensures at(t) != at(u)
  {
    forall v | v in Encoded(events) && t < v ensures u <= v {
      assert at(v) == Entry(Encoded(events), v);
    }
    assert at(t) == Entry(Encoded(events), t) && at(u) == Entry(Encoded(events), u);
    NeighboursDiffer(events, t, u);
  }

  /** Without a refresh two neighbouring history rows of a key never carry the same hash. */
  lemma {:induction false} NoRepeatedEntry(spec: Spec, store: Store, runs: seq<Run>, key: Key, t: int, u: int)
    requires RunsInOrder(spec, runs) && Untouched(spec, store, key)
    requires forall i :: 0 <= i < |runs| ==> !runs[i].full
    requires var at := HistoryOf(spec, AfterAll(spec, store, runs), key);
      t < u && at(u).Some? && LatestEntry(at, u - 1, t)
    ensures HistoryOf(spec, AfterAll(spec, store, runs), key)(t) != HistoryOf(spec, AfterAll(spec, store, runs), key)(u)
  {
    var events := Events(spec, runs, key);
    EventsInOrder(spec, runs, key);
    StoredIsEncoded(spec, store, runs, key);
    forall i | 0 <= i < |events| ensures !events[i].full {
      var r :| 0 <= r < |runs| && events[i].time == runs[r].time && events[i].full == runs[r].full;
    }
    MirrorNeighbours(HistoryOf(spec, AfterAll(spec, store, runs), key), events, t, u);
  }

  // ----------------------------------------------------------- data over runs

  /** The history row has the cells of this key's row in the run of this time. */
  ghost predicate Fetched(spec: Spec, runs: seq<Run>, key: Key, time: int, stored: Row) {
    exists r, i :: 0 <= r < |runs| && 0 <= i < |runs[r].rows| && runs[r].time == time
      && spec.KeyOf(runs[r].rows[i]) == key && forall column :: Get(stored, column) == Get(runs[r].rows[i], column)
  }

  lemma FetchedByMore(spec: Spec, runs: seq<Run>, key: Key, time: int, stored: Row)
    requires runs != [] && Fetched(spec, runs[..|runs| - 1], key, time, stored)
    ensures Fetched(spec, runs, key, time, stored)
  {
    var init := runs[..|runs| - 1];
    var r, i :| 0 <= r < |init| && 0 <= i < |init[r].rows| && init[r].time == time
      && spec.KeyOf(init[r].rows[i]) == key && forall column :: Get(stored, column) == Get(init[r].rows[i], column);
    assert init[r] == runs[r];
  }

  /** A row at this history key was fetched by one of the runs. */
  ghost predicate FetchedIfStored(spec: Spec, store: Store, runs: seq<Run>, key: Key, time: int) {
    var history, entry := TableOf(store, spec.historyTable), HistoryKey(key, time);
    entry in history ==> Fetched(spec, runs, key, time, history[entry])
  }

  /** Every history row of a key is, cell for cell, what the run of its time fetched. */
  lemma {:induction false} HistoryRowsAreFetched(spec: Spec, store: Store, runs: seq<Run>, key: Key, time: int)
    requires RunsInOrder(spec, runs) && HistoryKey(key, time) !in TableOf(store, spec.historyTable)
    ensures FetchedIfStored(spec, AfterAll(spec, store, runs), runs, key, time)
  {
    if runs != [] {
      var n := |runs| - 1;
      var before := AfterAll(spec, store, runs[..n]);
      InitInOrder(spec, runs);
      HistoryRowsAreFetched(spec, store, runs[..n], key, time);
      if i :| 0 <= i < |runs[n].rows| && spec.KeyOf(runs[n].rows[i]) == key && time == runs[n].time
              && Gains(spec, before, runs[n], i) {
        NewRowIsFetched(spec, before, runs, i);
      } else {
        OldRowIsFetched(spec, before, runs, key, time);
      }
    }
  }

  lemma NewRowIsFetched(spec: Spec, store: Store, runs: seq<Run>, i: nat)
    requires RunsInOrder(spec, runs) && runs != [] && i < |runs[|runs| - 1].rows|
    requires var run := runs[|runs| - 1]; var key := spec.KeyOf(run.rows[i]);
      Gains(spec, store, run, i) && FetchedIfStored(spec, store, runs[..|runs| - 1], key, run.time)
    ensures var run := runs[|runs| - 1];
      FetchedIfStored(spec, After(spec, store, run), runs, spec.KeyOf(run.rows[i]), run.time)
  {
    var n := |runs| - 1;
    var run, key, history := runs[n], spec.KeyOf(runs[n].rows[i]), TableOf(store, spec.historyTable);
    if HistoryKey(key, run.time) in history {
      LaterThanFetched(spec, runs, key, history[HistoryKey(key, run.time)]);
    }
    var stored := TableOf(After(spec, store, run), spec.historyTable)[HistoryKey(key, run.time)] by {
      HistoryTakesRow(spec, store, run, i, "");
    }
    forall column ensures Get(stored, column) == Get(run.rows[i], column) {
      HistoryTakesRow(spec, store, run, i, column);
    }
    assert Fetched(spec, runs, key, run.time, stored);
  }

  lemma OldRowIsFetched(spec: Spec, store: Store, runs: seq<Run>, key: Key, time: int)
    requires RunsInOrder(spec, runs) && runs != [] && FetchedIfStored(spec, store, runs[..|runs| - 1], key, time)
    requires var run := runs[|runs| - 1];
      forall i :: 0 <= i < |run.rows| && spec.KeyOf(run.rows[i]) == key && time == run.time ==>
        !Gains(spec, store, run, i)
    ensures FetchedIfStored(spec, After(spec, store, runs[|runs| - 1]), runs, key, time)
  {
    HistoryStays(spec, store, runs[|runs| - 1], key, time);
    var history, entry := TableOf(store, spec.historyTable), HistoryKey(key, time);
    if entry in history { FetchedByMore(spec, runs, key, time, history[entry]); }
  }

  /** The time of the last run is later than all that was fetched before it. */
  lemma LaterThanFetched(spec: Spec, runs: seq<Run>, key: Key, stored: Row)
    requires runs != [] && RunsInOrder(spec, runs)
    ensures !Fetched(spec, runs[..|runs| - 1], key, runs[|runs| - 1].time, stored)
  {
  }

  /** The snapshot row of this key has this cell. */
  ghost predicate SnapshotShows(spec: Spec, store: Store, key: Key, column: string, value: Value) {
    var snapshot := TableOf(store, spec.snapshotTable);
    key in snapshot && Get(snapshot[key], column) == value
  }

  lemma RowShows(spec: Spec, store: Store, run: Run, i: nat, column: string)
    requires ValidRun(spec, run) && i < |run.rows| && column in run.rows[i] && column in run.snapshotUpdate
    ensures SnapshotShows(spec, After(spec, store, run), spec.KeyOf(run.rows[i]), column, run.rows[i][column])
  {
    SnapshotTakesRow(spec, store, run, i, column);
  }

  lemma StillShows(spec: Spec, store: Store, run: Run, key: Key, column: string, value: Value)
    requires ValidRun(spec, run) && !HasRow(spec, run, key) && SnapshotShows(spec, store, key, column, value)
    ensures SnapshotShows(spec, After(spec, store, run), key, column, value)
  {
    SnapshotStays(spec, store, run, key);
  }

  /** After `r` no run brings the key. */
  ghost predicate LastWith(spec: Spec, runs: seq<Run>, r: nat, key: Key) {
    forall q :: r < q < |runs| ==> !HasRow(spec, runs[q], key)
  }

  /** After the first `q` runs the snapshot shows the cell. */
  ghost predicate ShowsAfter(spec: Spec, store: Store, runs: seq<Run>, q: int, key: Key, column: string, value: Value) {
    0 <= q <= |runs| && SnapshotShows(spec, AfterAll(spec, store, runs[..q]), key, column, value)
  }

  lemma LaterRun(spec: Spec, runs: seq<Run>, r: nat, q: nat, key: Key)
    requires RunsInOrder(spec, runs) && r < q < |runs| && LastWith(spec, runs, r, key)
    ensures ValidRun(spec, runs[q]) && !HasRow(spec, runs[q], key)
  {
  }

  lemma NextRunShows(spec: Spec, store: Store, runs: seq<Run>, q: nat, key: Key, column: string, value: Value)
    requires q < |runs| && ValidRun(spec, runs[q]) && !HasRow(spec, runs[q], key)
    requires ShowsAfter(spec, store, runs, q, key, column, value)
    ensures ShowsAfter(spec, store, runs, q + 1, key, column, value)
  {
    assert runs[..q + 1][..q] == runs[..q];
    StillShows(spec, AfterAll(spec, store, runs[..q]), runs[q], key, column, value);
  }

  lemma LaterRunShows(spec: Spec, store: Store, runs: seq<Run>, r: nat, q: nat, key: Key, column: string, value: Value)
    requires RunsInOrder(spec, runs) && r < q < |runs| && LastWith(spec, runs, r, key)
    requires ShowsAfter(spec, store, runs, q, key, column, value)
    ensures ShowsAfter(spec, store, runs, q + 1, key, column, value)
  {
    LaterRun(spec, runs, r, q, key);
    NextRunShows(spec, store, runs, q, key, column, value);
  }

  lemma LaterRunsShow(spec: Spec, store: Store, runs: seq<Run>, r: nat, key: Key, column: string, value: Value,
                      shows: int -> bool)
    requires RunsInOrder(spec, runs) && LastWith(spec, runs, r, key)
    requires forall q :: shows(q) <==> ShowsAfter(spec, store, runs, q, key, column, value)
    ensures forall q :: r + 1 <= q < |runs| && shows(q) ==> shows(q + 1)
  {
    forall q | r + 1 <= q < |runs| && shows(q) ensures shows(q + 1) {
      LaterRunShows(spec, store, runs, r, q, key, column, value);
    }
  }

  lemma {:induction false} HoldsOn(p: int -> bool, from: int, until: int)
    requires from <= until && p(from) && forall q :: from <= q < until && p(q) ==> p(q + 1)
    ensures p(until)
    decreases until - from
  {
    if from < until { HoldsOn(p, from + 1, until); }
  }

  lemma KeepsShowing(spec: Spec, store: Store, runs: seq<Run>, r: nat, key: Key, column: string, value: Value)
    requires RunsInOrder(spec, runs) && LastWith(spec, runs, r, key) && r < |runs|
    requires ShowsAfter(spec, store, runs, r + 1, key, column, value)
    ensures ShowsAfter(spec, store, runs, |runs|, key, column, value)
  {
    var shows := q => ShowsAfter(spec, store, runs, q, key, column, value);
    LaterRunsShow(spec, store, runs, r, key, column, value, shows);
    HoldsOn(shows, r + 1, |runs|);
  }

  lemma FetchShows(spec: Spec, store: Store, runs: seq<Run>, r: nat, i: nat, column: string)
    requires r < |runs| && ValidRun(spec, runs[r])
    requires i < |runs[r].rows| && column in runs[r].rows[i] && column in runs[r].snapshotUpdate
    ensures ShowsAfter(spec, store, runs, r + 1, spec.KeyOf(runs[r].rows[i]), column, runs[r].rows[i][column])
  {
    assert runs[..r + 1][..r] == runs[..r];
    RowShows(spec, AfterAll(spec, store, runs[..r]), runs[r], i, column);
  }

  /** The snapshot row has the cells that the key's last fetch updated, however many runs follow without the key. */
  lemma SnapshotIsLastFetch(spec: Spec, store: Store, runs: seq<Run>, r: nat, i: nat, column: string)
    requires RunsInOrder(spec, runs) && r < |runs| && i < |runs[r].rows|
    requires LastWith(spec, runs, r, spec.KeyOf(runs[r].rows[i]))
    requires column in runs[r].rows[i] && column in runs[r].snapshotUpdate
    ensures SnapshotShows(spec, AfterAll(spec, store, runs), spec.KeyOf(runs[r].rows[i]), column,
        runs[r].rows[i][column])
  {
    FetchShows(spec, store, runs, r, i, column);
    KeepsShowing(spec, store, runs, r, spec.KeyOf(runs[r].rows[i]), column, runs[r].rows[i][column]);
    assert runs[..|runs|] == runs;
  }

  // --------------------------------------------------------------- any writes

  /** A write to a further table is applied whatever the comparison says. */
  lemma OthersAreWritten(spec: Spec, store: Store, result: NormalizedResult, fullRefresh: bool, i: nat)
    requires i < |result.writes| && Alone(result.writes, i) && result.writes[i].table != spec.historyTable
    ensures var w := result.writes[i];
      TableOf(Gated(spec, store, result, fullRefresh), w.table) == WrittenTable(TableOf(store, w.table), w)
  {
    var history, others, name := HistoryWrites(spec, result.writes), OtherWrites(spec, result.writes),
      result.writes[i].table;
    var skips, keep := SkipActions(spec, store, history, fullRefresh), KeptWrites(spec, store, history, fullRefresh);
    var s0 := Stats(map[], map[], map[]);
    ActionsConcat(store, s0, skips + Applies(others), keep);
    ActionsConcat(store, s0, skips, Applies(others));
    SkipsWriteNothing(spec, store, history, fullRefresh, store);
    var k := OtherAlone(spec, result.writes, i);
    WrittenAlone(store, others, k);
    HistoryNames(spec, result.writes);
    KeptElsewhere(spec, store, history, fullRefresh, Performed(store, Applies(others)), name);
  }

  lemma OtherAlone(spec: Spec, writes: seq<TableWrite>, i: nat) returns (k: nat)
    requires i < |writes| && Alone(writes, i) && writes[i].table != spec.historyTable
    ensures k < |OtherWrites(spec, writes)| && OtherWrites(spec, writes)[k] == writes[i]
    ensures Alone(OtherWrites(spec, writes), k)
  {
    k := SelectedAlone(writes, (w: TableWrite) => w.table != spec.historyTable, i);
  }

  lemma {:induction false} KeptElsewhere(spec: Spec, store: Store, history: seq<TableWrite>, fullRefresh: bool,
                                         at: Store, name: string)
    requires forall w :: w in history ==> w.table != name
    ensures TableOf(Performed(at, KeptWrites(spec, store, history, fullRefresh)), name) == TableOf(at, name)
  {
    if history != [] {
      var n := |history| - 1;
      var keep, before := KeptWrites(spec, store, history, fullRefresh),
        KeptWrites(spec, store, history[..n], fullRefresh);
      assert history[n] in history;
      KeptElsewhere(spec, store, history[..n], fullRefresh, at, name);
      assert keep[..|keep| - 1] == before;
    }
  }

  /**
   Whatever writes a result has, each of its rows is counted once: as attempted, or, for a history row, as attempted
   or skipped. Every table that the result names stays in the counters.
   */
  lemma GateConservesRows(spec: Spec, store: Store, result: NormalizedResult, fullRefresh: bool, table: string)
    requires KeysApart(result.writes)
    ensures var stats := CountedActions(Fresh(result), Actions(spec, store, result, fullRefresh));
      && Count(stats.attempted, table) + (Count(stats.skipped, table) - Count(result.skipped, table))
         == RowsFor(result.writes, table)
      && (table != spec.historyTable ==> Count(stats.skipped, table) == Count(result.skipped, table))
      && ((exists w :: w in result.writes && w.table == table) ==> stats.Lists(table))
  {
    ActionsActed(spec, store, result, fullRefresh, table);
    ActedCounts(Fresh(result), Actions(spec, store, result, fullRefresh), table);
    if w :| w in result.writes && w.table == table { WriteConcerned(spec, store, result, fullRefresh, w); }
  }

  lemma ActionsActed(spec: Spec, store: Store, result: NormalizedResult, fullRefresh: bool, table: string)
    requires KeysApart(result.writes)
    ensures RowsActed(Actions(spec, store, result, fullRefresh), table) == RowsFor(result.writes, table)
    ensures table != spec.historyTable ==> RowsSkipped(Actions(spec, store, result, fullRefresh), table) == 0
  {
    var history, others := HistoryWrites(spec, result.writes), OtherWrites(spec, result.writes);
    var skips, keep := SkipActions(spec, store, history, fullRefresh), KeptWrites(spec, store, history, fullRefresh);
    SelectedApart(result.writes, (w: TableWrite) => w.table == spec.historyTable);
    SelectedApart(result.writes, (w: TableWrite) => w.table != spec.historyTable);
    HistoryNames(spec, result.writes);
    HistoryActed(spec, store, history, fullRefresh, table);
    ActedApplies(others, table);
    ActedConcat(skips + Applies(others), keep, table);
    ActedConcat(skips, Applies(others), table);
    PartsAddUp(spec, result.writes, table);
  }

  lemma HistoryNames(spec: Spec, writes: seq<TableWrite>)
    ensures forall w :: w in HistoryWrites(spec, writes) ==> w.table == spec.historyTable
  {
    forall w | w in HistoryWrites(spec, writes) ensures w.table == spec.historyTable {
      SelectedNames(writes, (w: TableWrite) => w.table == spec.historyTable, w);
    }
  }

  lemma {:induction false} PartsAddUp(spec: Spec, writes: seq<TableWrite>, table: string)
    ensures RowsFor(HistoryWrites(spec, writes), table) + RowsFor(OtherWrites(spec, writes), table)
         == RowsFor(writes, table)
  {
    if writes != [] {
      var n := |writes| - 1;
      PartsAddUp(spec, writes[..n], table);
      RowsForNext(HistoryWrites(spec, writes[..n]), writes[n], table);
      RowsForNext(OtherWrites(spec, writes[..n]), writes[n], table);
    }
  }

  /** The rows of the history writes are written or skipped. */
  lemma {:induction false} HistoryActed(spec: Spec, store: Store, writes: seq<TableWrite>, fullRefresh: bool,
                                        table: string)
    requires KeysApart(writes) && forall w :: w in writes ==> w.table == spec.historyTable
    ensures var skips, keep := SkipActions(spec, store, writes, fullRefresh), KeptWrites(spec, store, writes,
        fullRefresh);
      && RowsActed(skips, table) + RowsActed(keep, table) == RowsFor(writes, table)
      && RowsSkipped(keep, table) == 0 && (table != spec.historyTable ==> RowsSkipped(skips, table) == 0)
  {
    if writes != [] {
      var n := |writes| - 1;
      var w := writes[n];
      assert w in writes;
      HistoryActed(spec, store, writes[..n], fullRefresh, table);
      SkipActed(w.table, |w.rows| - |KeptRows(spec, store, w.rows, fullRefresh)|,
                SkipActions(spec, store, writes[..n], fullRefresh), table);
      KeptActed(spec, store, w, fullRefresh, KeptWrites(spec, store, writes[..n], fullRefresh), table);
    }
  }

  lemma SkipActed(name: string, skipped: int, before: seq<Action>, table: string)
    ensures var skips := before + if skipped != 0 then [Skip(name, skipped)] else [];
      && RowsActed(skips, table) == RowsActed(before, table) + (if name == table then skipped else 0)
      && (name != table ==> RowsSkipped(skips, table) == RowsSkipped(before, table))
  {
    ActedOne(Skip(name, skipped), table);
    ActedConcat(before, if skipped != 0 then [Skip(name, skipped)] else [], table);
  }

  lemma KeptActed(spec: Spec, store: Store, w: TableWrite, fullRefresh: bool, before: seq<Action>, table: string)
    requires w.keyColumns != [] && DistinctKeys(w.rows, w.keyColumns)
    ensures var kept := KeptRows(spec, store, w.rows, fullRefresh);
      var keep := before + [Apply(w.(rows := kept))];
      && RowsActed(keep, table) == RowsActed(before, table) + (if w.table == table then |kept| else 0)
      && RowsSkipped(keep, table) == RowsSkipped(before, table)
  {
    var kept := KeptRows(spec, store, w.rows, fullRefresh);
    KeptDistinct(spec, store, w.rows, fullRefresh, w.keyColumns);
    DistinctKeyCountIsRows(kept, w.keyColumns);
    ActedOne(Apply(w.(rows := kept)), table);
    ActedConcat(before, [Apply(w.(rows := kept))], table);
  }

  lemma WriteConcerned(spec: Spec, store: Store, result: NormalizedResult, fullRefresh: bool, w: TableWrite)
    requires w in result.writes
    ensures SomeConcerns(Actions(spec, store, result, fullRefresh), w.table)
  {
    var history, others := HistoryWrites(spec, result.writes), OtherWrites(spec, result.writes);
    var skips, keep := SkipActions(spec, store, history, fullRefresh), KeptWrites(spec, store, history, fullRefresh);
    var actions := Actions(spec, store, result, fullRefresh);
    if w.table == spec.historyTable {
      SelectedNames(result.writes, (w: TableWrite) => w.table == spec.historyTable, w);
      var i := KeptConcerned(spec, store, history, fullRefresh, w);
      assert actions[|skips + Applies(others)| + i] == keep[i];
    } else {
      SelectedNames(result.writes, (w: TableWrite) => w.table != spec.historyTable, w);
      var i :| 0 <= i < |others| && others[i] == w;
      assert actions[|skips| + i] == Applies(others)[i];
    }
  }

  lemma {:induction false} KeptConcerned(spec: Spec, store: Store, writes: seq<TableWrite>, fullRefresh: bool,
                                         w: TableWrite) returns (i: nat)
    requires w in writes
    ensures i < |KeptWrites(spec, store, writes, fullRefresh)|
    ensures Concerns(KeptWrites(spec, store, writes, fullRefresh)[i], w.table)
  {
    var n := |writes| - 1;
    if w == writes[n] {
      i := |KeptWrites(spec, store, writes[..n], fullRefresh)|;
    } else {
      i := KeptConcerned(spec, store, writes[..n], fullRefresh, w);
    }
  }
}

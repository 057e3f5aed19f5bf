/**
 The as-of gate over a sequence of runs: although a run whose content did not change writes
 no data row, every day's content can be read back.
 */
module AsOfHistory {
  import opened Wrappers
  import opened Storage
  import opened Datasets
  import opened AsOfBody
  import opened AsOfGate

  /** A gated dataset: its gate, the cells that mark its rows, and its tables with their keys. */
  datatype Dataset = Dataset(gate: Gate, ident: Row, keys: map<string, seq<string>>)

  datatype Run = Run(result: NormalizedResult, day: int, fetchedAt: Value, fullRefresh: bool)

  ghost predicate Writes(run: Run, table: string) {
    exists i :: 0 <= i < |run.result.writes| && run.result.writes[i].table == table
  }

  /** A run that fetched something: one write for each table, each of the run's day. */
  ghost predicate DayRun(ds: Dataset, run: Run) {
    var writes := run.result.writes;
    && "symbol" in ds.ident && GATE_TABLE !in ds.keys
    && DistinctTables(writes)
    && (forall i :: 0 <= i < |writes| ==>
          && writes[i].table in ds.keys && writes[i].keyColumns == ds.keys[writes[i].table]
          && DayWrite(writes[i], ds.ident, run.day))
    && (forall table {:trigger Writes(run, table)} :: table in ds.keys ==> Writes(run, table))
    && FirstRow(ds.gate.sourceTables, writes).Some?
    && Get(FirstRow(ds.gate.sourceTables, writes).value, "fetched_at") == run.fetchedAt
  }

  function After(ds: Dataset, digest: Digest, store: Store, run: Run): Store {
    Gated(ds.gate, digest, store, run.result, run.fullRefresh)
  }

  /** The run writes its data tables. */
  predicate Changes(ds: Dataset, digest: Digest, store: Store, run: Run) {
    !Unchanged(ds.gate, digest, store, run.result, run.fullRefresh)
  }

  /** Every stored row sits under its own primary key. */
  ghost predicate TablesKeyed(ds: Dataset, store: Store) {
    forall table :: table in ds.keys ==> Keyed(TableOf(store, table), ds.keys[table])
  }

  /** No row of the run's day would survive its writes, or be updated only in part. */
  ghost predicate NothingStale(ds: Dataset, store: Store, run: Run) {
    forall i, key :: 0 <= i < |run.result.writes| ==>
      !Stale(TableOf(store, run.result.writes[i].table), run.result.writes[i], ds.ident, run.day, key)
  }

  /** If the run writes, it replaces the rows that an earlier run of its day left. */
  ghost predicate Replaces(ds: Dataset, digest: Digest, store: Store, run: Run) {
    Changes(ds, digest, store, run) ==> NothingStale(ds, store, run)
  }

  function AfterAll(ds: Dataset, digest: Digest, store: Store, runs: seq<Run>): Store {
    if runs == [] then store
    else After(ds, digest, AfterAll(ds, digest, store, runs[..|runs| - 1]), runs[|runs| - 1])
  }

  function GateKey(ds: Dataset): Key
    requires "symbol" in ds.ident
  {
    [ds.ident["symbol"], Str(ds.gate.name)]
  }

  ghost predicate RowAt(store: Store, table: string, key: Key, ident: Row, day: int) {
    key in TableOf(store, table) && At(TableOf(store, table)[key], ident, day)
  }

  /** Some table has a row of the dataset for the day. */
  ghost predicate HasDay(ds: Dataset, store: Store, day: int) {
    exists table, key :: table in ds.keys && RowAt(store, table, key, ds.ident, day)
  }

  /** Nothing of the dataset is stored. */
  ghost predicate Untouched(ds: Dataset, store: Store) {
    && "symbol" in ds.ident
    && TablesKeyed(ds, store)
    && (forall day :: !HasDay(ds, store, day))
    && GateKey(ds) !in TableOf(store, GATE_TABLE)
  }

  /** The day's rows, table by table, are what the run fetched. */
  ghost predicate Holds(ds: Dataset, store: Store, day: int, run: Run) {
    forall i :: 0 <= i < |run.result.writes| ==>
      Content(TableOf(store, run.result.writes[i].table), ds.ident, day) == Proposed(run.result.writes[i])
  }

  /** The latest stored day that is not after `upTo`. */
  ghost predicate LatestDay(ds: Dataset, store: Store, upTo: int, day: int) {
    && day <= upTo && HasDay(ds, store, day)
    && forall other :: other <= upTo && HasDay(ds, store, other) ==> other <= day
  }

  /** Reading as of `upTo` gives the content of the run. */
  ghost predicate Reads(ds: Dataset, store: Store, upTo: int, run: Run) {
    exists day :: LatestDay(ds, store, upTo, day) && Holds(ds, store, day, run)
  }

  /** The last run on or before a day. */
  function LastRunBy(runs: seq<Run>, day: int): Run
    requires runs != [] && runs[0].day <= day
  {
    var n := |runs| - 1;
    if runs[n].day <= day then runs[n] else LastRunBy(runs[..n], day)
  }

  // ------------------------------------------------------------------ one run

  lemma {:induction false} RowsOfSome(writes: seq<TableWrite>, table: string)
    requires RowsOf(writes, table) != []
    ensures exists i :: 0 <= i < |writes| && writes[i].table == table && writes[i].rows == RowsOf(writes, table)
  {
    var n := |writes| - 1;
    if writes[n].table != table {
      RowsOfSome(writes[..n], table);
      var i :| 0 <= i < n && writes[..n][i].table == table && writes[..n][i].rows == RowsOf(writes, table);
      assert writes[i] == writes[..n][i];
    }
  }

  lemma {:induction false} FirstRowIsProposed(tables: seq<string>, writes: seq<TableWrite>)
    requires FirstRow(tables, writes).Some?
    ensures exists i :: 0 <= i < |writes| && writes[i].rows != [] && writes[i].rows[0] == FirstRow(tables, writes).value
  {
    if RowsOf(writes, tables[0]) != [] {
      RowsOfSome(writes, tables[0]);
    } else {
      FirstRowIsProposed(tables[1..], writes);
    }
  }

  /** The gate row of every run has the dataset's key and the run's day; the result is not empty. */
  lemma GateSource(ds: Dataset, run: Run) returns (first: Row)
    requires DayRun(ds, run)
    ensures FirstRow(ds.gate.sourceTables, run.result.writes) == Some(first)
    ensures Identity(ds.gate, first) == GateKey(ds) && At(first, ds.ident, run.day)
    ensures !run.result.IsEmpty()
    ensures exists i :: 0 <= i < |run.result.writes| && run.result.writes[i].rows != []
    ensures Get(first, "fetched_at") == run.fetchedAt && Get(first, "as_of_date") == Int(run.day)
  {
    first := FirstRow(ds.gate.sourceTables, run.result.writes).value;
    FirstRowIsProposed(ds.gate.sourceTables, run.result.writes);
    var i :| 0 <= i < |run.result.writes| && run.result.writes[i].rows != [] && run.result.writes[i].rows[0] == first;
    assert At(run.result.writes[i].rows[0], ds.ident, run.day);
  }

  lemma GateIncoming(gate: Gate, first: Row, writes: seq<TableWrite>, digest: string, matched: bool)
    ensures var w := GateWrite(gate, first, writes, digest, matched);
      Incoming(w) == map[Identity(gate, first) := NewGateRow(gate, first, writes, digest)]
  {
    var w := GateWrite(gate, first, writes, digest, matched);
    var row := NewGateRow(gate, first, writes, digest);
    assert w.rows[..0] == [] && w.rows[0] == row;
    assert Columns(w.rows) == row.Keys;
    assert Aligned(row, row.Keys) == row;
    assert Project(row, GATE_KEY_COLUMNS) == Identity(gate, first);
    assert Batch([], GATE_KEY_COLUMNS, row.Keys) == map[];
  }

  lemma GatedGateTable(gate: Gate, digest: Digest, store: Store, result: NormalizedResult, fullRefresh: bool,
                       first: Row)
    requires !result.IsEmpty() && FirstRow(gate.sourceTables, result.writes) == Some(first)
    requires forall i :: 0 <= i < |result.writes| ==> result.writes[i].table != GATE_TABLE
    ensures var hash := digest(Body(result));
      TableOf(Gated(gate, digest, store, result, fullRefresh), GATE_TABLE) == Put(
        TableOf(store, GATE_TABLE), map[Identity(gate, first) := NewGateRow(gate, first, result.writes, hash)],
        ToSet(if Unchanged(gate, digest, store, result, fullRefresh) then UNCHANGED_UPDATE_COLUMNS
            else GATE_UPDATE_COLUMNS))
  {
    var matched, hash := Unchanged(gate, digest, store, result, fullRefresh), digest(Body(result));
    OtherTables(store, result.writes, GATE_TABLE);
    GateWritten(if matched then store else WrittenAll(store, result.writes), gate, first, result.writes, hash, matched);
  }

  lemma GateWritten(data: Store, gate: Gate, first: Row, writes: seq<TableWrite>, hash: string, matched: bool)
    ensures TableOf(Written(data, GateWrite(gate, first, writes, hash, matched)), GATE_TABLE) == Put(
      TableOf(data, GATE_TABLE), map[Identity(gate, first) := NewGateRow(gate, first, writes, hash)],
      ToSet(if matched then UNCHANGED_UPDATE_COLUMNS else GATE_UPDATE_COLUMNS))
  {
    GateIncoming(gate, first, writes, hash, matched);
  }

  lemma PutOne(table: Table, key: Key, row: Row, columns: set<string>, column: string)
    ensures key in Put(table, map[key := row], columns)
    ensures Get(Put(table, map[key := row], columns)[key], column)
         == if key in table && !(column in row && column in columns) then Get(table[key], column) else Get(row, column)
  {
    if key in table {
      OverlaidCell(table[key], row, columns, column);
    }
  }

  lemma GateColumns()
    ensures ToSet(GATE_UPDATE_COLUMNS) == {"as_of_date", "content_hash", "row_count", "fetched_at"}
    ensures ToSet(UNCHANGED_UPDATE_COLUMNS) == {"fetched_at"}
  {
  }

  /** The cells of the gate row after a run. */
  ghost predicate GateCells(row: Row, before: Option<Row>, run: Run, hash: string, changed: bool) {
    && Get(row, "fetched_at") == run.fetchedAt
    && Get(row, "content_hash") == Str(hash)
    && Get(row, "first_seen_at") == (if before.Some? then Get(before.value, "first_seen_at") else run.fetchedAt)
    && (changed ==>
          Get(row, "as_of_date") == Int(run.day) && Get(row, "row_count") == Int(|Places(run.result.writes)|))
    && (!changed ==>
          && before.Some? && Get(row, "as_of_date") == Get(before.value, "as_of_date")
          && Get(row, "row_count") == Get(before.value, "row_count"))
  }

  lemma UnchangedHash(ds: Dataset, digest: Digest, store: Store, run: Run)
    requires DayRun(ds, run) && !Changes(ds, digest, store, run)
    ensures GateKey(ds) in TableOf(store, GATE_TABLE)
    ensures Get(TableOf(store, GATE_TABLE)[GateKey(ds)], "content_hash") == Str(digest(Body(run.result)))
  {
    var _ := GateSource(ds, run);
  }

  lemma GateRowAfter(ds: Dataset, digest: Digest, store: Store, run: Run)
    requires DayRun(ds, run)
    ensures var key, old_, new_ := GateKey(ds), TableOf(store, GATE_TABLE),
        TableOf(After(ds, digest, store, run), GATE_TABLE);
      && key in new_
      && GateCells(new_[key], if key in old_ then Some(old_[key]) else None, run, digest(Body(run.result)),
                   Changes(ds, digest, store, run))
  {
    var key, old_, changed := GateKey(ds), TableOf(store, GATE_TABLE), Changes(ds, digest, store, run);
    var row := GateTableAfter(ds, digest, store, run);
    if !changed {
      UnchangedHash(ds, digest, store, run);
    }
    GateCellsPut(old_, key, row, changed, run, digest(Body(run.result)));
  }

  lemma GateTableAfter(ds: Dataset, digest: Digest, store: Store, run: Run) returns (row: Row)
    requires DayRun(ds, run)
    ensures row.Keys == {"symbol", "dataset", "as_of_date", "content_hash", "row_count", "first_seen_at", "fetched_at"}
    ensures row["as_of_date"] == Int(run.day) && row["content_hash"] == Str(digest(Body(run.result)))
    ensures row["first_seen_at"] == row["fetched_at"] == run.fetchedAt
    ensures row["row_count"] == Int(|Places(run.result.writes)|)
    ensures TableOf(After(ds, digest, store, run), GATE_TABLE) == Put(
      TableOf(store, GATE_TABLE), map[GateKey(ds) := row],
      ToSet(if Changes(ds, digest, store, run) then GATE_UPDATE_COLUMNS else UNCHANGED_UPDATE_COLUMNS))
  {
    var first := GateSource(ds, run);
    DataTables(ds, run);
    row := NewGateRow(ds.gate, first, run.result.writes, digest(Body(run.result)));
    NewGateRowCells(ds.gate, first, run.result.writes, digest(Body(run.result)));
    RowCountIsExact(run.result.writes);
    PlainGateTable(ds, digest, store, run, first);
  }

  lemma NewGateRowCells(gate: Gate, first: Row, writes: seq<TableWrite>, hash: string)
    ensures var row := NewGateRow(gate, first, writes, hash);
      && row.Keys == {"symbol", "dataset", "as_of_date", "content_hash", "row_count", "first_seen_at", "fetched_at"}
      && row["as_of_date"] == Get(first, "as_of_date") && row["content_hash"] == Str(hash)
      && row["first_seen_at"] == Get(first, "fetched_at") == row["fetched_at"]
      && row["row_count"] == Int(TotalRows(writes))
  {
  }

  lemma PlainGateTable(ds: Dataset, digest: Digest, store: Store, run: Run, first: Row)
    requires !run.result.IsEmpty() && FirstRow(ds.gate.sourceTables, run.result.writes) == Some(first)
    requires forall i :: 0 <= i < |run.result.writes| ==> run.result.writes[i].table != GATE_TABLE
    requires "symbol" in ds.ident && Identity(ds.gate, first) == GateKey(ds)
    ensures TableOf(After(ds, digest, store, run), GATE_TABLE) == Put(
      TableOf(store, GATE_TABLE), map[GateKey(ds) := NewGateRow(ds.gate, first, run.result.writes,
          digest(Body(run.result)))],
      ToSet(if Changes(ds, digest, store, run) then GATE_UPDATE_COLUMNS else UNCHANGED_UPDATE_COLUMNS))
  {
    GatedGateTable(ds.gate, digest, store, run.result, run.fullRefresh, first);
  }

  lemma DataTables(ds: Dataset, run: Run)
    requires DayRun(ds, run)
    ensures DistinctTables(run.result.writes)
    ensures forall i :: 0 <= i < |run.result.writes| ==> run.result.writes[i].table != GATE_TABLE
  {
  }

  lemma GateCellsPut(old_: Table, key: Key, row: Row, changed: bool, run: Run, hash: string)
    requires !changed ==> key in old_ && Get(old_[key], "content_hash") == Str(hash)
    requires row.Keys == {"symbol", "dataset", "as_of_date", "content_hash", "row_count", "first_seen_at", "fetched_at"}
    requires row["as_of_date"] == Int(run.day) && row["content_hash"] == Str(hash)
    requires row["first_seen_at"] == row["fetched_at"] == run.fetchedAt
    requires row["row_count"] == Int(|Places(run.result.writes)|)
    ensures var columns := ToSet(if changed then GATE_UPDATE_COLUMNS else UNCHANGED_UPDATE_COLUMNS);
      var new_ := Put(old_, map[key := row], columns);
      key in new_ && GateCells(new_[key], if key in old_ then Some(old_[key]) else None, run, hash, changed)
  {
    var columns := ToSet(if changed then GATE_UPDATE_COLUMNS else UNCHANGED_UPDATE_COLUMNS);
    GateColumns();
    PutOne(old_, key, row, columns, "fetched_at");
    PutOne(old_, key, row, columns, "content_hash");
    PutOne(old_, key, row, columns, "first_seen_at");
    PutOne(old_, key, row, columns, "as_of_date");
    PutOne(old_, key, row, columns, "row_count");
  }

  /** The data tables after a run. */
  lemma DataAfter(ds: Dataset, digest: Digest, store: Store, run: Run, i: nat)
    requires DayRun(ds, run) && i < |run.result.writes|
    ensures var w := run.result.writes[i];
      TableOf(After(ds, digest, store, run), w.table)
      == if Changes(ds, digest, store, run) then WrittenTable(TableOf(store, w.table), w) else TableOf(store, w.table)
  {
    var first := GateSource(ds, run);
    DataTables(ds, run);
    GatedDataTable(ds.gate, digest, store, run.result, run.fullRefresh, first, i);
  }

  lemma GatedDataTable(gate: Gate, digest: Digest, store: Store, result: NormalizedResult, fullRefresh: bool,
                       first: Row, i: nat)
    requires !result.IsEmpty() && FirstRow(gate.sourceTables, result.writes) == Some(first)
    requires DistinctTables(result.writes) && i < |result.writes| && result.writes[i].table != GATE_TABLE
    ensures var w := result.writes[i];
      TableOf(Gated(gate, digest, store, result, fullRefresh), w.table)
      == if Unchanged(gate, digest, store, result, fullRefresh) then TableOf(store, w.table)
        else WrittenTable(TableOf(store, w.table), w)
  {
    EachTableOnce(store, result.writes, i);
  }

  lemma {:induction false} OneTableRows(writes: seq<TableWrite>, i: nat)
    requires DistinctTables(writes) && i < |writes|
    ensures RowsFor(writes, writes[i].table) == |writes[i].rows|
  {
    var n := |writes| - 1;
    if i < n {
      assert writes[..n][i] == writes[i];
      OneTableRows(writes[..n], i);
    } else {
      NoTableRows(writes[..n], writes[n].table);
    }
  }

  lemma {:induction false} NoTableRows(writes: seq<TableWrite>, table: string)
    requires forall j :: 0 <= j < |writes| ==> writes[j].table != table
    ensures RowsFor(writes, table) == 0
  {
    if writes != [] { NoTableRows(writes[..|writes| - 1], table); }
  }

  /** The gate skips or applies all of a result: its rows are written and counted, or counted as skipped. */
  lemma GateIsExact(gate: Gate, digest: Digest, store: Store, result: NormalizedResult, fullRefresh: bool, first: Row,
                    i: nat)
    requires !result.IsEmpty() && FirstRow(gate.sourceTables, result.writes) == Some(first)
    requires DistinctTables(result.writes) && KeysApart(result.writes)
    requires i < |result.writes| && result.writes[i].table != GATE_TABLE
    ensures var w, gates, key := result.writes[i], TableOf(store, GATE_TABLE), [Get(first, "symbol"), Str(gate.name)];
      var same := !fullRefresh && key in gates && Get(gates[key], "content_hash") == Str(digest(Body(result)));
      var stats := GatedStats(gate, digest, store, result, fullRefresh);
      && TableOf(Gated(gate, digest, store, result, fullRefresh), w.table)
         == (if same then TableOf(store, w.table) else WrittenTable(TableOf(store, w.table), w))
      && Count(stats.attempted, w.table) == (if same then 0 else |w.rows|)
      && Count(stats.verified, w.table) == (if same then 0 else |w.rows|)
      && Count(stats.skipped, w.table) == Count(result.skipped, w.table) + (if same then |w.rows| else 0)
  {
    var w, stats0 := result.writes[i], Fresh(result);
    GatedDataTable(gate, digest, store, result, fullRefresh, first, i);
    OneTableRows(result.writes, i);
    SkippedRows(stats0, result.writes, w.table);
    CountedRows(stats0, result.writes, w.table);
  }

  /** Nothing fetched, nothing written; rows without a gate source raise, and only a refresh has written them. */
  lemma GateWithoutSource(gate: Gate, digest: Digest, store: Store, result: NormalizedResult, fullRefresh: bool)
    ensures (forall i :: 0 <= i < |result.writes| ==> result.writes[i].rows == []) && result.skipped == map[] ==>
      && Gated(gate, digest, store, result, fullRefresh) == store
      && GatedStats(gate, digest, store, result, fullRefresh) == Stats(map[], map[], map[])
    ensures
      && (result.skipped != map[] || exists i :: 0 <= i < |result.writes| && result.writes[i].rows != [])
      && FirstRow(gate.sourceTables, result.writes).None? ==>
        Gated(gate, digest, store, result, fullRefresh) == if fullRefresh then WrittenAll(store, result.writes)
          else store
  {
  }

  /** A run that writes: its day reads as fetched exactly if nothing was stale; no other day changes. */
  lemma ChangedRun(ds: Dataset, digest: Digest, store: Store, run: Run)
    requires DayRun(ds, run) && Changes(ds, digest, store, run) && TablesKeyed(ds, store)
    ensures TablesKeyed(ds, After(ds, digest, store, run))
    ensures Holds(ds, After(ds, digest, store, run), run.day, run) <==> NothingStale(ds, store, run)
    ensures HasDay(ds, After(ds, digest, store, run), run.day)
    ensures forall day, table :: day != run.day && table in ds.keys ==>
              Content(TableOf(After(ds, digest, store, run), table), ds.ident, day)
              == Content(TableOf(store, table), ds.ident, day)
    ensures forall day :: day != run.day ==>
              (HasDay(ds, After(ds, digest, store, run), day) <==> HasDay(ds, store, day))
  {
    var after := After(ds, digest, store, run);
    RunKeepsKeyed(ds, digest, store, run);
    DayReadsIff(ds, digest, store, run);
    RunDayStored(ds, digest, store, run);
    forall table, key, day | day != run.day && table in ds.keys
      ensures RowAt(after, table, key, ds.ident, day) <==> RowAt(store, table, key, ds.ident, day)
      ensures RowAt(after, table, key, ds.ident, day) ==> TableOf(after, table)[key] == TableOf(store, table)[key]
    {
      OtherDayRow(ds, digest, store, run, table, key, day);
    }
    OtherDays(ds, store, after, run.day);
  }

  lemma RunKeepsKeyed(ds: Dataset, digest: Digest, store: Store, run: Run)
    requires DayRun(ds, run) && TablesKeyed(ds, store)
    ensures TablesKeyed(ds, After(ds, digest, store, run))
  {
    var writes := run.result.writes;
    forall table | table in ds.keys ensures Keyed(TableOf(After(ds, digest, store, run), table), ds.keys[table]) {
      var i := WriteOf(ds, run, table);
      DataAfter(ds, digest, store, run, i);
      WriteKeepsKeyed(TableOf(store, table), writes[i]);
    }
  }

  /** The write of a table. */
  lemma WriteOf(ds: Dataset, run: Run, table: string) returns (i: nat)
    requires DayRun(ds, run) && table in ds.keys
    ensures i < |run.result.writes| && run.result.writes[i].table == table
    ensures run.result.writes[i].keyColumns == ds.keys[table] && DayWrite(run.result.writes[i], ds.ident, run.day)
  {
    assert Writes(run, table);
    i :| 0 <= i < |run.result.writes| && run.result.writes[i].table == table;
  }

  /** No row of the day goes stale in this table. */
  ghost predicate NoneStale(table: Table, w: TableWrite, ident: Row, day: int) {
    forall key :: !Stale(table, w, ident, day, key)
  }

  lemma DayReadsIff(ds: Dataset, digest: Digest, store: Store, run: Run)
    requires DayRun(ds, run) && Changes(ds, digest, store, run) && TablesKeyed(ds, store)
    ensures Holds(ds, After(ds, digest, store, run), run.day, run) <==> NothingStale(ds, store, run)
  {
    var after, writes := After(ds, digest, store, run), run.result.writes;
    forall i | 0 <= i < |writes|
      ensures Content(TableOf(after, writes[i].table), ds.ident, run.day) == Proposed(writes[i])
         <==> NoneStale(TableOf(store, writes[i].table), writes[i], ds.ident, run.day)
    {
      TableReadsIff(ds, digest, store, run, i);
    }
    if NothingStale(ds, store, run) {
      forall i | 0 <= i < |writes| ensures NoneStale(TableOf(store, writes[i].table), writes[i], ds.ident, run.day) {
      }
    }
  }

  lemma TableReadsIff(ds: Dataset, digest: Digest, store: Store, run: Run, i: nat)
    requires DayRun(ds, run) && Changes(ds, digest, store, run) && TablesKeyed(ds, store) && i < |run.result.writes|
    ensures var w := run.result.writes[i];
      Content(TableOf(After(ds, digest, store, run), w.table), ds.ident, run.day) == Proposed(w)
      <==> NoneStale(TableOf(store, w.table), w, ds.ident, run.day)
  {
    var w := run.result.writes[i];
    DataAfter(ds, digest, store, run, i);
    DayIsReplacedIff(TableOf(store, w.table), w, ds.ident, run.day);
  }

  lemma OtherDayRow(ds: Dataset, digest: Digest, store: Store, run: Run, table: string, key: Key, day: int)
    requires DayRun(ds, run) && Changes(ds, digest, store, run)
    requires table in ds.keys && Keyed(TableOf(store, table), ds.keys[table]) && day != run.day
    ensures var after := After(ds, digest, store, run);
      && (RowAt(after, table, key, ds.ident, day) <==> RowAt(store, table, key, ds.ident, day))
      && (RowAt(after, table, key, ds.ident, day) ==> TableOf(after, table)[key] == TableOf(store, table)[key])
  {
    var i := WriteOf(ds, run, table);
    DataAfter(ds, digest, store, run, i);
    OtherRowsKept(TableOf(store, table), run.result.writes[i], ds.ident, run.day, key);
  }

  lemma RunDayStored(ds: Dataset, digest: Digest, store: Store, run: Run)
    requires DayRun(ds, run) && Changes(ds, digest, store, run)
    requires TablesKeyed(ds, store)
    ensures HasDay(ds, After(ds, digest, store, run), run.day)
  {
    var _ := GateSource(ds, run);
    var i :| 0 <= i < |run.result.writes| && run.result.writes[i].rows != [];
    var w := run.result.writes[i];
    DataAfter(ds, digest, store, run, i);
    ProposedRowAfter(TableOf(store, w.table), w, ds.ident, run.day, 0);
    RowMeansDay(ds, After(ds, digest, store, run), w.table, Project(w.rows[0], w.keyColumns), run.day);
  }

  lemma RowMeansDay(ds: Dataset, store: Store, table: string, key: Key, day: int)
    requires table in ds.keys && key in TableOf(store, table) && At(TableOf(store, table)[key], ds.ident, day)
    ensures HasDay(ds, store, day)
  {
    assert RowAt(store, table, key, ds.ident, day);
  }

  lemma OtherDays(ds: Dataset, before: Store, after: Store, written: int)
    requires forall table, key, day :: day != written && table in ds.keys ==>
               && (RowAt(after, table, key, ds.ident, day) <==> RowAt(before, table, key, ds.ident, day))
               && (RowAt(after, table, key, ds.ident, day) ==>
                     TableOf(after, table)[key] == TableOf(before, table)[key])
    ensures forall day, table :: day != written && table in ds.keys ==>
              Content(TableOf(after, table), ds.ident, day) == Content(TableOf(before, table), ds.ident, day)
    ensures forall day :: day != written ==> (HasDay(ds, after, day) <==> HasDay(ds, before, day))
  {
    forall day, table | day != written && table in ds.keys
      ensures Content(TableOf(after, table), ds.ident, day) == Content(TableOf(before, table), ds.ident, day)
    {
      SameDayRows(ds, before, after, table, day);
      SameDayRows(ds, after, before, table, day);
    }
    forall day | day != written ensures HasDay(ds, after, day) <==> HasDay(ds, before, day) {
      if table, key :| table in ds.keys && RowAt(after, table, key, ds.ident, day) {
        assert RowAt(before, table, key, ds.ident, day);
      }
      if table, key :| table in ds.keys && RowAt(before, table, key, ds.ident, day) {
        assert RowAt(after, table, key, ds.ident, day);
      }
    }
  }

  lemma SameDayRows(ds: Dataset, from: Store, to: Store, table: string, day: int)
    requires forall key :: RowAt(from, table, key, ds.ident, day) ==>
               RowAt(to, table, key, ds.ident, day) && TableOf(to, table)[key] == TableOf(from, table)[key]
    ensures Content(TableOf(from, table), ds.ident, day) <= Content(TableOf(to, table), ds.ident, day)
  {
    forall row | row in Content(TableOf(from, table), ds.ident, day)
      ensures row in Content(TableOf(to, table), ds.ident, day)
    {
      var key :| key in TableOf(from, table) && At(TableOf(from, table)[key], ds.ident, day)
                 && Visible(TableOf(from, table)[key]) == row;
      assert RowAt(from, table, key, ds.ident, day);
    }
  }

  /** A run that does not write: no data table changes. */
  lemma UnchangedRun(ds: Dataset, digest: Digest, store: Store, run: Run)
    requires DayRun(ds, run) && !Changes(ds, digest, store, run)
    ensures forall table :: table in ds.keys ==> TableOf(After(ds, digest, store, run), table) == TableOf(store, table)
  {
    var _ := GateSource(ds, run);
    forall table | table in ds.keys ensures TableOf(After(ds, digest, store, run), table) == TableOf(store, table) {
      var i := WriteOf(ds, run, table);
      DataAfter(ds, digest, store, run, i);
    }
  }

  /** The hash function has no collisions on the bodies that occur. */
  ghost predicate CollisionFree(digest: Digest) {
    forall a, b :: digest(a) == digest(b) ==> a == b
  }

  /** Hashing the canonical text with a hash that never collides is such a function. */
  lemma CanonicalDigestIsCollisionFree(digest: Digest, sha: string -> string)
    requires forall body :: digest(body) == sha(BodyText(body))
    requires forall s, t :: sha(s) == sha(t) ==> s == t
    ensures CollisionFree(digest)
  {
    forall a, b | digest(a) == digest(b) ensures a == b {
      BodyTextInjective(a, b);
    }
  }

  lemma ProposedFromStripped(v: TableWrite, w: TableWrite)
    requires multiset(StrippedRows(v.rows)) == multiset(StrippedRows(w.rows))
    ensures Proposed(v) <= Proposed(w)
  {
    forall row | row in Proposed(v) ensures row in Proposed(w) {
      var i :| 0 <= i < |v.rows| && Visible(v.rows[i]) == row;
      var stripped := Stripped(v.rows[i]);
      assert StrippedRows(v.rows)[i] == stripped;
      assert stripped in multiset(StrippedRows(w.rows));
      var k :| 0 <= k < |w.rows| && StrippedRows(w.rows)[k] == stripped;
      VisibleOfStripped(v.rows[i]);
      VisibleOfStripped(w.rows[k]);
    }
  }

  lemma VisibleOfStripped(row: Row)
    ensures Visible(Stripped(row)) == Visible(row)
  {
  }

  lemma SameBodySameRows(a: Run, b: Run, table: string, j: nat) returns (i: nat)
    requires DistinctTables(a.result.writes) && DistinctTables(b.result.writes) && Body(a.result) == Body(b.result)
    requires Writes(a, table) && j < |b.result.writes| && b.result.writes[j].table == table
    ensures i < |a.result.writes| && a.result.writes[i].table == table
    ensures Proposed(a.result.writes[i]) == Proposed(b.result.writes[j])
  {
    i :| 0 <= i < |a.result.writes| && a.result.writes[i].table == table;
    BodyKeepsRows(a.result, b.result, i, j);
    ProposedFromStripped(a.result.writes[i], b.result.writes[j]);
    ProposedFromStripped(b.result.writes[j], a.result.writes[i]);
  }

  /** With equal bodies, what holds the content of one run holds the content of the other. */
  lemma SameBodyHolds(ds: Dataset, store: Store, day: int, a: Run, b: Run)
    requires DistinctTables(a.result.writes) && DistinctTables(b.result.writes) && Body(a.result) == Body(b.result)
    requires forall j :: 0 <= j < |b.result.writes| ==> Writes(a, b.result.writes[j].table)
    requires Holds(ds, store, day, a)
    ensures Holds(ds, store, day, b)
  {
    forall j | 0 <= j < |b.result.writes|
      ensures Content(TableOf(store, b.result.writes[j].table), ds.ident, day) == Proposed(b.result.writes[j])
    {
      var i := SameBodySameRows(a, b, b.result.writes[j].table, j);
    }
  }

  // ------------------------------------------------------------ sequences of runs

  ghost predicate DaysUpTo(ds: Dataset, store: Store, last: int) {
    forall day :: HasDay(ds, store, day) ==> day <= last
  }

  /** Every day from the first run on reads as the last run by then. */
  ghost predicate AllRead(ds: Dataset, store: Store, runs: seq<Run>)
    requires runs != []
  {
    forall day :: runs[0].day <= day ==> Reads(ds, store, day, LastRunBy(runs, day))
  }

  /** What is true of the tables after the runs. */
  ghost predicate Lossless(ds: Dataset, digest: Digest, store: Store, runs: seq<Run>)
    requires runs != [] && "symbol" in ds.ident
  {
    var last := runs[|runs| - 1];
    && TablesKeyed(ds, store)
    && runs[0].day <= last.day
    && DaysUpTo(ds, store, last.day)
    && AllRead(ds, store, runs)
    && GateRemembers(ds, digest, store, runs)
  }

  /** The gate row: the last body's hash, the first and the last time, the latest stored day. */
  ghost predicate GateRemembers(ds: Dataset, digest: Digest, store: Store, runs: seq<Run>)
    requires runs != [] && "symbol" in ds.ident
  {
    Remembers(ds, digest, store, runs[0].fetchedAt, runs[|runs| - 1])
  }

  ghost predicate Remembers(ds: Dataset, digest: Digest, store: Store, firstSeen: Value, last: Run)
    requires "symbol" in ds.ident
  {
    && GateKey(ds) in TableOf(store, GATE_TABLE)
    && var row := TableOf(store, GATE_TABLE)[GateKey(ds)];
    && Get(row, "content_hash") == Str(digest(Body(last.result)))
    && Get(row, "first_seen_at") == firstSeen
    && Get(row, "fetched_at") == last.fetchedAt
    && exists day :: Get(row, "as_of_date") == Int(day) && LatestDay(ds, store, last.day, day)
  }

  lemma FirstRunLossless(ds: Dataset, digest: Digest, store: Store, run: Run)
    requires Untouched(ds, store) && DayRun(ds, run)
    ensures Replaces(ds, digest, store, run)
    ensures Lossless(ds, digest, After(ds, digest, store, run), [run])
  {
    var after := After(ds, digest, store, run);
    assert Changes(ds, digest, store, run) by {
      var _ := GateSource(ds, run);
    }
    NothingToReplace(ds, store, run);
    ChangedRun(ds, digest, store, run);
    FirstRunReads(ds, after, run);
    FirstRunRemembers(ds, digest, store, run);
  }

  lemma NothingToReplace(ds: Dataset, store: Store, run: Run)
    requires Untouched(ds, store) && DayRun(ds, run)
    ensures NothingStale(ds, store, run)
  {
    forall i, key | 0 <= i < |run.result.writes|
      ensures !Stale(TableOf(store, run.result.writes[i].table), run.result.writes[i], ds.ident, run.day, key)
    {
      var table := run.result.writes[i].table;
      if RowAt(store, table, key, ds.ident, run.day) { RowMeansDay(ds, store, table, key, run.day); }
    }
  }

  lemma FirstRunReads(ds: Dataset, after: Store, run: Run)
    requires HasDay(ds, after, run.day) && Holds(ds, after, run.day, run)
    requires forall day :: HasDay(ds, after, day) ==> day <= run.day
    ensures forall day :: run.day <= day ==> Reads(ds, after, day, LastRunBy([run], day))
  {
    forall day | run.day <= day ensures Reads(ds, after, day, LastRunBy([run], day)) {
      assert LatestDay(ds, after, day, run.day);
    }
  }

  lemma FirstRunRemembers(ds: Dataset, digest: Digest, store: Store, run: Run)
    requires DayRun(ds, run) && Changes(ds, digest, store, run)
    requires GateKey(ds) !in TableOf(store, GATE_TABLE)
    requires HasDay(ds, After(ds, digest, store, run), run.day)
    requires forall day :: HasDay(ds, After(ds, digest, store, run), day) ==> day <= run.day
    ensures GateRemembers(ds, digest, After(ds, digest, store, run), [run])
  {
    GateRowAfter(ds, digest, store, run);
    assert LatestDay(ds, After(ds, digest, store, run), run.day, run.day);
  }

  lemma {:induction false} LastRunIsOneOf(runs: seq<Run>, day: int)
    requires runs != [] && runs[0].day <= day
    ensures LastRunBy(runs, day) in runs && LastRunBy(runs, day).day <= day
  {
    var n := |runs| - 1;
    if runs[n].day > day {
      LastRunIsOneOf(runs[..n], day);
    }
  }

  lemma HoldsTransfers(ds: Dataset, before: Store, after: Store, day: int, run: Run)
    requires DayRun(ds, run) && Holds(ds, before, day, run)
    requires forall table :: table in ds.keys ==>
               Content(TableOf(after, table), ds.ident, day) == Content(TableOf(before, table), ds.ident, day)
    ensures Holds(ds, after, day, run)
  {
  }

  lemma SameTablesSameDays(ds: Dataset, before: Store, after: Store, day: int)
    requires forall table :: table in ds.keys ==> TableOf(after, table) == TableOf(before, table)
    ensures HasDay(ds, after, day) <==> HasDay(ds, before, day)
  {
    if table, key :| table in ds.keys && RowAt(after, table, key, ds.ident, day) {
      RowMeansDay(ds, before, table, key, day);
    }
    if table, key :| table in ds.keys && RowAt(before, table, key, ds.ident, day) {
      RowMeansDay(ds, after, table, key, day);
    }
  }

  lemma LatestTransfers(ds: Dataset, before: Store, after: Store, upTo: int, day: int)
    requires LatestDay(ds, before, upTo, day)
    requires forall other :: other <= upTo ==> (HasDay(ds, after, other) <==> HasDay(ds, before, other))
    ensures LatestDay(ds, after, upTo, day)
  {
  }

  /** One more run that writes nothing. */
  lemma UnchangedReads(ds: Dataset, digest: Digest, store: Store, runs: seq<Run>, run: Run, day: int)
    requires runs != [] && "symbol" in ds.ident && Lossless(ds, digest, store, runs)
    requires AllDayRuns(ds, runs)
    requires DayRun(ds, run) && runs[0].day <= day && runs[|runs| - 1].day <= run.day
    requires !Changes(ds, digest, store, run) && CollisionFree(digest)
    ensures Reads(ds, After(ds, digest, store, run), day, if run.day <= day then run else LastRunBy(runs, day))
  {
    var read := LastRunBy(runs, day);
    LastRunIsOneOf(runs, day);
    assert Reads(ds, store, day, read);
    StillReads(ds, digest, store, run, day, read);
    if run.day <= day {
      UnchangedHash(ds, digest, store, run);
      assert read == runs[|runs| - 1];
      SameBodyReads(ds, After(ds, digest, store, run), day, read, run);
    }
  }

  /** A run that writes nothing leaves every reading as it was. */
  lemma StillReads(ds: Dataset, digest: Digest, store: Store, run: Run, day: int, read: Run)
    requires DayRun(ds, run) && !Changes(ds, digest, store, run)
    requires DayRun(ds, read) && Reads(ds, store, day, read)
    ensures Reads(ds, After(ds, digest, store, run), day, read)
  {
    var after := After(ds, digest, store, run);
    UnchangedRun(ds, digest, store, run);
    var stored :| LatestDay(ds, store, day, stored) && Holds(ds, store, stored, read);
    forall other ensures HasDay(ds, after, other) <==> HasDay(ds, store, other) {
      SameTablesSameDays(ds, store, after, other);
    }
    LatestTransfers(ds, store, after, day, stored);
    HoldsTransfers(ds, store, after, stored, read);
  }

  lemma SameBodyReads(ds: Dataset, store: Store, day: int, a: Run, b: Run)
    requires DayRun(ds, a) && DayRun(ds, b) && Body(a.result) == Body(b.result) && Reads(ds, store, day, a)
    ensures Reads(ds, store, day, b)
  {
    var stored :| LatestDay(ds, store, day, stored) && Holds(ds, store, stored, a);
    SameBodyHolds(ds, store, stored, a, b);
  }

  /** One more run that writes its day. */
  lemma ChangedReads(ds: Dataset, digest: Digest, store: Store, runs: seq<Run>, run: Run, day: int)
    requires runs != [] && "symbol" in ds.ident && Lossless(ds, digest, store, runs)
    requires AllDayRuns(ds, runs)
    requires DayRun(ds, run) && runs[0].day <= day && runs[|runs| - 1].day <= run.day
    requires Changes(ds, digest, store, run) && NothingStale(ds, store, run)
    ensures Reads(ds, After(ds, digest, store, run), day, if run.day <= day then run else LastRunBy(runs, day))
  {
    var after, read := After(ds, digest, store, run), LastRunBy(runs, day);
    ChangedRun(ds, digest, store, run);
    if run.day <= day {
      assert LatestDay(ds, after, day, run.day);
    } else {
      LastRunIsOneOf(runs, day);
      assert Reads(ds, store, day, read);
      var stored :| LatestDay(ds, store, day, stored) && Holds(ds, store, stored, read);
      LatestTransfers(ds, store, after, day, stored);
      HoldsTransfers(ds, store, after, stored, read);
    }
  }

  lemma LatestAfterUnchanged(ds: Dataset, digest: Digest, store: Store, run: Run, last: int, stored: int)
    requires DayRun(ds, run) && !Changes(ds, digest, store, run) && last <= run.day
    requires LatestDay(ds, store, last, stored) && forall day :: HasDay(ds, store, day) ==> day <= last
    ensures LatestDay(ds, After(ds, digest, store, run), run.day, stored)
  {
    var after := After(ds, digest, store, run);
    UnchangedRun(ds, digest, store, run);
    forall other ensures HasDay(ds, after, other) <==> HasDay(ds, store, other) {
      SameTablesSameDays(ds, store, after, other);
    }
  }

  lemma GateKeepsRemembering(ds: Dataset, digest: Digest, store: Store, firstSeen: Value, last: Run, run: Run)
    requires "symbol" in ds.ident && Remembers(ds, digest, store, firstSeen, last)
    requires TablesKeyed(ds, store)
    requires DaysUpTo(ds, store, last.day)
    requires DayRun(ds, run) && last.day <= run.day
    ensures Remembers(ds, digest, After(ds, digest, store, run), firstSeen, run)
  {
    var stored :| Get(TableOf(store, GATE_TABLE)[GateKey(ds)], "as_of_date") == Int(stored)
                  && LatestDay(ds, store, last.day, stored);
    LatestAfterRun(ds, digest, store, run, last.day, stored);
    GateRowAfter(ds, digest, store, run);
  }

  lemma LatestAfterRun(ds: Dataset, digest: Digest, store: Store, run: Run, last: int, stored: int)
    requires TablesKeyed(ds, store)
    requires DaysUpTo(ds, store, last)
    requires DayRun(ds, run) && last <= run.day
    requires LatestDay(ds, store, last, stored)
    ensures LatestDay(ds, After(ds, digest, store, run), run.day, if Changes(ds, digest, store, run) then run.day
        else stored)
  {
    if Changes(ds, digest, store, run) {
      RunDayStored(ds, digest, store, run);
    } else {
      LatestAfterUnchanged(ds, digest, store, run, last, stored);
    }
  }

  /** One more run: the tables stay lossless exactly if, in case it writes, it replaces its day. */
  lemma NextRunLosslessIff(ds: Dataset, digest: Digest, store: Store, runs: seq<Run>, run: Run)
    requires runs != [] && "symbol" in ds.ident && Lossless(ds, digest, store, runs) && AllDayRuns(ds, runs)
    requires DayRun(ds, run) && runs[|runs| - 1].day <= run.day && CollisionFree(digest)
    ensures Lossless(ds, digest, After(ds, digest, store, run), runs + [run]) <==> Replaces(ds, digest, store, run)
  {
    if Replaces(ds, digest, store, run) {
      NextRunLossless(ds, digest, store, runs, run);
    }
    if Lossless(ds, digest, After(ds, digest, store, run), runs + [run]) && Changes(ds, digest, store, run) {
      LosslessRunReplaces(ds, digest, store, runs, run);
    }
  }

  lemma LosslessRunReplaces(ds: Dataset, digest: Digest, store: Store, runs: seq<Run>, run: Run)
    requires runs != [] && "symbol" in ds.ident && TablesKeyed(ds, store)
    requires DayRun(ds, run) && runs[0].day <= run.day && Changes(ds, digest, store, run)
    requires Lossless(ds, digest, After(ds, digest, store, run), runs + [run])
    ensures NothingStale(ds, store, run)
  {
    var all, after := runs + [run], After(ds, digest, store, run);
    assert LastRunBy(all, run.day) == run;
    assert Reads(ds, after, run.day, run);
    var day :| LatestDay(ds, after, run.day, day) && Holds(ds, after, day, run);
    ChangedRun(ds, digest, store, run);
    assert day == run.day;
  }

  ghost predicate AllDayRuns(ds: Dataset, runs: seq<Run>) {
    forall run :: run in runs ==> DayRun(ds, run)
  }

  lemma NextRunLossless(ds: Dataset, digest: Digest, store: Store, runs: seq<Run>, run: Run)
    requires runs != [] && "symbol" in ds.ident && Lossless(ds, digest, store, runs) && AllDayRuns(ds, runs)
    requires DayRun(ds, run) && runs[|runs| - 1].day <= run.day
    requires Replaces(ds, digest, store, run) && CollisionFree(digest)
    ensures Lossless(ds, digest, After(ds, digest, store, run), runs + [run])
  {
    NextRunReads(ds, digest, store, runs, run);
    GateKeepsRemembering(ds, digest, store, runs[0].fetchedAt, runs[|runs| - 1], run);
    RunKeepsKeyed(ds, digest, store, run);
    NoLaterDays(ds, digest, store, runs[|runs| - 1].day, run);
  }

  lemma NoLaterDays(ds: Dataset, digest: Digest, store: Store, last: int, run: Run)
    requires DayRun(ds, run) && TablesKeyed(ds, store) && last <= run.day
    requires DaysUpTo(ds, store, last)
    ensures DaysUpTo(ds, After(ds, digest, store, run), run.day)
  {
    forall day | HasDay(ds, After(ds, digest, store, run), day) ensures day <= run.day {
      NoLaterDay(ds, digest, store, last, run, day);
    }
  }

  lemma NoLaterDay(ds: Dataset, digest: Digest, store: Store, last: int, run: Run, day: int)
    requires DayRun(ds, run) && TablesKeyed(ds, store) && last <= run.day
    requires HasDay(ds, store, day) ==> day <= last
    requires HasDay(ds, After(ds, digest, store, run), day)
    ensures day <= run.day
  {
    if Changes(ds, digest, store, run) {
      ChangedRun(ds, digest, store, run);
    } else {
      UnchangedRun(ds, digest, store, run);
      SameTablesSameDays(ds, store, After(ds, digest, store, run), day);
    }
  }

  lemma NextRunReads(ds: Dataset, digest: Digest, store: Store, runs: seq<Run>, run: Run)
    requires runs != [] && "symbol" in ds.ident && Lossless(ds, digest, store, runs) && AllDayRuns(ds, runs)
    requires DayRun(ds, run) && runs[|runs| - 1].day <= run.day
    requires Replaces(ds, digest, store, run) && CollisionFree(digest)
    ensures AllRead(ds, After(ds, digest, store, run), runs + [run])
  {
    forall day | runs[0].day <= day
      ensures Reads(ds, After(ds, digest, store, run), day, LastRunBy(runs + [run], day))
    {
      LastRunOfLonger(runs, run, day);
      NextRunReadsAt(ds, digest, store, runs, run, day);
    }
  }

  lemma LastRunOfLonger(runs: seq<Run>, run: Run, day: int)
    requires runs != [] && runs[0].day <= day
    ensures LastRunBy(runs + [run], day) == if run.day <= day then run else LastRunBy(runs, day)
  {
    var all := runs + [run];
    assert all[..|all| - 1] == runs;
  }

  lemma NextRunReadsAt(ds: Dataset, digest: Digest, store: Store, runs: seq<Run>, run: Run, day: int)
    requires runs != [] && "symbol" in ds.ident && Lossless(ds, digest, store, runs) && AllDayRuns(ds, runs)
    requires DayRun(ds, run) && runs[0].day <= day && runs[|runs| - 1].day <= run.day
    requires Replaces(ds, digest, store, run) && CollisionFree(digest)
    ensures Reads(ds, After(ds, digest, store, run), day, if run.day <= day then run else LastRunBy(runs, day))
  {
    if Changes(ds, digest, store, run) {
      ChangedReads(ds, digest, store, runs, run, day);
    } else {
      UnchangedReads(ds, digest, store, runs, run, day);
    }
  }

  // ------------------------------------------------------------ all the runs

  /** Runs on non-decreasing days. */
  ghost predicate DaysInOrder(ds: Dataset, runs: seq<Run>) {
    runs == [] ||
    var n := |runs| - 1;
    && DaysInOrder(ds, runs[..n])
    && DayRun(ds, runs[n])
    && (n > 0 ==> runs[n - 1].day <= runs[n].day)
  }

  /** Every run that writes replaces what an earlier run of its day left. */
  ghost predicate AllReplace(ds: Dataset, digest: Digest, store: Store, runs: seq<Run>) {
    runs == [] ||
    var n := |runs| - 1;
    && AllReplace(ds, digest, store, runs[..n])
    && Replaces(ds, digest, AfterAll(ds, digest, store, runs[..n]), runs[n])
  }

  /** The tables are lossless after each of the runs. */
  ghost predicate AlwaysLossless(ds: Dataset, digest: Digest, store: Store, runs: seq<Run>)
    requires "symbol" in ds.ident
  {
    runs == [] ||
    (AlwaysLossless(ds, digest, store, runs[..|runs| - 1])
        && Lossless(ds, digest, AfterAll(ds, digest, store, runs), runs))
  }

  lemma {:induction false} DaysInOrderAreDayRuns(ds: Dataset, runs: seq<Run>)
    requires DaysInOrder(ds, runs)
    ensures AllDayRuns(ds, runs)
  {
    if runs != [] {
      DaysInOrderAreDayRuns(ds, runs[..|runs| - 1]);
      assert runs == runs[..|runs| - 1] + [runs[|runs| - 1]];
    }
  }

  /** The definitions, one run at a time. */
  lemma {:induction false} OneRunMore(ds: Dataset, digest: Digest, store: Store, runs: seq<Run>)
    requires runs != [] && "symbol" in ds.ident
    ensures var init, last := runs[..|runs| - 1], runs[|runs| - 1];
      var before := AfterAll(ds, digest, store, init);
      && runs == init + [last] && AfterAll(ds, digest, store, runs) == After(ds, digest, before, last)
      && (AlwaysLossless(ds, digest, store, runs) <==>
            AlwaysLossless(ds, digest, store, init)
            && Lossless(ds, digest, After(ds, digest, before, last), init + [last]))
      && (AllReplace(ds, digest, store, runs) <==>
            AllReplace(ds, digest, store, init) && Replaces(ds, digest, before, last))
  {
    assert runs == runs[..|runs| - 1] + [runs[|runs| - 1]];
  }

  lemma StepIff(ds: Dataset, digest: Digest, before: Store, init: seq<Run>, last: Run)
    requires CollisionFree(digest) && DayRun(ds, last) && AllDayRuns(ds, init)
    requires if init == [] then Untouched(ds, before)
             else Lossless(ds, digest, before, init) && init[|init| - 1].day <= last.day
    ensures Lossless(ds, digest, After(ds, digest, before, last), init + [last]) <==> Replaces(ds, digest, before, last)
  {
    if init == [] {
      assert init + [last] == [last];
      FirstRunLossless(ds, digest, before, last);
    } else {
      NextRunLosslessIff(ds, digest, before, init, last);
    }
  }

  /**
   As-of storage is lossless after each of any runs on non-decreasing days, refreshing or not,
   exactly if every run that writes replaces its day.
   */
  lemma {:induction false} RunsAreLosslessIff(ds: Dataset, digest: Digest, store: Store, runs: seq<Run>)
    requires Untouched(ds, store) && CollisionFree(digest) && DaysInOrder(ds, runs)
    ensures AlwaysLossless(ds, digest, store, runs) <==> AllReplace(ds, digest, store, runs)
  {
    if runs != [] {
      var init, last := runs[..|runs| - 1], runs[|runs| - 1];
      RunsAreLosslessIff(ds, digest, store, init);
      OneRunMore(ds, digest, store, runs);
      StepAfterRuns(ds, digest, store, init, last);
    }
  }

  lemma {:induction false} StepAfterRuns(ds: Dataset, digest: Digest, store: Store, init: seq<Run>, last: Run)
    requires Untouched(ds, store) && CollisionFree(digest) && DaysInOrder(ds, init) && DayRun(ds, last)
    requires init != [] ==> init[|init| - 1].day <= last.day
    ensures var before := AfterAll(ds, digest, store, init);
      AlwaysLossless(ds, digest, store, init) ==>
        (Lossless(ds, digest, After(ds, digest, before, last), init + [last]) <==> Replaces(ds, digest, before, last))
  {
    DaysInOrderAreDayRuns(ds, init);
    if AlwaysLossless(ds, digest, store, init) {
      if init != [] { AlwaysMeansLast(ds, digest, store, init); }
      StepIff(ds, digest, AfterAll(ds, digest, store, init), init, last);
    }
  }

  lemma {:induction false} AlwaysMeansLast(ds: Dataset, digest: Digest, store: Store, runs: seq<Run>)
    requires "symbol" in ds.ident && runs != [] && AlwaysLossless(ds, digest, store, runs)
    ensures Lossless(ds, digest, AfterAll(ds, digest, store, runs), runs)
  {
  }

  /**
   So reading the latest stored day up to any day gives the content that the last run by then
   fetched.
   */
  lemma RunsAreLossless(ds: Dataset, digest: Digest, store: Store, runs: seq<Run>)
    requires Untouched(ds, store) && CollisionFree(digest)
    requires runs != [] && DaysInOrder(ds, runs) && AllReplace(ds, digest, store, runs)
    ensures AllDayRuns(ds, runs)
    ensures Lossless(ds, digest, AfterAll(ds, digest, store, runs), runs)
  {
    DaysInOrderAreDayRuns(ds, runs);
    RunsAreLosslessIff(ds, digest, store, runs);
    AlwaysMeansLast(ds, digest, store, runs);
  }
}

/**
 The as-of gate of src/yfin/datasets/asof_base.py, on the symbol axis: data tables are keyed
 by day and written only when the hashed body changed; a gate row remembers the hash.
 */
module AsOfGate {
  import opened Wrappers
  import opened Storage
  import opened Datasets
  import opened AsOfBody

  const GATE_TABLE := "asof_state"
  const GATE_KEY_COLUMNS: seq<string> := ["symbol", "dataset"]
  const GATE_UPDATE_COLUMNS: seq<string> := ["as_of_date", "content_hash", "row_count", "fetched_at"]
  const UNCHANGED_UPDATE_COLUMNS: seq<string> := ["fetched_at"]

  datatype GateError = NoGateSource

  /** A body's digest; the hash function is a parameter of the model. */
  type Digest = seq<Section> -> string

  /** What a gated dataset declares. */
  datatype Gate = Gate(name: string, sourceTables: seq<string>)

  /** `by_table`: the rows of the last write that names the table. */
  function RowsOf(writes: seq<TableWrite>, table: string): seq<Row> {
    if writes == [] then []
    else if writes[|writes| - 1].table == table then writes[|writes| - 1].rows
    else RowsOf(writes[..|writes| - 1], table)
  }

  /** The first row of the first declared table that has rows. */
  function FirstRow(tables: seq<string>, writes: seq<TableWrite>): Option<Row> {
    if tables == [] then None
    else if RowsOf(writes, tables[0]) != [] then Some(RowsOf(writes, tables[0])[0])
    else FirstRow(tables[1..], writes)
  }

  function Identity(gate: Gate, first: Row): Key {
    [Get(first, "symbol"), Str(gate.name)]
  }

  function TotalRows(writes: seq<TableWrite>): nat {
    if writes == [] then 0 else TotalRows(writes[..|writes| - 1]) + |writes[|writes| - 1].rows|
  }

  function NewGateRow(gate: Gate, first: Row, writes: seq<TableWrite>, digest: string): Row {
    map["symbol" := Get(first, "symbol"),
        "dataset" := Str(gate.name),
        "as_of_date" := Get(first, "as_of_date"),
        "content_hash" := Str(digest),
        "row_count" := Int(TotalRows(writes)),
        "first_seen_at" := Get(first, "fetched_at"),
        "fetched_at" := Get(first, "fetched_at")]
  }

  function GateWrite(gate: Gate, first: Row, writes: seq<TableWrite>, digest: string, matched: bool): TableWrite {
    TableWrite(GATE_TABLE, [NewGateRow(gate, first, writes, digest)], GATE_KEY_COLUMNS,
               if matched then UNCHANGED_UPDATE_COLUMNS else GATE_UPDATE_COLUMNS,
               Upsert, ["symbol"], None)
  }

  /** The stored hash is the result's. */
  predicate Unchanged(gate: Gate, digest: Digest, store: Store, result: NormalizedResult, fullRefresh: bool) {
    var first := FirstRow(gate.sourceTables, result.writes);
    && !fullRefresh && first.Some?
    && StoredHash(store, GATE_TABLE, Identity(gate, first.value)) == Some(Str(digest(Body(result))))
  }

  /** The tables after `upsert`; a result without a gate source raises, late if refreshing. */
  function Gated(gate: Gate, digest: Digest, store: Store, result: NormalizedResult, fullRefresh: bool): Store {
    var first := FirstRow(gate.sourceTables, result.writes);
    if result.IsEmpty() then store
    else if first.None? then (if fullRefresh then WrittenAll(store, result.writes) else store)
    else
      var matched := Unchanged(gate, digest, store, result, fullRefresh);
      Written(if matched then store else WrittenAll(store, result.writes),
              GateWrite(gate, first.value, result.writes, digest(Body(result)), matched))
  }

  /** A write that is not made: its rows are skipped, a target without rows stays listed. */
  function Skipped(stats: Stats, w: TableWrite): Stats {
    if w.rows != [] then stats.(skipped := Added(stats.skipped, w.table, |w.rows|))
    else stats.(attempted := Kept(stats.attempted, w.table), verified := Kept(stats.verified, w.table))
  }

  function SkippedAll(stats: Stats, writes: seq<TableWrite>): Stats {
    if writes == [] then stats else Skipped(SkippedAll(stats, writes[..|writes| - 1]), writes[|writes| - 1])
  }

  function GatedStats(gate: Gate, digest: Digest, store: Store, result: NormalizedResult, fullRefresh: bool): Stats
    requires !result.IsEmpty() ==> FirstRow(gate.sourceTables, result.writes).Some?
  {
    var first := FirstRow(gate.sourceTables, result.writes);
    if result.IsEmpty() then Fresh(result)
    else
      var matched := Unchanged(gate, digest, store, result, fullRefresh);
      Counted(if matched then SkippedAll(Fresh(result), result.writes) else CountedAll(Fresh(result), result.writes),
              GateWrite(gate, first.value, result.writes, digest(Body(result)), matched))
  }

  /** `gate_row`. */
  method GateRow(gate: Gate, result: NormalizedResult) returns (row: Option<Row>)
    ensures row == FirstRow(gate.sourceTables, result.writes)
  {
    var i := 0;
    while i < |gate.sourceTables|
      invariant 0 <= i <= |gate.sourceTables|
      invariant FirstRow(gate.sourceTables[i..], result.writes) == FirstRow(gate.sourceTables, result.writes)
    {
      var rows := RowsOf(result.writes, gate.sourceTables[i]);
      assert gate.sourceTables[i..][1..] == gate.sourceTables[i + 1..];
      if rows != [] {
        return Some(rows[0]);
      }
      i := i + 1;
    }
    return None;
  }

  /** `AsOfGate.upsert`. */
  method GatedUpsert(gate: Gate, digest: Digest, writer: RowWriter, result: NormalizedResult, fullRefresh: bool)
    returns (r: Result<WriteStats, GateError>)
    modifies writer
    ensures writer.tables == Gated(gate, digest, old(writer.tables), result, fullRefresh)
    ensures r.Raised? <==> !result.IsEmpty() && FirstRow(gate.sourceTables, result.writes).None?
    ensures r.Ok? ==> fresh(r.value)
    ensures r.Ok? ==> r.value.View() == GatedStats(gate, digest, old(writer.tables), result, fullRefresh)
  {
    var stats := new WriteStats(result.skipped);
    if result.IsEmpty() {
      return Ok(stats);
    }
    var payload := BuildBody(result);
    var hash := digest(payload);
    var matched := false;
    var first := GateRow(gate, result);
    if !fullRefresh {
      if first.None? {
        return Raised(NoGateSource);
      }
      var current := writer.CurrentHash(GATE_TABLE, Identity(gate, first.value));
      matched := current == Some(Str(hash));
    }
    if matched {
      SkipAll(result.writes, stats);
    } else {
      ApplyAll(writer, result.writes, stats);
    }
    if first.None? {
      return Raised(NoGateSource);
    }
    ApplyWrite(writer, GateWrite(gate, first.value, result.writes, hash, matched), stats);
    return Ok(stats);
  }

  /** The unchanged branch: rows are counted as skipped, a target without rows stays listed. */
  method SkipAll(writes: seq<TableWrite>, stats: WriteStats)
    modifies stats
    ensures stats.View() == SkippedAll(old(stats.View()), writes)
  {
    ghost var from := stats.View();
    var i := 0;
    while i < |writes|
      invariant 0 <= i <= |writes|
      invariant stats.View() == SkippedAll(from, writes[..i])
    {
      var w := writes[i];
      assert writes[..i + 1][..i] == writes[..i];
      if w.rows != [] {
        stats.skipped := Added(stats.skipped, w.table, |w.rows|);
      } else {
        stats.attempted := Kept(stats.attempted, w.table);
        stats.verified := Kept(stats.verified, w.table);
      }
      i := i + 1;
    }
    assert writes[..i] == writes;
  }

  // ------------------------------------------------------------- the gate's row

  /** The last write that names the table is write `i`. */
  ghost predicate LastNamed(writes: seq<TableWrite>, table: string, i: int) {
    0 <= i < |writes| && writes[i].table == table && forall j :: i < j < |writes| ==> writes[j].table != table
  }

  ghost predicate Carries(writes: seq<TableWrite>, table: string) {
    exists i :: LastNamed(writes, table, i) && writes[i].rows != []
  }

  /** The row stands first in the write of table `t`, and no table declared before has a row. */
  ghost predicate IsSource(tables: seq<string>, writes: seq<TableWrite>, row: Row, t: int) {
    && 0 <= t < |tables|
    && (exists i :: LastNamed(writes, tables[t], i) && writes[i].rows != [] && writes[i].rows[0] == row)
    && forall s :: 0 <= s < t ==> !Carries(writes, tables[s])
  }

  lemma {:induction false} RowsOfLast(writes: seq<TableWrite>, table: string)
    ensures forall i :: LastNamed(writes, table, i) ==> RowsOf(writes, table) == writes[i].rows
    ensures RowsOf(writes, table) != [] <==> Carries(writes, table)
  {
    if writes != [] {
      var n := |writes| - 1;
      if writes[n].table == table {
        assert LastNamed(writes, table, n);
        assert forall i :: LastNamed(writes, table, i) ==> i == n;
      } else {
        RowsOfLast(writes[..n], table);
        forall i ensures LastNamed(writes, table, i) <==> LastNamed(writes[..n], table, i) {
          LastNamedBefore(writes, table, i);
        }
      }
    }
  }

  lemma LastNamedBefore(writes: seq<TableWrite>, table: string, i: int)
    requires writes != [] && writes[|writes| - 1].table != table
    ensures LastNamed(writes, table, i) <==> LastNamed(writes[..|writes| - 1], table, i)
    ensures LastNamed(writes, table, i) ==> writes[..|writes| - 1][i] == writes[i]
  {
    var init := writes[..|writes| - 1];
    assert forall j :: 0 <= j < |init| ==> init[j] == writes[j];
  }

  /** The gate row is taken from the first row of the first declared table that carries rows, if one does. */
  lemma {:induction false} GateRowIsFirst(tables: seq<string>, writes: seq<TableWrite>)
    ensures FirstRow(tables, writes).Some? <==> exists t :: 0 <= t < |tables| && Carries(writes, tables[t])
    ensures FirstRow(tables, writes).Some? ==> exists t :: IsSource(tables, writes, FirstRow(tables, writes).value, t)
  {
    if tables != [] {
      RowsOfLast(writes, tables[0]);
      if RowsOf(writes, tables[0]) != [] {
        var i :| LastNamed(writes, tables[0], i) && writes[i].rows != [];
        assert IsSource(tables, writes, writes[i].rows[0], 0);
      } else {
        var rest := tables[1..];
        GateRowIsFirst(rest, writes);
        assert forall t :: 0 <= t < |rest| ==> rest[t] == tables[t + 1];
        if FirstRow(rest, writes).Some? {
          var t :| IsSource(rest, writes, FirstRow(rest, writes).value, t);
          LaterSource(tables, writes, FirstRow(rest, writes).value, t);
        } else {
          assert forall t :: 0 <= t < |tables| && Carries(writes, tables[t]) ==> t > 0 && Carries(writes, rest[t - 1]);
        }
      }
    }
  }

  lemma LaterSource(tables: seq<string>, writes: seq<TableWrite>, row: Row, t: int)
    requires tables != [] && !Carries(writes, tables[0]) && IsSource(tables[1..], writes, row, t)
    ensures IsSource(tables, writes, row, t + 1) && Carries(writes, tables[t + 1])
  {
    forall s | 0 <= s < t + 1 ensures !Carries(writes, tables[s]) {
      if s > 0 { assert tables[1..][s - 1] == tables[s]; }
    }
  }

  /** The rows of a result, by write and place. */
  function Places(writes: seq<TableWrite>): set<(int, int)> {
    set i, k | 0 <= i < |writes| && 0 <= k < |writes[i].rows| :: (i, k)
  }

  function PlacesOf(i: int, rows: int): set<(int, int)> {
    set k | 0 <= k < rows :: (i, k)
  }

  lemma {:induction false} PlacesCount(i: int, rows: nat)
    ensures |PlacesOf(i, rows)| == rows
  {
    if rows > 0 {
      PlacesCount(i, rows - 1);
      assert PlacesOf(i, rows) == PlacesOf(i, rows - 1) + {(i, rows - 1)};
    }
  }

  /** The row count is the number of rows in all writes. */
  lemma {:induction false} RowCountIsExact(writes: seq<TableWrite>)
    ensures TotalRows(writes) == |Places(writes)|
  {
    if writes != [] {
      var n := |writes| - 1;
      var init := writes[..n];
      RowCountIsExact(init);
      PlacesCount(n, |writes[n].rows|);
      assert forall i :: 0 <= i < n ==> init[i] == writes[i];
      assert Places(writes) == Places(init) + PlacesOf(n, |writes[n].rows|);
      assert Places(init) !! PlacesOf(n, |writes[n].rows|);
    }
  }

  // --------------------------------------------------------------- accounting

  lemma {:induction false} SkippedRows(stats: Stats, writes: seq<TableWrite>, table: string)
    ensures var after := SkippedAll(stats, writes);
      && Count(after.skipped, table) == Count(stats.skipped, table) + RowsFor(writes, table)
      && Count(after.attempted, table) == Count(stats.attempted, table)
      && Count(after.verified, table) == Count(stats.verified, table)
  {
    if writes != [] {
      SkippedRows(stats, writes[..|writes| - 1], table);
    }
  }

  lemma {:induction false} SkippedTables(stats: Stats, writes: seq<TableWrite>, table: string)
    ensures SkippedAll(stats, writes).Lists(table)
       <==> stats.Lists(table) || exists i :: 0 <= i < |writes| && writes[i].table == table
  {
    if writes != [] {
      var n := |writes| - 1;
      SkippedTables(stats, writes[..n], table);
      if i :| 0 <= i < |writes| && writes[i].table == table {
        if i < n { assert writes[..n][i].table == table; }
      }
      if i :| 0 <= i < n && writes[..n][i].table == table {
        assert writes[i].table == table;
      }
    }
  }

  /** Written or skipped, every proposed row is counted once and every target stays listed. */
  lemma GateConservesRows(gate: Gate, digest: Digest, store: Store, result: NormalizedResult, fullRefresh: bool,
                          table: string)
    requires KeysApart(result.writes) && table != GATE_TABLE
    requires !result.IsEmpty() && FirstRow(gate.sourceTables, result.writes).Some?
    ensures var stats := GatedStats(gate, digest, store, result, fullRefresh);
      && Count(stats.attempted, table) + (Count(stats.skipped, table) - Count(result.skipped, table))
         == RowsFor(result.writes, table)
      && Count(stats.verified, table) == Count(stats.attempted, table)
      && (stats.Lists(table) <==>
            table in result.skipped || exists i :: 0 <= i < |result.writes| && result.writes[i].table == table)
  {
    var first := FirstRow(gate.sourceTables, result.writes);
    var matched := Unchanged(gate, digest, store, result, fullRefresh);
    var stats0 := Fresh(result);
    SkippedRows(stats0, result.writes, table);
    SkippedTables(stats0, result.writes, table);
    CountedRows(stats0, result.writes, table);
    CountedTables(stats0, result.writes, table);
  }

  // ------------------------------------------------------------ what is stored

  /** The row has the identity's cells and the day. */
  ghost predicate At(row: Row, ident: Row, day: int) {
    && (forall column :: column in ident ==> Get(row, column) == ident[column])
    && Get(row, "as_of_date") == Int(day)
  }

  /** What a reader sees of a row that does not move on every run. */
  function Visible(row: Row): Row {
    map column | column in row && column !in VOLATILE_COLUMNS && row[column] != Null :: row[column]
  }

  /** The content of one day of a table. */
  ghost function Content(table: Table, ident: Row, day: int): set<Row> {
    set key | key in table && At(table[key], ident, day) :: Visible(table[key])
  }

  ghost function Proposed(w: TableWrite): set<Row> {
    set i | 0 <= i < |w.rows| :: Visible(w.rows[i])
  }

  /**
   A write of one day's rows: keys name the day and the identity and nothing else volatile,
   rows and deleted scopes lie on the day.
   */
  ghost predicate DayWrite(w: TableWrite, ident: Row, day: int) {
    && "as_of_date" in w.keyColumns && (forall column :: column in ident ==> column in w.keyColumns)
    && (forall column :: column in w.keyColumns && column in VOLATILE_COLUMNS ==> column == "as_of_date")
    && DistinctKeys(w.rows, w.keyColumns)
    && (forall i :: 0 <= i < |w.rows| ==> At(w.rows[i], ident, day))
    && (w.mode.ReplaceScope? ==>
          && "as_of_date" in w.scopeColumns && (forall column :: column in ident ==> column in w.scopeColumns)
          && (w.scopeValues.Some? ==>
                forall i :: 0 <= i < |w.scopeValues.value| ==> At(w.scopeValues.value[i], ident, day)))
  }

  /** A stored row of the day that the write leaves behind, or updates only in part. */
  ghost predicate Stale(table: Table, w: TableWrite, ident: Row, day: int, key: Key) {
    && key in Cleared(table, w) && At(table[key], ident, day)
    && (key in Incoming(w) ==>
          exists column :: column !in VOLATILE_COLUMNS && column !in ToSet(w.updateColumns) * Incoming(w)[key].Keys
                           && Get(table[key], column) != Get(Incoming(w)[key], column))
  }

  lemma VisibleCells(a: Row, b: Row)
    ensures Visible(a) == Visible(b) <==> forall column :: column !in VOLATILE_COLUMNS ==>
        Get(a, column) == Get(b, column)
  {
    if Visible(a) == Visible(b) {
      forall column | column !in VOLATILE_COLUMNS ensures Get(a, column) == Get(b, column) {
        assert column in Visible(a) <==> column in Visible(b);
        if column in Visible(a) {
          assert Visible(a)[column] == a[column] && Visible(b)[column] == b[column];
        }
      }
    }
    if forall column :: column !in VOLATILE_COLUMNS ==> Get(a, column) == Get(b, column) {
      forall column ensures column in Visible(a) <==> column in Visible(b) {
        assert column !in VOLATILE_COLUMNS ==> Get(a, column) == Get(b, column);
      }
      forall column | column in Visible(a) ensures Visible(a)[column] == Visible(b)[column] {
        assert Get(a, column) == Get(b, column);
      }
    }
  }

  /** The visible part of a row leaves out the three times and the day, and NULLs, and nothing else. */
  lemma VisibleIsData(a: Row, b: Row)
    ensures Visible(a) == Visible(b)
       <==> forall column :: column !in {"fetched_at", "first_seen_at", "last_seen_at", "as_of_date"} ==>
              Get(a, column) == Get(b, column)
  {
    VisibleCells(a, b);
  }

  /** On one day, rows that look alike have the same key. */
  lemma VisibleKey(a: Row, b: Row, ident: Row, day: int, keyColumns: seq<string>)
    requires At(a, ident, day) && At(b, ident, day) && Visible(a) == Visible(b)
    requires forall column :: column in keyColumns && column in VOLATILE_COLUMNS ==> column == "as_of_date"
    ensures Project(a, keyColumns) == Project(b, keyColumns)
  {
    VisibleCells(a, b);
    forall k | 0 <= k < |keyColumns| ensures Get(a, keyColumns[k]) == Get(b, keyColumns[k]) {
      assert keyColumns[k] in keyColumns;
    }
  }

  lemma AtTransfers(a: Row, b: Row, ident: Row, day: int, columns: seq<string>)
    requires Project(a, columns) == Project(b, columns) && At(a, ident, day)
    requires "as_of_date" in columns && forall column :: column in ident ==> column in columns
    ensures At(b, ident, day)
  {
    SameProject(a, b, columns);
  }

  /** Only rows of the day can be deleted or overwritten. */
  lemma OtherRowsKept(table: Table, w: TableWrite, ident: Row, day: int, key: Key)
    requires Keyed(table, w.keyColumns) && DayWrite(w, ident, day)
    ensures key in table && !At(table[key], ident, day) ==>
              key in WrittenTable(table, w) && WrittenTable(table, w)[key] == table[key]
    ensures key in WrittenTable(table, w) && !At(WrittenTable(table, w)[key], ident, day) ==>
              key in table && WrittenTable(table, w)[key] == table[key]
  {
    if key in table && key !in Cleared(table, w) {
      var values := if w.scopeValues.Some? then w.scopeValues.value else w.rows;
      var i :| 0 <= i < |values| && Project(values[i], w.scopeColumns) == Project(table[key], w.scopeColumns);
      AtTransfers(values[i], table[key], ident, day, w.scopeColumns);
    }
    if key in Incoming(w) {
      BatchRow(w.rows, w.keyColumns, Columns(w.rows), key);
      var i :| 0 <= i < |w.rows| && Project(w.rows[i], w.keyColumns) == key
               && Incoming(w)[key] == Aligned(w.rows[i], Columns(w.rows));
      WriteKeepsKeyed(table, w);
      AtTransfers(w.rows[i], WrittenTable(table, w)[key], ident, day, w.keyColumns);
      if key in table {
        AtTransfers(w.rows[i], table[key], ident, day, w.keyColumns);
      }
    }
  }

  /** A proposed row is stored, on the day; it reads as proposed unless its key is stale. */
  lemma ProposedRowAfter(table: Table, w: TableWrite, ident: Row, day: int, i: nat)
    requires Keyed(table, w.keyColumns) && DayWrite(w, ident, day) && i < |w.rows|
    ensures var key, after := Project(w.rows[i], w.keyColumns), WrittenTable(table, w);
      && key in Incoming(w) && key in after && At(after[key], ident, day)
      && (Visible(after[key]) == Visible(w.rows[i]) <==> !Stale(table, w, ident, day, key))
  {
    var key, after := Project(w.rows[i], w.keyColumns), WrittenTable(table, w);
    IncomingRow(w, i);
    WriteKeepsKeyed(table, w);
    AtTransfers(w.rows[i], after[key], ident, day, w.keyColumns);
    VisibleCells(after[key], w.rows[i]);
    forall column ensures Get(Incoming(w)[key], column) == Get(w.rows[i], column) {
      AlignedCell(w.rows, i, column);
    }
    if key in Cleared(table, w) {
      AtTransfers(w.rows[i], table[key], ident, day, w.keyColumns);
      forall column ensures Get(after[key], column)
        == if column in ToSet(w.updateColumns) * Incoming(w)[key].Keys then Get(w.rows[i], column)
          else Get(table[key], column)
      {
        OverlaidCell(table[key], Incoming(w)[key], ToSet(w.updateColumns), column);
      }
    }
  }

  /** Any other row of the day that survives the write is stale. */
  lemma DayRowAfter(table: Table, w: TableWrite, ident: Row, day: int, key: Key)
    requires Keyed(table, w.keyColumns) && DayWrite(w, ident, day)
    requires key in WrittenTable(table, w) && At(WrittenTable(table, w)[key], ident, day)
    ensures if key in Incoming(w) then exists i :: 0 <= i < |w.rows| && Project(w.rows[i], w.keyColumns) == key
            else Stale(table, w, ident, day, key) && WrittenTable(table, w)[key] == table[key]
  {
    if key in Incoming(w) {
      BatchRow(w.rows, w.keyColumns, Columns(w.rows), key);
    }
  }

  /** A write leaves exactly its rows on the day if and only if no row of the day goes stale. */
  lemma DayIsReplacedIff(table: Table, w: TableWrite, ident: Row, day: int)
    requires Keyed(table, w.keyColumns) && DayWrite(w, ident, day)
    ensures Content(WrittenTable(table, w), ident, day) == Proposed(w)
       <==> forall key :: !Stale(table, w, ident, day, key)
  {
    var after := WrittenTable(table, w);
    var content := Content(after, ident, day);
    if forall key :: !Stale(table, w, ident, day, key) {
      forall row | row in Proposed(w) ensures row in content {
        var i :| 0 <= i < |w.rows| && Visible(w.rows[i]) == row;
        ProposedRowAfter(table, w, ident, day, i);
      }
      forall row | row in content ensures row in Proposed(w) {
        var key :| key in after && At(after[key], ident, day) && Visible(after[key]) == row;
        DayRowAfter(table, w, ident, day, key);
        var i :| 0 <= i < |w.rows| && Project(w.rows[i], w.keyColumns) == key;
        ProposedRowAfter(table, w, ident, day, i);
      }
    }
    if key :| Stale(table, w, ident, day, key) {
      StaleShows(table, w, ident, day, key);
    }
  }

  lemma StaleShows(table: Table, w: TableWrite, ident: Row, day: int, key: Key)
    requires Keyed(table, w.keyColumns) && DayWrite(w, ident, day) && Stale(table, w, ident, day, key)
    ensures key in WrittenTable(table, w) && At(WrittenTable(table, w)[key], ident, day)
    ensures Visible(WrittenTable(table, w)[key]) !in Proposed(w)
  {
    var after := WrittenTable(table, w);
    WriteKeepsKeyed(table, w);
    assert key in after;
    AtTransfers(table[key], after[key], ident, day, w.keyColumns);
    if Visible(after[key]) in Proposed(w) {
      var j :| 0 <= j < |w.rows| && Visible(w.rows[j]) == Visible(after[key]);
      VisibleKey(w.rows[j], after[key], ident, day, w.keyColumns);
      ProposedRowAfter(table, w, ident, day, j);
    }
  }

  /** A scope of the identity and the day, as the fund tables state it, leaves nothing stale. */
  lemma DayScopeLeavesNothingStale(table: Table, w: TableWrite, ident: Row, day: int, key: Key)
    requires w.mode.ReplaceScope? && w.scopeValues.Some?
    requires exists i :: 0 <= i < |w.scopeValues.value| && At(w.scopeValues.value[i], ident, day)
    requires forall column :: column in w.scopeColumns ==> column in ident || column == "as_of_date"
    ensures !Stale(table, w, ident, day, key)
  {
    var i :| 0 <= i < |w.scopeValues.value| && At(w.scopeValues.value[i], ident, day);
    var value := w.scopeValues.value[i];
    if key in table && At(table[key], ident, day) {
      forall k | 0 <= k < |w.scopeColumns| ensures Get(table[key], w.scopeColumns[k]) == Get(value, w.scopeColumns[k]) {
        assert w.scopeColumns[k] in w.scopeColumns;
      }
      assert Project(table[key], w.scopeColumns) == Project(value, w.scopeColumns);
    }
  }

  /** So does a scope for each category, if the stored row's category is one of them. */
  lemma CategoryScopeLeavesNothingStale(table: Table, w: TableWrite, ident: Row, day: int, key: Key, category: string,
                                        i: nat)
    requires w.mode.ReplaceScope? && w.scopeValues.Some? && i < |w.scopeValues.value|
    requires forall column :: column in w.scopeColumns ==>
        column in ident || column == "as_of_date" || column == category
    requires At(w.scopeValues.value[i], ident, day)
    requires key in table && At(table[key], ident, day) ==>
        Get(table[key], category) == Get(w.scopeValues.value[i], category)
    ensures !Stale(table, w, ident, day, key)
  {
    var value := w.scopeValues.value[i];
    if key in table && At(table[key], ident, day) {
      forall k | 0 <= k < |w.scopeColumns| ensures Get(table[key], w.scopeColumns[k]) == Get(value, w.scopeColumns[k]) {
        assert w.scopeColumns[k] in w.scopeColumns;
      }
      assert Project(table[key], w.scopeColumns) == Project(value, w.scopeColumns);
    }
  }

  /** So does one upserted row keyed by identity and day that updates every other column. */
  lemma OneRowLeavesNothingStale(table: Table, w: TableWrite, ident: Row, day: int, key: Key)
    requires Keyed(table, w.keyColumns) && DayWrite(w, ident, day) && w.mode.Upsert? && |w.rows| == 1
    requires forall column :: column in w.keyColumns ==> column in ident || column == "as_of_date"
    requires forall column :: column in w.rows[0] && column !in VOLATILE_COLUMNS ==>
               column in w.keyColumns || column in w.updateColumns
    requires key in table && At(table[key], ident, day) ==> table[key].Keys <= w.rows[0].Keys
    ensures !Stale(table, w, ident, day, key)
  {
    if key in table && At(table[key], ident, day) {
      var row := w.rows[0];
      forall k | 0 <= k < |w.keyColumns| ensures Get(table[key], w.keyColumns[k]) == Get(row, w.keyColumns[k]) {
        assert w.keyColumns[k] in w.keyColumns;
      }
      assert Project(table[key], w.keyColumns) == Project(row, w.keyColumns) == key;
      IncomingRow(w, 0);
      forall column | column !in VOLATILE_COLUMNS && column !in ToSet(w.updateColumns) * Incoming(w)[key].Keys
        ensures Get(table[key], column) == Get(Incoming(w)[key], column)
      {
        AlignedCell(w.rows, 0, column);
        assert column in row ==> column in Incoming(w)[key];
        if column in w.keyColumns {
          SameProject(table[key], row, w.keyColumns);
        }
      }
    }
  }

  // ------------------------------------------------------------- what is shown

  ghost predicate InSomeRow<T(!new)>(table: Table, ident: Row, day: int, item: T, cells: (Row, T) -> bool) {
    exists key :: key in table && At(table[key], ident, day) && cells(table[key], item)
  }

  ghost predicate IsSomeItem<T(!new)>(row: Row, items: seq<T>, cells: (Row, T) -> bool) {
    exists i :: 0 <= i < |items| && cells(row, items[i])
  }

  /** The rows of the day show these items: each item in some row, and in each row some item. */
  ghost predicate Shows<T(!new)>(table: Table, ident: Row, day: int, items: seq<T>, cells: (Row, T) -> bool) {
    && (forall i :: 0 <= i < |items| ==> InSomeRow(table, ident, day, items[i], cells))
    && (forall key :: key in table && At(table[key], ident, day) ==> IsSomeItem(table[key], items, cells))
  }

  lemma ShownWhenHeld<T(!new)>(table: Table, ident: Row, day: int, w: TableWrite, items: seq<T>, cells: (Row,
                                                                                                         T) -> bool)
    requires Content(table, ident, day) == Proposed(w) && |w.rows| == |items|
    requires forall i, row :: 0 <= i < |items| && Visible(row) == Visible(w.rows[i]) ==> cells(row, items[i])
    ensures Shows(table, ident, day, items, cells)
  {
    forall i | 0 <= i < |items| ensures InSomeRow(table, ident, day, items[i], cells) {
      assert Visible(w.rows[i]) in Proposed(w);
      var key :| key in table && At(table[key], ident, day) && Visible(table[key]) == Visible(w.rows[i]);
      assert cells(table[key], items[i]);
    }
    forall key | key in table && At(table[key], ident, day) ensures IsSomeItem(table[key], items, cells) {
      assert Visible(table[key]) in Proposed(w);
      var i :| 0 <= i < |w.rows| && Visible(w.rows[i]) == Visible(table[key]);
      assert cells(table[key], items[i]);
    }
  }
}

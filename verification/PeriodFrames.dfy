/**
 Period-indexed analyst frames, of src/yfin/datasets/analysis/base.py: one row for each period
 label, upserted without a delete, behind the as-of gate.
 */
module PeriodFrames {
  import opened Wrappers
  import opened Storage
  import opened Datasets
  import opened AsOfBody
  import opened AsOfGate
  import opened AsOfHistory

  /** What a period dataset declares; `values` are those of the constants. */
  datatype Frame = Frame(name: string, table: string, constants: seq<string>, values: Row, columns: seq<string>)
  {
    function KeyColumns(): seq<string> {
      ["symbol", "as_of_date"] + constants + ["period"]
    }

    function UpdateColumns(): seq<string> {
      columns + ["fetched_at"]
    }

    /** The rows of this dataset: the symbol's, with the constants. */
    function Ident(symbol: string): Row {
      values["symbol" := Str(symbol)]
    }
  }

  const RESERVED: set<string> := VOLATILE_COLUMNS + {"symbol", "period"}

  ghost predicate WellNamed(f: Frame) {
    && f.table != GATE_TABLE && f.values.Keys == ToSet(f.constants)
    && (forall column :: column in f.constants ==> column !in RESERVED)
  }

  /** A row of the frame that has a period label and its required cells. */
  datatype Record = Record(period: string, cells: Row)

  /** One fetch of a frame for a symbol; the last record of a period has won. */
  datatype Fetch = Fetch(symbol: string, day: int, fetchedAt: Value, records: seq<Record>, fullRefresh: bool)

  ghost predicate PeriodsApart(records: seq<Record>) {
    forall i, j :: 0 <= i < j < |records| ==> records[i].period != records[j].period
  }

  ghost predicate HasPeriod(records: seq<Record>, period: string) {
    exists i :: 0 <= i < |records| && records[i].period == period
  }

  function FrameRow(f: Frame, fetch: Fetch, record: Record): Row {
    map column | column in ToSet(f.KeyColumns() + f.UpdateColumns()) ::
      if column == "symbol" then Str(fetch.symbol)
      else if column == "as_of_date" then Int(fetch.day)
      else if column == "period" then Str(record.period)
      else if column == "fetched_at" then fetch.fetchedAt
      else if column in f.values then f.values[column]
      else Get(record.cells, column)
  }

  function FrameRows(f: Frame, fetch: Fetch): seq<Row> {
    seq(|fetch.records|, i requires 0 <= i < |fetch.records| => FrameRow(f, fetch, fetch.records[i]))
  }

  /** The write of `normalize`: a plain upsert. */
  function FrameWrite(f: Frame, fetch: Fetch): TableWrite {
    TableWrite(f.table, FrameRows(f, fetch), f.KeyColumns(), f.UpdateColumns(), Upsert, ["symbol"], None)
  }

  function FrameRun(f: Frame, fetch: Fetch): Run {
    Run(NormalizedResult([FrameWrite(f, fetch)], map[]), fetch.day, fetch.fetchedAt, fetch.fullRefresh)
  }

  function FrameData(f: Frame, symbol: string): AsOfHistory.Dataset {
    AsOfHistory.Dataset(Gate(f.name, [f.table]), f.Ident(symbol), map[f.table := f.KeyColumns()])
  }

  // ------------------------------------------------------------ the columns

  lemma NamesDiffer()
    ensures "symbol" !in VOLATILE_COLUMNS && "period" !in VOLATILE_COLUMNS && "symbol" != "period"
  {
    assert |"symbol"| == 6 && |"period"| == 6 && "symbol"[0] == 's' && "period"[0] == 'p';
  }

  lemma KeyMembers(f: Frame, column: string)
    ensures column in f.KeyColumns() <==>
              column == "symbol" || column == "as_of_date" || column == "period" || column in f.constants
  {
    var key := f.KeyColumns();
    assert key[0] == "symbol" && key[1] == "as_of_date" && key[|key| - 1] == "period";
    if column in f.constants {
      var i :| 0 <= i < |f.constants| && f.constants[i] == column;
      assert key[i + 2] == column;
    }
  }

  lemma RowCells(f: Frame, fetch: Fetch, record: Record)
    requires WellNamed(f)
    ensures At(FrameRow(f, fetch, record), f.Ident(fetch.symbol), fetch.day)
    ensures Get(FrameRow(f, fetch, record), "period") == Str(record.period)
    ensures Get(FrameRow(f, fetch, record), "fetched_at") == fetch.fetchedAt
  {
    NamesDiffer();
    var key, update := f.KeyColumns(), f.UpdateColumns();
    var row := FrameRow(f, fetch, record);
    assert update[|update| - 1] == "fetched_at";
    KeyMembers(f, "as_of_date");
    KeyMembers(f, "period");
    assert "fetched_at" in key + update && "as_of_date" in key + update && "period" in key + update;
    forall column | column in f.Ident(fetch.symbol) ensures Get(row, column) == f.Ident(fetch.symbol)[column] {
      KeyMembers(f, column);
      assert column in key + update;
    }
  }

  lemma RowKey(f: Frame, fetch: Fetch, record: Record)
    requires WellNamed(f)
    ensures var key := Project(FrameRow(f, fetch, record), f.KeyColumns());
      |key| >= 3 && key[|key| - 1] == Str(record.period)
  {
    RowCells(f, fetch, record);
    assert f.KeyColumns()[|f.KeyColumns()| - 1] == "period";
  }

  /** Two rows of one symbol and day have the same key exactly if they have the same period. */
  lemma SamePeriodSameKey(f: Frame, a: Fetch, b: Fetch, r: Record, s: Record)
    requires WellNamed(f) && a.symbol == b.symbol && a.day == b.day
    ensures Project(FrameRow(f, a, r), f.KeyColumns()) == Project(FrameRow(f, b, s), f.KeyColumns())
        <==> r.period == s.period
  {
    RowKey(f, a, r);
    RowKey(f, b, s);
    if r.period == s.period {
      forall column | column in f.KeyColumns() ensures Get(FrameRow(f, a, r), column)
        == Get(FrameRow(f, b, s), column) {
        KeyMembers(f, column);
        NamesDiffer();
        assert column in f.KeyColumns() + f.UpdateColumns();
      }
    }
  }

  lemma FrameDayWrite(f: Frame, fetch: Fetch)
    requires WellNamed(f) && PeriodsApart(fetch.records)
    ensures DayWrite(FrameWrite(f, fetch), f.Ident(fetch.symbol), fetch.day)
  {
    var w := FrameWrite(f, fetch);
    KeyMembers(f, "as_of_date");
    forall column | column in f.Ident(fetch.symbol) ensures column in w.keyColumns {
      KeyMembers(f, column);
    }
    forall column | column in w.keyColumns && column in VOLATILE_COLUMNS ensures column == "as_of_date" {
      KeyMembers(f, column);
      NamesDiffer();
    }
    forall i, j | 0 <= i < j < |w.rows| ensures Project(w.rows[i], w.keyColumns) != Project(w.rows[j], w.keyColumns) {
      SamePeriodSameKey(f, fetch, fetch, fetch.records[i], fetch.records[j]);
    }
    forall i | 0 <= i < |w.rows| ensures At(w.rows[i], f.Ident(fetch.symbol), fetch.day) {
      RowCells(f, fetch, fetch.records[i]);
    }
  }

  lemma FrameDayRun(f: Frame, fetch: Fetch)
    requires WellNamed(f) && PeriodsApart(fetch.records) && fetch.records != []
    ensures DayRun(FrameData(f, fetch.symbol), FrameRun(f, fetch))
  {
    var ds, run := FrameData(f, fetch.symbol), FrameRun(f, fetch);
    var writes := run.result.writes;
    FrameDayWrite(f, fetch);
    RowCells(f, fetch, fetch.records[0]);
    assert writes[0].table == f.table;
    assert FirstRow([f.table], writes) == Some(FrameRow(f, fetch, fetch.records[0]));
  }

  // ------------------------------------------------------ what a day's rows show

  /** The row has the record's period and, in every data column of the frame, its cell. */
  ghost predicate RecordCells(f: Frame, row: Row, record: Record) {
    && Get(row, "period") == Str(record.period)
    && forall column :: column in f.columns && column !in RESERVED && column !in f.constants ==>
      Get(row, column) == Get(record.cells, column)
  }

  lemma RecordIsShown(f: Frame, fetch: Fetch, record: Record, row: Row)
    requires WellNamed(f) && Visible(row) == Visible(FrameRow(f, fetch, record))
    ensures RecordCells(f, row, record)
  {
    VisibleCells(row, FrameRow(f, fetch, record));
    RowCells(f, fetch, record);
    NamesDiffer();
    forall column | column in f.columns && column !in RESERVED && column !in f.constants
      ensures Get(row, column) == Get(record.cells, column)
    {
      DataCell(f, fetch, record, column);
    }
  }

  lemma DataCell(f: Frame, fetch: Fetch, record: Record, column: string)
    requires WellNamed(f) && column in f.columns && column !in RESERVED && column !in f.constants
    ensures Get(FrameRow(f, fetch, record), column) == Get(record.cells, column) && column !in VOLATILE_COLUMNS
  {
    var i :| 0 <= i < |f.columns| && f.columns[i] == column;
    assert (f.KeyColumns() + f.UpdateColumns())[|f.KeyColumns()| + i] == column;
  }

  /** A day that holds a run has a row for each of its records, cell by cell, and no other row of the frame. */
  lemma HeldDayShowsRecords(f: Frame, store: Store, fetch: Fetch, day: int)
    requires WellNamed(f) && AsOfHistory.Holds(FrameData(f, fetch.symbol), store, day, FrameRun(f, fetch))
    ensures Shows(TableOf(store, f.table), f.Ident(fetch.symbol), day, fetch.records,
                  (row, record) => RecordCells(f, row, record))
  {
    var w := FrameWrite(f, fetch);
    assert FrameRun(f, fetch).result.writes[0] == w;
    forall i, row | 0 <= i < |fetch.records| && Visible(row) == Visible(w.rows[i])
      ensures RecordCells(f, row, fetch.records[i])
    {
      RecordIsShown(f, fetch, fetch.records[i], row);
    }
    ShownWhenHeld(TableOf(store, f.table), f.Ident(fetch.symbol), day, w, fetch.records,
                  (row, record) => RecordCells(f, row, record));
  }

  // --------------------------------------------------- a second run of the day

  /** No row of the dataset is in the table. */
  ghost predicate NoRows(f: Frame, table: Table, symbol: string) {
    Keyed(table, f.KeyColumns()) && forall key, day :: key in table ==> !At(table[key], f.Ident(symbol), day)
  }

  /** What an upsert into a table without the dataset's rows leaves of them. */
  lemma FirstRunRows(f: Frame, table: Table, fetch: Fetch, key: Key)
    requires WellNamed(f) && PeriodsApart(fetch.records) && NoRows(f, table, fetch.symbol)
    ensures var after := WrittenTable(table, FrameWrite(f, fetch));
      key in after && At(after[key], f.Ident(fetch.symbol), fetch.day)
      <==> exists i :: 0 <= i < |fetch.records| && key == Project(FrameRow(f, fetch, fetch.records[i]), f.KeyColumns())
  {
    var after := WrittenTable(table, FrameWrite(f, fetch));
    if key in after && At(after[key], f.Ident(fetch.symbol), fetch.day) {
      OnlyIncoming(f, table, fetch, key);
      FirstRunRow(f, fetch, key);
    }
    if i :| 0 <= i < |fetch.records| && key == Project(FrameRow(f, fetch, fetch.records[i]), f.KeyColumns()) {
      RecordIsStored(f, table, fetch, i);
    }
  }

  lemma OnlyIncoming(f: Frame, table: Table, fetch: Fetch, key: Key)
    requires WellNamed(f) && PeriodsApart(fetch.records) && NoRows(f, table, fetch.symbol)
    requires var after := WrittenTable(table, FrameWrite(f, fetch));
      key in after && At(after[key], f.Ident(fetch.symbol), fetch.day)
    ensures key in Incoming(FrameWrite(f, fetch))
  {
    FrameDayWrite(f, fetch);
    DayRowAfter(table, FrameWrite(f, fetch), f.Ident(fetch.symbol), fetch.day, key);
  }

  lemma RecordIsStored(f: Frame, table: Table, fetch: Fetch, i: nat)
    requires WellNamed(f) && PeriodsApart(fetch.records) && NoRows(f, table, fetch.symbol) && i < |fetch.records|
    ensures var key, after := Project(FrameRow(f, fetch, fetch.records[i]), f.KeyColumns()),
        WrittenTable(table, FrameWrite(f, fetch));
      key in after && At(after[key], f.Ident(fetch.symbol), fetch.day)
  {
    FrameDayWrite(f, fetch);
    ProposedRowAfter(table, FrameWrite(f, fetch), f.Ident(fetch.symbol), fetch.day, i);
  }

  lemma FirstRunRow(f: Frame, fetch: Fetch, key: Key)
    requires key in Incoming(FrameWrite(f, fetch))
    ensures exists i :: 0 <= i < |fetch.records| && key == Project(FrameRow(f, fetch, fetch.records[i]), f.KeyColumns())
  {
    var rows := FrameRows(f, fetch);
    BatchRow(rows, f.KeyColumns(), Columns(rows), key);
    var i :| 0 <= i < |rows| && Project(rows[i], f.KeyColumns()) == key;
    assert rows[i] == FrameRow(f, fetch, fetch.records[i]);
  }

  /** Every column that may differ between two rows of a period is updated. */
  lemma NotStaleIfProposed(f: Frame, table: Table, fetch: Fetch, key: Key)
    requires Keyed(table, f.KeyColumns()) && fetch.records != []
    requires key in table && table[key].Keys == ToSet(f.KeyColumns() + f.UpdateColumns())
    requires key in Incoming(FrameWrite(f, fetch))
    ensures !Stale(table, FrameWrite(f, fetch), f.Ident(fetch.symbol), fetch.day, key)
  {
    var w := FrameWrite(f, fetch);
    IncomingKeyed(w);
    IncomingKeys(f, fetch, key);
    forall column | column !in VOLATILE_COLUMNS && column !in ToSet(w.updateColumns) * Incoming(w)[key].Keys
      ensures Get(table[key], column) == Get(Incoming(w)[key], column)
    {
      SameCell(f, table[key], Incoming(w)[key], column);
    }
  }

  lemma IncomingKeys(f: Frame, fetch: Fetch, key: Key)
    requires fetch.records != [] && key in Incoming(FrameWrite(f, fetch))
    ensures Incoming(FrameWrite(f, fetch))[key].Keys == ToSet(f.KeyColumns() + f.UpdateColumns())
  {
    var rows := FrameRows(f, fetch);
    BatchRow(rows, f.KeyColumns(), Columns(rows), key);
    FrameColumns(f, fetch);
  }

  lemma SameCell(f: Frame, a: Row, b: Row, column: string)
    requires a.Keys == b.Keys == ToSet(f.KeyColumns() + f.UpdateColumns())
    requires Project(a, f.KeyColumns()) == Project(b, f.KeyColumns())
    requires column !in ToSet(f.UpdateColumns()) * b.Keys
    ensures Get(a, column) == Get(b, column)
  {
    if column in f.KeyColumns() { SameProject(a, b, f.KeyColumns()); }
  }

  /** All rows of a frame have the same columns. */
  lemma FrameColumns(f: Frame, fetch: Fetch)
    requires fetch.records != []
    ensures Columns(FrameRows(f, fetch)) == ToSet(f.KeyColumns() + f.UpdateColumns())
  {
    var rows, all := FrameRows(f, fetch), ToSet(f.KeyColumns() + f.UpdateColumns());
    assert rows[0].Keys == all;
    forall k | 0 <= k < |rows| ensures rows[k].Keys == all {
      assert rows[k] == FrameRow(f, fetch, fetch.records[k]);
    }
  }

  /** The day's rows of the first run go stale in the second one exactly if their period is gone. */
  lemma StaleIff(f: Frame, table: Table, first: Fetch, second: Fetch, key: Key)
    requires WellNamed(f) && PeriodsApart(first.records) && PeriodsApart(second.records)
    requires first.symbol == second.symbol && first.day == second.day && NoRows(f, table, first.symbol)
    ensures var stored := WrittenTable(table, FrameWrite(f, first));
      Stale(stored, FrameWrite(f, second), f.Ident(first.symbol), first.day, key)
      <==> exists i :: 0 <= i < |first.records| && key == Project(FrameRow(f, first, first.records[i]), f.KeyColumns())
                       && !HasPeriod(second.records, first.records[i].period)
  {
    var stored, w, ident := WrittenTable(table, FrameWrite(f, first)), FrameWrite(f, second), f.Ident(first.symbol);
    FirstRunRows(f, table, first, key);
    FrameDayWrite(f, first);
    WriteKeepsKeyed(table, FrameWrite(f, first));
    forall i | 0 <= i < |first.records| && key == Project(FrameRow(f, first, first.records[i]), f.KeyColumns())
      ensures Stale(stored, w, ident, first.day, key) <==> !HasPeriod(second.records, first.records[i].period)
    {
      ProposedIffPeriod(f, first, second, i);
      if key in Incoming(w) {
        FirstRowColumns(f, table, first, i);
        NotStaleIfProposed(f, stored, second, key);
      }
    }
  }

  /** The second run proposes the key of a first run's row exactly if it has its period. */
  lemma ProposedIffPeriod(f: Frame, first: Fetch, second: Fetch, i: nat)
    requires WellNamed(f) && first.symbol == second.symbol && first.day == second.day && i < |first.records|
    ensures Project(FrameRow(f, first, first.records[i]), f.KeyColumns()) in Incoming(FrameWrite(f, second))
       <==> HasPeriod(second.records, first.records[i].period)
  {
    var w, key := FrameWrite(f, second), Project(FrameRow(f, first, first.records[i]), f.KeyColumns());
    BatchKeys(w.rows, w.keyColumns, Columns(w.rows));
    assert key in Incoming(w) <==> key in KeysOf(w.rows, w.keyColumns);
    forall j | 0 <= j < |second.records|
      ensures Project(w.rows[j], w.keyColumns) == key <==> second.records[j].period == first.records[i].period
    {
      SamePeriodSameKey(f, first, second, first.records[i], second.records[j]);
    }
    if HasPeriod(second.records, first.records[i].period) {
      var j :| 0 <= j < |second.records| && second.records[j].period == first.records[i].period;
      assert Project(w.rows[j], w.keyColumns) == key;
    }
  }

  lemma FirstRowColumns(f: Frame, table: Table, fetch: Fetch, i: nat)
    requires WellNamed(f) && PeriodsApart(fetch.records) && NoRows(f, table, fetch.symbol) && i < |fetch.records|
    ensures var key, after := Project(FrameRow(f, fetch, fetch.records[i]), f.KeyColumns()),
        WrittenTable(table, FrameWrite(f, fetch));
      key in after && after[key].Keys == ToSet(f.KeyColumns() + f.UpdateColumns())
  {
    var w := FrameWrite(f, fetch);
    var key := Project(w.rows[i], w.keyColumns);
    IncomingColumns(f, fetch, i);
    NotStoredBefore(f, table, fetch, i);
    PutFresh(table, Incoming(w), ToSet(w.updateColumns), key);
  }

  lemma IncomingColumns(f: Frame, fetch: Fetch, i: nat)
    requires WellNamed(f) && PeriodsApart(fetch.records) && i < |fetch.records|
    ensures var key := Project(FrameRow(f, fetch, fetch.records[i]), f.KeyColumns());
      key in Incoming(FrameWrite(f, fetch)) && Incoming(FrameWrite(f, fetch))[key].Keys
        == ToSet(f.KeyColumns() + f.UpdateColumns())
  {
    FrameDayWrite(f, fetch);
    IncomingRow(FrameWrite(f, fetch), i);
    FrameColumns(f, fetch);
  }

  lemma NotStoredBefore(f: Frame, table: Table, fetch: Fetch, i: nat)
    requires WellNamed(f) && NoRows(f, table, fetch.symbol) && i < |fetch.records|
    ensures Project(FrameRow(f, fetch, fetch.records[i]), f.KeyColumns()) !in table
  {
    var row := FrameRow(f, fetch, fetch.records[i]);
    var key := Project(row, f.KeyColumns());
    if key in table {
      RowCells(f, fetch, fetch.records[i]);
      KeyMembers(f, "as_of_date");
      forall column | column in f.Ident(fetch.symbol) ensures column in f.KeyColumns() {
        KeyMembers(f, column);
      }
      AtTransfers(row, table[key], f.Ident(fetch.symbol), fetch.day, f.KeyColumns());
    }
  }

  lemma PutFresh(table: Table, batch: Table, columns: set<string>, key: Key)
    requires key in batch && key !in table
    ensures key in Put(table, batch, columns) && Put(table, batch, columns)[key] == batch[key]
  {
  }

  /** Every period of the first fetch is in the second one. */
  ghost predicate PeriodsKept(first: Fetch, second: Fetch) {
    forall i :: 0 <= i < |first.records| ==> HasPeriod(second.records, first.records[i].period)
  }

  /** Two fetches of one symbol on one day, neither empty, no period twice. */
  ghost predicate SameDay(f: Frame, first: Fetch, second: Fetch) {
    && WellNamed(f) && PeriodsApart(first.records) && PeriodsApart(second.records)
    && first.records != [] && second.records != [] && first.symbol == second.symbol && first.day == second.day
  }

  /**
   Two runs of the gate on one day: storage is lossless after the second one exactly if no period
   of the first one is missing from it.
   */
  lemma SecondRunIff(f: Frame, digest: Digest, store: Store, first: Fetch, second: Fetch)
    requires SameDay(f, first, second) && Untouched(FrameData(f, first.symbol), store) && CollisionFree(digest)
    ensures Lossless(FrameData(f, first.symbol), digest, AfterFirst(f, digest, store, first), [FrameRun(f, first)])
    ensures Lossless(FrameData(f, first.symbol), digest, AfterBoth(f, digest, store, first, second),
                     [FrameRun(f, first)] + [FrameRun(f, second)])
       <==> PeriodsKept(first, second)
  {
    FirstIsLossless(f, digest, store, first);
    SecondIsLosslessIff(f, digest, AfterFirst(f, digest, store, first), first, second);
    SecondRunReplacesIff(f, digest, store, first, second);
  }

  function AfterFirst(f: Frame, digest: Digest, store: Store, first: Fetch): Store {
    After(FrameData(f, first.symbol), digest, store, FrameRun(f, first))
  }

  function AfterBoth(f: Frame, digest: Digest, store: Store, first: Fetch, second: Fetch): Store {
    After(FrameData(f, first.symbol), digest, AfterFirst(f, digest, store, first), FrameRun(f, second))
  }

  lemma FirstIsLossless(f: Frame, digest: Digest, store: Store, first: Fetch)
    requires WellNamed(f) && PeriodsApart(first.records) && first.records != []
    requires Untouched(FrameData(f, first.symbol), store)
    ensures Lossless(FrameData(f, first.symbol), digest, AfterFirst(f, digest, store, first), [FrameRun(f, first)])
  {
    FrameDayRun(f, first);
    FirstRunLossless(FrameData(f, first.symbol), digest, store, FrameRun(f, first));
  }

  lemma SecondIsLosslessIff(f: Frame, digest: Digest, stored: Store, first: Fetch, second: Fetch)
    requires SameDay(f, first, second) && CollisionFree(digest)
    requires Lossless(FrameData(f, first.symbol), digest, stored, [FrameRun(f, first)])
    ensures var ds, run2 := FrameData(f, first.symbol), FrameRun(f, second);
      Lossless(ds, digest, After(ds, digest, stored, run2), [FrameRun(f, first)] + [run2])
      <==> Replaces(ds, digest, stored, run2)
  {
    FrameDayRun(f, first);
    FrameDayRun(f, second);
    StepIff(FrameData(f, first.symbol), digest, stored, [FrameRun(f, first)], FrameRun(f, second));
  }

  /** If the second run writes nothing, its body and so its periods are the first run's. */
  lemma SecondRunReplacesIff(f: Frame, digest: Digest, store: Store, first: Fetch, second: Fetch)
    requires SameDay(f, first, second) && Untouched(FrameData(f, first.symbol), store) && CollisionFree(digest)
    requires Lossless(FrameData(f, first.symbol), digest,
                      AfterFirst(f, digest, store, first), [FrameRun(f, first)])
    ensures Replaces(FrameData(f, first.symbol), digest,
                     AfterFirst(f, digest, store, first), FrameRun(f, second))
       <==> PeriodsKept(first, second)
  {
    var ds, run1, run2 := FrameData(f, first.symbol), FrameRun(f, first), FrameRun(f, second);
    var stored := After(ds, digest, store, run1);
    SecondRunStaleIff(f, digest, store, first, second);
    if !Changes(ds, digest, stored, run2) {
      FrameDayRun(f, second);
      UnchangedMeansSameBody(ds, digest, stored, run1, run2);
      SameBodyKeepsPeriods(f, first, second);
    }
  }

  lemma UnchangedMeansSameBody(ds: AsOfHistory.Dataset, digest: Digest, stored: Store, last: Run, run: Run)
    requires DayRun(ds, run) && CollisionFree(digest) && Lossless(ds, digest, stored, [last])
    requires !Changes(ds, digest, stored, run)
    ensures Body(last.result) == Body(run.result)
  {
    UnchangedHash(ds, digest, stored, run);
    assert Remembers(ds, digest, stored, last.fetchedAt, last);
  }

  /** Equal bodies have equal periods. */
  lemma SameBodyKeepsPeriods(f: Frame, first: Fetch, second: Fetch)
    requires SameDay(f, first, second) && Body(FrameRun(f, first).result) == Body(FrameRun(f, second).result)
    ensures PeriodsKept(first, second)
  {
    var a, b := FrameRun(f, first).result, FrameRun(f, second).result;
    BodyKeepsRows(a, b, 0, 0);
    var rows, others := StrippedRows(FrameRows(f, first)), StrippedRows(FrameRows(f, second));
    forall i | 0 <= i < |first.records| ensures HasPeriod(second.records, first.records[i].period) {
      assert rows[i] in multiset(rows) && rows[i] in multiset(others);
      var k :| 0 <= k < |others| && others[k] == rows[i];
      StrippedPeriod(f, first, i);
      StrippedPeriod(f, second, k);
      assert second.records[k].period == first.records[i].period;
    }
  }

  lemma StrippedPeriod(f: Frame, fetch: Fetch, i: nat)
    requires WellNamed(f) && i < |fetch.records|
    ensures Get(StrippedRows(FrameRows(f, fetch))[i], "period") == Str(fetch.records[i].period)
  {
    NamesDiffer();
    RowCells(f, fetch, fetch.records[i]);
  }

  /** The table before and after the first run. */
  lemma FirstRunTable(f: Frame, digest: Digest, store: Store, first: Fetch)
    requires WellNamed(f) && PeriodsApart(first.records) && first.records != []
    requires Untouched(FrameData(f, first.symbol), store)
    ensures TableOf(AfterFirst(f, digest, store, first), f.table)
         == WrittenTable(TableOf(store, f.table), FrameWrite(f, first))
    ensures NoRows(f, TableOf(store, f.table), first.symbol)
  {
    var ds, run := FrameData(f, first.symbol), FrameRun(f, first);
    FrameDayRun(f, first);
    var _ := GateSource(ds, run);
    DataAfter(ds, digest, store, run, 0);
    assert run.result.writes[0] == FrameWrite(f, first) && f.table in ds.keys;
    NothingOfFrame(f, store, first.symbol);
  }

  lemma NothingOfFrame(f: Frame, store: Store, symbol: string)
    requires Untouched(FrameData(f, symbol), store)
    ensures NoRows(f, TableOf(store, f.table), symbol)
  {
    var ds := FrameData(f, symbol);
    assert f.table in ds.keys;
    forall k, day | k in TableOf(store, f.table) ensures !At(TableOf(store, f.table)[k], f.Ident(symbol), day) {
      if At(TableOf(store, f.table)[k], f.Ident(symbol), day) { RowMeansDay(ds, store, f.table, k, day); }
    }
  }

  lemma SecondRunStaleIff(f: Frame, digest: Digest, store: Store, first: Fetch, second: Fetch)
    requires SameDay(f, first, second) && Untouched(FrameData(f, first.symbol), store)
    ensures NothingStale(FrameData(f, first.symbol), AfterFirst(f, digest, store, first), FrameRun(f, second))
       <==> PeriodsKept(first, second)
  {
    var ds := FrameData(f, first.symbol);
    var table, stored := TableOf(store, f.table), After(ds, digest, store, FrameRun(f, first));
    FirstRunTable(f, digest, store, first);
    NoneStaleIff(f, table, first, second);
    var writes := FrameRun(f, second).result.writes;
    assert writes == [FrameWrite(f, second)];
    assert NothingStale(ds, stored, FrameRun(f, second)) <==>
      NoneStale(TableOf(stored, f.table), writes[0], f.Ident(first.symbol), first.day);
  }

  lemma NoneStaleIff(f: Frame, table: Table, first: Fetch, second: Fetch)
    requires SameDay(f, first, second) && NoRows(f, table, first.symbol)
    ensures NoneStale(WrittenTable(table, FrameWrite(f, first)), FrameWrite(f, second), f.Ident(first.symbol),
        first.day)
       <==> PeriodsKept(first, second)
  {
    var stored, w := WrittenTable(table, FrameWrite(f, first)), FrameWrite(f, second);
    if PeriodsKept(first, second) {
      forall key ensures !Stale(stored, w, f.Ident(first.symbol), first.day, key) {
        StaleIff(f, table, first, second, key);
      }
    } else {
      var i :| 0 <= i < |first.records| && !HasPeriod(second.records, first.records[i].period);
      var key := Project(FrameRow(f, first, first.records[i]), f.KeyColumns());
      StaleIff(f, table, first, second, key);
    }
  }

  // -------------------------------------------------- a period that vanishes

  /** The recommendations dataset is such a frame. */
  const RECOMMENDATIONS: Frame :=
    Frame("recommendations", "analyst_recommendations", [], map[], ["strong_buy", "buy", "hold", "sell", "strong_sell"])

  lemma RecommendationsAreWellNamed(symbol: string)
    ensures WellNamed(RECOMMENDATIONS) && Untouched(FrameData(RECOMMENDATIONS, symbol), map[])
  {
    assert |RECOMMENDATIONS.table| != |GATE_TABLE|;
  }

  /** A second fetch of the day without one of the two periods of the first. */
  ghost predicate Drops(first: Fetch, second: Fetch, kept: Record, dropped: Record) {
    && kept.period != dropped.period && first.symbol == second.symbol && first.day == second.day
    && first.records == [kept, dropped] && second.records == [kept]
  }

  lemma DroppedIsNotKept(f: Frame, first: Fetch, second: Fetch, kept: Record, dropped: Record)
    requires WellNamed(f) && Drops(first, second, kept, dropped)
    ensures SameDay(f, first, second) && !PeriodsKept(first, second)
  {
    assert !HasPeriod(second.records, first.records[1].period);
  }

  /** It leaves that period's row behind: storage is lossless after the first run, not after the second. */
  lemma DroppedPeriodStays(f: Frame, digest: Digest, store: Store, first: Fetch, second: Fetch, kept: Record,
                           dropped: Record)
    requires WellNamed(f) && Untouched(FrameData(f, first.symbol), store) && CollisionFree(digest)
    requires Drops(first, second, kept, dropped)
    ensures Lossless(FrameData(f, first.symbol), digest, AfterFirst(f, digest, store, first), [FrameRun(f, first)])
    ensures !Lossless(FrameData(f, first.symbol), digest, AfterBoth(f, digest, store, first, second),
                      [FrameRun(f, first)] + [FrameRun(f, second)])
  {
    DroppedIsNotKept(f, first, second, kept, dropped);
    SecondRunIff(f, digest, store, first, second);
  }
}

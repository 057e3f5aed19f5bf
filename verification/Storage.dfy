/**
 The write contract of src/yfin/storage/contracts.py and what the writer of
 src/yfin/storage/persistence.py does to the tables, without change collection.

 A table is a map from primary key to row; a column that a row does not list is NULL.
 Dates and timestamps are integers.
 */
module Storage {
  import opened Wrappers

  datatype Value = Null | Bool(b: bool) | Int(n: int) | Str(text: string)

  type Row = map<string, Value>
  type Key = seq<Value>
  type Table = map<Key, Row>
  type Store = map<string, Table>

  const VOLATILE_COLUMNS: set<string> := {"fetched_at", "first_seen_at", "last_seen_at", "as_of_date"}

  datatype WriteMode = Upsert | ReplaceScope

  /** A scope value lists the scope columns; `None` derives the scope from the rows. */
  datatype TableWrite = TableWrite(
    table: string, rows: seq<Row>, keyColumns: seq<string>, updateColumns: seq<string>,
    mode: WriteMode, scopeColumns: seq<string>, scopeValues: Option<seq<Row>>)

  function Get(row: Row, column: string): Value {
    if column in row then row[column] else Null
  }

  function Project(row: Row, columns: seq<string>): (key: Key)
    ensures |key| == |columns|
  {
    seq(|columns|, i requires 0 <= i < |columns| => Get(row, columns[i]))
  }

  function TableOf(store: Store, name: string): Table {
    if name in store then store[name] else map[]
  }

  function ToSet<T>(xs: seq<T>): set<T> {
    set x | x in xs
  }

  // -------------------------------------------------------------------- write

  function Columns(rows: seq<Row>): set<string> {
    set i, column | 0 <= i < |rows| && column in rows[i] :: column
  }

  /** `align_rows` for one row: a column that only other rows have becomes NULL. */
  function Aligned(row: Row, columns: set<string>): Row {
    map column | column in columns :: Get(row, column)
  }

  /** `dedupe_rows` over aligned rows: one row per key, the last one wins. */
  function Batch(rows: seq<Row>, keyColumns: seq<string>, columns: set<string>): Table {
    if rows == [] then map[]
    else
      var last := rows[|rows| - 1];
      Batch(rows[..|rows| - 1], keyColumns, columns)[Project(last, keyColumns) := Aligned(last, columns)]
  }

  /** ON CONFLICT DO UPDATE: only update columns that the batch has are written. */
  function Overlaid(stored: Row, incoming: Row, updateColumns: set<string>): Row {
    map column | column in stored.Keys + incoming.Keys * updateColumns ::
      if column in incoming && column in updateColumns then incoming[column] else stored[column]
  }

  function Put(table: Table, batch: Table, updateColumns: set<string>): Table {
    map key | key in table.Keys + batch.Keys ::
      if key !in batch then table[key]
      else if key !in table then batch[key]
      else Overlaid(table[key], batch[key], updateColumns)
  }

  function KeysOf(rows: seq<Row>, columns: seq<string>): set<Key> {
    set i | 0 <= i < |rows| :: Project(rows[i], columns)
  }

  function Scopes(w: TableWrite): set<Key> {
    KeysOf(if w.scopeValues.Some? then w.scopeValues.value else w.rows, w.scopeColumns)
  }

  /** The table after the delete that comes before a `replace_scope` insert, rows or no rows. */
  function Cleared(table: Table, w: TableWrite): Table {
    if w.mode.Upsert? then table
    else map key | key in table && Project(table[key], w.scopeColumns) !in Scopes(w) :: table[key]
  }

  function Incoming(w: TableWrite): Table {
    Batch(w.rows, w.keyColumns, Columns(w.rows))
  }

  function WrittenTable(table: Table, w: TableWrite): Table {
    Put(Cleared(table, w), Incoming(w), ToSet(w.updateColumns))
  }

  function Written(store: Store, w: TableWrite): Store {
    store[w.table := WrittenTable(TableOf(store, w.table), w)]
  }

  function WrittenAll(store: Store, writes: seq<TableWrite>): Store {
    if writes == [] then store
    else Written(WrittenAll(store, writes[..|writes| - 1]), writes[|writes| - 1])
  }

  /** The keys that a write proposes. */
  function ProposedKeys(w: TableWrite): set<Key> {
    KeysOf(w.rows, w.keyColumns)
  }

  /** `distinct_key_count`. */
  function DistinctKeyCount(w: TableWrite): nat {
    if w.keyColumns == [] then |w.rows| else |ProposedKeys(w)|
  }

  class RowWriter {
    var tables: Store

    /** Applies the write and counts, by a read after it, the proposed keys that are stored. */
    method Write(w: TableWrite) returns (verified: nat)
      modifies this
      ensures tables == Written(old(tables), w)
      ensures verified == if w.rows == [] then 0 else |ProposedKeys(w) * tables[w.table].Keys|
    {
      var table := TableOf(tables, w.table);
      if w.mode.ReplaceScope? {
        table := Cleared(table, w);
      }
      if w.rows == [] {
        PutNothing(table, w.updateColumns);
        tables := tables[w.table := table];
        return 0;
      }
      table := Put(table, Incoming(w), ToSet(w.updateColumns));
      tables := tables[w.table := table];
      verified := |ProposedKeys(w) * table.Keys|;
    }

    /** The stored `content_hash` at a key, or None. */
    method CurrentHash(table: string, key: Key) returns (hash: Option<Value>)
      ensures hash == StoredHash(tables, table, key)
    {
      hash := StoredHash(tables, table, key);
    }
  }

  function StoredHash(store: Store, table: string, key: Key): Option<Value> {
    var rows := TableOf(store, table);
    if key in rows && Get(rows[key], "content_hash") != Null then Some(Get(rows[key], "content_hash")) else None
  }

  // ----------------------------------------------------------------- counters

  type Counters = map<string, int>

  function Count(counters: Counters, table: string): int {
    if table in counters then counters[table] else 0
  }

  function Added(counters: Counters, table: string, n: int): Counters {
    counters[table := Count(counters, table) + n]
  }

  /** `setdefault(table, 0)`. */
  function Kept(counters: Counters, table: string): Counters {
    if table in counters then counters else counters[table := 0]
  }

  datatype Stats = Stats(attempted: Counters, verified: Counters, skipped: Counters)
  {
    predicate Lists(table: string) {
      table in attempted || table in verified || table in skipped
    }
  }

  class WriteStats {
    var attempted: Counters
    var verified: Counters
    var skipped: Counters

    constructor (skipped: Counters)
      ensures View() == Stats(map[], map[], skipped)
    {
      this.attempted, this.verified, this.skipped := map[], map[], skipped;
    }

    function View(): Stats
      reads this
    {
      Stats(attempted, verified, skipped)
    }
  }

  /** What one write adds to the counters. */
  function Counted(stats: Stats, w: TableWrite): Stats {
    stats.(attempted := Added(stats.attempted, w.table, DistinctKeyCount(w)),
           verified := Added(stats.verified, w.table, if w.rows == [] then 0 else |ProposedKeys(w)|))
  }

  function CountedAll(stats: Stats, writes: seq<TableWrite>): Stats {
    if writes == [] then stats
    else Counted(CountedAll(stats, writes[..|writes| - 1]), writes[|writes| - 1])
  }

  /** `apply_write`. */
  method ApplyWrite(writer: RowWriter, w: TableWrite, stats: WriteStats)
    modifies writer, stats
    ensures writer.tables == Written(old(writer.tables), w)
    ensures stats.View() == Counted(old(stats.View()), w)
  {
    var attempted := DistinctKeyCount(w);
    var verified := writer.Write(w);
    ProposedAreStored(old(writer.tables), w);
    assert ProposedKeys(w) * writer.tables[w.table].Keys == ProposedKeys(w);
    stats.attempted := Added(stats.attempted, w.table, attempted);
    stats.verified := Added(stats.verified, w.table, verified);
  }

  // ------------------------------------------------------------------- lemmas

  lemma PutNothing(table: Table, updateColumns: seq<string>)
    ensures Put(table, map[], ToSet(updateColumns)) == table
  {
  }

  lemma KeysOfLast(rows: seq<Row>, columns: seq<string>)
    requires rows != []
    ensures KeysOf(rows, columns) == KeysOf(rows[..|rows| - 1], columns) + {Project(rows[|rows| - 1], columns)}
  {
    var n := |rows| - 1;
    forall key | key in KeysOf(rows, columns) ensures key in KeysOf(rows[..n], columns) + {Project(rows[n], columns)} {
      var i :| 0 <= i < |rows| && Project(rows[i], columns) == key;
      if i < n { assert rows[..n][i] == rows[i]; }
    }
    forall key | key in KeysOf(rows[..n], columns) ensures key in KeysOf(rows, columns) {
      var i :| 0 <= i < n && Project(rows[..n][i], columns) == key;
      assert rows[..n][i] == rows[i];
    }
  }

  lemma {:induction false} BatchKeys(rows: seq<Row>, keyColumns: seq<string>, columns: set<string>)
    ensures Batch(rows, keyColumns, columns).Keys == KeysOf(rows, keyColumns)
  {
    if rows != [] {
      BatchKeys(rows[..|rows| - 1], keyColumns, columns);
      KeysOfLast(rows, keyColumns);
    }
  }

  ghost predicate DistinctKeys(rows: seq<Row>, keyColumns: seq<string>) {
    forall i, j :: 0 <= i < j < |rows| ==> Project(rows[i], keyColumns) != Project(rows[j], keyColumns)
  }

  /** Every batch row is the aligned form of a proposed row with that key. */
  lemma {:induction false} BatchRow(rows: seq<Row>, keyColumns: seq<string>, columns: set<string>, key: Key)
    requires key in Batch(rows, keyColumns, columns)
    ensures exists i :: 0 <= i < |rows| && Project(rows[i], keyColumns) == key
                        && Batch(rows, keyColumns, columns)[key] == Aligned(rows[i], columns)
  {
    var n := |rows| - 1;
    if Project(rows[n], keyColumns) != key {
      BatchRow(rows[..n], keyColumns, columns, key);
      var i :| 0 <= i < n && Project(rows[..n][i], keyColumns) == key
               && Batch(rows[..n], keyColumns, columns)[key] == Aligned(rows[..n][i], columns);
      assert rows[i] == rows[..n][i];
    }
  }

  /** With distinct keys each row lands under its own. */
  lemma IncomingRow(w: TableWrite, i: nat)
    requires i < |w.rows| && DistinctKeys(w.rows, w.keyColumns)
    ensures Project(w.rows[i], w.keyColumns) in Incoming(w)
    ensures Incoming(w)[Project(w.rows[i], w.keyColumns)] == Aligned(w.rows[i], Columns(w.rows))
  {
    var key := Project(w.rows[i], w.keyColumns);
    BatchKeys(w.rows, w.keyColumns, Columns(w.rows));
    assert key in Incoming(w).Keys;
    BatchRow(w.rows, w.keyColumns, Columns(w.rows), key);
    var j :| 0 <= j < |w.rows| && Project(w.rows[j], w.keyColumns) == key
             && Incoming(w)[key] == Aligned(w.rows[j], Columns(w.rows));
  }

  /** Row `i` is the last of its key. */
  ghost predicate LastOfKey(rows: seq<Row>, keyColumns: seq<string>, i: int) {
    0 <= i < |rows| && forall j :: i < j < |rows| ==> Project(rows[j], keyColumns) != Project(rows[i], keyColumns)
  }

  lemma {:induction false} BatchLast(rows: seq<Row>, keyColumns: seq<string>, columns: set<string>, i: int)
    requires LastOfKey(rows, keyColumns, i)
    ensures Project(rows[i], keyColumns) in Batch(rows, keyColumns, columns)
    ensures Batch(rows, keyColumns, columns)[Project(rows[i], keyColumns)] == Aligned(rows[i], columns)
  {
    var n := |rows| - 1;
    if i < n {
      var before := rows[..n];
      forall j | i < j < |before| ensures Project(before[j], keyColumns) != Project(before[i], keyColumns) {
        assert before[j] == rows[j] && before[i] == rows[i];
      }
      BatchLast(before, keyColumns, columns, i);
    }
  }

  ghost predicate Proposes(w: TableWrite, key: Key) {
    exists i :: 0 <= i < |w.rows| && Project(w.rows[i], w.keyColumns) == key
  }

  ghost predicate SameScope(a: Row, b: Row, columns: seq<string>) {
    forall column :: column in columns ==> Get(a, column) == Get(b, column)
  }

  /** The write deletes the row first: a scope is named by its scope values or, without them, by its own rows. */
  ghost predicate Deletes(w: TableWrite, stored: Row) {
    && w.mode.ReplaceScope?
    && if w.scopeValues.Some? then
         exists i :: 0 <= i < |w.scopeValues.value| && SameScope(w.scopeValues.value[i], stored, w.scopeColumns)
       else exists i :: 0 <= i < |w.rows| && SameScope(w.rows[i], stored, w.scopeColumns)
  }

  /** Some row of the write lists the column. */
  ghost predicate Carries(w: TableWrite, column: string) {
    exists i :: 0 <= i < |w.rows| && column in w.rows[i]
  }

  lemma KeysOfScope(rows: seq<Row>, stored: Row, columns: seq<string>)
    ensures Project(stored, columns) in KeysOf(rows, columns)
            <==> exists i :: 0 <= i < |rows| && SameScope(rows[i], stored, columns)
  {
    if Project(stored, columns) in KeysOf(rows, columns) {
      var i :| 0 <= i < |rows| && Project(rows[i], columns) == Project(stored, columns);
      SameProject(rows[i], stored, columns);
      assert SameScope(rows[i], stored, columns);
    }
    if i :| 0 <= i < |rows| && SameScope(rows[i], stored, columns) {
      assert Project(rows[i], columns) == Project(stored, columns);
    }
  }

  ghost predicate Stays(table: Table, w: TableWrite, key: Key) {
    key in table && !Deletes(w, table[key])
  }

  lemma ClearedIsExact(table: Table, w: TableWrite, key: Key)
    ensures key in Cleared(table, w) <==> Stays(table, w, key)
    ensures Stays(table, w, key) ==> Cleared(table, w)[key] == table[key]
  {
    if key in table {
      KeysOfScope(if w.scopeValues.Some? then w.scopeValues.value else w.rows, table[key], w.scopeColumns);
    }
  }

  /** A write keeps the rows that it neither deletes nor proposes, as they are, and stores each key it proposes. */
  lemma WriteIsExact(table: Table, w: TableWrite, key: Key)
    ensures var after := WrittenTable(table, w);
      && (key in after <==> Proposes(w, key) || Stays(table, w, key))
      && (Stays(table, w, key) && !Proposes(w, key) ==> after[key] == table[key])
  {
    BatchKeys(w.rows, w.keyColumns, Columns(w.rows));
    ClearedIsExact(table, w, key);
  }

  /** The last row of a key decides its cells; a row that was there keeps those outside the update columns. */
  lemma WrittenCell(table: Table, w: TableWrite, i: int, column: string)
    requires LastOfKey(w.rows, w.keyColumns, i)
    ensures var after, key := WrittenTable(table, w), Project(w.rows[i], w.keyColumns);
      && key in after
      && Get(after[key], column)
         == if Stays(table, w, key) && !(column in w.updateColumns && Carries(w, column)) then Get(table[key], column)
            else Get(w.rows[i], column)
  {
    BatchLast(w.rows, w.keyColumns, Columns(w.rows), i);
    ClearedIsExact(table, w, Project(w.rows[i], w.keyColumns));
    AlignedCell(w.rows, i, column);
    assert Carries(w, column) <==> column in Columns(w.rows);
  }

  /** A write stores every key it proposes. */
  lemma ProposedAreStored(store: Store, w: TableWrite)
    ensures ProposedKeys(w) <= Written(store, w)[w.table].Keys
  {
    BatchKeys(w.rows, w.keyColumns, Columns(w.rows));
  }

  /** Alignment changes no cell. */
  lemma AlignedCell(rows: seq<Row>, i: nat, column: string)
    requires i < |rows|
    ensures Get(Aligned(rows[i], Columns(rows)), column) == Get(rows[i], column)
  {
    if column in rows[i] {
      assert column in Columns(rows);
    }
  }

  lemma AlignedProject(rows: seq<Row>, i: nat, columns: seq<string>)
    requires i < |rows|
    ensures Project(Aligned(rows[i], Columns(rows)), columns) == Project(rows[i], columns)
  {
    forall k | 0 <= k < |columns| ensures Get(Aligned(rows[i], Columns(rows)), columns[k]) == Get(rows[i], columns[k]) {
      AlignedCell(rows, i, columns[k]);
    }
  }

  lemma SameProject(a: Row, b: Row, columns: seq<string>)
    requires Project(a, columns) == Project(b, columns)
    ensures forall column :: column in columns ==> Get(a, column) == Get(b, column)
  {
    forall column | column in columns ensures Get(a, column) == Get(b, column) {
      var i :| 0 <= i < |columns| && columns[i] == column;
      assert Project(a, columns)[i] == Project(b, columns)[i];
    }
  }

  /** Every stored row sits under its own primary key. */
  ghost predicate Keyed(table: Table, keyColumns: seq<string>) {
    forall key :: key in table ==> Project(table[key], keyColumns) == key
  }

  lemma IncomingKeyed(w: TableWrite)
    ensures Keyed(Incoming(w), w.keyColumns)
  {
    forall key | key in Incoming(w) ensures Project(Incoming(w)[key], w.keyColumns) == key {
      BatchRow(w.rows, w.keyColumns, Columns(w.rows), key);
      var i :| 0 <= i < |w.rows| && Project(w.rows[i], w.keyColumns) == key
               && Incoming(w)[key] == Aligned(w.rows[i], Columns(w.rows));
      AlignedProject(w.rows, i, w.keyColumns);
    }
  }

  lemma OverlaidCell(stored: Row, incoming: Row, updateColumns: set<string>, column: string)
    ensures Get(Overlaid(stored, incoming, updateColumns), column)
         == if column in incoming && column in updateColumns then incoming[column] else Get(stored, column)
  {
  }

  /** A write moves no row away from its key. */
  lemma WriteKeepsKeyed(table: Table, w: TableWrite)
    requires Keyed(table, w.keyColumns)
    ensures Keyed(WrittenTable(table, w), w.keyColumns)
  {
    var base, batch, columns := Cleared(table, w), Incoming(w), ToSet(w.updateColumns);
    IncomingKeyed(w);
    forall key | key in WrittenTable(table, w) ensures Project(WrittenTable(table, w)[key], w.keyColumns) == key {
      if key in batch && key in base {
        forall k | 0 <= k < |w.keyColumns|
          ensures Get(Overlaid(base[key], batch[key], columns), w.keyColumns[k]) == key[k]
        {
          OverlaidCell(base[key], batch[key], columns, w.keyColumns[k]);
          assert Project(base[key], w.keyColumns)[k] == key[k] && Project(batch[key], w.keyColumns)[k] == key[k];
        }
      }
    }
  }

  /** An upsert does not touch a key that it does not propose. */
  lemma NotUpserted(table: Table, w: TableWrite, key: Key)
    requires w.mode.Upsert?
    requires forall i :: 0 <= i < |w.rows| ==> Project(w.rows[i], w.keyColumns) != key
    ensures key in WrittenTable(table, w) <==> key in table
    ensures key in table ==> WrittenTable(table, w)[key] == table[key]
  {
    BatchKeys(w.rows, w.keyColumns, Columns(w.rows));
  }

  /** With distinct keys the counters move by the number of rows. */
  lemma {:induction false} DistinctKeyCountIsRows(rows: seq<Row>, keyColumns: seq<string>)
    requires DistinctKeys(rows, keyColumns)
    ensures |KeysOf(rows, keyColumns)| == |rows|
  {
    if rows != [] {
      var n := |rows| - 1;
      DistinctKeyCountIsRows(rows[..n], keyColumns);
      KeysOfLast(rows, keyColumns);
      assert Project(rows[n], keyColumns) !in KeysOf(rows[..n], keyColumns);
    }
  }

  /** Writes leave every other table alone. */
  lemma {:induction false} OtherTables(store: Store, writes: seq<TableWrite>, name: string)
    requires forall i :: 0 <= i < |writes| ==> writes[i].table != name
    ensures TableOf(WrittenAll(store, writes), name) == TableOf(store, name)
  {
    if writes != [] {
      OtherTables(store, writes[..|writes| - 1], name);
    }
  }

  ghost predicate DistinctTables(writes: seq<TableWrite>) {
    forall i, j :: 0 <= i < j < |writes| ==> writes[i].table != writes[j].table
  }

  /** With distinct tables each write finds its table as it was before all of them. */
  lemma {:induction false} EachTableOnce(store: Store, writes: seq<TableWrite>, i: nat)
    requires DistinctTables(writes) && i < |writes|
    ensures TableOf(WrittenAll(store, writes), writes[i].table)
         == WrittenTable(TableOf(store, writes[i].table), writes[i])
  {
    var n := |writes| - 1;
    if i < n {
      assert writes[..n][i] == writes[i];
      EachTableOnce(store, writes[..n], i);
    } else {
      OtherTables(store, writes[..n], writes[i].table);
    }
  }
}

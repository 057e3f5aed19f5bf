/**
 The header/child gate of src/yfin/datasets/hash_gated.py: a header row carries the content
 hash of its child rows, and child rows are rewritten only for headers whose hash changed.
 */
module HashGate {
  import opened Wrappers
  import opened Storage
  import opened Datasets

  const UNCHANGED_UPDATE_COLUMNS: seq<string> := ["fetched_at"]

  datatype Gate = Gate(gateTable: string, childTable: string, keyColumns: seq<string>)
  {
    /** `_key`. */
    function KeyOf(row: Row): Key {
      Project(row, keyColumns)
    }
  }

  /** The writes that name the table. */
  function For(writes: seq<TableWrite>, table: string): seq<TableWrite> {
    Selected(writes, (w: TableWrite) => w.table == table)
  }

  function Others(gate: Gate, writes: seq<TableWrite>): seq<TableWrite> {
    Selected(writes, (w: TableWrite) => w.table != gate.gateTable && w.table != gate.childTable)
  }

  /** The stored hash at the header's key is the header's. */
  predicate Matched(gate: Gate, store: Store, row: Row) {
    var current := StoredHash(store, gate.gateTable, gate.KeyOf(row));
    (if current.Some? then current.value else Null) == Get(row, "content_hash")
  }

  function AllRows(writes: seq<TableWrite>): seq<Row> {
    if writes == [] then [] else AllRows(writes[..|writes| - 1]) + writes[|writes| - 1].rows
  }

  function UnchangedKeys(gate: Gate, store: Store, rows: seq<Row>, fullRefresh: bool): set<Key> {
    set i | 0 <= i < |rows| && !fullRefresh && Matched(gate, store, rows[i]) :: gate.KeyOf(rows[i])
  }

  function ChangedRows(gate: Gate, store: Store, rows: seq<Row>, fullRefresh: bool): seq<Row> {
    if rows == [] then []
    else
      var n := |rows| - 1;
      ChangedRows(gate, store, rows[..n], fullRefresh)
      + if fullRefresh || !Matched(gate, store, rows[n]) then [rows[n]] else []
  }

  /** The rows whose key is, or is not, in the set. */
  function RowsIn(gate: Gate, rows: seq<Row>, keys: set<Key>, inside: bool): seq<Row> {
    if rows == [] then []
    else
      var n := |rows| - 1;
      RowsIn(gate, rows[..n], keys, inside) + if (gate.KeyOf(rows[n]) in keys) == inside then [rows[n]] else []
  }

  /** A header write is made only if it has rows. */
  function IfRows(w: TableWrite): seq<Action> {
    if w.rows != [] then [Apply(w)] else []
  }

  /** The full write, of the changed headers. */
  function ChangedHeaders(gate: Gate, w: TableWrite, keys: set<Key>): TableWrite {
    w.(rows := RowsIn(gate, w.rows, keys, false))
  }

  /** The `fetched_at` write, of the others. */
  function UnchangedHeaders(gate: Gate, w: TableWrite, keys: set<Key>): TableWrite {
    w.(rows := RowsIn(gate, w.rows, keys, true), updateColumns := UNCHANGED_UPDATE_COLUMNS)
  }

  function HeaderActions(gate: Gate, w: TableWrite, keys: set<Key>): seq<Action> {
    IfRows(ChangedHeaders(gate, w, keys)) + IfRows(UnchangedHeaders(gate, w, keys))
  }

  function AllHeaderActions(gate: Gate, writes: seq<TableWrite>, keys: set<Key>): seq<Action> {
    if writes == [] then []
    else AllHeaderActions(gate, writes[..|writes| - 1], keys) + HeaderActions(gate, writes[|writes| - 1], keys)
  }

  function ScopeRow(gate: Gate, row: Row): Row {
    map column | column in gate.keyColumns :: Get(row, column)
  }

  /** The delete scope: the changed headers, not the rows. */
  function ScopeRows(gate: Gate, changed: seq<Row>): seq<Row> {
    seq(|changed|, i requires 0 <= i < |changed| => ScopeRow(gate, changed[i]))
  }

  function ChildWrite(gate: Gate, w: TableWrite, keys: set<Key>, changed: seq<Row>): TableWrite {
    w.(rows := RowsIn(gate, w.rows, keys, false), mode := ReplaceScope,
       scopeColumns := gate.keyColumns, scopeValues := Some(ScopeRows(gate, changed)))
  }

  function ChildActions(gate: Gate, w: TableWrite, keys: set<Key>, changed: seq<Row>): seq<Action> {
    var dropped := |w.rows| - |RowsIn(gate, w.rows, keys, false)|;
    (if dropped != 0 then [Skip(w.table, dropped)] else [])
    + [if changed == [] then Keep(w.table) else Apply(ChildWrite(gate, w, keys, changed))]
  }

  function AllChildActions(gate: Gate, writes: seq<TableWrite>, keys: set<Key>, changed: seq<Row>): seq<Action> {
    if writes == [] then []
    else
      var n := |writes| - 1;
      AllChildActions(gate, writes[..n], keys, changed) + ChildActions(gate, writes[n], keys, changed)
  }

  /** Everything the gate does for a result, in order. */
  function Actions(gate: Gate, store: Store, result: NormalizedResult, fullRefresh: bool): seq<Action> {
    var headers := AllRows(For(result.writes, gate.gateTable));
    var keys := UnchangedKeys(gate, store, headers, fullRefresh);
    var changed := ChangedRows(gate, store, headers, fullRefresh);
    AllHeaderActions(gate, For(result.writes, gate.gateTable), keys)
    + AllChildActions(gate, For(result.writes, gate.childTable), keys, changed)
    + Applies(Others(gate, result.writes))
  }

  function Gated(gate: Gate, store: Store, result: NormalizedResult, fullRefresh: bool): Store {
    Performed(store, Actions(gate, store, result, fullRefresh))
  }

  /** The hash queries: every one before any write. */
  method Compare(gate: Gate, writer: RowWriter, gateWrites: seq<TableWrite>, fullRefresh: bool)
    returns (keys: set<Key>, changed: seq<Row>)
    ensures keys == UnchangedKeys(gate, writer.tables, AllRows(gateWrites), fullRefresh)
    ensures changed == ChangedRows(gate, writer.tables, AllRows(gateWrites), fullRefresh)
  {
    keys, changed := {}, [];
    var i := 0;
    while i < |gateWrites|
      invariant 0 <= i <= |gateWrites|
      invariant keys == UnchangedKeys(gate, writer.tables, AllRows(gateWrites[..i]), fullRefresh)
      invariant changed == ChangedRows(gate, writer.tables, AllRows(gateWrites[..i]), fullRefresh)
    {
      keys, changed := CompareRows(gate, writer, AllRows(gateWrites[..i]), gateWrites[i].rows, keys, changed,
          fullRefresh);
      assert gateWrites[..i + 1][..i] == gateWrites[..i];
      i := i + 1;
    }
    assert gateWrites[..i] == gateWrites;
  }

  /** The rows of one header write, after those compared before. */
  method CompareRows(gate: Gate, writer: RowWriter, ghost before: seq<Row>, rows: seq<Row>, keysBefore: set<Key>,
                     changedBefore: seq<Row>, fullRefresh: bool) returns (keys: set<Key>, changed: seq<Row>)
    requires keysBefore == UnchangedKeys(gate, writer.tables, before, fullRefresh)
    requires changedBefore == ChangedRows(gate, writer.tables, before, fullRefresh)
    ensures keys == UnchangedKeys(gate, writer.tables, before + rows, fullRefresh)
    ensures changed == ChangedRows(gate, writer.tables, before + rows, fullRefresh)
  {
    keys, changed := keysBefore, changedBefore;
    assert before + rows[..0] == before;
    var k := 0;
    while k < |rows|
      invariant 0 <= k <= |rows|
      invariant keys == UnchangedKeys(gate, writer.tables, before + rows[..k], fullRefresh)
      invariant changed == ChangedRows(gate, writer.tables, before + rows[..k], fullRefresh)
    {
      var row := rows[k];
      UnchangedLast(gate, writer.tables, before + rows[..k], row, fullRefresh);
      assert before + rows[..k + 1] == (before + rows[..k]) + [row];
      k := k + 1;
      if fullRefresh {
        changed := changed + [row];
        continue;
      }
      var current := writer.CurrentHash(gate.gateTable, gate.KeyOf(row));
      if (if current.Some? then current.value else Null) == Get(row, "content_hash") {
        keys := keys + {gate.KeyOf(row)};
      } else {
        changed := changed + [row];
      }
    }
    assert before + rows[..k] == before + rows;
  }

  lemma UnchangedLast(gate: Gate, store: Store, rows: seq<Row>, row: Row, fullRefresh: bool)
    ensures UnchangedKeys(gate, store, rows + [row], fullRefresh)
         == UnchangedKeys(gate, store, rows, fullRefresh)
            + if !fullRefresh && Matched(gate, store, row) then {gate.KeyOf(row)} else {}
    ensures ChangedRows(gate, store, rows + [row], fullRefresh)
         == ChangedRows(gate, store, rows, fullRefresh)
            + if fullRefresh || !Matched(gate, store, row) then [row] else []
  {
    var all := rows + [row];
    assert all[..|all| - 1] == rows;
    forall key | key in UnchangedKeys(gate, store, rows, fullRefresh)
      ensures key in UnchangedKeys(gate, store, all, fullRefresh)
    {
      var i :| 0 <= i < |rows| && !fullRefresh && Matched(gate, store, rows[i]) && gate.KeyOf(rows[i]) == key;
      assert all[i] == rows[i];
    }
    if !fullRefresh && Matched(gate, store, row) {
      assert all[|rows|] == row;
    }
  }

  /** The comprehension over `_key(row) in unchanged`, or `not in`. */
  method PartRows(gate: Gate, rows: seq<Row>, keys: set<Key>, inside: bool) returns (part: seq<Row>)
    ensures part == RowsIn(gate, rows, keys, inside)
  {
    part := [];
    var i := 0;
    while i < |rows|
      invariant 0 <= i <= |rows|
      invariant part == RowsIn(gate, rows[..i], keys, inside)
    {
      assert rows[..i + 1][..i] == rows[..i];
      if (gate.KeyOf(rows[i]) in keys) == inside {
        part := part + [rows[i]];
      }
      i := i + 1;
    }
    assert rows[..i] == rows;
  }

  lemma OneAction(store: Store, stats: Stats, action: Action)
    ensures Performed(store, [action]) == if action.Apply? then Written(store, action.write) else store
    ensures CountedActions(stats, [action]) == CountedAction(stats, action)
    ensures Performed(store, []) == store && CountedActions(stats, []) == stats
  {
    assert [action][..0] == [];
  }

  /** One header write: its changed rows in full, of the others only the time. */
  method WriteHeader(gate: Gate, writer: RowWriter, stats: WriteStats, w: TableWrite, keys: set<Key>)
    modifies writer, stats
    ensures writer.tables == Performed(old(writer.tables), HeaderActions(gate, w, keys))
    ensures stats.View() == CountedActions(old(stats.View()), HeaderActions(gate, w, keys))
  {
    var changedRows := PartRows(gate, w.rows, keys, false);
    var unchangedRows := PartRows(gate, w.rows, keys, true);
    ghost var store, counts := writer.tables, stats.View();
    ActionsConcat(store, counts, IfRows(ChangedHeaders(gate, w, keys)), IfRows(UnchangedHeaders(gate, w, keys)));
    OneAction(store, counts, Apply(ChangedHeaders(gate, w, keys)));
    if changedRows != [] {
      ApplyWrite(writer, w.(rows := changedRows), stats);
    }
    OneAction(writer.tables, stats.View(), Apply(UnchangedHeaders(gate, w, keys)));
    if unchangedRows != [] {
      ApplyWrite(writer, w.(rows := unchangedRows, updateColumns := UNCHANGED_UPDATE_COLUMNS), stats);
    }
  }

  /** Step 2: header rows. */
  method WriteHeaders(gate: Gate, writer: RowWriter, stats: WriteStats, writes: seq<TableWrite>, keys: set<Key>)
    modifies writer, stats
    ensures writer.tables == Performed(old(writer.tables), AllHeaderActions(gate, writes, keys))
    ensures stats.View() == CountedActions(old(stats.View()), AllHeaderActions(gate, writes, keys))
  {
    ghost var store, counts := writer.tables, stats.View();
    var i := 0;
    while i < |writes|
      invariant 0 <= i <= |writes|
      invariant writer.tables == Performed(store, AllHeaderActions(gate, writes[..i], keys))
      invariant stats.View() == CountedActions(counts, AllHeaderActions(gate, writes[..i], keys))
    {
      assert writes[..i + 1][..i] == writes[..i];
      ActionsConcat(store, counts, AllHeaderActions(gate, writes[..i], keys), HeaderActions(gate, writes[i], keys));
      WriteHeader(gate, writer, stats, writes[i], keys);
      i := i + 1;
    }
    assert writes[..i] == writes;
  }

  /** One child write: its kept rows, in the scope of the changed headers. */
  method WriteChild(gate: Gate, writer: RowWriter, stats: WriteStats, w: TableWrite, keys: set<Key>, changed: seq<Row>)
    modifies writer, stats
    ensures writer.tables == Performed(old(writer.tables), ChildActions(gate, w, keys, changed))
    ensures stats.View() == CountedActions(old(stats.View()), ChildActions(gate, w, keys, changed))
  {
    var kept := PartRows(gate, w.rows, keys, false);
    var dropped := |w.rows| - |kept|;
    ghost var store, counts := writer.tables, stats.View();
    ghost var skips := if dropped != 0 then [Skip(w.table, dropped)] else [];
    ghost var last := if changed == [] then Keep(w.table) else Apply(ChildWrite(gate, w, keys, changed));
    ActionsConcat(store, counts, skips, [last]);
    OneAction(store, counts, Skip(w.table, dropped));
    OneAction(store, CountedActions(counts, skips), last);
    if dropped != 0 {
      stats.skipped := Added(stats.skipped, w.table, dropped);
    }
    if changed == [] {
      stats.attempted := Kept(stats.attempted, w.table);
      stats.verified := Kept(stats.verified, w.table);
      return;
    }
    ApplyWrite(writer, w.(rows := kept, mode := ReplaceScope, scopeColumns := gate.keyColumns,
                          scopeValues := Some(ScopeRows(gate, changed))), stats);
  }

  /** Step 3: child rows, for changed headers. */
  method WriteChildren(gate: Gate, writer: RowWriter, stats: WriteStats, writes: seq<TableWrite>, keys: set<Key>,
                       changed: seq<Row>)
    modifies writer, stats
    ensures writer.tables == Performed(old(writer.tables), AllChildActions(gate, writes, keys, changed))
    ensures stats.View() == CountedActions(old(stats.View()), AllChildActions(gate, writes, keys, changed))
  {
    ghost var store, counts := writer.tables, stats.View();
    var i := 0;
    while i < |writes|
      invariant 0 <= i <= |writes|
      invariant writer.tables == Performed(store, AllChildActions(gate, writes[..i], keys, changed))
      invariant stats.View() == CountedActions(counts, AllChildActions(gate, writes[..i], keys, changed))
    {
      assert writes[..i + 1][..i] == writes[..i];
      ActionsConcat(store, counts, AllChildActions(gate, writes[..i], keys, changed),
                    ChildActions(gate, writes[i], keys, changed));
      WriteChild(gate, writer, stats, writes[i], keys, changed);
      i := i + 1;
    }
    assert writes[..i] == writes;
  }

  /** `HashGate.upsert`. */
  method GatedUpsert(gate: Gate, writer: RowWriter, result: NormalizedResult, fullRefresh: bool)
    returns (stats: WriteStats)
    modifies writer
    ensures fresh(stats)
    ensures writer.tables == Gated(gate, old(writer.tables), result, fullRefresh)
    ensures stats.View() == CountedActions(Fresh(result), Actions(gate, old(writer.tables), result, fullRefresh))
  {
    stats := new WriteStats(result.skipped);
    var gateWrites, childWrites := For(result.writes, gate.gateTable), For(result.writes, gate.childTable);
    var otherWrites := Others(gate, result.writes);
    var keys, changed := Compare(gate, writer, gateWrites, fullRefresh);
    ghost var headers := AllHeaderActions(gate, gateWrites, keys);
    ghost var children := AllChildActions(gate, childWrites, keys, changed);
    ActionsConcat(old(writer.tables), Fresh(result), headers, children);
    ActionsConcat(old(writer.tables), Fresh(result), headers + children, Applies(otherWrites));
    WriteHeaders(gate, writer, stats, gateWrites, keys);
    WriteChildren(gate, writer, stats, childWrites, keys, changed);
    PerformAll(writer, stats, Applies(otherWrites));
  }

  // -------------------------------------------------------------- which rows

  lemma {:induction false} RowsInMembers(gate: Gate, rows: seq<Row>, keys: set<Key>, inside: bool, row: Row)
    ensures row in RowsIn(gate, rows, keys, inside) <==> row in rows && (gate.KeyOf(row) in keys) == inside
  {
    if rows != [] {
      var n := |rows| - 1;
      RowsInMembers(gate, rows[..n], keys, inside, row);
      assert rows == rows[..n] + [rows[n]];
    }
  }

  lemma {:induction false} RowsInDistinct(gate: Gate, rows: seq<Row>, keys: set<Key>, inside: bool,
                                          columns: seq<string>)
    requires DistinctKeys(rows, columns)
    ensures DistinctKeys(RowsIn(gate, rows, keys, inside), columns)
  {
    if rows != [] {
      var n := |rows| - 1;
      var before := RowsIn(gate, rows[..n], keys, inside);
      RowsInDistinct(gate, rows[..n], keys, inside, columns);
      forall i | 0 <= i < |before| ensures Project(before[i], columns) != Project(rows[n], columns) {
        RowsInMembers(gate, rows[..n], keys, inside, before[i]);
        assert before[i] in before;
        var k :| 0 <= k < n && rows[..n][k] == before[i];
        assert rows[k] == before[i];
      }
    }
  }

  lemma {:induction false} RowsInCount(gate: Gate, rows: seq<Row>, keys: set<Key>)
    ensures |RowsIn(gate, rows, keys, true)| + |RowsIn(gate, rows, keys, false)| == |rows|
  {
    if rows != [] {
      RowsInCount(gate, rows[..|rows| - 1], keys);
    }
  }

  lemma {:induction false} ChangedMembers(gate: Gate, store: Store, rows: seq<Row>, fullRefresh: bool, row: Row)
    ensures row in ChangedRows(gate, store, rows, fullRefresh)
       <==> row in rows && (fullRefresh || !Matched(gate, store, row))
  {
    if rows != [] {
      var n := |rows| - 1;
      ChangedMembers(gate, store, rows[..n], fullRefresh, row);
      assert rows == rows[..n] + [rows[n]];
    }
  }

  /** The header counts as changed. */
  predicate Changes(gate: Gate, store: Store, row: Row, fullRefresh: bool) {
    fullRefresh || !Matched(gate, store, row)
  }

  lemma UnchangedKey(gate: Gate, store: Store, rows: seq<Row>, fullRefresh: bool, j: nat)
    requires j < |rows| && DistinctKeys(rows, gate.keyColumns)
    ensures gate.KeyOf(rows[j]) in UnchangedKeys(gate, store, rows, fullRefresh)
        <==> !Changes(gate, store, rows[j], fullRefresh)
  {
    if gate.KeyOf(rows[j]) in UnchangedKeys(gate, store, rows, fullRefresh) {
      var i :| 0 <= i < |rows| && !fullRefresh && Matched(gate, store, rows[i])
        && gate.KeyOf(rows[i]) == gate.KeyOf(rows[j]);
      assert i == j;
    }
  }

  // ------------------------------------------------------------ the hypotheses

  ghost predicate Uniform(rows: seq<Row>) {
    forall i, j :: 0 <= i < |rows| && 0 <= j < |rows| ==> rows[i].Keys == rows[j].Keys
  }

  /** A result of one header write and one child write, as the statements and the screener give it. */
  ghost predicate Shaped(gate: Gate, result: NormalizedResult, g: TableWrite, c: TableWrite) {
    && gate.gateTable != gate.childTable && gate.keyColumns != []
    && For(result.writes, gate.gateTable) == [g] && g.table == gate.gateTable
    && For(result.writes, gate.childTable) == [c] && c.table == gate.childTable
    && g.mode.Upsert? && g.keyColumns == gate.keyColumns
    && "content_hash" in g.updateColumns && "fetched_at" in g.updateColumns
    && DistinctKeys(g.rows, gate.keyColumns) && Uniform(g.rows)
    && (forall j :: 0 <= j < |g.rows| ==>
          "fetched_at" in g.rows[j] && "content_hash" in g.rows[j] && g.rows[j]["content_hash"] != Null)
    && c.keyColumns != [] && DistinctKeys(c.rows, c.keyColumns)
    && (forall column :: column in gate.keyColumns ==> column in c.keyColumns)
  }

  ghost predicate HasHeader(gate: Gate, g: TableWrite, key: Key) {
    exists j :: 0 <= j < |g.rows| && gate.KeyOf(g.rows[j]) == key
  }

  ghost predicate ChildrenHaveHeaders(gate: Gate, g: TableWrite, c: TableWrite) {
    forall i :: 0 <= i < |c.rows| ==> HasHeader(gate, g, gate.KeyOf(c.rows[i]))
  }

  ghost predicate TablesKeyed(gate: Gate, store: Store, c: TableWrite) {
    && Keyed(TableOf(store, gate.gateTable), gate.keyColumns)
    && Keyed(TableOf(store, gate.childTable), c.keyColumns)
  }

  /** The hashed cells of a row; NULL and absent are one. */
  function Cells(row: Row, hashed: set<string>): Row {
    map column | column in hashed && column in row && row[column] != Null :: row[column]
  }

  /** What the child table holds for a header key. */
  ghost function Body(gate: Gate, table: Table, key: Key, hashed: set<string>): set<Row> {
    set k | k in table && gate.KeyOf(table[k]) == key :: Cells(table[k], hashed)
  }

  ghost function ProposedBody(gate: Gate, rows: seq<Row>, key: Key, hashed: set<string>): set<Row> {
    set i | 0 <= i < |rows| && gate.KeyOf(rows[i]) == key :: Cells(rows[i], hashed)
  }

  /** Every stored header's hash stands for its stored child rows. */
  ghost predicate Matches(gate: Gate, store: Store, hashed: set<string>, stands: Value -> set<Row>) {
    forall key :: key in TableOf(store, gate.gateTable) ==>
      Body(gate, TableOf(store, gate.childTable), key, hashed)
      == stands(Get(TableOf(store, gate.gateTable)[key], "content_hash"))
  }

  /** Every proposed header's hash stands for its proposed child rows. */
  ghost predicate Honest(gate: Gate, g: TableWrite, c: TableWrite, hashed: set<string>, stands: Value -> set<Row>) {
    forall j :: 0 <= j < |g.rows| ==>
      ProposedBody(gate, c.rows, gate.KeyOf(g.rows[j]), hashed) == stands(Get(g.rows[j], "content_hash"))
  }

  // --------------------------------------------------------- the tables after

  lemma {:induction false} SelectedSatisfy(writes: seq<TableWrite>, select: TableWrite -> bool)
    ensures forall i :: 0 <= i < |Selected(writes, select)| ==> select(Selected(writes, select)[i])
  {
    if writes != [] {
      SelectedSatisfy(writes[..|writes| - 1], select);
    }
  }

  lemma IfRowsTable(store: Store, w: TableWrite)
    requires w.mode.Upsert?
    ensures TableOf(Performed(store, IfRows(w)), w.table) == WrittenTable(TableOf(store, w.table), w)
  {
    if w.rows == [] {
      PutNothing(TableOf(store, w.table), w.updateColumns);
    } else {
      assert [Apply(w)][..0] == [];
    }
  }

  lemma HeaderActionsTable(gate: Gate, store: Store, g: TableWrite, keys: set<Key>)
    requires g.mode.Upsert?
    ensures TableOf(Performed(store, HeaderActions(gate, g, keys)), g.table)
         == WrittenTable(WrittenTable(TableOf(store, g.table), ChangedHeaders(gate, g, keys)),
             UnchangedHeaders(gate, g, keys))
  {
    var a, b := ChangedHeaders(gate, g, keys), UnchangedHeaders(gate, g, keys);
    ActionsConcat(store, Stats(map[], map[], map[]), IfRows(a), IfRows(b));
    IfRowsTable(store, a);
    IfRowsTable(Performed(store, IfRows(a)), b);
  }

  lemma ChildActionsTable(gate: Gate, store: Store, c: TableWrite, keys: set<Key>, changed: seq<Row>)
    ensures TableOf(Performed(store, ChildActions(gate, c, keys, changed)), c.table)
         == if changed == [] then TableOf(store, c.table)
           else WrittenTable(TableOf(store, c.table), ChildWrite(gate, c, keys, changed))
  {
    var actions := ChildActions(gate, c, keys, changed);
    var n := |actions| - 1;
    UntouchedTable(store, actions[..n], c.table);
  }

  lemma OneHeaderWrite(gate: Gate, g: TableWrite, keys: set<Key>)
    ensures AllRows([g]) == g.rows && AllHeaderActions(gate, [g], keys) == HeaderActions(gate, g, keys)
  {
    assert [g][..0] == [];
    assert AllRows([]) == [] && [] + g.rows == g.rows;
    assert AllHeaderActions(gate, [], keys) == [];
  }

  lemma OneChildWrite(gate: Gate, c: TableWrite, keys: set<Key>, changed: seq<Row>)
    ensures AllChildActions(gate, [c], keys, changed) == ChildActions(gate, c, keys, changed)
  {
    assert [c][..0] == [];
    assert AllChildActions(gate, [], keys, changed) == [];
  }

  /** With one header write and one child write the gate does this. */
  lemma ShapedActions(gate: Gate, store: Store, result: NormalizedResult, g: TableWrite, c: TableWrite,
                      fullRefresh: bool)
    requires For(result.writes, gate.gateTable) == [g] && For(result.writes, gate.childTable) == [c]
    ensures var keys, changed := UnchangedKeys(gate, store, g.rows, fullRefresh),
        ChangedRows(gate, store, g.rows, fullRefresh);
      Actions(gate, store, result, fullRefresh)
      == HeaderActions(gate, g, keys) + ChildActions(gate, c, keys, changed) + Applies(Others(gate, result.writes))
  {
    OneHeaderWrite(gate, g, UnchangedKeys(gate, store, g.rows, fullRefresh));
    OneChildWrite(gate, c, UnchangedKeys(gate, store, g.rows, fullRefresh),
        ChangedRows(gate, store, g.rows, fullRefresh));
  }

  lemma OthersElsewhere(gate: Gate, result: NormalizedResult)
    ensures forall i :: 0 <= i < |Applies(Others(gate, result.writes))| ==>
              var w := Applies(Others(gate, result.writes))[i].write;
                w.table != gate.gateTable && w.table != gate.childTable
  {
    SelectedSatisfy(result.writes, (w: TableWrite) => w.table != gate.gateTable && w.table != gate.childTable);
  }

  lemma ThreePhases(store: Store, a: seq<Action>, b: seq<Action>, c: seq<Action>)
    ensures Performed(store, a + b + c) == Performed(Performed(Performed(store, a), b), c)
  {
    ActionsConcat(store, Stats(map[], map[], map[]), a + b, c);
    ActionsConcat(store, Stats(map[], map[], map[]), a, b);
  }

  lemma PhaseTables(gate: Gate, store: Store, g: TableWrite, c: TableWrite, keys: set<Key>, changed: seq<Row>,
                    others: seq<Action>)
    requires g.mode.Upsert? && g.table == gate.gateTable && c.table == gate.childTable
        && gate.gateTable != gate.childTable
    requires forall i :: 0 <= i < |others| ==> others[i].Apply? ==>
               others[i].write.table != gate.gateTable && others[i].write.table != gate.childTable
    ensures var after := Performed(store, HeaderActions(gate, g, keys) + ChildActions(gate, c, keys, changed) + others);
      && TableOf(after, gate.gateTable)
         == WrittenTable(WrittenTable(TableOf(store, gate.gateTable), ChangedHeaders(gate, g, keys)),
             UnchangedHeaders(gate, g, keys))
      && TableOf(after, gate.childTable)
         == if changed == [] then TableOf(store, gate.childTable)
            else WrittenTable(TableOf(store, gate.childTable), ChildWrite(gate, c, keys, changed))
  {
    var headers, children := HeaderActions(gate, g, keys), ChildActions(gate, c, keys, changed);
    var store1 := Performed(store, headers);
    var store2 := Performed(store1, children);
    ThreePhases(store, headers, children, others);
    HeaderActionsTable(gate, store, g, keys);
    UntouchedTable(store, headers, gate.childTable);
    UntouchedTable(store1, children, gate.gateTable);
    ChildActionsTable(gate, store1, c, keys, changed);
    OthersTouchNeither(gate, store2, others);
  }

  lemma OthersTouchNeither(gate: Gate, store: Store, others: seq<Action>)
    requires forall i :: 0 <= i < |others| ==> others[i].Apply? ==>
               others[i].write.table != gate.gateTable && others[i].write.table != gate.childTable
    ensures TableOf(Performed(store, others), gate.gateTable) == TableOf(store, gate.gateTable)
    ensures TableOf(Performed(store, others), gate.childTable) == TableOf(store, gate.childTable)
  {
    UntouchedTable(store, others, gate.gateTable);
    UntouchedTable(store, others, gate.childTable);
  }

  /** The two tables after the gate. */
  lemma TablesAfter(gate: Gate, store: Store, result: NormalizedResult, g: TableWrite, c: TableWrite, fullRefresh: bool)
    requires Shaped(gate, result, g, c)
    ensures var after := Gated(gate, store, result, fullRefresh);
      var keys, changed := UnchangedKeys(gate, store, g.rows, fullRefresh),
        ChangedRows(gate, store, g.rows, fullRefresh);
      && TableOf(after, gate.gateTable)
         == WrittenTable(WrittenTable(TableOf(store, gate.gateTable), ChangedHeaders(gate, g, keys)),
             UnchangedHeaders(gate, g, keys))
      && TableOf(after, gate.childTable)
         == if changed == [] then TableOf(store, gate.childTable)
            else WrittenTable(TableOf(store, gate.childTable), ChildWrite(gate, c, keys, changed))
  {
    ShapedActions(gate, store, result, g, c, fullRefresh);
    OthersElsewhere(gate, result);
    PhaseTables(gate, store, g, c, UnchangedKeys(gate, store, g.rows, fullRefresh),
                ChangedRows(gate, store, g.rows, fullRefresh), Applies(Others(gate, result.writes)));
  }

  // ---------------------------------------------------------------- header rows

  /** An upsert of uniform rows with distinct keys: a key that is proposed. */
  lemma UpsertedRow(table: Table, w: TableWrite, i: nat)
    requires w.mode.Upsert? && DistinctKeys(w.rows, w.keyColumns) && Uniform(w.rows) && i < |w.rows|
    ensures var key := Project(w.rows[i], w.keyColumns);
      && key in WrittenTable(table, w)
      && WrittenTable(table, w)[key]
         == if key in table then Overlaid(table[key], w.rows[i], ToSet(w.updateColumns)) else w.rows[i]
  {
    IncomingRow(w, i);
    UniformColumns(w.rows, i);
  }

  lemma UniformColumns(rows: seq<Row>, i: nat)
    requires Uniform(rows) && i < |rows|
    ensures Columns(rows) == rows[i].Keys && Aligned(rows[i], Columns(rows)) == rows[i]
  {
  }

  lemma RowsInShape(gate: Gate, rows: seq<Row>, keys: set<Key>, inside: bool)
    requires DistinctKeys(rows, gate.keyColumns) && Uniform(rows)
    ensures DistinctKeys(RowsIn(gate, rows, keys, inside), gate.keyColumns) && Uniform(RowsIn(gate, rows, keys, inside))
  {
    var some := RowsIn(gate, rows, keys, inside);
    RowsInDistinct(gate, rows, keys, inside, gate.keyColumns);
    forall i | 0 <= i < |some| ensures some[i] in rows {
      RowsInMembers(gate, rows, keys, inside, some[i]);
    }
  }

  lemma RowsInIndex(gate: Gate, rows: seq<Row>, keys: set<Key>, j: nat) returns (i: nat)
    requires j < |rows|
    ensures var some := RowsIn(gate, rows, keys, gate.KeyOf(rows[j]) in keys); i < |some| && some[i] == rows[j]
  {
    var row := rows[j];
    var some := RowsIn(gate, rows, keys, gate.KeyOf(row) in keys);
    RowsInMembers(gate, rows, keys, gate.KeyOf(row) in keys, row);
    assert row in some;
    i :| 0 <= i < |some| && some[i] == row;
  }

  lemma RowsInOtherKeys(gate: Gate, rows: seq<Row>, keys: set<Key>, inside: bool, key: Key)
    requires (key in keys) != inside
    ensures forall i :: 0 <= i < |RowsIn(gate, rows, keys, inside)| ==>
              Project(RowsIn(gate, rows, keys, inside)[i], gate.keyColumns) != key
  {
    var some := RowsIn(gate, rows, keys, inside);
    forall i | 0 <= i < |some| ensures gate.KeyOf(some[i]) != key {
      RowsInMembers(gate, rows, keys, inside, some[i]);
    }
  }

  ghost predicate HeaderWrite(gate: Gate, g: TableWrite) {
    g.mode.Upsert? && g.keyColumns == gate.keyColumns && DistinctKeys(g.rows, gate.keyColumns) && Uniform(g.rows)
  }

  function BothHeaderWrites(gate: Gate, headers: Table, g: TableWrite, keys: set<Key>): Table {
    WrittenTable(WrittenTable(headers, ChangedHeaders(gate, g, keys)), UnchangedHeaders(gate, g, keys))
  }

  lemma UnchangedHeaderPhase(gate: Gate, headers: Table, g: TableWrite, keys: set<Key>, j: nat)
    requires HeaderWrite(gate, g) && j < |g.rows| && gate.KeyOf(g.rows[j]) in keys
    ensures var key, after := gate.KeyOf(g.rows[j]), BothHeaderWrites(gate, headers, g, keys);
      key in after && after[key] == if key !in headers then g.rows[j]
        else Overlaid(headers[key], g.rows[j], {"fetched_at"})
  {
    var key, a, b := gate.KeyOf(g.rows[j]), ChangedHeaders(gate, g, keys), UnchangedHeaders(gate, g, keys);
    RowsInShape(gate, g.rows, keys, true);
    var i := RowsInIndex(gate, g.rows, keys, j);
    RowsInOtherKeys(gate, g.rows, keys, false, key);
    NotUpserted(headers, a, key);
    var middle := WrittenTable(headers, a);
    UpsertedRow(middle, b, i);
    UnchangedColumnSet();
  }

  lemma UnchangedColumnSet()
    ensures ToSet(UNCHANGED_UPDATE_COLUMNS) == {"fetched_at"}
  {
  }

  lemma ChangedHeaderPhase(gate: Gate, headers: Table, g: TableWrite, keys: set<Key>, j: nat)
    requires HeaderWrite(gate, g) && j < |g.rows| && gate.KeyOf(g.rows[j]) !in keys
    ensures var key, after := gate.KeyOf(g.rows[j]), BothHeaderWrites(gate, headers, g, keys);
      key in after && after[key] == if key !in headers then g.rows[j]
        else Overlaid(headers[key], g.rows[j], ToSet(g.updateColumns))
  {
    var key, a := gate.KeyOf(g.rows[j]), ChangedHeaders(gate, g, keys);
    RowsInShape(gate, g.rows, keys, false);
    var i := RowsInIndex(gate, g.rows, keys, j);
    RowsInOtherKeys(gate, g.rows, keys, true, key);
    UpsertedRow(headers, a, i);
    NotUpserted(WrittenTable(headers, a), UnchangedHeaders(gate, g, keys), key);
  }

  lemma MatchedIsStored(gate: Gate, store: Store, row: Row)
    requires Matched(gate, store, row) && Get(row, "content_hash") != Null
    ensures gate.KeyOf(row) in TableOf(store, gate.gateTable)
    ensures Get(TableOf(store, gate.gateTable)[gate.KeyOf(row)], "content_hash") == Get(row, "content_hash")
  {
  }

  /** The header row after the gate, for a header of the result. */
  lemma HeaderAfter(gate: Gate, store: Store, result: NormalizedResult, g: TableWrite, c: TableWrite,
                    fullRefresh: bool, j: nat)
    requires Shaped(gate, result, g, c) && j < |g.rows|
    ensures var key, headers, after := gate.KeyOf(g.rows[j]), TableOf(store, gate.gateTable),
        TableOf(Gated(gate, store, result, fullRefresh), gate.gateTable);
      && key in after
      && after[key] == if key !in headers then g.rows[j]
                       else Overlaid(headers[key], g.rows[j],
                              if Changes(gate, store, g.rows[j], fullRefresh) then ToSet(g.updateColumns)
                                else {"fetched_at"})
  {
    TablesAfter(gate, store, result, g, c, fullRefresh);
    UnchangedKey(gate, store, g.rows, fullRefresh, j);
    var headers, keys := TableOf(store, gate.gateTable), UnchangedKeys(gate, store, g.rows, fullRefresh);
    if Changes(gate, store, g.rows[j], fullRefresh) {
      ChangedHeaderPhase(gate, headers, g, keys, j);
    } else {
      UnchangedHeaderPhase(gate, headers, g, keys, j);
    }
  }

  /**
   A header row after the gate, cell by cell: the whole row under a new key, the update columns of a header whose
   hash moved or that is refreshed, and the time alone of any other.
   */
  lemma HeaderCells(gate: Gate, store: Store, result: NormalizedResult, g: TableWrite, c: TableWrite,
                    fullRefresh: bool, j: nat, column: string)
    requires Shaped(gate, result, g, c) && j < |g.rows|
    ensures var row, key, headers, after := g.rows[j], gate.KeyOf(g.rows[j]), TableOf(store, gate.gateTable),
        TableOf(Gated(gate, store, result, fullRefresh), gate.gateTable);
      && key in after
      && Get(after[key], column)
         == if key !in headers then Get(row, column)
            else if fullRefresh || Get(headers[key], "content_hash") != row["content_hash"] then
              if column in row && column in g.updateColumns then row[column] else Get(headers[key], column)
            else if column == "fetched_at" then row[column]
            else Get(headers[key], column)
  {
    var row, key, headers := g.rows[j], gate.KeyOf(g.rows[j]), TableOf(store, gate.gateTable);
    HeaderAfter(gate, store, result, g, c, fullRefresh, j);
    if key in headers {
      var columns := if Changes(gate, store, row, fullRefresh) then ToSet(g.updateColumns) else {"fetched_at"};
      OverlaidCell(headers[key], row, columns, column);
    }
  }

  /** Writes to further tables are applied whatever the gate decides. */
  lemma OthersAreWritten(gate: Gate, store: Store, result: NormalizedResult, g: TableWrite, c: TableWrite,
                         fullRefresh: bool, i: nat)
    requires For(result.writes, gate.gateTable) == [g] && g.table == gate.gateTable
    requires For(result.writes, gate.childTable) == [c] && c.table == gate.childTable
    requires i < |result.writes| && Alone(result.writes, i)
    requires result.writes[i].table != gate.gateTable && result.writes[i].table != gate.childTable
    ensures var w := result.writes[i];
      TableOf(Gated(gate, store, result, fullRefresh), w.table) == WrittenTable(TableOf(store, w.table), w)
  {
    var keys, changed := UnchangedKeys(gate, store, g.rows, fullRefresh), ChangedRows(gate, store, g.rows, fullRefresh);
    var k := OtherAlone(gate, result.writes, i);
    ShapedActions(gate, store, result, g, c, fullRefresh);
    OthersPhase(gate, store, g, c, keys, changed, Others(gate, result.writes), k);
  }

  lemma OtherAlone(gate: Gate, writes: seq<TableWrite>, i: nat) returns (k: nat)
    requires i < |writes| && Alone(writes, i)
    requires writes[i].table != gate.gateTable && writes[i].table != gate.childTable
    ensures k < |Others(gate, writes)| && Others(gate, writes)[k] == writes[i] && Alone(Others(gate, writes), k)
  {
    k := SelectedAlone(writes, (w: TableWrite) => w.table != gate.gateTable && w.table != gate.childTable, i);
  }

  lemma OthersPhase(gate: Gate, store: Store, g: TableWrite, c: TableWrite, keys: set<Key>, changed: seq<Row>,
                    others: seq<TableWrite>, k: nat)
    requires k < |others| && Alone(others, k)
    requires others[k].table != g.table && others[k].table != c.table
    ensures var after := Performed(store, HeaderActions(gate, g, keys) + ChildActions(gate, c, keys, changed)
          + Applies(others));
      TableOf(after, others[k].table) == WrittenTable(TableOf(store, others[k].table), others[k])
  {
    var headers, children := HeaderActions(gate, g, keys), ChildActions(gate, c, keys, changed);
    var store1 := Performed(store, headers);
    ThreePhases(store, headers, children, Applies(others));
    HeadersElsewhere(gate, store, g, keys, others[k].table);
    ChildrenElsewhere(gate, store1, c, keys, changed, others[k].table);
    WrittenAlone(Performed(store1, children), others, k);
  }

  lemma HeadersElsewhere(gate: Gate, store: Store, g: TableWrite, keys: set<Key>, name: string)
    requires name != g.table
    ensures TableOf(Performed(store, HeaderActions(gate, g, keys)), name) == TableOf(store, name)
  {
    UntouchedTable(store, HeaderActions(gate, g, keys), name);
  }

  lemma ChildrenElsewhere(gate: Gate, store: Store, c: TableWrite, keys: set<Key>, changed: seq<Row>, name: string)
    requires name != c.table
    ensures TableOf(Performed(store, ChildActions(gate, c, keys, changed)), name) == TableOf(store, name)
  {
    UntouchedTable(store, ChildActions(gate, c, keys, changed), name);
  }

  /** Headers that the result does not name stay as they are. */
  lemma HeaderElsewhere(gate: Gate, store: Store, result: NormalizedResult, g: TableWrite, c: TableWrite,
                        fullRefresh: bool, key: Key)
    requires Shaped(gate, result, g, c) && !HasHeader(gate, g, key)
    ensures var headers, after := TableOf(store, gate.gateTable),
        TableOf(Gated(gate, store, result, fullRefresh), gate.gateTable);
      (key in after <==> key in headers) && (key in headers ==> after[key] == headers[key])
  {
    var keys, headers := UnchangedKeys(gate, store, g.rows, fullRefresh), TableOf(store, gate.gateTable);
    TablesAfter(gate, store, result, g, c, fullRefresh);
    NoHeaderKey(gate, g, keys, true, key);
    NoHeaderKey(gate, g, keys, false, key);
    NotUpserted(headers, ChangedHeaders(gate, g, keys), key);
    NotUpserted(WrittenTable(headers, ChangedHeaders(gate, g, keys)), UnchangedHeaders(gate, g, keys), key);
  }

  lemma NoHeaderKey(gate: Gate, g: TableWrite, keys: set<Key>, inside: bool, key: Key)
    requires !HasHeader(gate, g, key)
    ensures forall i :: 0 <= i < |RowsIn(gate, g.rows, keys, inside)| ==>
              Project(RowsIn(gate, g.rows, keys, inside)[i], gate.keyColumns) != key
  {
    var some := RowsIn(gate, g.rows, keys, inside);
    forall i | 0 <= i < |some| ensures gate.KeyOf(some[i]) != key {
      RowsInMembers(gate, g.rows, keys, inside, some[i]);
      assert some[i] in g.rows;
      var j :| 0 <= j < |g.rows| && g.rows[j] == some[i];
    }
  }

  // ----------------------------------------------------------------- child rows

  lemma ScopeKeys(gate: Gate, w: TableWrite, keys: set<Key>, changed: seq<Row>)
    ensures Scopes(ChildWrite(gate, w, keys, changed)) == KeysOf(changed, gate.keyColumns)
  {
    var rows := ScopeRows(gate, changed);
    forall i | 0 <= i < |changed| ensures Project(rows[i], gate.keyColumns) == gate.KeyOf(changed[i]) {
      assert forall k :: 0 <= k < |gate.keyColumns| ==> gate.keyColumns[k] in gate.keyColumns;
    }
    assert forall i :: 0 <= i < |changed| ==> rows[i] == ScopeRow(gate, changed[i]);
  }

  /** The primary key of a child row includes its header's key. */
  ghost predicate ChildKeys(gate: Gate, c: TableWrite) {
    && DistinctKeys(c.rows, c.keyColumns)
    && forall column :: column in gate.keyColumns ==> column in c.keyColumns
  }

  lemma SameHeaderKey(gate: Gate, a: Row, b: Row, columns: seq<string>)
    requires Project(a, columns) == Project(b, columns)
    requires forall column :: column in gate.keyColumns ==> column in columns
    ensures gate.KeyOf(a) == gate.KeyOf(b)
  {
    SameProject(a, b, columns);
    assert forall k :: 0 <= k < |gate.keyColumns| ==> gate.keyColumns[k] in gate.keyColumns;
  }

  lemma AlignedCells(gate: Gate, rows: seq<Row>, i: nat, hashed: set<string>)
    requires i < |rows|
    ensures Cells(Aligned(rows[i], Columns(rows)), hashed) == Cells(rows[i], hashed)
    ensures gate.KeyOf(Aligned(rows[i], Columns(rows))) == gate.KeyOf(rows[i])
  {
    AlignedProject(rows, i, gate.keyColumns);
    var a := Aligned(rows[i], Columns(rows));
    forall column ensures column in Cells(a, hashed) <==> column in Cells(rows[i], hashed) {
      AlignedCell(rows, i, column);
    }
    forall column | column in Cells(a, hashed) ensures Cells(a, hashed)[column] == Cells(rows[i], hashed)[column] {
      AlignedCell(rows, i, column);
    }
  }

  /** A child row after the write: stored before outside the scope, or proposed. */
  lemma ChildRowAfter(gate: Gate, table: Table, w: TableWrite, k: Key)
    requires Keyed(table, w.keyColumns) && ChildKeys(gate, w)
    requires w.mode.ReplaceScope? && w.scopeColumns == gate.keyColumns
    requires k in WrittenTable(table, w)
    ensures var key := gate.KeyOf(WrittenTable(table, w)[k]);
      && (k in Cleared(table, w) ==> gate.KeyOf(table[k]) == key && key !in Scopes(w))
      && (k in Incoming(w) ==> gate.KeyOf(Incoming(w)[k]) == key)
      && (k in Incoming(w) && k !in Cleared(table, w) ==> WrittenTable(table, w)[k] == Incoming(w)[k])
      && (k !in Incoming(w) ==> WrittenTable(table, w)[k] == table[k])
  {
    WriteKeepsKeyed(table, w);
    IncomingKeyed(w);
    if k in Cleared(table, w) { SameHeaderKey(gate, WrittenTable(table, w)[k], table[k], w.keyColumns); }
    if k in Incoming(w) { SameHeaderKey(gate, WrittenTable(table, w)[k], Incoming(w)[k], w.keyColumns); }
  }

  /** In scope, a header's child rows are replaced by the proposed ones. */
  lemma ScopedChildren(gate: Gate, table: Table, w: TableWrite, key: Key, hashed: set<string>)
    requires Keyed(table, w.keyColumns) && ChildKeys(gate, w)
    requires w.mode.ReplaceScope? && w.scopeColumns == gate.keyColumns && key in Scopes(w)
    ensures Body(gate, WrittenTable(table, w), key, hashed) == ProposedBody(gate, w.rows, key, hashed)
  {
    var after := WrittenTable(table, w);
    forall cells | cells in Body(gate, after, key, hashed) ensures cells in ProposedBody(gate, w.rows, key, hashed) {
      var k :| k in after && gate.KeyOf(after[k]) == key && Cells(after[k], hashed) == cells;
      ChildRowAfter(gate, table, w, k);
      BatchRow(w.rows, w.keyColumns, Columns(w.rows), k);
      var i :| 0 <= i < |w.rows| && Project(w.rows[i], w.keyColumns) == k
        && Incoming(w)[k] == Aligned(w.rows[i], Columns(w.rows));
      AlignedCells(gate, w.rows, i, hashed);
    }
    forall cells | cells in ProposedBody(gate, w.rows, key, hashed) ensures cells in Body(gate, after, key, hashed) {
      var i :| 0 <= i < |w.rows| && gate.KeyOf(w.rows[i]) == key && Cells(w.rows[i], hashed) == cells;
      var k := Project(w.rows[i], w.keyColumns);
      IncomingRow(w, i);
      AlignedCells(gate, w.rows, i, hashed);
      ChildRowAfter(gate, table, w, k);
      assert after[k] == Incoming(w)[k];
    }
  }

  /** Out of scope, and with no row proposed, they stay. */
  lemma UnscopedChildren(gate: Gate, table: Table, w: TableWrite, key: Key, hashed: set<string>)
    requires Keyed(table, w.keyColumns) && ChildKeys(gate, w)
    requires w.mode.ReplaceScope? && w.scopeColumns == gate.keyColumns && key !in Scopes(w)
    requires forall i :: 0 <= i < |w.rows| ==> gate.KeyOf(w.rows[i]) != key
    ensures Body(gate, WrittenTable(table, w), key, hashed) == Body(gate, table, key, hashed)
  {
    var after := WrittenTable(table, w);
    forall k | k in Incoming(w) ensures gate.KeyOf(Incoming(w)[k]) != key {
      BatchRow(w.rows, w.keyColumns, Columns(w.rows), k);
      var i :| 0 <= i < |w.rows| && Project(w.rows[i], w.keyColumns) == k
        && Incoming(w)[k] == Aligned(w.rows[i], Columns(w.rows));
      AlignedCells(gate, w.rows, i, hashed);
    }
    forall cells | cells in Body(gate, after, key, hashed) ensures cells in Body(gate, table, key, hashed) {
      var k :| k in after && gate.KeyOf(after[k]) == key && Cells(after[k], hashed) == cells;
      ChildRowAfter(gate, table, w, k);
    }
    forall cells | cells in Body(gate, table, key, hashed) ensures cells in Body(gate, after, key, hashed) {
      var k :| k in table && gate.KeyOf(table[k]) == key && Cells(table[k], hashed) == cells;
      assert k in Cleared(table, w);
      ChildRowAfter(gate, table, w, k);
    }
  }

  lemma KeptChildren(gate: Gate, rows: seq<Row>, keys: set<Key>, key: Key, hashed: set<string>)
    requires key !in keys
    ensures ProposedBody(gate, RowsIn(gate, rows, keys, false), key, hashed) == ProposedBody(gate, rows, key, hashed)
  {
    var kept := RowsIn(gate, rows, keys, false);
    forall cells | cells in ProposedBody(gate, kept, key, hashed)
      ensures cells in ProposedBody(gate, rows, key, hashed)
    {
      var i :| 0 <= i < |kept| && gate.KeyOf(kept[i]) == key && Cells(kept[i], hashed) == cells;
      RowsInMembers(gate, rows, keys, false, kept[i]);
      assert kept[i] in kept;
      var j :| 0 <= j < |rows| && rows[j] == kept[i];
    }
    forall cells | cells in ProposedBody(gate, rows, key, hashed)
      ensures cells in ProposedBody(gate, kept, key, hashed)
    {
      var j :| 0 <= j < |rows| && gate.KeyOf(rows[j]) == key && Cells(rows[j], hashed) == cells;
      var i := RowsInIndex(gate, rows, keys, j);
    }
  }

  /** Some header with this key counts as changed. */
  ghost predicate KeyChanges(gate: Gate, store: Store, g: TableWrite, fullRefresh: bool, key: Key) {
    exists j :: 0 <= j < |g.rows| && gate.KeyOf(g.rows[j]) == key && Changes(gate, store, g.rows[j], fullRefresh)
  }

  lemma ScopeIsChangedKeys(gate: Gate, store: Store, rows: seq<Row>, fullRefresh: bool, key: Key)
    ensures key in KeysOf(ChangedRows(gate, store, rows, fullRefresh), gate.keyColumns)
       <==> exists j :: 0 <= j < |rows| && gate.KeyOf(rows[j]) == key && Changes(gate, store, rows[j], fullRefresh)
  {
    var changed := ChangedRows(gate, store, rows, fullRefresh);
    if i :| 0 <= i < |changed| && Project(changed[i], gate.keyColumns) == key {
      ChangedMembers(gate, store, rows, fullRefresh, changed[i]);
      assert changed[i] in changed;
      var j :| 0 <= j < |rows| && rows[j] == changed[i];
    }
    if j :| 0 <= j < |rows| && gate.KeyOf(rows[j]) == key && Changes(gate, store, rows[j], fullRefresh) {
      ChangedMembers(gate, store, rows, fullRefresh, rows[j]);
      assert rows[j] in rows;
      var i :| 0 <= i < |changed| && changed[i] == rows[j];
      assert Project(changed[i], gate.keyColumns) == key;
    }
  }

  lemma ChildWriteKeys(gate: Gate, c: TableWrite, keys: set<Key>, changed: seq<Row>)
    requires ChildKeys(gate, c)
    ensures ChildKeys(gate, ChildWrite(gate, c, keys, changed))
  {
    RowsInDistinct(gate, c.rows, keys, false, c.keyColumns);
  }

  function ChildTableAfter(gate: Gate, store: Store, table: Table, g: TableWrite, c: TableWrite,
                           fullRefresh: bool): Table {
    var keys, changed := UnchangedKeys(gate, store, g.rows, fullRefresh), ChangedRows(gate, store, g.rows, fullRefresh);
    if changed == [] then table else WrittenTable(table, ChildWrite(gate, c, keys, changed))
  }

  lemma ChangedChildren(gate: Gate, store: Store, table: Table, g: TableWrite, c: TableWrite,
                        fullRefresh: bool, key: Key, hashed: set<string>)
    requires DistinctKeys(g.rows, gate.keyColumns) && ChildKeys(gate, c) && Keyed(table, c.keyColumns)
    requires KeyChanges(gate, store, g, fullRefresh, key)
    ensures Body(gate, ChildTableAfter(gate, store, table, g, c, fullRefresh), key, hashed)
        == ProposedBody(gate, c.rows, key, hashed)
  {
    var keys, changed := UnchangedKeys(gate, store, g.rows, fullRefresh), ChangedRows(gate, store, g.rows, fullRefresh);
    ScopeIsChangedKeys(gate, store, g.rows, fullRefresh, key);
    ScopeKeys(gate, c, keys, changed);
    ChildWriteKeys(gate, c, keys, changed);
    var j :| 0 <= j < |g.rows| && gate.KeyOf(g.rows[j]) == key && Changes(gate, store, g.rows[j], fullRefresh);
    UnchangedKey(gate, store, g.rows, fullRefresh, j);
    ScopedChildren(gate, table, ChildWrite(gate, c, keys, changed), key, hashed);
    KeptChildren(gate, c.rows, keys, key, hashed);
  }

  lemma UnchangedChildren(gate: Gate, store: Store, table: Table, g: TableWrite, c: TableWrite,
                          fullRefresh: bool, key: Key, hashed: set<string>)
    requires DistinctKeys(g.rows, gate.keyColumns) && ChildKeys(gate, c) && Keyed(table, c.keyColumns)
    requires ChildrenHaveHeaders(gate, g, c) && !KeyChanges(gate, store, g, fullRefresh, key)
    ensures Body(gate, ChildTableAfter(gate, store, table, g, c, fullRefresh), key, hashed)
        == Body(gate, table, key, hashed)
  {
    var keys, changed := UnchangedKeys(gate, store, g.rows, fullRefresh), ChangedRows(gate, store, g.rows, fullRefresh);
    if changed != [] {
      var w := ChildWrite(gate, c, keys, changed);
      assert key !in Scopes(w) by {
        ScopeIsChangedKeys(gate, store, g.rows, fullRefresh, key);
        ScopeKeys(gate, c, keys, changed);
      }
      assert ChildKeys(gate, w) by { ChildWriteKeys(gate, c, keys, changed); }
      NoKeptChild(gate, store, g, c, fullRefresh, key);
      assert w.rows == RowsIn(gate, c.rows, keys, false);
      UnscopedChildren(gate, table, w, key, hashed);
    }
  }

  /** The child rows of a header key after the gate. */
  lemma ChildrenAfter(gate: Gate, store: Store, result: NormalizedResult, g: TableWrite, c: TableWrite,
                      fullRefresh: bool, key: Key, hashed: set<string>)
    requires Shaped(gate, result, g, c) && ChildrenHaveHeaders(gate, g, c) && TablesKeyed(gate, store, c)
    ensures Body(gate, TableOf(Gated(gate, store, result, fullRefresh), gate.childTable), key, hashed)
         == if KeyChanges(gate, store, g, fullRefresh, key) then ProposedBody(gate, c.rows, key, hashed)
            else Body(gate, TableOf(store, gate.childTable), key, hashed)
  {
    TablesAfter(gate, store, result, g, c, fullRefresh);
    if KeyChanges(gate, store, g, fullRefresh, key) {
      ChangedChildren(gate, store, TableOf(store, gate.childTable), g, c, fullRefresh, key, hashed);
    } else {
      UnchangedChildren(gate, store, TableOf(store, gate.childTable), g, c, fullRefresh, key, hashed);
    }
  }

  lemma NoKeptChild(gate: Gate, store: Store, g: TableWrite, c: TableWrite, fullRefresh: bool, key: Key)
    requires DistinctKeys(g.rows, gate.keyColumns) && ChildrenHaveHeaders(gate, g, c)
    requires !KeyChanges(gate, store, g, fullRefresh, key)
    ensures var kept := RowsIn(gate, c.rows, UnchangedKeys(gate, store, g.rows, fullRefresh), false);
      forall i :: 0 <= i < |kept| ==> gate.KeyOf(kept[i]) != key
  {
    var keys := UnchangedKeys(gate, store, g.rows, fullRefresh);
    var kept := RowsIn(gate, c.rows, keys, false);
    forall i | 0 <= i < |kept| ensures gate.KeyOf(kept[i]) != key {
      RowsInMembers(gate, c.rows, keys, false, kept[i]);
      assert kept[i] in kept;
      var m :| 0 <= m < |c.rows| && c.rows[m] == kept[i];
      assert HasHeader(gate, g, gate.KeyOf(c.rows[m]));
      var j :| 0 <= j < |g.rows| && gate.KeyOf(g.rows[j]) == gate.KeyOf(kept[i]);
      UnchangedKey(gate, store, g.rows, fullRefresh, j);
    }
  }

  // ------------------------------------------------------------------- theorems

  /** What the gate is assumed of: a shaped, honest result for tables whose hashes match. */
  ghost predicate Ready(gate: Gate, store: Store, result: NormalizedResult, g: TableWrite, c: TableWrite,
                        hashed: set<string>, stands: Value -> set<Row>)
  {
    && Shaped(gate, result, g, c) && ChildrenHaveHeaders(gate, g, c) && TablesKeyed(gate, store, c)
    && Matches(gate, store, hashed, stands) && Honest(gate, g, c, hashed, stands)
  }

  /** With or without a refresh, headers of the result get their proposed child rows, others keep theirs. */
  lemma BodyAfter(gate: Gate, store: Store, result: NormalizedResult, g: TableWrite, c: TableWrite, fullRefresh: bool,
                  hashed: set<string>, stands: Value -> set<Row>, key: Key)
    requires Ready(gate, store, result, g, c, hashed, stands)
    ensures Body(gate, TableOf(Gated(gate, store, result, fullRefresh), gate.childTable), key, hashed)
         == if HasHeader(gate, g, key) then ProposedBody(gate, c.rows, key, hashed)
            else Body(gate, TableOf(store, gate.childTable), key, hashed)
  {
    ChildrenAfter(gate, store, result, g, c, fullRefresh, key, hashed);
    if HasHeader(gate, g, key) && !KeyChanges(gate, store, g, fullRefresh, key) {
      var j :| 0 <= j < |g.rows| && gate.KeyOf(g.rows[j]) == key;
      MatchedIsStored(gate, store, g.rows[j]);
    }
  }

  lemma MatchesAfter(gate: Gate, store: Store, result: NormalizedResult, g: TableWrite, c: TableWrite,
                     fullRefresh: bool,
                     hashed: set<string>, stands: Value -> set<Row>)
    requires Ready(gate, store, result, g, c, hashed, stands)
    ensures Matches(gate, Gated(gate, store, result, fullRefresh), hashed, stands)
  {
    var after := Gated(gate, store, result, fullRefresh);
    forall key | key in TableOf(after, gate.gateTable)
      ensures Body(gate, TableOf(after, gate.childTable), key, hashed)
           == stands(Get(TableOf(after, gate.gateTable)[key], "content_hash"))
    {
      BodyAfter(gate, store, result, g, c, fullRefresh, hashed, stands, key);
      if HasHeader(gate, g, key) {
        var j :| 0 <= j < |g.rows| && gate.KeyOf(g.rows[j]) == key;
        HeaderHash(gate, store, result, g, c, fullRefresh, j);
      } else {
        HeaderElsewhere(gate, store, result, g, c, fullRefresh, key);
      }
    }
  }

  /** The gate moves no row away from its primary key. */
  lemma KeyedAfter(gate: Gate, store: Store, result: NormalizedResult, g: TableWrite, c: TableWrite, fullRefresh: bool)
    requires Shaped(gate, result, g, c) && TablesKeyed(gate, store, c)
    ensures TablesKeyed(gate, Gated(gate, store, result, fullRefresh), c)
  {
    var keys, changed := UnchangedKeys(gate, store, g.rows, fullRefresh), ChangedRows(gate, store, g.rows, fullRefresh);
    TablesAfter(gate, store, result, g, c, fullRefresh);
    var headers := TableOf(store, gate.gateTable);
    WriteKeepsKeyed(headers, ChangedHeaders(gate, g, keys));
    WriteKeepsKeyed(WrittenTable(headers, ChangedHeaders(gate, g, keys)), UnchangedHeaders(gate, g, keys));
    WriteKeepsKeyed(TableOf(store, gate.childTable), ChildWrite(gate, c, keys, changed));
  }

  /**
   Skipping unchanged headers is not observable: if every stored hash stands for its stored child
   rows, the gated write leaves the same hashed child rows as rewriting every header, leaves
   headers outside the result alone, and keeps the correspondence and the tables in order.
   */
  lemma {:induction false} GateRefinesRewrite(gate: Gate, store: Store, result: NormalizedResult, g: TableWrite,
                                              c: TableWrite,
                                              hashed: set<string>, stands: Value -> set<Row>)
    requires Ready(gate, store, result, g, c, hashed, stands)
    ensures var gated, rewritten := Gated(gate, store, result, false), Gated(gate, store, result, true);
      && (forall key :: Body(gate, TableOf(gated, gate.childTable), key, hashed)
                     == Body(gate, TableOf(rewritten, gate.childTable), key, hashed))
      && (forall key :: !HasHeader(gate, g, key) ==>
            Body(gate, TableOf(gated, gate.childTable), key, hashed)
              == Body(gate, TableOf(store, gate.childTable), key, hashed))
      && Matches(gate, gated, hashed, stands) && TablesKeyed(gate, gated, c)
  {
    var gated, rewritten := Gated(gate, store, result, false), Gated(gate, store, result, true);
    forall key
      ensures Body(gate, TableOf(gated, gate.childTable), key, hashed)
          == Body(gate, TableOf(rewritten, gate.childTable), key, hashed)
      ensures !HasHeader(gate, g, key) ==>
        Body(gate, TableOf(gated, gate.childTable), key, hashed)
          == Body(gate, TableOf(store, gate.childTable), key, hashed)
    {
      BodyAfter(gate, store, result, g, c, false, hashed, stands, key);
      BodyAfter(gate, store, result, g, c, true, hashed, stands, key);
    }
    MatchesAfter(gate, store, result, g, c, false, hashed, stands);
    KeyedAfter(gate, store, result, g, c, false);
  }

  /** After the gate every header of the result carries its new hash and its new time. */
  lemma HeaderHash(gate: Gate, store: Store, result: NormalizedResult, g: TableWrite, c: TableWrite,
                   fullRefresh: bool, j: nat)
    requires Shaped(gate, result, g, c) && j < |g.rows|
    ensures var key, after := gate.KeyOf(g.rows[j]), TableOf(Gated(gate, store, result, fullRefresh), gate.gateTable);
      && key in after
      && Get(after[key], "content_hash") == Get(g.rows[j], "content_hash")
      && Get(after[key], "fetched_at") == Get(g.rows[j], "fetched_at")
  {
    var row, headers := g.rows[j], TableOf(store, gate.gateTable);
    var key := gate.KeyOf(row);
    HeaderAfter(gate, store, result, g, c, fullRefresh, j);
    if key in headers {
      var columns := if Changes(gate, store, row, fullRefresh) then ToSet(g.updateColumns) else {"fetched_at"};
      OverlaidCell(headers[key], row, columns, "content_hash");
      OverlaidCell(headers[key], row, columns, "fetched_at");
      if !Changes(gate, store, row, fullRefresh) { MatchedIsStored(gate, store, row); }
    }
  }

  /** The stored row has the proposed value in every update column but the time. */
  ghost predicate UpToDate(stored: Row, row: Row, updateColumns: seq<string>) {
    forall column :: column in row && column in updateColumns && column != "fetched_at" ==>
      Get(stored, column) == row[column]
  }

  /** Cell by cell, the same row. */
  ghost predicate SameCells(a: Row, b: Row) {
    forall column :: Get(a, column) == Get(b, column)
  }

  /**
   A header row itself is the rewritten one exactly if it changed, or its stored row already has
   the result's value in every update column: columns outside the hash are not refreshed.
   */
  lemma HeaderIsRewrittenIff(gate: Gate, store: Store, result: NormalizedResult, g: TableWrite, c: TableWrite, j: nat)
    requires Shaped(gate, result, g, c) && j < |g.rows|
    ensures var row, key, headers := g.rows[j], gate.KeyOf(g.rows[j]), TableOf(store, gate.gateTable);
      var gated, rewritten := TableOf(Gated(gate, store, result, false), gate.gateTable),
        TableOf(Gated(gate, store, result, true), gate.gateTable);
      && key in gated && key in rewritten
      && (SameCells(gated[key], rewritten[key]) <==>
            || Changes(gate, store, row, false)
            || (key in headers && UpToDate(headers[key], row, g.updateColumns)))
  {
    var row, headers := g.rows[j], TableOf(store, gate.gateTable);
    var key, columns := gate.KeyOf(row), ToSet(g.updateColumns);
    HeaderAfter(gate, store, result, g, c, false, j);
    HeaderAfter(gate, store, result, g, c, true, j);
    if !Changes(gate, store, row, false) {
      MatchedIsStored(gate, store, row);
      forall column
        ensures Get(Overlaid(headers[key], row, {"fetched_at"}), column)
            == Get(Overlaid(headers[key], row, columns), column)
           <==> (column in row && column in g.updateColumns && column != "fetched_at" ==>
               Get(headers[key], column) == row[column])
      {
        OverlaidCell(headers[key], row, {"fetched_at"}, column);
        OverlaidCell(headers[key], row, columns, column);
      }
    }
  }

  const GATE_KEY: seq<string> := ["symbol", "statement", "freq", "period_end"]
  const PERIODS: Gate := Gate("financial_periods", "financial_facts", GATE_KEY)
  const PERIOD_UPDATE_COLUMNS: seq<string> := ["currency", "item_count", "raw_json", "content_hash", "fetched_at"]

  /** A statement of one period without facts, as `normalize` gives it. */
  function OnePeriod(row: Row): NormalizedResult {
    NormalizedResult([PeriodHeader(row), NoFacts()], map[])
  }

  function PeriodHeader(row: Row): TableWrite {
    TableWrite("financial_periods", [row], GATE_KEY, PERIOD_UPDATE_COLUMNS, Upsert, ["symbol"], None)
  }

  function NoFacts(): TableWrite {
    TableWrite("financial_facts", [], GATE_KEY + ["item_key"], ["value"], ReplaceScope, GATE_KEY, None)
  }

  lemma ForStep(writes: seq<TableWrite>, w: TableWrite, table: string)
    ensures For(writes + [w], table) == For(writes, table) + if w.table == table then [w] else []
  {
    assert (writes + [w])[..|writes|] == writes;
  }

  lemma OnePeriodShaped(row: Row)
    requires "fetched_at" in row && "content_hash" in row && row["content_hash"] != Null
    ensures Shaped(PERIODS, OnePeriod(row), PeriodHeader(row), NoFacts())
  {
    var header, facts := PeriodHeader(row), NoFacts();
    assert OnePeriod(row).writes == [] + [header] + [facts];
    forall table | table in {"financial_periods", "financial_facts"}
      ensures For([header, facts], table) == if table == header.table then [header] else [facts]
    {
      ForStep([], header, table);
      ForStep([header], facts, table);
      assert [] + [header] == [header] && [header] + [facts] == [header, facts];
    }
    assert PERIOD_UPDATE_COLUMNS[3] == "content_hash" && PERIOD_UPDATE_COLUMNS[4] == "fetched_at";
    assert forall k :: 0 <= k < 4 ==> (GATE_KEY + ["item_key"])[k] == GATE_KEY[k];
  }

  function OnePeriodStored(row: Row): Store {
    map["financial_periods" := map[PERIODS.KeyOf(row) := row]]
  }

  /** The gate leaves another header row than a refresh does. */
  ghost predicate LeftBehind(store: Store, result: NormalizedResult, key: Key) {
    var gated := TableOf(Gated(PERIODS, store, result, false), PERIODS.gateTable);
    var rewritten := TableOf(Gated(PERIODS, store, result, true), PERIODS.gateTable);
    key in gated && key in rewritten && !SameCells(gated[key], rewritten[key])
  }

  /** A new currency under an unchanged hash: the gate leaves the stored header behind, a refresh does not. */
  lemma {:induction false} CurrencyStaysBehind(row: Row, currency: Value)
    requires "currency" in row && "content_hash" in row && "fetched_at" in row
    requires row["content_hash"] != Null && currency != row["currency"]
    ensures LeftBehind(OnePeriodStored(row), OnePeriod(row["currency" := currency]), PERIODS.KeyOf(row))
  {
    var now, store := row["currency" := currency], OnePeriodStored(row);
    SameGateKey(row, currency);
    NotUpToDate(row, currency);
    BehindWhenNotUpToDate(store, now, row);
  }

  lemma NotUpToDate(row: Row, currency: Value)
    requires "currency" in row && currency != row["currency"]
    ensures !UpToDate(row, row["currency" := currency], PERIOD_UPDATE_COLUMNS)
  {
    var now := row["currency" := currency];
    assert PERIOD_UPDATE_COLUMNS[0] == "currency";
    assert "currency" in now && now["currency"] == currency;
  }

  lemma BehindWhenNotUpToDate(store: Store, now: Row, stored: Row)
    requires "fetched_at" in now && "content_hash" in now && now["content_hash"] != Null
    requires !Changes(PERIODS, store, now, false) && !UpToDate(stored, now, PERIOD_UPDATE_COLUMNS)
    requires var headers := TableOf(store, PERIODS.gateTable);
      PERIODS.KeyOf(now) in headers && headers[PERIODS.KeyOf(now)] == stored
    ensures LeftBehind(store, OnePeriod(now), PERIODS.KeyOf(now))
  {
    OnePeriodShaped(now);
    HeaderIsRewrittenIff(PERIODS, store, OnePeriod(now), PeriodHeader(now), NoFacts(), 0);
  }

  lemma SameGateKey(row: Row, currency: Value)
    ensures PERIODS.KeyOf(row["currency" := currency]) == PERIODS.KeyOf(row)
    ensures "content_hash" in row && row["content_hash"] != Null ==>
        Matched(PERIODS, OnePeriodStored(row), row["currency" := currency])
  {
    var now := row["currency" := currency];
    assert forall k :: 0 <= k < |GATE_KEY| ==> Get(now, GATE_KEY[k]) == Get(row, GATE_KEY[k]);
    assert PERIODS.KeyOf(now) == PERIODS.KeyOf(row);
  }

  /**
   A full refresh repairs: whatever was stored, every header of the result ends with exactly its
   proposed child rows, in every column, also when it has none.
   */
  lemma RefreshRepairs(gate: Gate, store: Store, result: NormalizedResult, g: TableWrite, c: TableWrite, j: nat,
                       columns: set<string>)
    requires Shaped(gate, result, g, c) && ChildrenHaveHeaders(gate, g, c) && TablesKeyed(gate, store, c)
    requires j < |g.rows|
    ensures var after := TableOf(Gated(gate, store, result, true), gate.childTable);
      && Body(gate, after, gate.KeyOf(g.rows[j]), columns) == ProposedBody(gate, c.rows, gate.KeyOf(g.rows[j]), columns)
      && ((forall i :: 0 <= i < |c.rows| ==> gate.KeyOf(c.rows[i]) != gate.KeyOf(g.rows[j])) ==>
            forall k :: k in after ==> gate.KeyOf(after[k]) != gate.KeyOf(g.rows[j]))
  {
    var key, after := gate.KeyOf(g.rows[j]), TableOf(Gated(gate, store, result, true), gate.childTable);
    assert Changes(gate, store, g.rows[j], true);
    ChildrenAfter(gate, store, result, g, c, true, key, columns);
    if k :| k in after && gate.KeyOf(after[k]) == key {
      assert Cells(after[k], columns) in Body(gate, after, key, columns);
    }
  }

  // --------------------------------------------------------------- accounting

  /** Every child row of the result has its header in the result. */
  ghost predicate RowHasHeader(gate: Gate, writes: seq<TableWrite>, row: Row) {
    exists g, j :: g in writes && g.table == gate.gateTable && 0 <= j < |g.rows|
      && gate.KeyOf(g.rows[j]) == gate.KeyOf(row)
  }

  ghost predicate AllHaveHeaders(gate: Gate, writes: seq<TableWrite>) {
    forall c, i :: c in writes && c.table == gate.childTable && 0 <= i < |c.rows| ==>
      RowHasHeader(gate, writes, c.rows[i])
  }

  /**
   Whatever writes a result has, each of its rows is counted once: as attempted, or, for a child row, as attempted
   or skipped. A child table that the result names stays in the counters.
   */
  lemma GateConservesRows(gate: Gate, store: Store, result: NormalizedResult, fullRefresh: bool, table: string)
    requires gate.gateTable != gate.childTable
    requires KeysApart(result.writes) && AllHaveHeaders(gate, result.writes)
    ensures var stats := CountedActions(Fresh(result), Actions(gate, store, result, fullRefresh));
      && Count(stats.attempted, table) + (Count(stats.skipped, table) - Count(result.skipped, table))
         == RowsFor(result.writes, table)
      && (table != gate.childTable ==> Count(stats.skipped, table) == Count(result.skipped, table))
      && ((exists w :: w in result.writes && w.table == table == gate.childTable) ==> stats.Lists(table))
  {
    ActionsActed(gate, store, result, fullRefresh, table);
    ActedCounts(Fresh(result), Actions(gate, store, result, fullRefresh), table);
    if w :| w in result.writes && w.table == table == gate.childTable {
      ChildConcerned(gate, store, result, fullRefresh, w);
    }
  }

  lemma ActionsActed(gate: Gate, store: Store, result: NormalizedResult, fullRefresh: bool, table: string)
    requires gate.gateTable != gate.childTable
    requires KeysApart(result.writes) && AllHaveHeaders(gate, result.writes)
    ensures RowsActed(Actions(gate, store, result, fullRefresh), table) == RowsFor(result.writes, table)
    ensures table != gate.childTable ==> RowsSkipped(Actions(gate, store, result, fullRefresh), table) == 0
  {
    var gates, children := For(result.writes, gate.gateTable), For(result.writes, gate.childTable);
    var keys, changed := UnchangedKeys(gate, store, AllRows(gates), fullRefresh),
      ChangedRows(gate, store, AllRows(gates), fullRefresh);
    PartsApart(gate, result.writes);
    if changed == [] { NothingKept(gate, store, result.writes, fullRefresh); }
    PhasesActed(gate, gates, children, Others(gate, result.writes), keys, changed, table);
    PartsAddUp(gate, result.writes, table);
  }

  lemma PhasesActed(gate: Gate, gates: seq<TableWrite>, children: seq<TableWrite>, others: seq<TableWrite>,
                    keys: set<Key>, changed: seq<Row>, table: string)
    requires KeysApart(gates) && KeysApart(children) && KeysApart(others)
    requires forall w :: w in children ==> w.table == gate.childTable
    requires changed == [] ==> forall w :: w in children ==> RowsIn(gate, w.rows, keys, false) == []
    ensures var actions := AllHeaderActions(gate, gates, keys) + AllChildActions(gate, children, keys, changed)
          + Applies(others);
      && RowsActed(actions, table) == RowsFor(gates, table) + RowsFor(children, table) + RowsFor(others, table)
      && (table != gate.childTable ==> RowsSkipped(actions, table) == 0)
  {
    var a, b := AllHeaderActions(gate, gates, keys), AllChildActions(gate, children, keys, changed);
    HeadersActed(gate, gates, keys, table);
    ChildrenActed(gate, children, keys, changed, table);
    ActedApplies(others, table);
    ActedConcat(a + b, Applies(others), table);
    ActedConcat(a, b, table);
  }

  lemma PartsApart(gate: Gate, writes: seq<TableWrite>)
    requires KeysApart(writes)
    ensures KeysApart(For(writes, gate.gateTable)) && KeysApart(For(writes, gate.childTable))
    ensures KeysApart(Others(gate, writes))
    ensures forall w :: w in For(writes, gate.childTable) ==> w.table == gate.childTable
  {
    SelectedApart(writes, (w: TableWrite) => w.table == gate.gateTable);
    SelectedApart(writes, (w: TableWrite) => w.table == gate.childTable);
    SelectedApart(writes, (w: TableWrite) => w.table != gate.gateTable && w.table != gate.childTable);
    forall w | w in For(writes, gate.childTable) ensures w.table == gate.childTable {
      InFor(writes, gate.childTable, w);
    }
  }

  lemma InFor(writes: seq<TableWrite>, table: string, w: TableWrite)
    ensures w in For(writes, table) <==> w in writes && w.table == table
  {
    SelectedNames(writes, (w: TableWrite) => w.table == table, w);
  }

  /** Every write is a header write, a child write or another one. */
  lemma {:induction false} PartsAddUp(gate: Gate, writes: seq<TableWrite>, table: string)
    requires gate.gateTable != gate.childTable
    ensures RowsFor(For(writes, gate.gateTable), table) + RowsFor(For(writes, gate.childTable), table)
            + RowsFor(Others(gate, writes), table) == RowsFor(writes, table)
  {
    if writes != [] {
      var n := |writes| - 1;
      PartsAddUp(gate, writes[..n], table);
      RowsForNext(For(writes[..n], gate.gateTable), writes[n], table);
      RowsForNext(For(writes[..n], gate.childTable), writes[n], table);
      RowsForNext(Others(gate, writes[..n]), writes[n], table);
    }
  }

  lemma IfRowsActed(w: TableWrite, table: string)
    requires w.keyColumns != [] && DistinctKeys(w.rows, w.keyColumns)
    ensures RowsActed(IfRows(w), table) == if w.table == table then |w.rows| else 0
    ensures RowsSkipped(IfRows(w), table) == 0
  {
    ActedOne(Apply(w), table);
    DistinctKeyCountIsRows(w.rows, w.keyColumns);
  }

  lemma {:induction false} HeadersActed(gate: Gate, writes: seq<TableWrite>, keys: set<Key>, table: string)
    requires KeysApart(writes)
    ensures RowsActed(AllHeaderActions(gate, writes, keys), table) == RowsFor(writes, table)
    ensures RowsSkipped(AllHeaderActions(gate, writes, keys), table) == 0
  {
    if writes != [] {
      var n := |writes| - 1;
      var w := writes[n];
      var a, b := ChangedHeaders(gate, w, keys), UnchangedHeaders(gate, w, keys);
      HeadersActed(gate, writes[..n], keys, table);
      ActedConcat(AllHeaderActions(gate, writes[..n], keys), HeaderActions(gate, w, keys), table);
      ActedConcat(IfRows(a), IfRows(b), table);
      RowsInDistinct(gate, w.rows, keys, false, w.keyColumns);
      RowsInDistinct(gate, w.rows, keys, true, w.keyColumns);
      IfRowsActed(a, table);
      IfRowsActed(b, table);
      RowsInCount(gate, w.rows, keys);
    }
  }

  lemma OneChildActed(gate: Gate, c: TableWrite, keys: set<Key>, changed: seq<Row>, table: string)
    requires c.keyColumns != [] && DistinctKeys(c.rows, c.keyColumns)
    requires changed == [] ==> RowsIn(gate, c.rows, keys, false) == []
    ensures RowsActed(ChildActions(gate, c, keys, changed), table) == if c.table == table then |c.rows| else 0
    ensures c.table != table ==> RowsSkipped(ChildActions(gate, c, keys, changed), table) == 0
  {
    var kept := RowsIn(gate, c.rows, keys, false);
    var dropped := |c.rows| - |kept|;
    var skips := if dropped != 0 then [Skip(c.table, dropped)] else [];
    var last := if changed == [] then Keep(c.table) else Apply(ChildWrite(gate, c, keys, changed));
    ActedConcat(skips, [last], table);
    ActedOne(Skip(c.table, dropped), table);
    KeptActed(gate, c, keys, changed, table);
  }

  lemma KeptActed(gate: Gate, c: TableWrite, keys: set<Key>, changed: seq<Row>, table: string)
    requires c.keyColumns != [] && DistinctKeys(c.rows, c.keyColumns)
    requires changed == [] ==> RowsIn(gate, c.rows, keys, false) == []
    ensures var last := if changed == [] then Keep(c.table) else Apply(ChildWrite(gate, c, keys, changed));
      && RowsActed([last], table) == (if c.table == table then |RowsIn(gate, c.rows, keys, false)| else 0)
      && RowsSkipped([last], table) == 0
  {
    ActedOne(if changed == [] then Keep(c.table) else Apply(ChildWrite(gate, c, keys, changed)), table);
    RowsInDistinct(gate, c.rows, keys, false, c.keyColumns);
    DistinctKeyCountIsRows(RowsIn(gate, c.rows, keys, false), c.keyColumns);
  }

  lemma {:induction false} ChildrenActed(gate: Gate, writes: seq<TableWrite>, keys: set<Key>, changed: seq<Row>,
                                         table: string)
    requires KeysApart(writes) && forall w :: w in writes ==> w.table == gate.childTable
    requires changed == [] ==> forall w :: w in writes ==> RowsIn(gate, w.rows, keys, false) == []
    ensures RowsActed(AllChildActions(gate, writes, keys, changed), table) == RowsFor(writes, table)
    ensures table != gate.childTable ==> RowsSkipped(AllChildActions(gate, writes, keys, changed), table) == 0
  {
    if writes != [] {
      var n := |writes| - 1;
      assert writes[n] in writes;
      ChildrenActed(gate, writes[..n], keys, changed, table);
      ActedConcat(AllChildActions(gate, writes[..n], keys, changed), ChildActions(gate, writes[n], keys, changed),
                  table);
      OneChildActed(gate, writes[n], keys, changed, table);
    }
  }

  lemma ChildConcerned(gate: Gate, store: Store, result: NormalizedResult, fullRefresh: bool, w: TableWrite)
    requires w in result.writes && w.table == gate.childTable
    ensures SomeConcerns(Actions(gate, store, result, fullRefresh), w.table)
  {
    var gates, children := For(result.writes, gate.gateTable), For(result.writes, gate.childTable);
    var keys, changed := UnchangedKeys(gate, store, AllRows(gates), fullRefresh),
      ChangedRows(gate, store, AllRows(gates), fullRefresh);
    InFor(result.writes, gate.childTable, w);
    MemberConcerned(gate, children, keys, changed, w);
    ConcernsInside(AllHeaderActions(gate, gates, keys), AllChildActions(gate, children, keys, changed),
                   Applies(Others(gate, result.writes)), w.table);
  }

  lemma ConcernsInside(a: seq<Action>, b: seq<Action>, c: seq<Action>, table: string)
    requires SomeConcerns(b, table)
    ensures SomeConcerns(a + b + c, table)
  {
    var i :| 0 <= i < |b| && Concerns(b[i], table);
    assert (a + b + c)[|a| + i] == b[i];
  }

  lemma {:induction false} MemberConcerned(gate: Gate, writes: seq<TableWrite>, keys: set<Key>, changed: seq<Row>,
                                           w: TableWrite)
    requires w in writes
    ensures SomeConcerns(AllChildActions(gate, writes, keys, changed), w.table)
  {
    var n := |writes| - 1;
    var actions, before := AllChildActions(gate, writes, keys, changed), AllChildActions(gate, writes[..n], keys,
        changed);
    if w == writes[n] {
      assert Concerns(actions[|actions| - 1], w.table);
    } else {
      MemberConcerned(gate, writes[..n], keys, changed, w);
      var i :| 0 <= i < |before| && Concerns(before[i], w.table);
      assert actions[i] == before[i];
    }
  }

  lemma {:induction false} AllInside(gate: Gate, rows: seq<Row>, keys: set<Key>)
    requires forall i :: 0 <= i < |rows| ==> gate.KeyOf(rows[i]) in keys
    ensures RowsIn(gate, rows, keys, false) == []
  {
    if rows != [] { AllInside(gate, rows[..|rows| - 1], keys); }
  }

  lemma {:induction false} InAllRows(writes: seq<TableWrite>, w: TableWrite, j: nat)
    requires w in writes && j < |w.rows|
    ensures w.rows[j] in AllRows(writes)
  {
    var n := |writes| - 1;
    if w != writes[n] { InAllRows(writes[..n], w, j); }
  }

  /** If no header changed, no child row is kept. */
  lemma NothingKept(gate: Gate, store: Store, writes: seq<TableWrite>, fullRefresh: bool)
    requires AllHaveHeaders(gate, writes)
    requires ChangedRows(gate, store, AllRows(For(writes, gate.gateTable)), fullRefresh) == []
    ensures var keys := UnchangedKeys(gate, store, AllRows(For(writes, gate.gateTable)), fullRefresh);
      forall w :: w in For(writes, gate.childTable) ==> RowsIn(gate, w.rows, keys, false) == []
  {
    var headers := AllRows(For(writes, gate.gateTable));
    var keys := UnchangedKeys(gate, store, headers, fullRefresh);
    forall w | w in For(writes, gate.childTable) ensures RowsIn(gate, w.rows, keys, false) == [] {
      InFor(writes, gate.childTable, w);
      forall i | 0 <= i < |w.rows| ensures gate.KeyOf(w.rows[i]) in keys {
        assert RowHasHeader(gate, writes, w.rows[i]);
        var g, j :| g in writes && g.table == gate.gateTable && 0 <= j < |g.rows|
          && gate.KeyOf(g.rows[j]) == gate.KeyOf(w.rows[i]);
        InFor(writes, gate.gateTable, g);
        InAllRows(For(writes, gate.gateTable), g, j);
        ChangedMembers(gate, store, headers, fullRefresh, g.rows[j]);
      }
      AllInside(gate, w.rows, keys);
    }
  }
}

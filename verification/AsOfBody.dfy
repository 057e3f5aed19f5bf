/**
 The hashed body of an as-of result (src/yfin/datasets/asof_base.py, `content_hash`):
 what it keeps of the rows, what it forgets, and that its text loses nothing.
 */
module AsOfBody {
  import opened Ordering
  import opened Storage
  import opened Datasets
  import J = CanonicalJson

  datatype Section = Section(table: string, rows: seq<Row>)

  /** A row without the columns that move on every run. */
  function Stripped(row: Row): Row {
    map column | column in row && column !in VOLATILE_COLUMNS :: row[column]
  }

  function StrippedRows(rows: seq<Row>): seq<Row> {
    seq(|rows|, i requires 0 <= i < |rows| => Stripped(rows[i]))
  }

  function NatText(n: nat): string {
    if n < 10 then ["0123456789"[n]] else NatText(n / 10) + ["0123456789"[n % 10]]
  }

  function IntText(n: int): string {
    if n < 0 then "-" + NatText(-n) else NatText(n)
  }

  /** Python's `str` of a cell. */
  function CellText(v: Value): string {
    match v
    case Null => "None"
    case Bool(b) => if b then "True" else "False"
    case Int(n) => IntText(n)
    case Str(text) => text
  }

  /** `_sort_key`. */
  function RowKey(keyColumns: seq<string>): Row -> seq<string> {
    row => seq(|keyColumns|, i requires 0 <= i < |keyColumns| => CellText(Get(row, keyColumns[i])))
  }

  function WriteKey(): TableWrite -> seq<string> {
    (w: TableWrite) => [w.table]
  }

  function SectionOf(w: TableWrite): Section {
    Section(w.table, SortedBy(StrippedRows(w.rows), RowKey(w.keyColumns)))
  }

  function Sections(writes: seq<TableWrite>): seq<Section> {
    seq(|writes|, i requires 0 <= i < |writes| => SectionOf(writes[i]))
  }

  /** The payload that is printed and hashed. */
  function Body(result: NormalizedResult): seq<Section> {
    Sections(SortedBy(result.writes, WriteKey()))
  }

  /** `content_hash` builds the payload write by write. */
  method BuildBody(result: NormalizedResult) returns (payload: seq<Section>)
    ensures payload == Body(result)
  {
    var ordered := SortedBy(result.writes, WriteKey());
    payload := [];
    var i := 0;
    while i < |ordered|
      invariant 0 <= i <= |ordered|
      invariant payload == Sections(ordered[..i])
    {
      var w := ordered[i];
      payload := payload + [Section(w.table, SortedBy(StrippedRows(w.rows), RowKey(w.keyColumns)))];
      i := i + 1;
    }
    assert ordered[..i] == ordered;
  }

  // ------------------------------------------------------- what the body keeps

  /** Tables are distinct, and no two stripped rows of a write sort alike. */
  ghost predicate Sortable(writes: seq<TableWrite>) {
    && DistinctTables(writes)
    && forall i :: 0 <= i < |writes| ==> DistinctBy(StrippedRows(writes[i].rows), RowKey(writes[i].keyColumns))
  }

  /** The rows list the same cells but for the three times and the day. */
  ghost predicate SameData(a: Row, b: Row) {
    forall column :: column !in {"fetched_at", "first_seen_at", "last_seen_at", "as_of_date"} ==>
      (column in a <==> column in b) && (column in a ==> a[column] == b[column])
  }

  ghost predicate HasData(row: Row, rows: seq<Row>) {
    exists k :: 0 <= k < |rows| && SameData(row, rows[k])
  }

  /** The two writes fill one table with the same data, in any order of the rows. */
  ghost predicate SameRows(v: TableWrite, w: TableWrite) {
    && v.table == w.table && |v.rows| == |w.rows|
    && forall i :: 0 <= i < |v.rows| ==> HasData(v.rows[i], w.rows)
  }

  lemma StrippedIffSameData(a: Row, b: Row)
    ensures Stripped(a) == Stripped(b) <==> SameData(a, b)
  {
    if Stripped(a) == Stripped(b) {
      forall column | column !in VOLATILE_COLUMNS
        ensures (column in a <==> column in b) && (column in a ==> a[column] == b[column])
      {
        assert column in Stripped(a) <==> column in Stripped(b);
        if column in a { assert Stripped(a)[column] == Stripped(b)[column]; }
      }
    }
  }

  lemma StrippedIffHasData(row: Row, rows: seq<Row>)
    ensures Stripped(row) in StrippedRows(rows) <==> HasData(row, rows)
  {
    forall k | 0 <= k < |rows| ensures Stripped(row) == StrippedRows(rows)[k] <==> SameData(row, rows[k]) {
      StrippedIffSameData(row, rows[k]);
    }
    if Stripped(row) in StrippedRows(rows) {
      var k :| 0 <= k < |rows| && StrippedRows(rows)[k] == Stripped(row);
      assert SameData(row, rows[k]);
    }
  }

  ghost predicate HasPartner(w: TableWrite, writes: seq<TableWrite>) {
    exists k :: 0 <= k < |writes| && SameRows(w, writes[k])
  }

  ghost predicate SameContent(a: seq<TableWrite>, b: seq<TableWrite>) {
    |a| == |b| && forall i :: 0 <= i < |a| ==> HasPartner(a[i], b)
  }

  /** A table's key columns do not change between results. */
  ghost predicate SameKeys(a: seq<TableWrite>, b: seq<TableWrite>) {
    forall i, k :: 0 <= i < |a| && 0 <= k < |b| && a[i].table == b[k].table ==> a[i].keyColumns == b[k].keyColumns
  }

  lemma SectionsDecideRows(v: TableWrite, w: TableWrite)
    requires v.keyColumns == w.keyColumns
    requires DistinctBy(StrippedRows(v.rows), RowKey(v.keyColumns))
    requires DistinctBy(StrippedRows(w.rows), RowKey(w.keyColumns))
    ensures SectionOf(v) == SectionOf(w) <==> SameRows(v, w)
  {
    var rv, rw := StrippedRows(v.rows), StrippedRows(w.rows);
    SortingDecidesEntries(rv, rw, RowKey(v.keyColumns));
    forall i | 0 <= i < |v.rows| ensures rv[i] in rw <==> HasData(v.rows[i], w.rows) {
      StrippedIffHasData(v.rows[i], w.rows);
    }
  }

  lemma DistinctByTable(writes: seq<TableWrite>)
    requires DistinctTables(writes)
    ensures DistinctBy(writes, WriteKey())
  {
    forall i, j | 0 <= i < j < |writes| ensures WriteKey()(writes[i]) != WriteKey()(writes[j]) {
      assert WriteKey()(writes[i])[0] == writes[i].table && WriteKey()(writes[j])[0] == writes[j].table;
    }
  }

  /** The sections of a body, in table order, are those of the writes. */
  lemma SectionInBody(result: NormalizedResult, i: nat)
    requires multiset(SortedBy(result.writes, WriteKey())) == multiset(result.writes) && i < |result.writes|
    ensures SectionOf(result.writes[i]) in Body(result)
  {
    var ordered, w := SortedBy(result.writes, WriteKey()), result.writes[i];
    assert w in multiset(result.writes);
    assert w in ordered;
    var k :| 0 <= k < |ordered| && ordered[k] == w;
    assert Body(result)[k] == SectionOf(w);
  }

  lemma BodySections(result: NormalizedResult)
    requires DistinctTables(result.writes)
    ensures |Body(result)| == |result.writes|
    ensures forall i :: 0 <= i < |result.writes| ==> SectionOf(result.writes[i]) in Body(result)
    ensures forall k :: 0 <= k < |Body(result)| ==>
              exists i :: 0 <= i < |result.writes| && SectionOf(result.writes[i]) == Body(result)[k]
    ensures forall j, k :: 0 <= j < k < |Body(result)| ==> TupleLess([Body(result)[j].table], [Body(result)[k].table])
  {
    var ordered := SortedBy(result.writes, WriteKey());
    DistinctByTable(result.writes);
    SortedEntries(result.writes, WriteKey());
    SortedAscending(result.writes, WriteKey());
    assert |ordered| == |multiset(ordered)| == |multiset(result.writes)| == |result.writes|;
    forall i | 0 <= i < |result.writes| ensures SectionOf(result.writes[i]) in Body(result) {
      SectionInBody(result, i);
    }
    forall k | 0 <= k < |Body(result)|
      ensures exists i :: 0 <= i < |result.writes| && SectionOf(result.writes[i]) == Body(result)[k]
    {
      var w := ordered[k];
      assert w in multiset(ordered);
      var i :| 0 <= i < |result.writes| && result.writes[i] == w;
    }
    forall j, k | 0 <= j < k < |Body(result)| ensures TupleLess([Body(result)[j].table], [Body(result)[k].table]) {
      assert TupleLess(WriteKey()(ordered[j]), WriteKey()(ordered[k]));
    }
  }

  function SectionKey(): Section -> seq<string> {
    (s: Section) => [s.table]
  }

  /**
   The body is the same exactly when the contents are: the order of writes, the order of rows
   and the volatile columns are forgotten, every other cell is kept.
   */
  lemma BodyDecidesContent(a: NormalizedResult, b: NormalizedResult)
    requires Sortable(a.writes) && Sortable(b.writes) && SameKeys(a.writes, b.writes)
    ensures Body(a) == Body(b) <==> SameContent(a.writes, b.writes)
  {
    BodySections(a);
    BodySections(b);
    if Body(a) == Body(b) {
      forall i | 0 <= i < |a.writes| ensures HasPartner(a.writes[i], b.writes) {
        assert SectionOf(a.writes[i]) in Body(b);
        var k :| 0 <= k < |Body(b)| && Body(b)[k] == SectionOf(a.writes[i]);
        var j :| 0 <= j < |b.writes| && SectionOf(b.writes[j]) == Body(b)[k];
        SectionsDecideRows(a.writes[i], b.writes[j]);
      }
    }
    if SameContent(a.writes, b.writes) {
      assert AscendingBy(Body(a), SectionKey()) && AscendingBy(Body(b), SectionKey());
      forall k | 0 <= k < |Body(a)| ensures Body(a)[k] in Body(b) {
        var i :| 0 <= i < |a.writes| && SectionOf(a.writes[i]) == Body(a)[k];
        assert HasPartner(a.writes[i], b.writes);
        var j :| 0 <= j < |b.writes| && SameRows(a.writes[i], b.writes[j]);
        SectionsDecideRows(a.writes[i], b.writes[j]);
      }
      AscendingIsDistinct(Body(a), SectionKey());
      AscendingIsDistinct(Body(b), SectionKey());
      SameEntries(Body(a), Body(b), SectionKey());
      AscendingUnique(Body(a), Body(b), SectionKey());
    }
  }

  /** The stripped rows of a table, whatever their order, can be read off the body. */
  lemma BodyKeepsRows(a: NormalizedResult, b: NormalizedResult, i: nat, j: nat)
    requires DistinctTables(a.writes) && DistinctTables(b.writes) && Body(a) == Body(b)
    requires i < |a.writes| && j < |b.writes| && a.writes[i].table == b.writes[j].table
    ensures multiset(StrippedRows(a.writes[i].rows)) == multiset(StrippedRows(b.writes[j].rows))
  {
    BodySections(a);
    BodySections(b);
    var v, w := a.writes[i], b.writes[j];
    assert SectionOf(v) in Body(b);
    var k :| 0 <= k < |Body(b)| && Body(b)[k] == SectionOf(v);
    var m :| 0 <= m < |b.writes| && SectionOf(b.writes[m]) == Body(b)[k];
    assert b.writes[m].table == w.table;
    assert m == j;
    SortedEntries(StrippedRows(v.rows), RowKey(v.keyColumns));
    SortedEntries(StrippedRows(w.rows), RowKey(w.keyColumns));
  }

  /** Two values of one type that differ, or a value and NULL; `None` as a text prints as NULL does. */
  predicate Differ(v: Value, w: Value) {
    match (v, w)
    case (Int(m), Int(n)) => m != n
    case (Str(s), Str(t)) => s != t
    case (Bool(b), Bool(c)) => b != c
    case (Null, Str(t)) => t != "None"
    case (Str(s), Null) => s != "None"
    case _ => v.Null? != w.Null?
  }

  /** A key column that is hashed tells the two rows apart. */
  ghost predicate ToldApart(a: Row, b: Row, keyColumns: seq<string>) {
    exists column :: column in keyColumns && Differ(Get(a, column), Get(b, column))
      && column !in {"fetched_at", "first_seen_at", "last_seen_at", "as_of_date"}
  }

  lemma DifferentTexts(v: Value, w: Value)
    requires Differ(v, w)
    ensures CellText(v) != CellText(w)
  {
    assert "True"[0] == 'T' && "False"[0] == 'F' && "None"[0] == 'N';
    if v.Int? {
      IntTextSign(v.n);
      if w.Int? && IntText(v.n) == IntText(w.n) { IntTextInjective(v.n, w.n); }
    } else if w.Int? {
      IntTextSign(w.n);
    }
  }

  lemma ToldApartSortApart(a: Row, b: Row, keyColumns: seq<string>)
    requires ToldApart(a, b, keyColumns)
    ensures RowKey(keyColumns)(Stripped(a)) != RowKey(keyColumns)(Stripped(b))
  {
    var column :| column in keyColumns && Differ(Get(a, column), Get(b, column))
      && column !in {"fetched_at", "first_seen_at", "last_seen_at", "as_of_date"};
    var k :| 0 <= k < |keyColumns| && keyColumns[k] == column;
    DifferentTexts(Get(a, column), Get(b, column));
    assert RowKey(keyColumns)(Stripped(a))[k] == CellText(Get(a, column));
    assert RowKey(keyColumns)(Stripped(b))[k] == CellText(Get(b, column));
  }

  /** Rows that a hashed key column tells apart sort apart, so their order does not matter to the body. */
  lemma TypedKeysAreSortable(writes: seq<TableWrite>)
    requires DistinctTables(writes)
    requires forall i, j, k :: 0 <= i < |writes| && 0 <= j < k < |writes[i].rows| ==>
      ToldApart(writes[i].rows[j], writes[i].rows[k], writes[i].keyColumns)
    ensures Sortable(writes)
  {
    forall i | 0 <= i < |writes|
      ensures DistinctBy(StrippedRows(writes[i].rows), RowKey(writes[i].keyColumns))
    {
      var w := writes[i];
      var rows, key := StrippedRows(w.rows), RowKey(w.keyColumns);
      forall j, k | 0 <= j < k < |rows| ensures key(rows[j]) != key(rows[k]) {
        ToldApartSortApart(w.rows[j], w.rows[k], w.keyColumns);
      }
    }
  }

  // ------------------------------------------------------------ the body's text

  lemma {:induction false} NatTextDigits(n: nat)
    ensures NatText(n) != "" && forall i :: 0 <= i < |NatText(n)| ==> '0' <= NatText(n)[i] <= '9'
  {
    if n >= 10 { NatTextDigits(n / 10); }
  }

  /** What a decimal text stands for. */
  ghost function Decimal(text: string): int {
    if text == "" then 0 else 10 * Decimal(text[..|text| - 1]) + (text[|text| - 1] as int - '0' as int)
  }

  /** A number reads back from its text. */
  lemma {:induction false} NatTextIsDecimal(n: nat)
    ensures Decimal(NatText(n)) == n
  {
    var text := NatText(n);
    var digit := "0123456789"[n % 10];
    assert digit as int - '0' as int == n % 10;
    if n >= 10 {
      NatTextIsDecimal(n / 10);
      assert text[..|text| - 1] == NatText(n / 10);
    } else {
      assert text[..0] == "";
    }
  }

  lemma IntTextSign(n: int)
    ensures IntText(n) != ""
    ensures if n < 0 then IntText(n)[0] == '-' && IntText(n)[1..] == NatText(-n)
            else '0' <= IntText(n)[0] <= '9' && IntText(n) == NatText(n)
  {
    NatTextDigits(if n < 0 then -n else n);
  }

  lemma IntTextInjective(m: int, n: int)
    requires IntText(m) == IntText(n)
    ensures m == n
  {
    IntTextSign(m);
    IntTextSign(n);
    NatTextIsDecimal(if m < 0 then -m else m);
    NatTextIsDecimal(if n < 0 then -n else n);
  }

  lemma IntTextIsNumber(n: int)
    ensures J.NumberToken(IntText(n))
  {
    NatTextDigits(if n < 0 then -n else n);
  }

  /** A cell as the encoder prints it. */
  function CellJson(v: Value): J.Json {
    match v
    case Null => J.Null
    case Bool(b) => J.Bool(b)
    case Int(n) => J.Num(IntText(n))
    case Str(text) => J.Str(text)
  }

  lemma CellJsonInjective(v: Value, w: Value)
    ensures CellJson(v) == CellJson(w) <==> v == w
    ensures J.Same(CellJson(v), CellJson(w)) <==> v == w
    ensures J.WellFormed(CellJson(v)) && J.Finite(CellJson(v))
  {
    if v.Int? {
      IntTextIsNumber(v.n);
      if w.Int? && CellJson(v) == CellJson(w) {
        IntTextInjective(v.n, w.n);
      }
    }
  }

  /** A row's entries, in some order. */
  ghost function RowMembers(row: Row): seq<J.Member> {
    if row == map[] then []
    else
      var column :| column in row;
      [J.Member(column, CellJson(row[column]))] + RowMembers(row - {column})
  }

  lemma {:induction false} RowMembersShape(row: Row)
    ensures |RowMembers(row)| == |row|
    ensures forall i :: 0 <= i < |RowMembers(row)| ==>
              RowMembers(row)[i].key in row && RowMembers(row)[i].value == CellJson(row[RowMembers(row)[i].key])
    ensures J.DistinctKeys(RowMembers(row))
  {
    if row != map[] {
      var members := RowMembers(row);
      var column := members[0].key;
      var rest := row - {column};
      assert members == [J.Member(column, CellJson(row[column]))] + RowMembers(rest);
      RowMembersShape(rest);
      OneColumnFewer(row, column);
    }
  }

  lemma OneColumnFewer(row: Row, column: string)
    requires column in row
    ensures |row| == |row - {column}| + 1
  {
    var rest := row - {column};
    assert row.Keys == rest.Keys + {column};
    assert |row| == |row.Keys| && |rest| == |rest.Keys|;
  }

  lemma {:induction false} RowMembersComplete(row: Row, column: string)
    requires column in row
    ensures exists i :: 0 <= i < |RowMembers(row)| && RowMembers(row)[i].key == column
  {
    var members := RowMembers(row);
    var first := members[0].key;
    var rest := row - {first};
    assert members == [J.Member(first, CellJson(row[first]))] + RowMembers(rest);
    if column != first {
      RowMembersComplete(rest, column);
      var i :| 0 <= i < |RowMembers(rest)| && RowMembers(rest)[i].key == column;
      assert members[i + 1].key == column;
    }
  }

  ghost function RowJson(row: Row): J.Json {
    J.Obj(RowMembers(row))
  }

  lemma RowJsonShape(row: Row)
    ensures J.WellFormed(RowJson(row)) && J.Finite(RowJson(row)) && J.Same(RowJson(row), RowJson(row))
  {
    var members := RowMembers(row);
    RowMembersShape(row);
    forall i | 0 <= i < |members|
      ensures J.WellFormed(members[i].value) && J.Finite(members[i].value)
      ensures J.HasMatch(members[i], members)
    {
      CellJsonInjective(row[members[i].key], row[members[i].key]);
      assert members[i].key == members[i].key && J.Same(members[i].value, members[i].value);
    }
  }

  lemma SameRowJson(a: Row, b: Row, column: string)
    requires J.Same(RowJson(a), RowJson(b)) && column in a
    ensures column in b && a[column] == b[column]
  {
    var ms, ns := RowMembers(a), RowMembers(b);
    RowMembersShape(a);
    RowMembersShape(b);
    RowMembersComplete(a, column);
    var i :| 0 <= i < |ms| && ms[i].key == column;
    assert J.HasMatch(ms[i], ns);
    var k :| 0 <= k < |ns| && ns[k].key == ms[i].key && J.Same(ms[i].value, ns[k].value);
    CellJsonInjective(a[column], b[column]);
  }

  lemma RowJsonInjective(a: Row, b: Row)
    ensures J.Same(RowJson(a), RowJson(b)) <==> a == b
  {
    RowJsonShape(a);
    if J.Same(RowJson(a), RowJson(b)) {
      RowMembersShape(a);
      RowMembersShape(b);
      forall column | column in a ensures column in b && a[column] == b[column] {
        SameRowJson(a, b, column);
      }
      assert a.Keys <= b.Keys && |a.Keys| == |a| == |b| == |b.Keys|;
      assert b.Keys == a.Keys + (b.Keys - a.Keys);
      assert a == b;
    }
  }

  ghost function SectionJson(s: Section): J.Json {
    J.Obj([J.Member("table", J.Str(s.table)),
           J.Member("rows", RowsJson(s.rows))])
  }

  ghost function RowsJson(rows: seq<Row>): J.Json {
    J.Arr(seq(|rows|, i requires 0 <= i < |rows| => RowJson(rows[i])))
  }

  lemma RowsJsonInjective(a: seq<Row>, b: seq<Row>)
    ensures J.Same(RowsJson(a), RowsJson(b)) <==> a == b
    ensures J.WellFormed(RowsJson(a)) && J.Finite(RowsJson(a))
  {
    forall i | 0 <= i < |a| ensures J.WellFormed(RowsJson(a).items[i]) && J.Finite(RowsJson(a).items[i]) {
      RowJsonShape(a[i]);
    }
    if |a| == |b| {
      forall i | 0 <= i < |a| ensures J.Same(RowsJson(a).items[i], RowsJson(b).items[i]) <==> a[i] == b[i] {
        RowJsonInjective(a[i], b[i]);
      }
    }
  }

  lemma SectionJsonInjective(s: Section, t: Section)
    ensures J.Same(SectionJson(s), SectionJson(t)) <==> s == t
    ensures J.WellFormed(SectionJson(s)) && J.Finite(SectionJson(s))
  {
    RowsJsonInjective(s.rows, t.rows);
    var ms, ns := SectionJson(s).members, SectionJson(t).members;
    assert ms[0].key == ns[0].key == "table" && ms[1].key == ns[1].key == "rows";
    assert "table" != "rows" by { assert |"table"| != |"rows"|; }
    assert J.HasMatch(ms[0], ns) <==> s.table == t.table;
    assert J.HasMatch(ms[1], ns) <==> s.rows == t.rows;
  }

  ghost function BodyJson(body: seq<Section>): J.Json {
    J.Arr(seq(|body|, i requires 0 <= i < |body| => SectionJson(body[i])))
  }

  /** The text that `content_hash` hashes. */
  ghost function BodyText(body: seq<Section>): string {
    BodyJsonInjective(body, body);
    J.CanonicalText(BodyJson(body))
  }

  lemma BodyJsonInjective(a: seq<Section>, b: seq<Section>)
    ensures J.Same(BodyJson(a), BodyJson(b)) <==> a == b
    ensures J.WellFormed(BodyJson(a)) && J.Finite(BodyJson(a))
  {
    var xs, ys := BodyJson(a).items, BodyJson(b).items;
    forall i | 0 <= i < |a| ensures J.WellFormed(xs[i]) && J.Finite(xs[i]) {
      SectionJsonInjective(a[i], a[i]);
    }
    if |a| == |b| {
      forall i | 0 <= i < |a| ensures J.Same(xs[i], ys[i]) <==> a[i] == b[i] {
        SectionJsonInjective(a[i], b[i]);
      }
      assert J.Same(BodyJson(a), BodyJson(b)) <==> forall i :: 0 <= i < |a| ==> a[i] == b[i];
    }
  }

  /** Different bodies have different texts, so a collision-free hash tells bodies apart. */
  lemma BodyTextInjective(a: seq<Section>, b: seq<Section>)
    ensures BodyText(a) == BodyText(b) <==> a == b
  {
    BodyJsonInjective(a, b);
    BodyJsonInjective(b, a);
    J.CanonicalTextDecidesAlike(BodyJson(a), BodyJson(b));
    J.AlikeIsSameScrubbed(BodyJson(a), BodyJson(b));
    J.ScrubIsFinite(BodyJson(a));
    J.ScrubIsFinite(BodyJson(b));
  }
}

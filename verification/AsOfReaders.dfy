/**
 Reading one as-of table by itself, newest day first, as the exposed tables of
 src/yfin/datasets/funds.py are read: a table that a run left empty has no row of that run's day.
 */
module AsOfReaders {
  import opened Wrappers
  import opened Storage
  import opened Datasets
  import opened AsOfBody
  import opened AsOfGate
  import opened AsOfHistory

  ghost predicate TableHasDay(table: Table, ident: Row, day: int) {
    exists key :: key in table && At(table[key], ident, day)
  }

  /** The latest day of this table that is not after `upTo`. */
  ghost predicate TableLatest(table: Table, ident: Row, upTo: int, day: int) {
    && day <= upTo && TableHasDay(table, ident, day)
    && forall other :: other <= upTo && TableHasDay(table, ident, other) ==> other <= day
  }

  ghost predicate NoTableDay(table: Table, ident: Row, upTo: int) {
    forall day :: day <= upTo ==> !TableHasDay(table, ident, day)
  }

  /** Reading the table at its own latest day gives these rows; without a day it gives none. */
  ghost predicate TableReads(table: Table, ident: Row, upTo: int, rows: set<Row>) {
    || (exists day :: TableLatest(table, ident, upTo, day) && Content(table, ident, day) == rows)
    || (NoTableDay(table, ident, upTo) && rows == {})
  }

  lemma ContentMeansDay(table: Table, ident: Row, day: int)
    ensures Content(table, ident, day) != {} <==> TableHasDay(table, ident, day)
  {
    if key :| key in table && At(table[key], ident, day) {
      assert Visible(table[key]) in Content(table, ident, day);
    }
    if row :| row in Content(table, ident, day) {
      var key :| key in table && At(table[key], ident, day) && Visible(table[key]) == row;
    }
  }

  /** What the run fetched for a table. */
  ghost function FetchedFor(run: Run, table: string): set<Row> {
    var rows := RowsOf(run.result.writes, table);
    set k | 0 <= k < |rows| :: Visible(rows[k])
  }

  lemma {:induction false} RowsOfWrite(writes: seq<TableWrite>, i: nat)
    requires DistinctTables(writes) && i < |writes|
    ensures RowsOf(writes, writes[i].table) == writes[i].rows
  {
    var n := |writes| - 1;
    if i < n { RowsOfWrite(writes[..n], i); }
  }

  /** The dataset's reading, seen at one table. */
  lemma ReadsOneTable(ds: AsOfHistory.Dataset, store: Store, upTo: int, run: Run, table: string) returns (day: int)
    requires DayRun(ds, run) && Reads(ds, store, upTo, run) && table in ds.keys
    ensures LatestDay(ds, store, upTo, day) && Content(TableOf(store, table), ds.ident, day) == FetchedFor(run, table)
  {
    day :| LatestDay(ds, store, upTo, day) && Holds(ds, store, day, run);
    var i := WriteOf(ds, run, table);
    RowsOfWrite(run.result.writes, i);
  }

  lemma TableDayIsDay(ds: AsOfHistory.Dataset, store: Store, table: string, day: int)
    requires table in ds.keys && TableHasDay(TableOf(store, table), ds.ident, day)
    ensures HasDay(ds, store, day)
  {
    var key :| key in TableOf(store, table) && At(TableOf(store, table)[key], ds.ident, day);
    RowMeansDay(ds, store, table, key, day);
  }

  /**
   One table read at its own latest day gives what the dataset's reading gives exactly if that is
   not empty, or the table has no day at all.
   */
  lemma TableReaderIff(ds: AsOfHistory.Dataset, store: Store, upTo: int, run: Run, name: string)
    requires DayRun(ds, run) && Reads(ds, store, upTo, run) && name in ds.keys
    ensures var table := TableOf(store, name);
      TableReads(table, ds.ident, upTo, FetchedFor(run, name))
      <==> FetchedFor(run, name) != {} || NoTableDay(table, ds.ident, upTo)
  {
    var table := TableOf(store, name);
    var day := ReadsOneTable(ds, store, upTo, run, name);
    if FetchedFor(run, name) != {} {
      ContentMeansDay(table, ds.ident, day);
      forall other | other <= upTo && TableHasDay(table, ds.ident, other) ensures other <= day {
        TableDayIsDay(ds, store, name, other);
      }
      assert TableLatest(table, ds.ident, upTo, day);
    } else if d :| TableLatest(table, ds.ident, upTo, d) && Content(table, ds.ident, d) == {} {
      ContentMeansDay(table, ds.ident, d);
    }
  }

  /** Only days of runs are stored. */
  lemma {:induction false} NoDayBeforeRuns(ds: AsOfHistory.Dataset, digest: Digest, store: Store, runs: seq<Run>,
                                           day: int)
    requires Untouched(ds, store) && DaysInOrder(ds, runs)
    requires HasDay(ds, AfterAll(ds, digest, store, runs), day)
    ensures runs != [] && runs[0].day <= day
  {
    if runs != [] {
      var n := |runs| - 1;
      var before, run := AfterAll(ds, digest, store, runs[..n]), runs[n];
      FirstIsFirst(ds, runs);
      AllKeyed(ds, digest, store, runs[..n]);
      if day != run.day {
        OtherDayBefore(ds, digest, before, run, day);
        NoDayBeforeRuns(ds, digest, store, runs[..n], day);
      }
    }
  }

  lemma {:induction false} FirstIsFirst(ds: AsOfHistory.Dataset, runs: seq<Run>)
    requires runs != [] && DaysInOrder(ds, runs)
    ensures runs[0].day <= runs[|runs| - 1].day
  {
    if |runs| > 1 { FirstIsFirst(ds, runs[..|runs| - 1]); }
  }

  lemma {:induction false} AllKeyed(ds: AsOfHistory.Dataset, digest: Digest, store: Store, runs: seq<Run>)
    requires TablesKeyed(ds, store) && DaysInOrder(ds, runs)
    ensures TablesKeyed(ds, AfterAll(ds, digest, store, runs))
  {
    if runs != [] {
      var n := |runs| - 1;
      AllKeyed(ds, digest, store, runs[..n]);
      RunKeepsKeyed(ds, digest, AfterAll(ds, digest, store, runs[..n]), runs[n]);
    }
  }

  lemma OtherDayBefore(ds: AsOfHistory.Dataset, digest: Digest, store: Store, run: Run, day: int)
    requires DayRun(ds, run) && TablesKeyed(ds, store) && day != run.day
    requires HasDay(ds, After(ds, digest, store, run), day)
    ensures HasDay(ds, store, day)
  {
    if Changes(ds, digest, store, run) {
      ChangedRun(ds, digest, store, run);
    } else {
      UnchangedRun(ds, digest, store, run);
      SameTablesSameDays(ds, store, After(ds, digest, store, run), day);
    }
  }

  /** No run that was the last one by some day fetched anything for the table. */
  ghost predicate NothingFetched(runs: seq<Run>, table: string, upTo: int)
    requires runs != []
  {
    forall day :: runs[0].day <= day <= upTo ==> FetchedFor(LastRunBy(runs, day), table) == {}
  }

  lemma NoTableDayIff(ds: AsOfHistory.Dataset, digest: Digest, store: Store, runs: seq<Run>, upTo: int, name: string)
    requires runs != [] && "symbol" in ds.ident && Lossless(ds, digest, store, runs) && AllDayRuns(ds, runs)
    requires name in ds.keys && forall day :: HasDay(ds, store, day) ==> runs[0].day <= day
    ensures NoTableDay(TableOf(store, name), ds.ident, upTo) <==> NothingFetched(runs, name, upTo)
  {
    var table := TableOf(store, name);
    if NoTableDay(table, ds.ident, upTo) {
      forall day | runs[0].day <= day <= upTo ensures FetchedFor(LastRunBy(runs, day), name) == {} {
        LastRunIsOneOf(runs, day);
        var stored := ReadsOneTable(ds, store, day, LastRunBy(runs, day), name);
        ContentMeansDay(table, ds.ident, stored);
      }
    }
    if NothingFetched(runs, name, upTo) {
      forall day | day <= upTo ensures !TableHasDay(table, ds.ident, day) {
        if TableHasDay(table, ds.ident, day) {
          TableDayIsDay(ds, store, name, day);
          LastRunIsOneOf(runs, day);
          var stored := ReadsOneTable(ds, store, day, LastRunBy(runs, day), name);
          ContentMeansDay(table, ds.ident, day);
        }
      }
    }
  }

  /**
   After any runs that replace their days, a table read at its own latest day up to any day gives
   what the last run by then fetched for it exactly if that run fetched something for it, or no
   run that was the last one of an earlier day did.
   */
  lemma RunsTableReaderIff(ds: AsOfHistory.Dataset, digest: Digest, store: Store, runs: seq<Run>, upTo: int,
                           name: string)
    requires Untouched(ds, store) && CollisionFree(digest) && name in ds.keys
    requires runs != [] && DaysInOrder(ds, runs) && AllReplace(ds, digest, store, runs) && runs[0].day <= upTo
    ensures var last := LastRunBy(runs, upTo);
      TableReads(TableOf(AfterAll(ds, digest, store, runs), name), ds.ident, upTo, FetchedFor(last, name))
      <==> FetchedFor(last, name) != {} || NothingFetched(runs, name, upTo)
  {
    var after, last := AfterAll(ds, digest, store, runs), LastRunBy(runs, upTo);
    RunsAreLossless(ds, digest, store, runs);
    forall day | HasDay(ds, after, day) ensures runs[0].day <= day {
      NoDayBeforeRuns(ds, digest, store, runs, day);
    }
    NoTableDayIff(ds, digest, after, runs, upTo, name);
    LastRunIsOneOf(runs, upTo);
    assert Reads(ds, after, upTo, last);
    TableReaderIff(ds, after, upTo, last, name);
  }
}

/**
 How the as-of datasets of src/yfin/datasets/funds.py write their tables, and why a rerun on the
 same day then replaces everything the earlier run of that day left.
 */
module AsOfPolicies {
  import opened Wrappers
  import opened Storage
  import opened Datasets
  import opened AsOfBody
  import opened AsOfGate
  import opened AsOfHistory

  /** The three ways in which a table of one day is rewritten. */
  datatype Policy =
    | WholeDay
    | ByCategory(column: string, categories: set<Value>)
    | OneRow(columns: set<string>)

  type Policies = map<string, Policy>

  /** The write follows the policy. */
  ghost predicate Obeys(policy: Policy, w: TableWrite, ident: Row, day: int) {
    match policy
    case WholeDay =>
      && w.mode.ReplaceScope? && w.scopeValues.Some?
      && (exists i :: 0 <= i < |w.scopeValues.value| && At(w.scopeValues.value[i], ident, day))
      && forall column :: column in w.scopeColumns ==> column in ident || column == "as_of_date"
    case ByCategory(category, categories) =>
      && w.mode.ReplaceScope? && w.scopeValues.Some?
      && (forall column :: column in w.scopeColumns ==> column in ident || column == "as_of_date" || column == category)
      && (forall value :: value in categories ==> ScopesCategory(w, ident, day, category, value))
      && forall i :: 0 <= i < |w.rows| ==> Get(w.rows[i], category) in categories
    case OneRow(columns) =>
      && w.mode.Upsert? && |w.rows| == 1 && w.rows[0].Keys == columns
      && (forall column :: column in w.keyColumns ==> column in ident || column == "as_of_date")
      && forall column :: column in columns && column !in VOLATILE_COLUMNS ==>
            column in w.keyColumns || column in w.updateColumns
  }

  ghost predicate ScopesCategory(w: TableWrite, ident: Row, day: int, category: string, value: Value)
    requires w.scopeValues.Some?
  {
    exists i :: 0 <= i < |w.scopeValues.value| && At(w.scopeValues.value[i], ident, day)
      && Get(w.scopeValues.value[i], category) == value
  }

  /** A stored row that a write under the policy could have left. */
  predicate Fits(policy: Policy, row: Row) {
    match policy
    case WholeDay => true
    case ByCategory(category, categories) => Get(row, category) in categories
    case OneRow(columns) => row.Keys <= columns
  }

  /** Every stored row of the identity fits its table's policy. */
  ghost predicate AllFit(ident: Row, policy: Policy, table: Table) {
    forall key, day :: key in table && At(table[key], ident, day) ==> Fits(policy, table[key])
  }

  lemma ObeyingLeavesNothingStale(policy: Policy, table: Table, w: TableWrite, ident: Row, day: int, key: Key)
    requires Keyed(table, w.keyColumns) && DayWrite(w, ident, day)
    requires Obeys(policy, w, ident, day) && AllFit(ident, policy, table)
    ensures !Stale(table, w, ident, day, key)
  {
    if key in table && At(table[key], ident, day) {
      match policy
      case WholeDay => DayScopeLeavesNothingStale(table, w, ident, day, key);
      case ByCategory(category, categories) =>
        var value := Get(table[key], category);
        assert ScopesCategory(w, ident, day, category, value);
        var i :| 0 <= i < |w.scopeValues.value| && At(w.scopeValues.value[i], ident, day)
          && Get(w.scopeValues.value[i], category) == value;
        CategoryScopeLeavesNothingStale(table, w, ident, day, key, category, i);
      case OneRow(columns) => OneRowLeavesNothingStale(table, w, ident, day, key);
    }
  }

  /** A proposed row fits, padded or laid over a stored row that fits. */
  lemma ProposedFits(policy: Policy, w: TableWrite, ident: Row, day: int, i: nat)
    requires Obeys(policy, w, ident, day) && i < |w.rows|
    ensures Fits(policy, Aligned(w.rows[i], Columns(w.rows)))
  {
    match policy
    case WholeDay =>
    case ByCategory(category, categories) => AlignedCell(w.rows, i, category);
    case OneRow(columns) => assert Columns(w.rows) == w.rows[0].Keys;
  }

  lemma OverlaidFits(policy: Policy, stored: Row, incoming: Row, columns: set<string>)
    requires Fits(policy, stored) && Fits(policy, incoming)
    ensures Fits(policy, Overlaid(stored, incoming, columns))
  {
    if policy.ByCategory? { OverlaidCell(stored, incoming, columns, policy.column); }
  }

  lemma WrittenRowFits(policy: Policy, table: Table, w: TableWrite, ident: Row, day: int, key: Key)
    requires Keyed(table, w.keyColumns) && DayWrite(w, ident, day)
    requires Obeys(policy, w, ident, day) && AllFit(ident, policy, table)
    requires key in Incoming(w)
    ensures Fits(policy, WrittenTable(table, w)[key])
  {
    BatchRow(w.rows, w.keyColumns, Columns(w.rows), key);
    var i :| 0 <= i < |w.rows| && Project(w.rows[i], w.keyColumns) == key
      && Incoming(w)[key] == Aligned(w.rows[i], Columns(w.rows));
    ProposedFits(policy, w, ident, day, i);
    if key in Cleared(table, w) {
      AtTransfers(w.rows[i], table[key], ident, day, w.keyColumns);
      OverlaidFits(policy, table[key], Incoming(w)[key], ToSet(w.updateColumns));
    }
  }

  lemma WriteKeepsFitting(policy: Policy, table: Table, w: TableWrite, ident: Row, day: int)
    requires Keyed(table, w.keyColumns) && DayWrite(w, ident, day)
    requires Obeys(policy, w, ident, day) && AllFit(ident, policy, table)
    ensures AllFit(ident, policy, WrittenTable(table, w))
  {
    var after := WrittenTable(table, w);
    forall key, d | key in after && At(after[key], ident, d) ensures Fits(policy, after[key]) {
      if key in Incoming(w) {
        WrittenRowFits(policy, table, w, ident, day, key);
      } else {
        assert key in table && after[key] == table[key];
      }
    }
  }

  // ------------------------------------------------------------ all the runs

  /** A run of the day whose writes follow the policies. */
  ghost predicate PolicyRun(ds: AsOfHistory.Dataset, policies: Policies, run: Run) {
    && DayRun(ds, run)
    && forall i :: 0 <= i < |run.result.writes| ==>
         && run.result.writes[i].table in policies
         && Obeys(policies[run.result.writes[i].table], run.result.writes[i], ds.ident, run.day)
  }

  ghost predicate StoreFits(ds: AsOfHistory.Dataset, policies: Policies, store: Store) {
    forall table :: table in ds.keys ==>
      && Keyed(TableOf(store, table), ds.keys[table])
      && (table in policies ==> AllFit(ds.ident, policies[table], TableOf(store, table)))
  }

  lemma PolicyRunReplaces(ds: AsOfHistory.Dataset, policies: Policies, digest: Digest, store: Store, run: Run)
    requires PolicyRun(ds, policies, run) && StoreFits(ds, policies, store)
    ensures Replaces(ds, digest, store, run)
  {
    var writes := run.result.writes;
    forall i, key | 0 <= i < |writes|
      ensures !Stale(TableOf(store, writes[i].table), writes[i], ds.ident, run.day, key)
    {
      ObeyingLeavesNothingStale(policies[writes[i].table], TableOf(store, writes[i].table), writes[i], ds.ident,
          run.day, key);
    }
  }

  lemma PolicyRunKeepsFitting(ds: AsOfHistory.Dataset, policies: Policies, digest: Digest, store: Store, run: Run)
    requires PolicyRun(ds, policies, run) && StoreFits(ds, policies, store)
    ensures StoreFits(ds, policies, After(ds, digest, store, run))
  {
    var after, writes := After(ds, digest, store, run), run.result.writes;
    forall table | table in ds.keys
      ensures Keyed(TableOf(after, table), ds.keys[table])
      ensures table in policies ==> AllFit(ds.ident, policies[table], TableOf(after, table))
    {
      assert Writes(run, table);
      var i :| 0 <= i < |writes| && writes[i].table == table;
      DataAfter(ds, digest, store, run, i);
      WriteKeepsKeyed(TableOf(store, table), writes[i]);
      WriteKeepsFitting(policies[table], TableOf(store, table), writes[i], ds.ident, run.day);
    }
  }

  /** Runs under the policies, on non-decreasing days. */
  ghost predicate PolicyRuns(ds: AsOfHistory.Dataset, policies: Policies, runs: seq<Run>) {
    DaysInOrder(ds, runs) && forall run :: run in runs ==> PolicyRun(ds, policies, run)
  }

  lemma {:induction false} PolicyRunsReplace(ds: AsOfHistory.Dataset, policies: Policies, digest: Digest,
                                             store: Store, runs: seq<Run>)
    requires StoreFits(ds, policies, store) && PolicyRuns(ds, policies, runs)
    ensures AllReplace(ds, digest, store, runs)
    ensures StoreFits(ds, policies, AfterAll(ds, digest, store, runs))
  {
    if runs != [] {
      var n := |runs| - 1;
      PolicyRunsReplace(ds, policies, digest, store, runs[..n]);
      assert runs[n] in runs;
      PolicyRunReplaces(ds, policies, digest, AfterAll(ds, digest, store, runs[..n]), runs[n]);
      PolicyRunKeepsFitting(ds, policies, digest, AfterAll(ds, digest, store, runs[..n]), runs[n]);
    }
  }

  /**
   For tables written under these policies nothing more has to be assumed: as-of storage is
   lossless over any runs on non-decreasing days, several a day included.
   */
  lemma {:induction false} PolicyRunsAreLossless(ds: AsOfHistory.Dataset, policies: Policies, digest: Digest,
                                                 store: Store, runs: seq<Run>)
    requires Untouched(ds, store) && CollisionFree(digest) && runs != [] && PolicyRuns(ds, policies, runs)
    ensures AllDayRuns(ds, runs)
    ensures Lossless(ds, digest, AfterAll(ds, digest, store, runs), runs)
  {
    NothingStoredFits(ds, policies, store);
    PolicyRunsReplace(ds, policies, digest, store, runs);
    RunsAreLossless(ds, digest, store, runs);
  }

  lemma NothingStoredFits(ds: AsOfHistory.Dataset, policies: Policies, store: Store)
    requires Untouched(ds, store)
    ensures StoreFits(ds, policies, store)
  {
    forall table | table in ds.keys && table in policies
      ensures AllFit(ds.ident, policies[table], TableOf(store, table))
    {
      forall key, day | key in TableOf(store, table) ensures !At(TableOf(store, table)[key], ds.ident, day) {
        if At(TableOf(store, table)[key], ds.ident, day) { RowMeansDay(ds, store, table, key, day); }
      }
    }
  }
}

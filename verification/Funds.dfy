/**
 The four tables of the funds_data dataset, of src/yfin/datasets/funds.py: what a run writes to
 them, and that as-of storage of these writes is lossless.
 */
module Funds {
  import opened Wrappers
  import opened Storage
  import opened Datasets
  import opened AsOfBody
  import opened AsOfGate
  import opened AsOfHistory
  import opened AsOfPolicies
  import opened AsOfReaders

  const PROFILE_TABLE := "fund_profile"
  const METRICS_TABLE := "fund_metrics"
  const WEIGHTINGS_TABLE := "fund_weightings"
  const HOLDINGS_TABLE := "fund_top_holdings"

  const PROFILE_KEY: seq<string> := ["symbol", "as_of_date"]
  const METRICS_KEY: seq<string> := ["symbol", "as_of_date", "section", "metric"]
  const WEIGHTINGS_KEY: seq<string> := ["symbol", "as_of_date", "category", "item_key"]
  const HOLDINGS_KEY: seq<string> := ["symbol", "as_of_date", "holding_symbol"]

  const PROFILE_COLUMNS: seq<string> := [
    "quote_type", "category_name", "family", "legal_type", "description",
    "expense_ratio", "expense_ratio_cat", "holdings_turnover", "holdings_turnover_cat",
    "total_net_assets", "total_net_assets_cat",
    "cash_position", "stock_position", "bond_position", "preferred_position", "convertible_position",
    "other_position", "raw_json"]

  datatype Category = Sector | BondRating
  {
    function Name(): string {
      match this
      case Sector => "sector"
      case BondRating => "bond_rating"
    }
  }

  datatype Metric = Metric(section: string, metric: string, value: Value, average: Value)
  datatype Weight = Weight(category: Category, item: string, weight: Value)
  datatype Holding = Holding(symbol: string, name: Value, percent: Value, rank: int, known: bool)

  /** One fetch of one fund; `profile` holds the cells of the profile columns. */
  datatype Fetch = Fetch(
    symbol: string, day: int, fetchedAt: Value,
    profile: Row, metrics: seq<Metric>, weights: seq<Weight>, holdings: seq<Holding>)

  /** A label that occurs twice would give two rows of one key. */
  ghost predicate LabelsApart(f: Fetch) {
    && (forall i, j :: 0 <= i < j < |f.metrics| ==>
          f.metrics[i].section != f.metrics[j].section || f.metrics[i].metric != f.metrics[j].metric)
    && (forall i, j :: 0 <= i < j < |f.weights| ==>
          f.weights[i].category != f.weights[j].category || f.weights[i].item != f.weights[j].item)
    && (forall i, j :: 0 <= i < j < |f.holdings| ==> f.holdings[i].symbol != f.holdings[j].symbol)
  }

  // ------------------------------------------------------------- the writes

  function Scope(f: Fetch): Row {
    map["symbol" := Str(f.symbol), "as_of_date" := Int(f.day)]
  }

  function ProfileColumns(): seq<string> {
    PROFILE_KEY + PROFILE_COLUMNS + ["fetched_at"]
  }

  function ProfileRow(f: Fetch): Row {
    map column | column in ToSet(ProfileColumns()) ::
      if column == "symbol" then Str(f.symbol)
      else if column == "as_of_date" then Int(f.day)
      else if column == "fetched_at" then f.fetchedAt
      else Get(f.profile, column)
  }

  /** `_profile_write`: one row, every column but the key updated. */
  function ProfileWrite(f: Fetch): TableWrite {
    TableWrite(PROFILE_TABLE, [ProfileRow(f)], PROFILE_KEY, PROFILE_COLUMNS + ["fetched_at"], Upsert, ["symbol"], None)
  }

  function MetricRow(f: Fetch, m: Metric): Row {
    map["symbol" := Str(f.symbol), "as_of_date" := Int(f.day), "section" := Str(m.section), "metric" := Str(m.metric),
        "value" := m.value, "category_average" := m.average, "fetched_at" := f.fetchedAt]
  }

  /** `_metrics_write`: the scope is the symbol's day. */
  function MetricsWrite(f: Fetch): TableWrite {
    TableWrite(METRICS_TABLE, seq(|f.metrics|, i requires 0 <= i < |f.metrics| => MetricRow(f, f.metrics[i])),
               METRICS_KEY, ["value", "category_average", "fetched_at"],
               ReplaceScope, PROFILE_KEY, Some([Scope(f)]))
  }

  function WeightRow(f: Fetch, w: Weight): Row {
    map["symbol" := Str(f.symbol), "as_of_date" := Int(f.day), "category" := Str(w.category.Name()),
        "item_key" := Str(w.item), "weight" := w.weight, "fetched_at" := f.fetchedAt]
  }

  function CategoryScope(f: Fetch, category: Category): Row {
    map["symbol" := Str(f.symbol), "as_of_date" := Int(f.day), "category" := Str(category.Name())]
  }

  /** `_weightings_write`: a scope for each category, fetched or not. */
  function WeightingsWrite(f: Fetch): TableWrite {
    TableWrite(WEIGHTINGS_TABLE, seq(|f.weights|, i requires 0 <= i < |f.weights| => WeightRow(f, f.weights[i])),
               WEIGHTINGS_KEY, ["weight", "fetched_at"], ReplaceScope, ["symbol", "as_of_date", "category"],
               Some([CategoryScope(f, Sector), CategoryScope(f, BondRating)]))
  }

  function HoldingRow(f: Fetch, h: Holding): Row {
    map["symbol" := Str(f.symbol), "as_of_date" := Int(f.day), "holding_symbol" := Str(h.symbol),
        "holding_name" := h.name, "holding_percent" := h.percent, "holding_rank" := Int(h.rank),
        "is_known" := Value.Bool(h.known), "fetched_at" := f.fetchedAt]
  }

  /** `_holdings_write`: the scope is the symbol's day. */
  function HoldingsWrite(f: Fetch): TableWrite {
    TableWrite(HOLDINGS_TABLE, seq(|f.holdings|, i requires 0 <= i < |f.holdings| => HoldingRow(f, f.holdings[i])),
               HOLDINGS_KEY, ["holding_name", "holding_percent", "holding_rank", "is_known", "fetched_at"],
               ReplaceScope, PROFILE_KEY, Some([Scope(f)]))
  }

  function FundResult(f: Fetch): NormalizedResult {
    NormalizedResult([ProfileWrite(f), MetricsWrite(f), WeightingsWrite(f), HoldingsWrite(f)], map[])
  }

  // -------------------------------------------------- the dataset's policies

  function Ident(symbol: string): Row {
    map["symbol" := Str(symbol)]
  }

  const KEYS: map<string, seq<string>> :=
    map[PROFILE_TABLE := PROFILE_KEY, METRICS_TABLE := METRICS_KEY,
        WEIGHTINGS_TABLE := WEIGHTINGS_KEY, HOLDINGS_TABLE := HOLDINGS_KEY]

  function FundsData(symbol: string): AsOfHistory.Dataset {
    AsOfHistory.Dataset(Gate("funds_data", [PROFILE_TABLE]), Ident(symbol), KEYS)
  }

  const POLICIES: Policies :=
    map[PROFILE_TABLE := OneRow(ToSet(ProfileColumns())), METRICS_TABLE := WholeDay,
        WEIGHTINGS_TABLE := ByCategory("category", {Str("sector"), Str("bond_rating")}), HOLDINGS_TABLE := WholeDay]

  function FundRun(f: Fetch, fullRefresh: bool): Run {
    Run(FundResult(f), f.day, f.fetchedAt, fullRefresh)
  }

  // ----------------------------------------------------- each write obeys

  lemma ProfileRowCells(f: Fetch)
    ensures At(ProfileRow(f), Ident(f.symbol), f.day)
    ensures Get(ProfileRow(f), "fetched_at") == f.fetchedAt
    ensures "symbol" in PROFILE_KEY && "as_of_date" in PROFILE_KEY
  {
    var all, n := ProfileColumns(), |PROFILE_COLUMNS|;
    assert all[0] == "symbol" && all[1] == "as_of_date" && all[n + 2] == "fetched_at";
    assert PROFILE_KEY[0] == "symbol" && PROFILE_KEY[1] == "as_of_date";
    assert |"fetched_at"| == |"as_of_date"| && "fetched_at"[0] != "as_of_date"[0] && |"symbol"| != |"fetched_at"|;
  }

  lemma ProfileObeys(f: Fetch)
    ensures DayWrite(ProfileWrite(f), Ident(f.symbol), f.day)
    ensures Obeys(OneRow(ToSet(ProfileColumns())), ProfileWrite(f), Ident(f.symbol), f.day)
  {
    ProfileRowCells(f);
    KeyIsNotVolatile();
    forall column | column in ToSet(ProfileColumns())
      ensures column in PROFILE_KEY || column in PROFILE_COLUMNS + ["fetched_at"]
    {
      assert ProfileColumns() == PROFILE_KEY + (PROFILE_COLUMNS + ["fetched_at"]);
    }
  }

  lemma KeyIsNotVolatile()
    ensures forall column :: column in PROFILE_KEY ==> column == "symbol" || column == "as_of_date"
    ensures "symbol" !in VOLATILE_COLUMNS
  {
    assert |"symbol"| == 6;
  }

  lemma MetricsObey(f: Fetch)
    requires LabelsApart(f)
    ensures DayWrite(MetricsWrite(f), Ident(f.symbol), f.day)
    ensures Obeys(WholeDay, MetricsWrite(f), Ident(f.symbol), f.day)
  {
    var w := MetricsWrite(f);
    assert METRICS_KEY[0] == "symbol" && METRICS_KEY[1] == "as_of_date";
    ScopeAtDay(f);
    forall i, j | 0 <= i < j < |w.rows| ensures Project(w.rows[i], METRICS_KEY) != Project(w.rows[j], METRICS_KEY) {
      MetricKey(f, f.metrics[i]);
      MetricKey(f, f.metrics[j]);
    }
    forall i | 0 <= i < |w.rows| ensures At(w.rows[i], Ident(f.symbol), f.day) {
      MetricKey(f, f.metrics[i]);
    }
  }

  lemma MetricKey(f: Fetch, m: Metric)
    ensures Project(MetricRow(f, m), METRICS_KEY)[2] == Str(m.section)
    ensures Project(MetricRow(f, m), METRICS_KEY)[3] == Str(m.metric)
    ensures At(MetricRow(f, m), Ident(f.symbol), f.day)
  {
    assert METRICS_KEY[2] == "section" && METRICS_KEY[3] == "metric";
  }

  lemma ScopeAtDay(f: Fetch)
    ensures At(Scope(f), Ident(f.symbol), f.day) && At([Scope(f)][0], Ident(f.symbol), f.day)
    ensures "symbol" in PROFILE_KEY && "as_of_date" in PROFILE_KEY
  {
    assert PROFILE_KEY[0] == "symbol" && PROFILE_KEY[1] == "as_of_date";
  }

  lemma HoldingsObey(f: Fetch)
    requires LabelsApart(f)
    ensures DayWrite(HoldingsWrite(f), Ident(f.symbol), f.day)
    ensures Obeys(WholeDay, HoldingsWrite(f), Ident(f.symbol), f.day)
  {
    var w := HoldingsWrite(f);
    assert HOLDINGS_KEY[0] == "symbol" && HOLDINGS_KEY[1] == "as_of_date";
    ScopeAtDay(f);
    forall i, j | 0 <= i < j < |w.rows| ensures Project(w.rows[i], HOLDINGS_KEY) != Project(w.rows[j], HOLDINGS_KEY) {
      HoldingKey(f, f.holdings[i]);
      HoldingKey(f, f.holdings[j]);
    }
    forall i | 0 <= i < |w.rows| ensures At(w.rows[i], Ident(f.symbol), f.day) {
      HoldingKey(f, f.holdings[i]);
    }
  }

  lemma HoldingKey(f: Fetch, h: Holding)
    ensures Project(HoldingRow(f, h), HOLDINGS_KEY)[2] == Str(h.symbol)
    ensures At(HoldingRow(f, h), Ident(f.symbol), f.day)
  {
    assert HOLDINGS_KEY[2] == "holding_symbol";
  }

  lemma WeightingsAreDayWrite(f: Fetch)
    requires LabelsApart(f)
    ensures DayWrite(WeightingsWrite(f), Ident(f.symbol), f.day)
  {
    var w := WeightingsWrite(f);
    assert WEIGHTINGS_KEY[0] == "symbol" && WEIGHTINGS_KEY[1] == "as_of_date";
    assert w.scopeColumns[0] == "symbol" && w.scopeColumns[1] == "as_of_date";
    NamesApart();
    forall i, j | 0 <= i < j < |w.rows| ensures Project(w.rows[i], WEIGHTINGS_KEY) != Project(w.rows[j],
        WEIGHTINGS_KEY) {
      WeightKey(f, f.weights[i]);
      WeightKey(f, f.weights[j]);
    }
    forall i | 0 <= i < |w.rows| ensures At(w.rows[i], Ident(f.symbol), f.day) {
      WeightKey(f, f.weights[i]);
    }
    CategoryScopeAtDay(f, Sector);
    CategoryScopeAtDay(f, BondRating);
  }

  lemma WeightKey(f: Fetch, w: Weight)
    ensures Project(WeightRow(f, w), WEIGHTINGS_KEY)[2] == Str(w.category.Name())
    ensures Project(WeightRow(f, w), WEIGHTINGS_KEY)[3] == Str(w.item)
    ensures At(WeightRow(f, w), Ident(f.symbol), f.day)
  {
    assert WEIGHTINGS_KEY[2] == "category" && WEIGHTINGS_KEY[3] == "item_key";
  }

  lemma CategoryScopeAtDay(f: Fetch, category: Category)
    ensures At(CategoryScope(f, category), Ident(f.symbol), f.day)
    ensures Get(CategoryScope(f, category), "category") == Str(category.Name())
  {
  }

  lemma NamesApart()
    ensures Sector.Name() != BondRating.Name()
  {
    assert |Sector.Name()| != |BondRating.Name()|;
  }

  lemma WeightingsObey(f: Fetch)
    ensures Obeys(ByCategory("category", {Str("sector"), Str("bond_rating")}), WeightingsWrite(f), Ident(f.symbol),
        f.day)
  {
    var w := WeightingsWrite(f);
    var scopes := w.scopeValues.value;
    CategoryScopeAtDay(f, Sector);
    CategoryScopeAtDay(f, BondRating);
    assert scopes[0] == CategoryScope(f, Sector) && scopes[1] == CategoryScope(f, BondRating);
    assert ScopesCategory(w, Ident(f.symbol), f.day, "category", Str("sector"));
    assert ScopesCategory(w, Ident(f.symbol), f.day, "category", Str("bond_rating"));
  }

  // ---------------------------------------------------------- the fund run

  lemma TableNamesApart()
    ensures PROFILE_TABLE !in {METRICS_TABLE, WEIGHTINGS_TABLE, HOLDINGS_TABLE}
    ensures METRICS_TABLE !in {WEIGHTINGS_TABLE, HOLDINGS_TABLE} && WEIGHTINGS_TABLE != HOLDINGS_TABLE
    ensures GATE_TABLE !in KEYS
  {
    assert |PROFILE_TABLE| == 12 && |METRICS_TABLE| == 12 && |WEIGHTINGS_TABLE| == 15 && |HOLDINGS_TABLE| == 17;
    assert PROFILE_TABLE[5] == 'p' && METRICS_TABLE[5] == 'm' && |GATE_TABLE| == 10;
  }

  lemma FundGateSource(f: Fetch)
    ensures FirstRow([PROFILE_TABLE], FundResult(f).writes) == Some(ProfileRow(f))
    ensures Get(ProfileRow(f), "fetched_at") == f.fetchedAt
  {
    var writes := FundResult(f).writes;
    TableNamesApart();
    assert RowsOf(writes, PROFILE_TABLE) == RowsOf(writes[..3], PROFILE_TABLE);
    assert writes[..3][..2] == writes[..2] && writes[..2][..1] == writes[..1];
    assert RowsOf(writes[..1], PROFILE_TABLE) == [ProfileRow(f)];
    ProfileRowCells(f);
  }

  /** What the dataset declares for each table. */
  lemma Declared()
    ensures KEYS[PROFILE_TABLE] == PROFILE_KEY && KEYS[METRICS_TABLE] == METRICS_KEY
    ensures KEYS[WEIGHTINGS_TABLE] == WEIGHTINGS_KEY && KEYS[HOLDINGS_TABLE] == HOLDINGS_KEY
    ensures POLICIES[PROFILE_TABLE] == OneRow(ToSet(ProfileColumns())) && POLICIES[METRICS_TABLE] == WholeDay
    ensures POLICIES[WEIGHTINGS_TABLE] == ByCategory("category", {Str("sector"), Str("bond_rating")})
    ensures POLICIES[HOLDINGS_TABLE] == WholeDay
  {
    TableNamesApart();
  }

  /** Each fund write obeys its table's policy. */
  lemma FundWriteObeys(f: Fetch, i: nat)
    requires LabelsApart(f) && i < |FundResult(f).writes|
    ensures Declares(f, FundResult(f).writes[i])
  {
    Declared();
    if i == 0 {
      ProfileObeys(f);
    } else if i == 1 {
      MetricsObey(f);
    } else if i == 2 {
      WeightingsAreDayWrite(f);
      WeightingsObey(f);
    } else {
      HoldingsObey(f);
    }
  }

  ghost predicate Declares(f: Fetch, w: TableWrite) {
    && w.table in KEYS && w.keyColumns == KEYS[w.table] && w.table in POLICIES
    && DayWrite(w, Ident(f.symbol), f.day) && Obeys(POLICIES[w.table], w, Ident(f.symbol), f.day)
  }

  lemma FundTables(f: Fetch, fullRefresh: bool)
    ensures DistinctTables(FundResult(f).writes)
    ensures forall table :: table in KEYS ==> Writes(FundRun(f, fullRefresh), table)
  {
    var writes := FundResult(f).writes;
    TableNamesApart();
    assert writes[0].table == PROFILE_TABLE && writes[1].table == METRICS_TABLE;
    assert writes[2].table == WEIGHTINGS_TABLE && writes[3].table == HOLDINGS_TABLE;
  }

  lemma FundRunFollowsPolicies(f: Fetch, fullRefresh: bool)
    requires LabelsApart(f)
    ensures PolicyRun(FundsData(f.symbol), POLICIES, FundRun(f, fullRefresh))
  {
    var writes := FundResult(f).writes;
    forall i | 0 <= i < |writes| ensures Declares(f, writes[i]) {
      FundWriteObeys(f, i);
    }
    FundDayRun(f, fullRefresh);
  }

  lemma FundDayRun(f: Fetch, fullRefresh: bool)
    requires forall i :: 0 <= i < |FundResult(f).writes| ==> Declares(f, FundResult(f).writes[i])
    ensures DayRun(FundsData(f.symbol), FundRun(f, fullRefresh))
  {
    TableNamesApart();
    FundTables(f, fullRefresh);
    FundGateSource(f);
  }

  /** Runs of one fund on non-decreasing days. */
  ghost predicate FundFetches(symbol: string, fetches: seq<Fetch>) {
    && (forall i :: 0 <= i < |fetches| ==> fetches[i].symbol == symbol && LabelsApart(fetches[i]))
    && (forall i, j :: 0 <= i < j < |fetches| ==> fetches[i].day <= fetches[j].day)
  }

  function FundRuns(fetches: seq<Fetch>, refreshes: seq<bool>): seq<Run>
    requires |fetches| == |refreshes|
  {
    seq(|fetches|, i requires 0 <= i < |fetches| => FundRun(fetches[i], refreshes[i]))
  }

  lemma {:induction false} FundRunsArePolicyRuns(symbol: string, fetches: seq<Fetch>, refreshes: seq<bool>)
    requires |fetches| == |refreshes| && FundFetches(symbol, fetches)
    ensures PolicyRuns(FundsData(symbol), POLICIES, FundRuns(fetches, refreshes))
  {
    var runs := FundRuns(fetches, refreshes);
    forall run | run in runs ensures PolicyRun(FundsData(symbol), POLICIES, run) {
      var i :| 0 <= i < |runs| && runs[i] == run;
      FundRunFollowsPolicies(fetches[i], refreshes[i]);
    }
    FundDaysInOrder(symbol, runs);
  }

  lemma {:induction false} FundDaysInOrder(symbol: string, runs: seq<Run>)
    requires forall run :: run in runs ==> PolicyRun(FundsData(symbol), POLICIES, run)
    requires forall i, j :: 0 <= i < j < |runs| ==> runs[i].day <= runs[j].day
    ensures DaysInOrder(FundsData(symbol), runs)
  {
    if runs != [] {
      FundDaysInOrder(symbol, runs[..|runs| - 1]);
      assert runs[|runs| - 1] in runs;
    }
  }

  /**
   Whatever is fetched of a fund, on whatever days, refreshing or not, several times a day: the
   four tables give back the last fetch by any day.
   */
  lemma {:induction false} FundStorageIsLossless(symbol: string, digest: Digest, store: Store, fetches: seq<Fetch>,
                                                 refreshes: seq<bool>)
    requires Untouched(FundsData(symbol), store) && CollisionFree(digest)
    requires fetches != [] && |fetches| == |refreshes| && FundFetches(symbol, fetches)
    ensures var runs := FundRuns(fetches, refreshes);
      Lossless(FundsData(symbol), digest, AfterAll(FundsData(symbol), digest, store, runs), runs)
  {
    FundRunsArePolicyRuns(symbol, fetches, refreshes);
    PolicyRunsAreLossless(FundsData(symbol), POLICIES, digest, store, FundRuns(fetches, refreshes));
  }

  // --------------------------------------------- what the four tables show of a fetch

  predicate MetricCells(row: Row, m: Metric) {
    && Get(row, "section") == Str(m.section) && Get(row, "metric") == Str(m.metric)
    && Get(row, "value") == m.value && Get(row, "category_average") == m.average
  }

  predicate WeightCells(row: Row, w: Weight) {
    && Get(row, "category") == Str(if w.category.Sector? then "sector" else "bond_rating")
    && Get(row, "item_key") == Str(w.item) && Get(row, "weight") == w.weight
  }

  predicate HoldingCells(row: Row, h: Holding) {
    && Get(row, "holding_symbol") == Str(h.symbol) && Get(row, "holding_name") == h.name
    && Get(row, "holding_percent") == h.percent && Get(row, "holding_rank") == Int(h.rank)
    && Get(row, "is_known") == Value.Bool(h.known)
  }

  ghost predicate ProfileCells(row: Row, profile: Row) {
    forall column :: column in PROFILE_COLUMNS ==> Get(row, column) == Get(profile, column)
  }

  /** Every fetched value is in its column, and nothing else is there. */
  ghost predicate ShowsFetch(store: Store, f: Fetch, day: int) {
    && Shows(TableOf(store, PROFILE_TABLE), Ident(f.symbol), day, [f.profile], ProfileCells)
    && Shows(TableOf(store, METRICS_TABLE), Ident(f.symbol), day, f.metrics, MetricCells)
    && Shows(TableOf(store, WEIGHTINGS_TABLE), Ident(f.symbol), day, f.weights, WeightCells)
    && Shows(TableOf(store, HOLDINGS_TABLE), Ident(f.symbol), day, f.holdings, HoldingCells)
  }

  lemma ProfileIsShown(f: Fetch, table: Table, day: int)
    requires Content(table, Ident(f.symbol), day) == Proposed(ProfileWrite(f))
    ensures Shows(table, Ident(f.symbol), day, [f.profile], ProfileCells)
  {
    var w := ProfileWrite(f);
    forall row | Visible(row) == Visible(w.rows[0]) ensures ProfileCells(row, f.profile) {
      VisibleIsData(row, w.rows[0]);
      forall column | column in PROFILE_COLUMNS ensures Get(row, column) == Get(f.profile, column) {
        ProfileColumnIsData(column);
      }
    }
    ShownWhenHeld(table, Ident(f.symbol), day, w, [f.profile], ProfileCells);
  }

  lemma ProfileColumnIsData(column: string)
    requires column in PROFILE_COLUMNS
    ensures column in ProfileColumns() && column !in {"symbol", "as_of_date", "fetched_at"}
    ensures column !in {"first_seen_at", "last_seen_at"}
  {
    var i :| 0 <= i < |PROFILE_COLUMNS| && PROFILE_COLUMNS[i] == column;
    assert ProfileColumns()[i + 2] == column;
    assert forall k :: 0 <= k < |PROFILE_COLUMNS| ==> PROFILE_COLUMNS[k] !in {"symbol", "as_of_date", "fetched_at"};
    assert forall k :: 0 <= k < |PROFILE_COLUMNS| ==> PROFILE_COLUMNS[k] !in {"first_seen_at", "last_seen_at"};
  }

  lemma MetricCellsShow(f: Fetch, m: Metric, row: Row)
    requires Visible(row) == Visible(MetricRow(f, m))
    ensures MetricCells(row, m)
  {
    VisibleIsData(row, MetricRow(f, m));
  }

  lemma MetricsAreShown(f: Fetch, table: Table, day: int)
    requires Content(table, Ident(f.symbol), day) == Proposed(MetricsWrite(f))
    ensures Shows(table, Ident(f.symbol), day, f.metrics, MetricCells)
  {
    var w := MetricsWrite(f);
    forall i, row | 0 <= i < |f.metrics| && Visible(row) == Visible(w.rows[i])
      ensures MetricCells(row, f.metrics[i])
    {
      MetricCellsShow(f, f.metrics[i], row);
    }
    ShownWhenHeld(table, Ident(f.symbol), day, w, f.metrics, MetricCells);
  }

  lemma WeightCellsShow(f: Fetch, w: Weight, row: Row)
    requires Visible(row) == Visible(WeightRow(f, w))
    ensures WeightCells(row, w)
  {
    VisibleIsData(row, WeightRow(f, w));
  }

  lemma WeightsAreShown(f: Fetch, table: Table, day: int)
    requires Content(table, Ident(f.symbol), day) == Proposed(WeightingsWrite(f))
    ensures Shows(table, Ident(f.symbol), day, f.weights, WeightCells)
  {
    var w := WeightingsWrite(f);
    forall i, row | 0 <= i < |f.weights| && Visible(row) == Visible(w.rows[i])
      ensures WeightCells(row, f.weights[i])
    {
      WeightCellsShow(f, f.weights[i], row);
    }
    ShownWhenHeld(table, Ident(f.symbol), day, w, f.weights, WeightCells);
  }

  lemma HoldingCellsShow(f: Fetch, h: Holding, row: Row)
    requires Visible(row) == Visible(HoldingRow(f, h))
    ensures HoldingCells(row, h)
  {
    VisibleIsData(row, HoldingRow(f, h));
  }

  lemma HoldingsAreShown(f: Fetch, table: Table, day: int)
    requires Content(table, Ident(f.symbol), day) == Proposed(HoldingsWrite(f))
    ensures Shows(table, Ident(f.symbol), day, f.holdings, HoldingCells)
  {
    var w := HoldingsWrite(f);
    forall i, row | 0 <= i < |f.holdings| && Visible(row) == Visible(w.rows[i])
      ensures HoldingCells(row, f.holdings[i])
    {
      HoldingCellsShow(f, f.holdings[i], row);
    }
    ShownWhenHeld(table, Ident(f.symbol), day, w, f.holdings, HoldingCells);
  }

  lemma HeldIsShown(store: Store, f: Fetch, fullRefresh: bool, day: int)
    requires Holds(FundsData(f.symbol), store, day, FundRun(f, fullRefresh))
    ensures ShowsFetch(store, f, day)
  {
    var writes := FundResult(f).writes;
    assert writes[0] == ProfileWrite(f) && writes[1] == MetricsWrite(f);
    assert writes[2] == WeightingsWrite(f) && writes[3] == HoldingsWrite(f);
    ProfileIsShown(f, TableOf(store, PROFILE_TABLE), day);
    MetricsAreShown(f, TableOf(store, METRICS_TABLE), day);
    WeightsAreShown(f, TableOf(store, WEIGHTINGS_TABLE), day);
    HoldingsAreShown(f, TableOf(store, HOLDINGS_TABLE), day);
  }

  /** Fetch `k` is the last one by this day. */
  ghost predicate LastFetchBy(fetches: seq<Fetch>, day: int, k: int) {
    0 <= k < |fetches| && fetches[k].day <= day && forall j :: k < j < |fetches| ==> fetches[j].day > day
  }

  lemma {:induction false} LastFundRun(runs: seq<Run>, day: int, k: nat)
    requires k < |runs| && runs[0].day <= day && runs[k].day <= day && forall j :: k < j < |runs| ==> runs[j].day > day
    ensures LastRunBy(runs, day) == runs[k]
    decreases |runs|
  {
    var n := |runs| - 1;
    if k < n {
      assert forall j :: 0 <= j < n ==> runs[..n][j] == runs[j];
      LastFundRun(runs[..n], day, k);
    }
  }

  lemma LastOfFetches(symbol: string, fetches: seq<Fetch>, refreshes: seq<bool>, upTo: int, k: int)
    requires |fetches| == |refreshes| && FundFetches(symbol, fetches) && LastFetchBy(fetches, upTo, k)
    ensures var runs := FundRuns(fetches, refreshes);
      runs != [] && runs[0].day <= upTo && LastRunBy(runs, upTo) == FundRun(fetches[k], refreshes[k])
  {
    LastFundRun(FundRuns(fetches, refreshes), upTo, k);
  }

  lemma LastFetchReads(symbol: string, digest: Digest, store: Store, fetches: seq<Fetch>, refreshes: seq<bool>,
                       upTo: int, k: int)
    requires Untouched(FundsData(symbol), store) && CollisionFree(digest)
    requires |fetches| == |refreshes| && FundFetches(symbol, fetches) && LastFetchBy(fetches, upTo, k)
    ensures var after := AfterAll(FundsData(symbol), digest, store, FundRuns(fetches, refreshes));
      Reads(FundsData(symbol), after, upTo, FundRun(fetches[k], refreshes[k]))
  {
    var runs := FundRuns(fetches, refreshes);
    FundStorageIsLossless(symbol, digest, store, fetches, refreshes);
    LastOfFetches(symbol, fetches, refreshes, upTo, k);
    LosslessReads(FundsData(symbol), digest, AfterAll(FundsData(symbol), digest, store, runs), runs, upTo);
  }

  lemma LosslessReads(ds: AsOfHistory.Dataset, digest: Digest, store: Store, runs: seq<Run>, day: int)
    requires runs != [] && "symbol" in ds.ident && Lossless(ds, digest, store, runs) && runs[0].day <= day
    ensures Reads(ds, store, day, LastRunBy(runs, day))
  {
  }

  lemma ReadIsShown(store: Store, f: Fetch, fullRefresh: bool, upTo: int)
    requires Reads(FundsData(f.symbol), store, upTo, FundRun(f, fullRefresh))
    ensures ShowsLatest(store, f, upTo)
  {
    var day :| LatestDay(FundsData(f.symbol), store, upTo, day)
      && Holds(FundsData(f.symbol), store, day, FundRun(f, fullRefresh));
    HeldIsShown(store, f, fullRefresh, day);
  }

  ghost predicate ShowsLatest(store: Store, f: Fetch, upTo: int) {
    exists day :: LatestDay(FundsData(f.symbol), store, upTo, day) && ShowsFetch(store, f, day)
  }

  /** So the latest stored day up to any day shows, column by column, what the last fetch by then gave. */
  lemma {:induction false} FundTablesShowLastFetch(symbol: string, digest: Digest, store: Store, fetches: seq<Fetch>,
                                                   refreshes: seq<bool>, upTo: int, k: int)
    requires Untouched(FundsData(symbol), store) && CollisionFree(digest)
    requires |fetches| == |refreshes| && FundFetches(symbol, fetches) && LastFetchBy(fetches, upTo, k)
    ensures ShowsLatest(AfterAll(FundsData(symbol), digest, store, FundRuns(fetches, refreshes)), fetches[k], upTo)
  {
    LastFetchReads(symbol, digest, store, fetches, refreshes, upTo, k);
    ReadIsShown(AfterAll(FundsData(symbol), digest, store, FundRuns(fetches, refreshes)), fetches[k], refreshes[k],
                upTo);
  }

  // ------------------------------------------------- a table that comes up empty

  lemma MetricsOf(f: Fetch, fullRefresh: bool)
    ensures FetchedFor(FundRun(f, fullRefresh), METRICS_TABLE) == {} <==> f.metrics == []
  {
    var run := FundRun(f, fullRefresh);
    FundTables(f, fullRefresh);
    RowsOfWrite(run.result.writes, 1);
    if f.metrics != [] {
      assert Visible(MetricsWrite(f).rows[0]) in FetchedFor(run, METRICS_TABLE);
    }
  }

  /** Metrics on one day, none on a later one: read by itself, the table still shows the first ones. */
  lemma {:induction false} OldMetricsShow(symbol: string, digest: Digest, store: Store, first: Fetch, second: Fetch)
    requires Untouched(FundsData(symbol), store) && CollisionFree(digest) && FundFetches(symbol, [first, second])
    requires first.day < second.day && first.metrics != [] && second.metrics == []
    ensures var after := AfterAll(FundsData(symbol), digest, store, FundRuns([first, second], [false, false]));
      !TableReads(TableOf(after, METRICS_TABLE), Ident(symbol), second.day, {})
  {
    var ds, runs := FundsData(symbol), FundRuns([first, second], [false, false]);
    FundRunsArePolicyRuns(symbol, [first, second], [false, false]);
    NothingStoredFits(ds, POLICIES, store);
    PolicyRunsReplace(ds, POLICIES, digest, store, runs);
    TwoFundRuns(first, second);
    RunsTableReaderIff(ds, digest, store, runs, second.day, METRICS_TABLE);
  }

  /** Only the second run is the last one by its own day, and it fetched no metrics; the first one did. */
  lemma TwoFundRuns(first: Fetch, second: Fetch)
    requires first.day < second.day && first.metrics != [] && second.metrics == []
    ensures var runs := FundRuns([first, second], [false, false]);
      && runs[0].day == first.day && FetchedFor(LastRunBy(runs, second.day), METRICS_TABLE) == {}
      && !NothingFetched(runs, METRICS_TABLE, second.day)
  {
    var runs := FundRuns([first, second], [false, false]);
    MetricsOf(first, false);
    MetricsOf(second, false);
    assert runs[..1] == [FundRun(first, false)];
    assert LastRunBy(runs, first.day) == FundRun(first, false);
  }
}

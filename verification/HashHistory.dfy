/**
 Runs of the header/child gate of src/yfin/datasets/hash_gated.py, some refreshing and some not,
 against runs that rewrite every header every time.
 */
module HashHistory {
  import opened Wrappers
  import opened Storage
  import opened Datasets
  import opened HashGate

  /** A result with its header write and its child write. */
  datatype Run = Run(result: NormalizedResult, headers: TableWrite, children: TableWrite, fullRefresh: bool)

  /** What all runs have in common: the key of a child row, the hashed columns, what a hash stands for. */
  datatype Setting = Setting(gate: Gate, childKey: seq<string>, hashed: set<string>, stands: Value -> set<Row>)

  ghost predicate ValidRun(s: Setting, run: Run) {
    && Shaped(s.gate, run.result, run.headers, run.children)
    && ChildrenHaveHeaders(s.gate, run.headers, run.children)
    && run.children.keyColumns == s.childKey
    && Honest(s.gate, run.headers, run.children, s.hashed, s.stands)
  }

  ghost predicate ValidRuns(s: Setting, runs: seq<Run>) {
    forall run :: run in runs ==> ValidRun(s, run)
  }

  /** Rows sit under their keys, and hashes stand for the child rows. */
  ghost predicate InOrder(s: Setting, store: Store) {
    && Keyed(TableOf(store, s.gate.gateTable), s.gate.keyColumns)
    && Keyed(TableOf(store, s.gate.childTable), s.childKey)
    && Matches(s.gate, store, s.hashed, s.stands)
  }

  /** The tables after the runs; `rewriting` makes every one of them a refresh. */
  function AfterAll(s: Setting, store: Store, runs: seq<Run>, rewriting: bool): Store {
    if runs == [] then store
    else
      var n := |runs| - 1;
      Gated(s.gate, AfterAll(s, store, runs[..n], rewriting), runs[n].result, rewriting || runs[n].fullRefresh)
  }

  ghost function Children(s: Setting, store: Store, key: Key): set<Row> {
    Body(s.gate, TableOf(store, s.gate.childTable), key, s.hashed)
  }

  /** The child rows that the last run with this header proposed; without one, those stored at first. */
  ghost function LastProposed(s: Setting, store: Store, runs: seq<Run>, key: Key): set<Row> {
    if runs == [] then Children(s, store, key)
    else
      var n := |runs| - 1;
      if HasHeader(s.gate, runs[n].headers, key) then ProposedBody(s.gate, runs[n].children.rows, key, s.hashed)
      else LastProposed(s, store, runs[..n], key)
  }

  lemma OneRun(s: Setting, store: Store, run: Run, fullRefresh: bool)
    requires InOrder(s, store) && ValidRun(s, run)
    ensures InOrder(s, Gated(s.gate, store, run.result, fullRefresh))
  {
    MatchesAfter(s.gate, store, run.result, run.headers, run.children, fullRefresh, s.hashed, s.stands);
    KeyedAfter(s.gate, store, run.result, run.headers, run.children, fullRefresh);
  }

  lemma OneRunChildren(s: Setting, store: Store, run: Run, fullRefresh: bool, key: Key)
    requires InOrder(s, store) && ValidRun(s, run)
    ensures Children(s, Gated(s.gate, store, run.result, fullRefresh), key)
         == if HasHeader(s.gate, run.headers, key) then ProposedBody(s.gate, run.children.rows, key, s.hashed)
            else Children(s, store, key)
  {
    BodyAfter(s.gate, store, run.result, run.headers, run.children, fullRefresh, s.hashed, s.stands, key);
  }

  lemma {:induction false} RunsKeepOrder(s: Setting, store: Store, runs: seq<Run>, rewriting: bool)
    requires InOrder(s, store) && ValidRuns(s, runs)
    ensures InOrder(s, AfterAll(s, store, runs, rewriting))
  {
    if runs != [] {
      var n := |runs| - 1;
      RunsKeepOrder(s, store, runs[..n], rewriting);
      assert runs[n] in runs;
      OneRun(s, AfterAll(s, store, runs[..n], rewriting), runs[n], rewriting || runs[n].fullRefresh);
    }
  }

  /** After any runs a header has the child rows that the last run with this header proposed. */
  lemma {:induction false} ChildrenAreLastProposed(s: Setting, store: Store, runs: seq<Run>, rewriting: bool, key: Key)
    requires InOrder(s, store) && ValidRuns(s, runs)
    ensures Children(s, AfterAll(s, store, runs, rewriting), key) == LastProposed(s, store, runs, key)
  {
    if runs != [] {
      var n := |runs| - 1;
      RunsKeepOrder(s, store, runs[..n], rewriting);
      ChildrenAreLastProposed(s, store, runs[..n], rewriting, key);
      assert runs[n] in runs;
      OneRunChildren(s, AfterAll(s, store, runs[..n], rewriting), runs[n], rewriting || runs[n].fullRefresh, key);
    }
  }

  ghost predicate SameChildren(s: Setting, a: Store, b: Store) {
    forall key :: Children(s, a, key) == Children(s, b, key)
  }

  /** So gated runs leave the same child rows as rewriting everything in every run. */
  lemma {:induction false} GatedRunsRefineRewriting(s: Setting, store: Store, runs: seq<Run>)
    requires InOrder(s, store) && ValidRuns(s, runs)
    ensures SameChildren(s, AfterAll(s, store, runs, false), AfterAll(s, store, runs, true))
    ensures InOrder(s, AfterAll(s, store, runs, false)) && InOrder(s, AfterAll(s, store, runs, true))
  {
    RunsKeepOrder(s, store, runs, false);
    RunsKeepOrder(s, store, runs, true);
    forall key ensures Children(s, AfterAll(s, store, runs, false), key)
      == Children(s, AfterAll(s, store, runs, true), key) {
      ChildrenAreLastProposed(s, store, runs, false, key);
      ChildrenAreLastProposed(s, store, runs, true, key);
    }
  }
}

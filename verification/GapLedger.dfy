/**
 The `bar_gaps` ledger of src/yfin/datasets/bars.py, for one symbol and interval: which
 windows of a run were fetched, which failed, and what the run writes about both.
 */
module GapLedger {
  import opened Wrappers
  import opened BarWindows

  datatype Reason = RetentionExpired | FetchFailed

  datatype GapRow = GapRow(end: int, detectedAt: int, reason: Reason, resolvedAt: Option<int>)

  /** `gap_start_utc` -> row. */
  type Ledger = map<int, GapRow>

  /** How one request of a run ended. `NoData` is an exception that `is_no_data` accepts. */
  datatype Answer = Bars | NoData | Broken

  datatype FetchError = WindowFailed

  /** What `fetch` hands to `normalize`, without the bars. */
  datatype Payload = Payload(gap: Option<Gap>, failed: seq<Window>, fetched: seq<Window>, openGaps: seq<Gap>)

  /** One run: what it was told, when it writes, and how its requests end. */
  datatype Run = Run(req: Request, clock: int, answers: seq<Answer>)

  // -------------------------------------------------------------------- fetch

  /** The request list; `None` is a `period="max"` request. */
  function Requests(plan: FetchPlan): seq<Option<Window>> {
    if plan.windows == [] && plan.gap.None? then [None]
    else seq(|plan.windows|, i requires 0 <= i < |plan.windows| => Some(plan.windows[i]))
  }

  /** The windows whose request did, or did not, return bars. */
  function Sorted(requests: seq<Option<Window>>, answers: seq<Answer>, bars: bool): seq<Window>
    requires |requests| == |answers|
  {
    if requests == [] then []
    else
      var n := |requests| - 1;
      Sorted(requests[..n], answers[..n], bars)
      + if requests[n].Some? && (answers[n] == Bars) == bars then [requests[n].value] else []
  }

  /** No request returned anything and one of them failed for a real reason. */
  predicate Raises(answers: seq<Answer>) {
    Bars !in answers && Broken in answers
  }

  ghost predicate NothingCameBack(answers: seq<Answer>) {
    forall i :: 0 <= i < |answers| ==> answers[i] != Bars
  }

  ghost predicate SomethingBroke(answers: seq<Answer>) {
    exists i :: 0 <= i < |answers| && answers[i] == Broken
  }

  /** Each window is where its own answer puts it, whatever the other answers are. */
  ghost predicate SortedByAnswer(windows: seq<Window>, answers: seq<Answer>, payload: Payload)
    requires |windows| <= |answers|
  {
    && (forall i :: 0 <= i < |windows| ==>
          if answers[i] == Bars then windows[i] in payload.fetched && windows[i] !in payload.failed
          else windows[i] in payload.failed && windows[i] !in payload.fetched)
    && (forall w :: w in payload.fetched || w in payload.failed ==> w in windows)
  }

  /** Each failed window has a row that spans it and says so. */
  ghost predicate FailuresRecorded(windows: seq<Window>, answers: seq<Answer>, ledger: Ledger)
    requires |windows| <= |answers|
  {
    forall i :: 0 <= i < |windows| && answers[i] != Bars ==>
      && Midnight(windows[i].start) in ledger
      && ledger[Midnight(windows[i].start)].end == Midnight(windows[i].end)
      && ledger[Midnight(windows[i].start)].reason == FetchFailed
  }

  function Fetched(limits: Limits, run: Run): Payload
    requires ValidLimits(limits)
    requires |run.answers| == |Requests(Planned(limits, run.req))|
  {
    var plan := Planned(limits, run.req);
    Payload(plan.gap,
            Sorted(Requests(plan), run.answers, false),
            Sorted(Requests(plan), run.answers, true),
            run.req.openGaps)
  }

  /** `IntervalBarDataset.fetch`: one failed window does not lose the others. */
  method Fetch(interval: string, run: Run) returns (r: Result<Payload, FetchError>)
    requires BarLimits(interval).Some?
    requires |run.answers| == |Requests(Planned(BarLimits(interval).value, run.req))|
    ensures r == if Raises(run.answers) then Raised(WindowFailed) else Ok(Fetched(BarLimits(interval).value, run))
    ensures r.Raised? <==> NothingCameBack(run.answers) && SomethingBroke(run.answers)
    ensures r.Ok? ==> SortedByAnswer(Planned(BarLimits(interval).value, run.req).windows, run.answers, r.value)
  {
    SlicesAreSorted(BarLimits(interval).value, run);
    var planned := PlanWindows(interval, run.req);
    var plan := planned.value;
    var fetched, failed, frames, broken := SortRequests(Requests(plan), run.answers);
    if frames == 0 && broken {
      return Raised(WindowFailed);
    }
    return Ok(Payload(plan.gap, failed, fetched, run.req.openGaps));
  }

  /** The loop over the requests. */
  method SortRequests(windows: seq<Option<Window>>, answers: seq<Answer>)
    returns (fetched: seq<Window>, failed: seq<Window>, frames: nat, broken: bool)
    requires |windows| == |answers|
    ensures fetched == Sorted(windows, answers, true) && failed == Sorted(windows, answers, false)
    ensures frames > 0 <==> Bars in answers
    ensures broken <==> Broken in answers
  {
    fetched, failed, frames, broken := [], [], 0, false;
    var i := 0;
    while i < |windows|
      invariant 0 <= i <= |windows|
      invariant fetched == Sorted(windows[..i], answers[..i], true)
      invariant failed == Sorted(windows[..i], answers[..i], false)
      invariant frames > 0 <==> Bars in answers[..i]
      invariant broken <==> Broken in answers[..i]
    {
      assert windows[..i + 1][..i] == windows[..i] && answers[..i + 1][..i] == answers[..i];
      AnswersUpTo(answers, i, Bars);
      AnswersUpTo(answers, i, Broken);
      var window := windows[i];
      if answers[i] != Bars {
        broken := broken || answers[i] == Broken;
        if window.Some? {
          failed := failed + [window.value];
        }
      } else {
        frames := frames + 1;
        if window.Some? {
          fetched := fetched + [window.value];
        }
      }
      i := i + 1;
    }
    assert windows[..i] == windows && answers[..i] == answers;
  }

  lemma AnswersUpTo(answers: seq<Answer>, n: nat, answer: Answer)
    requires n < |answers|
    ensures answer in answers[..n + 1] <==> answer in answers[..n] || answers[n] == answer
  {
    assert answers[..n + 1] == answers[..n] + [answers[n]];
  }

  // -------------------------------------------------------------- the writes

  datatype Keyed = Keyed(start: int, row: GapRow)

  function FailedRow(w: Window, now: int): Keyed {
    Keyed(Midnight(w.start), GapRow(Midnight(w.end), now, FetchFailed, None))
  }

  function FailedRows(failed: seq<Window>, now: int): seq<Keyed> {
    seq(|failed|, i requires 0 <= i < |failed| => FailedRow(failed[i], now))
  }

  function RecordRows(payload: Payload, now: int): seq<Keyed> {
    (if payload.gap.Some?
     then [Keyed(payload.gap.value.start, GapRow(payload.gap.value.end, now, RetentionExpired, None))]
     else [])
    + FailedRows(payload.failed, now)
  }

  /** A successful slice contains the gap's first second. */
  predicate Covered(fetched: seq<Window>, gap: Gap) {
    exists i :: 0 <= i < |fetched| && Midnight(fetched[i].start) <= gap.start < Midnight(fetched[i].end)
  }

  function ResolveRows(fetched: seq<Window>, gaps: seq<Gap>, now: int): seq<Keyed> {
    if gaps == [] then []
    else
      var n := |gaps| - 1;
      ResolveRows(fetched, gaps[..n], now)
      + if Covered(fetched, gaps[n])
        then [Keyed(gaps[n].start, GapRow(gaps[n].end, now, FetchFailed, Some(now)))] else []
  }

  /** The columns that the conflict branch of an upsert may write. */
  datatype Column = GapEnd | DetectedAt | ReasonColumn | ResolvedAt

  const RECORD_COLUMNS: set<Column> := {GapEnd, DetectedAt, ReasonColumn}
  const RESOLVE_COLUMNS: set<Column> := {ResolvedAt}

  /** One row per key, the last one wins. */
  function LastByKey(batch: seq<Keyed>): map<int, GapRow> {
    if batch == [] then map[]
    else LastByKey(batch[..|batch| - 1])[batch[|batch| - 1].start := batch[|batch| - 1].row]
  }

  function Overlaid(old_: GapRow, new_: GapRow, columns: set<Column>): GapRow {
    GapRow(if GapEnd in columns then new_.end else old_.end,
           if DetectedAt in columns then new_.detectedAt else old_.detectedAt,
           if ReasonColumn in columns then new_.reason else old_.reason,
           if ResolvedAt in columns then new_.resolvedAt else old_.resolvedAt)
  }

  function Upserted(ledger: Ledger, rows: map<int, GapRow>, columns: set<Column>): Ledger {
    map key | key in ledger.Keys + rows.Keys ::
      if key !in rows then ledger[key]
      else if key !in ledger then rows[key]
      else Overlaid(ledger[key], rows[key], columns)
  }

  function Recorded(ledger: Ledger, payload: Payload, now: int): Ledger {
    Upserted(ledger, LastByKey(RecordRows(payload, now)), RECORD_COLUMNS)
  }

  /** The ledger after `_gap_writes`: record first, then resolve. */
  function Written(ledger: Ledger, payload: Payload, now: int): Ledger {
    Upserted(Recorded(ledger, payload, now),
             LastByKey(ResolveRows(payload.fetched, payload.openGaps, now)), RESOLVE_COLUMNS)
  }

  class BarGaps {
    var rows: Ledger

    constructor ()
      ensures rows == map[]
    {
      rows := map[];
    }

    method Upsert(batch: seq<Keyed>, columns: set<Column>)
      modifies this
      ensures rows == Upserted(old(rows), LastByKey(batch), columns)
    {
      rows := Upserted(rows, LastByKey(batch), columns);
    }

    /** `_resolve_writes`. */
    method ResolveWrites(payload: Payload, now: int)
      modifies this
      ensures rows == Upserted(old(rows), LastByKey(ResolveRows(payload.fetched, payload.openGaps, now)),
          RESOLVE_COLUMNS)
    {
      var batch: seq<Keyed> := [];
      var i := 0;
      while i < |payload.openGaps|
        invariant 0 <= i <= |payload.openGaps|
        invariant batch == ResolveRows(payload.fetched, payload.openGaps[..i], now)
        invariant rows == old(rows)
      {
        var gap := payload.openGaps[i];
        assert payload.openGaps[..i + 1][..i] == payload.openGaps[..i];
        i := i + 1;
        if !Covered(payload.fetched, gap) {
          continue;
        }
        batch := batch + [Keyed(gap.start, GapRow(gap.end, now, FetchFailed, Some(now)))];
      }
      assert payload.openGaps[..i] == payload.openGaps;
      Upsert(batch, RESOLVE_COLUMNS);
    }

    /** `_gap_writes`. */
    method GapWrites(payload: Payload, now: int)
      modifies this
      ensures rows == Written(old(rows), payload, now)
    {
      var batch: seq<Keyed> := [];
      if payload.gap.Some? {
        batch := batch + [Keyed(payload.gap.value.start, GapRow(payload.gap.value.end, now, RetentionExpired, None))];
      }
      ghost var first := batch;
      var i := 0;
      while i < |payload.failed|
        invariant 0 <= i <= |payload.failed|
        invariant batch == first + FailedRows(payload.failed[..i], now)
        invariant rows == old(rows)
      {
        batch := batch + [Keyed(Midnight(payload.failed[i].start),
                                GapRow(Midnight(payload.failed[i].end), now, FetchFailed, None))];
        i := i + 1;
      }
      assert payload.failed[..i] == payload.failed;
      assert batch == RecordRows(payload, now);
      Upsert(batch, RECORD_COLUMNS);
      ResolveWrites(payload, now);
    }

    /** A whole run; a run that raises writes nothing. */
    method Sync(interval: string, run: Run) returns (r: Result<Payload, FetchError>)
      requires BarLimits(interval).Some?
      requires |run.answers| == |Requests(Planned(BarLimits(interval).value, run.req))|
      modifies this
      ensures r.Raised? <==> NothingCameBack(run.answers) && SomethingBroke(run.answers)
      ensures r.Raised? ==> rows == old(rows)
      ensures r.Ok? ==> SortedByAnswer(Planned(BarLimits(interval).value, run.req).windows, run.answers, r.value)
      ensures r.Ok? ==> FailuresRecorded(Planned(BarLimits(interval).value, run.req).windows, run.answers, rows)
      ensures r.Ok? ==> r.value == Fetched(BarLimits(interval).value, run)
      ensures r.Ok? ==> rows == Written(old(rows), r.value, run.clock)
    {
      SlicesAreIsolated(BarLimits(interval).value, rows, run);
      r := Fetch(interval, run);
      if r.Ok? {
        GapWrites(r.value, run.clock);
      }
    }
  }

  // ------------------------------------------------- the shape of the writes

  lemma DayOfMidnight(day: int)
    ensures DayOf(Midnight(day)) == day
  {
  }

  lemma MidnightBounds(start: int, end: int, timestamp: int)
    ensures Midnight(start) <= timestamp < Midnight(end) <==> start <= DayOf(timestamp) < end
  {
  }

  lemma {:induction false} SortedMembers(requests: seq<Option<Window>>, answers: seq<Answer>, bars: bool, w: Window)
    requires |requests| == |answers|
    ensures w in Sorted(requests, answers, bars)
       <==> exists i :: 0 <= i < |requests| && requests[i] == Some(w) && (answers[i] == Bars) == bars
  {
    if requests != [] {
      var n := |requests| - 1;
      SortedMembers(requests[..n], answers[..n], bars, w);
      assert w in Sorted(requests[..n], answers[..n], bars) ==>
        exists i :: 0 <= i < n && requests[..n][i] == Some(w) && (answers[..n][i] == Bars) == bars;
      if i :| 0 <= i < |requests| && requests[i] == Some(w) && (answers[i] == Bars) == bars {
        if i < n {
          assert requests[..n][i] == Some(w) && answers[..n][i] == answers[i];
        }
      }
    }
  }

  /** Of a list of distinct windows each is fetched or failed, never both, and no other window is either. */
  lemma EachWindowOnce(plan: FetchPlan, answers: seq<Answer>, w: Window)
    requires Ascending(plan.windows) && |answers| == |Requests(plan)|
    ensures w in plan.windows <==>
            w in Sorted(Requests(plan), answers, true) || w in Sorted(Requests(plan), answers, false)
    ensures !(w in Sorted(Requests(plan), answers, true) && w in Sorted(Requests(plan), answers, false))
  {
    SortedMembers(Requests(plan), answers, true, w);
    SortedMembers(Requests(plan), answers, false, w);
    PlannedIsRequested(plan, w);
    if i, j :| 0 <= i < |answers| && 0 <= j < |answers| && Requests(plan)[i] == Some(w) == Requests(plan)[j]
               && answers[i] == Bars && answers[j] != Bars {
      RequestedOnce(plan, w, i, j);
    }
  }

  lemma PlannedIsRequested(plan: FetchPlan, w: Window)
    ensures w in plan.windows <==> exists i :: 0 <= i < |Requests(plan)| && Requests(plan)[i] == Some(w)
  {
    if w in plan.windows {
      var k :| 0 <= k < |plan.windows| && plan.windows[k] == w;
      assert Requests(plan)[k] == Some(w);
    }
  }

  lemma RequestedOnce(plan: FetchPlan, w: Window, i: nat, j: nat)
    requires Ascending(plan.windows) && i < |Requests(plan)| && j < |Requests(plan)|
    requires Requests(plan)[i] == Some(w) == Requests(plan)[j]
    ensures i == j
  {
    assert plan.windows[i] == w == plan.windows[j];
  }

  lemma {:induction false} LastByKeyValue(batch: seq<Keyed>, key: int)
    ensures key in LastByKey(batch) <==> exists i :: 0 <= i < |batch| && batch[i].start == key
    ensures key in LastByKey(batch) ==>
              exists i :: 0 <= i < |batch| && batch[i] == Keyed(key, LastByKey(batch)[key])
                          && forall j :: i < j < |batch| ==> batch[j].start != key
  {
    if batch != [] {
      var n := |batch| - 1;
      LastByKeyValue(batch[..n], key);
      if batch[n].start != key && key in LastByKey(batch[..n]) {
        var i :| 0 <= i < n && batch[..n][i] == Keyed(key, LastByKey(batch[..n])[key])
                 && forall j :: i < j < n ==> batch[..n][j].start != key;
        assert batch[i] == batch[..n][i];
        forall j | i < j < |batch| ensures batch[j].start != key {
          if j < n { assert batch[j] == batch[..n][j]; }
        }
      }
      if i :| 0 <= i < |batch| && batch[i].start == key {
        if i < n { assert batch[..n][i].start == key; }
      }
    }
  }

  /** The windows of the failed list start on different days. */
  ghost predicate DistinctStarts(windows: seq<Window>) {
    forall v, w :: v in windows && w in windows && v.start == w.start ==> v == w
  }

  /** Where the failed windows' rows start. */
  function Offset(payload: Payload): nat {
    if payload.gap.Some? then 1 else 0
  }

  lemma RetentionRowAt(payload: Payload, now: int)
    requires payload.gap.Some?
    ensures RecordRows(payload, now) != []
    ensures RecordRows(payload, now)[0]
         == Keyed(payload.gap.value.start, GapRow(payload.gap.value.end, now, RetentionExpired, None))
  {
  }

  lemma FailedRowAt(payload: Payload, now: int, k: nat)
    requires k < |payload.failed|
    ensures Offset(payload) + k < |RecordRows(payload, now)|
    ensures RecordRows(payload, now)[Offset(payload) + k] == FailedRow(payload.failed[k], now)
  {
  }

  lemma RecordRowAt(payload: Payload, now: int, i: nat)
    requires i < |RecordRows(payload, now)|
    ensures var row := RecordRows(payload, now)[i];
      || (payload.gap.Some?
          && row == Keyed(payload.gap.value.start, GapRow(payload.gap.value.end, now, RetentionExpired, None)))
      || exists w :: w in payload.failed && row == FailedRow(w, now)
  {
    if i < Offset(payload) {
      RetentionRowAt(payload, now);
    } else {
      var k := i - Offset(payload);
      FailedRowAt(payload, now, k);
      assert payload.failed[k] in payload.failed;
    }
  }

  lemma LastWithKey(batch: seq<Keyed>, key: int, k: nat) returns (i: nat)
    requires k < |batch| && batch[k].start == key
    ensures k <= i < |batch| && key in LastByKey(batch) && batch[i] == Keyed(key, LastByKey(batch)[key])
  {
    LastByKeyValue(batch, key);
    i :| 0 <= i < |batch| && batch[i] == Keyed(key, LastByKey(batch)[key])
         && forall j :: i < j < |batch| ==> batch[j].start != key;
  }

  /** A failed window's row is the one that lands, also over a retention row of the same key. */
  lemma RecordedFailure(payload: Payload, now: int, w: Window)
    requires DistinctStarts(payload.failed) && w in payload.failed
    ensures var rows := LastByKey(RecordRows(payload, now));
      Midnight(w.start) in rows && rows[Midnight(w.start)] == FailedRow(w, now).row
  {
    var k :| 0 <= k < |payload.failed| && payload.failed[k] == w;
    FailedRowAt(payload, now, k);
    var i := LastWithKey(RecordRows(payload, now), Midnight(w.start), Offset(payload) + k);
    var j := i - Offset(payload);
    FailedRowAt(payload, now, j);
    SameStart(payload.failed, k, j);
  }

  lemma SameStart(windows: seq<Window>, i: nat, j: nat)
    requires DistinctStarts(windows) && i < |windows| && j < |windows|
    requires Midnight(windows[i].start) == Midnight(windows[j].start)
    ensures windows[i] == windows[j]
  {
  }

  /** Any other key is the retention row's. */
  lemma RecordedOther(payload: Payload, now: int, key: int)
    requires forall w :: w in payload.failed ==> key != Midnight(w.start)
    ensures var rows := LastByKey(RecordRows(payload, now));
      && (key in rows <==> payload.gap.Some? && key == payload.gap.value.start)
      && (key in rows ==> rows[key] == GapRow(payload.gap.value.end, now, RetentionExpired, None))
  {
    var batch := RecordRows(payload, now);
    LastByKeyValue(batch, key);
    if key in LastByKey(batch) {
      var i :| 0 <= i < |batch| && batch[i] == Keyed(key, LastByKey(batch)[key]);
      RecordRowAt(payload, now, i);
    }
    if payload.gap.Some? && key == payload.gap.value.start {
      RetentionRowAt(payload, now);
      assert batch[0].start == key;
    }
  }

  lemma {:induction false} ResolvedKey(fetched: seq<Window>, gaps: seq<Gap>, now: int, key: int)
    ensures var rows := LastByKey(ResolveRows(fetched, gaps, now));
      && (key in rows <==> exists i :: 0 <= i < |gaps| && gaps[i].start == key && Covered(fetched, gaps[i]))
      && (key in rows ==> rows[key].resolvedAt == Some(now) && rows[key].reason == FetchFailed)
  {
    if gaps != [] {
      var n := |gaps| - 1;
      var before := ResolveRows(fetched, gaps[..n], now);
      ResolvedKey(fetched, gaps[..n], now, key);
      var batch := ResolveRows(fetched, gaps, now);
      if Covered(fetched, gaps[n]) {
        assert batch[..|batch| - 1] == before;
      } else {
        assert batch == before;
      }
      if i :| 0 <= i < |gaps| && gaps[i].start == key && Covered(fetched, gaps[i]) {
        if i < n { assert gaps[..n][i] == gaps[i]; }
      }
      if i :| 0 <= i < n && gaps[..n][i].start == key && Covered(fetched, gaps[..n][i]) {
        assert gaps[i] == gaps[..n][i];
      }
    }
  }

  // ------------------------------------------------------ one run's ledger

  ghost predicate ValidRun(limits: Limits, run: Run) {
    && ValidLimits(limits)
    && |run.answers| == |Requests(Planned(limits, run.req))|
  }

  predicate Closed(ledger: Ledger, key: int) {
    key in ledger && ledger[key].resolvedAt.Some?
  }

  /** The ledger after a run that does not raise. */
  function After(limits: Limits, ledger: Ledger, run: Run): Ledger
    requires ValidRun(limits, run)
  {
    Written(ledger, Fetched(limits, run), run.clock)
  }

  lemma PlanAscending(limits: Limits, req: Request)
    requires ValidLimits(limits)
    ensures Ascending(Planned(limits, req).windows)
  {
    if req.Manual() {
      SlicedShape(req.ManualStart(), req.ManualEnd(), limits.perRequest);
    } else {
      PlanIsExact(limits, req);
    }
  }

  lemma PayloadPartition(limits: Limits, run: Run, w: Window)
    requires ValidRun(limits, run)
    ensures var p := Fetched(limits, run);
      && (w in Planned(limits, run.req).windows <==> w in p.fetched || w in p.failed)
      && !(w in p.fetched && w in p.failed)
  {
    PlanAscending(limits, run.req);
    EachWindowOnce(Planned(limits, run.req), run.answers, w);
  }

  /** Two windows of one plan that share a day are the same window. */
  lemma SameWindow(windows: seq<Window>, v: Window, w: Window, day: int)
    requires Ascending(windows) && v in windows && w in windows
    requires InWindow(v, day) && InWindow(w, day)
    ensures v == w
  {
  }

  lemma FailedStartsDiffer(limits: Limits, run: Run)
    requires ValidRun(limits, run)
    ensures DistinctStarts(Fetched(limits, run).failed)
  {
    var p := Fetched(limits, run);
    PlanAscending(limits, run.req);
    forall v, w | v in p.failed && w in p.failed && v.start == w.start ensures v == w {
      PayloadPartition(limits, run, v);
      PayloadPartition(limits, run, w);
      SameWindow(Planned(limits, run.req).windows, v, w, v.start);
    }
  }

  lemma CoveredMeans(fetched: seq<Window>, gap: Gap)
    ensures Covered(fetched, gap) <==> Covers(fetched, DayOf(gap.start))
  {
    forall i | 0 <= i < |fetched|
      ensures Midnight(fetched[i].start) <= gap.start < Midnight(fetched[i].end)
          <==> InWindow(fetched[i], DayOf(gap.start))
    {
      MidnightBounds(fetched[i].start, fetched[i].end, gap.start);
    }
  }

  /** A gap that starts with a failed window is not closed by the same run. */
  lemma FailedIsNotCovered(limits: Limits, run: Run, w: Window, gap: Gap)
    requires ValidRun(limits, run) && w in Fetched(limits, run).failed && InWindow(w, DayOf(gap.start))
    ensures !Covered(Fetched(limits, run).fetched, gap)
  {
    var p := Fetched(limits, run);
    CoveredMeans(p.fetched, gap);
    if Covers(p.fetched, DayOf(gap.start)) {
      var i :| 0 <= i < |p.fetched| && InWindow(p.fetched[i], DayOf(gap.start));
      PlanAscending(limits, run.req);
      PayloadPartition(limits, run, w);
      PayloadPartition(limits, run, p.fetched[i]);
      SameWindow(Planned(limits, run.req).windows, w, p.fetched[i], DayOf(gap.start));
    }
  }

  /** The row of a failed window after the run: its whole span, and still closed if it was. */
  lemma FailedRowAfter(limits: Limits, ledger: Ledger, run: Run, w: Window)
    requires ValidRun(limits, run) && w in Fetched(limits, run).failed
    ensures var key := Midnight(w.start);
      && key in After(limits, ledger, run)
      && After(limits, ledger, run)[key] == GapRow(Midnight(w.end), run.clock, FetchFailed,
                                                   if key in ledger then ledger[key].resolvedAt else None)
  {
    var p, key := Fetched(limits, run), Midnight(w.start);
    FailedStartsDiffer(limits, run);
    RecordedFailure(p, run.clock, w);
    PlanAscending(limits, run.req);
    PayloadPartition(limits, run, w);
    DayOfMidnight(w.start);
    forall gap | gap in p.openGaps && gap.start == key ensures !Covered(p.fetched, gap) {
      FailedIsNotCovered(limits, run, w, gap);
    }
    NotResolved(p.fetched, p.openGaps, run.clock, key);
  }

  /** One request for each window in their order; without windows and gap, one for everything there is. */
  lemma RequestsAreWindows(plan: FetchPlan)
    ensures plan.windows == [] && plan.gap == None ==> Requests(plan) == [None]
    ensures plan.windows != [] || plan.gap != None ==> |Requests(plan)| == |plan.windows|
    ensures forall i :: 0 <= i < |plan.windows| ==> Requests(plan)[i] == Some(plan.windows[i])
  {
  }

  lemma SlicesAreSorted(limits: Limits, run: Run)
    requires ValidRun(limits, run)
    ensures SortedByAnswer(Planned(limits, run.req).windows, run.answers, Fetched(limits, run))
  {
    var p, plan := Fetched(limits, run), Planned(limits, run.req);
    forall i | 0 <= i < |plan.windows|
      ensures if run.answers[i] == Bars then plan.windows[i] in p.fetched && plan.windows[i] !in p.failed
              else plan.windows[i] in p.failed && plan.windows[i] !in p.fetched
    {
      assert Requests(plan)[i] == Some(plan.windows[i]);
      SortedMembers(Requests(plan), run.answers, run.answers[i] == Bars, plan.windows[i]);
      PayloadPartition(limits, run, plan.windows[i]);
    }
    forall w | w in p.fetched || w in p.failed ensures w in plan.windows {
      PayloadPartition(limits, run, w);
    }
  }

  /** One failed window loses no other: each goes by its own answer, and each failure has its row. */
  lemma SlicesAreIsolated(limits: Limits, ledger: Ledger, run: Run)
    requires ValidRun(limits, run)
    ensures SortedByAnswer(Planned(limits, run.req).windows, run.answers, Fetched(limits, run))
    ensures FailuresRecorded(Planned(limits, run.req).windows, run.answers, After(limits, ledger, run))
  {
    var windows := Planned(limits, run.req).windows;
    SlicesAreSorted(limits, run);
    forall i | 0 <= i < |windows| && run.answers[i] != Bars
      ensures Midnight(windows[i].start) in After(limits, ledger, run)
      ensures After(limits, ledger, run)[Midnight(windows[i].start)].end == Midnight(windows[i].end)
      ensures After(limits, ledger, run)[Midnight(windows[i].start)].reason == FetchFailed
    {
      FailedRowAfter(limits, ledger, run, windows[i]);
    }
  }

  /** As soon as one request returned bars the run completes: the history goes on with its windows. */
  lemma OneSliceSuffices(limits: Limits, h: History, run: Run, i: nat)
    requires ValidRun(limits, run) && i < |Planned(limits, run.req).windows| && run.answers[i] == Bars
    ensures var next, windows := Extended(limits, h, run), Planned(limits, run.req).windows;
      && next.horizon == run.req.Today()
      && windows[i] in next.fetched
      && FailuresRecorded(windows, run.answers, next.ledger)
  {
    assert run.answers[i] in run.answers;
    SlicesAreIsolated(limits, h.ledger, run);
  }

  /** A closed row keeps its span, its reason and the time it was noticed; it gets the time of closing. */
  lemma ClosedRowAfter(limits: Limits, ledger: Ledger, run: Run, gap: Gap)
    requires ValidRun(limits, run) && gap in run.req.openGaps && ReadFrom(run.req.openGaps, ledger)
    requires Covers(Fetched(limits, run).fetched, DayOf(gap.start)) && gap.start !in RunRows(limits, run)
    ensures gap.start in After(limits, ledger, run)
    ensures After(limits, ledger, run)[gap.start]
         == GapRow(gap.end, ledger[gap.start].detectedAt, FetchFailed, Some(run.clock))
  {
    var p := Fetched(limits, run);
    ResolvedKeys(limits, ledger, run, gap.start);
    ResolvedKey(p.fetched, p.openGaps, run.clock, gap.start);
  }

  /** One run, automatic or manual, leaves a coherent ledger. */
  lemma RunIsCoherent(limits: Limits, ledger: Ledger, run: Run)
    requires ValidRun(limits, run)
    ensures var p := Fetched(limits, run);
      var after := After(limits, ledger, run);
      && (forall w :: w in Planned(limits, run.req).windows ==> (w in p.fetched) != (w in p.failed))
      && (forall w :: w in p.failed ==>
            Midnight(w.start) in after && after[Midnight(w.start)].end == Midnight(w.end)
            && after[Midnight(w.start)].reason == FetchFailed)
      && (forall gap, w :: gap in p.openGaps && w in p.failed && gap.start == Midnight(w.start) ==>
            !Covered(p.fetched, gap))
      && (!run.req.Manual() ==> forall gap :: gap in p.openGaps && Covered(p.fetched, gap) ==>
            !BeforeEdge(Earliest(limits, run.req.Today()), DayOf(gap.start)))
      && (!run.req.Manual() && p.gap.Some? && DayOf(p.gap.value.start) < DayOf(p.gap.value.end) ==>
            !Covered(p.fetched, p.gap.value))
  {
    var p := Fetched(limits, run);
    PlanAscending(limits, run.req);
    forall w | w in Planned(limits, run.req).windows ensures (w in p.fetched) != (w in p.failed) {
      PayloadPartition(limits, run, w);
    }
    forall w | w in p.failed
      ensures Midnight(w.start) in After(limits, ledger, run)
      ensures After(limits, ledger, run)[Midnight(w.start)].end == Midnight(w.end)
      ensures After(limits, ledger, run)[Midnight(w.start)].reason == FetchFailed
    {
      FailedRowAfter(limits, ledger, run, w);
    }
    forall gap, w | gap in p.openGaps && w in p.failed && gap.start == Midnight(w.start)
      ensures !Covered(p.fetched, gap)
    {
      PayloadPartition(limits, run, w);
      DayOfMidnight(w.start);
      FailedIsNotCovered(limits, run, w, gap);
    }
    if !run.req.Manual() {
      forall gap | gap in p.openGaps && Covered(p.fetched, gap)
        ensures !BeforeEdge(Earliest(limits, run.req.Today()), DayOf(gap.start))
      {
        FetchedDayWanted(limits, run, gap);
      }
      if p.gap.Some? && DayOf(p.gap.value.start) < DayOf(p.gap.value.end) { RetentionStaysOpen(limits, run); }
    }
  }

  /** A retention row that spans a day starts before the edge, where nothing is fetched. */
  lemma RetentionStaysOpen(limits: Limits, run: Run)
    requires ValidRun(limits, run) && !run.req.Manual() && Planned(limits, run.req).gap.Some?
    requires var gap := Planned(limits, run.req).gap.value; DayOf(gap.start) < DayOf(gap.end)
    ensures !Covered(Fetched(limits, run).fetched, Planned(limits, run.req).gap.value)
  {
    var gap := Planned(limits, run.req).gap.value;
    DayOfMidnight(WantedStart(limits, run.req));
    if Covered(Fetched(limits, run).fetched, gap) { FetchedDayWanted(limits, run, gap); }
  }

  lemma FetchedDayWanted(limits: Limits, run: Run, gap: Gap)
    requires ValidRun(limits, run) && !run.req.Manual() && Covered(Fetched(limits, run).fetched, gap)
    ensures Wants(limits, run.req, DayOf(gap.start))
    ensures !BeforeEdge(Earliest(limits, run.req.Today()), DayOf(gap.start)) && DayOf(gap.start) < run.req.Today()
  {
    var p := Fetched(limits, run);
    CoveredMeans(p.fetched, gap);
    var i :| 0 <= i < |p.fetched| && InWindow(p.fetched[i], DayOf(gap.start));
    PayloadPartition(limits, run, p.fetched[i]);
    PlanIsExact(limits, run.req);
    CoversMember(Planned(limits, run.req).windows, p.fetched[i], DayOf(gap.start));
    WantsInRetention(limits, run.req, DayOf(gap.start));
  }

  /** The run records a failed window at a key that an earlier run has closed. */
  ghost predicate RecordsClosed(limits: Limits, ledger: Ledger, run: Run, w: Window)
    requires ValidRun(limits, run)
  {
    w in Fetched(limits, run).failed && Closed(ledger, Midnight(w.start))
  }

  /**
   The upsert leaves `resolved_at` alone, so a failed window is still open after the run
   exactly when its key was not closed before.
   */
  lemma FailureStaysOpenIff(limits: Limits, ledger: Ledger, run: Run)
    requires ValidRun(limits, run)
    ensures (forall w :: w in Fetched(limits, run).failed ==> !Closed(After(limits, ledger, run), Midnight(w.start)))
       <==> (forall w :: !RecordsClosed(limits, ledger, run, w))
  {
    forall w | w in Fetched(limits, run).failed
      ensures Closed(After(limits, ledger, run), Midnight(w.start)) <==> RecordsClosed(limits, ledger, run, w)
    {
      FailedRowAfter(limits, ledger, run, w);
    }
  }

  // ------------------------------------------------------- no silent hole

  ghost predicate InGap(gap: Gap, day: int) {
    DayOf(gap.start) <= day < DayOf(gap.end)
  }

  /** An unresolved row spans the day. */
  ghost predicate OpenAt(ledger: Ledger, key: int, day: int) {
    key in ledger && ledger[key].resolvedAt.None? && DayOf(key) <= day < DayOf(ledger[key].end)
  }

  ghost predicate HeldOpen(ledger: Ledger, day: int) {
    exists key :: OpenAt(ledger, key, day)
  }

  predicate Pending(row: GapRow) {
    row.reason == FetchFailed && row.resolvedAt.None?
  }

  /** `GapReader`: the pending rows of the ledger, in any order. */
  ghost predicate ReadFrom(gaps: seq<Gap>, ledger: Ledger) {
    && (forall gap :: gap in gaps ==>
          gap.start in ledger && Pending(ledger[gap.start]) && ledger[gap.start].end == gap.end)
    && (forall key :: key in ledger && Pending(ledger[key]) ==> Gap(key, ledger[key].end) in gaps)
  }

  /**
   Everything a run of runs has left behind: the ledger, the windows ever fetched, the first
   day that counts and the latest completed run's today.
   */
  datatype History = History(ledger: Ledger, fetched: seq<Window>, origin: int, horizon: int)

  /** No day between origin and horizon is neither fetched nor held open. */
  ghost predicate NoSilentHole(h: History) {
    forall day :: h.origin <= day < h.horizon ==> Covers(h.fetched, day) || HeldOpen(h.ledger, day)
  }

  /** Pending rows end by the horizon, expired ones by its retention edge. */
  ghost predicate RowsInTime(limits: Limits, h: History) {
    forall key :: key in h.ledger && h.ledger[key].resolvedAt.None? ==>
      if h.ledger[key].reason == FetchFailed then DayOf(h.ledger[key].end) <= h.horizon
      else limits.depth.Some? && DayOf(h.ledger[key].end) <= h.horizon - limits.depth.value
  }

  /**
   An automatic run after the history: no explicit range, the clock not back, the watermark
   (or the range it leads to) not past the horizon, and a first fill that reaches the horizon.
   */
  ghost predicate Follows(limits: Limits, h: History, run: Run) {
    && ValidRun(limits, run)
    && !run.req.Manual()
    && run.req.overlapDays >= 0
    && h.horizon <= run.req.Today()
    && ReadFrom(run.req.openGaps, h.ledger)
    && if run.req.watermark.Some?
       then DayOf(run.req.watermark.value) <= h.horizon || WantedStart(limits, run.req) <= h.horizon
       else limits.depth.Some? && run.req.Today() - limits.depth.value <= h.horizon
  }

  /** The record write of the run. */
  ghost function RunRows(limits: Limits, run: Run): map<int, GapRow>
    requires ValidRun(limits, run)
  {
    LastByKey(RecordRows(Fetched(limits, run), run.clock))
  }

  /** No row of the run lands on a key that is already closed. */
  ghost predicate NoKeyReused(limits: Limits, h: History, run: Run)
    requires ValidRun(limits, run)
  {
    forall key :: key in RunRows(limits, run) ==> !Closed(h.ledger, key)
  }

  /** The record row of this key spans the day. */
  ghost predicate Spans(limits: Limits, run: Run, key: int, day: int)
    requires ValidRun(limits, run)
  {
    key in RunRows(limits, run) && DayOf(key) <= day < DayOf(RunRows(limits, run)[key].end)
  }

  /** The run writes a row that spans the day, onto a closed key: the row stays closed. */
  ghost predicate Muted(limits: Limits, h: History, run: Run, day: int)
    requires ValidRun(limits, run)
  {
    exists key :: Spans(limits, run, key, day) && Closed(h.ledger, key)
  }

  /** The history after the run; a run that raises leaves it as it is. */
  ghost function Extended(limits: Limits, h: History, run: Run): History
    requires ValidRun(limits, run)
  {
    if Raises(run.answers) then h
    else History(After(limits, h.ledger, run), h.fetched + Fetched(limits, run).fetched, h.origin, run.req.Today())
  }

  /** A day the run asked for is fetched, or its window's row is written. */
  lemma WantedDay(limits: Limits, h: History, run: Run, day: int)
    requires Follows(limits, h, run) && Wants(limits, run.req, day)
    ensures Covers(Fetched(limits, run).fetched, day) || HeldOpen(After(limits, h.ledger, run), day)
            || Muted(limits, h, run, day)
  {
    var p := Fetched(limits, run);
    PlanIsExact(limits, run.req);
    var windows := Planned(limits, run.req).windows;
    assert Covers(windows, day);
    var i :| 0 <= i < |windows| && InWindow(windows[i], day);
    var w := windows[i];
    PayloadPartition(limits, run, w);
    if w in p.fetched {
      CoversMember(p.fetched, w, day);
    } else {
      FailedRowAfter(limits, h.ledger, run, w);
      FailedStartsDiffer(limits, run);
      RecordedFailure(p, run.clock, w);
      DayOfMidnight(w.start);
      DayOfMidnight(w.end);
      if !Closed(h.ledger, Midnight(w.start)) {
        assert OpenAt(After(limits, h.ledger, run), Midnight(w.start), day);
      }
    }
  }

  /** Which key a run can change, and to what. */
  lemma RowAfter(limits: Limits, ledger: Ledger, run: Run, key: int)
    requires ValidRun(limits, run)
    requires forall w :: w in Fetched(limits, run).failed ==> key != Midnight(w.start)
    requires forall gap :: gap in run.req.openGaps && gap.start == key ==> !Covered(Fetched(limits, run).fetched, gap)
    ensures var gap := Planned(limits, run.req).gap;
      var after := After(limits, ledger, run);
      if gap.Some? && gap.value.start == key then
        key in after && after[key] == GapRow(gap.value.end, run.clock, RetentionExpired,
                                             if key in ledger then ledger[key].resolvedAt else None)
      else
        (key in after <==> key in ledger) && (key in after ==> after[key] == ledger[key])
  {
    var p := Fetched(limits, run);
    RecordedOther(p, run.clock, key);
    NotResolved(p.fetched, p.openGaps, run.clock, key);
  }

  lemma NotResolved(fetched: seq<Window>, gaps: seq<Gap>, now: int, key: int)
    requires forall gap :: gap in gaps && gap.start == key ==> !Covered(fetched, gap)
    ensures key !in LastByKey(ResolveRows(fetched, gaps, now))
  {
    ResolvedKey(fetched, gaps, now, key);
    forall i | 0 <= i < |gaps| && gaps[i].start == key ensures !Covered(fetched, gaps[i]) {
      assert gaps[i] in gaps;
    }
  }

  /** A failed window starts inside retention, on its own key's day. */
  lemma FailedStart(limits: Limits, run: Run, w: Window)
    requires ValidRun(limits, run) && !run.req.Manual() && w in Fetched(limits, run).failed
    ensures DayOf(Midnight(w.start)) == w.start < w.end == DayOf(Midnight(w.end)) <= run.req.Today()
    ensures !BeforeEdge(Earliest(limits, run.req.Today()), w.start)
  {
    PlanIsExact(limits, run.req);
    PayloadPartition(limits, run, w);
    DayOfMidnight(w.start);
    DayOfMidnight(w.end);
  }

  /** The run asks for every day of a pending row that starts inside retention. */
  lemma PendingIsWanted(limits: Limits, h: History, run: Run, key: int, day: int)
    requires Follows(limits, h, run) && RowsInTime(limits, h)
    requires OpenAt(h.ledger, key, day) && Pending(h.ledger[key])
    requires !BeforeEdge(Earliest(limits, run.req.Today()), DayOf(key))
    ensures Wants(limits, run.req, day)
  {
    var gap := Gap(key, h.ledger[key].end);
    assert gap in run.req.openGaps;
    var i :| 0 <= i < |run.req.openGaps| && run.req.openGaps[i] == gap;
    assert run.req.watermark.Some? ==> GapWants(limits, run.req, run.req.openGaps[i], day);
  }

  /** An open day that the run does not ask for stays open. */
  lemma OldDay(limits: Limits, h: History, run: Run, key: int, day: int)
    requires Follows(limits, h, run) && RowsInTime(limits, h)
    requires OpenAt(h.ledger, key, day) && !Wants(limits, run.req, day)
    ensures HeldOpen(After(limits, h.ledger, run), day)
  {
    var p := Fetched(limits, run);
    forall w | w in p.failed ensures key != Midnight(w.start) {
      FailedStart(limits, run, w);
      if key == Midnight(w.start) && Pending(h.ledger[key]) {
        PendingIsWanted(limits, h, run, key, day);
      }
    }
    forall gap | gap in run.req.openGaps && gap.start == key ensures !Covered(p.fetched, gap) {
      if Covered(p.fetched, gap) {
        FetchedDayWanted(limits, run, gap);
        PendingIsWanted(limits, h, run, key, day);
      }
    }
    RowAfter(limits, h.ledger, run, key);
    var gap := Planned(limits, run.req).gap;
    if gap.Some? && gap.value.start == key {
      DayOfMidnight(WantedStart(limits, run.req));
    }
    assert OpenAt(After(limits, h.ledger, run), key, day);
  }

  /** A day between the horizon and the range asked for is in the retention row. */
  lemma ExpiredDay(limits: Limits, h: History, run: Run, day: int)
    requires Follows(limits, h, run)
    requires h.horizon <= day < run.req.Today() && !Wants(limits, run.req, day)
    ensures HeldOpen(After(limits, h.ledger, run), day) || Muted(limits, h, run, day)
  {
    var p := Fetched(limits, run);
    var key := run.req.watermark.value;
    var edge := WantedStart(limits, run.req);
    assert DayOf(key) <= day < edge && p.gap == Some(Gap(key, Midnight(edge)));
    DayOfMidnight(edge);
    forall w | w in p.failed ensures key != Midnight(w.start) {
      FailedStart(limits, run, w);
    }
    forall gap | gap in run.req.openGaps && gap.start == key ensures !Covered(p.fetched, gap) {
      if Covered(p.fetched, gap) { FetchedDayWanted(limits, run, gap); }
    }
    RowAfter(limits, h.ledger, run, key);
    RecordedOther(p, run.clock, key);
    if !Closed(h.ledger, key) {
      assert OpenAt(After(limits, h.ledger, run), key, day);
    }
  }

  lemma StepKeepsRowsInTime(limits: Limits, h: History, run: Run)
    requires Follows(limits, h, run) && RowsInTime(limits, h)
    ensures RowsInTime(limits, Extended(limits, h, run))
  {
    var p, after := Fetched(limits, run), After(limits, h.ledger, run);
    var today := run.req.Today();
    forall key | key in after && after[key].resolvedAt.None?
      ensures if after[key].reason == FetchFailed then DayOf(after[key].end) <= today
              else limits.depth.Some? && DayOf(after[key].end) <= today - limits.depth.value
    {
      if w :| w in p.failed && key == Midnight(w.start) {
        FailedRowAfter(limits, h.ledger, run, w);
        FailedStart(limits, run, w);
      } else {
        ResolvedKey(p.fetched, p.openGaps, run.clock, key);
        RowAfter(limits, h.ledger, run, key);
        if p.gap.Some? && p.gap.value.start == key {
          DayOfMidnight(today - limits.depth.value);
        }
      }
    }
  }

  /** Where a day of the history is after a run that completes. */
  lemma DayAfterRun(limits: Limits, h: History, run: Run, day: int)
    requires Follows(limits, h, run) && RowsInTime(limits, h) && NoSilentHole(h) && !Raises(run.answers)
    requires h.origin <= day < run.req.Today()
    ensures var next := Extended(limits, h, run);
      Covers(next.fetched, day) || HeldOpen(next.ledger, day) || Muted(limits, h, run, day)
  {
    CoversConcat(h.fetched, Fetched(limits, run).fetched, day);
    if Wants(limits, run.req, day) {
      WantedDay(limits, h, run, day);
    } else if day < h.horizon {
      if key :| OpenAt(h.ledger, key, day) {
        OldDay(limits, h, run, key, day);
      }
    } else {
      ExpiredDay(limits, h, run, day);
    }
  }

  // ------------------------------------------ which muted days become holes

  /** A record row is a failed window's, or else ends at the edge behind which every window starts. */
  lemma SpanSource(limits: Limits, run: Run, key: int, day: int) returns (w: Option<Window>)
    requires ValidRun(limits, run) && !run.req.Manual() && Spans(limits, run, key, day)
    ensures w.Some? ==>
              w.value in Fetched(limits, run).failed && key == Midnight(w.value.start) && InWindow(w.value, day)
    ensures w.None? ==> var gap := Planned(limits, run.req).gap;
              gap.Some? && key == gap.value.start && BeforeEdge(Earliest(limits, run.req.Today()), day)
  {
    var p := Fetched(limits, run);
    if v :| v in p.failed && key == Midnight(v.start) {
      FailedStartsDiffer(limits, run);
      RecordedFailure(p, run.clock, v);
      DayOfMidnight(v.start);
      DayOfMidnight(v.end);
      w := Some(v);
    } else {
      RecordedOther(p, run.clock, key);
      DayOfMidnight(WantedStart(limits, run.req));
      w := None;
    }
  }

  /** A day that a planned window holds is not before the edge. */
  lemma PlannedDayInRetention(limits: Limits, run: Run, w: Window, day: int)
    requires ValidRun(limits, run) && !run.req.Manual()
    requires w in Planned(limits, run.req).windows && InWindow(w, day)
    ensures !BeforeEdge(Earliest(limits, run.req.Today()), day)
  {
    PlanIsExact(limits, run.req);
  }

  /** No two record rows of one run span the same day. */
  lemma SpannedOnce(limits: Limits, run: Run, key: int, other: int, day: int)
    requires ValidRun(limits, run) && !run.req.Manual()
    requires Spans(limits, run, key, day) && Spans(limits, run, other, day)
    ensures key == other
  {
    var v := SpanSource(limits, run, key, day);
    var w := SpanSource(limits, run, other, day);
    if v.Some? {
      PayloadPartition(limits, run, v.value);
      PlannedDayInRetention(limits, run, v.value, day);
    }
    if w.Some? {
      PayloadPartition(limits, run, w.value);
      PlannedDayInRetention(limits, run, w.value, day);
    }
    if v.Some? && w.Some? {
      PlanAscending(limits, run.req);
      SameWindow(Planned(limits, run.req).windows, v.value, w.value, day);
    }
  }

  /** The run fetched no window that holds a day which one of its record rows spans. */
  lemma SpannedIsNotFetched(limits: Limits, run: Run, key: int, day: int)
    requires ValidRun(limits, run) && !run.req.Manual() && Spans(limits, run, key, day)
    ensures !Covers(Fetched(limits, run).fetched, day)
  {
    var p := Fetched(limits, run);
    var w := SpanSource(limits, run, key, day);
    if i :| 0 <= i < |p.fetched| && InWindow(p.fetched[i], day) {
      PayloadPartition(limits, run, p.fetched[i]);
      PlannedDayInRetention(limits, run, p.fetched[i], day);
      PayloadPartition(limits, run, w.value);
      PlanAscending(limits, run.req);
      SameWindow(Planned(limits, run.req).windows, w.value, p.fetched[i], day);
    }
  }

  /** The run closes the row: it is pending and a fetched window holds its first day. */
  ghost predicate Resolves(limits: Limits, ledger: Ledger, run: Run, key: int)
    requires ValidRun(limits, run) && key in ledger
  {
    Pending(ledger[key]) && Covers(Fetched(limits, run).fetched, DayOf(key))
  }

  /** Which keys the resolve write holds. */
  lemma ResolvedKeys(limits: Limits, ledger: Ledger, run: Run, key: int)
    requires ValidRun(limits, run) && ReadFrom(run.req.openGaps, ledger)
    ensures var p := Fetched(limits, run);
      key in LastByKey(ResolveRows(p.fetched, p.openGaps, run.clock))
      <==> key in ledger && Resolves(limits, ledger, run, key)
  {
    var p := Fetched(limits, run);
    ResolvedKey(p.fetched, p.openGaps, run.clock, key);
    if i :| 0 <= i < |p.openGaps| && p.openGaps[i].start == key && Covered(p.fetched, p.openGaps[i]) {
      assert p.openGaps[i] in p.openGaps;
      CoveredMeans(p.fetched, p.openGaps[i]);
    }
    if key in ledger && Resolves(limits, ledger, run, key) {
      var gap := Gap(key, ledger[key].end);
      CoveredMeans(p.fetched, gap);
      var i :| 0 <= i < |p.openGaps| && p.openGaps[i] == gap;
    }
  }

  /** The row lies open over the day, and the run neither records over it nor closes it. */
  ghost predicate Survives(limits: Limits, ledger: Ledger, run: Run, key: int, day: int)
    requires ValidRun(limits, run)
  {
    OpenAt(ledger, key, day) && key !in RunRows(limits, run) && !Resolves(limits, ledger, run, key)
  }

  /** A row that the run does not record is open after it exactly if it survives. */
  lemma SurvivorsStayOpen(limits: Limits, ledger: Ledger, run: Run, key: int, day: int)
    requires ValidRun(limits, run) && ReadFrom(run.req.openGaps, ledger) && key !in RunRows(limits, run)
    ensures OpenAt(After(limits, ledger, run), key, day) <==> Survives(limits, ledger, run, key, day)
  {
    var p := Fetched(limits, run);
    ResolvedKeys(limits, ledger, run, key);
    ResolvedKey(p.fetched, p.openGaps, run.clock, key);
  }

  /** A closed row stays closed, recorded over or not. */
  lemma ClosedStaysClosed(limits: Limits, ledger: Ledger, run: Run, key: int)
    requires ValidRun(limits, run) && Closed(ledger, key)
    ensures Closed(After(limits, ledger, run), key)
  {
    var p := Fetched(limits, run);
    ResolvedKey(p.fetched, p.openGaps, run.clock, key);
  }

  /** Of the rows that span a day after the run, one that the run recorded has the recorded end. */
  lemma RecordedSpan(limits: Limits, ledger: Ledger, run: Run, key: int, day: int)
    requires ValidRun(limits, run) && key in RunRows(limits, run) && OpenAt(After(limits, ledger, run), key, day)
    ensures Spans(limits, run, key, day) && !Closed(ledger, key)
  {
    if Closed(ledger, key) { ClosedStaysClosed(limits, ledger, run, key); }
  }

  /** A muted day is accounted for after the run exactly if it was fetched before or a row survives. */
  lemma MutedDayIff(limits: Limits, h: History, run: Run, day: int)
    requires Follows(limits, h, run) && Muted(limits, h, run, day)
    ensures Covers(h.fetched + Fetched(limits, run).fetched, day) || HeldOpen(After(limits, h.ledger, run), day)
       <==> Covers(h.fetched, day) || exists key :: Survives(limits, h.ledger, run, key, day)
  {
    var muted :| Spans(limits, run, muted, day) && Closed(h.ledger, muted);
    CoversConcat(h.fetched, Fetched(limits, run).fetched, day);
    SpannedIsNotFetched(limits, run, muted, day);
    if key :| OpenAt(After(limits, h.ledger, run), key, day) {
      if key in RunRows(limits, run) {
        RecordedSpan(limits, h.ledger, run, key, day);
        SpannedOnce(limits, run, key, muted, day);
        assert false;
      } else {
        SurvivorsStayOpen(limits, h.ledger, run, key, day);
      }
    }
    if key :| Survives(limits, h.ledger, run, key, day) {
      SurvivorsStayOpen(limits, h.ledger, run, key, day);
    }
  }

  /**
   What has to hold before the write for a run that completes to leave no silent hole: each day
   it records on a closed key was fetched by an earlier run, or lies in an open row that the run
   neither records over nor closes.
   */
  ghost predicate MutedDaysAreSafe(limits: Limits, h: History, run: Run)
    requires ValidRun(limits, run)
  {
    forall day :: h.origin <= day < run.req.Today() && Muted(limits, h, run, day) ==>
      Covers(h.fetched, day) || exists key :: Survives(limits, h.ledger, run, key, day)
  }

  /** A run leaves no silent hole exactly if it raises or the days it mutes are safe. */
  lemma RunKeepsNoSilentHoleIff(limits: Limits, h: History, run: Run)
    requires Follows(limits, h, run) && RowsInTime(limits, h) && NoSilentHole(h)
    ensures RowsInTime(limits, Extended(limits, h, run))
    ensures NoSilentHole(Extended(limits, h, run)) <==> Raises(run.answers) || MutedDaysAreSafe(limits, h, run)
  {
    StepKeepsRowsInTime(limits, h, run);
    if !Raises(run.answers) {
      forall day | h.origin <= day < run.req.Today()
        ensures Muted(limits, h, run, day) ==>
          (Covers(h.fetched + Fetched(limits, run).fetched, day) || HeldOpen(After(limits, h.ledger, run), day)
           <==> Covers(h.fetched, day) || exists key :: Survives(limits, h.ledger, run, key, day))
        ensures !Muted(limits, h, run, day) ==>
          Covers(h.fetched + Fetched(limits, run).fetched, day) || HeldOpen(After(limits, h.ledger, run), day)
      {
        if Muted(limits, h, run, day) {
          MutedDayIff(limits, h, run, day);
        } else {
          DayAfterRun(limits, h, run, day);
        }
      }
    }
  }

  // --------------------------------------------- safe whatever is answered

  /** An open row over the day that no plan window but this one can touch. */
  ghost predicate KeptBesides(limits: Limits, ledger: Ledger, req: Request, w: Window, key: int, day: int)
    requires ValidLimits(limits)
  {
    var plan := Planned(limits, req);
    && OpenAt(ledger, key, day)
    && (plan.gap.Some? ==> key != plan.gap.value.start)
    && forall v :: v in plan.windows && v != w ==> !InWindow(v, DayOf(key))
  }

  /** A day of a window that would be recorded on a closed key, if it failed. */
  ghost predicate AtRisk(limits: Limits, h: History, req: Request, w: Window, day: int)
    requires ValidLimits(limits)
  {
    w in Planned(limits, req).windows && Closed(h.ledger, Midnight(w.start)) && InWindow(w, day) && h.origin <= day
  }

  /** A day of a retention row that goes to a closed key. */
  ghost predicate ExpiresMuted(limits: Limits, h: History, req: Request, day: int)
    requires ValidLimits(limits)
  {
    var gap := Planned(limits, req).gap;
    gap.Some? && Closed(h.ledger, gap.value.start) && h.origin <= day && InGap(gap.value, day)
  }

  /** The plan leaves no hole, whatever its requests return: a condition on the ledger and the plan alone. */
  ghost predicate SafeRequest(limits: Limits, h: History, req: Request)
    requires ValidLimits(limits)
  {
    && (forall w, day :: AtRisk(limits, h, req, w, day) ==>
          Covers(h.fetched, day) || exists key :: KeptBesides(limits, h.ledger, req, w, key, day))
    && (forall day :: ExpiresMuted(limits, h, req, day) ==> Covers(h.fetched, day) || HeldOpen(h.ledger, day))
  }

  /** A row kept besides a failed window survives the run. */
  lemma KeptSurvives(limits: Limits, h: History, run: Run, w: Window, key: int, day: int)
    requires Follows(limits, h, run) && w in Fetched(limits, run).failed && Closed(h.ledger, Midnight(w.start))
    requires KeptBesides(limits, h.ledger, run.req, w, key, day)
    ensures Survives(limits, h.ledger, run, key, day)
  {
    var p := Fetched(limits, run);
    forall v | v in p.failed ensures key != Midnight(v.start) {
      PayloadPartition(limits, run, v);
      FailedStart(limits, run, v);
    }
    RecordedOther(p, run.clock, key);
    if i :| 0 <= i < |p.fetched| && InWindow(p.fetched[i], DayOf(key)) {
      PayloadPartition(limits, run, p.fetched[i]);
      PayloadPartition(limits, run, w);
    }
  }

  /** A row that is open before the edge survives, unless the run records its key. */
  lemma ExpiredSurvives(limits: Limits, h: History, run: Run, key: int, day: int)
    requires Follows(limits, h, run) && OpenAt(h.ledger, key, day)
    requires BeforeEdge(Earliest(limits, run.req.Today()), day)
    requires Planned(limits, run.req).gap.Some? ==> key != Planned(limits, run.req).gap.value.start
    ensures Survives(limits, h.ledger, run, key, day)
  {
    var p := Fetched(limits, run);
    forall v | v in p.failed ensures key != Midnight(v.start) {
      FailedStart(limits, run, v);
    }
    RecordedOther(p, run.clock, key);
    if i :| 0 <= i < |p.fetched| && InWindow(p.fetched[i], DayOf(key)) {
      PayloadPartition(limits, run, p.fetched[i]);
      PlannedDayInRetention(limits, run, p.fetched[i], DayOf(key));
    }
  }

  /** A safe request has safe muted days, whatever its requests returned. */
  lemma SafeRequestIsSafe(limits: Limits, h: History, run: Run)
    requires Follows(limits, h, run) && SafeRequest(limits, h, run.req)
    ensures MutedDaysAreSafe(limits, h, run)
  {
    forall day | h.origin <= day < run.req.Today() && Muted(limits, h, run, day)
      ensures Covers(h.fetched, day) || exists key :: Survives(limits, h.ledger, run, key, day)
    {
      var muted :| Spans(limits, run, muted, day) && Closed(h.ledger, muted);
      var w := SpanSource(limits, run, muted, day);
      if w.Some? {
        PayloadPartition(limits, run, w.value);
        assert AtRisk(limits, h, run.req, w.value, day);
        if key :| KeptBesides(limits, h.ledger, run.req, w.value, key, day) {
          KeptSurvives(limits, h, run, w.value, key, day);
        }
      } else {
        MutedByRetention(limits, h, run, muted, day);
      }
    }
  }

  lemma MutedByRetention(limits: Limits, h: History, run: Run, muted: int, day: int)
    requires Follows(limits, h, run) && SafeRequest(limits, h, run.req)
    requires Spans(limits, run, muted, day) && Closed(h.ledger, muted) && h.origin <= day
    requires var gap := Planned(limits, run.req).gap; gap.Some? && muted == gap.value.start
    requires BeforeEdge(Earliest(limits, run.req.Today()), day)
    ensures Covers(h.fetched, day) || exists key :: Survives(limits, h.ledger, run, key, day)
  {
    DayOfMidnight(WantedStart(limits, run.req));
    assert ExpiresMuted(limits, h, run.req, day);
    if key :| OpenAt(h.ledger, key, day) {
      ExpiredSurvives(limits, h, run, key, day);
    }
  }

  /** The answers under which exactly this window fails, without an error; no window, all succeed. */
  function OnlyFails(requests: seq<Option<Window>>, w: Option<Window>): seq<Answer> {
    seq(|requests|, i requires 0 <= i < |requests| => if w.Some? && requests[i] == w then NoData else Bars)
  }

  lemma OnlyFailsPayload(limits: Limits, run: Run, w: Option<Window>, v: Window)
    requires ValidRun(limits, run) && run.answers == OnlyFails(Requests(Planned(limits, run.req)), w)
    ensures v in Fetched(limits, run).failed <==> v in Planned(limits, run.req).windows && w == Some(v)
    ensures !Raises(run.answers)
  {
    var plan := Planned(limits, run.req);
    SortedMembers(Requests(plan), run.answers, false, v);
    if v in plan.windows && w == Some(v) {
      var i :| 0 <= i < |plan.windows| && plan.windows[i] == v;
      assert Requests(plan)[i] == Some(v);
    }
    forall i | 0 <= i < |run.answers| ensures run.answers[i] != Broken {
    }
  }

  /** If only this window fails, a row that survives over its day is kept besides it. */
  lemma SurvivorIsKept(limits: Limits, h: History, run: Run, w: Window, key: int, day: int)
    requires Follows(limits, h, run) && RowsInTime(limits, h) && AtRisk(limits, h, run.req, w, day)
    requires run.answers == OnlyFails(Requests(Planned(limits, run.req)), Some(w))
    requires Survives(limits, h.ledger, run, key, day)
    ensures KeptBesides(limits, h.ledger, run.req, w, key, day)
  {
    var p, plan := Fetched(limits, run), Planned(limits, run.req);
    PlannedDayInRetention(limits, run, w, day);
    if plan.gap.Some? && key == plan.gap.value.start {
      GapIsRecorded(p, run.clock);
    }
    forall v | v in plan.windows && v != w ensures !InWindow(v, DayOf(key)) {
      PayloadPartition(limits, run, v);
      OnlyFailsPayload(limits, run, Some(w), v);
      if InWindow(v, DayOf(key)) { CoversMember(p.fetched, v, DayOf(key)); }
    }
  }

  lemma GapIsRecorded(payload: Payload, now: int)
    requires payload.gap.Some?
    ensures payload.gap.value.start in LastByKey(RecordRows(payload, now))
  {
    RetentionRowAt(payload, now);
    LastByKeyValue(RecordRows(payload, now), payload.gap.value.start);
  }

  /** If only this window fails and its key is closed, its days are muted. */
  lemma RiskIsMuted(limits: Limits, h: History, run: Run, w: Window, day: int)
    requires Follows(limits, h, run) && AtRisk(limits, h, run.req, w, day)
    requires run.answers == OnlyFails(Requests(Planned(limits, run.req)), Some(w))
    ensures Muted(limits, h, run, day) && day < run.req.Today() && !Raises(run.answers)
  {
    OnlyFailsPayload(limits, run, Some(w), w);
    FailedStartsDiffer(limits, run);
    RecordedFailure(Fetched(limits, run), run.clock, w);
    FailedStart(limits, run, w);
    assert Spans(limits, run, Midnight(w.start), day);
  }

  /** If all requests succeed, the days of a retention row on a closed key are muted. */
  lemma ExpiryIsMuted(limits: Limits, h: History, run: Run, day: int)
    requires Follows(limits, h, run) && ExpiresMuted(limits, h, run.req, day)
    requires run.answers == OnlyFails(Requests(Planned(limits, run.req)), None)
    ensures Muted(limits, h, run, day) && !Raises(run.answers)
  {
    var p, gap := Fetched(limits, run), Planned(limits, run.req).gap.value;
    forall v ensures v !in p.failed && !Raises(run.answers) {
      OnlyFailsPayload(limits, run, None, v);
    }
    RecordedOther(p, run.clock, gap.start);
    assert Spans(limits, run, gap.start, day);
  }

  /** The run with other answers. */
  function Answered(limits: Limits, run: Run, w: Option<Window>): Run
    requires ValidLimits(limits)
  {
    run.(answers := OnlyFails(Requests(Planned(limits, run.req)), w))
  }

  ghost predicate AlwaysSafe(limits: Limits, h: History, run: Run)
    requires ValidRun(limits, run)
  {
    forall answers: seq<Answer> | |answers| == |run.answers| ::
      NoSilentHole(Extended(limits, h, run.(answers := answers)))
  }

  /**
   A request leaves no silent hole under any answers if and only if it is safe: something to be
   read off the ledger and the plan before any request is made.
   */
  lemma RequestIsSafeIff(limits: Limits, h: History, run: Run)
    requires Follows(limits, h, run) && RowsInTime(limits, h) && NoSilentHole(h)
    ensures AlwaysSafe(limits, h, run) <==> SafeRequest(limits, h, run.req)
  {
    if SafeRequest(limits, h, run.req) {
      forall answers: seq<Answer> | |answers| == |run.answers|
        ensures NoSilentHole(Extended(limits, h, run.(answers := answers)))
      {
        SafeRequestIsSafe(limits, h, run.(answers := answers));
        RunKeepsNoSilentHoleIff(limits, h, run.(answers := answers));
      }
    }
    if AlwaysSafe(limits, h, run) {
      forall w, day | AtRisk(limits, h, run.req, w, day)
        ensures Covers(h.fetched, day) || exists key :: KeptBesides(limits, h.ledger, run.req, w, key, day)
      {
        RiskIsCovered(limits, h, run, w, day);
      }
      forall day | ExpiresMuted(limits, h, run.req, day) ensures Covers(h.fetched, day) || HeldOpen(h.ledger, day) {
        ExpiryIsCovered(limits, h, run, day);
      }
    }
  }

  lemma RiskIsCovered(limits: Limits, h: History, run: Run, w: Window, day: int)
    requires Follows(limits, h, run) && RowsInTime(limits, h) && NoSilentHole(h)
    requires AlwaysSafe(limits, h, run) && AtRisk(limits, h, run.req, w, day)
    ensures Covers(h.fetched, day) || exists key :: KeptBesides(limits, h.ledger, run.req, w, key, day)
  {
    var bad := Answered(limits, run, Some(w));
    RiskIsMuted(limits, h, bad, w, day);
    RunKeepsNoSilentHoleIff(limits, h, bad);
    assert bad == run.(answers := bad.answers);
    if !Covers(h.fetched, day) {
      var key :| Survives(limits, h.ledger, bad, key, day);
      SurvivorIsKept(limits, h, bad, w, key, day);
    }
  }

  lemma ExpiryIsCovered(limits: Limits, h: History, run: Run, day: int)
    requires Follows(limits, h, run) && RowsInTime(limits, h) && NoSilentHole(h)
    requires AlwaysSafe(limits, h, run) && ExpiresMuted(limits, h, run.req, day)
    ensures Covers(h.fetched, day) || HeldOpen(h.ledger, day)
  {
    var good := Answered(limits, run, None);
    ExpiryIsMuted(limits, h, good, day);
    RunKeepsNoSilentHoleIff(limits, h, good);
    assert good == run.(answers := good.answers);
    if !Covers(h.fetched, day) {
      var key :| Survives(limits, h.ledger, good, key, day);
    }
  }

  /** Automatic runs one after the other; a completed one reuses no closed key. */
  ghost predicate AutomaticRuns(limits: Limits, h: History, runs: seq<Run>)
    decreases |runs|
  {
    runs == [] ||
    (&& Follows(limits, h, runs[0])
     && (Raises(runs[0].answers) || NoKeyReused(limits, h, runs[0]))
     && AutomaticRuns(limits, Extended(limits, h, runs[0]), runs[1..]))
  }

  ghost function ExtendedBy(limits: Limits, h: History, runs: seq<Run>): History
    requires AutomaticRuns(limits, h, runs)
    decreases |runs|
  {
    if runs == [] then h else ExtendedBy(limits, Extended(limits, h, runs[0]), runs[1..])
  }

  /** Over any number of runs, whatever each request returned, no day is lost in silence. */
  lemma {:induction false} RunsLeaveNoSilentHole(limits: Limits, h: History, runs: seq<Run>)
    requires AutomaticRuns(limits, h, runs)
    requires RowsInTime(limits, h) && NoSilentHole(h)
    ensures NoSilentHole(ExtendedBy(limits, h, runs))
    decreases |runs|
  {
    if runs != [] {
      RunKeepsNoSilentHoleIff(limits, h, runs[0]);
      RunsLeaveNoSilentHole(limits, Extended(limits, h, runs[0]), runs[1..]);
    }
  }

  function FirstPlannedDay(limits: Limits, req: Request): int {
    if req.watermark.Some? then WantedStart(limits, req)
    else if limits.depth.Some? then req.Today() - limits.depth.value
    else req.Today()
  }

  /** A symbol with no ledger yet, counted from the first day its first run plans. */
  ghost function Fresh(limits: Limits, runs: seq<Run>): History
    requires runs != []
  {
    var day := FirstPlannedDay(limits, runs[0].req);
    History(map[], [], day, day)
  }

  /** Every day from the first planned one to the latest completed run's today is accounted for. */
  lemma NoDayIsLost(limits: Limits, runs: seq<Run>, day: int)
    requires runs != [] && AutomaticRuns(limits, Fresh(limits, runs), runs)
    requires var last := ExtendedBy(limits, Fresh(limits, runs), runs); last.origin <= day < last.horizon
    ensures var last := ExtendedBy(limits, Fresh(limits, runs), runs);
      Covers(last.fetched, day) || exists key :: OpenAt(last.ledger, key, day)
  {
    RunsLeaveNoSilentHole(limits, Fresh(limits, runs), runs);
  }

  // -------------------------------------------- where the code loses days

  /** A plan whose wanted days fit one request is that request. */
  lemma OneWindow(limits: Limits, req: Request, w: Window)
    requires ValidLimits(limits) && !req.Manual()
    requires w.start < w.end && (limits.perRequest.Some? ==> w.end - w.start <= limits.perRequest.value)
    requires forall day :: Wants(limits, req, day) <==> InWindow(w, day)
    ensures Planned(limits, req).windows == [w]
  {
    var ranges := AutomaticRanges(limits, req);
    AutomaticWindows(limits, req);
    MergeIsNormalForm(ranges);
    forall day ensures Covers(Merged(ranges), day) <==> Covers([w], day) {
      assert Covers(Merged(ranges), day) <==> Covers(ranges, day);
      RangesDays(limits, req, day);
      assert Covers([w], day) <==> InWindow([w][0], day);
    }
    NormalFormIsUnique(Merged(ranges), [w]);
    assert SliceAll([w][..0], limits.perRequest) == [];
    assert Sliced(w.end, w.end, limits.perRequest) == [];
  }

  /** A run on day `today` of a 1m symbol whose newest bar is of day 100, two days of overlap. */
  function Day100Run(today: int, clock: int, gaps: seq<Gap>, answer: Answer): Run {
    Run(Request(Some(Midnight(100)), Midnight(today), None, None, 2, gaps), clock, [answer])
  }

  lemma Day100Plan(today: int, clock: int, gaps: seq<Gap>, answer: Answer)
    requires 103 <= today <= 105
    requires gaps == [] || gaps == [Gap(Midnight(98), Midnight(103))]
    ensures var limits := Limits(Some(8), Some(29));
      var run := Day100Run(today, clock, gaps, answer);
      && ValidRun(limits, run)
      && Fetched(limits, run) == if answer == Bars
           then Payload(None, [], [Window(98, today)], gaps)
           else Payload(None, [Window(98, today)], [], gaps)
  {
    var limits, run := Limits(Some(8), Some(29)), Day100Run(today, clock, gaps, answer);
    DayOfMidnight(100);
    DayOfMidnight(today);
    DayOfMidnight(98);
    DayOfMidnight(103);
    assert WantedStart(limits, run.req) == 98;
    OneWindow(limits, run.req, Window(98, today));
    var requests := Requests(Planned(limits, run.req));
    assert requests == [Some(Window(98, today))];
    assert Sorted(requests[..0], run.answers[..0], true) == [] && Sorted(requests[..0], run.answers[..0], false) == [];
  }

  /** A first miss, its successful retry, and a later miss of a window with the same start. */
  const MISS := Day100Run(103, 1, [], NoData)
  const RETRY := Day100Run(103, 2, [Gap(Midnight(98), Midnight(103))], Bars)
  const SECOND_MISS := Day100Run(105, 3, [], NoData)

  const ONE_MINUTE := Limits(Some(8), Some(29))

  /** The histories between the three runs. */
  const AFTER_MISS :=
    History(map[Midnight(98) := GapRow(Midnight(103), 1, FetchFailed, None)], [], 98, 103)
  const AFTER_RETRY :=
    History(map[Midnight(98) := GapRow(Midnight(103), 1, FetchFailed, Some(2))], [Window(98, 103)], 98, 103)
  const AFTER_SECOND_MISS :=
    History(map[Midnight(98) := GapRow(Midnight(105), 3, FetchFailed, Some(2))], [Window(98, 103)], 98, 105)

  lemma MissWrites(today: int, clock: int)
    requires 103 <= today <= 105
    ensures var run := Day100Run(today, clock, [], NoData);
      && ValidRun(ONE_MINUTE, run)
      && RunRows(ONE_MINUTE, run) == map[Midnight(98) := GapRow(Midnight(today), clock, FetchFailed, None)]
      && forall ledger: Ledger :: After(ONE_MINUTE, ledger, run) ==
           Upserted(ledger, map[Midnight(98) := GapRow(Midnight(today), clock, FetchFailed, None)], RECORD_COLUMNS)
  {
    var run := Day100Run(today, clock, [], NoData);
    var keyed := FailedRow(Window(98, today), clock);
    Day100Plan(today, clock, [], NoData);
    assert RecordRows(Fetched(ONE_MINUTE, run), clock) == [keyed];
    assert LastByKey([keyed][..0]) == map[];
    assert ResolveRows([], [], clock) == [] && LastByKey([]) == map[];
  }

  lemma RetryWrites()
    ensures ValidRun(ONE_MINUTE, RETRY) && RunRows(ONE_MINUTE, RETRY) == map[]
    ensures After(ONE_MINUTE, AFTER_MISS.ledger, RETRY) == AFTER_RETRY.ledger
    ensures Fetched(ONE_MINUTE, RETRY).fetched == [Window(98, 103)]
  {
    var gap := Gap(Midnight(98), Midnight(103));
    Day100Plan(103, 2, [gap], Bars);
    assert RecordRows(Fetched(ONE_MINUTE, RETRY), 2) == [] && LastByKey([]) == map[];
    RetryResolves(gap);
    RetryCloses();
  }

  lemma RetryResolves(gap: Gap)
    requires gap == Gap(Midnight(98), Midnight(103))
    ensures LastByKey(ResolveRows([Window(98, 103)], [gap], 2))
        == map[gap.start := GapRow(gap.end, 2, FetchFailed, Some(2))]
  {
    var keyed := Keyed(gap.start, GapRow(gap.end, 2, FetchFailed, Some(2)));
    var fetched := [Window(98, 103)];
    assert Midnight(fetched[0].start) <= gap.start < Midnight(fetched[0].end);
    assert ResolveRows(fetched, [gap][..0], 2) == [];
    assert ResolveRows(fetched, [gap], 2) == [keyed];
    assert LastByKey([keyed][..0]) == map[];
  }

  lemma RetryCloses()
    ensures Upserted(Upserted(AFTER_MISS.ledger, map[], RECORD_COLUMNS),
                     map[Midnight(98) := GapRow(Midnight(103), 2, FetchFailed, Some(2))], RESOLVE_COLUMNS)
         == AFTER_RETRY.ledger
  {
  }

  lemma MissStep()
    ensures Fresh(ONE_MINUTE, [MISS]) == History(map[], [], 98, 98)
    ensures ValidRun(ONE_MINUTE, MISS)
    ensures Follows(ONE_MINUTE, History(map[], [], 98, 98), MISS)
    ensures NoKeyReused(ONE_MINUTE, History(map[], [], 98, 98), MISS)
    ensures Extended(ONE_MINUTE, History(map[], [], 98, 98), MISS) == AFTER_MISS
  {
    var before := History(map[], [], 98, 98);
    MissExtends(103, 1, before);
    Day100Follows(103, 1, [], NoData, before);
    assert Upserted(map[], map[Midnight(98) := GapRow(Midnight(103), 1, FetchFailed, None)], RECORD_COLUMNS)
      == AFTER_MISS.ledger;
    FreshMiss();
  }

  lemma MissExtends(today: int, clock: int, h: History)
    requires 103 <= today <= 105
    ensures var run := Day100Run(today, clock, [], NoData);
      && ValidRun(ONE_MINUTE, run)
      && Extended(ONE_MINUTE, h, run) == History(
           Upserted(h.ledger, map[Midnight(98) := GapRow(Midnight(today), clock, FetchFailed, None)], RECORD_COLUMNS),
           h.fetched, h.origin, today)
      && (NoKeyReused(ONE_MINUTE, h, run) <==> !Closed(h.ledger, Midnight(98)))
  {
    MissWrites(today, clock);
    Day100Plan(today, clock, [], NoData);
    DayOfMidnight(today);
  }

  lemma FreshMiss()
    ensures Fresh(ONE_MINUTE, [MISS]) == History(map[], [], 98, 98)
  {
    DayOfMidnight(100);
    DayOfMidnight(103);
  }

  lemma Day100Follows(today: int, clock: int, gaps: seq<Gap>, answer: Answer, h: History)
    requires ValidRun(ONE_MINUTE, Day100Run(today, clock, gaps, answer))
    requires 98 <= h.horizon <= today && ReadFrom(gaps, h.ledger)
    requires 103 <= today <= 105
    ensures Follows(ONE_MINUTE, h, Day100Run(today, clock, gaps, answer))
  {
    DayOfMidnight(100);
    DayOfMidnight(today);
    assert WantedStart(ONE_MINUTE, Day100Run(today, clock, gaps, answer).req) == 98;
  }

  lemma RetryStep()
    ensures ValidRun(ONE_MINUTE, RETRY)
    ensures Follows(ONE_MINUTE, AFTER_MISS, RETRY)
    ensures NoKeyReused(ONE_MINUTE, AFTER_MISS, RETRY)
    ensures Extended(ONE_MINUTE, AFTER_MISS, RETRY) == AFTER_RETRY
  {
    RetryWrites();
    Day100Follows(103, 2, [Gap(Midnight(98), Midnight(103))], Bars, AFTER_MISS);
    DayOfMidnight(103);
  }

  lemma SecondMissStep()
    ensures ValidRun(ONE_MINUTE, SECOND_MISS)
    ensures Follows(ONE_MINUTE, AFTER_RETRY, SECOND_MISS)
    ensures !NoKeyReused(ONE_MINUTE, AFTER_RETRY, SECOND_MISS)
    ensures Extended(ONE_MINUTE, AFTER_RETRY, SECOND_MISS) == AFTER_SECOND_MISS
  {
    MissExtends(105, 3, AFTER_RETRY);
    Day100Follows(105, 3, [], NoData, AFTER_RETRY);
    SecondMissStaysClosed();
  }

  lemma SecondMissStaysClosed()
    ensures Closed(AFTER_RETRY.ledger, Midnight(98))
    ensures Upserted(AFTER_RETRY.ledger, map[Midnight(98) := GapRow(Midnight(105), 3, FetchFailed, None)],
        RECORD_COLUMNS)
         == AFTER_SECOND_MISS.ledger
  {
  }

  lemma TwoRuns(limits: Limits, h: History, first: Run, second: Run)
    requires Follows(limits, h, first) && NoKeyReused(limits, h, first)
    requires Follows(limits, Extended(limits, h, first), second)
        && NoKeyReused(limits, Extended(limits, h, first), second)
    ensures AutomaticRuns(limits, h, [first, second])
    ensures ExtendedBy(limits, h, [first, second]) == Extended(limits, Extended(limits, h, first), second)
  {
    var runs := [first, second];
    var middle := Extended(limits, h, first);
    assert runs[1..] == [second] && [second][1..] == [];
    assert ExtendedBy(limits, Extended(limits, middle, second), []) == Extended(limits, middle, second);
    assert ExtendedBy(limits, middle, [second]) == ExtendedBy(limits, Extended(limits, middle, second), []);
    assert ExtendedBy(limits, h, runs) == ExtendedBy(limits, middle, runs[1..]);
  }

  lemma LostDays(day: int)
    requires 103 <= day < 105
    ensures !Covers(AFTER_SECOND_MISS.fetched, day) && !HeldOpen(AFTER_SECOND_MISS.ledger, day)
  {
  }

  /**
   A re-recorded key that is already closed stays closed. After a miss and its retry, a third
   run follows the rules but reuses the key; then no row is open, although days 103 and 104
   were never fetched.
   */
  lemma ReusedKeyLosesDays()
    ensures AutomaticRuns(ONE_MINUTE, Fresh(ONE_MINUTE, [MISS]), [MISS, RETRY])
    ensures var h := ExtendedBy(ONE_MINUTE, Fresh(ONE_MINUTE, [MISS]), [MISS, RETRY]);
      && Follows(ONE_MINUTE, h, SECOND_MISS) && !NoKeyReused(ONE_MINUTE, h, SECOND_MISS)
      && var lost := Extended(ONE_MINUTE, h, SECOND_MISS);
      && lost.origin <= 103 && lost.horizon == 105
      && forall day :: 103 <= day < 105 ==> !Covers(lost.fetched, day) && !HeldOpen(lost.ledger, day)
  {
    MissStep();
    RetryStep();
    SecondMissStep();
    TwoRuns(ONE_MINUTE, Fresh(ONE_MINUTE, [MISS]), MISS, RETRY);
    forall day | 103 <= day < 105
      ensures !Covers(AFTER_SECOND_MISS.fetched, day) && !HeldOpen(AFTER_SECOND_MISS.ledger, day)
    {
      LostDays(day);
    }
  }

  // -------------------------------------------------------------- manual runs

  /** A planned day is fetched, unless its window failed. */
  lemma FetchedUnlessFailed(limits: Limits, run: Run, day: int)
    requires ValidRun(limits, run)
    ensures Covers(Fetched(limits, run).fetched, day) <==>
            Covers(Planned(limits, run.req).windows, day) && !Covers(Fetched(limits, run).failed, day)
  {
    var p, windows := Fetched(limits, run), Planned(limits, run.req).windows;
    if i :| 0 <= i < |p.fetched| && InWindow(p.fetched[i], day) {
      PayloadPartition(limits, run, p.fetched[i]);
      CoversMember(windows, p.fetched[i], day);
      if j :| 0 <= j < |p.failed| && InWindow(p.failed[j], day) {
        PayloadPartition(limits, run, p.failed[j]);
        PlanAscending(limits, run.req);
        SameWindow(windows, p.fetched[i], p.failed[j], day);
      }
    }
    if i :| 0 <= i < |windows| && InWindow(windows[i], day) {
      PayloadPartition(limits, run, windows[i]);
      if windows[i] in p.fetched {
        CoversMember(p.fetched, windows[i], day);
      } else {
        CoversMember(p.failed, windows[i], day);
      }
    }
  }

  /** A manual run fetches the days of its range whose windows did not fail, open gaps or not. */
  lemma ManualDays(limits: Limits, run: Run, day: int)
    requires ValidRun(limits, run) && run.req.Manual()
    ensures Covers(Fetched(limits, run).fetched, day) <==>
            run.req.ManualStart() <= day < run.req.ManualEnd() && !Covers(Fetched(limits, run).failed, day)
  {
    SlicedShape(run.req.ManualStart(), run.req.ManualEnd(), limits.perRequest);
    FetchedUnlessFailed(limits, run, day);
  }

  /** A run, automatic or manual, closes an open gap exactly if it fetched the gap's first day. */
  lemma GapIsClosedIff(limits: Limits, ledger: Ledger, run: Run, gap: Gap)
    requires ValidRun(limits, run) && gap in run.req.openGaps && ReadFrom(run.req.openGaps, ledger)
    ensures Closed(After(limits, ledger, run), gap.start) <==> Covers(Fetched(limits, run).fetched, DayOf(gap.start))
  {
    var p := Fetched(limits, run);
    ResolvedKeys(limits, ledger, run, gap.start);
    ResolvedKey(p.fetched, p.openGaps, run.clock, gap.start);
  }

  /** Where a day of a failed window is after the run: in an open row, unless the key was closed before. */
  ghost predicate FailureIsRecorded(limits: Limits, ledger: Ledger, run: Run, w: Window, day: int)
    requires ValidRun(limits, run)
  {
    OpenAt(After(limits, ledger, run), Midnight(w.start), day) <==> !Closed(ledger, Midnight(w.start))
  }

  /**
   Closing looks at the gap's start only. If a manual run closes a gap, a day of the gap is fetched
   exactly if it lies before the end of the range and in no failed window; a day in a failed window
   is in that window's row, which is open unless its key was closed before. So the whole gap is
   fetched exactly if it ends in the range and no failed window meets it.
   */
  lemma ManualResolutionIff(limits: Limits, ledger: Ledger, run: Run, gap: Gap)
    requires ValidRun(limits, run) && run.req.Manual()
    requires gap in run.req.openGaps && ReadFrom(run.req.openGaps, ledger)
    ensures var p := Fetched(limits, run);
      && (Closed(After(limits, ledger, run), gap.start) <==>
            run.req.ManualStart() <= DayOf(gap.start) < run.req.ManualEnd() && !Covers(p.failed, DayOf(gap.start)))
      && (Closed(After(limits, ledger, run), gap.start) ==>
            && (forall day :: InGap(gap, day) ==>
                  (Covers(p.fetched, day) <==> day < run.req.ManualEnd() && !Covers(p.failed, day)))
            && ((forall day :: InGap(gap, day) ==> Covers(p.fetched, day)) <==>
                  DayOf(gap.end) <= run.req.ManualEnd() && forall day :: InGap(gap, day) ==> !Covers(p.failed, day)))
      && (forall day, w :: w in p.failed && InWindow(w, day) ==> FailureIsRecorded(limits, ledger, run, w, day))
  {
    var p := Fetched(limits, run);
    GapIsClosedIff(limits, ledger, run, gap);
    ManualDays(limits, run, DayOf(gap.start));
    if Closed(After(limits, ledger, run), gap.start) {
      forall day | InGap(gap, day)
        ensures Covers(p.fetched, day) <==> day < run.req.ManualEnd() && !Covers(p.failed, day)
      {
        ManualDays(limits, run, day);
      }
      if DayOf(gap.end) > run.req.ManualEnd() {
        assert InGap(gap, run.req.ManualEnd());
      }
    }
    forall day, w | w in p.failed && InWindow(w, day) ensures FailureIsRecorded(limits, ledger, run, w, day) {
      FailedRowAfter(limits, ledger, run, w);
      DayOfMidnight(w.start);
      DayOfMidnight(w.end);
    }
  }

  /** A weekly symbol with a gap over days 10 to 13: a manual run of day 10 alone closes it. */
  lemma ManualRunClosesTooMuch(watermark: Option<int>, now: int, clock: int)
    ensures var gap := Gap(Midnight(10), Midnight(13));
      var run := Run(Request(watermark, now, Some(10), Some(11), 2, [gap]), clock, [Bars]);
      var ledger := map[gap.start := GapRow(gap.end, clock, FetchFailed, None)];
      && ValidRun(Limits(None, None), run) && ReadFrom([gap], ledger)
      && Closed(After(Limits(None, None), ledger, run), gap.start)
      && !Covers(Fetched(Limits(None, None), run).fetched, 11) && !Covers(Fetched(Limits(None, None), run).fetched, 12)
  {
    var limits, gap := Limits(None, None), Gap(Midnight(10), Midnight(13));
    var run := Run(Request(watermark, now, Some(10), Some(11), 2, [gap]), clock, [Bars]);
    DayOfMidnight(10);
    DayOfMidnight(13);
    assert Planned(limits, run.req).windows == [Window(10, 11)];
    var ledger := map[gap.start := GapRow(gap.end, clock, FetchFailed, None)];
    assert ValidRun(limits, run);
    assert ReadFrom([gap], ledger);
    OneAnswer(limits, run);
    ManualResolutionIff(limits, ledger, run, gap);
  }

  /** A single request that returned bars did not fail. */
  lemma OneAnswer(limits: Limits, run: Run)
    requires ValidRun(limits, run) && run.answers == [Bars]
    ensures Fetched(limits, run).failed == []
  {
    assert Sorted(Requests(Planned(limits, run.req))[..0], run.answers[..0], false) == [];
  }
}

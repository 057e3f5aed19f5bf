/**
 The window planner of src/yfin/datasets/bars.py.

 A day is an integer, a timestamp an integer number of seconds, both counted in UTC.
 A window is a half-open range of days.
 */
module BarWindows {
  import opened Wrappers

  datatype Window = Window(start: int, end: int)

  const SECONDS_PER_DAY := 86400

  /** `_as_date` on a timestamp: `/` rounds down, also before the epoch. */
  function DayOf(timestamp: int): (day: int)
    ensures 86400 * day <= timestamp < 86400 * (day + 1)
  {
    timestamp / SECONDS_PER_DAY
  }

  /** `datetime.combine(day, datetime.min.time())`. */
  function Midnight(day: int): (timestamp: int)
    ensures DayOf(timestamp) == day && DayOf(timestamp - 1) == day - 1
  {
    day * SECONDS_PER_DAY
  }

  /** (days per request, days of retention); `None` is unbounded. */
  datatype Limits = Limits(perRequest: Option<int>, depth: Option<int>)

  ghost predicate ValidLimits(limits: Limits) {
    && (limits.perRequest.Some? ==> limits.perRequest.value > 0)
    && (limits.depth.Some? ==> limits.depth.value >= 0)
  }

  /** The table `BAR_LIMITS`; `None` for an interval that is not in it. */
  function BarLimits(interval: string): (r: Option<Limits>)
    ensures r.Some? ==> ValidLimits(r.value)
    ensures r.Some? <==> interval in ["1m", "5m", "15m", "60m", "1wk", "1mo"]
  {
    if interval == "1m" then Some(Limits(Some(8), Some(29)))
    else if interval == "5m" || interval == "15m" then Some(Limits(Some(59), Some(59)))
    else if interval == "60m" then Some(Limits(Some(729), Some(729)))
    else if interval == "1wk" || interval == "1mo" then Some(Limits(None, None))
    else None
  }

  // ---------------------------------------------------------------- day sets

  predicate InWindow(w: Window, day: int) {
    w.start <= day < w.end
  }

  /** The day lies in one of the windows. */
  ghost predicate Covers(windows: seq<Window>, day: int) {
    exists i :: 0 <= i < |windows| && InWindow(windows[i], day)
  }

  ghost predicate SameDays(a: seq<Window>, b: seq<Window>) {
    forall day :: Covers(a, day) <==> Covers(b, day)
  }

  lemma CoversConcat(a: seq<Window>, b: seq<Window>, day: int)
    ensures Covers(a + b, day) <==> Covers(a, day) || Covers(b, day)
  {
    if Covers(a, day) {
      var i :| 0 <= i < |a| && InWindow(a[i], day);
      assert InWindow((a + b)[i], day);
    }
    if Covers(b, day) {
      var i :| 0 <= i < |b| && InWindow(b[i], day);
      assert InWindow((a + b)[|a| + i], day);
    }
  }

  lemma CoversMember(windows: seq<Window>, w: Window, day: int)
    requires w in windows && InWindow(w, day)
    ensures Covers(windows, day)
  {
    var i :| 0 <= i < |windows| && windows[i] == w;
    assert InWindow(windows[i], day);
  }

  /** Non-empty windows in ascending order, none overlapping the next. */
  ghost predicate Ascending(windows: seq<Window>) {
    && (forall i :: 0 <= i < |windows| ==> windows[i].start < windows[i].end)
    && (forall i, j :: 0 <= i < j < |windows| ==> windows[i].end <= windows[j].start)
  }

  /** Ascending, and a missing day between any two neighbours. */
  ghost predicate Normal(windows: seq<Window>) {
    && (forall i :: 0 <= i < |windows| ==> windows[i].start < windows[i].end)
    && (forall i, j :: 0 <= i < j < |windows| ==> windows[i].end < windows[j].start)
  }

  // ------------------------------------------------------------------- _slice

  function Min(a: int, b: int): int {
    if a <= b then a else b
  }

  function Max(a: int, b: int): int {
    if a <= b then b else a
  }

  function Sliced(start: int, end: int, perRequest: Option<int>): seq<Window>
    requires perRequest.Some? ==> perRequest.value > 0
    decreases end - start
  {
    if end <= start then []
    else if perRequest.None? then [Window(start, end)]
    else
      var next := Min(start + perRequest.value, end);
      [Window(start, next)] + Sliced(next, end, perRequest)
  }

  method Slice(start: int, end: int, perRequest: Option<int>) returns (out: seq<Window>)
    requires perRequest.Some? ==> perRequest.value > 0
    ensures out == Sliced(start, end, perRequest)
  {
    if end <= start {
      return [];
    }
    if perRequest.None? {
      return [Window(start, end)];
    }
    out := [];
    var cursor := start;
    while cursor < end
      invariant start <= cursor <= end
      invariant out + Sliced(cursor, end, perRequest) == Sliced(start, end, perRequest)
    {
      var next := Min(cursor + perRequest.value, end);
      assert Sliced(cursor, end, perRequest) == [Window(cursor, next)] + Sliced(next, end, perRequest);
      out := out + [Window(cursor, next)];
      cursor := next;
    }
  }

  /** A slice that is shorter than the request limit ends its range. */
  ghost predicate FullOrLast(w: Window, end: int, perRequest: Option<int>) {
    w.end == end || (perRequest.Some? && w.end == w.start + perRequest.value)
  }

  lemma {:induction false} SlicedShape(start: int, end: int, perRequest: Option<int>)
    requires perRequest.Some? ==> perRequest.value > 0
    ensures Ascending(Sliced(start, end, perRequest))
    ensures forall w :: w in Sliced(start, end, perRequest) ==>
              && start <= w.start && w.end <= end
              && (perRequest.Some? ==> w.end - w.start <= perRequest.value)
              && FullOrLast(w, end, perRequest)
    ensures forall day :: Covers(Sliced(start, end, perRequest), day) <==> start <= day < end
    decreases end - start
  {
    if start < end {
      var next := if perRequest.None? then end else Min(start + perRequest.value, end);
      var first, rest := [Window(start, next)], Sliced(next, end, perRequest);
      assert Sliced(start, end, perRequest) == first + rest;
      SlicedShape(next, end, perRequest);
      forall day ensures Covers(first + rest, day) <==> start <= day < end {
        CoversConcat(first, rest, day);
        assert Covers(first, day) <==> InWindow(first[0], day);
      }
    }
  }

  // ------------------------------------------------------------------- _merge

  /** Python's order on pairs. */
  predicate PairLeq(a: Window, b: Window) {
    a.start < b.start || (a.start == b.start && a.end <= b.end)
  }

  ghost predicate SortedPairs(ranges: seq<Window>) {
    forall i, j :: 0 <= i < j < |ranges| ==> PairLeq(ranges[i], ranges[j])
  }

  function Inserted(w: Window, ranges: seq<Window>): seq<Window> {
    if ranges == [] then [w]
    else if PairLeq(w, ranges[0]) then [w] + ranges
    else [ranges[0]] + Inserted(w, ranges[1..])
  }

  /** `sorted(r for r in ranges if r[1] > r[0])`. */
  function Ordered(ranges: seq<Window>): seq<Window> {
    if ranges == [] then []
    else if ranges[0].end > ranges[0].start then Inserted(ranges[0], Ordered(ranges[1..]))
    else Ordered(ranges[1..])
  }

  lemma {:induction false} InsertedIsThere(w: Window, ranges: seq<Window>)
    ensures multiset(Inserted(w, ranges)) == multiset(ranges) + multiset{w}
  {
    if ranges != [] && !PairLeq(w, ranges[0]) {
      InsertedIsThere(w, ranges[1..]);
      assert ranges == [ranges[0]] + ranges[1..];
    }
  }

  lemma {:induction false} InsertedSorted(w: Window, ranges: seq<Window>)
    requires SortedPairs(ranges)
    ensures SortedPairs(Inserted(w, ranges))
  {
    if ranges != [] && !PairLeq(w, ranges[0]) {
      var rest := Inserted(w, ranges[1..]);
      InsertedSorted(w, ranges[1..]);
      InsertedIsThere(w, ranges[1..]);
      forall j | 0 <= j < |rest| ensures PairLeq(ranges[0], rest[j]) {
        InsertedMember(w, ranges[1..], j);
        if rest[j] != w {
          var k :| 0 <= k < |ranges| - 1 && ranges[1..][k] == rest[j];
          assert PairLeq(ranges[0], ranges[k + 1]);
        }
      }
    }
  }

  lemma InsertedMember(w: Window, ranges: seq<Window>, j: nat)
    requires j < |Inserted(w, ranges)|
    requires multiset(Inserted(w, ranges)) == multiset(ranges) + multiset{w}
    ensures Inserted(w, ranges)[j] == w || Inserted(w, ranges)[j] in ranges
  {
    assert Inserted(w, ranges)[j] in multiset(Inserted(w, ranges));
  }

  lemma {:induction false} OrderedSorted(ranges: seq<Window>)
    ensures SortedPairs(Ordered(ranges))
    ensures forall w :: w in Ordered(ranges) <==> w in ranges && w.start < w.end
  {
    if ranges != [] {
      var rest := Ordered(ranges[1..]);
      OrderedSorted(ranges[1..]);
      if ranges[0].end > ranges[0].start {
        InsertedSorted(ranges[0], rest);
        InsertedIsThere(ranges[0], rest);
        forall w ensures w in Ordered(ranges) <==> w in rest || w == ranges[0] {
          assert w in Ordered(ranges) <==> w in multiset(Ordered(ranges));
          assert w in rest <==> w in multiset(rest);
        }
      }
    }
  }

  /** One turn of the loop: extend the last merged range or open a new one. */
  function Absorb(merged: seq<Window>, w: Window): seq<Window>
    requires merged != []
  {
    var last := merged[|merged| - 1];
    if w.start <= last.end
    then merged[|merged| - 1 := Window(last.start, Max(last.end, w.end))]
    else merged + [w]
  }

  function AbsorbAll(merged: seq<Window>, rest: seq<Window>): seq<Window>
    requires merged != []
    decreases |rest|
  {
    if rest == [] then merged else AbsorbAll(Absorb(merged, rest[0]), rest[1..])
  }

  function Merged(ranges: seq<Window>): seq<Window> {
    var ordered := Ordered(ranges);
    if ordered == [] then [] else AbsorbAll([ordered[0]], ordered[1..])
  }

  method Merge(ranges: seq<Window>) returns (merged: seq<Window>)
    ensures merged == Merged(ranges)
  {
    var ordered := Ordered(ranges);
    if ordered == [] {
      return [];
    }
    merged := [ordered[0]];
    var i := 1;
    while i < |ordered|
      invariant 1 <= i <= |ordered|
      invariant merged != []
      invariant AbsorbAll(merged, ordered[i..]) == Merged(ranges)
    {
      var current := ordered[i];
      var last := merged[|merged| - 1];
      assert ordered[i..][0] == current && ordered[i..][1..] == ordered[i + 1..];
      if current.start <= last.end {
        merged := merged[|merged| - 1 := Window(last.start, Max(last.end, current.end))];
      } else {
        merged := merged + [current];
      }
      i := i + 1;
    }
  }

  lemma AbsorbKeepsDays(merged: seq<Window>, w: Window, day: int)
    requires merged != [] && merged[|merged| - 1].start <= w.start && w.start < w.end
    ensures Covers(Absorb(merged, w), day) <==> Covers(merged, day) || InWindow(w, day)
  {
    var n := |merged| - 1;
    var last := merged[n];
    if w.start <= last.end {
      assert merged == merged[..n] + [last];
      assert Absorb(merged, w) == merged[..n] + [Window(last.start, Max(last.end, w.end))];
      CoversConcat(merged[..n], [last], day);
      CoversConcat(merged[..n], [Window(last.start, Max(last.end, w.end))], day);
      assert Covers([last], day) <==> InWindow([last][0], day);
      assert Covers([Window(last.start, Max(last.end, w.end))], day)
        <==> InWindow([Window(last.start, Max(last.end, w.end))][0], day);
    } else {
      CoversConcat(merged, [w], day);
      assert Covers([w], day) <==> InWindow([w][0], day);
    }
  }

  lemma AbsorbNormal(merged: seq<Window>, w: Window)
    requires merged != [] && Normal(merged) && merged[|merged| - 1].start <= w.start < w.end
    ensures Normal(Absorb(merged, w))
    ensures Absorb(merged, w)[|Absorb(merged, w)| - 1].start <= w.start
  {
    var n, next := |merged| - 1, Absorb(merged, w);
    forall i, j | 0 <= i < j < |next| ensures next[i].end < next[j].start {
      if j <= n { assert merged[i].end < merged[j].start; }
    }
  }

  /** Non-empty ranges in start order, none starting before `from`. */
  ghost predicate Feed(from: int, rest: seq<Window>) {
    && (forall i :: 0 <= i < |rest| ==> from <= rest[i].start < rest[i].end)
    && (forall i, j :: 0 <= i < j < |rest| ==> rest[i].start <= rest[j].start)
  }

  lemma {:induction false} AbsorbAllNormal(merged: seq<Window>, rest: seq<Window>)
    requires merged != [] && Normal(merged) && Feed(merged[|merged| - 1].start, rest)
    ensures Normal(AbsorbAll(merged, rest))
    decreases |rest|
  {
    if rest != [] {
      AbsorbNormal(merged, rest[0]);
      AbsorbAllNormal(Absorb(merged, rest[0]), rest[1..]);
    }
  }

  lemma {:induction false} AbsorbAllKeepsDays(merged: seq<Window>, rest: seq<Window>, day: int)
    requires merged != [] && Normal(merged) && Feed(merged[|merged| - 1].start, rest)
    ensures Covers(AbsorbAll(merged, rest), day) <==> Covers(merged, day) || Covers(rest, day)
    decreases |rest|
  {
    if rest != [] {
      AbsorbNormal(merged, rest[0]);
      AbsorbAllKeepsDays(Absorb(merged, rest[0]), rest[1..], day);
      AbsorbKeepsDays(merged, rest[0], day);
      assert rest == rest[..1] + rest[1..];
      CoversConcat(rest[..1], rest[1..], day);
      assert Covers(rest[..1], day) <==> InWindow(rest[..1][0], day);
    }
  }

  lemma OrderedIsFeed(ordered: seq<Window>)
    requires ordered != [] && SortedPairs(ordered)
    requires forall w :: w in ordered ==> w.start < w.end
    ensures Feed(ordered[0].start, ordered[1..])
  {
    forall i, j | 0 <= i < j < |ordered| ensures ordered[i].start <= ordered[j].start < ordered[j].end {
      assert PairLeq(ordered[i], ordered[j]);
    }
  }

  /** `_merge` keeps the day set and puts it in normal form. */
  lemma MergeIsNormalForm(ranges: seq<Window>)
    ensures Normal(Merged(ranges))
    ensures SameDays(Merged(ranges), ranges)
  {
    var ordered := Ordered(ranges);
    OrderedSorted(ranges);
    if ordered != [] {
      OrderedIsFeed(ordered);
      AbsorbAllNormal([ordered[0]], ordered[1..]);
      assert ordered == [ordered[0]] + ordered[1..];
    }
    forall day ensures Covers(Merged(ranges), day) <==> Covers(ranges, day) {
      MergeKeepsDay(ranges, day);
    }
  }

  lemma MergeKeepsDay(ranges: seq<Window>, day: int)
    ensures Covers(Merged(ranges), day) <==> Covers(ranges, day)
  {
    var ordered := Ordered(ranges);
    OrderedSorted(ranges);
    if ordered != [] {
      OrderedIsFeed(ordered);
      assert ordered == [ordered[0]] + ordered[1..];
      AbsorbAllKeepsDays([ordered[0]], ordered[1..], day);
      CoversConcat([ordered[0]], ordered[1..], day);
    }
    OrderedKeepsDay(ranges, day);
  }

  lemma OrderedKeepsDay(ranges: seq<Window>, day: int)
    ensures Covers(Ordered(ranges), day) <==> Covers(ranges, day)
  {
    var ordered := Ordered(ranges);
    OrderedSorted(ranges);
    if i :| 0 <= i < |ordered| && InWindow(ordered[i], day) {
      CoversMember(ranges, ordered[i], day);
    }
    if i :| 0 <= i < |ranges| && InWindow(ranges[i], day) {
      CoversMember(ordered, ranges[i], day);
    }
  }

  /** A day set has one normal form. */
  lemma {:induction false} NormalFormIsUnique(a: seq<Window>, b: seq<Window>)
    requires Normal(a) && Normal(b) && SameDays(a, b)
    ensures a == b
    decreases |a|
  {
    if a == [] {
      if b != [] {
        assert InWindow(b[0], b[0].start);
        assert Covers(b, b[0].start) && !Covers(a, b[0].start);
      }
    } else if b == [] {
      assert InWindow(a[0], a[0].start);
      assert Covers(a, a[0].start) && !Covers(b, a[0].start);
    } else {
      NormalHead(a, b);
      NormalHead(b, a);
      assert a[0] == b[0];
      forall day ensures Covers(a[1..], day) <==> Covers(b[1..], day) {
        NormalTail(a, day);
        NormalTail(b, day);
        assert Covers(a, day) <==> Covers(b, day);
      }
      NormalFormIsUnique(a[1..], b[1..]);
      assert a == [a[0]] + a[1..] && b == [b[0]] + b[1..];
    }
  }

  lemma NormalTail(a: seq<Window>, day: int)
    requires Normal(a) && a != []
    ensures Covers(a[1..], day) <==> Covers(a, day) && a[0].end <= day
  {
    assert a == [a[0]] + a[1..];
    CoversConcat([a[0]], a[1..], day);
    assert Covers([a[0]], day) <==> InWindow([a[0]][0], day);
    if Covers(a[1..], day) {
      var i :| 0 <= i < |a[1..]| && InWindow(a[1..][i], day);
      assert a[0].end < a[i + 1].start;
    }
  }

  /** The first range of one form starts no earlier and ends no later than the other's. */
  lemma NormalHead(a: seq<Window>, b: seq<Window>)
    requires Normal(a) && Normal(b) && SameDays(a, b) && a != [] && b != []
    ensures b[0].start <= a[0].start
    ensures a[0].start == b[0].start ==> a[0].end <= b[0].end
  {
    assert InWindow(a[0], a[0].start);
    assert Covers(a, a[0].start) <==> Covers(b, a[0].start);
    var i :| 0 <= i < |b| && InWindow(b[i], a[0].start);
    assert b[0].start <= b[i].start;
    NormalEndIsMissing(b, 0);
    assert Covers(a, b[0].end) <==> Covers(b, b[0].end);
    assert !InWindow(a[0], b[0].end);
  }

  lemma NormalEndIsMissing(a: seq<Window>, i: nat)
    requires Normal(a) && i < |a|
    ensures !Covers(a, a[i].end)
  {
    forall j | 0 <= j < |a| ensures !InWindow(a[j], a[i].end) {
      if i < j { assert a[i].end < a[j].start; }
      if j < i { assert a[j].end < a[i].start; }
    }
  }

  /** `_merge` gives the same list exactly when the inputs denote the same days. */
  lemma MergeIsCanonical(a: seq<Window>, b: seq<Window>)
    ensures Merged(a) == Merged(b) <==> SameDays(a, b)
    ensures Merged(Merged(a)) == Merged(a)
  {
    MergeIsNormalForm(a);
    MergeIsNormalForm(b);
    MergeIsNormalForm(Merged(a));
    NormalFormIsUnique(Merged(Merged(a)), Merged(a));
    if SameDays(a, b) {
      NormalFormIsUnique(Merged(a), Merged(b));
    }
    if Merged(a) == Merged(b) {
      forall day ensures Covers(a, day) <==> Covers(b, day) {
        assert Covers(Merged(a), day) <==> Covers(a, day);
        assert Covers(Merged(b), day) <==> Covers(b, day);
      }
    }
  }

  // ------------------------------------------------------------- plan_windows

  /** A `bar_gaps` row as the planner sees it: two timestamps. */
  datatype Gap = Gap(start: int, end: int)

  datatype FetchPlan = FetchPlan(windows: seq<Window>, gap: Option<Gap>)

  datatype PlanError = UnknownInterval

  /** What one call of the planner is told, besides the interval. */
  datatype Request = Request(
    watermark: Option<int>, now: int, start: Option<int>, end: Option<int>,
    overlapDays: int, openGaps: seq<Gap>)
  {
    predicate Manual() {
      start.Some? || end.Some?
    }

    function Today(): (today: int)
      ensures today * 86400 <= now < (today + 1) * 86400
    {
      DayOf(now)
    }

    /** The range of a manual run; the bound that is not given is computed. */
    function ManualStart(): int {
      if start.Some? then start.value else Today() - overlapDays
    }

    function ManualEnd(): int {
      if end.Some? then end.value else Today()
    }
  }

  function Earliest(limits: Limits, today: int): Option<int> {
    if limits.depth.Some? then Some(today - limits.depth.value) else None
  }

  predicate BeforeEdge(earliest: Option<int>, day: int) {
    earliest.Some? && day < earliest.value
  }

  /** The first day of the watermark range, clipped to the retention edge. */
  function WantedStart(limits: Limits, req: Request): int
    requires req.watermark.Some?
  {
    var wanted := DayOf(req.watermark.value) - req.overlapDays;
    var earliest := Earliest(limits, req.Today());
    if BeforeEdge(earliest, wanted) then earliest.value else wanted
  }

  /** The part that can no longer be fetched, when the wanted start is past the edge. */
  function RetentionGap(limits: Limits, req: Request): Option<Gap>
    requires req.watermark.Some?
  {
    var earliest := Earliest(limits, req.Today());
    if BeforeEdge(earliest, DayOf(req.watermark.value) - req.overlapDays)
    then Some(Gap(req.watermark.value, Midnight(earliest.value)))
    else None
  }

  /** The days an open gap asks for: its end day is included, today is not. */
  function GapRange(gap: Gap, today: int): Window {
    Window(DayOf(gap.start), Min(DayOf(gap.end) + 1, today))
  }

  /** The ranges of the gaps that start inside the retention window. */
  function GapRanges(earliest: Option<int>, today: int, gaps: seq<Gap>): seq<Window> {
    if gaps == [] then []
    else
      var n := |gaps| - 1;
      GapRanges(earliest, today, gaps[..n])
      + if BeforeEdge(earliest, DayOf(gaps[n].start)) then [] else [GapRange(gaps[n], today)]
  }

  function SliceAll(ranges: seq<Window>, perRequest: Option<int>): seq<Window>
    requires perRequest.Some? ==> perRequest.value > 0
  {
    if ranges == [] then []
    else
      var n := |ranges| - 1;
      SliceAll(ranges[..n], perRequest) + Sliced(ranges[n].start, ranges[n].end, perRequest)
  }

  function Ranges(limits: Limits, req: Request): seq<Window>
    requires req.watermark.Some?
  {
    [Window(WantedStart(limits, req), req.Today())]
    + GapRanges(Earliest(limits, req.Today()), req.Today(), req.openGaps)
  }

  /** The ranges of an automatic run; a first fill has one, or none when it is unbounded. */
  function AutomaticRanges(limits: Limits, req: Request): seq<Window> {
    if req.watermark.Some? then Ranges(limits, req)
    else if limits.depth.Some? then [Window(req.Today() - limits.depth.value, req.Today())]
    else []
  }

  function Planned(limits: Limits, req: Request): FetchPlan
    requires limits.perRequest.Some? ==> limits.perRequest.value > 0
  {
    var today := req.Today();
    var earliest := Earliest(limits, today);
    if req.Manual() then
      FetchPlan(Sliced(req.ManualStart(), req.ManualEnd(), limits.perRequest), None)
    else if req.watermark.None? then
      FetchPlan(if earliest.None? then [] else Sliced(earliest.value, today, limits.perRequest), None)
    else
      FetchPlan(SliceAll(Merged(Ranges(limits, req)), limits.perRequest), RetentionGap(limits, req))
  }

  method PlanWindows(interval: string, req: Request) returns (r: Result<FetchPlan, PlanError>)
    ensures BarLimits(interval).None? ==> r == Raised(UnknownInterval)
    ensures BarLimits(interval).Some? ==> r == Ok(Planned(BarLimits(interval).value, req))
  {
    var known := BarLimits(interval);
    if known.None? {
      return Raised(UnknownInterval);
    }
    var plan;
    if req.Manual() {
      plan := PlanManual(known.value, req);
    } else if req.watermark.None? {
      plan := PlanFirstFill(known.value, req);
    } else {
      plan := PlanIncremental(known.value, req);
    }
    return Ok(plan);
  }

  /** The branch for an explicit range. */
  method PlanManual(limits: Limits, req: Request) returns (plan: FetchPlan)
    requires ValidLimits(limits) && req.Manual()
    ensures plan == Planned(limits, req)
  {
    var windowStart := if req.start.Some? then req.start.value else req.Today() - req.overlapDays;
    var windowEnd := if req.end.Some? then req.end.value else req.Today();
    var windows := Slice(windowStart, windowEnd, limits.perRequest);
    return FetchPlan(windows, None);
  }

  /** The branch without a watermark. */
  method PlanFirstFill(limits: Limits, req: Request) returns (plan: FetchPlan)
    requires ValidLimits(limits) && !req.Manual() && req.watermark.None?
    ensures plan == Planned(limits, req)
  {
    var earliest := Earliest(limits, req.Today());
    if earliest.None? {
      return FetchPlan([], None);
    }
    var windows := Slice(earliest.value, req.Today(), limits.perRequest);
    return FetchPlan(windows, None);
  }

  /** The branch with a watermark. */
  method PlanIncremental(limits: Limits, req: Request) returns (plan: FetchPlan)
    requires ValidLimits(limits) && !req.Manual() && req.watermark.Some?
    ensures plan == Planned(limits, req)
  {
    var today := req.Today();
    var earliest := Earliest(limits, today);
    var wantedStart := DayOf(req.watermark.value) - req.overlapDays;
    var gap := None;
    if earliest.Some? && wantedStart < earliest.value {
      gap := Some(Gap(req.watermark.value, Midnight(earliest.value)));
      wantedStart := earliest.value;
    }
    var gapRanges := OpenRanges(earliest, today, req.openGaps);
    var merged := Merge([Window(wantedStart, today)] + gapRanges);
    var windows := SliceEach(merged, limits.perRequest);
    return FetchPlan(windows, gap);
  }

  /** The loop over the open gaps. */
  method OpenRanges(earliest: Option<int>, today: int, gaps: seq<Gap>) returns (ranges: seq<Window>)
    ensures ranges == GapRanges(earliest, today, gaps)
  {
    ranges := [];
    var i := 0;
    while i < |gaps|
      invariant 0 <= i <= |gaps|
      invariant ranges == GapRanges(earliest, today, gaps[..i])
    {
      var g := gaps[i];
      assert gaps[..i + 1][..i] == gaps[..i];
      i := i + 1;
      if earliest.Some? && DayOf(g.start) < earliest.value {
        continue;
      }
      ranges := ranges + [Window(DayOf(g.start), Min(DayOf(g.end) + 1, today))];
    }
    assert gaps[..i] == gaps;
  }

  /** The last loop of `plan_windows`. */
  method SliceEach(ranges: seq<Window>, perRequest: Option<int>) returns (windows: seq<Window>)
    requires perRequest.Some? ==> perRequest.value > 0
    ensures windows == SliceAll(ranges, perRequest)
  {
    windows := [];
    var i := 0;
    while i < |ranges|
      invariant 0 <= i <= |ranges|
      invariant windows == SliceAll(ranges[..i], perRequest)
    {
      assert ranges[..i + 1][..i] == ranges[..i];
      var slices := Slice(ranges[i].start, ranges[i].end, perRequest);
      windows := windows + slices;
      i := i + 1;
    }
    assert ranges[..i] == ranges;
  }

  // ------------------------------------------------------------ exactness

  /** The days an automatic run has to ask for. */
  ghost predicate Wants(limits: Limits, req: Request, day: int) {
    if req.watermark.None? then
      limits.depth.Some? && req.Today() - limits.depth.value <= day < req.Today()
    else
      || WatermarkWants(limits, req, day)
      || exists i :: 0 <= i < |req.openGaps| && GapWants(limits, req, req.openGaps[i], day)
  }

  /** From the watermark less the overlap up to today, but not before the retention edge. */
  ghost predicate WatermarkWants(limits: Limits, req: Request, day: int)
    requires req.watermark.Some?
  {
    && DayOf(req.watermark.value) - req.overlapDays <= day < req.Today()
    && Retained(limits, req, day)
  }

  ghost predicate Retained(limits: Limits, req: Request, day: int) {
    limits.depth.Some? ==> req.Today() - limits.depth.value <= day
  }

  /** An open gap that starts inside retention, its end extended by a day and capped at today. */
  ghost predicate GapWants(limits: Limits, req: Request, gap: Gap, day: int) {
    && Retained(limits, req, DayOf(gap.start))
    && DayOf(gap.start) <= day <= DayOf(gap.end)
    && day < req.Today()
  }

  lemma {:induction false} GapRangesDays(limits: Limits, req: Request, n: nat, day: int)
    requires n <= |req.openGaps|
    ensures Covers(GapRanges(Earliest(limits, req.Today()), req.Today(), req.openGaps[..n]), day)
       <==> exists i :: 0 <= i < n && GapWants(limits, req, req.openGaps[i], day)
  {
    var earliest, today := Earliest(limits, req.Today()), req.Today();
    if n > 0 {
      var gap := req.openGaps[n - 1];
      GapRangesDays(limits, req, n - 1, day);
      assert req.openGaps[..n][..n - 1] == req.openGaps[..n - 1];
      var last := if BeforeEdge(earliest, DayOf(gap.start)) then [] else [GapRange(gap, today)];
      CoversConcat(GapRanges(earliest, today, req.openGaps[..n - 1]), last, day);
      if last != [] {
        assert Covers(last, day) <==> InWindow(last[0], day);
      }
      assert Covers(last, day) <==> GapWants(limits, req, gap, day);
    }
  }

  lemma RangesDays(limits: Limits, req: Request, day: int)
    ensures Covers(AutomaticRanges(limits, req), day) <==> Wants(limits, req, day)
  {
    var ranges := AutomaticRanges(limits, req);
    if req.watermark.Some? {
      var base := ranges[..1];
      assert ranges == base + ranges[1..];
      assert req.openGaps[..|req.openGaps|] == req.openGaps;
      GapRangesDays(limits, req, |req.openGaps|, day);
      CoversConcat(base, ranges[1..], day);
      assert Covers(base, day) <==> InWindow(base[0], day);
    } else if ranges != [] {
      assert Covers(ranges, day) <==> InWindow(ranges[0], day);
    }
  }

  /** Every automatic plan is the merged and sliced ranges, the first fill included. */
  lemma AutomaticWindows(limits: Limits, req: Request)
    requires ValidLimits(limits) && !req.Manual()
    ensures Planned(limits, req).windows == SliceAll(Merged(AutomaticRanges(limits, req)), limits.perRequest)
  {
    var ranges := AutomaticRanges(limits, req);
    if req.watermark.None? && ranges != [] {
      assert Ordered(ranges[1..]) == [];
      if ranges[0].start < ranges[0].end {
        assert Merged(ranges) == ranges;
        assert SliceAll(ranges[..0], limits.perRequest) == [];
      } else {
        assert Merged(ranges) == [];
      }
    }
  }

  /** A window cut out of the range `r`. */
  ghost predicate PieceOf(w: Window, r: Window, perRequest: Option<int>) {
    && r.start <= w.start && w.end <= r.end
    && (perRequest.Some? ==> w.end - w.start <= perRequest.value)
    && FullOrLast(w, r.end, perRequest)
  }

  lemma {:induction false} SliceAllPieces(ranges: seq<Window>, perRequest: Option<int>)
    requires perRequest.Some? ==> perRequest.value > 0
    ensures forall w :: w in SliceAll(ranges, perRequest) ==>
              exists j :: 0 <= j < |ranges| && PieceOf(w, ranges[j], perRequest)
  {
    if ranges != [] {
      var n := |ranges| - 1;
      SliceAllPieces(ranges[..n], perRequest);
      SlicedShape(ranges[n].start, ranges[n].end, perRequest);
      forall w | w in SliceAll(ranges, perRequest)
        ensures exists j :: 0 <= j < |ranges| && PieceOf(w, ranges[j], perRequest)
      {
        if w in SliceAll(ranges[..n], perRequest) {
          var j :| 0 <= j < n && PieceOf(w, ranges[..n][j], perRequest);
          assert PieceOf(w, ranges[j], perRequest);
        } else {
          assert PieceOf(w, ranges[n], perRequest);
        }
      }
    }
  }

  lemma AscendingConcat(a: seq<Window>, b: seq<Window>, edge: int)
    requires Ascending(a) && Ascending(b)
    requires forall w :: w in a ==> w.end <= edge
    requires forall w :: w in b ==> edge <= w.start
    ensures Ascending(a + b)
  {
    forall i, j | 0 <= i < j < |a + b| ensures (a + b)[i].end <= (a + b)[j].start {
      if i < |a| <= j {
        assert a[i] in a && b[j - |a|] in b;
      }
    }
  }

  lemma {:induction false} SliceAllAscending(ranges: seq<Window>, perRequest: Option<int>)
    requires perRequest.Some? ==> perRequest.value > 0
    requires Normal(ranges)
    ensures Ascending(SliceAll(ranges, perRequest))
  {
    if ranges != [] {
      var n := |ranges| - 1;
      var r, before := ranges[n], SliceAll(ranges[..n], perRequest);
      SliceAllAscending(ranges[..n], perRequest);
      SliceAllPieces(ranges[..n], perRequest);
      SlicedShape(r.start, r.end, perRequest);
      forall w | w in before ensures w.end <= r.start {
        var j :| 0 <= j < n && PieceOf(w, ranges[..n][j], perRequest);
        assert ranges[j].end < ranges[n].start;
      }
      AscendingConcat(before, Sliced(r.start, r.end, perRequest), r.start);
    }
  }

  lemma {:induction false} SliceAllDays(ranges: seq<Window>, perRequest: Option<int>, day: int)
    requires perRequest.Some? ==> perRequest.value > 0
    ensures Covers(SliceAll(ranges, perRequest), day) <==> Covers(ranges, day)
  {
    if ranges != [] {
      var n := |ranges| - 1;
      var r, init := ranges[n], ranges[..n];
      SliceAllDays(init, perRequest, day);
      SlicedShape(r.start, r.end, perRequest);
      CoversConcat(SliceAll(init, perRequest), Sliced(r.start, r.end, perRequest), day);
      assert ranges == init + [r];
      CoversConcat(init, [r], day);
      assert Covers([r], day) <==> InWindow([r][0], day);
    }
  }

  lemma WindowDayCovered(windows: seq<Window>, i: nat)
    requires Ascending(windows) && i < |windows|
    ensures Covers(windows, windows[i].start) && Covers(windows, windows[i].end - 1)
  {
    assert InWindow(windows[i], windows[i].start) && InWindow(windows[i], windows[i].end - 1);
  }

  lemma WantsInRetention(limits: Limits, req: Request, day: int)
    requires ValidLimits(limits) && Wants(limits, req, day)
    ensures Retained(limits, req, day) && day < req.Today()
  {
  }

  /** An automatic plan asks for the wanted days, each once, and for no other day. */
  lemma PlanIsExact(limits: Limits, req: Request)
    requires ValidLimits(limits) && !req.Manual()
    ensures var windows := Planned(limits, req).windows;
      && Ascending(windows)
      && (limits.perRequest.Some? ==> forall w :: w in windows ==> w.end - w.start <= limits.perRequest.value)
      && (forall day :: Covers(windows, day) <==> Wants(limits, req, day))
      && (forall w :: w in windows ==> Retained(limits, req, w.start) && w.end <= req.Today())
  {
    var ranges := AutomaticRanges(limits, req);
    var windows := Planned(limits, req).windows;
    AutomaticWindows(limits, req);
    MergeIsNormalForm(ranges);
    SliceAllAscending(Merged(ranges), limits.perRequest);
    SliceAllPieces(Merged(ranges), limits.perRequest);
    forall day ensures Covers(windows, day) <==> Wants(limits, req, day) {
      SliceAllDays(Merged(ranges), limits.perRequest, day);
      assert Covers(Merged(ranges), day) <==> Covers(ranges, day);
      RangesDays(limits, req, day);
    }
    forall w | w in windows
      ensures Retained(limits, req, w.start) && w.end <= req.Today()
    {
      var i :| 0 <= i < |windows| && windows[i] == w;
      WindowDayCovered(windows, i);
      WantsInRetention(limits, req, w.start);
      WantsInRetention(limits, req, w.end - 1);
    }
  }

  /**
   A manual plan asks for the days of its range, each once; a bound that is not given is today, or
   today less the overlap. It leaves no retention gap, whatever the watermark and the open gaps are.
   */
  lemma ManualPlanIsExact(limits: Limits, req: Request)
    requires ValidLimits(limits) && (req.start.Some? || req.end.Some?)
    ensures var plan := Planned(limits, req);
      && plan.gap == None && Ascending(plan.windows)
      && (limits.perRequest.Some? ==> forall w :: w in plan.windows ==> w.end - w.start <= limits.perRequest.value)
      && forall day :: Covers(plan.windows, day) <==>
           && (if req.start.Some? then req.start.value <= day else req.Today() - req.overlapDays <= day)
           && (if req.end.Some? then day < req.end.value else day < req.Today())
  {
    SlicedShape(req.ManualStart(), req.ManualEnd(), limits.perRequest);
  }

  /**
   A retention gap is planned exactly on an automatic run whose watermark less the overlap lies
   before the edge; it goes from the watermark to the midnight of the edge.
   */
  lemma RetentionGapIff(limits: Limits, req: Request)
    requires ValidLimits(limits)
    ensures var gap := Planned(limits, req).gap;
      && (gap.Some? <==>
            && req.start.None? && req.end.None? && req.watermark.Some? && limits.depth.Some?
            && DayOf(req.watermark.value) - req.overlapDays < req.Today() - limits.depth.value)
      && (gap.Some? ==> gap.value == Gap(req.watermark.value, Midnight(req.Today() - limits.depth.value)))
  {
  }

  /** A range takes as many requests as its days need. */
  lemma {:induction false} SliceCount(start: int, end: int, perRequest: int)
    requires perRequest > 0 && start < end
    ensures var n := |Sliced(start, end, Some(perRequest))|;
      n > 0 && (n - 1) * perRequest < end - start <= n * perRequest
    decreases end - start
  {
    if start + perRequest < end {
      SliceCount(start + perRequest, end, perRequest);
      var n := |Sliced(start + perRequest, end, Some(perRequest))|;
      assert |Sliced(start, end, Some(perRequest))| == n + 1;
    } else {
      assert Sliced(end, end, Some(perRequest)) == [];
    }
  }

  /** The first fill of minute bars takes four requests, of coarser intraday bars one, of weeks and months none. */
  lemma FirstFill(interval: string, req: Request)
    requires BarLimits(interval).Some? && !req.Manual() && req.watermark.None?
    ensures var windows, today := Planned(BarLimits(interval).value, req).windows, req.Today();
      if interval == "1m" then |windows| == 4 && forall day :: Covers(windows, day) <==> today - 29 <= day < today
      else if interval in ["5m", "15m"] then windows == [Window(today - 59, today)]
      else if interval == "60m" then windows == [Window(today - 729, today)]
      else windows == []
  {
    var today := req.Today();
    if interval == "1m" {
      SliceCount(today - 29, today, 8);
      SlicedShape(today - 29, today, Some(8));
    } else if interval in ["5m", "15m"] {
      assert Sliced(today, today, Some(59)) == [];
    } else if interval == "60m" {
      assert Sliced(today, today, Some(729)) == [];
    }
  }

  // ------------------------------------------------------------ optimality

  /** A list of requests that fetches exactly the days of `planned`, within the request limit. */
  ghost predicate Admissible(cover: seq<Window>, planned: seq<Window>, perRequest: Option<int>) {
    && (forall i :: 0 <= i < |cover| ==> perRequest.Some? ==> cover[i].end - cover[i].start <= perRequest.value)
    && (forall i, day :: 0 <= i < |cover| && InWindow(cover[i], day) ==> Covers(planned, day))
    && (forall day :: Covers(planned, day) ==> Covers(cover, day))
  }

  /** Every window is full, or the day after it is not planned. */
  ghost predicate Greedy(windows: seq<Window>, perRequest: Option<int>) {
    forall i :: 0 <= i < |windows| ==>
      || (perRequest.Some? && windows[i].end == windows[i].start + perRequest.value)
      || !Covers(windows, windows[i].end)
  }

  lemma SliceAllGreedy(ranges: seq<Window>, perRequest: Option<int>)
    requires perRequest.Some? ==> perRequest.value > 0
    requires Normal(ranges)
    ensures Greedy(SliceAll(ranges, perRequest), perRequest)
  {
    var windows := SliceAll(ranges, perRequest);
    SliceAllPieces(ranges, perRequest);
    forall i | 0 <= i < |windows|
      ensures || (perRequest.Some? && windows[i].end == windows[i].start + perRequest.value)
              || !Covers(windows, windows[i].end)
    {
      assert windows[i] in windows;
      var j :| 0 <= j < |ranges| && PieceOf(windows[i], ranges[j], perRequest);
      NormalEndIsMissing(ranges, j);
      SliceAllDays(ranges, perRequest, ranges[j].end);
    }
  }

  /** No admissible request contains the starts of two greedy windows. */
  lemma OneStartPerRequest(windows: seq<Window>, perRequest: Option<int>, cover: seq<Window>, c: nat, i: nat, j: nat)
    requires Ascending(windows) && Greedy(windows, perRequest)
    requires Admissible(cover, windows, perRequest) && c < |cover|
    requires i < j < |windows|
    requires InWindow(cover[c], windows[i].start)
    ensures !InWindow(cover[c], windows[j].start)
  {
    assert windows[i].start < windows[i].end <= windows[j].start;
    if !Covers(windows, windows[i].end) {
      assert !InWindow(cover[c], windows[i].end);
    }
  }

  /** Distinct numbers below `m` are at most `m`. */
  lemma {:induction false} Pigeonhole(picks: seq<nat>, m: nat)
    requires forall i :: 0 <= i < |picks| ==> picks[i] < m
    requires forall i, j :: 0 <= i < j < |picks| ==> picks[i] != picks[j]
    ensures |picks| <= m
  {
    if picks == [] {
      return;
    }
    var first := picks[0];
    assert 0 <= first < m;
    if exists k :: 0 <= k < |picks| && picks[k] == m - 1 {
      var k :| 0 <= k < |picks| && picks[k] == m - 1;
      Pigeonhole(picks[..k] + picks[k + 1..], m - 1);
    } else {
      Pigeonhole(picks, m - 1);
    }
  }

  ghost function RequestOf(windows: seq<Window>, cover: seq<Window>, perRequest: Option<int>, i: nat): (c: nat)
    requires Ascending(windows) && Admissible(cover, windows, perRequest) && i < |windows|
    ensures c < |cover| && InWindow(cover[c], windows[i].start)
  {
    assert InWindow(windows[i], windows[i].start);
    assert Covers(cover, windows[i].start);
    var c :| 0 <= c < |cover| && InWindow(cover[c], windows[i].start);
    c
  }

  lemma SlicesAreOptimal(ranges: seq<Window>, perRequest: Option<int>, cover: seq<Window>)
    requires perRequest.Some? ==> perRequest.value > 0
    requires Admissible(cover, SliceAll(Merged(ranges), perRequest), perRequest)
    ensures |SliceAll(Merged(ranges), perRequest)| <= |cover|
  {
    var windows := SliceAll(Merged(ranges), perRequest);
    MergeIsNormalForm(ranges);
    SliceAllAscending(Merged(ranges), perRequest);
    SliceAllGreedy(Merged(ranges), perRequest);
    var picks := seq(|windows|, i requires 0 <= i < |windows| => RequestOf(windows, cover, perRequest, i));
    forall i, j | 0 <= i < j < |windows| ensures picks[i] != picks[j] {
      OneStartPerRequest(windows, perRequest, cover, picks[i], i, j);
    }
    Pigeonhole(picks, |cover|);
  }

  /** A list of requests that fetches exactly the wanted days, none longer than the limit. */
  ghost predicate Serves(cover: seq<Window>, limits: Limits, req: Request) {
    && (forall i :: 0 <= i < |cover| ==>
          limits.perRequest.Some? ==> cover[i].end - cover[i].start <= limits.perRequest.value)
    && (forall day :: Covers(cover, day) <==> Wants(limits, req, day))
  }

  /** The plan serves the run, and no list of requests that serves it is shorter. */
  lemma PlanIsOptimal(limits: Limits, req: Request, cover: seq<Window>)
    requires ValidLimits(limits) && !req.Manual()
    requires Serves(cover, limits, req)
    ensures Serves(Planned(limits, req).windows, limits, req)
    ensures |Planned(limits, req).windows| <= |cover|
  {
    var windows := Planned(limits, req).windows;
    PlanIsExact(limits, req);
    forall i, day | 0 <= i < |cover| && InWindow(cover[i], day) ensures Covers(windows, day) {
      assert Covers(cover, day);
    }
    assert forall i :: 0 <= i < |windows| ==> windows[i] in windows;
    AutomaticWindows(limits, req);
    SlicesAreOptimal(AutomaticRanges(limits, req), limits.perRequest, cover);
  }
}

/**
 The process-global token bucket of src/yfin/ingest/client.py and the retrying call that takes
 one token for each attempt. Times and tokens are real numbers.

 One pass of the loop in `acquire` happens under the lock, so every interleaving of threads is a
 sequence of passes; the clock is monotonic.
 */
module TokenBucket {
  import opened Wrappers

  datatype Limits = Limits(rate: real, capacity: real)

  /** The two fields that a pass reads and writes. */
  datatype State = State(tokens: real, last: real)

  function Min(a: real, b: real): real {
    if a <= b then a else b
  }

  function Max(a: real, b: real): real {
    if a >= b then a else b
  }

  /** What a time span adds: rate times its length. */
  function Gain(limits: Limits, span: real): real {
    span * limits.rate
  }

  function Refilled(limits: Limits, s: State, now: real): real {
    Min(limits.capacity, s.tokens + Gain(limits, now - s.last))
  }

  predicate Grants(limits: Limits, s: State, now: real) {
    Refilled(limits, s, now) >= 1.0
  }

  function Passed(limits: Limits, s: State, now: real): State {
    State(if Grants(limits, s, now) then Refilled(limits, s, now) - 1.0 else Refilled(limits, s, now), now)
  }

  function Wait(limits: Limits, s: State, now: real): real
    requires limits.rate > 0.0
  {
    (1.0 - Refilled(limits, s, now)) / limits.rate
  }

  class Bucket {
    const limits: Limits
    var tokens: real
    var last: real

    constructor (rate: real, burst: Option<real>, now: real)
      ensures limits.rate == rate && (limits.capacity == if burst.Some? then burst.value else Max(1.0, rate))
      ensures View() == State(limits.capacity, now)
    {
      limits := Limits(rate, if burst.Some? then burst.value else Max(1.0, rate));
      tokens, last := if burst.Some? then burst.value else Max(1.0, rate), now;
    }

    function View(): State
      reads this
    {
      State(tokens, last)
    }

    /** The part of the loop that holds the lock; without a wait the token is taken. */
    method Pass(now: real) returns (wait: Option<real>)
      requires limits.rate > 0.0
      modifies this
      ensures View() == Passed(limits, old(View()), now)
      ensures wait == if Grants(limits, old(View()), now) then None else Some(Wait(limits, old(View()), now))
    {
      tokens := Min(limits.capacity, tokens + Gain(limits, now - last));
      last := now;
      if tokens >= 1.0 {
        tokens := tokens - 1.0;
        return None;
      }
      var deficit := 1.0 - tokens;
      return Some(deficit / limits.rate);
    }

    /**
     `acquire` of a thread that nobody competes with and whose sleep may last `late` too long:
     it returns after at most one sleep, if the capacity reaches one token.
     */
    method Acquire(start: real, late: real) returns (at: real, passes: nat)
      requires limits.rate > 0.0 && limits.capacity >= 1.0 && late >= 0.0 && last <= start
      modifies this
      ensures var had := old(tokens) + (start - old(last)) * limits.rate;
        && at == (if had >= 1.0 then start else start + (1.0 - had) / limits.rate + late)
        && passes == if had >= 1.0 then 1 else 2
      ensures last == at && tokens == Min(limits.capacity, old(tokens) + (at - old(last)) * limits.rate) - 1.0
    {
      at, passes := start, 0;
      ghost var first := Passed(limits, View(), start);
      while true
        invariant passes == 0 ==> at == start && View() == old(View())
        invariant passes >= 1 ==> View() == first && !Grants(limits, old(View()), start)
        invariant passes >= 1 ==> at == start + Wait(limits, old(View()), start) + late
        invariant passes <= 1
        decreases 2 - passes
      {
        ghost var before := View();
        var wait := Pass(at);
        passes := passes + 1;
        if wait == None {
          if passes == 2 { DeniedKeepsRefill(limits, old(View()), start, at); }
          return;
        }
        if passes == 2 {
          WaitIsExact(limits, old(View()), start, at);
          DeniedKeepsRefill(limits, old(View()), start, at);
        }
        at := at + wait.value + late;
      }
    }
  }

  // --------------------------------------------------------------- one pass

  lemma GainAdds(limits: Limits, a: real, b: real)
    ensures Gain(limits, a) + Gain(limits, b) == Gain(limits, a + b)
  {
  }

  lemma GainGrows(limits: Limits, a: real, b: real)
    requires limits.rate > 0.0 && a <= b
    ensures Gain(limits, a) <= Gain(limits, b)
  {
  }

  /** A pass that takes nothing does not change what a later pass finds. */
  lemma DeniedKeepsRefill(limits: Limits, s: State, now: real, later: real)
    requires limits.rate > 0.0 && now <= later && !Grants(limits, s, now)
    ensures Refilled(limits, Passed(limits, s, now), later) == Refilled(limits, s, later)
  {
    GainAdds(limits, now - s.last, later - now);
    assert now - s.last + (later - now) == later - s.last;
    GainGrows(limits, 0.0, later - now);
  }

  /** The computed wait is exact: with capacity for one token, from then on the token is there, and not before. */
  lemma WaitIsExact(limits: Limits, s: State, now: real, later: real)
    requires limits.rate > 0.0 && now <= later && !Grants(limits, s, now)
    ensures Grants(limits, s, later) <==> limits.capacity >= 1.0 && later >= now + Wait(limits, s, now)
    ensures Grants(limits, s, later) <==> limits.capacity >= 1.0 && s.tokens + (later - s.last) * limits.rate >= 1.0
  {
    DeniedKeepsRefill(limits, s, now, later);
    var tokens, wait := Refilled(limits, s, now), Wait(limits, s, now);
    WaitFills(limits, 1.0 - tokens, wait);
    if later - now >= wait {
      GainGrows(limits, wait, later - now);
    } else {
      LessGain(limits, later - now, wait);
    }
  }

  lemma WaitFills(limits: Limits, deficit: real, wait: real)
    requires limits.rate > 0.0 && wait == deficit / limits.rate
    ensures Gain(limits, wait) == deficit
  {
  }

  lemma LessGain(limits: Limits, a: real, b: real)
    requires limits.rate > 0.0 && a < b
    ensures Gain(limits, a) < Gain(limits, b)
  {
  }

  // ------------------------------------------------------------ all threads

  /** A thread tries for a token, or, with a token taken, calls upstream. */
  datatype Event = Try(thread: nat, at: real) | Call(thread: nat, at: real)

  /** The bucket, the threads that took a token and have not called yet, and the time. */
  datatype Machine = Machine(bucket: State, holding: set<nat>, clock: real)

  function Start(limits: Limits, now: real): Machine {
    Machine(State(limits.capacity, now), {}, now)
  }

  predicate Enabled(m: Machine, e: Event) {
    m.clock <= e.at && (e.thread in m.holding <==> e.Call?)
  }

  function Next(limits: Limits, m: Machine, e: Event): Machine {
    match e
    case Try(thread, at) =>
      Machine(Passed(limits, m.bucket, at), if Grants(limits, m.bucket, at) then m.holding + {thread}
          else m.holding, at)
    case Call(thread, at) => Machine(m.bucket, m.holding - {thread}, at)
  }

  function After(limits: Limits, m: Machine, events: seq<Event>): Machine {
    if events == [] then m
    else Next(limits, After(limits, m, events[..|events| - 1]), events[|events| - 1])
  }

  /** Any interleaving that the threads can produce. */
  predicate Interleaving(limits: Limits, m: Machine, events: seq<Event>) {
    events == [] ||
    (var n := |events| - 1;
     Interleaving(limits, m, events[..n]) && Enabled(After(limits, m, events[..n]), events[n]))
  }

  function Granted(limits: Limits, m: Machine, events: seq<Event>): nat {
    if events == [] then 0
    else
      var n := |events| - 1;
      Granted(limits, m, events[..n])
      + if events[n].Try? && Grants(limits, After(limits, m, events[..n]).bucket, events[n].at) then 1 else 0
  }

  function Calls(events: seq<Event>): nat {
    if events == [] then 0
    else
      var n := |events| - 1;
      Calls(events[..n]) + if events[n].Call? then 1 else 0
  }

  ghost predicate Sound(limits: Limits, m: Machine) {
    0.0 <= m.bucket.tokens <= limits.capacity && m.bucket.last <= m.clock
  }

  lemma StepKeepsSound(limits: Limits, m: Machine, e: Event)
    requires limits.rate > 0.0 && Sound(limits, m) && Enabled(m, e)
    ensures Sound(limits, Next(limits, m, e))
  {
    GainGrows(limits, 0.0, e.at - m.bucket.last);
  }

  /** Tokens stay between zero and the capacity in every interleaving. */
  lemma {:induction false} TokensStayBounded(limits: Limits, m: Machine, events: seq<Event>)
    requires limits.rate > 0.0 && Sound(limits, m) && Interleaving(limits, m, events)
    ensures Sound(limits, After(limits, m, events)) && m.clock <= After(limits, m, events).clock
  {
    if events != [] {
      var n := |events| - 1;
      TokensStayBounded(limits, m, events[..n]);
      StepKeepsSound(limits, After(limits, m, events[..n]), events[n]);
    }
  }

  /** Every upstream call uses up one grant: grants not yet used are the threads that hold one. */
  lemma {:induction false} GrantsBecomeCalls(limits: Limits, m: Machine, events: seq<Event>)
    requires Interleaving(limits, m, events)
    ensures Calls(events) + |After(limits, m, events).holding| == Granted(limits, m, events) + |m.holding|
  {
    if events != [] {
      var n := |events| - 1;
      GrantsBecomeCalls(limits, m, events[..n]);
    }
  }

  /** All events from `from` on and none after `to`. */
  ghost predicate Within(events: seq<Event>, from: real, to: real) {
    forall i :: 0 <= i < |events| ==> from <= events[i].at <= to
  }

  /** Grants and tokens left are paid for by the capacity and the time since `from`. */
  ghost predicate PaidFor(limits: Limits, from: real, granted: nat, s: State) {
    && granted as real + s.tokens <= limits.capacity + Gain(limits, Max(s.last, from) - from)
    && (s.last < from ==> granted == 0)
  }

  lemma PassIsPaidFor(limits: Limits, from: real, granted: nat, s: State, now: real)
    requires limits.rate > 0.0 && from <= now && s.last <= now && PaidFor(limits, from, granted, s)
    ensures PaidFor(limits, from, granted + if Grants(limits, s, now) then 1 else 0, Passed(limits, s, now))
  {
    GainGrows(limits, 0.0, now - from);
    if from <= s.last {
      GainAdds(limits, s.last - from, now - s.last);
      assert s.last - from + (now - s.last) == now - from;
    }
  }

  lemma {:induction false} GrantsArePaidFor(limits: Limits, m: Machine, events: seq<Event>, from: real, to: real)
    requires limits.rate > 0.0 && Sound(limits, m) && Interleaving(limits, m, events)
    requires Within(events, from, to)
    ensures PaidFor(limits, from, Granted(limits, m, events), After(limits, m, events).bucket)
  {
    if events == [] {
      GainGrows(limits, 0.0, Max(m.bucket.last, from) - from);
    } else {
      var n := |events| - 1;
      GrantsArePaidFor(limits, m, events[..n], from, to);
      TokensStayBounded(limits, m, events[..n]);
      if events[n].Try? {
        PassIsPaidFor(limits, from, Granted(limits, m, events[..n]), After(limits, m, events[..n]).bucket,
            events[n].at);
      }
    }
  }

  lemma {:induction false} InterleavingSplits(limits: Limits, m: Machine, before: seq<Event>, during: seq<Event>)
    requires Interleaving(limits, m, before + during)
    ensures Interleaving(limits, m, before) && Interleaving(limits, After(limits, m, before), during)
    ensures After(limits, m, before + during) == After(limits, After(limits, m, before), during)
  {
    if during == [] {
      assert before + during == before;
    } else {
      var n := |during| - 1;
      assert (before + during)[..|before + during| - 1] == before + during[..n];
      InterleavingSplits(limits, m, before, during[..n]);
    }
  }

  lemma GrantsInSpan(limits: Limits, m: Machine, events: seq<Event>, from: real, to: real)
    requires limits.rate > 0.0 && Sound(limits, m) && Interleaving(limits, m, events)
    requires from <= to && Within(events, from, to)
    ensures Granted(limits, m, events) as real <= limits.capacity + Gain(limits, to - from)
  {
    TokensStayBounded(limits, m, events);
    GrantsArePaidFor(limits, m, events, from, to);
    LastIsWithin(limits, m, events, from, to);
    var end := After(limits, m, events).bucket;
    if from <= end.last <= to {
      GainGrows(limits, end.last - from, to - from);
    } else {
      GainGrows(limits, 0.0, to - from);
    }
  }

  lemma CallsInSpan(limits: Limits, begin: real, before: seq<Event>, during: seq<Event>, from: real, length: real)
    requires limits.rate > 0.0 && limits.capacity >= 0.0 && length >= 0.0
    requires Interleaving(limits, Start(limits, begin), before + during) && Within(during, from, from + length)
    ensures var m := After(limits, Start(limits, begin), before);
      && Granted(limits, m, during) as real <= limits.capacity + Gain(limits, length)
      && Calls(during) as real <= |m.holding| as real + limits.capacity + Gain(limits, length)
  {
    InterleavingSplits(limits, Start(limits, begin), before, during);
    TokensStayBounded(limits, Start(limits, begin), before);
    var m := After(limits, Start(limits, begin), before);
    GrantsInSpan(limits, m, during, from, from + length);
    GrantsBecomeCalls(limits, m, during);
    assert from + length - from == length;
  }

  /**
   The rate bound: in any interleaving of any threads, a time span of length T sees at most
   capacity + rate * T grants, and at most that many upstream calls beyond the tokens that
   threads already held when it began.
   */
  lemma RateIsBounded(limits: Limits, begin: real, before: seq<Event>, during: seq<Event>, from: real, length: real)
    requires limits.rate > 0.0 && limits.capacity >= 0.0 && length >= 0.0
    requires Interleaving(limits, Start(limits, begin), before + during) && Within(during, from, from + length)
    ensures var m, most := After(limits, Start(limits, begin), before), limits.capacity + length * limits.rate;
      Granted(limits, m, during) as real <= most && Calls(during) as real <= |m.holding| as real + most
  {
    CallsInSpan(limits, begin, before, during, from, length);
    GainIs(limits, length);
  }

  lemma GainIs(limits: Limits, span: real)
    ensures Gain(limits, span) == span * limits.rate
  {
  }

  /** If the bucket was last touched after the span, nothing was granted in it. */
  lemma {:induction false} LastIsWithin(limits: Limits, m: Machine, events: seq<Event>, from: real, to: real)
    requires Within(events, from, to)
    ensures After(limits, m, events).bucket.last > to ==> Granted(limits, m, events) == 0
  {
    if events != [] {
      LastIsWithin(limits, m, events[..|events| - 1], from, to);
    }
  }

  /** From the start, upstream calls never outnumber the capacity and what the time so far has earned. */
  lemma CallsAreBounded(limits: Limits, begin: real, events: seq<Event>, length: real)
    requires limits.rate > 0.0 && limits.capacity >= 0.0 && length >= 0.0
    requires Interleaving(limits, Start(limits, begin), events) && Within(events, begin, begin + length)
    ensures Calls(events) as real <= limits.capacity + length * limits.rate
  {
    assert [] + events == events;
    RateIsBounded(limits, begin, [], events, begin, length);
  }

  /** That many threads trying at one instant. */
  function Burst(n: nat, now: real): seq<Event> {
    seq(n, k requires 0 <= k < n => Try(k, now))
  }

  /** The bound is reached: of a burst, exactly as many are served as whole tokens are there. */
  lemma {:induction false} BurstIsServed(limits: Limits, begin: real, n: nat)
    requires limits.rate > 0.0 && limits.capacity >= 0.0
    ensures Interleaving(limits, Start(limits, begin), Burst(n, begin))
    ensures Granted(limits, Start(limits, begin), Burst(n, begin)) == if n <= limits.capacity.Floor then n
        else limits.capacity.Floor
    ensures var m := After(limits, Start(limits, begin), Burst(n, begin));
      && m.bucket == State(limits.capacity - Granted(limits, Start(limits, begin), Burst(n, begin)) as real, begin)
      && m.clock == begin
      && forall thread :: thread in m.holding ==> thread < n
  {
    if n > 0 {
      BurstIsServed(limits, begin, n - 1);
      assert Burst(n, begin)[..n - 1] == Burst(n - 1, begin);
      assert Gain(limits, 0.0) == 0.0;
    }
  }

  // ------------------------------------------------------------- the waiter

  /** While nothing is granted, what a later pass finds stays the same. */
  lemma {:induction false} QuietKeepsRefill(limits: Limits, m: Machine, events: seq<Event>, later: real)
    requires limits.rate > 0.0 && m.bucket.last <= m.clock
    requires Interleaving(limits, m, events) && Granted(limits, m, events) == 0
    requires After(limits, m, events).clock <= later
    ensures Refilled(limits, After(limits, m, events).bucket, later) == Refilled(limits, m.bucket, later)
    ensures After(limits, m, events).bucket.last <= After(limits, m, events).clock
  {
    if events != [] {
      var n := |events| - 1;
      var before := After(limits, m, events[..n]);
      QuietKeepsRefill(limits, m, events[..n], later);
      if events[n].Try? { DeniedKeepsRefill(limits, before.bucket, events[n].at, later); }
    }
  }

  /** A turned away thread and any passes that serve nobody change nothing for a later try. */
  lemma WaiterFindsSame(limits: Limits, m: Machine, thread: nat, now: real, events: seq<Event>, later: real)
    requires limits.rate > 0.0 && m.bucket.last <= m.clock && Enabled(m, Try(thread, now))
        && !Grants(limits, m.bucket, now)
    requires var turned := Next(limits, m, Try(thread, now));
      && Interleaving(limits, turned, events) && Granted(limits, turned, events) == 0
      && After(limits, turned, events).clock <= later
    ensures now <= later
    ensures var bucket := After(limits, Next(limits, m, Try(thread, now)), events).bucket;
      Grants(limits, bucket, later) <==> Grants(limits, m.bucket, later)
  {
    var turned := Next(limits, m, Try(thread, now));
    QuietKeepsRefill(limits, turned, events, later);
    ClockGrows(limits, turned, events);
    DeniedKeepsRefill(limits, m.bucket, now, later);
  }

  /**
   A thread that was turned away and told to wait: as long as nobody else was served, a later
   try succeeds exactly if the wait is over and the capacity reaches one token.
   */
  lemma WaiterIsServedIff(limits: Limits, m: Machine, thread: nat, now: real, events: seq<Event>, later: real)
    requires limits.rate > 0.0 && m.bucket.last <= m.clock && Enabled(m, Try(thread, now))
        && !Grants(limits, m.bucket, now)
    requires var turned := Next(limits, m, Try(thread, now));
      && Interleaving(limits, turned, events) && Granted(limits, turned, events) == 0
      && After(limits, turned, events).clock <= later
    ensures var bucket := After(limits, Next(limits, m, Try(thread, now)), events).bucket;
      Grants(limits, bucket, later) <==> limits.capacity >= 1.0 && later >= now + Wait(limits, m.bucket, now)
  {
    WaiterFindsSame(limits, m, thread, now, events, later);
    WaitIsExact(limits, m.bucket, now, later);
  }

  lemma {:induction false} ClockGrows(limits: Limits, m: Machine, events: seq<Event>)
    requires Interleaving(limits, m, events)
    ensures m.clock <= After(limits, m, events).clock
  {
    if events != [] {
      ClockGrows(limits, m, events[..|events| - 1]);
    }
  }

  /** A capacity below one token serves nobody, ever. */
  lemma {:induction false} SmallCapacityServesNobody(limits: Limits, m: Machine, events: seq<Event>)
    requires limits.capacity < 1.0
    ensures Granted(limits, m, events) == 0
  {
    if events != [] {
      SmallCapacityServesNobody(limits, m, events[..|events| - 1]);
    }
  }

  // --------------------------------------------------------------- one call

  /** How an upstream call ends; only a transient error is retried. */
  datatype Outcome = Success | Transient | Fatal

  datatype Action = TakeToken | CallUpstream

  /**
   `call_yahoo`: it ends with the first attempt that is not transient, or with the last allowed one, and every
   attempt takes a token first.
   */
  method CallYahoo(outcomes: nat -> Outcome, attempts: nat) returns (last: Outcome, made: nat, actions: seq<Action>)
    ensures made >= 1 && last == outcomes(made - 1)
    ensures last != Transient || made >= attempts
    ensures forall k: nat :: k < made - 1 ==> outcomes(k) == Transient
    ensures made == 1 || made <= attempts
    ensures |actions| == 2 * made
    ensures forall k :: 0 <= k < |actions| ==> actions[k] == if k % 2 == 0 then TakeToken else CallUpstream
  {
    made, actions := 0, [];
    while true
      invariant forall k: nat :: k < made ==> outcomes(k) == Transient
      invariant made == 0 || made < attempts
      invariant |actions| == 2 * made
      invariant forall k :: 0 <= k < |actions| ==> actions[k] == if k % 2 == 0 then TakeToken else CallUpstream
      decreases attempts - made
    {
      actions := actions + [TakeToken];
      last := outcomes(made);
      actions := actions + [CallUpstream];
      made := made + 1;
      if last != Transient { return; }
      if made >= attempts { return; }
    }
  }
}

/** How many requests a minute can let in at most, as a function of the two limits. */
module RateBounds {
  import opened RateLimiter
  import opened RateTraces
  import opened Wrappers

  /** What a minute with an eviction in it can let in beyond twice the limit. */
  function Excess(l: Limits): nat {
    AtLeast0(Min(AtLeast0(l.rpm) - 1, AtLeast0(l.rph) - AtLeast0(l.rpm) - 1))
  }

  function WorstMinute(l: Limits): nat {
    2 * AtLeast0(l.rpm) + Excess(l)
  }

  // The upper bound

  /**
   Of a minute window younger than its record's hour window, the request that opened it has used
   up one of both, or was refused because the hour was used up.
   */
  ghost predicate Opened(l: Limits, m: map<string, Rate>, now: int) {
    forall ip :: ip in m ==>
      && m[ip].minuteReset - MINUTE <= now
      && (l.rpm > 0 && m[ip].hourReset - HOUR < m[ip].minuteReset - MINUTE ==>
            m[ip].hourCount >= AtLeast0(l.rph) || (m[ip].minuteCount >= 1 && m[ip].hourCount >= 1))
  }

  lemma StepOpened(l: Limits, m: map<string, Rate>, e: Event, before: int)
    requires WithinLimits(l, m) && Opened(l, m, before) && before <= e.now
    ensures Opened(l, Next(l, m, e), e.now)
  {
  }

  /** What a record still lets through within a minute of `from`, if it may be evicted in it. */
  function Budget(l: Limits, r: Option<Rate>, from: int): int {
    var n, h := AtLeast0(l.rpm), AtLeast0(l.rph);
    if r.None? then n
    else
      var x := (if from <= r.value.minuteReset then n - r.value.minuteCount else 0)
               + (if r.value.minuteReset < from + MINUTE then n else 0);
      if r.value.hourReset < from + MINUTE then Max(x, n + Min(x, h - r.value.hourCount)) else x
  }

  lemma BudgetStep(l: Limits, m: map<string, Rate>, e: Event, ip: string, from: int)
    requires WithinLimits(l, m) && from <= e.now <= from + MINUTE
    ensures Budget(l, Look(Next(l, m, e), ip), from) + (if LetIn(l, m, e, ip) then 1 else 0)
            <= Budget(l, Look(m, ip), from)
  {
  }

  lemma {:induction false} BudgetHolds(l: Limits, m: map<string, Rate>, es: seq<Event>, ip: string, from: int)
    requires WithinLimits(l, m) && Monotone(es)
    requires forall i :: 0 <= i < |es| ==> from <= es[i].now
    ensures Count(l, m, es, ip, from, from + MINUTE) <= Budget(l, Look(m, ip), from)
    decreases |es|
  {
    if es != [] {
      if es[0].now > from + MINUTE {
        CountBeyond(l, m, es, ip, from, from + MINUTE);
      } else {
        StepWithinLimits(l, m, es[0]);
        BudgetHolds(l, Next(l, m, es[0]), es[1..], ip, from);
        BudgetStep(l, m, es[0], ip, from);
      }
    }
  }

  lemma BudgetAtStart(l: Limits, m: map<string, Rate>, ip: string, from: int, before: int)
    requires WithinLimits(l, m) && Opened(l, m, before) && before < from
    ensures Budget(l, Look(m, ip), from) <= WorstMinute(l)
  {
  }

  lemma {:induction false} WorstMinuteBounds(l: Limits, m: map<string, Rate>, es: seq<Event>,
                                           ip: string, from: int, before: int)
    requires WithinLimits(l, m) && Opened(l, m, before) && before < from
    requires Monotone(es) && forall i :: 0 <= i < |es| ==> before <= es[i].now
    ensures Count(l, m, es, ip, from, from + MINUTE) <= WorstMinute(l)
    decreases |es|
  {
    if es != [] && es[0].now < from {
      StepWithinLimits(l, m, es[0]);
      StepOpened(l, m, es[0], before);
      WorstMinuteBounds(l, Next(l, m, es[0]), es[1..], ip, from, es[0].now);
    } else {
      BudgetHolds(l, m, es, ip, from);
      BudgetAtStart(l, m, ip, from, before);
    }
  }

  lemma {:induction false} SkipTo(l: Limits, m: map<string, Rate>, es: seq<Event>, from: int) returns (before: int)
    ensures before < from && forall i :: 0 <= i < |es| ==> before <= es[i].now
  {
    if es == [] {
      before := from - 1;
    } else {
      before := SkipTo(l, m, es[1..], from);
      before := Min(before, es[0].now);
    }
  }

  /**
   From the start of the program, over every trace and every interval: an hour lets in at most
   twice the hourly limit; a minute at most twice the limit if no clean-up evicts the client in
   it, and never more than WorstMinute.
   */
  lemma SlidingBounds(l: Limits, es: seq<Event>, ip: string, from: int)
    requires Monotone(es)
    ensures Count(l, map[], es, ip, from, from + HOUR) <= 2 * AtLeast0(l.rph)
    ensures NoEviction(l, map[], es, ip, from, from + MINUTE) ==>
              Count(l, map[], es, ip, from, from + MINUTE) <= 2 * AtLeast0(l.rpm)
    ensures Count(l, map[], es, ip, from, from + MINUTE) <= WorstMinute(l)
    ensures l.rpm >= 1 ==> Count(l, map[], es, ip, from, from + MINUTE) <= 3 * l.rpm - 1
  {
    AnyHour(l, map[], es, ip, from);
    AnyMinute(l, map[], es, ip, from);
    var before := SkipTo(l, map[], es, from);
    WorstMinuteBounds(l, map[], es, ip, from, before);
  }

  // The bound is reached, with the clean-up passes that the program makes

  const SECOND: int := 1_000_000_000
  const PERIOD: int := 300 * SECOND

  /** The times of the clean-up passes in a trace. */
  function Passes(es: seq<Event>): seq<int> {
    if es == [] then []
    else Passes(es[..|es| - 1]) + if es[|es| - 1].Cleanup? then [es[|es| - 1].now] else []
  }

  /** The passes of a ticker that first fires at `start`, none left out as long as the trace lasts. */
  ghost predicate Punctual(es: seq<Event>, start: int) {
    && (forall i :: 0 <= i < |Passes(es)| ==> Passes(es)[i] == start + i * PERIOD)
    && (es != [] ==> start <= es[0].now + PERIOD && es[|es| - 1].now <= start + |Passes(es)| * PERIOD)
  }

  lemma PassesAppend(es: seq<Event>, e: Event)
    ensures Passes(es + [e]) == Passes(es) + if e.Cleanup? then [e.now] else []
  {
    assert (es + [e])[..|es|] == es;
  }

  /** When the n-th pass is due, in a program that started at -297 s. */
  function Due(n: nat): int {
    3 * SECOND + n * PERIOD
  }

  function Burst(k: nat, now: int, ip: string): seq<Event> {
    seq(k, _ => Request(now, ip))
  }

  /** The passes n to n + k - 1. */
  function DuePasses(n: nat, k: nat): seq<Event> {
    seq(k, i requires 0 <= i < k => Cleanup(Due(n + i)))
  }

  /**
   After the trace: the record of ip, how many of its requests the minute from `from` has let in,
   the time, and how many passes have been made, all of them on time.
   */
  ghost predicate Stands(l: Limits, es: seq<Event>, ip: string, from: int,
                         r: Option<Rate>, count: nat, now: int, passes: nat) {
    && Monotone(es) && (forall i :: 0 <= i < |es| ==> 0 <= es[i].now <= now)
    && Look(After(l, map[], es), ip) == r
    && Count(l, map[], es, ip, from, from + MINUTE) == count
    && |Passes(es)| == passes && forall i :: 0 <= i < passes ==> Passes(es)[i] == Due(i)
  }

  lemma StandsRequest(l: Limits, es: seq<Event>, ip: string, from: int,
                      r: Option<Rate>, count: nat, now: int, n: nat, at: int)
    requires Stands(l, es, ip, from, r, count, now, n) && 0 <= now <= at
    ensures var q := Refresh(r, at);
            Stands(l, es + [Request(at, ip)], ip, from, Some(Charged(l, q)),
                   count + if Admits(l, q) && from <= at <= from + MINUTE then 1 else 0, at, n)
  {
    hide Passes;
    PassesAppend(es, Request(at, ip));
    AppendEvent(l, map[], es, Request(at, ip), ip, from, from + MINUTE);
  }

  /** The next pass, made on time, evicts the client or leaves its record alone. */
  lemma StandsPass(l: Limits, es: seq<Event>, ip: string, from: int, r: Rate, count: nat, now: int, n: nat)
    requires Stands(l, es, ip, from, Some(r), count, now, n) && 0 <= now <= Due(n)
    ensures Stands(l, es + [Cleanup(Due(n))], ip, from,
                   if r.hourReset < Due(n) then None else Some(r), count, Due(n), n + 1)
  {
    hide Passes, Due;
    PassesAppend(es, Cleanup(Due(n)));
    AppendEvent(l, map[], es, Cleanup(Due(n)), ip, from, from + MINUTE);
  }

  /** Passes that come before the hour is over leave the record alone. */
  lemma {:induction false} StandsPasses(l: Limits, es: seq<Event>, ip: string, from: int, r: Rate, count: nat, now: int,
                                        n: nat, k: nat)
    requires Stands(l, es, ip, from, Some(r), count, now, n) && 0 <= now <= Due(n)
    requires k >= 1 && Due(n + k - 1) <= r.hourReset
    ensures Stands(l, es + DuePasses(n, k), ip, from, Some(r), count, Due(n + k - 1), n + k)
  {
    hide Stands;
    var last := n + k - 1;
    if k == 1 {
      StandsPass(l, es, ip, from, r, count, now, n);
      assert DuePasses(n, 1) == [Cleanup(Due(n))];
    } else {
      StandsPasses(l, es, ip, from, r, count, now, n, k - 1);
      var fs := es + DuePasses(n, k - 1);
      StandsPass(l, fs, ip, from, r, count, Due(last - 1), last);
      assert es + DuePasses(n, k) == fs + [Cleanup(Due(last))];
    }
  }

  /** The record after k more requests. */
  function Used(r: Rate, k: nat): Rate {
    r.(minuteCount := r.minuteCount + k, hourCount := r.hourCount + k)
  }

  /** A burst that fits is let in as a whole. */
  lemma {:induction false} StandsBurst(l: Limits, es: seq<Event>, ip: string, from: int,
                                       r: Option<Rate>, count: nat, now: int, n: nat, k: nat, at: int)
    requires Stands(l, es, ip, from, r, count, now, n) && 0 <= now <= at && k >= 1
    requires var q := Refresh(r, at);
             q.minuteCount + k <= l.rpm && q.hourCount + k <= l.rph
    ensures Stands(l, es + Burst(k, at, ip), ip, from, Some(Used(Refresh(r, at), k)),
                   count + if from <= at <= from + MINUTE then k else 0, at, n)
  {
    hide Stands;
    var e := Request(at, ip);
    var q := Refresh(r, at);
    if k == 1 {
      assert Burst(k, at, ip) == [e];
      StandsRequest(l, es, ip, from, r, count, now, n, at);
    } else {
      StandsBurst(l, es, ip, from, r, count, now, n, k - 1, at);
      var fs := es + Burst(k - 1, at, ip);
      var counted := count + if from <= at <= from + MINUTE then k - 1 else 0;
      StandsRequest(l, fs, ip, from, Some(Used(q, k - 1)), counted, at, n, at);
      assert es + Burst(k, at, ip) == fs + [e];
    }
  }

  lemma StandsAtStart(l: Limits, ip: string, from: int)
    ensures Stands(l, [], ip, from, None, 0, 0, 0)
  {
  }

  /** A first hour with a single request, and a full minute that outlasts it. */
  lemma FirstHour(l: Limits, ip: string) returns (es: seq<Event>)
    requires Excess(l) > 0
    ensures Stands(l, es, ip, 7190 * SECOND,
                   Some(Rate(l.rpm, l.rpm + 1, 3630 * SECOND, 3600 * SECOND)), 0, 3570 * SECOND, 12)
  {
    hide Stands;
    var from, r := 7190 * SECOND, Rate(1, 1, 60 * SECOND, 3600 * SECOND);
    StandsAtStart(l, ip, from);
    StandsRequest(l, [], ip, from, None, 0, 0, 0, 0);
    es := [] + [Request(0, ip)];
    StandsPasses(l, es, ip, from, r, 0, 0, 0, 12);
    es := es + DuePasses(0, 12);
    assert Refresh(Some(r), 3570 * SECOND) == Rate(0, 1, 3630 * SECOND, 3600 * SECOND);
    StandsBurst(l, es, ip, from, Some(r), 0, Due(11), 12, l.rpm, 3570 * SECOND);
    es := es + Burst(l.rpm, 3570 * SECOND, ip);
  }

  /**
   The second hour window is opened by a refused request, so that it starts unused. Shortly before
   it is over, one request opens a minute window.
   */
  lemma SecondHour(l: Limits, ip: string) returns (es: seq<Event>)
    requires Excess(l) > 0
    ensures Stands(l, es, ip, 7190 * SECOND, Some(Rate(1, 1, 7191 * SECOND, 7201 * SECOND)), 0, 7131 * SECOND, 24)
  {
    hide Stands;
    var from, r := 7190 * SECOND, Rate(l.rpm, l.rpm + 1, 3630 * SECOND, 3600 * SECOND);
    es := FirstHour(l, ip);
    assert Refresh(Some(r), 3601 * SECOND) == Rate(l.rpm, 0, 3630 * SECOND, 7201 * SECOND);
    StandsRequest(l, es, ip, from, Some(r), 0, 3570 * SECOND, 12, 3601 * SECOND);
    es := es + [Request(3601 * SECOND, ip)];
    r := Rate(l.rpm, 0, 3630 * SECOND, 7201 * SECOND);
    StandsPasses(l, es, ip, from, r, 0, 3601 * SECOND, 12, 12);
    es := es + DuePasses(12, 12);
    assert Refresh(Some(r), 7131 * SECOND) == Rate(0, 0, 7191 * SECOND, 7201 * SECOND);
    StandsBurst(l, es, ip, from, Some(r), 0, Due(23), 24, 1, 7131 * SECOND);
    es := es + Burst(1, 7131 * SECOND, ip);
  }

  /** The excess in the last second of that minute, a full minute, an eviction, and another full minute. */
  lemma WorstTrace(l: Limits, ip: string) returns (es: seq<Event>, r: Option<Rate>)
    requires Excess(l) > 0
    ensures Stands(l, es, ip, 7190 * SECOND, r, WorstMinute(l), 7204 * SECOND, 25)
  {
    hide Stands;
    var n, k, from := l.rpm, Excess(l), 7190 * SECOND;
    es := SecondHour(l, ip);
    var r1 := Rate(1, 1, 7191 * SECOND, 7201 * SECOND);
    StandsBurst(l, es, ip, from, Some(r1), 0, 7131 * SECOND, 24, k, 7190 * SECOND);
    es := es + Burst(k, 7190 * SECOND, ip);
    var r2 := Rate(1 + k, 1 + k, 7191 * SECOND, 7201 * SECOND);
    StandsBurst(l, es, ip, from, Some(r2), k, 7190 * SECOND, 24, n, 7192 * SECOND);
    es := es + Burst(n, 7192 * SECOND, ip);
    var r3 := Rate(n, 1 + k + n, 7252 * SECOND, 7201 * SECOND);
    StandsPass(l, es, ip, from, r3, k + n, 7192 * SECOND, 24);
    es := es + [Cleanup(Due(24))];
    StandsBurst(l, es, ip, from, None, k + n, Due(24), 25, n, 7204 * SECOND);
    es := es + Burst(n, 7204 * SECOND, ip);
    r := Some(Used(Refresh(None, 7204 * SECOND), n));
  }

  /**
   Wherever the two limits leave room for an excess, some minute lets in exactly WorstMinute, in a
   trace with a clean-up pass every five minutes.
   */
  lemma WorstMinuteIsReached(l: Limits, ip: string) returns (es: seq<Event>, from: int)
    requires Excess(l) > 0
    ensures Monotone(es) && Punctual(es, Due(0))
    ensures Count(l, map[], es, ip, from, from + MINUTE) == WorstMinute(l)
  {
    var r;
    es, r := WorstTrace(l, ip);
    from := 7190 * SECOND;
  }

  predicate TwiceAt(l: Limits, es: seq<Event>, ip: string, from: int) {
    Count(l, map[], es, ip, from, from + MINUTE) <= 2 * AtLeast0(l.rpm)
  }

  /** In every minute of every trace at most twice the limit is let in. */
  ghost predicate TwiceHolds(l: Limits, ip: string) {
    forall es, from :: Monotone(es) ==> TwiceAt(l, es, ip, from)
  }

  /** The same for the traces with a clean-up pass every five minutes. */
  ghost predicate TwiceHoldsOnTime(l: Limits, ip: string) {
    forall es, from, start :: Monotone(es) && Punctual(es, start) ==> TwiceAt(l, es, ip, from)
  }

  /** Both are so for exactly the same limits. */
  lemma TwiceTheLimitExactlyWhen(l: Limits, ip: string)
    ensures TwiceHolds(l, ip) <==> l.rpm <= 1 || l.rph <= l.rpm + 1
    ensures TwiceHoldsOnTime(l, ip) <==> l.rpm <= 1 || l.rph <= l.rpm + 1
  {
    if Excess(l) == 0 {
      forall es, from | Monotone(es) ensures TwiceAt(l, es, ip, from) {
        SlidingBounds(l, es, ip, from);
      }
    } else {
      var es, from := WorstMinuteIsReached(l, ip);
      assert !TwiceAt(l, es, ip, from);
    }
  }

  // When a client that has used up a limit is let in again

  /** The state after a client has used up its smaller limit at time 0. */
  function UsedUp(l: Limits, ip: string): map<string, Rate>
    requires 1 <= l.rpm && 1 <= l.rph
  {
    After(l, map[], Burst(Min(l.rpm, l.rph), 0, ip))
  }

  lemma UsedUpRecord(l: Limits, ip: string)
    requires 1 <= l.rpm && 1 <= l.rph
    ensures var k := Min(l.rpm, l.rph);
            Look(UsedUp(l, ip), ip) == Some(Rate(k, k, MINUTE, HOUR))
  {
    hide Stands;
    var k := Min(l.rpm, l.rph);
    StandsAtStart(l, ip, 0);
    StandsBurst(l, [], ip, 0, None, 0, 0, 0, k, 0);
    assert [] + Burst(k, 0, ip) == Burst(k, 0, ip);
    StandsIsLook(l, Burst(k, 0, ip), ip, 0, Some(Rate(k, k, MINUTE, HOUR)), k, 0, 0);
  }

  lemma StandsIsLook(l: Limits, es: seq<Event>, ip: string, from: int, r: Option<Rate>, count: nat, now: int, n: nat)
    requires Stands(l, es, ip, from, r, count, now, n)
    ensures Look(After(l, map[], es), ip) == r
  {
  }

  /**
   Not before 60 seconds have passed, if it was the minute limit, or 3600, if it was the hour limit;
   and then at once.
   */
  lemma LetInAgainExactlyWhen(l: Limits, ip: string, t: int)
    requires 1 <= l.rpm && 1 <= l.rph && 0 <= t
    ensures LetIn(l, UsedUp(l, ip), Request(t, ip), ip) <==>
              t > if l.rpm < l.rph then 60_000_000_000 else 3_600_000_000_000
  {
    hide UsedUp;
    UsedUpRecord(l, ip);
  }

  /** A clean-up pass drops the record made by a request exactly when more than an hour has passed. */
  lemma EvictedExactlyWhen(l: Limits, ip: string, t: int)
    requires 0 <= t
    ensures ip !in After(l, map[], [Request(0, ip)] + [Cleanup(t)]) <==> t > 3_600_000_000_000
  {
    assert [] + [Request(0, ip)] == [Request(0, ip)];
    AppendEvent(l, map[], [], Request(0, ip), ip, 0, 0);
    AppendEvent(l, map[], [Request(0, ip)], Cleanup(t), ip, 0, 0);
  }

  /** The program's two limiters let in one request less than three times their limit. */
  lemma EvictionLetsMoreIn(ip: string)
    ensures WorstMinute(Limits(10, 60)) == 29 && !TwiceHoldsOnTime(Limits(10, 60), ip)
    ensures WorstMinute(Limits(60, 600)) == 179 && !TwiceHoldsOnTime(Limits(60, 600), ip)
  {
    TwiceTheLimitExactlyWhen(Limits(10, 60), ip);
    TwiceTheLimitExactlyWhen(Limits(60, 600), ip);
  }
}

/** The limiter over whole traces of requests and clean-up passes. */
module RateTraces {
  import opened Wrappers
  import opened RateLimiter

  datatype Event = Request(now: int, ip: string) | Cleanup(now: int)

  /** Events happen under one lock, by one clock. */
  ghost predicate Monotone(es: seq<Event>) {
    forall i, j :: 0 <= i < j < |es| ==> es[i].now <= es[j].now
  }

  function Next(l: Limits, m: map<string, Rate>, e: Event): map<string, Rate> {
    match e
    case Request(now, ip) => m[ip := Charged(l, Refresh(Look(m, ip), now))]
    case Cleanup(now) => Kept(m, now)
  }

  /** e is a request of ip that is let through. */
  predicate LetIn(l: Limits, m: map<string, Rate>, e: Event, ip: string) {
    e.Request? && e.ip == ip && Admits(l, Refresh(Look(m, ip), e.now))
  }

  /** How many requests of ip are let through between two times, both included. */
  function Count(l: Limits, m: map<string, Rate>, es: seq<Event>, ip: string, from: int, to: int): nat
    decreases |es|
  {
    if es == [] then 0
    else
      (if LetIn(l, m, es[0], ip) && from <= es[0].now <= to then 1 else 0)
      + Count(l, Next(l, m, es[0]), es[1..], ip, from, to)
  }

  /** ip has a record and this pass drops it. */
  predicate Evicts(m: map<string, Rate>, e: Event, ip: string) {
    e.Cleanup? && ip in m && m[ip].hourReset < e.now
  }

  predicate NoEviction(l: Limits, m: map<string, Rate>, es: seq<Event>, ip: string, from: int, to: int)
    decreases |es|
  {
    es == [] ||
    (&& !(Evicts(m, es[0], ip) && from <= es[0].now <= to)
     && NoEviction(l, Next(l, m, es[0]), es[1..], ip, from, to))
  }

  function AtLeast0(x: int): nat {
    if x < 0 then 0 else x
  }

  ghost predicate WithinLimits(l: Limits, m: map<string, Rate>) {
    forall ip :: ip in m ==>
      0 <= m[ip].minuteCount <= AtLeast0(l.rpm) && 0 <= m[ip].hourCount <= AtLeast0(l.rph)
  }

  lemma StepWithinLimits(l: Limits, m: map<string, Rate>, e: Event)
    requires WithinLimits(l, m)
    ensures WithinLimits(l, Next(l, m, e))
  {
  }

  /** After the last event in time, nothing more is counted. */
  lemma {:induction false} CountBeyond(l: Limits, m: map<string, Rate>, es: seq<Event>, ip: string, from: int, to: int)
    requires forall i :: 0 <= i < |es| ==> to < es[i].now
    ensures Count(l, m, es, ip, from, to) == 0
    decreases |es|
  {
    if es != [] {
      CountBeyond(l, Next(l, m, es[0]), es[1..], ip, from, to);
    }
  }

  // Budgets: what a record still lets through until `to`, all events being at most one window earlier

  function HourBudget(l: Limits, r: Option<Rate>, to: int): int {
    var h := AtLeast0(l.rph);
    if r.None? then h
    else h - r.value.hourCount + if to > r.value.hourReset then h else 0
  }

  function MinuteBudget(l: Limits, r: Option<Rate>, to: int, evictions: bool): int {
    var n := AtLeast0(l.rpm);
    if r.None? then n
    else
      n - r.value.minuteCount + (if to > r.value.minuteReset then n else 0)
      + (if evictions && to > r.value.hourReset then n else 0)
  }

  lemma {:induction false} HourCount(l: Limits, m: map<string, Rate>, es: seq<Event>, ip: string, from: int, to: int)
    requires WithinLimits(l, m) && Monotone(es)
    requires forall i :: 0 <= i < |es| ==> from <= es[i].now
    requires to <= from + HOUR
    ensures Count(l, m, es, ip, from, to) <= HourBudget(l, Look(m, ip), to)
    decreases |es|
  {
    if es != [] {
      if es[0].now > to {
        CountBeyond(l, m, es, ip, from, to);
      } else {
        StepWithinLimits(l, m, es[0]);
        HourCount(l, Next(l, m, es[0]), es[1..], ip, from, to);
      }
    }
  }

  lemma {:induction false} MinuteCount(l: Limits, m: map<string, Rate>, es: seq<Event>, ip: string, from: int, to: int,
                                       evictions: bool)
    requires WithinLimits(l, m) && Monotone(es)
    requires forall i :: 0 <= i < |es| ==> from <= es[i].now
    requires to <= from + MINUTE
    requires evictions || NoEviction(l, m, es, ip, from, to)
    ensures Count(l, m, es, ip, from, to) <= MinuteBudget(l, Look(m, ip), to, evictions)
    decreases |es|
  {
    if es != [] {
      if es[0].now > to {
        CountBeyond(l, m, es, ip, from, to);
      } else {
        StepWithinLimits(l, m, es[0]);
        MinuteCount(l, Next(l, m, es[0]), es[1..], ip, from, to, evictions);
      }
    }
  }

  // Sliding intervals

  /** In any hour, over any trace: at most twice the hourly limit. Evictions make no difference. */
  lemma {:induction false} AnyHour(l: Limits, m: map<string, Rate>, es: seq<Event>, ip: string, from: int)
    requires WithinLimits(l, m) && Monotone(es)
    ensures Count(l, m, es, ip, from, from + HOUR) <= 2 * AtLeast0(l.rph)
    decreases |es|
  {
    if es != [] {
      if es[0].now < from {
        StepWithinLimits(l, m, es[0]);
        AnyHour(l, Next(l, m, es[0]), es[1..], ip, from);
      } else {
        HourCount(l, m, es, ip, from, from + HOUR);
      }
    }
  }

  /** In any minute: at most twice the limit, or three times when a clean-up evicts the client in it. */
  lemma {:induction false} AnyMinute(l: Limits, m: map<string, Rate>, es: seq<Event>, ip: string, from: int)
    requires WithinLimits(l, m) && Monotone(es)
    ensures Count(l, m, es, ip, from, from + MINUTE) <= 3 * AtLeast0(l.rpm)
    ensures NoEviction(l, m, es, ip, from, from + MINUTE) ==>
              Count(l, m, es, ip, from, from + MINUTE) <= 2 * AtLeast0(l.rpm)
    decreases |es|
  {
    if es != [] {
      if es[0].now < from {
        StepWithinLimits(l, m, es[0]);
        AnyMinute(l, Next(l, m, es[0]), es[1..], ip, from);
      } else {
        MinuteCount(l, m, es, ip, from, from + MINUTE, true);
        if NoEviction(l, m, es, ip, from, from + MINUTE) {
          MinuteCount(l, m, es, ip, from, from + MINUTE, false);
        }
      }
    }
  }

  // The limiter is no stricter than its limits

  function After(l: Limits, m: map<string, Rate>, es: seq<Event>): map<string, Rate>
    decreases |es|
  {
    if es == [] then m else After(l, Next(l, m, es[0]), es[1..])
  }

  lemma {:induction false} AppendEvent(l: Limits, m: map<string, Rate>, es: seq<Event>,
                                     e: Event, ip: string, from: int, to: int)
    ensures After(l, m, es + [e]) == Next(l, After(l, m, es), e)
    ensures Count(l, m, es + [e], ip, from, to) ==
              Count(l, m, es, ip, from, to) + if LetIn(l, After(l, m, es), e, ip) && from <= e.now <= to then 1 else 0
    decreases |es|
  {
    if es == [] {
      assert es + [e] == [e] && [e][1..] == [];
    } else {
      assert (es + [e])[1..] == es[1..] + [e];
      AppendEvent(l, Next(l, m, es[0]), es[1..], e, ip, from, to);
    }
  }

  /** A longer interval holds at least as many of the events that happened. */
  lemma {:induction false} CountWider(l: Limits, m: map<string, Rate>, es: seq<Event>, ip: string,
                                      from: int, to: int, from1: int, to1: int)
    requires forall i :: 0 <= i < |es| && from <= es[i].now <= to ==> from1 <= es[i].now <= to1
    ensures Count(l, m, es, ip, from, to) <= Count(l, m, es, ip, from1, to1)
    decreases |es|
  {
    if es != [] {
      CountWider(l, Next(l, m, es[0]), es[1..], ip, from, to, from1, to1);
    }
  }

  /** The counts of a record are of requests let through in its windows. */
  ghost predicate Earned(l: Limits, es: seq<Event>, ip: string) {
    var r := Look(After(l, map[], es), ip);
    r.Some? ==>
      && r.value.minuteCount <= Count(l, map[], es, ip, r.value.minuteReset - MINUTE, r.value.minuteReset)
      && r.value.hourCount <= Count(l, map[], es, ip, r.value.hourReset - HOUR, r.value.hourReset)
      && es != []
      && r.value.minuteReset - MINUTE <= es[|es| - 1].now && r.value.hourReset - HOUR <= es[|es| - 1].now
  }

  lemma EarnedStep(l: Limits, es: seq<Event>, e: Event, ip: string)
    requires Earned(l, es, ip) && (es != [] ==> es[|es| - 1].now <= e.now)
    ensures Earned(l, es + [e], ip)
  {
    var m := After(l, map[], es);
    AppendEvent(l, map[], es, e, ip, 0, 0);
    var r := Look(Next(l, m, e), ip);
    if r.Some? {
      AppendEvent(l, map[], es, e, ip, r.value.minuteReset - MINUTE, r.value.minuteReset);
      AppendEvent(l, map[], es, e, ip, r.value.hourReset - HOUR, r.value.hourReset);
    }
  }

  lemma {:induction false} AllEarned(l: Limits, es: seq<Event>, ip: string)
    requires Monotone(es)
    ensures Earned(l, es, ip)
    decreases |es|
  {
    if es != [] {
      var front := es[..|es| - 1];
      AllEarned(l, front, ip);
      EarnedStep(l, front, es[|es| - 1], ip);
      assert es == front + [es[|es| - 1]];
    }
  }

  /** What a window that is still open has seen lies in the interval of its length up to now. */
  lemma OpenWindow(l: Limits, es: seq<Event>, ip: string, reset: int, width: int, now: int)
    requires forall i :: 0 <= i < |es| ==> es[i].now <= now
    requires now <= reset
    ensures Count(l, map[], es, ip, reset - width, reset) <= Count(l, map[], es, ip, now - width, now)
  {
    CountWider(l, map[], es, ip, reset - width, reset, now - width, now);
  }

  /** How much of its limits a record that decides a request at `now` has used at most. */
  predicate Used(r: Option<Rate>, now: int, minute: int, hour: int) {
    r.Some? ==>
      && (now <= r.value.minuteReset ==> r.value.minuteCount <= minute)
      && (now <= r.value.hourReset ==> r.value.hourCount <= hour)
  }

  lemma UsedIsRecent(l: Limits, es: seq<Event>, ip: string, now: int)
    requires Earned(l, es, ip) && forall i :: 0 <= i < |es| ==> es[i].now <= now
    ensures Used(Look(After(l, map[], es), ip), now, Count(l, map[], es, ip, now - MINUTE, now),
                 Count(l, map[], es, ip, now - HOUR, now))
  {
    var r := Look(After(l, map[], es), ip);
    if r.Some? {
      if now <= r.value.minuteReset {
        OpenWindow(l, es, ip, r.value.minuteReset, MINUTE, now);
      }
      if now <= r.value.hourReset {
        OpenWindow(l, es, ip, r.value.hourReset, HOUR, now);
      }
    }
  }

  lemma UnusedAdmits(l: Limits, r: Option<Rate>, now: int, minute: nat, hour: nat)
    requires Used(r, now, minute, hour) && minute < l.rpm && hour < l.rph
    ensures Admits(l, Refresh(r, now))
  {
  }

  /**
   A client that has had fewer requests let through in the past minute and the past hour than the
   limits allow is always let through.
   */
  lemma NeverTooStrict(l: Limits, es: seq<Event>, ip: string, now: int)
    requires Monotone(es) && forall i :: 0 <= i < |es| ==> es[i].now <= now
    requires Count(l, map[], es, ip, now - MINUTE, now) < l.rpm
    requires Count(l, map[], es, ip, now - HOUR, now) < l.rph
    ensures LetIn(l, After(l, map[], es), Request(now, ip), ip)
  {
    AllEarned(l, es, ip);
    UsedIsRecent(l, es, ip, now);
    UnusedAdmits(l, Look(After(l, map[], es), ip), now, Count(l, map[], es, ip, now - MINUTE, now),
                 Count(l, map[], es, ip, now - HOUR, now));
  }

  // Clients do not affect each other

  /** The answers given to ip, in order. */
  function Answers(l: Limits, m: map<string, Rate>, es: seq<Event>, ip: string): seq<bool>
    decreases |es|
  {
    if es == [] then []
    else
      (if es[0].Request? && es[0].ip == ip then [LetIn(l, m, es[0], ip)] else [])
      + Answers(l, Next(l, m, es[0]), es[1..], ip)
  }

  /** The trace without the requests of the others. */
  function Alone(es: seq<Event>, ip: string): seq<Event> {
    if es == [] then []
    else (if es[0].Request? && es[0].ip != ip then [] else [es[0]]) + Alone(es[1..], ip)
  }

  /** The answers to one client are those of the trace in which it is alone. */
  lemma {:induction false} ClientsAreIndependent(l: Limits, m: map<string, Rate>, n: map<string, Rate>,
                                                 es: seq<Event>, ip: string)
    requires Look(m, ip) == Look(n, ip)
    ensures Answers(l, m, es, ip) == Answers(l, n, Alone(es, ip), ip)
    decreases |es|
  {
    if es != [] {
      if es[0].Request? && es[0].ip != ip {
        ClientsAreIndependent(l, Next(l, m, es[0]), n, es[1..], ip);
        assert Alone(es, ip) == Alone(es[1..], ip);
      } else {
        ClientsAreIndependent(l, Next(l, m, es[0]), Next(l, n, es[0]), es[1..], ip);
        assert Alone(es, ip)[1..] == Alone(es[1..], ip);
      }
    }
  }

  // What an eviction changes

  /**
   A record that may be evicted decides the next request with the same hour window as no record
   does; with the same minute window exactly when its own minute is over, or is as good as new.
   */
  lemma EvictionForgetsTheMinute(r: Rate, evicted: int, now: int)
    requires r.hourReset < evicted <= now
    ensures var (kept, gone) := (Refresh(Some(r), now), Refresh(None, now));
            && kept.hourCount == gone.hourCount && kept.hourReset == gone.hourReset
            && (kept == gone <==> r.minuteReset < now || (r.minuteCount == 0 && r.minuteReset == now + MINUTE))
  {
  }
}

/**
 * The per-IP handshake limiter: a two-bucket sliding window per source address, a cap on the number
 * of addresses tracked, and a sweep that forgets idle ones. Clock readings are parameters.
 */
module Limits {
  const MINUTE := 60_000

  /** One address: admissions in the clock minute `minute` and in the one before. */
  datatype Bucket = Bucket(minute: nat, cur: nat, prev: nat)

  datatype Config = Config(maxPerMinute: nat, maxTrackedIps: nat)

  type Windows = map<string, Bucket>

  /** The bucket of an address brought forward to the current minute. */
  function Rolled(b: Bucket, minute: nat): Bucket {
    if b.minute == minute then b
    else Bucket(minute, 0, if b.minute + 1 == minute then b.cur else 0)
  }

  /** The trailing-minute estimate is at the maximum; `prev` decays as the minute passes. */
  predicate AtLimit(c: Config, b: Bucket, t: nat) {
    b.prev * (MINUTE - t % MINUTE) + b.cur * MINUTE >= c.maxPerMinute * MINUTE
  }

  datatype Decision = Decision(windows: Windows, admitted: bool)

  function Decide(c: Config, w: Windows, ip: string, t: nat): Decision {
    var minute := t / MINUTE;
    if ip !in w && |w| >= c.maxTrackedIps then Decision(w, false)
    else
      var b := if ip in w then Rolled(w[ip], minute) else Bucket(minute, 0, 0);
      if AtLimit(c, b, t) then Decision(w[ip := b], false)
      else Decision(w[ip := b.(cur := b.cur + 1)], true)
  }

  predicate Stale(b: Bucket, minute: nat) {
    b.minute + 1 < minute
  }

  function Swept(w: Windows, minute: nat): Windows {
    map ip | ip in w && !Stale(w[ip], minute) :: w[ip]
  }

  class HandshakeRateLimiter {
    var windows: Windows
    const config: Config

    constructor (config: Config)
      ensures windows == map[] && this.config == config
    {
      windows := map[];
      this.config := config;
    }

    method Allow(ip: string, t: nat) returns (ok: bool)
      modifies this
      ensures Decision(windows, ok) == Decide(config, old(windows), ip, t)
    {
      var minute := t / MINUTE;
      var bucket;
      if ip !in windows {
        if |windows| >= config.maxTrackedIps { return false; }
        bucket := Bucket(minute, 0, 0);
      } else {
        bucket := windows[ip];
        if bucket.minute != minute {
          bucket := Bucket(minute, 0, if bucket.minute == minute - 1 then bucket.cur else 0);
        }
      }
      windows := windows[ip := bucket];
      if bucket.prev * (MINUTE - t % MINUTE) + bucket.cur * MINUTE >= config.maxPerMinute * MINUTE { return false; }
      windows := windows[ip := bucket.(cur := bucket.cur + 1)];
      ok := true;
    }

    method Sweep(t: nat)
      modifies this
      ensures windows == Swept(old(windows), t / MINUTE)
    {
      var minute := t / MINUTE;
      var todo := windows.Keys;
      while todo != {}
        invariant todo <= windows.Keys <= old(windows).Keys
        invariant forall ip :: ip in windows ==> windows[ip] == old(windows)[ip]
        invariant forall ip :: ip in old(windows) && ip !in todo ==>
                    (ip in windows <==> !Stale(old(windows)[ip], minute))
      {
        var ip :| ip in todo;
        if windows[ip].minute < minute - 1 {
          windows := windows - {ip};
        }
        todo := todo - {ip};
      }
    }
  }

  // ----- histories -----

  datatype Event = Request(ip: string, t: nat) | SweepAt(t: nat)

  /** The limiter after a history, and its answer to each event (`false` for a sweep). */
  datatype Outcome = Outcome(windows: Windows, admitted: seq<bool>)

  function Run(c: Config, events: seq<Event>): (o: Outcome)
    ensures |o.admitted| == |events|
  {
    if events == [] then Outcome(map[], [])
    else
      var before := Run(c, events[..|events| - 1]);
      match events[|events| - 1]
      case Request(ip, t) =>
        var d := Decide(c, before.windows, ip, t);
        Outcome(d.windows, before.admitted + [d.admitted])
      case SweepAt(t) => Outcome(Swept(before.windows, t / MINUTE), before.admitted + [false])
  }

  ghost predicate Nondecreasing(events: seq<Event>) {
    forall i, j :: 0 <= i < j < |events| ==> events[i].t <= events[j].t
  }

  /** Requests of `ip` admitted at times in [lo, hi). */
  function Admissions(events: seq<Event>, admitted: seq<bool>, ip: string, lo: nat, hi: nat): nat
    requires |admitted| == |events|
  {
    if events == [] then 0
    else
      var n := |events| - 1;
      Admissions(events[..n], admitted[..n], ip, lo, hi) +
      if admitted[n] && events[n] == Request(ip, events[n].t) && lo <= events[n].t < hi then 1 else 0
  }

  function InMinute(events: seq<Event>, admitted: seq<bool>, ip: string, minute: nat): nat
    requires |admitted| == |events|
  {
    Admissions(events, admitted, ip, minute * MINUTE, (minute + 1) * MINUTE)
  }

  /** What the windows know about the history of one address. */
  ghost predicate BucketCounts(w: Windows, events: seq<Event>, admitted: seq<bool>, ip: string, now: nat)
    requires |admitted| == |events|
  {
    if ip in w then
      && w[ip].minute <= now / MINUTE
      && w[ip].cur == InMinute(events, admitted, ip, w[ip].minute)
      && (w[ip].minute > 0 ==> w[ip].prev == InMinute(events, admitted, ip, w[ip].minute - 1))
      && (w[ip].minute == 0 ==> w[ip].prev == 0)
      && forall m: nat :: m > w[ip].minute ==> InMinute(events, admitted, ip, m) == 0
    else
      forall m: nat :: m + 1 >= now / MINUTE ==> InMinute(events, admitted, ip, m) == 0
  }

  lemma {:induction false} NothingAfter(events: seq<Event>, admitted: seq<bool>, ip: string, lo: nat, hi: nat, now: nat)
    requires |admitted| == |events| && now < lo
    requires forall i :: 0 <= i < |events| ==> events[i].t <= now
    ensures Admissions(events, admitted, ip, lo, hi) == 0
  {
    if events != [] {
      var n := |events| - 1;
      NothingAfter(events[..n], admitted[..n], ip, lo, hi, now);
    }
  }

  /** One more event adds its own admission and nothing else. */
  lemma CountStep(c: Config, events: seq<Event>, ip: string, m: nat)
    requires events != []
    ensures var n, o := |events| - 1, Run(c, events);
      && o.admitted[..n] == Run(c, events[..n]).admitted
      && InMinute(events, o.admitted, ip, m) ==
         InMinute(events[..n], o.admitted[..n], ip, m) +
         if o.admitted[n] && events[n] == Request(ip, events[n].t) && events[n].t / MINUTE == m then 1 else 0
  {
  }

  lemma RolledCounts(w: Windows, events: seq<Event>, admitted: seq<bool>, ip: string, now: nat, t: nat)
    requires |admitted| == |events| && BucketCounts(w, events, admitted, ip, now) && now <= t
    ensures var b := if ip in w then Rolled(w[ip], t / MINUTE) else Bucket(t / MINUTE, 0, 0);
      BucketCounts(w[ip := b], events, admitted, ip, t)
  {
    hide InMinute;
  }

  lemma LaterCounts(w: Windows, events: seq<Event>, admitted: seq<bool>, ip: string, now: nat, t: nat)
    requires |admitted| == |events| && BucketCounts(w, events, admitted, ip, now) && now <= t
    ensures BucketCounts(w, events, admitted, ip, t)
    ensures BucketCounts(Swept(w, t / MINUTE), events, admitted, ip, t)
  {
    hide InMinute;
  }

  lemma {:induction false} RunCounts(c: Config, events: seq<Event>, ip: string)
    requires events != [] && Nondecreasing(events)
    ensures var o := Run(c, events);
      && BucketCounts(o.windows, events, o.admitted, ip, events[|events| - 1].t)
      && (forall m: nat :: InMinute(events, o.admitted, ip, m) <= c.maxPerMinute)
  {
    var n := |events| - 1;
    var front, o := events[..n], Run(c, events);
    var before, t := Run(c, front), events[n].t;
    if n == 0 {
      EmptyCounts(ip, t);
    } else {
      RunCounts(c, front, ip);
      LaterCounts(before.windows, front, before.admitted, ip, front[n - 1].t, t);
    }
    assert BucketCounts(before.windows, front, before.admitted, ip, t);
    EventCounts(c, events, ip);
  }

  lemma EmptyCounts(ip: string, t: nat)
    ensures BucketCounts(map[], [], [], ip, t)
    ensures forall m: nat :: InMinute([], [], ip, m) == 0
  {
  }

  /** The longer history counts what the shorter one did, and one admission more in the minute of `t` if `extra`. */
  ghost predicate CountsGrow(
      front: seq<Event>, a0: seq<bool>, events: seq<Event>, a: seq<bool>, ip: string, t: nat, extra: bool)
    requires |a0| == |front| && |a| == |events|
  {
    forall m: nat :: InMinute(events, a, ip, m) == InMinute(front, a0, ip, m) + if extra && m == t / MINUTE then 1 else 0
  }

  /** One decision keeps the count and the bound of every address. */
  lemma DecisionCounts(
      c: Config, w: Windows, front: seq<Event>, a0: seq<bool>, events: seq<Event>, a: seq<bool>,
      ip: string, who: string, t: nat)
    requires |a0| == |front| && |a| == |events| && BucketCounts(w, front, a0, ip, t)
    requires forall m: nat :: InMinute(front, a0, ip, m) <= c.maxPerMinute
    requires CountsGrow(front, a0, events, a, ip, t, who == ip && Decide(c, w, who, t).admitted)
    ensures BucketCounts(Decide(c, w, who, t).windows, events, a, ip, t)
    ensures forall m: nat :: InMinute(events, a, ip, m) <= c.maxPerMinute
  {
    RolledCounts(w, front, a0, ip, t, t);
    hide InMinute, AtLimit;
    UnderLimit(c, if ip in w then Rolled(w[ip], t / MINUTE) else Bucket(t / MINUTE, 0, 0), t);
  }

  lemma UnderLimit(c: Config, b: Bucket, t: nat)
    ensures !AtLimit(c, b, t) ==> b.cur < c.maxPerMinute
  {
    var left := MINUTE - t % MINUTE;
    ProductNonNegative(b.prev, left);
    assert AtLimit(c, b, t) == (b.prev * left + b.cur * MINUTE >= c.maxPerMinute * MINUTE);
  }

  lemma ProductNonNegative(a: nat, b: nat)
    ensures a * b >= 0
  {
  }

  lemma RunStep(c: Config, events: seq<Event>)
    requires events != []
    ensures var n := |events| - 1;
      Run(c, events).windows ==
      match events[n]
      case Request(ip, t) => Decide(c, Run(c, events[..n]).windows, ip, t).windows
      case SweepAt(t) => Swept(Run(c, events[..n]).windows, t / MINUTE)
    ensures var n := |events| - 1;
      Run(c, events).admitted[n] <==>
      events[n].Request? && Decide(c, Run(c, events[..n]).windows, events[n].ip, events[n].t).admitted
  {
  }

  lemma EventGrows(c: Config, events: seq<Event>, ip: string)
    requires events != []
    ensures var n, o := |events| - 1, Run(c, events);
      var e := events[n];
      CountsGrow(events[..n], Run(c, events[..n]).admitted, events, o.admitted, ip, e.t,
                 e.Request? && e.ip == ip && o.admitted[n])
  {
    forall m: nat {
      CountStep(c, events, ip, m);
    }
    hide InMinute, Run;
  }

  lemma EventCounts(c: Config, events: seq<Event>, ip: string)
    requires events != []
    requires var n := |events| - 1;
      var before := Run(c, events[..n]);
      && BucketCounts(before.windows, events[..n], before.admitted, ip, events[n].t)
      && forall m: nat :: InMinute(events[..n], before.admitted, ip, m) <= c.maxPerMinute
    ensures var o := Run(c, events);
      && BucketCounts(o.windows, events, o.admitted, ip, events[|events| - 1].t)
      && (forall m: nat :: InMinute(events, o.admitted, ip, m) <= c.maxPerMinute)
  {
    var n := |events| - 1;
    var front, o, e := events[..n], Run(c, events), events[n];
    var before := Run(c, front);
    RunStep(c, events);
    EventGrows(c, events, ip);
    hide InMinute, BucketCounts, CountsGrow, Decide, Swept, Run;
    if e.Request? {
      DecisionCounts(c, before.windows, front, before.admitted, events, o.admitted, ip, e.ip, e.t);
    } else {
      LaterCounts(before.windows, front, before.admitted, ip, e.t, e.t);
      SameCounts(o.windows, front, before.admitted, events, o.admitted, ip, e.t);
    }
  }

  lemma SameCounts(w: Windows, front: seq<Event>, a0: seq<bool>, events: seq<Event>, a: seq<bool>, ip: string, t: nat)
    requires |a0| == |front| && |a| == |events| && BucketCounts(w, front, a0, ip, t)
    requires CountsGrow(front, a0, events, a, ip, t, false)
    ensures BucketCounts(w, events, a, ip, t)
  {
    hide InMinute;
  }

  /** At most the maximum per address and clock minute. */
  lemma AtMostMaxPerClockMinute(c: Config, events: seq<Event>, ip: string, minute: nat)
    requires Nondecreasing(events)
    ensures InMinute(events, Run(c, events).admitted, ip, minute) <= c.maxPerMinute
  {
    if events != [] {
      RunCounts(c, events, ip);
    }
  }

  lemma {:induction false} RangeSplits(events: seq<Event>, admitted: seq<bool>, ip: string, lo: nat, mid: nat, hi: nat)
    requires |admitted| == |events| && lo <= mid <= hi
    ensures Admissions(events, admitted, ip, lo, hi) ==
            Admissions(events, admitted, ip, lo, mid) + Admissions(events, admitted, ip, mid, hi)
  {
    if events != [] {
      var n := |events| - 1;
      RangeSplits(events[..n], admitted[..n], ip, lo, mid, hi);
    }
  }

  /** At most twice the maximum per address in any window of 60 seconds, wherever it starts. */
  lemma AtMostTwiceMaxPerWindow(c: Config, events: seq<Event>, ip: string, start: nat)
    requires Nondecreasing(events)
    ensures Admissions(events, Run(c, events).admitted, ip, start, start + MINUTE) <= 2 * c.maxPerMinute
  {
    var a, m := Run(c, events).admitted, start / MINUTE;
    WindowSplits(events, a, ip, start);
    AtMostMaxPerClockMinute(c, events, ip, m);
    AtMostMaxPerClockMinute(c, events, ip, m + 1);
  }

  /** A burst at the end of one minute and one just under a minute later. */
  function Bursts(first: nat, second: nat): seq<Event>
    decreases second, first
  {
    if second > 0 then Bursts(first, second - 1) + [Request("a", 119_998)]
    else if first > 0 then Bursts(first - 1, 0) + [Request("a", 59_999)]
    else []
  }

  /** The window "a" is in after the bursts. */
  function BurstWindows(first: nat, second: nat): Windows {
    if second > 0 then map["a" := Bucket(1, second, first)]
    else if first > 0 then map["a" := Bucket(0, first, 0)]
    else map[]
  }

  lemma BurstDecided(c: Config, first: nat, second: nat)
    requires 0 < c.maxPerMinute < 30_000 && c.maxTrackedIps > 0
    ensures first < c.maxPerMinute ==>
              Decide(c, BurstWindows(first, 0), "a", 59_999) == Decision(BurstWindows(first + 1, 0), true)
    ensures first == c.maxPerMinute && second < c.maxPerMinute ==>
              Decide(c, BurstWindows(first, second), "a", 119_998) == Decision(BurstWindows(first, second + 1), true)
  {
  }

  lemma OneMoreAdmitted(c: Config, front: seq<Event>, t: nat)
    requires Nondecreasing(front) && (forall e :: e in front ==> e.t <= t) && 59_999 <= t < 59_999 + MINUTE
    requires Decide(c, Run(c, front).windows, "a", t).admitted
    ensures var events := front + [Request("a", t)];
      && Nondecreasing(events) && (forall e :: e in events ==> e.t <= t)
      && Run(c, events).windows == Decide(c, Run(c, front).windows, "a", t).windows
      && Admissions(events, Run(c, events).admitted, "a", 59_999, 59_999 + MINUTE) ==
         Admissions(front, Run(c, front).admitted, "a", 59_999, 59_999 + MINUTE) + 1
  {
    hide Decide;
    var events := front + [Request("a", t)];
    assert events[..|front|] == front;
    assert Run(c, events).admitted[..|front|] == Run(c, front).admitted;
  }

  lemma {:induction false} BurstsAdmitted(c: Config, first: nat, second: nat)
    requires 0 < c.maxPerMinute < 30_000 && c.maxTrackedIps > 0
    requires first <= c.maxPerMinute && second <= c.maxPerMinute && (second > 0 ==> first == c.maxPerMinute)
    ensures var events := Bursts(first, second);
      && Nondecreasing(events) && (forall e :: e in events ==> e.t <= if second > 0 then 119_998 else 59_999)
      && Run(c, events).windows == BurstWindows(first, second)
      && Admissions(events, Run(c, events).admitted, "a", 59_999, 59_999 + MINUTE) == first + second
    decreases second, first
  {
    hide Run, Admissions, Decide, Nondecreasing, BurstWindows;
    if second > 0 {
      BurstsAdmitted(c, first, second - 1);
      BurstDecided(c, first, second - 1);
      OneMoreAdmitted(c, Bursts(first, second - 1), 119_998);
    } else if first > 0 {
      BurstsAdmitted(c, first - 1, 0);
      BurstDecided(c, first - 1, 0);
      OneMoreAdmitted(c, Bursts(first - 1, 0), 59_999);
    } else {
      NoBursts(c);
    }
  }

  lemma NoBursts(c: Config)
    ensures Nondecreasing([]) && Run(c, []).windows == BurstWindows(0, 0)
    ensures Admissions([], Run(c, []).admitted, "a", 59_999, 59_999 + MINUTE) == 0
  {
  }

  /** The factor two is reached for every maximum below 30 000. */
  lemma TwiceIsReached(c: Config)
    requires 0 < c.maxPerMinute < 30_000 && c.maxTrackedIps > 0
    ensures var events := Bursts(c.maxPerMinute, c.maxPerMinute);
      && Nondecreasing(events)
      && Admissions(events, Run(c, events).admitted, "a", 59_999, 59_999 + MINUTE) == 2 * c.maxPerMinute
  {
    BurstsAdmitted(c, c.maxPerMinute, c.maxPerMinute);
  }

  /** And for none from there on: the last millisecond of the window is one in which what is left of a full
      previous minute still refuses the last request. */
  lemma {:induction false} TwiceIsMissed(c: Config, events: seq<Event>, ip: string, start: nat)
    requires c.maxPerMinute >= 30_000 && Nondecreasing(events)
    ensures Admissions(events, Run(c, events).admitted, ip, start, start + MINUTE) < 2 * c.maxPerMinute
  {
    if events != [] {
      var n := |events| - 1;
      var front, e, o := events[..n], events[n], Run(c, events);
      TwiceIsMissed(c, front, ip, start);
      assert o.admitted[..n] == Run(c, front).admitted;
      if o.admitted[n] && e == Request(ip, e.t) && start <= e.t < start + MINUTE {
        LastOneRefused(c, front, ip, start, e.t);
      }
    }
  }

  /** A window lies in two clock minutes, and what it admits in each is at most what the minute admits. */
  lemma WindowSplits(events: seq<Event>, a: seq<bool>, ip: string, start: nat)
    requires |a| == |events|
    ensures var m := start / MINUTE;
      var mid := (m + 1) * MINUTE;
      && start < mid <= start + MINUTE
      && Admissions(events, a, ip, start, start + MINUTE) ==
         Admissions(events, a, ip, start, mid) + Admissions(events, a, ip, mid, start + MINUTE)
      && Admissions(events, a, ip, start, mid) <= InMinute(events, a, ip, m)
      && Admissions(events, a, ip, mid, start + MINUTE) <= InMinute(events, a, ip, m + 1)
  {
    var m := start / MINUTE;
    var lo, mid, hi := m * MINUTE, (m + 1) * MINUTE, (m + 2) * MINUTE;
    assert lo <= start < mid <= start + MINUTE < hi;
    RangeSplits(events, a, ip, start, mid, start + MINUTE);
    RangeSplits(events, a, ip, lo, start, mid);
    RangeSplits(events, a, ip, mid, start + MINUTE, hi);
  }

  lemma LastOneRefused(c: Config, front: seq<Event>, ip: string, start: nat, t: nat)
    requires c.maxPerMinute >= 30_000 && Nondecreasing(front) && forall e :: e in front ==> e.t <= t
    requires start <= t < start + MINUTE && Decide(c, Run(c, front).windows, ip, t).admitted
    ensures Admissions(front, Run(c, front).admitted, ip, start, start + MINUTE) < 2 * c.maxPerMinute - 1
  {
    hide InMinute, Admissions, Run, Decide, AtLimit, Nondecreasing;
    var a, m := Run(c, front).admitted, start / MINUTE;
    var mid := (m + 1) * MINUTE;
    var first, second := Admissions(front, a, ip, start, mid), Admissions(front, a, ip, mid, start + MINUTE);
    WindowSplits(front, a, ip, start);
    AtMostMaxPerClockMinute(c, front, ip, m);
    AtMostMaxPerClockMinute(c, front, ip, m + 1);
    if t < mid {
      assert forall i :: 0 <= i < |front| ==> front[i] in front;
      NothingAfter(front, a, ip, mid, start + MINUTE, t);
    } else {
      MinuteOf(start, t);
      CountsAt(c, front, ip, t);
      UnderLimit(c, Bucket(m + 1, InMinute(front, a, ip, m + 1), InMinute(front, a, ip, m)), t);
      if first >= c.maxPerMinute && second + 1 >= c.maxPerMinute {
        FullPrevious(c, InMinute(front, a, ip, m), InMinute(front, a, ip, m + 1), t);
      }
    }
  }

  lemma MinuteOf(start: nat, t: nat)
    requires (start / MINUTE + 1) * MINUTE <= t < start + MINUTE
    ensures t / MINUTE == start / MINUTE + 1 && t % MINUTE <= 59_998
  {
  }

  /** Admissions of `ip` in the clock minute before `minute`. */
  function MinuteBefore(events: seq<Event>, admitted: seq<bool>, ip: string, minute: nat): nat
    requires |admitted| == |events|
  {
    if minute == 0 then 0 else InMinute(events, admitted, ip, minute - 1)
  }

  /** After any history, sweeps and refusals included, a request is admitted exactly if its address is tracked or
      there is room for it, and the admissions of this clock minute and the decayed share of those of the minute
      before stay below the maximum. */
  lemma AdmittedIff(c: Config, front: seq<Event>, ip: string, t: nat)
    requires Nondecreasing(front) && forall e :: e in front ==> e.t <= t
    ensures var o, minute := Run(c, front), t / MINUTE;
      Decide(c, o.windows, ip, t).admitted <==>
      && (ip in o.windows || |o.windows| < c.maxTrackedIps)
      && MinuteBefore(front, o.admitted, ip, minute) * (MINUTE - t % MINUTE)
         + InMinute(front, o.admitted, ip, minute) * MINUTE < c.maxPerMinute * MINUTE
  {
    var o := Run(c, front);
    if front == [] {
      EmptyCounts(ip, t);
    } else {
      RunCounts(c, front, ip);
      LaterCounts(o.windows, front, o.admitted, ip, front[|front| - 1].t, t);
    }
    hide InMinute, Run;
    RolledCounts(o.windows, front, o.admitted, ip, t, t);
    var minute := t / MINUTE;
    var b := if ip in o.windows then Rolled(o.windows[ip], minute) else Bucket(minute, 0, 0);
    assert b == Bucket(minute, InMinute(front, o.admitted, ip, minute), MinuteBefore(front, o.admitted, ip, minute));
  }

  /** The bucket that a request at `t` is decided on counts this minute and the one before. */
  lemma CountsAt(c: Config, front: seq<Event>, ip: string, t: nat)
    requires Nondecreasing(front) && (forall e :: e in front ==> e.t <= t) && t / MINUTE > 0
    ensures Decide(c, Run(c, front).windows, ip, t).admitted ==>
      var a, minute := Run(c, front).admitted, t / MINUTE;
      !AtLimit(c, Bucket(minute, InMinute(front, a, ip, minute), InMinute(front, a, ip, minute - 1)), t)
  {
    AdmittedIff(c, front, ip, t);
    hide InMinute, Run, Decide;
  }

  lemma FullPrevious(c: Config, prev: nat, cur: nat, t: nat)
    requires c.maxPerMinute >= 30_000 && t % MINUTE <= 59_998 && prev >= c.maxPerMinute && cur + 1 >= c.maxPerMinute
    ensures AtLimit(c, Bucket(t / MINUTE, cur, prev), t)
  {
    var left := MINUTE - t % MINUTE;
    AtLeastTwice(prev, left);
    assert AtLimit(c, Bucket(t / MINUTE, cur, prev), t) == (prev * left + cur * MINUTE >= c.maxPerMinute * MINUTE);
  }

  lemma AtLeastTwice(a: nat, b: nat)
    requires b >= 2
    ensures a * b >= 2 * a
  {
  }

  /** The number of tracked addresses never passes the cap. */
  lemma {:induction false} TrackedAddressesCapped(c: Config, events: seq<Event>)
    ensures |Run(c, events).windows| <= c.maxTrackedIps
  {
    if events != [] {
      var w := Run(c, events[..|events| - 1]).windows;
      TrackedAddressesCapped(c, events[..|events| - 1]);
      match events[|events| - 1] {
        case Request(ip, t) =>
          var w' := Decide(c, w, ip, t).windows;
          if ip in w {
            assert w'.Keys == w.Keys;
          } else if |w| < c.maxTrackedIps {
            assert w'.Keys == w.Keys + {ip};
          }
        case SweepAt(t) => SweptIsSmaller(w, t / MINUTE);
      }
    }
  }

  lemma SweptIsSmaller(w: Windows, minute: nat)
    ensures |Swept(w, minute)| <= |w|
  {
    KeySetsOrdered(Swept(w, minute).Keys, w.Keys);
  }

  lemma {:induction false} KeySetsOrdered(a: set<string>, b: set<string>)
    requires a <= b
    ensures |a| <= |b|
    decreases b
  {
    if a != {} {
      var x :| x in a;
      KeySetsOrdered(a - {x}, b - {x});
    }
  }

  // ----- sweeping decides nothing -----

  /** The requests of a history, without its sweeps. */
  function Requests(events: seq<Event>): seq<Event> {
    if events == [] then []
    else Requests(events[..|events| - 1]) + if events[|events| - 1].Request? then [events[|events| - 1]] else []
  }

  /** The answers to the requests of a history. */
  function Answers(events: seq<Event>, admitted: seq<bool>): seq<bool>
    requires |admitted| == |events|
  {
    if events == [] then []
    else
      var n := |events| - 1;
      Answers(events[..n], admitted[..n]) + if events[n].Request? then [admitted[n]] else []
  }

  /** The history without sweeps never meets the cap. */
  ghost predicate NeverFull(c: Config, requests: seq<Event>) {
    forall k :: 0 <= k < |requests| ==> |Run(c, requests[..k]).windows| < c.maxTrackedIps
  }

  /** `swept` is `full` with some stale buckets missing. */
  ghost predicate SameButStale(swept: Windows, full: Windows, minute: nat) {
    && swept.Keys <= full.Keys
    && forall ip :: ip in full ==> if ip in swept then swept[ip] == full[ip] else Stale(full[ip], minute)
  }

  lemma SameDecision(c: Config, swept: Windows, full: Windows, ip: string, t: nat)
    requires SameButStale(swept, full, t / MINUTE) && |full| < c.maxTrackedIps
    ensures var a, b := Decide(c, swept, ip, t), Decide(c, full, ip, t);
      a.admitted == b.admitted && SameButStale(a.windows, b.windows, t / MINUTE)
  {
    KeySetsOrdered(swept.Keys, full.Keys);
  }

  lemma StaleLater(swept: Windows, full: Windows, minute: nat)
    requires SameButStale(swept, full, minute)
    ensures forall later: nat :: later >= minute ==> SameButStale(swept, full, later)
  {
  }

  lemma SweepStale(swept: Windows, full: Windows, minute: nat)
    requires SameButStale(swept, full, minute)
    ensures SameButStale(Swept(swept, minute), full, minute)
  {
  }

  lemma {:induction false} SweptRunAgrees(c: Config, events: seq<Event>)
    requires Nondecreasing(events) && NeverFull(c, Requests(events))
    ensures var a, b := Run(c, events), Run(c, Requests(events));
      && Answers(events, a.admitted) == b.admitted
      && forall minute: nat :: (events != [] ==> minute >= events[|events| - 1].t / MINUTE) ==>
           SameButStale(a.windows, b.windows, minute)
  {
    if events != [] {
      var n := |events| - 1;
      var front, r := events[..n], Requests(events[..n]);
      var e := events[n];
      if e.Request? {
        assert Requests(events)[..|r|] == r;
        assert forall k :: 0 <= k < |r| ==> r[..k] == Requests(events)[..k];
      } else {
        assert Requests(events) == r;
      }
      hide Decide, SameButStale;
      SweptRunAgrees(c, front);
      assert SameButStale(Run(c, front).windows, Run(c, r).windows, e.t / MINUTE);
      assert Run(c, events).admitted[..n] == Run(c, front).admitted;
      if e.Request? {
        SameDecision(c, Run(c, front).windows, Run(c, r).windows, e.ip, e.t);
        StaleLater(Run(c, events).windows, Run(c, Requests(events)).windows, e.t / MINUTE);
      } else {
        SweepStale(Run(c, front).windows, Run(c, r).windows, e.t / MINUTE);
        StaleLater(Run(c, events).windows, Run(c, Requests(events)).windows, e.t / MINUTE);
      }
    }
  }

  /** Below the cap, where sweeps are placed and how many there are changes no answer. */
  lemma SweepsDecideNothing(c: Config, a: seq<Event>, b: seq<Event>)
    requires Nondecreasing(a) && Nondecreasing(b) && Requests(a) == Requests(b) && NeverFull(c, Requests(a))
    ensures Answers(a, Run(c, a).admitted) == Answers(b, Run(c, b).admitted)
  {
    SweptRunAgrees(c, a);
    SweptRunAgrees(c, b);
  }
}

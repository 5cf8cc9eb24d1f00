/** The time-weighted count of active connections between two snapshots. */
module ActiveWindow {
  /** Clock readings are in nanoseconds. */
  datatype Window = Window(current: nat, min: nat, max: nat, weighted: nat, started: nat, last: nat)

  /** What a snapshot reports; the average is `weighted` divided by `elapsed`, which is at least 1. */
  datatype Report = Report(current: nat, weighted: nat, elapsed: nat, min: nat, max: nat)

  function Fresh(now: nat): Window
  {
    Window(0, 0, 0, 0, now, now)
  }

  function Min(a: nat, b: nat): nat
  {
    if a <= b then a else b
  }

  function Max(a: nat, b: nat): nat
  {
    if a >= b then a else b
  }

  /** The time from `earlier` to `now`, or nothing when the clock reading is older. */
  function Since(now: nat, earlier: nat): nat
  {
    if now > earlier then now - earlier else 0
  }

  function AccountUntil(w: Window, now: nat): Window
  {
    w.(weighted := w.weighted + Since(now, w.last) * w.current, last := now)
  }

  function Opened(w: Window, now: nat): Window
  {
    var a := AccountUntil(w, now);
    a.(current := a.current + 1, min := Min(a.min, a.current + 1), max := Max(a.max, a.current + 1))
  }

  function Closed(w: Window, now: nat): Window
  {
    var a := AccountUntil(w, now);
    var current := if a.current == 0 then 0 else a.current - 1;
    a.(current := current, min := Min(a.min, current))
  }

  function Reported(w: Window, now: nat): Report
  {
    var a := AccountUntil(w, now);
    Report(a.current, a.weighted, Max(Since(now, a.started), 1), a.min, a.max)
  }

  function Restarted(w: Window, now: nat): Window
  {
    var a := AccountUntil(w, now);
    a.(weighted := 0, started := now, min := a.current, max := a.current)
  }

  class ActiveCounter {
    var current: nat
    var min: nat
    var max: nat
    var weighted: nat
    var started: nat
    var last: nat

    function Now(): Window
      reads this
    {
      Window(current, min, max, weighted, started, last)
    }

    constructor (now: nat)
      ensures Now() == Fresh(now)
    {
      current, min, max, weighted, started, last := 0, 0, 0, 0, now, now;
    }

    method Account(now: nat)
      modifies this`weighted, this`last
      ensures Now() == AccountUntil(old(Now()), now)
    {
      weighted := weighted + Since(now, last) * current;
      last := now;
    }

    method Open(now: nat)
      modifies this
      ensures Now() == Opened(old(Now()), now)
    {
      Account(now);
      current := current + 1;
      min := Min(min, current);
      max := Max(max, current);
    }

    method Close(now: nat)
      modifies this
      ensures Now() == Closed(old(Now()), now)
    {
      Account(now);
      current := if current == 0 then 0 else current - 1;
      min := Min(min, current);
    }

    method Snapshot(now: nat) returns (r: Report)
      modifies this
      ensures r == Reported(old(Now()), now) && Now() == Restarted(old(Now()), now)
    {
      Account(now);
      var elapsed := Max(Since(now, started), 1);
      r := Report(current, weighted, elapsed, min, max);
      weighted := 0;
      started := now;
      min := current;
      max := current;
    }
  }

  // ----- Runs

  /** What happens to the counter, in the order in which its lock is taken, with the clock readings. */
  datatype Event = Open(at: nat) | Close(at: nat) | Snapshot(at: nat)

  datatype Run = Run(window: Window, reports: seq<Report>)

  function Apply(r: Run, e: Event): Run
  {
    match e
    case Open(now) => r.(window := Opened(r.window, now))
    case Close(now) => r.(window := Closed(r.window, now))
    case Snapshot(now) => Run(Restarted(r.window, now), r.reports + [Reported(r.window, now)])
  }

  function RunOf(start: nat, events: seq<Event>): Run
  {
    if events == [] then Run(Fresh(start), []) else Apply(RunOf(start, events[..|events| - 1]), events[|events| - 1])
  }

  // ----- What a window should say

  function Change(e: Event): int
  {
    match e
    case Open(_) => 1
    case Close(_) => -1
    case Snapshot(_) => 0
  }

  /** The number of open connections after the events. */
  function Level(events: seq<Event>): int
  {
    if events == [] then 0 else Level(events[..|events| - 1]) + Change(events[|events| - 1])
  }

  /** The number of open connections at time `t`: only the events up to then count. */
  function LevelAt(events: seq<Event>, t: nat): int
  {
    if events == [] then 0
    else
      var last := events[|events| - 1];
      LevelAt(events[..|events| - 1], t) + if last.at <= t then Change(last) else 0
  }

  /** The integral of the number of open connections over the nanoseconds of [from, to). */
  function Area(events: seq<Event>, from: nat, to: nat): int
    decreases to - from
  {
    if from >= to then 0 else Area(events, from, to - 1) + LevelAt(events, to - 1)
  }

  /** Clock readings do not decrease, from `start` on. */
  ghost predicate Ordered(start: nat, events: seq<Event>)
  {
    events != [] ==>
      var init := events[..|events| - 1];
      Ordered(start, init) && LastTime(start, init) <= events[|events| - 1].at
  }

  function LastTime(start: nat, events: seq<Event>): nat
  {
    if events == [] then start else events[|events| - 1].at
  }

  /** Only open connections are closed. */
  ghost predicate Proper(events: seq<Event>)
  {
    events != [] ==> Proper(events[..|events| - 1]) && Level(events) >= 0
  }

  // ----- The integral

  lemma {:induction false} LevelIsReached(start: nat, events: seq<Event>, t: nat)
    requires Ordered(start, events) && LastTime(start, events) <= t
    ensures LevelAt(events, t) == Level(events)
  {
    if events != [] {
      LevelIsReached(start, events[..|events| - 1], t);
    }
  }

  lemma {:induction false} AreaSplit(events: seq<Event>, a: nat, b: nat, c: nat)
    requires a <= b <= c
    ensures Area(events, a, c) == Area(events, a, b) + Area(events, b, c)
    decreases c - b
  {
    if b < c {
      AreaSplit(events, a, b, c - 1);
    }
  }

  lemma {:induction false} AreaIsSteady(start: nat, events: seq<Event>, a: nat, b: nat)
    requires Ordered(start, events) && LastTime(start, events) <= a <= b
    ensures Area(events, a, b) == (b - a) * Level(events)
    decreases b - a
  {
    if a < b {
      AreaIsSteady(start, events, a, b - 1);
      LevelIsReached(start, events, b - 1);
      var n := Level(events);
      assert (b - 1 - a) * n + n == (b - a) * n;
    }
  }

  lemma {:induction false} AreaBefore(events: seq<Event>, e: Event, a: nat, b: nat)
    requires b <= e.at
    ensures Area(events + [e], a, b) == Area(events, a, b)
    decreases b - a
  {
    if a < b {
      AreaBefore(events, e, a, b - 1);
      assert (events + [e])[..|events + [e]| - 1] == events;
    }
  }

  function Total(reports: seq<Report>): nat
  {
    if reports == [] then 0 else Total(reports[..|reports| - 1]) + reports[|reports| - 1].weighted
  }

  /** What a run keeps: the count is right, the current window holds the integral since it started, and
      the windows together hold the integral since the start. */
  ghost predicate Accounted(start: nat, events: seq<Event>, r: Run)
  {
    && r.window.current == Level(events) && r.window.last == LastTime(start, events)
    && start <= r.window.started <= r.window.last
    && r.window.weighted == Area(events, r.window.started, r.window.last)
    && Total(r.reports) == Area(events, start, r.window.started)
  }

  /** Time passes: the integral grows by the constant level. */
  lemma TimePasses(start: nat, events: seq<Event>, r: Run, e: Event)
    requires Ordered(start, events + [e]) && Accounted(start, events, r)
    ensures LastTime(start, events) <= e.at
    ensures AccountUntil(r.window, e.at).weighted == Area(events + [e], r.window.started, e.at)
    ensures Area(events + [e], start, r.window.started) == Area(events, start, r.window.started)
  {
    var all := events + [e];
    assert all[..|all| - 1] == events;
    AreaBefore(events, e, r.window.started, e.at);
    AreaBefore(events, e, start, r.window.started);
    AreaSplit(events, r.window.started, r.window.last, e.at);
    AreaIsSteady(start, events, r.window.last, e.at);
  }

  lemma ReportsGrow(reports: seq<Report>, r: Report)
    ensures Total(reports + [r]) == Total(reports) + r.weighted
  {
    var all := reports + [r];
    assert all[..|all| - 1] == reports;
  }

  lemma LevelGrows(events: seq<Event>, e: Event)
    ensures Level(events + [e]) == Level(events) + Change(e)
    ensures forall t: nat :: LevelAt(events + [e], t) == LevelAt(events, t) + if e.at <= t then Change(e) else 0
  {
    var all := events + [e];
    assert all[..|all| - 1] == events;
  }

  lemma ApplyKeepsAccounted(start: nat, events: seq<Event>, r: Run, e: Event)
    requires Ordered(start, events + [e]) && Level(events + [e]) >= 0 && Accounted(start, events, r)
    ensures Accounted(start, events + [e], Apply(r, e))
  {
    TimePasses(start, events, r, e);
    LevelGrows(events, e);
    if e.Snapshot? {
      ReportsGrow(r.reports, Reported(r.window, e.at));
      AreaSplit(events + [e], start, r.window.started, e.at);
    }
  }

  /** Over any ordered run, current is opens minus closes, the weighted time is the integral of the
      number of open connections since the window started, and the reported integrals add up. */
  lemma {:induction false} RunIsAccounted(start: nat, events: seq<Event>)
    requires Ordered(start, events) && Proper(events)
    ensures Accounted(start, events, RunOf(start, events))
  {
    if events != [] {
      var init, e := events[..|events| - 1], events[|events| - 1];
      RunIsAccounted(start, init);
      assert init + [e] == events;
      ApplyKeepsAccounted(start, init, RunOf(start, init), e);
    }
  }

  // ----- The average lies between the extremes

  /** All values in the current window lie between its extremes. */
  ghost predicate Bounded(events: seq<Event>, w: Window)
  {
    && w.min <= w.current <= w.max
    && forall t: nat :: w.started <= t < w.last ==> w.min <= LevelAt(events, t) <= w.max
  }

  lemma {:induction false} AreaBounds(events: seq<Event>, a: nat, b: nat, low: nat, high: nat)
    requires a <= b && forall t: nat :: a <= t < b ==> low <= LevelAt(events, t) <= high
    ensures low * (b - a) <= Area(events, a, b) <= high * (b - a)
    decreases b - a
  {
    if a < b {
      AreaBounds(events, a, b - 1, low, high);
      assert low * (b - a) == low * (b - 1 - a) + low;
      assert high * (b - a) == high * (b - 1 - a) + high;
    }
  }

  lemma LevelsStayBounded(start: nat, events: seq<Event>, r: Run, e: Event)
    requires Ordered(start, events + [e]) && Accounted(start, events, r) && Bounded(events, r.window)
    ensures forall t: nat :: r.window.started <= t < e.at ==> r.window.min <= LevelAt(events + [e], t) <= r.window.max
  {
    LevelGrows(events, e);
    var all := events + [e];
    assert all[..|all| - 1] == events;
    forall t: nat | r.window.started <= t < e.at
      ensures r.window.min <= LevelAt(events + [e], t) <= r.window.max
    {
      if t >= r.window.last {
        LevelIsReached(start, events, t);
      }
    }
  }

  lemma ApplyKeepsBounded(start: nat, events: seq<Event>, r: Run, e: Event)
    requires Ordered(start, events + [e]) && Level(events + [e]) >= 0
    requires Accounted(start, events, r) && Bounded(events, r.window)
    ensures Bounded(events + [e], Apply(r, e).window)
  {
    LevelsStayBounded(start, events, r, e);
    LevelGrows(events, e);
  }

  lemma {:induction false} RunIsBounded(start: nat, events: seq<Event>)
    requires Ordered(start, events) && Proper(events)
    ensures Bounded(events, RunOf(start, events).window)
  {
    if events != [] {
      var init, e := events[..|events| - 1], events[|events| - 1];
      RunIsAccounted(start, init);
      RunIsBounded(start, init);
      assert init + [e] == events;
      ApplyKeepsBounded(start, init, RunOf(start, init), e);
    }
  }

  function Average(r: Report): real
    requires r.elapsed > 0
  {
    r.weighted as real / r.elapsed as real
  }

  lemma AverageBetween(r: Report)
    requires r.elapsed > 0 && r.min * r.elapsed <= r.weighted <= r.max * r.elapsed
    ensures r.min as real <= Average(r) <= r.max as real
  {
    var n, w := r.elapsed as real, r.weighted as real;
    assert (r.min * r.elapsed) as real == r.min as real * n;
    assert (r.max * r.elapsed) as real == r.max as real * n;
    assert Average(r) * n == w;
    if Average(r) < r.min as real {
      ProductOrder(Average(r), r.min as real, n);
    }
    if Average(r) > r.max as real {
      ProductOrder(r.max as real, Average(r), n);
    }
  }

  lemma ProductOrder(a: real, b: real, n: real)
    requires a < b && n > 0.0
    ensures a * n < b * n
  {
  }

  lemma AverageIff(r: Report, lasted: nat)
    requires r.elapsed == Max(lasted, 1) && r.min * lasted <= r.weighted <= r.max * lasted
    ensures r.min as real <= Average(r) <= r.max as real <==> lasted > 0 || r.min == 0
  {
    if lasted > 0 {
      AverageBetween(r);
    } else {
      assert r.min * lasted == 0 && r.max * lasted == 0;
      assert Average(r) == 0.0;
    }
  }

  lemma SnapshotBounds(start: nat, events: seq<Event>, now: nat)
    requires Ordered(start, events + [Snapshot(now)]) && Proper(events)
    ensures var w := RunOf(start, events).window;
            && w.started <= now && w.current == Level(events)
            && AccountUntil(w, now).weighted == Area(events + [Snapshot(now)], w.started, now)
            && w.min * (now - w.started) <= AccountUntil(w, now).weighted <= w.max * (now - w.started)
  {
    var run, e := RunOf(start, events), Snapshot(now);
    assert (events + [e])[..|events + [e]| - 1] == events;
    RunIsAccounted(start, events);
    RunIsBounded(start, events);
    TimePasses(start, events, run, e);
    LevelsStayBounded(start, events, run, e);
    AreaBounds(events + [e], run.window.started, now, run.window.min, run.window.max);
  }

  /** What a snapshot reports after any ordered run: the integral over the window; and an average
      between the extremes, exactly when the window has lasted or its minimum is zero. */
  lemma SnapshotMeans(start: nat, events: seq<Event>, now: nat)
    requires Ordered(start, events + [Snapshot(now)]) && Proper(events)
    ensures var w := RunOf(start, events).window;
            var r := Reported(w, now);
            && r.current == Level(events)
            && r.weighted == Area(events + [Snapshot(now)], w.started, now)
            && (r.min as real <= Average(r) <= r.max as real <==> now > w.started || r.min == 0)
  {
    SnapshotBounds(start, events, now);
    var w := RunOf(start, events).window;
    AverageIff(Reported(w, now), now - w.started);
  }

  /** The order of clock readings matters: a reading taken before another one but accounted after it
      makes the time between them count twice, unless no connection is open. */
  lemma OldReadingCountsTwice(w: Window, late: nat, now: nat)
    requires w.last <= late < now
    ensures var once, twice := AccountUntil(w, now), AccountUntil(AccountUntil(AccountUntil(w, now), late), now);
            && twice.weighted == once.weighted + (now - late) * w.current
            && (twice == once <==> w.current == 0)
  {
    var again := (now - late) * w.current;
    var first := AccountUntil(w, now);
    assert Since(late, first.last) * first.current == 0;
    var second := AccountUntil(first, late);
    assert second == first.(last := late);
    assert AccountUntil(second, now) == first.(weighted := first.weighted + again);
    Product(now - late, w.current);
  }

  lemma Product(a: nat, b: nat)
    requires a > 0
    ensures a * b == 0 <==> b == 0
  {
  }
}

/** How many virtual clients a scenario asks for at a time: stages that hold or ramp. */
module LoadSchedule {
  datatype Mode = Hold | Ramp

  datatype Stage = Stage(seconds: nat, mode: Mode, target: nat, included: bool)

  /** A plain scenario has no stages, one duration and one number of clients. */
  datatype Scenario = Scenario(stages: seq<Stage>, seconds: nat, clients: nat)

  /** The stage, the number of clients, and whether the results count. */
  datatype Load = Load(index: nat, target: nat, included: bool)

  const MAX: nat := 0xffff_ffff_ffff_ffff

  /** Unsigned 64-bit arithmetic that stops at its limit. */
  function Saturated(n: nat): nat
  {
    if n > MAX then MAX else n
  }

  const MAX_CLIENTS: nat := 0xffff_ffff

  /** To the nearest whole number, halves upwards, within the range of an unsigned 32-bit number. */
  function Round(x: real): nat
  {
    if x < 0.0 then 0 else if (x + 0.5).Floor > MAX_CLIENTS then MAX_CLIENTS else (x + 0.5).Floor
  }

  /** The nearest whole number, the upper one of two, within 32 bits. */
  lemma {:induction false} RoundMeans(x: real)
    ensures x < 0.0 ==> Round(x) == 0
    ensures 0.0 <= x < 4294967295.0 ==> Round(x) as real - 0.5 <= x < Round(x) as real + 0.5
    ensures x >= 4294967295.0 ==> Round(x) == 4294967295
  {
  }

  lemma {:induction false} SaturatedMeans(n: nat)
    ensures n <= 18446744073709551615 ==> Saturated(n) == n
    ensures n >= 18446744073709551615 ==> Saturated(n) == 18446744073709551615
  {
  }

  function Milliseconds(s: Stage): nat
  {
    Saturated(s.seconds * 1000)
  }

  /** The value a part `p` of the way between two others. */
  function Mix(from: real, to: real, p: real): real
  {
    from + (to - from) * p
  }

  function RampTarget(previous: nat, target: nat, elapsed: nat, duration: nat): nat
    requires duration > 0
  {
    Round(Mix(previous as real, target as real, elapsed as real / duration as real))
  }

  function StageTarget(s: Stage, previous: nat, elapsed: nat): nat
  {
    if s.mode == Ramp && Milliseconds(s) > 0 then RampTarget(previous, s.target, elapsed, Milliseconds(s)) else s.target
  }

  /** From stage `i` on, which starts at `start` after a stage with target `previous`. */
  function LoadFrom(stages: seq<Stage>, i: nat, start: nat, previous: nat, elapsed: nat): Load
    requires i < |stages|
    decreases |stages| - i
  {
    var s := stages[i];
    var end := Saturated(start + Milliseconds(s));
    if elapsed < end || i + 1 == |stages| then
      Load(i, StageTarget(s, previous, if elapsed > start then elapsed - start else 0), s.included)
    else LoadFrom(stages, i + 1, end, s.target, elapsed)
  }

  function LoadAt(c: Scenario, elapsed: nat): Load
  {
    if c.stages == [] then Load(0, c.clients, true) else LoadFrom(c.stages, 0, 0, 0, elapsed)
  }

  /** Without stages a scenario asks for its one number of clients all the time. */
  lemma {:induction false} PlainLoad(c: Scenario, elapsed: nat)
    requires c.stages == []
    ensures LoadAt(c, elapsed) == Load(0, c.clients, true)
  {
  }

  method FindLoad(c: Scenario, elapsed: nat) returns (r: Load)
    ensures r == LoadAt(c, elapsed)
  {
    if c.stages == [] {
      return Load(0, c.clients, true);
    }
    var start: nat, previous: nat, i: nat := 0, 0, 0;
    while true
      invariant i < |c.stages|
      invariant LoadFrom(c.stages, i, start, previous, elapsed) == LoadAt(c, elapsed)
      decreases |c.stages| - i
    {
      var s := c.stages[i];
      var duration := Milliseconds(s);
      var end := Saturated(start + duration);
      if elapsed < end || i + 1 == |c.stages| {
        var target := s.target;
        if s.mode == Ramp && duration > 0 {
          target := RampTarget(previous, s.target, if elapsed > start then elapsed - start else 0, duration);
        }
        return Load(i, target, s.included);
      }
      start := end;
      previous := s.target;
      i := i + 1;
    }
  }

  function Seconds(stages: seq<Stage>): nat
  {
    if stages == [] then 0 else stages[0].seconds + Seconds(stages[1..])
  }

  function EffectiveDuration(c: Scenario): nat
  {
    if c.stages == [] then c.seconds else Seconds(c.stages)
  }

  function Highest(stages: seq<Stage>): nat
  {
    if stages == [] then 0
    else
      var rest := Highest(stages[1..]);
      if stages[0].target > rest then stages[0].target else rest
  }

  /** The number of workers that are started. */
  function MaximumClients(c: Scenario): nat
  {
    if c.stages == [] then c.clients else Highest(c.stages)
  }

  // ----- What the schedule should say

  /** Every stage lasts, targets are 32-bit numbers, and no time overflows. */
  ghost predicate Valid(c: Scenario)
  {
    && (forall i :: 0 <= i < |c.stages| ==> c.stages[i].seconds > 0 && c.stages[i].target <= MAX_CLIENTS)
    && Seconds(c.stages) * 1000 <= MAX
  }

  /** The first `i` stages, in milliseconds. */
  function Before(stages: seq<Stage>, i: nat): nat
    requires i <= |stages|
  {
    Seconds(stages[..i]) * 1000
  }

  function Previous(stages: seq<Stage>, i: nat): nat
    requires i <= |stages|
  {
    if i == 0 then 0 else stages[i - 1].target
  }

  lemma {:induction false} SecondsAdd(a: seq<Stage>, b: seq<Stage>)
    ensures Seconds(a + b) == Seconds(a) + Seconds(b)
  {
    if a == [] {
      assert a + b == b;
    } else {
      assert (a + b)[1..] == a[1..] + b;
      SecondsAdd(a[1..], b);
    }
  }

  lemma BeforeGrows(stages: seq<Stage>, i: nat)
    requires i < |stages|
    ensures Before(stages, i + 1) == Before(stages, i) + stages[i].seconds * 1000
    ensures Before(stages, i + 1) <= Seconds(stages) * 1000
  {
    assert stages[..i + 1] == stages[..i] + [stages[i]];
    SecondsAdd(stages[..i], [stages[i]]);
    assert [stages[i]][1..] == [];
    assert stages == stages[..i + 1] + stages[i + 1..];
    SecondsAdd(stages[..i + 1], stages[i + 1..]);
  }

  lemma {:induction false} BeforeIsMonotone(stages: seq<Stage>, i: nat, j: nat)
    requires i <= j <= |stages|
    ensures Before(stages, i) <= Before(stages, j)
    decreases j - i
  {
    if i < j {
      BeforeGrows(stages, j - 1);
      BeforeIsMonotone(stages, i, j - 1);
    }
  }

  /** Stage `k` is the one in whose time `elapsed` falls; the end of the schedule belongs to the last. */
  ghost predicate IsStage(stages: seq<Stage>, k: nat, elapsed: nat)
  {
    && k < |stages| && Before(stages, k) <= elapsed
    && (elapsed < Before(stages, k + 1) || k + 1 == |stages|)
  }

  lemma EndOfStage(c: Scenario, i: nat)
    requires Valid(c) && i < |c.stages|
    ensures Saturated(Before(c.stages, i) + Milliseconds(c.stages[i])) == Before(c.stages, i + 1)
  {
    BeforeGrows(c.stages, i);
  }

  /** The load that the schedule prescribes at a time. */
  ghost predicate Prescribed(c: Scenario, r: Load, elapsed: nat)
  {
    && IsStage(c.stages, r.index, elapsed)
    && r.target == StageTarget(c.stages[r.index], Previous(c.stages, r.index), elapsed - Before(c.stages, r.index))
    && r.included == c.stages[r.index].included
  }

  lemma StageLoad(c: Scenario, i: nat, elapsed: nat)
    requires Valid(c) && IsStage(c.stages, i, elapsed)
    ensures Prescribed(c, LoadFrom(c.stages, i, Before(c.stages, i), Previous(c.stages, i), elapsed), elapsed)
  {
    EndOfStage(c, i);
  }

  lemma NextStage(c: Scenario, i: nat, elapsed: nat)
    requires Valid(c) && i + 1 < |c.stages| && Before(c.stages, i + 1) <= elapsed
    ensures LoadFrom(c.stages, i, Before(c.stages, i), Previous(c.stages, i), elapsed)
         == LoadFrom(c.stages, i + 1, Before(c.stages, i + 1), Previous(c.stages, i + 1), elapsed)
  {
    EndOfStage(c, i);
  }

  lemma {:induction false} LoadFromMeans(c: Scenario, i: nat, elapsed: nat)
    requires Valid(c) && i < |c.stages| && Before(c.stages, i) <= elapsed
    ensures Prescribed(c, LoadFrom(c.stages, i, Before(c.stages, i), Previous(c.stages, i), elapsed), elapsed)
    decreases |c.stages| - i
  {
    if elapsed < Before(c.stages, i + 1) || i + 1 == |c.stages| {
      StageLoad(c, i, elapsed);
    } else {
      NextStage(c, i, elapsed);
      LoadFromMeans(c, i + 1, elapsed);
    }
  }

  /** The stage is the one given by the cumulative durations, and the target is that stage's. */
  lemma LoadMeans(c: Scenario, elapsed: nat)
    requires Valid(c) && c.stages != []
    ensures Prescribed(c, LoadAt(c, elapsed), elapsed)
  {
    assert c.stages[..0] == [];
    LoadFromMeans(c, 0, elapsed);
  }

  lemma StageIsUnique(stages: seq<Stage>, j: nat, k: nat, elapsed: nat)
    requires IsStage(stages, j, elapsed) && IsStage(stages, k, elapsed)
    ensures j == k
  {
    if j < k {
      BeforeIsMonotone(stages, j + 1, k);
    } else if k < j {
      BeforeIsMonotone(stages, k + 1, j);
    }
  }

  /** Time never leads back to an earlier stage. */
  lemma IndexNeverDecreases(c: Scenario, earlier: nat, later: nat)
    requires Valid(c) && c.stages != [] && earlier <= later
    ensures LoadAt(c, earlier).index <= LoadAt(c, later).index
  {
    LoadMeans(c, earlier);
    LoadMeans(c, later);
    var j, k := LoadAt(c, earlier).index, LoadAt(c, later).index;
    if k < j {
      BeforeIsMonotone(c.stages, k + 1, j);
    }
  }

  // ----- Ramps

  lemma RoundIsMonotone(x: real, y: real)
    requires x <= y
    ensures Round(x) <= Round(y)
  {
  }

  lemma RoundKeepsWhole(n: nat)
    requires n <= MAX_CLIENTS
    ensures Round(n as real) == n
  {
  }

  lemma ScaleOrder(a: real, b: real, n: real)
    requires a < b && n > 0.0
    ensures a * n < b * n
  {
  }

  lemma ScaleBelow(a: real, b: real, n: real)
    requires n > 0.0
    ensures a < b <==> a * n < b * n
  {
    if a < b {
      ScaleOrder(a, b, n);
    } else if b < a {
      ScaleOrder(b, a, n);
    }
  }

  lemma Ratio(a: nat, d: nat)
    requires d > 0
    ensures a as real / d as real * d as real == a as real && a as real / d as real >= 0.0
  {
    ScaleBelow(a as real / d as real, 0.0, d as real);
  }

  /** The part of a stage that has passed lies between zero and one, and grows. */
  lemma Progress(a: nat, b: nat, duration: nat)
    requires a <= b <= duration && duration > 0
    ensures 0.0 <= a as real / duration as real <= b as real / duration as real <= 1.0
  {
    var d, x, y := duration as real, a as real / duration as real, b as real / duration as real;
    Ratio(a, duration);
    Ratio(b, duration);
    Ordered(x, y, d, a as real, b as real);
    Ordered(y, 1.0, d, b as real, duration as real);
  }

  lemma Ordered(x: real, y: real, d: real, a: real, b: real)
    requires d > 0.0 && x * d == a && y * d == b && a <= b
    ensures x <= y
  {
    if y < x {
      ScaleOrder(y, x, d);
    }
  }

  lemma ScaleUp(step: real, p: real, q: real)
    requires step >= 0.0 && p <= q
    ensures step * p <= step * q
  {
  }

  lemma Rising(from: real, to: real, p: real, q: real)
    requires from <= to && 0.0 <= p <= q <= 1.0
    ensures from <= Mix(from, to, p) <= Mix(from, to, q) <= to
  {
    var step := to - from;
    ScaleUp(step, 0.0, p);
    ScaleUp(step, p, q);
    ScaleUp(step, q, 1.0);
    assert step * 0.0 == 0.0;
    assert step * 1.0 == step;
    assert Mix(from, to, p) == from + step * p;
    assert Mix(from, to, q) == from + step * q;
  }

  lemma Falling(from: real, to: real, p: real, q: real)
    requires to <= from && 0.0 <= p <= q <= 1.0
    ensures to <= Mix(from, to, q) <= Mix(from, to, p) <= from
  {
    Rising(-from, -to, p, q);
    assert Mix(-from, -to, p) == -Mix(from, to, p) by {
      assert (-to - -from) * p == -((to - from) * p);
    }
    assert Mix(-from, -to, q) == -Mix(from, to, q) by {
      assert (-to - -from) * q == -((to - from) * q);
    }
  }

  lemma RoundChain(a: nat, x: real, y: real, b: nat)
    requires a as real <= x <= y <= b as real && b <= MAX_CLIENTS
    ensures a <= Round(x) <= Round(y) <= b
  {
    RoundKeepsWhole(a);
    RoundKeepsWhole(b);
    RoundIsMonotone(a as real, x);
    RoundIsMonotone(x, y);
    RoundIsMonotone(y, b as real);
  }

  /** A ramp goes one way, from the previous target to its own, and never beyond. */
  lemma RampIsMonotone(previous: nat, target: nat, a: nat, b: nat, duration: nat)
    requires a <= b <= duration && duration > 0 && previous <= MAX_CLIENTS && target <= MAX_CLIENTS
    ensures var x, y := RampTarget(previous, target, a, duration), RampTarget(previous, target, b, duration);
            if previous <= target then previous <= x <= y <= target else target <= y <= x <= previous
  {
    var p, q := a as real / duration as real, b as real / duration as real;
    Progress(a, b, duration);
    var x, y := Mix(previous as real, target as real, p), Mix(previous as real, target as real, q);
    if previous <= target {
      Rising(previous as real, target as real, p, q);
      RoundChain(previous, x, y, target);
    } else {
      Falling(previous as real, target as real, p, q);
      RoundChain(target, y, x, previous);
    }
  }

  /** A ramp starts at the previous target and ends at its own. */
  lemma RampEnds(previous: nat, target: nat, duration: nat)
    requires duration > 0 && previous <= MAX_CLIENTS && target <= MAX_CLIENTS
    ensures RampTarget(previous, target, 0, duration) == previous
            && RampTarget(previous, target, duration, duration) == target
  {
    var d := duration as real;
    assert 0 as real / d == 0.0 && d / d == 1.0;
    assert Mix(previous as real, target as real, 0.0) == previous as real;
    assert Mix(previous as real, target as real, 1.0) == target as real;
    RoundKeepsWhole(previous);
    RoundKeepsWhole(target);
  }

  ghost predicate Between(x: nat, a: nat, b: nat)
  {
    if a <= b then a <= x <= b else b <= x <= a
  }

  lemma {:induction false} HighestBounds(stages: seq<Stage>, i: nat)
    requires i < |stages|
    ensures stages[i].target <= Highest(stages)
  {
    if i > 0 {
      HighestBounds(stages[1..], i - 1);
    }
  }

  lemma WithinStage(c: Scenario, k: nat, elapsed: nat)
    requires Valid(c) && IsStage(c.stages, k, elapsed) && elapsed <= Seconds(c.stages) * 1000
    ensures elapsed - Before(c.stages, k) <= Milliseconds(c.stages[k]) && Milliseconds(c.stages[k]) > 0
    ensures Milliseconds(c.stages[k]) == c.stages[k].seconds * 1000
  {
    BeforeGrows(c.stages, k);
    if k + 1 == |c.stages| {
      assert c.stages[..k + 1] == c.stages;
    }
  }

  /** Within the schedule, the target lies between the previous stage's and its own, and never asks for
      more clients than there are workers. */
  lemma TargetIsBounded(c: Scenario, elapsed: nat)
    requires Valid(c) && elapsed <= EffectiveDuration(c) * 1000
    ensures var r := LoadAt(c, elapsed);
            && r.target <= MaximumClients(c)
            && (c.stages != [] ==> r.index < |c.stages|)
            && (c.stages != [] ==> Between(r.target, Previous(c.stages, r.index), c.stages[r.index].target))
  {
    if c.stages != [] {
      LoadMeans(c, elapsed);
      var k := LoadAt(c, elapsed).index;
      WithinStage(c, k, elapsed);
      HighestBounds(c.stages, k);
      if k > 0 {
        HighestBounds(c.stages, k - 1);
      }
      var a, d := elapsed - Before(c.stages, k), Milliseconds(c.stages[k]);
      RampIsMonotone(Previous(c.stages, k), c.stages[k].target, a, a, d);
    }
  }

  /** Within one stage the number of clients moves towards the stage's target and never back. */
  lemma StageIsMonotone(c: Scenario, earlier: nat, later: nat)
    requires Valid(c) && c.stages != [] && earlier <= later <= Seconds(c.stages) * 1000
    requires LoadAt(c, earlier).index == LoadAt(c, later).index
    ensures LoadAt(c, earlier).index < |c.stages|
    ensures var x, y, k := LoadAt(c, earlier).target, LoadAt(c, later).target, LoadAt(c, earlier).index;
            if Previous(c.stages, k) <= c.stages[k].target then x <= y else y <= x
  {
    LoadMeans(c, earlier);
    LoadMeans(c, later);
    var k := LoadAt(c, earlier).index;
    WithinStage(c, k, earlier);
    WithinStage(c, k, later);
    var d := Milliseconds(c.stages[k]);
    RampIsMonotone(Previous(c.stages, k), c.stages[k].target, earlier - Before(c.stages, k),
                   later - Before(c.stages, k), d);
  }

  // ----- Past the end

  lemma RoundAtMost(x: real, m: nat)
    requires x >= 0.0
    ensures Round(x) <= m <==> x + 0.5 < m as real + 1.0 || m >= MAX_CLIENTS
  {
  }

  /** A rising ramp, at any time, asks for at most `m` clients exactly within this bound. */
  lemma RisingAtMost(previous: nat, target: nat, a: nat, duration: nat, m: nat)
    requires previous <= target && previous <= m && duration > 0
    ensures RampTarget(previous, target, a, duration) <= m
       <==> 2 * ((target - previous) * a) < (2 * (m - previous) + 1) * duration || m >= MAX_CLIENTS
  {
    var step, q := (target - previous) as real, a as real / duration as real;
    var room := (m - previous) as real + 0.5;
    Ratio(a, duration);
    RampRounds(previous, target, q, m);
    Scaled(step, q, duration as real, a as real, room);
    Product(target - previous, a);
    InHalves(m - previous, duration);
    Compared((target - previous) * a, (2 * (m - previous) + 1) * duration, step * a as real, room * duration as real);
  }

  lemma RampRounds(previous: nat, target: nat, q: real, m: nat)
    requires previous <= target && previous <= m && q >= 0.0
    ensures Round(Mix(previous as real, target as real, q)) <= m
       <==> (target - previous) as real * q < (m - previous) as real + 0.5 || m >= MAX_CLIENTS
  {
    MixRises(previous, target, q);
    RoundAtMost(Mix(previous as real, target as real, q), m);
  }

  lemma MixRises(previous: nat, target: nat, q: real)
    requires previous <= target && q >= 0.0
    ensures Mix(previous as real, target as real, q) == previous as real + (target - previous) as real * q
    ensures (target - previous) as real * q >= 0.0
  {
    var step := (target - previous) as real;
    assert target as real - previous as real == step;
    ScaleUp(step, 0.0, q);
  }

  lemma Compared(x: int, y: int, rx: real, ry: real)
    requires rx == x as real && 2.0 * ry == y as real
    ensures rx < ry <==> 2 * x < y
  {
  }

  lemma Product(x: nat, y: nat)
    ensures (x * y) as real == x as real * y as real
  {
  }

  lemma Scaled(step: real, q: real, d: real, a: real, room: real)
    requires d > 0.0 && q * d == a
    ensures step * q < room <==> step * a < room * d
  {
    ScaleBelow(step * q, room, d);
    Regroup(step, q, d);
  }

  lemma Regroup(x: real, y: real, z: real)
    ensures x * y * z == x * (y * z)
  {
  }

  lemma InHalves(room: nat, d: nat)
    ensures 2.0 * ((room as real + 0.5) * d as real) == ((2 * room + 1) * d) as real
  {
    var twice: nat := 2 * room + 1;
    assert 2.0 * (room as real + 0.5) == twice as real;
    Regroup(2.0, room as real + 0.5, d as real);
    Product(twice, d);
  }

  lemma FallingStaysBelow(previous: nat, target: nat, a: nat, duration: nat)
    requires target <= previous && duration > 0 && a >= duration && target <= MAX_CLIENTS
    ensures RampTarget(previous, target, a, duration) <= target
  {
    var d, q := duration as real, a as real / duration as real;
    Ratio(a, duration);
    Ordered(1.0, q, d, d, a as real);
    Overfalls(previous as real, target as real, q);
    RoundKeepsWhole(target);
    RoundIsMonotone(Mix(previous as real, target as real, q), target as real);
  }

  lemma Overfalls(from: real, to: real, q: real)
    requires to <= from && 1.0 <= q
    ensures Mix(from, to, q) <= to
  {
    var step := from - to;
    ScaleUp(step, 1.0, q);
    Opposed(step, to - from, q);
  }

  lemma Opposed(x: real, y: real, q: real)
    requires x + y == 0.0
    ensures x * q + y * q == 0.0
  {
    assert x * q + y * q == (x + y) * q;
  }

  /** Rounding hides the overshoot of a rising stage `past` milliseconds after its start. */
  predicate Hidden(from: nat, last: Stage, past: int, most: nat)
  {
    2 * ((last.target - from) * past) < (2 * (most - from) + 1) * (last.seconds * 1000) || most >= MAX_CLIENTS
  }

  lemma LastStage(c: Scenario, elapsed: nat)
    requires Valid(c) && c.stages != [] && elapsed >= Seconds(c.stages) * 1000
    ensures var k := |c.stages| - 1;
            LoadAt(c, elapsed).index == k && elapsed >= Before(c.stages, k) + Milliseconds(c.stages[k])
    ensures Milliseconds(c.stages[|c.stages| - 1]) == c.stages[|c.stages| - 1].seconds * 1000 > 0
  {
    var k := |c.stages| - 1;
    BeforeGrows(c.stages, k);
    assert c.stages[..k + 1] == c.stages;
    LoadMeans(c, elapsed);
    StageIsUnique(c.stages, k, LoadAt(c, elapsed).index, elapsed);
  }

  /** At and past the end of the schedule the number of workers is kept exactly when the last stage holds
      or does not rise, or the overshoot is still within what rounding hides. */
  lemma PastEndWithinWorkersIff(c: Scenario, elapsed: nat)
    requires Valid(c) && c.stages != [] && elapsed >= Seconds(c.stages) * 1000
    ensures var k, last := |c.stages| - 1, c.stages[|c.stages| - 1];
            LoadAt(c, elapsed).target <= MaximumClients(c)
            <==> (last.mode == Hold
                  || last.target <= Previous(c.stages, k)
                  || Hidden(Previous(c.stages, k), last, elapsed - Before(c.stages, k), MaximumClients(c)))
  {
    var k := |c.stages| - 1;
    var last, from := c.stages[k], Previous(c.stages, k);
    LastStage(c, elapsed);
    LoadMeans(c, elapsed);
    HighestBounds(c.stages, k);
    if k > 0 {
      HighestBounds(c.stages, k - 1);
    }
    var past := elapsed - Before(c.stages, k);
    if last.mode == Ramp {
      if last.target <= from {
        FallingStaysBelow(from, last.target, past, Milliseconds(last));
      } else {
        RisingAtMost(from, last.target, past, Milliseconds(last), MaximumClients(c));
      }
    }
  }

  /** For instance, fifty milliseconds past the end of a ramp of one second from nothing to a hundred. */
  lemma RampGoesOnPastEnd()
    ensures var c := Scenario([Stage(1, Ramp, 100, true)], 0, 0);
            && Valid(c) && LoadAt(c, 1050).target == 105 && MaximumClients(c) == 100
  {
    var stage := Stage(1, Ramp, 100, true);
    assert [stage][1..] == [];
    assert RampTarget(0, 100, 1050, 1000) == 105;
  }
}

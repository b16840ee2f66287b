/** The performance controller: the speed decision of `decide_speed`, mode changes, and runs of the
    control loop. Arithmetic is over the reals, and `exp` is any function with the laws of the
    exponential. */
module Controllers {
  import opened Reals
  import opened Wrappers

  datatype Settings = Settings(
    dt: real, maxSpeed: real, minSpeed: real, target: real, kUp: real, kDown: real, smoothness: real,
    ki: real, kd: real, integralMax: real)

  /** The settings that pass validation. */
  predicate Accepted(cfg: Settings) {
    && cfg.dt >= 1.0 && cfg.maxSpeed > 0.0 && cfg.minSpeed > 0.0 && 0.0 <= cfg.target <= 1.0
    && cfg.kUp > 0.0 && cfg.smoothness > 0.0 && cfg.ki >= 0.0 && cfg.kd >= 0.0 && cfg.integralMax > 0.0
    && cfg.minSpeed <= cfg.maxSpeed && cfg.kDown > cfg.kUp
  }

  // Products and quotients of reals, one fact at a time

  function Times(x: real, y: real): real { x * y }

  function Sigmoid(a: real): (b: real)
    requires a > 0.0
    ensures 0.0 < b < 1.0
  {
    1.0 / (1.0 + a)
  }

  /** From `high` at 0 to `low` at 1. */
  function Mix(low: real, high: real, b: real): real {
    high + (low - high) * b
  }

  lemma TimesIncreases(x: real, y: real, k: real)
    requires k > 0.0
    ensures x < y ==> Times(x, k) < Times(y, k) && Times(k, x) < Times(k, y)
    ensures x <= y ==> Times(x, k) <= Times(y, k) && Times(k, x) <= Times(k, y)
  {
  }

  lemma TimesUnits(x: real, y: real)
    ensures Times(x, 0.0) == 0.0 == Times(0.0, x) && Times(x, 1.0) == x == Times(1.0, x)
    ensures Times(-x, y) == -Times(x, y) == Times(x, -y) && Times(-x, -y) == Times(x, y)
  {
  }

  lemma TimesAssociates(x: real, y: real, z: real)
    ensures Times(Times(x, y), z) == Times(x, Times(y, z))
  {
  }

  lemma UnitSquare(a: real)
    requires a > 0.0 && a == Times(a, a)
    ensures a == 1.0
  {
    assert a * (a - 1.0) == 0.0;
  }

  lemma Cancel(x: real, y: real)
    requires y > 0.0 && x * y == y
    ensures x == 1.0
  {
    assert (x - 1.0) * y == 0.0;
  }

  lemma SigmoidsOfInverses(a: real, b: real)
    requires a > 0.0 && b > 0.0 && Times(a, b) == 1.0
    ensures Sigmoid(a) + Sigmoid(b) == 1.0
  {
    var p, q := Sigmoid(a), Sigmoid(b);
    assert p * (1.0 + a) == 1.0 && q * (1.0 + b) == 1.0;
    assert (p + q) * ((1.0 + a) * (1.0 + b)) == (p * (1.0 + a)) * (1.0 + b) + (q * (1.0 + b)) * (1.0 + a);
    assert (1.0 + a) * (1.0 + b) == 2.0 + a + b;
    Cancel(p + q, 2.0 + a + b);
  }

  lemma SigmoidFalls(a: real, b: real)
    requires 0.0 < a < b
    ensures Sigmoid(b) < Sigmoid(a)
  {
    var p, q := Sigmoid(a), Sigmoid(b);
    assert p * (1.0 + a) == 1.0 && q * (1.0 + b) == 1.0;
    TimesIncreases(1.0 + a, 1.0 + b, q);
    TimesIncreases(p, q, 1.0 + a);
  }

  lemma MixFacts(low: real, high: real, b: real, c: real)
    requires low < high
    ensures 0.0 < b < 1.0 ==> low < Mix(low, high, b) < high
    ensures b + c == 1.0 ==> Mix(low, high, b) + Mix(low, high, c) == low + high
    ensures b < c ==> Mix(low, high, b) > Mix(low, high, c)
  {
    var k := high - low;
    assert Mix(low, high, b) == high - k * b && Mix(low, high, c) == high - k * c;
    assert k * b == Times(k, b) && k * c == Times(k, c);
    assert b + c == 1.0 ==> k * c == k - k * b;
    TimesUnits(k, b);
    TimesIncreases(0.0, b, k);
    TimesIncreases(b, 1.0, k);
    TimesIncreases(b, c, k);
    hide Mix, Times;
  }

  // The exponential

  /** Positive, strictly increasing, and taking sums to products. */
  ghost predicate IsExponential(exp: real -> real) {
    && (forall x :: exp(x) > 0.0)
    && (forall x, y :: x < y ==> exp(x) < exp(y))
    && (forall x, y :: exp(x + y) == exp(x) * exp(y))
  }

  lemma ExpIsPositive(exp: real -> real, x: real)
    requires IsExponential(exp)
    ensures exp(x) > 0.0
  {
  }

  lemma ExpIncreases(exp: real -> real, x: real, y: real)
    requires IsExponential(exp)
    ensures x < y <==> exp(x) < exp(y)
  {
  }

  lemma ExpOfSum(exp: real -> real, x: real, y: real)
    requires IsExponential(exp)
    ensures exp(x + y) == Times(exp(x), exp(y))
  {
  }

  lemma ExpOfZero(exp: real -> real)
    requires IsExponential(exp)
    ensures exp(0.0) == 1.0
  {
    hide IsExponential, Times;
    var zero := 0.0;
    ExpIsPositive(exp, zero);
    ExpOfSum(exp, zero, zero);
    assert exp(zero + zero) == exp(zero);
    UnitSquare(exp(zero));
  }

  lemma ExpOfNegative(exp: real -> real, x: real)
    requires IsExponential(exp)
    ensures Times(exp(x), exp(-x)) == 1.0
  {
    hide IsExponential, Times;
    ExpOfZero(exp);
    ExpOfSum(exp, x, -x);
    assert x + -x == 0.0;
  }

  // The proportional factor

  /** The sigmoid that blends the two gains. */
  function Blend(exp: real -> real, cfg: Settings, error: real): (b: real)
    requires IsExponential(exp)
    ensures 0.0 < b < 1.0
  {
    Sigmoid(exp(Times(-cfg.smoothness, error)))
  }

  function Gain(exp: real -> real, cfg: Settings, error: real): real
    requires IsExponential(exp)
  {
    Mix(cfg.kUp, cfg.kDown, Blend(exp, cfg, error))
  }

  function PFactor(exp: real -> real, cfg: Settings, error: real): real
    requires IsExponential(exp)
  {
    exp(Times(Gain(exp, cfg, error), error))
  }

  lemma BlendIsSymmetric(exp: real -> real, cfg: Settings, error: real)
    requires IsExponential(exp)
    ensures Blend(exp, cfg, error) + Blend(exp, cfg, -error) == 1.0
  {
    hide IsExponential;
    var x := Times(-cfg.smoothness, error);
    TimesUnits(-cfg.smoothness, error);
    ExpOfNegative(exp, x);
    ExpIsPositive(exp, x);
    ExpIsPositive(exp, -x);
    hide Times, Sigmoid;
    SigmoidsOfInverses(exp(x), exp(-x));
  }

  lemma BlendIncreases(exp: real -> real, cfg: Settings, e: real, f: real)
    requires IsExponential(exp) && cfg.smoothness > 0.0 && e < f
    ensures Blend(exp, cfg, e) < Blend(exp, cfg, f)
  {
    hide IsExponential;
    var s := cfg.smoothness;
    TimesIncreases(e, f, s);
    TimesUnits(s, e);
    TimesUnits(s, f);
    ExpIncreases(exp, Times(-s, f), Times(-s, e));
    ExpIsPositive(exp, Times(-s, f));
    hide Times, Sigmoid;
    SigmoidFalls(exp(Times(-s, f)), exp(Times(-s, e)));
  }

  /** The gain lies strictly between the two settings, falls as the error grows, and the gains for
      opposite errors have a constant sum. */
  lemma GainBlends(exp: real -> real, cfg: Settings, e: real, f: real)
    requires IsExponential(exp) && cfg.kDown > cfg.kUp && cfg.smoothness > 0.0
    ensures cfg.kUp < Gain(exp, cfg, e) < cfg.kDown
    ensures Gain(exp, cfg, e) + Gain(exp, cfg, -e) == cfg.kUp + cfg.kDown
    ensures e < f ==> Gain(exp, cfg, e) > Gain(exp, cfg, f)
  {
    hide IsExponential;
    BlendIsSymmetric(exp, cfg, e);
    if e < f { BlendIncreases(exp, cfg, e, f); }
    hide Blend, Mix;
    MixFacts(cfg.kUp, cfg.kDown, Blend(exp, cfg, e), Blend(exp, cfg, -e));
    MixFacts(cfg.kUp, cfg.kDown, Blend(exp, cfg, e), Blend(exp, cfg, f));
  }

  /** A cut outweighs the ramp for the opposite error. */
  lemma CutsOutweighRamps(exp: real -> real, cfg: Settings, error: real)
    requires IsExponential(exp) && cfg.smoothness > 0.0 && cfg.kDown > cfg.kUp && error != 0.0
    ensures Times(PFactor(exp, cfg, error), PFactor(exp, cfg, -error)) < 1.0
  {
    hide IsExponential;
    var g, h := Gain(exp, cfg, error), Gain(exp, cfg, -error);
    GainBlends(exp, cfg, error, -error);
    GainBlends(exp, cfg, -error, error);
    hide Gain, Times;
    if error > 0.0 {
      TimesIncreases(g, h, error);
    } else {
      TimesIncreases(h, g, -error);
    }
    TimesUnits(g, error);
    TimesUnits(h, error);
    var x, y := Times(g, error), Times(h, -error);
    assert x + y < 0.0 && PFactor(exp, cfg, error) == exp(x) && PFactor(exp, cfg, -error) == exp(y);
    hide PFactor;
    ExpOfSum(exp, x, y);
    ExpOfZero(exp);
    ExpIncreases(exp, x + y, 0.0);
  }

  /** Headroom above the target speeds up, headroom below it slows down. */
  lemma PFactorFollowsError(exp: real -> real, cfg: Settings, error: real)
    requires IsExponential(exp) && 0.0 < cfg.kUp < cfg.kDown && cfg.smoothness > 0.0
    ensures PFactor(exp, cfg, error) > 1.0 <==> error > 0.0
    ensures PFactor(exp, cfg, error) < 1.0 <==> error < 0.0
    ensures PFactor(exp, cfg, error) > 0.0
  {
    hide IsExponential;
    GainBlends(exp, cfg, error, error);
    ExpOfZero(exp);
    var g := Gain(exp, cfg, error);
    hide Gain, Times;
    TimesIncreases(0.0, error, g);
    TimesIncreases(error, 0.0, g);
    TimesUnits(g, error);
    ExpIsPositive(exp, Times(g, error));
    ExpIncreases(exp, Times(g, error), 0.0);
    ExpIncreases(exp, 0.0, Times(g, error));
  }

  // The decision

  function Clamp(low: real, x: real, high: real): real {
    var m := if high < x then high else x;
    if m > low then m else low
  }

  datatype Mode = On | Off | Unknown(name: string)

  /** The controller, with the speed that the simulation runs at. */
  datatype State = State(
    mode: Mode, speed: real, integral: real, previous: Option<real>, derivative: real, simulation: real)

  function Start(cfg: Settings, simulation: real): State {
    State(Off, cfg.maxSpeed, 0.0, None, 0.0, simulation)
  }

  function Trend(previous: Option<real>, error: real, dt: real): real
    requires dt > 0.0
  {
    if previous.Some? then (error - previous.value) / dt else 0.0
  }

  /** The state after the integral and derivative terms are updated. */
  function Observe(cfg: Settings, st: State, index: real): State
    requires cfg.dt > 0.0
  {
    var error := index - cfg.target;
    st.(integral := Clamp(-cfg.integralMax, st.integral + Times(error, cfg.dt), cfg.integralMax),
        previous := Some(error), derivative := Trend(st.previous, error, cfg.dt))
  }

  /** The error is added to the integral over the time step, up to the limit on either side, and the
      trend is the change of the error per second, none at the first turn. */
  predicate Observed(cfg: Settings, before: State, error: real, after: State) {
    var sum, limit := before.integral + error * cfg.dt, cfg.integralMax;
    && after.previous == Some(error) && -limit <= after.integral <= limit
    && (-limit <= sum <= limit ==> after.integral == sum)
    && (sum < -limit ==> after.integral == -limit) && (sum > limit ==> after.integral == limit)
    && (before.previous.Some? ==> after.derivative * cfg.dt == error - before.previous.value)
    && (before.previous.None? ==> after.derivative == 0.0)
    && after.speed == before.speed && after.mode == before.mode && after.simulation == before.simulation
  }

  lemma ObserveIsObserved(cfg: Settings, st: State, index: real)
    requires cfg.dt > 0.0 && cfg.integralMax > 0.0
    ensures Observed(cfg, st, index - cfg.target, Observe(cfg, st, index))
  {
  }

  function Factor(exp: real -> real, cfg: Settings, st: State, error: real): real
    requires IsExponential(exp)
  {
    Times(Times(PFactor(exp, cfg, error), exp(Times(cfg.ki, st.integral))), exp(Times(cfg.kd, st.derivative)))
  }

  /** `decide_speed`: the speed decided on. */
  function Decided(exp: real -> real, cfg: Settings, st: State, index: real): (speed: real)
    requires IsExponential(exp) && cfg.dt > 0.0
    ensures cfg.minSpeed <= cfg.maxSpeed ==> cfg.minSpeed <= speed <= cfg.maxSpeed
  {
    Clamp(cfg.minSpeed, Times(st.speed, Factor(exp, cfg, Observe(cfg, st, index), index - cfg.target)), cfg.maxSpeed)
  }

  lemma Products(a: real, b: real, c: real)
    requires a > 0.0 && b > 0.0 && c > 0.0
    ensures a > 1.0 && b >= 1.0 && c >= 1.0 ==> Times(Times(a, b), c) > 1.0
    ensures a < 1.0 && b <= 1.0 && c <= 1.0 ==> Times(Times(a, b), c) < 1.0
  {
    TimesIncreases(b, 1.0, a);
    TimesIncreases(1.0, b, a);
    TimesUnits(a, b);
    TimesIncreases(0.0, a, b);
    TimesUnits(b, a);
    TimesUnits(c, c);
    var ab := Times(a, b);
    TimesIncreases(ab, 1.0, c);
    TimesIncreases(1.0, ab, c);
    hide Times;
  }

  lemma ExpOfGain(exp: real -> real, k: real, x: real)
    requires IsExponential(exp) && k >= 0.0
    ensures var f := exp(Times(k, x)); f > 0.0 && (x >= 0.0 ==> f >= 1.0) && (x <= 0.0 ==> f <= 1.0)
  {
    hide IsExponential;
    ExpOfZero(exp);
    TimesUnits(k, x);
    TimesUnits(x, k);
    if k > 0.0 { TimesIncreases(0.0, x, k); TimesIncreases(x, 0.0, k); }
    hide Times;
    ExpIsPositive(exp, Times(k, x));
    ExpIncreases(exp, Times(k, x), 0.0);
    ExpIncreases(exp, 0.0, Times(k, x));
  }

  lemma TrendFollows(previous: Option<real>, error: real, dt: real)
    requires dt > 0.0
    ensures (previous.Some? ==> previous.value <= error) ==> Trend(previous, error, dt) >= 0.0
    ensures (previous.Some? ==> previous.value >= error) ==> Trend(previous, error, dt) <= 0.0
  {
  }

  /** When error, accumulated error and trend agree, the speed moves their way until it is clamped. */
  lemma DecisionFollowsError(exp: real -> real, cfg: Settings, st: State, index: real)
    requires IsExponential(exp) && Accepted(cfg) && st.speed > 0.0
    ensures var error, next := index - cfg.target, Decided(exp, cfg, st, index);
            && (error > 0.0 && st.integral >= 0.0 && (st.previous.Some? ==> st.previous.value <= error)
                ==> next > st.speed || next == cfg.maxSpeed)
            && (error < 0.0 && st.integral <= 0.0 && (st.previous.Some? ==> st.previous.value >= error)
                ==> next < st.speed || next == cfg.minSpeed)
  {
    hide IsExponential;
    var error, seen := index - cfg.target, Observe(cfg, st, index);
    PFactorFollowsError(exp, cfg, error);
    ExpOfGain(exp, cfg.ki, seen.integral);
    ExpOfGain(exp, cfg.kd, seen.derivative);
    TrendFollows(st.previous, error, cfg.dt);
    TimesIncreases(0.0, error, cfg.dt);
    TimesIncreases(error, 0.0, cfg.dt);
    TimesUnits(cfg.dt, error);
    var p, i, d := PFactor(exp, cfg, error), exp(Times(cfg.ki, seen.integral)), exp(Times(cfg.kd, seen.derivative));
    Products(p, i, d);
    var f := Factor(exp, cfg, seen, error);
    TimesIncreases(1.0, f, st.speed);
    TimesIncreases(f, 1.0, st.speed);
    TimesUnits(st.speed, f);
    hide PFactor, Times, Trend;
  }

  /** The factor grows with the integral and with the trend, if their gains are positive. */
  lemma FactorGrows(exp: real -> real, cfg: Settings, a: State, b: State, error: real)
    requires IsExponential(exp) && cfg.ki >= 0.0 && cfg.kd >= 0.0
    requires a.integral <= b.integral && a.derivative <= b.derivative
    ensures 0.0 < Factor(exp, cfg, a, error) <= Factor(exp, cfg, b, error)
    ensures (a.integral < b.integral && cfg.ki > 0.0) || (a.derivative < b.derivative && cfg.kd > 0.0)
        ==> Factor(exp, cfg, a, error) < Factor(exp, cfg, b, error)
  {
    hide IsExponential;
    var p := PFactor(exp, cfg, error);
    var i, j := exp(Times(cfg.ki, a.integral)), exp(Times(cfg.ki, b.integral));
    var d, e := exp(Times(cfg.kd, a.derivative)), exp(Times(cfg.kd, b.derivative));
    ExpIsPositive(exp, Times(Gain(exp, cfg, error), error));
    ExpGrows(exp, cfg.ki, a.integral, b.integral);
    ExpGrows(exp, cfg.kd, a.derivative, b.derivative);
    hide PFactor, Times;
    TimesIncreases(0.0, i, p);
    TimesIncreases(i, j, p);
    TimesUnits(p, i);
    var pi, pj := Times(p, i), Times(p, j);
    TimesIncreases(pi, pj, d);
    TimesIncreases(d, e, pj);
    TimesIncreases(0.0, pi, d);
    TimesUnits(d, d);
  }

  lemma ExpGrows(exp: real -> real, k: real, x: real, y: real)
    requires IsExponential(exp) && k >= 0.0 && x <= y
    ensures 0.0 < exp(Times(k, x)) <= exp(Times(k, y))
    ensures x < y && k > 0.0 ==> exp(Times(k, x)) < exp(Times(k, y))
  {
    hide IsExponential;
    TimesUnits(x, k);
    TimesUnits(y, k);
    TimesUnits(k, k);
    if k > 0.0 { TimesIncreases(x, y, k); }
    ExpIsPositive(exp, Times(k, x));
    ExpIncreases(exp, Times(k, x), Times(k, y));
  }

  /** More accumulated error never lowers the decided speed, nor does a lower previous error, which means
      a steeper trend; with a positive gain either raises it, short of the limits on integral and speed. */
  lemma DecisionFollowsHistory(exp: real -> real, cfg: Settings, a: State, b: State, index: real)
    requires IsExponential(exp) && Accepted(cfg) && a.speed == b.speed > 0.0
    requires a.integral <= b.integral
    requires a.previous == b.previous || (a.previous.Some? && b.previous.Some? && a.previous.value >= b.previous.value)
    ensures Decided(exp, cfg, a, index) <= Decided(exp, cfg, b, index)
    ensures Decided(exp, cfg, a, index) == Decided(exp, cfg, b, index) ==>
              || Decided(exp, cfg, a, index) in {cfg.minSpeed, cfg.maxSpeed}
              || ((cfg.ki == 0.0 || Observe(cfg, a, index).integral == Observe(cfg, b, index).integral)
                  && (cfg.kd == 0.0 || a.previous == b.previous))
  {
    hide IsExponential, Factor, Times, Trend;
    var error := index - cfg.target;
    var x, y := Observe(cfg, a, index), Observe(cfg, b, index);
    TrendFalls(a.previous, b.previous, error, cfg.dt);
    FactorGrows(exp, cfg, x, y, error);
    var f, g := Factor(exp, cfg, x, error), Factor(exp, cfg, y, error);
    TimesIncreases(f, g, a.speed);
    TimesIncreases(g, f, a.speed);
    assert Decided(exp, cfg, a, index) == Clamp(cfg.minSpeed, Times(a.speed, f), cfg.maxSpeed);
    assert Decided(exp, cfg, b, index) == Clamp(cfg.minSpeed, Times(a.speed, g), cfg.maxSpeed);
    hide Decided, Observe;
  }

  lemma DividedTimes(x: real, y: real)
    requires y > 0.0
    ensures Times(x / y, y) == x
  {
  }

  lemma TrendFalls(p: Option<real>, q: Option<real>, error: real, dt: real)
    requires dt > 0.0 && (p == q || (p.Some? && q.Some? && p.value >= q.value))
    ensures Trend(p, error, dt) <= Trend(q, error, dt)
    ensures p != q ==> Trend(p, error, dt) < Trend(q, error, dt)
  {
    if p != q {
      var x, y := Trend(p, error, dt), Trend(q, error, dt);
      DividedTimes(error - p.value, dt);
      DividedTimes(error - q.value, dt);
      TimesIncreases(y, x, dt);
      hide Times;
      assert Times(x, dt) < Times(y, dt);
    }
  }

  lemma OnlyProportional(exp: real -> real, cfg: Settings, st: State, error: real)
    requires IsExponential(exp) && cfg.ki == 0.0 && cfg.kd == 0.0
    ensures Factor(exp, cfg, st, error) == PFactor(exp, cfg, error)
  {
    hide IsExponential;
    ExpOfZero(exp);
    TimesUnits(st.integral, 0.0);
    TimesUnits(st.derivative, 0.0);
    TimesUnits(PFactor(exp, cfg, error), 0.0);
    hide PFactor, Times;
  }

  // Snapping

  const SPEEDS: seq<real> := [0.5, 1.0, 2.0, 4.0, 8.0, 16.0, 32.0, 64.0, 128.0]

  predicate Doubling(table: seq<real>) {
    |table| > 0 && table[0] > 0.0 && forall i :: 0 <= i < |table| - 1 ==> table[i + 1] == 2.0 * table[i]
  }

  /** The entry before the first one, past the head, that exceeds the speed. */
  function SnapIn(table: seq<real>, speed: real): real
    requires table != []
  {
    if |table| == 1 || table[1] > speed then table[0] else SnapIn(table[1..], speed)
  }

  function Snap(speed: real): real {
    SnapIn(SPEEDS, speed)
  }

  lemma TailDoubles(table: seq<real>)
    requires Doubling(table) && |table| > 1
    ensures Doubling(table[1..]) && table[1] == 2.0 * table[0]
  {
    assert table[0 + 1] == 2.0 * table[0];
    forall i | 0 <= i < |table| - 2 ensures table[1..][i + 1] == 2.0 * table[1..][i] {
      assert table[(i + 1) + 1] == 2.0 * table[i + 1];
    }
  }

  lemma {:induction false} Ascends(table: seq<real>)
    requires Doubling(table)
    ensures forall v :: v in table ==> table[0] <= v
  {
    if |table| > 1 {
      TailDoubles(table);
      hide Doubling;
      Ascends(table[1..]);
      assert table == [table[0]] + table[1..];
    }
  }

  lemma SnapInUnfolds(table: seq<real>, speed: real)
    requires |table| > 1
    ensures SnapIn(table, speed) == if table[1] > speed then table[0] else SnapIn(table[1..], speed)
  {
  }

  lemma {:induction false} SnapInIsFloor(table: seq<real>, speed: real)
    requires Doubling(table)
    ensures var r := SnapIn(table, speed);
            r in table && (r <= speed <==> table[0] <= speed) && forall v :: v in table && v <= speed ==> v <= r
  {
    Ascends(table);
    assert table[0] > 0.0;
    if |table| > 1 {
      TailDoubles(table);
      SnapInUnfolds(table, speed);
      hide Doubling, SnapIn;
      Ascends(table[1..]);
      SnapInIsFloor(table[1..], speed);
      assert table == [table[0]] + table[1..];
    }
  }

  lemma {:induction false} SnapInIsClose(table: seq<real>, speed: real)
    requires Doubling(table) && table[0] <= speed < 2.0 * table[|table| - 1]
    ensures speed < 2.0 * SnapIn(table, speed)
  {
    if |table| > 1 {
      TailDoubles(table);
      SnapInUnfolds(table, speed);
      hide Doubling, SnapIn;
      if table[1] <= speed {
        SnapInIsClose(table[1..], speed);
      }
    }
  }

  /** The documented floor holds exactly from the smallest entry on; below it the result is that
      entry, which is above the speed. Inside the table's range the result is within a factor of two. */
  lemma SnapIsFloor(speed: real)
    ensures var r := Snap(speed);
            && r in SPEEDS && (r <= speed <==> speed >= 0.5)
            && (forall v :: v in SPEEDS && v <= speed ==> v <= r)
            && (0.5 <= speed < 256.0 ==> speed < 2.0 * r)
  {
    assert Doubling(SPEEDS);
    hide SnapIn;
    SnapInIsFloor(SPEEDS, speed);
    if 0.5 <= speed < 256.0 {
      SnapInIsClose(SPEEDS, speed);
    }
  }

  /** `_snap_to_floor_power_of_two`. */
  method SnapToFloorPowerOfTwo(speed: real) returns (result: real)
    ensures result == Snap(speed)
  {
    assert Doubling(SPEEDS);
    result := SnapOver(SPEEDS, speed);
  }

  method SnapOver(table: seq<real>, speed: real) returns (result: real)
    requires Doubling(table)
    ensures result == SnapIn(table, speed)
  {
    result := table[0];
    for i := 0 to |table|
      invariant var done := if i == 0 then 0 else i - 1;
                result == table[done] && SnapIn(table[done..], speed) == SnapIn(table, speed)
    {
      if i > 0 { assert table[i - 1..][1..] == table[i..]; }
      if table[i] <= speed {
        result := table[i];
      } else {
        assert i == 0 && |table| > 1 ==> table[0 + 1] == 2.0 * table[0];
        break;
      }
    }
  }

  // Runs

  datatype Event =
    | Cycle(index: Option<real>, accepted: bool)              // one turn of the loop, and the actuation
    | SetMode(mode: Mode, fetched: bool, accepted: bool)
    | Elsewhere(speed: real)                                  // another client sets the simulation's speed

  /** Setting the simulation to a speed that is not the stored one. */
  function Actuate(st: State, next: real, accepted: bool): State {
    if Abs(next - st.speed) > 0.001 && accepted then st.(speed := next, simulation := next) else st
  }

  function ChangeMode(st: State, mode: Mode, fetched: bool, accepted: bool): State {
    if mode.Unknown? || mode == st.mode then st
    else if mode == On then
      st.(mode := On, integral := 0.0, previous := None, derivative := 0.0,
          speed := if fetched then st.simulation else st.speed)
    else Actuate(st.(mode := Off), Snap(st.speed), accepted)
  }

  function Step(exp: real -> real, cfg: Settings, st: State, e: Event): State
    requires IsExponential(exp) && cfg.dt > 0.0
  {
    match e
    case Cycle(index, accepted) =>
      if index.None? || st.mode != On then st
      else Actuate(Observe(cfg, st, index.value), Decided(exp, cfg, st, index.value), accepted)
    case SetMode(mode, fetched, accepted) => ChangeMode(st, mode, fetched, accepted)
    case Elsewhere(speed) => st.(simulation := speed)
  }

  function Run(exp: real -> real, cfg: Settings, st: State, events: seq<Event>): State
    requires IsExponential(exp) && cfg.dt > 0.0
    decreases |events|
  {
    if events == [] then st else Run(exp, cfg, Step(exp, cfg, st, events[0]), events[1..])
  }

  /** The stored speed changes only by an accepted actuation, of a decided speed within the limits or
      of a snapped one, or by seeding from the simulation; after any change it is the simulation's. */
  lemma SpeedChangesOnlyBy(exp: real -> real, cfg: Settings, st: State, e: Event)
    requires IsExponential(exp) && Accepted(cfg)
    ensures var t := Step(exp, cfg, st, e);
            t.speed != st.speed ==>
              && t.speed == t.simulation
              && ((e.Cycle? && e.accepted && st.mode == On && cfg.minSpeed <= t.speed <= cfg.maxSpeed)
                  || (e.SetMode? && e.mode == On && st.mode != On && e.fetched && t.speed == st.simulation)
                  || (e.SetMode? && e.mode == Off && st.mode != Off && e.accepted && t.speed in SPEEDS))
  {
    hide IsExponential;
    SnapIsFloor(st.speed);
    hide Snap, Factor, SPEEDS;
  }

  /** The speed after one turn with the proportional term alone. */
  lemma ProportionalTurn(exp: real -> real, cfg: Settings, st: State, error: real, accepted: bool)
    requires IsExponential(exp) && Accepted(cfg) && cfg.ki == 0.0 && cfg.kd == 0.0 && st.mode == On
    ensures var t := Step(exp, cfg, st, Cycle(Some(cfg.target + error), accepted));
            var next := Clamp(cfg.minSpeed, Times(st.speed, PFactor(exp, cfg, error)), cfg.maxSpeed);
            t.mode == On && t.speed == if Abs(next - st.speed) > 0.001 && accepted then next else st.speed
  {
    var seen := Observe(cfg, st, cfg.target + error);
    assert cfg.target + error - cfg.target == error;
    OnlyProportional(exp, cfg, seen, error);
    hide IsExponential, PFactor, Factor, Times, Trend, Clamp;
  }

  /** With the proportional term alone, a ramp and the cut for the opposite error never gain speed:
      with the cut accepted they end below where they started, unless the ramp was not stored or
      the minimum is reached. */
  lemma RampThenCutLoses(exp: real -> real, cfg: Settings, st: State, error: real, accepted: bool)
    requires IsExponential(exp) && Accepted(cfg) && cfg.ki == 0.0 && cfg.kd == 0.0 && st.mode == On
    requires error > 0.0 && st.speed >= cfg.minSpeed
    ensures var ramped := Step(exp, cfg, st, Cycle(Some(cfg.target + error), accepted));
            var cut := Step(exp, cfg, ramped, Cycle(Some(cfg.target - error), true));
            && cut.speed <= st.speed
            && (cut.speed == st.speed ==> ramped.speed == st.speed || cut.speed == cfg.minSpeed)
  {
    hide IsExponential, PFactor, Times, Step;
    var ramped := Step(exp, cfg, st, Cycle(Some(cfg.target + error), accepted));
    var p, q := PFactor(exp, cfg, error), PFactor(exp, cfg, -error);
    ProportionalTurn(exp, cfg, st, error, accepted);
    ProportionalTurn(exp, cfg, ramped, -error, true);
    assert cfg.target + -error == cfg.target - error;
    CutsOutweighRamps(exp, cfg, error);
    PFactorFollowsError(exp, cfg, error);
    PFactorFollowsError(exp, cfg, -error);
    TimesIncreases(1.0, p, st.speed);
    TimesUnits(st.speed, p);
    TimesIncreases(ramped.speed, Times(st.speed, p), q);
    TimesAssociates(st.speed, p, q);
    TimesIncreases(Times(p, q), 1.0, st.speed);
    TimesIncreases(q, 1.0, ramped.speed);
    TimesUnits(ramped.speed, q);
    assert ramped.speed <= Times(st.speed, p) && Times(ramped.speed, q) < st.speed;
  }

  predicate WithinClamp(cfg: Settings, st: State) {
    -cfg.integralMax <= st.integral <= cfg.integralMax
  }

  /** Where a stored speed can come from: the limits, the table, or the simulation. */
  predicate Explained(cfg: Settings, outside: set<real>, speed: real) {
    cfg.minSpeed <= speed <= cfg.maxSpeed || speed in SPEEDS || speed in outside
  }

  /** The speeds that other clients set. */
  function Outside(events: seq<Event>): set<real> {
    set e | e in events && e.Elsewhere? :: e.speed
  }

  ghost predicate Inv(cfg: Settings, outside: set<real>, st: State) {
    WithinClamp(cfg, st) && Explained(cfg, outside, st.speed) && Explained(cfg, outside, st.simulation)
  }

  lemma StepKeepsInv(exp: real -> real, cfg: Settings, outside: set<real>, st: State, e: Event)
    requires IsExponential(exp) && Accepted(cfg) && Inv(cfg, outside, st)
    requires e.Elsewhere? ==> e.speed in outside
    ensures Inv(cfg, outside, Step(exp, cfg, st, e))
  {
    hide IsExponential;
    SnapIsFloor(st.speed);
    hide Snap, Factor, SPEEDS;
  }

  lemma {:induction false} RunKeepsInv(exp: real -> real, cfg: Settings, outside: set<real>, st: State,
                                       events: seq<Event>)
    requires IsExponential(exp) && Accepted(cfg) && Inv(cfg, outside, st) && Outside(events) <= outside
    ensures Inv(cfg, outside, Run(exp, cfg, st, events))
    decreases |events|
  {
    hide IsExponential;
    hide Step, Inv;
    if events != [] {
      var e := events[0];
      assert e.Elsewhere? ==> e.speed in Outside(events);
      assert Outside(events[1..]) <= Outside(events);
      StepKeepsInv(exp, cfg, outside, st, e);
      RunKeepsInv(exp, cfg, outside, Step(exp, cfg, st, e), events[1..]);
    }
  }

  /** In every state that a run reaches, the integral is within its clamp, and the stored speed is
      within the limits, in the table, or one that the simulation was given from outside. */
  lemma EveryRun(exp: real -> real, cfg: Settings, simulation: real, events: seq<Event>)
    requires IsExponential(exp) && Accepted(cfg)
    ensures var st := Run(exp, cfg, Start(cfg, simulation), events);
            WithinClamp(cfg, st) && Explained(cfg, {simulation} + Outside(events), st.speed)
  {
    hide IsExponential;
    RunKeepsInv(exp, cfg, {simulation} + Outside(events), Start(cfg, simulation), events);
    hide Run;
  }

  /** Once the stored speed is the simulation's, it stays so until another client interferes. */
  lemma {:induction false} AgreementLasts(exp: real -> real, cfg: Settings, st: State, events: seq<Event>)
    requires IsExponential(exp) && cfg.dt > 0.0 && st.speed == st.simulation
    requires forall e :: e in events ==> !e.Elsewhere?
    ensures var t := Run(exp, cfg, st, events); t.speed == t.simulation
    decreases |events|
  {
    hide IsExponential;
    hide Snap, Decided;
    if events != [] {
      AgreementLasts(exp, cfg, Step(exp, cfg, st, events[0]), events[1..]);
    }
  }

  // The controller

  class PerformanceController {
    const cfg: Settings
    const exp: real -> real
    var mode: Mode
    var currentSpeed: real
    var errorIntegral: real
    var previousError: Option<real>
    var lastDerivative: real
    ghost var simulation: real

    constructor (cfg: Settings, exp: real -> real, ghost simulation: real)
      ensures this.cfg == cfg && this.exp == exp && Value() == Start(cfg, simulation)
      ensures mode == Off && currentSpeed == cfg.maxSpeed
      ensures errorIntegral == 0.0 == lastDerivative && previousError.None?
    {
      this.cfg, this.exp, this.simulation := cfg, exp, simulation;
      mode, currentSpeed := Off, cfg.maxSpeed;
      errorIntegral, previousError, lastDerivative := 0.0, None, 0.0;
    }

    ghost function Value(): State
      reads this
    {
      State(mode, currentSpeed, errorIntegral, previousError, lastDerivative, simulation)
    }

    method ResetPidState()
      modifies `errorIntegral, `previousError, `lastDerivative
      ensures errorIntegral == 0.0 && previousError == None && lastDerivative == 0.0
    {
      errorIntegral, previousError, lastDerivative := 0.0, None, 0.0;
    }

    method DecideSpeed(index: real) returns (newSpeed: real)
      requires IsExponential(exp) && Accepted(cfg)
      modifies `errorIntegral, `previousError, `lastDerivative
      ensures newSpeed == Decided(exp, cfg, old(Value()), index) && Value() == Observe(cfg, old(Value()), index)
      ensures Observed(cfg, old(Value()), index - cfg.target, Value())
    {
      hide IsExponential, Times, Mix, Sigmoid, Trend, Clamp, Observed;
      ObserveIsObserved(cfg, Value(), index);
      var error := index - cfg.target;
      errorIntegral := errorIntegral + Times(error, cfg.dt);
      errorIntegral := Clamp(-cfg.integralMax, errorIntegral, cfg.integralMax);
      var derivative := Trend(previousError, error, cfg.dt);
      previousError := Some(error);
      lastDerivative := derivative;
      assert Value() == Observe(cfg, old(Value()), index);
      hide Observe;
      ExpIsPositive(exp, Times(-cfg.smoothness, error));
      var blend := Sigmoid(exp(Times(-cfg.smoothness, error)));
      var effectiveK := Mix(cfg.kUp, cfg.kDown, blend);
      var pFactor := exp(Times(effectiveK, error));
      var iFactor := exp(Times(cfg.ki, errorIntegral));
      var dFactor := exp(Times(cfg.kd, derivative));
      var factor := Times(Times(pFactor, iFactor), dFactor);
      assert factor == Factor(exp, cfg, Value(), error);
      hide Factor;
      newSpeed := Clamp(cfg.minSpeed, Times(currentSpeed, factor), cfg.maxSpeed);
    }

    /** `actuate_speed`, whose answer is given. */
    method ActuateSpeed(newSpeed: real, accepted: bool) returns (ok: bool)
      modifies `simulation
      ensures ok == accepted && simulation == if accepted then newSpeed else old(simulation)
    {
      if accepted { simulation := newSpeed; }
      ok := accepted;
    }

    /** One turn of the loop of `run`. */
    method Turn(index: Option<real>, accepted: bool)
      requires IsExponential(exp) && Accepted(cfg)
      modifies this
      ensures Value() == Step(exp, cfg, old(Value()), Cycle(index, accepted))
      // A decided speed is stored if it differs noticeably and the simulation accepts it.
      ensures var next := if index.Some? then Decided(exp, cfg, old(Value()), index.value) else old(currentSpeed);
              currentSpeed == if index.Some? && mode == On && accepted
                                 && (next - old(currentSpeed) > 0.001 || old(currentSpeed) - next > 0.001)
                              then next else old(currentSpeed)
      ensures mode == old(mode) && (mode != On ==> Value() == old(Value()))
    {
      if index.None? { return; }
      if mode == On {
        var newSpeed := DecideSpeed(index.value);
        hide Observe, Decided, IsExponential;
        if Abs(newSpeed - currentSpeed) > 0.001 {
          var ok := ActuateSpeed(newSpeed, accepted);
          if ok { currentSpeed := newSpeed; }
        }
      }
    }

    /** `set_mode`; `live` is the answer to `_fetch_current_speed`. */
    method ChangeMode(mode: Mode, live: Option<real>, accepted: bool) returns (valueError: bool)
      requires IsExponential(exp) && cfg.dt > 0.0
      requires live.Some? ==> live.value == simulation
      modifies this
      ensures Value() == Step(exp, cfg, old(Value()), SetMode(mode, live.Some?, accepted))
      ensures valueError <==> mode.Unknown?
      ensures mode.Unknown? || mode == old(this.mode) ==> Value() == old(Value())
      // Switched on, the controller forgets its errors and takes over the live speed ...
      ensures mode == On != old(this.mode) ==>
                && this.mode == On && errorIntegral == 0.0 == lastDerivative && previousError.None?
                && currentSpeed == (if live.Some? then live.value else old(currentSpeed))
                && simulation == old(simulation)
      // ... and switched off, it leaves the speed in the table, if that differs noticeably.
      ensures mode == Off != old(this.mode) ==>
                && this.mode == Off && errorIntegral == old(errorIntegral) && previousError == old(previousError)
                && var snapped, was := Snap(old(currentSpeed)), old(currentSpeed);
                   if accepted && (snapped - was > 0.001 || was - snapped > 0.001)
                   then currentSpeed == simulation == snapped
                   else currentSpeed == was && simulation == old(simulation)
    {
      if mode.Unknown? { return true; }
      valueError := false;
      var before := this.mode;
      this.mode := mode;
      if before != mode {
        if mode == On {
          ResetPidState();
          if live.Some? { currentSpeed := live.value; }
        } else {
          var snapped := SnapToFloorPowerOfTwo(currentSpeed);
          hide Snap;
          if Abs(snapped - currentSpeed) > 0.001 {
            var ok := ActuateSpeed(snapped, accepted);
            if ok { currentSpeed := snapped; }
          }
        }
      }
    }
  }
}

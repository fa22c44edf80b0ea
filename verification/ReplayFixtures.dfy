/** The fixtures the repository replays, and what each must send: under the shipped curve, the
    commands the replay was proved to send are the ones listed with the fixture. */
module ReplayFixtures {
  import opened Prelude
  import opened FanIr
  import opened FanControl
  import opened SpeedCurve
  import opened Replay

  /** Twice what `pow` makes of two to the x is two to the p/q. */
  ghost predicate Doubled(pow: Power, x: real, p: nat, q: nat) {
    IsPower(2.0 * pow(2.0, x), 2.0, p, q)
  }

  /** Half a degree for a step, doubling with every step, and a `pow` that knows the rational
      powers of two. */
  ghost predicate Shipped(cfg: Settings) {
    && cfg.gradient == 0.5 && cfg.exponent == 2.0
    && forall x: real, p: nat, q: nat :: p > 0 && q > 0 && (x + 1.0) * q as real == p as real ==>
         Doubled(cfg.pow, x, p, q)
  }

  // ----- Speeds under the shipped curve -----

  lemma DistanceInSteps(current: real, target: real, p: nat, q: nat)
    requires p > 0 && q > 0 && (current - target) * q as real == p as real * 0.5
    ensures ((current - target) / 0.5 - 1.0 + 1.0) * q as real == p as real
  {}

  lemma ShippedAt(cfg: Settings, current: real, target: real, p: nat, q: nat)
    requires Shipped(cfg) && p > 0 && q > 0 && (current - target) * q as real == p as real * 0.5
    ensures At(current, target, 0.5, 2.0, cfg.pow, p, q)
  {
    hide IsPower;
    DistanceInSteps(current, target, p, q);
    assert Doubled(cfg.pow, (current - target) / 0.5 - 1.0, p, q);
  }

  /** A reading p/q half degrees above the target, between the k-th and the next step. */
  lemma SpeedAt(cfg: Settings, current: real, target: real, p: nat, q: nat, k: nat)
    requires Shipped(cfg) && p > 0 && q > 0 && (current - target) * q as real == p as real * 0.5
    requires 1 <= k <= 10 && Reached(k, p, q) && (k < 10 ==> !Reached(k + 1, p, q))
    ensures ComputeSpeed(current, target, cfg.gradient, cfg.exponent, cfg.pow) == 10 * k
  {
    ShippedAt(cfg, current, target, p, q);
    assert cfg.gradient == 0.5 && cfg.exponent == 2.0;
    hide *;
    SpeedStep(current, target, 0.5, cfg.pow, p, q, k);
    if k < 10 { SpeedStep(current, target, 0.5, cfg.pow, p, q, k + 1); }
    SpeedShape(current, target, 0.5, 2.0, cfg.pow);
  }

  lemma SpeedShape(current: real, target: real, gradient: real, e: real, pow: Power)
    requires gradient != 0.0
    ensures var s := ComputeSpeed(current, target, gradient, e, pow); s <= 100 && s % 10 == 0
  {}

  lemma {:induction false} AtLeast(b: int, n: nat, low: nat)
    requires b >= 1 && low <= n
    ensures PowInt(b, n) >= PowInt(b, low) >= 1
  {
    if n > low { AtLeast(b, n - 1, low); } else if n > 0 { AtLeast(b, n - 1, low - 1); }
  }

  /** Powers as products of smaller ones. */
  lemma {:induction false} Splits(b: int, m: nat, n: nat)
    ensures PowInt(b, m + n) == PowInt(b, m) * PowInt(b, n)
  {
    if m > 0 { Splits(b, m - 1, n); }
  }

  lemma SmallPowers(b: int)
    ensures PowInt(b, 1) == b && PowInt(b, 2) == b * b && PowInt(b, 3) == b * (b * b)
    ensures PowInt(b, 4) == b * (b * (b * b)) && PowInt(b, 5) == b * (b * (b * (b * b)))
  {
    assert PowInt(b, 0) == 1;
    assert PowInt(b, 1) == b * 1;
  }

  /** The first step, for less than a step above the target. */
  lemma FirstStep(q: nat, p: nat)
    requires p in {1, 2, 3} && q > p
    ensures Reached(1, p, q) && !Reached(2, p, q)
  {
    SmallPowers(2);
    SmallPowers(3);
    OnePower(q);
    AtLeast(3, q, p);
  }

  lemma {:induction false} OnePower(n: nat)
    ensures PowInt(1, n) == 1
  {
    if n > 0 { OnePower(n - 1); }
  }

  lemma WholeSteps()
    ensures Reached(2, 2, 1) && !Reached(3, 2, 1)
    ensures Reached(8, 4, 1) && !Reached(9, 4, 1)
    ensures Reached(10, 6, 1)
  {
    SmallPowers(2);
    Splits(2, 3, 3);
    SmallPowers(3);
    SmallPowers(5);
    SmallPowers(15);
    SmallPowers(17);
    SmallPowers(19);
  }

  lemma FifthsOfSteps()
    ensures Reached(1, 6, 5) && !Reached(2, 6, 5)
    ensures Reached(3, 12, 5) && !Reached(4, 12, 5)
    ensures Reached(10, 28, 5)
  {
    SmallPowers(2);
    Splits(2, 3, 3);
    Splits(2, 6, 6);
    Splits(2, 12, 12);
    Splits(2, 24, 4);
    OnePower(5);
    SmallPowers(3);
    SmallPowers(5);
    SmallPowers(7);
    SmallPowers(19);
  }

  // ----- One step of a replay -----

  /** The commands sent in the first n steps. */
  function SentBy(cfg: Settings, f: Fixture, n: nat): seq<string>
    requires n <= |f.temps|
  {
    Collapse(Commands(cfg, f, n))
  }

  function SentInAll(cfg: Settings, f: Fixture): seq<string> { SentBy(cfg, f, |f.temps|) }

  lemma NothingSent(cfg: Settings, f: Fixture)
    ensures SentBy(cfg, f, 0) == []
  {}

  /** A reading adds its command, unless it was the last one. */
  lemma Reading(cfg: Settings, f: Fixture, n: nat, name: string)
    requires n < |f.temps| && f.temps[n].Some? && Wanted(cfg, InForce(f, n + 1), f.temps[n].value) == name
    ensures var before := SentBy(cfg, f, n);
            SentBy(cfg, f, n + 1) == if before != [] && before[|before| - 1] == name then before else before + [name]
  {
    hide Wanted;
    var names := Commands(cfg, f, n);
    var all := names + [name];
    assert Commands(cfg, f, n + 1) == all && all[..|all| - 1] == names;
    if names != [] { CollapseEnds(names); }
  }

  lemma NoReading(cfg: Settings, f: Fixture, n: nat)
    requires n < |f.temps| && f.temps[n].None?
    ensures SentBy(cfg, f, n + 1) == SentBy(cfg, f, n)
  {}

  /** At or below the target. */
  lemma Off(cfg: Settings, f: Fixture, n: nat)
    requires n < |f.temps| && f.temps[n].Some? && f.temps[n].value <= TargetAfter(f, n + 1)
    ensures var before := SentBy(cfg, f, n);
            SentBy(cfg, f, n + 1) == if before != [] && before[|before| - 1] == "fan_off.ir" then before
                                     else before + ["fan_off.ir"]
  {
    hide SentBy, TargetAfter, DirectionAfter;
    Reading(cfg, f, n, "fan_off.ir");
  }

  /** p/q half degrees above it. */
  lemma On(cfg: Settings, f: Fixture, n: nat, p: nat, q: nat, k: nat, name: string)
    requires Shipped(cfg) && n < |f.temps| && f.temps[n].Some?
    requires p > 0 && q > 0 && (f.temps[n].value - TargetAfter(f, n + 1)) * q as real == p as real * 0.5
    requires 1 <= k <= 10 && Reached(k, p, q) && (k < 10 ==> !Reached(k + 1, p, q))
    requires ResolveIrFilename(DirectionAfter(f, n + 1), 10 * k) == name
    ensures var before := SentBy(cfg, f, n);
            SentBy(cfg, f, n + 1) == if before != [] && before[|before| - 1] == name then before else before + [name]
  {
    hide SentBy, TargetAfter, DirectionAfter, Reached, Shipped, ResolveIrFilename;
    SpeedAt(cfg, f.temps[n].value, TargetAfter(f, n + 1), p, q, k);
    hide ComputeSpeed;
    Reading(cfg, f, n, name);
  }

  lemma NoChanges(f: Fixture, n: nat)
    requires f.targetChanges == [] && f.directionChanges == []
    ensures TargetAfter(f, n) == f.target && DirectionAfter(f, n) == f.direction
  {
    FirstTargetInForce(f, n);
    FirstDirectionInForce(f, n);
  }

  // ----- The fixtures -----

  function Steady(temps: seq<Option<real>>): Fixture { Fixture(72.0, "in", temps, [], []) }

  const AT_TARGET := Steady([Some(72.0), Some(72.0), Some(71.99), Some(71.98)])
  const COOLING := Steady([Some(74.0), Some(71.0), Some(70.0)])
  const HEATING :=
    Steady([Some(72.0), Some(72.6), Some(73.2), Some(74.0), Some(74.8), Some(73.0), Some(72.0), Some(71.5)])
  const NOISY := Steady([Some(72.04), Some(72.06), Some(72.03), Some(72.05)])
  const OUTAGE := Steady([Some(75.0), None, None, Some(72.0)])
  const DIRECTION := Fixture(72.0, "in", [Some(75.0), Some(75.0)], [(1, "out")], [])
  const TARGET := Fixture(72.0, "in", [Some(75.0), Some(75.0)], [], [(1, 76.0)])

  lemma AtTarget(cfg: Settings)
    ensures SentInAll(cfg, AT_TARGET) == ["fan_off.ir"]
  {
    hide SentBy, TargetAfter, DirectionAfter;
    NothingSent(cfg, AT_TARGET);
    for n := 0 to 4
      invariant SentBy(cfg, AT_TARGET, n) == if n == 0 then [] else ["fan_off.ir"]
    {
      NoChanges(AT_TARGET, n + 1);
      Off(cfg, AT_TARGET, n);
    }
  }

  lemma Cooling(cfg: Settings)
    requires Shipped(cfg)
    ensures SentInAll(cfg, COOLING) == ["fan_on_in_80.ir", "fan_off.ir"]
  {
    hide SentBy, TargetAfter, DirectionAfter, Reached, ResolveIrFilename, Shipped;
    WholeSteps();
    RecordedNames();
    NothingSent(cfg, COOLING);
    NoChanges(COOLING, 1);
    NoChanges(COOLING, 2);
    NoChanges(COOLING, 3);
    On(cfg, COOLING, 0, 4, 1, 8, "fan_on_in_80.ir");
    Off(cfg, COOLING, 1);
    Off(cfg, COOLING, 2);
  }

  lemma HeatingSettings(n: nat)
    requires 1 <= n <= 8
    ensures TargetAfter(HEATING, n) == 72.0 && DirectionAfter(HEATING, n) == "in"
  {
    NoChanges(HEATING, n);
  }

  lemma HeatingUp(cfg: Settings)
    requires Shipped(cfg)
    ensures SentBy(cfg, HEATING, 4) == ["fan_off.ir", "fan_on_in_10.ir", "fan_on_in_30.ir", "fan_on_in_80.ir"]
  {
    hide SentBy, TargetAfter, DirectionAfter, Reached, ResolveIrFilename, Shipped, ComputeSpeed;
    WholeSteps();
    FifthsOfSteps();
    RecordedNames();
    NothingSent(cfg, HEATING);
    forall n: nat | 1 <= n <= 4
      ensures TargetAfter(HEATING, n) == 72.0 && DirectionAfter(HEATING, n) == "in"
    {
      HeatingSettings(n);
    }
    Off(cfg, HEATING, 0);
    On(cfg, HEATING, 1, 6, 5, 1, "fan_on_in_10.ir");
    On(cfg, HEATING, 2, 12, 5, 3, "fan_on_in_30.ir");
    On(cfg, HEATING, 3, 4, 1, 8, "fan_on_in_80.ir");
  }

  lemma Heating(cfg: Settings)
    requires Shipped(cfg)
    ensures SentInAll(cfg, HEATING)
            == ["fan_off.ir", "fan_on_in_10.ir", "fan_on_in_30.ir", "fan_on_in_80.ir", "fan_on_in_100.ir",
                "fan_on_in_20.ir", "fan_off.ir"]
  {
    hide SentBy, TargetAfter, DirectionAfter, Reached, ResolveIrFilename, Shipped, ComputeSpeed;
    HeatingUp(cfg);
    WholeSteps();
    FifthsOfSteps();
    RecordedNames();
    forall n: nat | 5 <= n <= 8
      ensures TargetAfter(HEATING, n) == 72.0 && DirectionAfter(HEATING, n) == "in"
    {
      HeatingSettings(n);
    }
    On(cfg, HEATING, 4, 28, 5, 10, "fan_on_in_100.ir");
    On(cfg, HEATING, 5, 2, 1, 2, "fan_on_in_20.ir");
    Off(cfg, HEATING, 6);
    Off(cfg, HEATING, 7);
  }

  lemma Noisy(cfg: Settings)
    requires Shipped(cfg)
    ensures SentInAll(cfg, NOISY) == ["fan_on_in_10.ir"]
  {
    hide SentBy, TargetAfter, DirectionAfter, Reached, ResolveIrFilename, Shipped;
    FirstStep(25, 2);
    FirstStep(25, 3);
    FirstStep(50, 3);
    FirstStep(10, 1);
    RecordedNames();
    NothingSent(cfg, NOISY);
    forall n: nat | 1 <= n <= 4
      ensures TargetAfter(NOISY, n) == 72.0 && DirectionAfter(NOISY, n) == "in"
    {
      NoChanges(NOISY, n);
    }
    On(cfg, NOISY, 0, 2, 25, 1, "fan_on_in_10.ir");
    On(cfg, NOISY, 1, 3, 25, 1, "fan_on_in_10.ir");
    On(cfg, NOISY, 2, 3, 50, 1, "fan_on_in_10.ir");
    On(cfg, NOISY, 3, 1, 10, 1, "fan_on_in_10.ir");
  }

  lemma Outage(cfg: Settings)
    requires Shipped(cfg)
    ensures SentInAll(cfg, OUTAGE) == ["fan_on_in_100.ir", "fan_off.ir"]
  {
    hide SentBy, TargetAfter, DirectionAfter, Reached, ResolveIrFilename, Shipped;
    WholeSteps();
    RecordedNames();
    NothingSent(cfg, OUTAGE);
    NoChanges(OUTAGE, 1);
    NoChanges(OUTAGE, 4);
    On(cfg, OUTAGE, 0, 6, 1, 10, "fan_on_in_100.ir");
    NoReading(cfg, OUTAGE, 1);
    NoReading(cfg, OUTAGE, 2);
    Off(cfg, OUTAGE, 3);
  }

  lemma DirectionSettings()
    ensures TargetAfter(DIRECTION, 1) == TargetAfter(DIRECTION, 2) == 72.0
    ensures DirectionAfter(DIRECTION, 1) == "in" && DirectionAfter(DIRECTION, 2) == "out"
  {
    hide TargetAfter, DirectionAfter;
    FirstTargetInForce(DIRECTION, 1);
    FirstTargetInForce(DIRECTION, 2);
    FirstDirectionInForce(DIRECTION, 1);
    DirectionInForce(DIRECTION, 1, 0);
  }

  lemma DirectionChanged(cfg: Settings)
    requires Shipped(cfg)
    ensures SentInAll(cfg, DIRECTION) == ["fan_on_in_100.ir", "fan_on_out_100.ir"]
  {
    hide SentBy, TargetAfter, DirectionAfter, Reached, ResolveIrFilename, Shipped, ComputeSpeed;
    WholeSteps();
    RecordedNames();
    NothingSent(cfg, DIRECTION);
    DirectionSettings();
    On(cfg, DIRECTION, 0, 6, 1, 10, "fan_on_in_100.ir");
    On(cfg, DIRECTION, 1, 6, 1, 10, "fan_on_out_100.ir");
  }

  lemma TargetSettings()
    ensures TargetAfter(TARGET, 1) == 72.0 && TargetAfter(TARGET, 2) == 76.0 && DirectionAfter(TARGET, 1) == "in"
  {
    hide TargetAfter, DirectionAfter;
    FirstTargetInForce(TARGET, 1);
    FirstDirectionInForce(TARGET, 1);
    TargetInForce(TARGET, 1, 0);
  }

  lemma TargetChanged(cfg: Settings)
    requires Shipped(cfg)
    ensures SentInAll(cfg, TARGET) == ["fan_on_in_100.ir", "fan_off.ir"]
  {
    hide SentBy, TargetAfter, DirectionAfter, Reached, ResolveIrFilename, Shipped, ComputeSpeed;
    WholeSteps();
    RecordedNames();
    NothingSent(cfg, TARGET);
    TargetSettings();
    On(cfg, TARGET, 0, 6, 1, 10, "fan_on_in_100.ir");
    Off(cfg, TARGET, 1);
  }

  /** Replayed, every fixture sends what it lists as expected. */
  method ReplayAll(cfg: Settings, startNow: real, stepSeconds: real) returns (sent: seq<seq<string>>)
    requires Shipped(cfg)
    ensures sent == [
      ["fan_off.ir"],
      ["fan_on_in_80.ir", "fan_off.ir"],
      ["fan_on_in_100.ir", "fan_on_out_100.ir"],
      ["fan_off.ir", "fan_on_in_10.ir", "fan_on_in_30.ir", "fan_on_in_80.ir", "fan_on_in_100.ir", "fan_on_in_20.ir",
       "fan_off.ir"],
      ["fan_on_in_10.ir"],
      ["fan_on_in_100.ir", "fan_off.ir"],
      ["fan_on_in_100.ir", "fan_off.ir"]]
  {
    AtTarget(cfg);
    Cooling(cfg);
    DirectionChanged(cfg);
    Heating(cfg);
    Noisy(cfg);
    Outage(cfg);
    TargetChanged(cfg);
    hide *;
    var atTarget := ReplayOne(cfg, AT_TARGET, startNow, stepSeconds);
    var cooling := ReplayOne(cfg, COOLING, startNow, stepSeconds);
    var direction := ReplayOne(cfg, DIRECTION, startNow, stepSeconds);
    var heating := ReplayOne(cfg, HEATING, startNow, stepSeconds);
    var noisy := ReplayOne(cfg, NOISY, startNow, stepSeconds);
    var outage := ReplayOne(cfg, OUTAGE, startNow, stepSeconds);
    var target := ReplayOne(cfg, TARGET, startNow, stepSeconds);
    sent := [atTarget, cooling, direction, heating, noisy, outage, target];
  }

  method ReplayOne(cfg: Settings, f: Fixture, startNow: real, stepSeconds: real) returns (sent: seq<string>)
    ensures sent == SentInAll(cfg, f)
  {
    hide Collapse, Commands, Shows;
    var fb: Firebase;
    sent, fb := RunReplayFixture(cfg, f, startNow, stepSeconds, 0);
  }
}

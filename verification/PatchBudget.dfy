/** How often a fan may write to Firebase over a whole run. */
module PatchBudget {
  import opened Prelude
  import opened JsonTree
  import opened FanIr
  import opened FanControl

  /** One iteration as it meets the world: any node content, any event. */
  datatype Tick = Tick(data: Json, event: Event)

  function After(cfg: Settings, s: FanState, ir: IrState, k: Tick): Outcome {
    Decide(cfg, s, ir, k.data, k.event)
  }

  /** Patches that succeed during a run. */
  function Patches(cfg: Settings, s: FanState, ir: IrState, ticks: seq<Tick>): nat
    decreases |ticks|
  {
    if ticks == [] then 0 else
    var o := After(cfg, s, ir, ticks[0]);
    (if o.patched then 1 else 0) + Patches(cfg, o.state, o.ir, ticks[1..])
  }

  /** The distance the valid readings travel, starting from the last one before the run. */
  function Travel(from: Option<real>, ticks: seq<Tick>): real
    decreases |ticks|
  {
    if ticks == [] then 0.0 else
    var r := ticks[0].event.reading;
    Leap(from, r) + Travel(if r.Some? then r else from, ticks[1..])
  }

  function Leap(from: Option<real>, to: Option<real>): real {
    if from.Some? && to.Some? then Abs(to.value - from.value) else 0.0
  }

  predicate Ordered(start: real, ticks: seq<Tick>)
    decreases |ticks|
  {
    ticks == [] || (start <= ticks[0].event.now && Ordered(ticks[0].event.now, ticks[1..]))
  }

  function End(start: real, ticks: seq<Tick>): real {
    if ticks == [] then start else ticks[|ticks| - 1].event.now
  }

  // ----- Shares of a unit -----

  function Share(x: real, unit: real): real
    requires unit > 0.0
  {
    x / unit
  }

  lemma ShareSum(x: real, y: real, unit: real)
    requires unit > 0.0
    ensures Share(x + y, unit) == Share(x, unit) + Share(y, unit)
  {}

  lemma ShareOrder(x: real, y: real, unit: real)
    requires unit > 0.0 && x <= y
    ensures Share(x, unit) <= Share(y, unit)
  {}

  lemma ShareWhole(unit: real)
    requires unit > 0.0
    ensures Share(unit, unit) == 1.0 && Share(0.0, unit) == 0.0
  {}

  // ----- The budget -----

  function Count(b: bool): real { if b then 1.0 else 0.0 }

  /** What entitles a state to patch, at a time and with a last valid reading: a first
      temperature, a first time, the way the readings have gone since the last patched
      one, and the time since the last patch. */
  function Credit(cfg: Settings, s: FanState, last: Option<real>, time: real): real {
    Count(s.lastTemp.None?) + Count(s.lastTime.None?)
    + Share(Leap(s.lastTemp, last), cfg.threshold)
    + Share(if s.lastTime.Some? then time - s.lastTime.value else 0.0, cfg.heartbeat)
  }

  predicate Consistent(s: FanState, last: Option<real>, time: real) {
    && (s.lastTemp.Some? ==> last.Some?)
    && (s.lastTime.Some? ==> s.lastTime.value <= time)
  }

  lemma LeapTriangle(a: Option<real>, b: Option<real>, c: Option<real>)
    requires a.Some? ==> b.Some?
    ensures Leap(a, c) <= Leap(a, b) + Leap(b, c) && 0.0 <= Leap(a, b)
    ensures Leap(a, a) == 0.0
  {}

  /** A patch costs one credit, which the step or an earlier one has earned. */
  lemma StepCredit(cfg: Settings, s: FanState, ir: IrState, last: Option<real>, time: real, k: Tick)
    requires Consistent(s, last, time) && time <= k.event.now
    ensures var o := After(cfg, s, ir, k);
            var last' := if k.event.reading.Some? then k.event.reading else last;
            && Consistent(o.state, last', k.event.now)
            && Count(o.patched) + Credit(cfg, o.state, last', k.event.now)
               <= Credit(cfg, s, last, time) + Share(Leap(last, k.event.reading), cfg.threshold)
                  + Share(k.event.now - time, cfg.heartbeat)
  {
    hide Share;
    var o, r, now := After(cfg, s, ir, k), k.event.reading, k.event.now;
    var last' := if r.Some? then r else last;
    var since := if s.lastTime.Some? then time - s.lastTime.value else 0.0;
    LeapTriangle(s.lastTemp, last, r);
    LeapTriangle(last', last', last');
    ShareWhole(cfg.threshold);
    ShareWhole(cfg.heartbeat);
    ShareSum(Leap(s.lastTemp, last), Leap(last, r), cfg.threshold);
    ShareSum(since, now - time, cfg.heartbeat);
    ShareOrder(0.0, since + (now - time), cfg.heartbeat);
    ShareOrder(0.0, Leap(s.lastTemp, last), cfg.threshold);
    ShareOrder(0.0, Leap(s.lastTemp, last) + Leap(last, r), cfg.threshold);
    if r.Some? {
      ShareOrder(Leap(s.lastTemp, r), Leap(s.lastTemp, last) + Leap(last, r), cfg.threshold);
      if Leap(s.lastTemp, r) >= cfg.threshold { ShareOrder(cfg.threshold, Leap(s.lastTemp, r), cfg.threshold); }
    }
    if s.lastTime.Some? && now - s.lastTime.value >= cfg.heartbeat {
      ShareOrder(cfg.heartbeat, since + (now - time), cfg.heartbeat);
    }
    if s.lastTime.None? { ShareOrder(0.0, now - time, cfg.heartbeat); }
  }

  lemma {:induction false} RunCredit(cfg: Settings, s: FanState, ir: IrState, last: Option<real>, time: real,
                                     ticks: seq<Tick>)
    requires Consistent(s, last, time) && Ordered(time, ticks)
    ensures Patches(cfg, s, ir, ticks) as real
            <= Credit(cfg, s, last, time) + Share(Travel(last, ticks), cfg.threshold)
               + Share(End(time, ticks) - time, cfg.heartbeat)
    decreases |ticks|
  {
    hide Share, Credit, Decide, Leap;
    if ticks == [] {
      ShareWhole(cfg.threshold);
      ShareWhole(cfg.heartbeat);
      CreditNonNegative(cfg, s, last, time);
    } else {
      var k, rest := ticks[0], ticks[1..];
      var o := After(cfg, s, ir, k);
      var last' := if k.event.reading.Some? then k.event.reading else last;
      StepCredit(cfg, s, ir, last, time, k);
      RunCredit(cfg, o.state, o.ir, last', k.event.now, rest);
      ShareSum(Leap(last, k.event.reading), Travel(last', rest), cfg.threshold);
      ShareSum(k.event.now - time, End(k.event.now, rest) - k.event.now, cfg.heartbeat);
      assert End(time, ticks) == End(k.event.now, rest);
    }
  }

  lemma CreditNonNegative(cfg: Settings, s: FanState, last: Option<real>, time: real)
    requires Consistent(s, last, time)
    ensures Credit(cfg, s, last, time) >= 0.0
  {
    hide Share;
    LeapTriangle(s.lastTemp, last, last);
    ShareWhole(cfg.threshold);
    ShareWhole(cfg.heartbeat);
    ShareOrder(0.0, Leap(s.lastTemp, last), cfg.threshold);
    ShareOrder(0.0, if s.lastTime.Some? then time - s.lastTime.value else 0.0, cfg.heartbeat);
  }

  /** Whatever the readings, outages, transmitter failures, patch failures and settings in
      Firebase, a fan that starts afresh makes at most two patches, plus one for every
      threshold its readings travel, plus one for every heartbeat that passes. */
  lemma PatchesBounded(cfg: Settings, s: FanState, ir: IrState, start: real, ticks: seq<Tick>)
    requires s.lastTemp.None? && s.lastTime.None? && Ordered(start, ticks)
    ensures Patches(cfg, s, ir, ticks) as real
            <= 2.0 + Travel(None, ticks) / cfg.threshold + (End(start, ticks) - start) / cfg.heartbeat
  {
    RunCredit(cfg, s, ir, None, start, ticks);
    ShareWhole(cfg.threshold);
    ShareWhole(cfg.heartbeat);
  }

  /** The same for a fan that resumes, counted from its last patch. */
  lemma ResumedPatchesBounded(cfg: Settings, s: FanState, ir: IrState, ticks: seq<Tick>)
    requires s.lastTemp.Some? && s.lastTime.Some? && Ordered(s.lastTime.value, ticks)
    ensures Patches(cfg, s, ir, ticks) as real
            <= Travel(s.lastTemp, ticks) / cfg.threshold
               + (End(s.lastTime.value, ticks) - s.lastTime.value) / cfg.heartbeat
  {
    RunCredit(cfg, s, ir, s.lastTemp, s.lastTime.value, ticks);
    LeapTriangle(s.lastTemp, s.lastTemp, s.lastTemp);
    ShareWhole(cfg.threshold);
    ShareWhole(cfg.heartbeat);
  }

  /** The two are needed: an outage and then a reading, at one instant, patch twice. */
  lemma TwoAtOnce(cfg: Settings, ir: IrState, now: real, reading: real)
    ensures var ticks := [Tick(NONE, Event(now, true, None, true, true)),
                          Tick(NONE, Event(now, true, Some(reading), true, true))];
            && Patches(cfg, FRESH, ir, ticks) == 2
            && Travel(None, ticks) == 0.0 && End(now, ticks) == now && Ordered(now, ticks)
  {
    var a, b := Tick(NONE, Event(now, true, None, true, true)), Tick(NONE, Event(now, true, Some(reading), true, true));
    assert [a, b][1..] == [b];
    var o := After(cfg, FRESH, ir, a);
    assert Patches(cfg, o.state, o.ir, [b]) == 1 by {
      assert Patches(cfg, After(cfg, o.state, o.ir, b).state, After(cfg, o.state, o.ir, b).ir, []) == 0;
    }
    assert Travel(None, [b]) == 0.0 by { assert Travel(Some(reading), []) == 0.0; }
    assert Ordered(now, [b]) by { assert Ordered(now, []); }
  }
}

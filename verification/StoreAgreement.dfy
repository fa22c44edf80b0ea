/** What a fan's node in Firebase says, against what the fan remembers. */
module StoreAgreement {
  import opened Prelude
  import opened JsonTree
  import opened FanIr
  import opened FanControl

  const TELEMETRY := {"lastUpdate", "online", "sensorOk", "irOk", "lastIrCommand", "lastError",
                      "sensorCrcFailures", "currentTemp"}

  /** Either the fan runs an iteration, or somebody else leaves a new tree behind. */
  datatype Happening = Iteration(event: Event) | Elsewhere(tree: Json)

  /** Others may do what they like but write telemetry or put a leaf in the node's way. */
  ghost predicate LeavesTelemetry(node: Path, before: Json, after: Json) {
    Writable(after, node) && forall k <- TELEMETRY :: Field(Get(after, node), k) == Field(Get(before, node), k)
  }

  ghost function Run(cfg: Settings, node: Path, w: World, hs: seq<Happening>): (r: World)
    requires Writable(w.tree, node) && Allowed(cfg, node, w, hs)
    ensures Writable(r.tree, node)
    decreases |hs|
  {
    if hs == [] then w else Run(cfg, node, Next(cfg, node, w, hs[0]), hs[1..])
  }

  ghost function Next(cfg: Settings, node: Path, w: World, h: Happening): World
    requires Writable(w.tree, node)
  {
    match h
    case Iteration(e) => Iterate(cfg, node, w, e)
    case Elsewhere(tree) => w.(tree := tree)
  }

  ghost predicate Allowed(cfg: Settings, node: Path, w: World, hs: seq<Happening>)
    requires Writable(w.tree, node)
    decreases |hs|
  {
    hs != [] ==>
      && (hs[0].Elsewhere? ==> LeavesTelemetry(node, w.tree, hs[0].tree))
      && Allowed(cfg, node, Next(cfg, node, w, hs[0]), hs[1..])
  }

  // ----- One iteration -----

  /** A node right after a patch, and a node no patch was made to. */
  lemma NodeAfter(cfg: Settings, node: Path, w: World, e: Event)
    requires Writable(w.tree, node)
    ensures var o := Decide(cfg, w.state, w.ir, Seen(w.tree, node, e), e);
            Get(Iterate(cfg, node, w, e).tree, node)
            == if o.patched then Merged(Get(w.tree, node), Leaves(o.patch.value)) else Get(w.tree, node)
  {
    var o := Decide(cfg, w.state, w.ir, Seen(w.tree, node, e), e);
    if o.patched {
      var value := Merged(Get(w.tree, node), Leaves(o.patch.value));
      WritableNodePatches(w.tree, node, Leaves(o.patch.value));
      PutThenLookup(w.tree, node, value, []);
      assert node + [] == node;
    }
  }

  lemma MergedField(existing: Json, patch: map<string, Scalar>, key: string)
    ensures Field(Merged(existing, Leaves(patch)), key)
            == if key in patch then Some(patch[key]) else Field(existing, key)
  {}

  /** The keys an iteration patches are telemetry: it never disturbs the user's settings. */
  lemma SettingsUndisturbed(cfg: Settings, node: Path, w: World, e: Event, key: string)
    requires Writable(w.tree, node) && key !in TELEMETRY
    ensures Field(Get(Iterate(cfg, node, w, e).tree, node), key) == Field(Get(w.tree, node), key)
  {
    var o := Decide(cfg, w.state, w.ir, Seen(w.tree, node, e), e);
    NodeAfter(cfg, node, w, e);
    if o.patched { MergedField(Get(w.tree, node), o.patch.value, key); }
  }

  // ----- The memory mirrors the node -----

  /** The node shows the temperature and the time of the patch the fan remembers. */
  ghost predicate Mirrors(cfg: Settings, node: Path, w: World) {
    && (w.state.lastTemp.Some? ==>
          Field(Get(w.tree, node), "currentTemp") == Some(Num(w.state.lastTemp.value)))
    && (w.state.lastTime.Some? ==>
          Field(Get(w.tree, node), "lastUpdate") == Some(Str(cfg.isoTime(w.state.lastTime.value))))
  }

  /** What a patch says, and what is remembered of it. */
  lemma PatchRemembered(cfg: Settings, s: FanState, ir: IrState, data: Json, e: Event)
    ensures var o := Decide(cfg, s, ir, data, e);
            if o.patched then
              && "lastUpdate" in o.patch.value && o.patch.value["lastUpdate"] == Str(cfg.isoTime(e.now))
              && o.state.lastTime == Some(e.now)
              && (match e.reading
                  case Some(t) => "currentTemp" in o.patch.value && o.patch.value["currentTemp"] == Num(t)
                                  && o.state.lastTemp == Some(t)
                  case None => "currentTemp" !in o.patch.value && o.state.lastTemp == s.lastTemp)
            else o.state.lastTemp == s.lastTemp && o.state.lastTime == s.lastTime
  {}

  lemma IterationKeepsMirror(cfg: Settings, node: Path, w: World, e: Event)
    requires Writable(w.tree, node) && Mirrors(cfg, node, w)
    ensures Mirrors(cfg, node, Iterate(cfg, node, w, e))
  {
    hide Decide, Field, Get, Merged, Leaves;
    var data := Seen(w.tree, node, e);
    var o := Decide(cfg, w.state, w.ir, data, e);
    NodeAfter(cfg, node, w, e);
    PatchRemembered(cfg, w.state, w.ir, data, e);
    if o.patched {
      MergedField(Get(w.tree, node), o.patch.value, "currentTemp");
      MergedField(Get(w.tree, node), o.patch.value, "lastUpdate");
    }
  }

  /** Over every run, from a fresh start and through any failures, what the fan remembers
      having patched is what the node shows. */
  lemma {:induction false} RunKeepsMirror(cfg: Settings, node: Path, w: World, hs: seq<Happening>)
    requires Writable(w.tree, node) && Allowed(cfg, node, w, hs) && Mirrors(cfg, node, w)
    ensures Mirrors(cfg, node, Run(cfg, node, w, hs))
    decreases |hs|
  {
    if hs != [] {
      if hs[0].Iteration? { IterationKeepsMirror(cfg, node, w, hs[0].event); }
      RunKeepsMirror(cfg, node, Next(cfg, node, w, hs[0]), hs[1..]);
    }
  }

  // ----- How current the node is -----

  predicate PatchFailed(o: Outcome) { o.patch.Some? && !o.patched }

  /** Unless its own patch failed, an iteration leaves behind a last patch younger than the
      heartbeat and, when there was a reading, a shown temperature closer to it than the
      threshold; this from any state whatever that the node mirrors. */
  lemma IterationLeavesCurrent(cfg: Settings, node: Path, w: World, e: Event)
    requires Writable(w.tree, node) && Mirrors(cfg, node, w)
    requires !PatchFailed(Decide(cfg, w.state, w.ir, Seen(w.tree, node, e), e))
    ensures var r := Iterate(cfg, node, w, e);
            && r.state.lastTime.Some? && e.now - r.state.lastTime.value < cfg.heartbeat
            && (e.reading.Some? ==>
                  exists shown :: Field(Get(r.tree, node), "currentTemp") == Some(Num(shown))
                                  && Abs(e.reading.value - shown) < cfg.threshold)
  {
    IterationKeepsMirror(cfg, node, w, e);
    var r := Iterate(cfg, node, w, e);
    if e.reading.Some? {
      assert r.state.lastTemp.Some? && Abs(e.reading.value - r.state.lastTemp.value) < cfg.threshold;
    }
  }

  /** Whether the throttle lets this iteration patch. */
  predicate PatchDue(cfg: Settings, s: FanState, e: Event) {
    match e.reading
    case Some(t) => ShouldPatch(cfg, s.lastTemp, t, s.lastTime, e.now)
    case None => ShouldPatchStatus(cfg, s.lastTime, e.now)
  }

  ghost function Shown(cfg: Settings, node: Path, w: World, e: Event, key: string): Option<Scalar>
    requires Writable(w.tree, node)
  {
    Field(Get(Iterate(cfg, node, w, e).tree, node), key)
  }

  /** A field after an iteration: as the patch has it when one was due and made, else as before. */
  lemma ShownAfter(cfg: Settings, node: Path, w: World, e: Event, key: string)
    requires Writable(w.tree, node)
    ensures var o := Decide(cfg, w.state, w.ir, Seen(w.tree, node, e), e);
            && o.patched == (PatchDue(cfg, w.state, e) && e.patchWorks)
            && Shown(cfg, node, w, e, key)
               == if o.patched && key in o.patch.value then Some(o.patch.value[key]) else Field(Get(w.tree, node), key)
  {
    var o := Decide(cfg, w.state, w.ir, Seen(w.tree, node, e), e);
    NodeAfter(cfg, node, w, e);
    if o.patched { MergedField(Get(w.tree, node), o.patch.value, key); }
    hide Field, Get, Merged, Leaves, StatusPatch, Request, Wanted;
  }

  /** The sensor flag is another matter. The node tells whether this iteration had a reading
      exactly when a patch was due and made, or the node said so already. */
  lemma SensorFlagCurrentExactly(cfg: Settings, node: Path, w: World, e: Event)
    requires Writable(w.tree, node)
    ensures var current := Some(Bool(e.reading.Some?));
            Shown(cfg, node, w, e, "sensorOk") == current
            <==> (PatchDue(cfg, w.state, e) && e.patchWorks) || Field(Get(w.tree, node), "sensorOk") == current
  {
    ShownAfter(cfg, node, w, e, "sensorOk");
    hide Field, Get, Iterate, Request, Wanted;
  }

  /** So it is with the last command: what the node shows is what the fan last sent exactly
      when a patch was due and made, or the node showed it already. */
  lemma LastCommandCurrentExactly(cfg: Settings, node: Path, w: World, e: Event)
    requires Writable(w.tree, node)
    ensures var current := Some(FanControl.Optional(Iterate(cfg, node, w, e).ir.lastSent));
            Shown(cfg, node, w, e, "lastIrCommand") == current
            <==> (PatchDue(cfg, w.state, e) && e.patchWorks) || Field(Get(w.tree, node), "lastIrCommand") == current
  {
    ShownAfter(cfg, node, w, e, "lastIrCommand");
    hide Field, Get, Request, Wanted;
  }

  /** How the last attempt to send went: this iteration's when there is a reading, else the
      one before. */
  ghost function LastAttempt(cfg: Settings, node: Path, w: World, e: Event, before: bool): bool {
    match e.reading
    case Some(t) => Request(w.ir, Wanted(cfg, Observe(cfg, w.state, Seen(w.tree, node, e)), t), e.irWorks).1
    case None => before
  }

  /** The transmitter flag agrees with the last attempt to send, of which `before` is the
      outcome up to now, exactly when a patch was made and either there was an attempt or
      the last one had succeeded, since without a reading the patch always says all is well;
      or when none was made and the node agreed already. */
  lemma IrFlagCurrentExactly(cfg: Settings, node: Path, w: World, e: Event, before: bool)
    requires Writable(w.tree, node)
    ensures var last := LastAttempt(cfg, node, w, e, before);
            Shown(cfg, node, w, e, "irOk") == Some(Bool(last))
            <==> if PatchDue(cfg, w.state, e) && e.patchWorks then e.reading.Some? || before
                 else Field(Get(w.tree, node), "irOk") == Some(Bool(last))
  {
    ShownAfter(cfg, node, w, e, "irOk");
    hide Field, Get, Iterate, Request, Wanted;
  }

  /** So after an outage a sensor that reads as before can be shown as failed: here for the
      rest of a heartbeat, at any later time within it and whatever else goes on. */
  lemma StaleSensorFlag(cfg: Settings, node: Path, w: World, t0: real, temp: real, later: real)
    requires Writable(w.tree, node) && w.state.lastTemp == Some(temp) && w.state.lastTime == Some(t0)
    requires t0 + cfg.heartbeat <= later < t0 + 2.0 * cfg.heartbeat
    ensures var out := Iterate(cfg, node, w, Event(t0 + cfg.heartbeat, true, None, true, true));
            var back := Iterate(cfg, node, out, Event(later, true, Some(temp), true, true));
            Field(Get(back.tree, node), "sensorOk") == Some(Bool(false))
  {
    var e := Event(t0 + cfg.heartbeat, true, None, true, true);
    var out := Iterate(cfg, node, w, e);
    NodeAfter(cfg, node, w, e);
    var o := Decide(cfg, w.state, w.ir, Seen(w.tree, node, e), e);
    MergedField(Get(w.tree, node), o.patch.value, "sensorOk");
    assert out.state.lastTemp == Some(temp) && out.state.lastTime == Some(t0 + cfg.heartbeat);
    var e' := Event(later, true, Some(temp), true, true);
    assert !ShouldPatch(cfg, out.state.lastTemp, temp, out.state.lastTime, later);
    NodeAfter(cfg, node, out, e');
  }

  /** And at the onset of an outage the node goes on saying the sensor is well. */
  lemma OutageNotShown(cfg: Settings, node: Path, w: World, t0: real, now: real)
    requires Writable(w.tree, node) && w.state.lastTime == Some(t0) && t0 <= now < t0 + cfg.heartbeat
    requires Field(Get(w.tree, node), "sensorOk") == Some(Bool(true))
    ensures Shown(cfg, node, w, Event(now, true, None, true, true), "sensorOk") == Some(Bool(true))
  {
    ShownAfter(cfg, node, w, Event(now, true, None, true, true), "sensorOk");
    hide Field, Get, Iterate;
  }

  /** A new target or direction sends a new command at once, but with an unchanged reading the
      node goes on showing the old one until the heartbeat. */
  lemma StaleCommand(cfg: Settings, node: Path, w: World, t0: real, temp: real, now: real, shown: string)
    requires Writable(w.tree, node) && w.state.lastTemp == Some(temp) && w.state.lastTime == Some(t0)
    requires t0 <= now < t0 + cfg.heartbeat
    requires Field(Get(w.tree, node), "lastIrCommand") == Some(Str(shown))
    requires Wanted(cfg, Observe(cfg, w.state, Get(w.tree, node)), temp) != shown
    ensures var e := Event(now, true, Some(temp), true, true);
            && Iterate(cfg, node, w, e).ir.lastSent == Some(Wanted(cfg, Observe(cfg, w.state, Get(w.tree, node)), temp))
            && Shown(cfg, node, w, e, "lastIrCommand") == Some(Str(shown))
  {
    ShownAfter(cfg, node, w, Event(now, true, Some(temp), true, true), "lastIrCommand");
    hide Field, Get, Wanted;
  }

  /** A failed command is not shown either, when the reading is throttled. */
  lemma FailureNotShown(cfg: Settings, node: Path, w: World, t0: real, temp: real, now: real)
    requires Writable(w.tree, node) && w.state.lastTemp == Some(temp) && w.state.lastTime == Some(t0)
    requires t0 <= now < t0 + cfg.heartbeat
    requires Field(Get(w.tree, node), "irOk") == Some(Bool(true))
    requires w.ir.lastSent != Some(Wanted(cfg, Observe(cfg, w.state, Get(w.tree, node)), temp))
    ensures var e := Event(now, true, Some(temp), false, true);
            !LastAttempt(cfg, node, w, e, true) && Shown(cfg, node, w, e, "irOk") == Some(Bool(true))
  {
    ShownAfter(cfg, node, w, Event(now, true, Some(temp), false, true), "irOk");
    hide Field, Get, Wanted, Iterate;
  }

  /** And an outage patch says the transmitter is well whatever the last attempt did. */
  lemma OutageHidesFailure(cfg: Settings, node: Path, w: World, now: real)
    requires Writable(w.tree, node) && ShouldPatchStatus(cfg, w.state.lastTime, now)
    ensures var e := Event(now, true, None, true, true);
            !LastAttempt(cfg, node, w, e, false) && Shown(cfg, node, w, e, "irOk") == Some(Bool(true))
  {
    ShownAfter(cfg, node, w, Event(now, true, None, true, true), "irOk");
    hide Field, Get, Iterate;
  }
}

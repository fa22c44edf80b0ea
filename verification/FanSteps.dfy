/** One iteration of a fan in the words of its surroundings: the keys of its node, the names
    of the commands, and the time and temperature of the last patch. */
module FanSteps {
  import opened Prelude
  import opened JsonTree
  import opened FanIr
  import opened FanControl
  import opened StoreAgreement
  import SpeedCurve
  import Text

  // ----- The settings -----

  /** Whether the iteration reads a dictionary at the node. */
  ghost predicate ReadsNode(node: Path, w: World, e: Event) {
    e.getWorks && Lookup(w.tree, node).Some? && Lookup(w.tree, node).value.Obj?
  }

  /** A failed read, a missing node and a node that is no dictionary leave the settings alone. */
  lemma SettingsKept(cfg: Settings, node: Path, w: World, e: Event)
    requires Writable(w.tree, node) && !ReadsNode(node, w, e)
    ensures var s := Iterate(cfg, node, w, e).state;
            s.target == w.state.target && s.direction == w.state.direction
  {
    hide StatusPatch, Wanted, Request;
  }

  /** Nor does a setting change that is missing from the node, or is no scalar there. */
  lemma MissingKept(cfg: Settings, node: Path, w: World, e: Event)
    requires Writable(w.tree, node)
    ensures var s, data := Iterate(cfg, node, w, e).state, Get(w.tree, node);
            && (!e.getWorks || Field(data, "targetTemp") == None ==> s.target == w.state.target)
            && (!e.getWorks || Field(data, "direction") == None ==> s.direction == w.state.direction)
  {
    hide StatusPatch, Wanted, Request, Get;
  }

  /** What becomes of the target, whatever stands at the node. Numbers are taken, truth values
      as one and zero, texts if they read as a number; all else leaves it as it was. */
  lemma TargetTaken(cfg: Settings, node: Path, w: World, e: Event, m: map<string, Json>)
    requires Writable(w.tree, node) && e.getWorks && Lookup(w.tree, node) == Some(Obj(m))
    ensures Iterate(cfg, node, w, e).state.target
            == if "targetTemp" !in m then w.state.target
               else match m["targetTemp"]
                 case Leaf(Num(r)) => r
                 case Leaf(Bool(true)) => 1.0
                 case Leaf(Bool(false)) => 0.0
                 case Leaf(Str(s)) => (match cfg.parseFloat(s) case Some(r) => r case None => w.state.target)
                 case Leaf(Null) => w.state.target
                 case Obj(_) => w.state.target
  {
    hide StatusPatch, Wanted, Request;
  }

  /** The direction is taken exactly when it is one of the two. */
  lemma DirectionTaken(cfg: Settings, node: Path, w: World, e: Event, m: map<string, Json>)
    requires Writable(w.tree, node) && e.getWorks && Lookup(w.tree, node) == Some(Obj(m))
    ensures var known := "direction" in m && (m["direction"] == Leaf(Str("in")) || m["direction"] == Leaf(Str("out")));
            Iterate(cfg, node, w, e).state.direction == if known then m["direction"].v.s else w.state.direction
  {
    hide StatusPatch, Wanted, Request;
  }

  /** No iteration of the run reads the node. */
  ghost predicate Unread(cfg: Settings, node: Path, w: World, hs: seq<Happening>)
    requires Writable(w.tree, node) && Allowed(cfg, node, w, hs)
    decreases |hs|
  {
    hs != [] ==>
      && (hs[0].Iteration? ==> !ReadsNode(node, w, hs[0].event))
      && Unread(cfg, node, Next(cfg, node, w, hs[0]), hs[1..])
  }

  /** However long the node cannot be read and whatever happens meanwhile, the fan keeps the
      settings it read last. */
  lemma {:induction false} UnreadKeepsSettings(cfg: Settings, node: Path, w: World, hs: seq<Happening>)
    requires Writable(w.tree, node) && Allowed(cfg, node, w, hs) && Unread(cfg, node, w, hs)
    ensures var s := Run(cfg, node, w, hs).state;
            s.target == w.state.target && s.direction == w.state.direction
    decreases |hs|
  {
    if hs != [] {
      if hs[0].Iteration? { SettingsKept(cfg, node, w, hs[0].event); }
      hide Iterate, LeavesTelemetry;
      UnreadKeepsSettings(cfg, node, Next(cfg, node, w, hs[0]), hs[1..]);
    }
  }

  // ----- The command -----

  /** The file for a reading under the settings in `s`. */
  function FileFor(cfg: Settings, s: FanState, reading: real): string {
    var speed := SpeedCurve.ComputeSpeed(reading, s.target, cfg.gradient, cfg.exponent, cfg.pow);
    if speed == 0 then "fan_off.ir"
    else (if s.direction == "out" then "fan_on_out_" else "fan_on_in_") + Text.Decimal(speed) + ".ir"
  }

  /** With a reading the fan asks for the file of its speed under the settings just seen: nothing
      goes out when it was the last one sent, or the transmitter fails. At or below the target
      that file is the one that switches the fan off. */
  lemma CommandSent(cfg: Settings, node: Path, w: World, e: Event, reading: real)
    requires Writable(w.tree, node) && e.reading == Some(reading)
    ensures var r := Iterate(cfg, node, w, e);
            var name := FileFor(cfg, r.state, reading);
            && (reading <= r.state.target ==> name == "fan_off.ir")
            && r.ir == if w.ir.lastSent == Some(name) || !e.irWorks then w.ir
                       else IrState(Some(name), w.ir.sent + [name])
  {
    var s := Observe(cfg, w.state, Seen(w.tree, node, e));
    assert Wanted(cfg, s, reading) == FileFor(cfg, s, reading);
    hide Observe, StatusPatch, Wanted, FileFor, ShouldPatch;
    FilesFollowSettings(cfg, s, Iterate(cfg, node, w, e).state, reading);
    OffAtTarget(cfg, s, reading);
  }

  lemma FilesFollowSettings(cfg: Settings, s: FanState, t: FanState, reading: real)
    requires s.target == t.target && s.direction == t.direction
    ensures FileFor(cfg, s, reading) == FileFor(cfg, t, reading)
  {}

  lemma OffAtTarget(cfg: Settings, s: FanState, reading: real)
    ensures reading <= s.target ==> FileFor(cfg, s, reading) == "fan_off.ir"
  {}

  /** Without one it asks for nothing. */
  lemma NoCommand(cfg: Settings, node: Path, w: World, e: Event)
    requires Writable(w.tree, node) && e.reading == None
    ensures Iterate(cfg, node, w, e).ir == w.ir
  {
    hide Observe, StatusPatch;
  }

  // ----- The patch -----

  /** No patch yet, or the last one is a heartbeat old. */
  ghost predicate Late(cfg: Settings, s: FanState, now: real) {
    match s.lastTime
    case None => true
    case Some(t) => now - t >= cfg.heartbeat
  }

  /** No temperature shown yet, or it is off by the threshold to either side. */
  ghost predicate Moved(cfg: Settings, s: FanState, reading: Option<real>) {
    match reading
    case None => false
    case Some(t) =>
      match s.lastTemp
      case None => true
      case Some(shown) => t >= shown + cfg.threshold || t <= shown - cfg.threshold
  }

  /** The node is written by this iteration. */
  ghost predicate Patches(cfg: Settings, w: World, e: Event) {
    (Late(cfg, w.state, e.now) || Moved(cfg, w.state, e.reading)) && e.patchWorks
  }

  lemma DueIsLateOrMoved(cfg: Settings, s: FanState, e: Event)
    ensures PatchDue(cfg, s, e) <==> Late(cfg, s, e.now) || Moved(cfg, s, e.reading)
  {}

  /** What is remembered: the time of the last patch, and its temperature if it had one. */
  lemma Remembers(cfg: Settings, node: Path, w: World, e: Event)
    requires Writable(w.tree, node)
    ensures var s, patched := Iterate(cfg, node, w, e).state, Patches(cfg, w, e);
            && s.lastTime == (if patched then Some(e.now) else w.state.lastTime)
            && s.lastTemp == (if patched && e.reading.Some? then e.reading else w.state.lastTemp)
            && s.crcFailures == w.state.crcFailures
  {
    DueIsLateOrMoved(cfg, w.state, e);
    hide StatusPatch, Wanted, Request, Late, Moved, ShouldPatch, ShouldPatchStatus;
  }

  /** The file asked for by this iteration, if any. */
  ghost function Asked(cfg: Settings, node: Path, w: World, e: Event): Option<string>
    requires Writable(w.tree, node)
  {
    match e.reading
    case None => None
    case Some(t) => Some(FileFor(cfg, Iterate(cfg, node, w, e).state, t))
  }

  /** Whether what was asked for is on its way, or was already. */
  ghost predicate Answered(cfg: Settings, node: Path, w: World, e: Event)
    requires Writable(w.tree, node)
  {
    e.irWorks || (Asked(cfg, node, w, e).Some? && Asked(cfg, node, w, e) == w.ir.lastSent)
  }

  /** The eight keys of a status as they ought to be after an iteration that patches. */
  ghost function Status(cfg: Settings, node: Path, w: World, e: Event): map<string, Scalar>
    requires Writable(w.tree, node)
  {
    var asked, answered := Asked(cfg, node, w, e), Answered(cfg, node, w, e);
    var last := Iterate(cfg, node, w, e).ir.lastSent;
    map["lastUpdate" := Str(cfg.isoTime(e.now)), "online" := Bool(true), "sensorOk" := Bool(e.reading.Some?),
        "irOk" := Bool(asked.None? || answered),
        "lastIrCommand" := match last { case None => Null case Some(name) => Str(name) },
        "lastError" := if asked.None? then Str("Temperature read failed")
                       else if answered then Null else Str("IR send failed for " + asked.value),
        "sensorCrcFailures" := Num(w.state.crcFailures as real)]
    + match e.reading { case None => map[] case Some(t) => map["currentTemp" := Num(t)] }
  }

  /** The node after an iteration, key by key. A patch shows exactly the status; a key that is
      not part of it, and every key when there is no patch, stands as before. */
  lemma StatusShown(cfg: Settings, node: Path, w: World, e: Event, key: string)
    requires Writable(w.tree, node)
    ensures Shown(cfg, node, w, e, key)
            == if Patches(cfg, w, e) && key in Status(cfg, node, w, e) then Some(Status(cfg, node, w, e)[key])
               else Field(Get(w.tree, node), key)
  {
    DueIsLateOrMoved(cfg, w.state, e);
    ShownAfter(cfg, node, w, e, key);
    var o := Decide(cfg, w.state, w.ir, Seen(w.tree, node, e), e);
    if o.patched { PatchIsStatus(cfg, node, w, e); }
    hide Field, Get, Iterate, Decide, Late, Moved, Status, PatchDue;
  }

  lemma PatchIsStatus(cfg: Settings, node: Path, w: World, e: Event)
    requires Writable(w.tree, node)
    ensures var o := Decide(cfg, w.state, w.ir, Seen(w.tree, node, e), e);
            o.patch.Some? ==> o.patch.value == Status(cfg, node, w, e)
  {
    var o := Decide(cfg, w.state, w.ir, Seen(w.tree, node, e), e);
    assert Iterate(cfg, node, w, e).ir == o.ir && Iterate(cfg, node, w, e).state == o.state;
    var s := Observe(cfg, w.state, Seen(w.tree, node, e));
    assert s.crcFailures == w.state.crcFailures;
    hide Iterate, Observe, Control, Outage, StatusPatch, FileFor, Seen;
    match e.reading {
      case Some(t) =>
        PatchWithReading(cfg, s, w.ir, t, e);
        FilesFollowSettings(cfg, s, o.state, t);
      case None => PatchWithout(cfg, s, w.ir, e);
    }
  }

  lemma PatchWithReading(cfg: Settings, s: FanState, ir: IrState, t: real, e: Event)
    ensures var o := Control(cfg, s, ir, t, e.now, e.irWorks, e.patchWorks);
            var name := FileFor(cfg, s, t);
            var answered := e.irWorks || ir.lastSent == Some(name);
            && o.state.target == s.target && o.state.direction == s.direction
            && (o.patch.Some? ==> o.patch.value == map[
                  "lastUpdate" := Str(cfg.isoTime(e.now)), "online" := Bool(true), "sensorOk" := Bool(true),
                  "irOk" := Bool(answered),
                  "lastIrCommand" := match o.ir.lastSent { case None => Null case Some(c) => Str(c) },
                  "lastError" := if answered then Null else Str("IR send failed for " + name),
                  "sensorCrcFailures" := Num(s.crcFailures as real), "currentTemp" := Num(t)])
  {
    assert Wanted(cfg, s, t) == FileFor(cfg, s, t);
    hide Wanted, FileFor, ShouldPatch;
  }

  lemma PatchWithout(cfg: Settings, s: FanState, ir: IrState, e: Event)
    ensures var o := Outage(cfg, s, ir, e.now, e.patchWorks);
            && o.ir == ir
            && (o.patch.Some? ==> o.patch.value == map[
                  "lastUpdate" := Str(cfg.isoTime(e.now)), "online" := Bool(true), "sensorOk" := Bool(false),
                  "irOk" := Bool(true),
                  "lastIrCommand" := match ir.lastSent { case None => Null case Some(c) => Str(c) },
                  "lastError" := Str("Temperature read failed"),
                  "sensorCrcFailures" := Num(s.crcFailures as real)])
  {}

  // ----- The report -----

  /** What the observer of an iteration is told. */
  lemma Reported(cfg: Settings, node: Path, w: World, e: Event)
    requires Writable(w.tree, node)
    ensures var r, patched := Iterate(cfg, node, w, e), Patches(cfg, w, e);
            var due := Late(cfg, w.state, e.now) || Moved(cfg, w.state, e.reading);
            var report := ReportOf(cfg, w.state, w.ir, Seen(w.tree, node, e), e);
            && report.currentTemp == e.reading && report.patched == patched
            && report.target == r.state.target && report.direction == r.state.direction
            && report.filename == Asked(cfg, node, w, e)
            && report.irSent == (e.reading.Some? && e.irWorks && w.ir.lastSent != Asked(cfg, node, w, e))
            && report.speed == (match e.reading
                                case None => 0
                                case Some(t) => SpeedCurve.ComputeSpeed(t, r.state.target, cfg.gradient, cfg.exponent,
                                                                        cfg.pow))
            && report.reason == (match e.reading
                                 case None => if due then SensorFailure else Skipped
                                 case Some(_) => if due then Updated else Throttled)
  {
    DueIsLateOrMoved(cfg, w.state, e);
    var s := Observe(cfg, w.state, Seen(w.tree, node, e));
    var r := Iterate(cfg, node, w, e);
    assert r.state.target == s.target && r.state.direction == s.direction;
    if e.reading.Some? {
      assert Wanted(cfg, s, e.reading.value) == FileFor(cfg, s, e.reading.value);
      FilesFollowSettings(cfg, s, r.state, e.reading.value);
    }
  }

  /** The first iteration of a fan nobody has set: at its default target of 72 degrees it is
      switched off, and its node is made with the eight keys. */
  lemma FirstIteration(cfg: Settings, node: Path, now: real)
    ensures Writable(EMPTY, node)
    ensures var r := Iterate(cfg, node, World(FRESH, SILENT, EMPTY), Event(now, true, Some(72.0), true, true));
            && r.state == FanState(72.0, "in", Some(72.0), Some(now), 0) && r.ir.sent == ["fan_off.ir"]
            && Get(r.tree, node) == Obj(map[
                 "lastUpdate" := Leaf(Str(cfg.isoTime(now))), "online" := Leaf(Bool(true)),
                 "sensorOk" := Leaf(Bool(true)), "irOk" := Leaf(Bool(true)),
                 "lastIrCommand" := Leaf(Str("fan_off.ir")), "lastError" := Leaf(Null),
                 "sensorCrcFailures" := Leaf(Num(0.0)), "currentTemp" := Leaf(Num(72.0))])
  {
    forall n | 0 <= n < |node| ensures !IsLeafAt(EMPTY, node[..n]) { EmptyHasNoLeaf(node[..n]); }
    var w, e := World(FRESH, SILENT, EMPTY), Event(now, true, Some(72.0), true, true);
    NodeAfter(cfg, node, w, e);
    NothingThere(node);
    FirstDecision(cfg, Get(EMPTY, node), now);
    MadeNew(Get(EMPTY, node), FirstStatus(cfg, now));
    LeavesOfStatus(cfg, now);
    hide Get, Decide, Merged, Leaves, FirstStatus;
  }

  function FirstStatus(cfg: Settings, now: real): map<string, Scalar> {
    map["lastUpdate" := Str(cfg.isoTime(now)), "online" := Bool(true), "sensorOk" := Bool(true), "irOk" := Bool(true),
        "lastIrCommand" := Str("fan_off.ir"), "lastError" := Null, "sensorCrcFailures" := Num(0.0),
        "currentTemp" := Num(72.0)]
  }

  lemma FirstDecision(cfg: Settings, data: Json, now: real)
    requires data == EMPTY || data == NONE
    ensures Decide(cfg, FRESH, SILENT, data, Event(now, true, Some(72.0), true, true))
            == Outcome(FanState(72.0, "in", Some(72.0), Some(now), 0), IrState(Some("fan_off.ir"), ["fan_off.ir"]),
                       Some(FirstStatus(cfg, now)), true)
  {
    assert Observe(cfg, FRESH, data) == FRESH;
    assert Wanted(cfg, FRESH, 72.0) == "fan_off.ir";
    hide Observe, Wanted;
  }

  lemma MadeNew(data: Json, patch: map<string, Scalar>)
    requires data == EMPTY || data == NONE
    ensures Merged(data, Leaves(patch)) == Obj(Leaves(patch))
  {
    assert map[] + Leaves(patch) == Leaves(patch);
  }

  lemma LeavesOfStatus(cfg: Settings, now: real)
    ensures Leaves(FirstStatus(cfg, now)) == map[
              "lastUpdate" := Leaf(Str(cfg.isoTime(now))), "online" := Leaf(Bool(true)),
              "sensorOk" := Leaf(Bool(true)), "irOk" := Leaf(Bool(true)),
              "lastIrCommand" := Leaf(Str("fan_off.ir")), "lastError" := Leaf(Null),
              "sensorCrcFailures" := Leaf(Num(0.0)), "currentTemp" := Leaf(Num(72.0))]
  {}

  /** A node of an empty store reads as null, but for the root, which is the store. */
  lemma NothingThere(node: Path)
    ensures Get(EMPTY, node) == if node == [] then Obj(map[]) else Leaf(Null)
  {}
}

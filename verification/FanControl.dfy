/** One fan: the decision of a control iteration as a function of what it observes, and
    the unit that carries it out against its sensor, its transmitter and Firebase. */
module FanControl {
  import opened Prelude
  import opened JsonTree
  import opened MemoryFirebase
  import opened FanIr
  import SpeedCurve

  /** Settings, and the library functions the loop relies on. */
  datatype Config = Config(
    gradient: real, exponent: real, pow: SpeedCurve.Power,
    threshold: real, heartbeat: real,
    parseFloat: string -> Option<real>, isoTime: real -> string)

  type Settings = c: Config | c.gradient > 0.0 && c.threshold > 0.0 && c.heartbeat > 0.0
    witness Config(0.5, 2.0, (e, x) => 0.0, 0.1, 60.0, s => None, t => "")

  datatype FanState = FanState(
    target: real, direction: string, lastTemp: Option<real>, lastTime: Option<real>, crcFailures: int)

  const FRESH := FanState(72.0, "in", None, None, 0)

  datatype Reason = Skipped | Updated | Throttled | SensorFailure

  datatype Report = Report(
    currentTemp: Option<real>, target: real, direction: string, speed: nat,
    filename: Option<string>, irSent: bool, patched: bool, reason: Reason)

  // ----- Reading the settings of the fan -----

  function FloatOf(cfg: Config, v: Scalar): Option<real> {
    match v
    case Num(r) => Some(r)
    case Bool(b) => Some(if b then 1.0 else 0.0)
    case Str(s) => cfg.parseFloat(s)
    case Null => None
  }

  /** A field of the node as a scalar; none when it is missing or is not a scalar. */
  function Field(data: Json, key: string): Option<Scalar> {
    if data.Obj? && key in data.m && data.m[key].Leaf? then Some(data.m[key].v) else None
  }

  predicate IsDirection(v: Scalar) { v == Str("in") || v == Str("out") }

  function Observe(cfg: Config, s: FanState, data: Json): FanState {
    var target := match Field(data, "targetTemp")
      case None => s.target
      case Some(v) => (match FloatOf(cfg, v) case None => s.target case Some(r) => r);
    var direction := match Field(data, "direction")
      case None => s.direction
      case Some(v) => if IsDirection(v) then v.s else s.direction;
    s.(target := target, direction := direction)
  }

  // ----- Deciding -----

  function Abs(x: real): real { if x < 0.0 then -x else x }

  predicate ShouldPatch(cfg: Config, lastTemp: Option<real>, current: real, lastTime: Option<real>, now: real) {
    if lastTemp.None? then true
    else if Abs(current - lastTemp.value) >= cfg.threshold then true
    else if lastTime.None? then true
    else now - lastTime.value >= cfg.heartbeat
  }

  predicate ShouldPatchStatus(cfg: Config, lastTime: Option<real>, now: real) {
    if lastTime.None? then true else now - lastTime.value >= cfg.heartbeat
  }

  function Optional(s: Option<string>): Scalar {
    if s.None? then Null else Str(s.value)
  }

  function StatusPatch(nowIso: string, current: Option<real>, sensorOk: bool, irOk: bool,
                       lastCommand: Option<string>, lastError: Option<string>, crcFailures: int): map<string, Scalar>
  {
    var patch := map[
      "lastUpdate" := Str(nowIso), "online" := Bool(true), "sensorOk" := Bool(sensorOk),
      "irOk" := Bool(irOk), "lastIrCommand" := Optional(lastCommand),
      "lastError" := Optional(lastError), "sensorCrcFailures" := Num(crcFailures as real)];
    if current.None? then patch else patch["currentTemp" := Num(current.value)]
  }

  function Leaves(m: map<string, Scalar>): map<string, Json> {
    map k | k in m :: Leaf(m[k])
  }

  function Wanted(cfg: Settings, s: FanState, current: real): string {
    ResolveIrFilename(s.direction, SpeedCurve.ComputeSpeed(current, s.target, cfg.gradient, cfg.exponent, cfg.pow))
  }

  /** What one iteration observes of its surroundings: whether Firebase answers, the
      reading, whether the transmitter and Firebase would do what they are asked. */
  datatype Event = Event(now: real, getWorks: bool, reading: Option<real>, irWorks: bool, patchWorks: bool)

  /** The patch attempted, whether it was made, and what is remembered. */
  datatype Outcome = Outcome(state: FanState, ir: IrState, patch: Option<map<string, Scalar>>, patched: bool)

  /** How many patches are attempted. */
  function Tries(o: Outcome): nat { if o.patch.Some? then 1 else 0 }

  /** With a reading: command the fan, and patch the reading in unless it is throttled. */
  function Control(cfg: Settings, s: FanState, ir: IrState, current: real, now: real, irWorks: bool,
                   patchWorks: bool): Outcome
  {
    var name := Wanted(cfg, s, current);
    var (ir', sent) := Request(ir, name, irWorks);
    var error := if sent then None else Some("IR send failed for " + name);
    if ShouldPatch(cfg, s.lastTemp, current, s.lastTime, now) then
      var patch := StatusPatch(cfg.isoTime(now), Some(current), true, sent, ir'.lastSent, error, s.crcFailures);
      Outcome(if patchWorks then s.(lastTemp := Some(current), lastTime := Some(now)) else s,
              ir', Some(patch), patchWorks)
    else Outcome(s, ir', None, false)
  }

  /** Without one: leave the fan alone, and report the failure once a heartbeat. */
  function Outage(cfg: Settings, s: FanState, ir: IrState, now: real, patchWorks: bool): Outcome {
    if ShouldPatchStatus(cfg, s.lastTime, now) then
      var patch := StatusPatch(cfg.isoTime(now), None, false, true, ir.lastSent,
                               Some("Temperature read failed"), s.crcFailures);
      Outcome(if patchWorks then s.(lastTime := Some(now)) else s, ir, Some(patch), patchWorks)
    else Outcome(s, ir, None, false)
  }

  /** One iteration, given the content of the fan's node. */
  function Decide(cfg: Settings, s: FanState, ir: IrState, data: Json, e: Event): (o: Outcome)
    ensures o.patched ==> o.patch.Some?
  {
    match e.reading
    case Some(current) => Control(cfg, Observe(cfg, s, data), ir, current, e.now, e.irWorks, e.patchWorks)
    case None => Outage(cfg, Observe(cfg, s, data), ir, e.now, e.patchWorks)
  }

  /** What a fan remembers, together with the tree it shares with others. */
  datatype World = World(state: FanState, ir: IrState, tree: Json)

  function Seen(tree: Json, node: Path, e: Event): Json {
    if e.getWorks then Get(tree, node) else NONE
  }

  function Written(tree: Json, node: Path, o: Outcome): Json
    requires o.patched ==> o.patch.Some? && Patch(tree, node, Leaves(o.patch.value)).Some?
  {
    if o.patched then Patch(tree, node, Leaves(o.patch.value)).value else tree
  }

  lemma WritableNodePatches(tree: Json, node: Path, patch: map<string, Json>)
    requires Writable(tree, node)
    ensures Patch(tree, node, patch).Some? && Writable(Patch(tree, node, patch).value, node)
  {
    PutSucceeds(tree, node, Merged(Get(tree, node), patch));
    PutKeepsWritable(tree, node, Merged(Get(tree, node), patch), node);
  }

  /** One iteration of one fan. */
  ghost function Iterate(cfg: Settings, node: Path, w: World, e: Event): (r: World)
    requires Writable(w.tree, node)
    ensures Writable(r.tree, node)
  {
    var o := Decide(cfg, w.state, w.ir, Seen(w.tree, node, e), e);
    if o.patched then WritableNodePatches(w.tree, node, Leaves(o.patch.value));
    World(o.state, o.ir, Written(w.tree, node, o))
    else World(o.state, o.ir, w.tree)
  }

  // ----- The surroundings -----

  class Sensor {
    const readings: nat -> Option<real>
    var taken: nat

    constructor (readings: nat -> Option<real>)
      ensures this.readings == readings && taken == 0
    {
      this.readings, taken := readings, 0;
    }

    method ReadTempF() returns (t: Option<real>)
      modifies this
      ensures t == readings(old(taken)) && taken == old(taken) + 1
    {
      t := readings(taken);
      taken := taken + 1;
    }
  }

  /** Firebase as the loop meets it: the store, behind a link that may fail. A failed read
      gives nothing; a failed patch writes nothing. */
  class Firebase {
    const store: InMemoryFirebase
    const getWorks: nat -> bool
    const patchWorks: nat -> bool
    var gets: nat
    var patches: nat

    constructor (store: InMemoryFirebase, getWorks: nat -> bool, patchWorks: nat -> bool)
      ensures this.store == store && this.getWorks == getWorks && this.patchWorks == patchWorks
      ensures gets == 0 && patches == 0
    {
      this.store, this.getWorks, this.patchWorks := store, getWorks, patchWorks;
      gets, patches := 0, 0;
    }

    ghost function State(): Json
      reads this, store
    {
      store.State()
    }

    method Get(path: string) returns (v: Value, ghost c: Shape)
      requires store.Valid()
      modifies this`gets
      ensures gets == old(gets) + 1 && store.Valid()
      ensures Top(c) == v && Intact(c) && Separate(c) && fresh(Nodes(c))
      ensures MemoryFirebase.Tree(c) == if getWorks(old(gets)) then JsonTree.Get(State(), PathParts(path)) else NONE
    {
      gets := gets + 1;
      if getWorks(gets - 1) {
        v, c := store.Get(path);
      } else {
        v, c := Atom(Null), SLeaf(Null);
      }
    }

    method Patch(path: string, data: Dict, ghost p: Shape) returns (ok: bool)
      requires store.Valid() && Writable(State(), PathParts(path))
      requires Top(p) == Ref(data) && Intact(p) && Separate(p) && Nodes(store.shape) !! Nodes(p)
      modifies this`patches, store, Nodes(store.shape)
      ensures store.Valid() && patches == old(patches) + 1 && ok == patchWorks(old(patches))
      ensures forall n <- Nodes(store.shape) :: n in old(Nodes(store.shape)) || n in Nodes(p) || fresh(n)
      ensures ok ==> JsonTree.Patch(old(State()), PathParts(path), MemoryFirebase.Tree(p).m)
                     == Some(State())
      ensures !ok ==> State() == old(State())
    {
      patches := patches + 1;
      if !patchWorks(patches - 1) { return false; }
      WritableNodePatches(State(), PathParts(path), MemoryFirebase.Tree(p).m);
      ok := store.Patch(path, data, p);
    }
  }

  // ----- The unit -----

  lemma FieldOnHeap(data: Value, c: Shape, key: string)
    requires Top(c) == data && Intact(c)
    ensures ScalarAt(data, key) == Field(Tree(c), key)
  {
    if c.SDict? && key in c.kids { KidIntact(c, key); }
  }

  ghost function FlatShape(d: Dict, m: map<string, Scalar>): Shape {
    SDict(d, map k | k in m :: SLeaf(m[k]))
  }

  lemma FlatFacts(d: Dict, m: map<string, Scalar>)
    ensures var p := FlatShape(d, m);
            && Nodes(p) == {d} && Separate(p) && Tree(p) == Obj(Leaves(m))
            && (d.entries == (map k | k in m :: Atom(m[k])) ==> Intact(p))
  {
    var p := FlatShape(d, m);
    assert forall k <- p.kids :: p.kids[k] == SLeaf(m[k]);
    assert forall k <- p.kids :: Separate(p.kids[k]) && Nodes(p.kids[k]) == {} && Intact(p.kids[k]);
    assert Tops(p.kids) == map k | k in m :: Atom(m[k]);
    assert Tree(p).m == Leaves(m);
  }

  /** A fresh dictionary of scalars. */
  method NewDict(m: map<string, Scalar>) returns (d: Dict, ghost p: Shape)
    ensures fresh(d) && Top(p) == Ref(d) && Intact(p) && Separate(p) && Nodes(p) == {d}
    ensures Tree(p) == Obj(Leaves(m))
  {
    d := new Dict();
    d.entries := map k | k in m :: Atom(m[k]);
    p := FlatShape(d, m);
    FlatFacts(d, m);
  }

  /** What an iteration tells its observer. */
  function ControlReport(cfg: Settings, s: FanState, ir: IrState, current: real, o: Outcome): Report {
    Report(Some(current), s.target, s.direction,
           SpeedCurve.ComputeSpeed(current, s.target, cfg.gradient, cfg.exponent, cfg.pow),
           Some(Wanted(cfg, s, current)), o.ir.sent != ir.sent, o.patched, if o.patch.Some? then Updated else Throttled)
  }

  function OutageReport(s: FanState, o: Outcome): Report {
    Report(None, s.target, s.direction, 0, None, false, o.patched,
           if o.patch.Some? then SensorFailure else Skipped)
  }

  function ReportOf(cfg: Settings, s: FanState, ir: IrState, data: Json, e: Event): Report {
    var o := Decide(cfg, s, ir, data, e);
    match e.reading
    case Some(current) => ControlReport(cfg, Observe(cfg, s, data), ir, current, o)
    case None => OutageReport(Observe(cfg, s, data), o)
  }

  /** A scalar under a key of a dictionary read from the store. */
  function ScalarAt(data: Value, key: string): Option<Scalar>
    reads if data.Ref? then {data.d} else {}
  {
    if data.Ref? && key in data.d.entries && data.d.entries[key].Atom? then Some(data.d.entries[key].v) else None
  }

  /** Sends a patch of scalars to a node. */
  method PatchScalars(fb: Firebase, node: string, patch: map<string, Scalar>) returns (ok: bool)
    requires fb.store.Valid() && Writable(fb.State(), PathParts(node))
    modifies fb`patches, fb.store, Nodes(fb.store.shape)
    ensures fb.store.Valid() && fb.patches == old(fb.patches) + 1 && ok == fb.patchWorks(old(fb.patches))
    ensures forall n <- Nodes(fb.store.shape) :: n in old(Nodes(fb.store.shape)) || fresh(n)
    ensures ok ==> Patch(old(fb.State()), PathParts(node), Leaves(patch)) == Some(fb.State())
    ensures !ok ==> fb.State() == old(fb.State())
  {
    NodesAllocated(fb.store.shape);
    var d: Dict;
    ghost var p: Shape;
    d, p := NewDict(patch);
    ok := fb.Patch(node, d, p);
  }

  class FanUnit {
    const cfg: Settings
    const node: string
    const sensor: Sensor
    const ir: DedupingIr
    var state: FanState

    constructor (cfg: Settings, node: string, sensor: Sensor, ir: DedupingIr, state: FanState)
      ensures this.cfg == cfg && this.node == node && this.sensor == sensor && this.ir == ir
      ensures this.state == state
    {
      this.cfg, this.node, this.sensor, this.ir, this.state := cfg, node, sensor, ir, state;
    }

    ghost function WorldOf(fb: Firebase): World
      reads this, ir, ir.inner, fb, fb.store
    {
      World(state, ir.State(), fb.State())
    }

    /** What the next iteration will observe. */
    ghost function Upcoming(fb: Firebase, now: real): Event
      reads sensor, ir, ir.inner, fb
    {
      Event(now, fb.getWorks(fb.gets), sensor.readings(sensor.taken), ir.inner.works(ir.inner.calls),
            fb.patchWorks(fb.patches))
    }

    method FetchSettings(fb: Firebase) returns (target: Option<Scalar>, direction: Option<Scalar>)
      requires fb.store.Valid()
      modifies fb`gets
      ensures fb.store.Valid() && fb.gets == old(fb.gets) + 1
      ensures var data := if fb.getWorks(old(fb.gets)) then Get(fb.State(), PathParts(node)) else NONE;
              target == Field(data, "targetTemp") && direction == Field(data, "direction")
    {
      var data: Value;
      ghost var c: Shape;
      data, c := fb.Get(node);
      FieldOnHeap(data, c, "targetTemp");
      FieldOnHeap(data, c, "direction");
      target := ScalarAt(data, "targetTemp");
      direction := ScalarAt(data, "direction");
    }

    /** Reads the node and keeps what of it is usable. */
    method ReadSettings(fb: Firebase)
      requires fb.store.Valid()
      modifies this`state, fb`gets
      ensures fb.store.Valid() && fb.gets == old(fb.gets) + 1
      ensures var data := if fb.getWorks(old(fb.gets)) then Get(fb.State(), PathParts(node)) else NONE;
              state == Observe(cfg, old(state), data)
    {
      hide Intact, Separate, Nodes;
      NodesAllocated(fb.store.shape);
      var target, direction := FetchSettings(fb);
      var seen := state;
      if target.Some? {
        var parsed := FloatOf(cfg, target.value);
        if parsed.Some? { seen := seen.(target := parsed.value); }
      }
      if direction.Some? && IsDirection(direction.value) {
        seen := seen.(direction := direction.value.s);
      }
      state := seen;
    }

    /** Whether the node was written as `o` has it, with one patch or none. */
    twostate predicate Wrote(fb: Firebase, o: Outcome)
      reads this, fb, fb.store
    {
      && fb.patches == old(fb.patches) + Tries(o)
      && (if o.patched then
            o.patch.Some? && Patch(old(fb.State()), PathParts(node), Leaves(o.patch.value)) == Some(fb.State())
          else fb.State() == old(fb.State()))
    }

    method RunControl(fb: Firebase, now: real, current: real) returns (report: Report)
      requires fb.store.Valid() && Writable(fb.State(), PathParts(node))
      modifies this`state, ir, ir.inner, fb`patches, fb.store, Nodes(fb.store.shape)
      ensures fb.store.Valid() && ir.inner.calls >= old(ir.inner.calls)
      ensures forall n <- Nodes(fb.store.shape) :: n in old(Nodes(fb.store.shape)) || fresh(n)
      ensures var o := Control(cfg, old(state), old(ir.State()), current, now,
                               ir.inner.works(old(ir.inner.calls)), fb.patchWorks(old(fb.patches)));
              && state == o.state && ir.State() == o.ir && Wrote(fb, o)
              && report == ControlReport(cfg, old(state), old(ir.State()), current, o)
    {
      NodesAllocated(fb.store.shape);
      var lastCommand := ir.lastSent;
      var speed := SpeedCurve.ComputeSpeed(current, state.target, cfg.gradient, cfg.exponent, cfg.pow);
      var filename := ResolveIrFilename(state.direction, speed);
      var sent := ir.Send(filename);
      report := Report(Some(current), state.target, state.direction, speed, Some(filename),
                       sent && Some(filename) != lastCommand, false, Throttled);
      var lastError := if sent then None else Some("IR send failed for " + filename);
      lastCommand := ir.lastSent;
      if ShouldPatch(cfg, state.lastTemp, current, state.lastTime, now) {
        report := report.(reason := Updated);
        var ok := PatchScalars(fb, node, StatusPatch(cfg.isoTime(now), Some(current), true, sent, lastCommand,
                                                     lastError, state.crcFailures));
        NodesAllocated(fb.store.shape);
        if ok {
          state := state.(lastTemp := Some(current), lastTime := Some(now));
          report := report.(patched := true);
        }
      }
    }

    method RunOutage(fb: Firebase, now: real) returns (report: Report)
      requires fb.store.Valid() && Writable(fb.State(), PathParts(node))
      modifies this`state, fb`patches, fb.store, Nodes(fb.store.shape)
      ensures fb.store.Valid()
      ensures forall n <- Nodes(fb.store.shape) :: n in old(Nodes(fb.store.shape)) || fresh(n)
      ensures var o := Outage(cfg, old(state), ir.State(), now, fb.patchWorks(old(fb.patches)));
              && state == o.state && ir.State() == o.ir && Wrote(fb, o)
              && report == OutageReport(old(state), o)
    {
      report := Report(None, state.target, state.direction, 0, None, false, false, Skipped);
      if ShouldPatchStatus(cfg, state.lastTime, now) {
        report := report.(reason := SensorFailure);
        var ok := PatchScalars(fb, node, StatusPatch(cfg.isoTime(now), None, false, true, ir.lastSent,
                                          Some("Temperature read failed"), state.crcFailures));
        NodesAllocated(fb.store.shape);
        if ok {
          state := state.(lastTime := Some(now));
          report := report.(patched := true);
        }
      }
    }

    method RunIteration(fb: Firebase, now: real) returns (report: Report)
      requires fb.store.Valid() && Writable(fb.State(), PathParts(node))
      modifies this`state, sensor, ir, ir.inner, fb`gets, fb`patches, fb.store, Nodes(fb.store.shape)
      ensures fb.store.Valid()
      ensures forall n <- Nodes(fb.store.shape) :: n in old(Nodes(fb.store.shape)) || fresh(n)
      ensures WorldOf(fb) == Iterate(cfg, PathParts(node), old(WorldOf(fb)), old(Upcoming(fb, now)))
      ensures report == ReportOf(cfg, old(state), old(ir.State()),
                                 Seen(old(fb.State()), PathParts(node), old(Upcoming(fb, now))), old(Upcoming(fb, now)))
      ensures sensor.taken == old(sensor.taken) + 1 && fb.gets == old(fb.gets) + 1
      ensures fb.patches == old(fb.patches)
                            + Tries(Decide(cfg, old(state), old(ir.State()),
                                           Seen(old(fb.State()), PathParts(node), old(Upcoming(fb, now))),
                                           old(Upcoming(fb, now))))
      ensures ir.inner.calls >= old(ir.inner.calls)
    {
      hide Control, Outage, Observe, ControlReport, OutageReport, Intact, Separate, Nodes, Writable, Patch;
      NodesAllocated(fb.store.shape);
      ReadSettings(fb);
      var current := sensor.ReadTempF();
      if current.Some? {
        report := RunControl(fb, now, current.value);
      } else {
        report := RunOutage(fb, now);
      }
    }
  }
}

/** Replaying a fixture of readings and setting changes through the real loop. */
module Replay {
  import opened Prelude
  import opened JsonTree
  import opened MemoryFirebase
  import opened FanIr
  import opened FanControl
  import opened StoreAgreement
  import opened FanSteps

  const FAN_NODE := "fans/fan1"
  const NODE: Path := ["fans", "fan1"]

  /** Changes carry the index of the step they precede. */
  datatype Fixture = Fixture(
    target: real, direction: string, temps: seq<Option<real>>,
    directionChanges: seq<(int, string)>, targetChanges: seq<(int, real)>)

  /** Of several changes for one step the last counts. */
  function ChangeMap<T>(changes: seq<(int, T)>): map<int, T> {
    if changes == [] then map[]
    else ChangeMap(changes[..|changes| - 1])[changes[|changes| - 1].0 := changes[|changes| - 1].1]
  }

  lemma {:induction false} ChangeMapMeaning<T>(changes: seq<(int, T)>, step: int)
    ensures step in ChangeMap(changes) <==> exists i :: 0 <= i < |changes| && changes[i].0 == step
    ensures forall i :: 0 <= i < |changes| && changes[i].0 == step
                        && (forall j :: i < j < |changes| ==> changes[j].0 != step)
                        ==> step in ChangeMap(changes) && ChangeMap(changes)[step] == changes[i].1
  {
    if changes != [] {
      var front := changes[..|changes| - 1];
      ChangeMapMeaning(front, step);
      assert forall i :: 0 <= i < |front| ==> front[i] == changes[i];
      assert changes[|changes| - 1].0 == step || step in ChangeMap(changes) ==> step in ChangeMap(changes);
    }
  }

  // ----- What ought to be sent -----

  /** The target once the changes before steps 0 to n-1 are made. */
  function TargetAfter(f: Fixture, n: nat): real {
    if n == 0 then f.target
    else if n - 1 in ChangeMap(f.targetChanges) then ChangeMap(f.targetChanges)[n - 1]
    else TargetAfter(f, n - 1)
  }

  /** The direction in force: a change to anything but "in" or "out" is ignored. */
  function DirectionAfter(f: Fixture, n: nat): string {
    if n == 0 then f.direction
    else
      var changes := ChangeMap(f.directionChanges);
      if n - 1 in changes && changes[n - 1] in ["in", "out"] then changes[n - 1]
      else DirectionAfter(f, n - 1)
  }

  /** The direction as the node spells it, valid or not. */
  function WrittenDirection(f: Fixture, n: nat): string {
    if n == 0 then f.direction
    else
      var changes := ChangeMap(f.directionChanges);
      if n - 1 in changes then changes[n - 1] else WrittenDirection(f, n - 1)
  }

  function InForce(f: Fixture, n: nat): FanState {
    FanState(TargetAfter(f, n), DirectionAfter(f, n), None, None, 0)
  }

  /** The commands wanted by the first n readings, under the settings then in force. */
  function Commands(cfg: Settings, f: Fixture, n: nat): seq<string>
    requires n <= |f.temps|
  {
    if n == 0 then []
    else if f.temps[n - 1].None? then Commands(cfg, f, n - 1)
    else Commands(cfg, f, n - 1) + [Wanted(cfg, InForce(f, n), f.temps[n - 1].value)]
  }

  // ----- The settings in force, from the list of changes -----

  /** The last change listed for its step. */
  ghost predicate Final<T>(changes: seq<(int, T)>, i: nat) {
    i < |changes| && forall j :: i < j < |changes| ==> changes[j].0 != changes[i].0
  }

  /** A change made by the time step `n` runs, and no later step has one. */
  ghost predicate TargetChange(f: Fixture, n: nat, i: nat) {
    && Final(f.targetChanges, i) && 0 <= f.targetChanges[i].0 <= n
    && forall j :: 0 <= j < |f.targetChanges| ==> !(f.targetChanges[i].0 < f.targetChanges[j].0 <= n)
  }

  /** Step `n` runs under the target of the latest change listed for it or an earlier step. */
  lemma {:induction false} TargetInForce(f: Fixture, n: nat, i: nat)
    requires TargetChange(f, n, i)
    ensures TargetAfter(f, n + 1) == f.targetChanges[i].1
  {
    ChangeMapMeaning(f.targetChanges, n);
    if f.targetChanges[i].0 < n { TargetInForce(f, n - 1, i); }
  }

  /** It runs under the first target when there is none. */
  lemma {:induction false} FirstTargetInForce(f: Fixture, n: nat)
    requires forall j :: 0 <= j < |f.targetChanges| ==> !(0 <= f.targetChanges[j].0 < n)
    ensures TargetAfter(f, n) == f.target
  {
    if n > 0 {
      ChangeMapMeaning(f.targetChanges, n - 1);
      FirstTargetInForce(f, n - 1);
    }
  }

  /** A change to a direction there is, and the last one listed for its step. */
  ghost predicate Turns(f: Fixture, i: nat) {
    Final(f.directionChanges, i) && (f.directionChanges[i].1 == "in" || f.directionChanges[i].1 == "out")
  }

  ghost predicate DirectionChange(f: Fixture, n: nat, i: nat) {
    && Turns(f, i) && 0 <= f.directionChanges[i].0 <= n
    && forall j: nat :: Turns(f, j) ==> !(f.directionChanges[i].0 < f.directionChanges[j].0 <= n)
  }

  /** The same for the direction; a change to anything but "in" and "out" does not count. */
  lemma {:induction false} DirectionInForce(f: Fixture, n: nat, i: nat)
    requires DirectionChange(f, n, i)
    ensures DirectionAfter(f, n + 1) == f.directionChanges[i].1
  {
    ChangeMapMeaning(f.directionChanges, n);
    if f.directionChanges[i].0 < n {
      if n in ChangeMap(f.directionChanges) { var k := LastFor(f.directionChanges, n); }
      DirectionInForce(f, n - 1, i);
    }
  }

  lemma {:induction false} FirstDirectionInForce(f: Fixture, n: nat)
    requires forall j: nat :: Turns(f, j) ==> !(0 <= f.directionChanges[j].0 < n)
    ensures DirectionAfter(f, n) == f.direction
  {
    if n > 0 {
      if n - 1 in ChangeMap(f.directionChanges) { var k := LastFor(f.directionChanges, n - 1); }
      FirstDirectionInForce(f, n - 1);
    }
  }

  lemma {:induction false} LastFor<T>(changes: seq<(int, T)>, step: int) returns (k: nat)
    requires step in ChangeMap(changes)
    ensures Final(changes, k) && changes[k].0 == step && ChangeMap(changes)[step] == changes[k].1
  {
    var n := |changes| - 1;
    if changes[n].0 == step {
      k := n;
    } else {
      k := LastFor(changes[..n], step);
    }
  }

  /** The steps that have a reading, in order. */
  ghost predicate Steps(f: Fixture, n: nat, ks: seq<nat>)
    requires n <= |f.temps|
  {
    && (forall i, j :: 0 <= i < j < |ks| ==> ks[i] < ks[j])
    && (forall k: nat :: k in ks <==> k < n && f.temps[k].Some?)
  }

  /** There is one command for every reading, in order, and it is the file for that reading under
      the settings in force at its step. */
  lemma {:induction false} CommandsInOrder(cfg: Settings, f: Fixture, n: nat) returns (ks: seq<nat>)
    requires n <= |f.temps|
    ensures Steps(f, n, ks) && |ks| == |Commands(cfg, f, n)|
    ensures forall i :: 0 <= i < |ks| ==>
              && ks[i] in ks
              && Commands(cfg, f, n)[i] == FileFor(cfg, InForce(f, ks[i] + 1), f.temps[ks[i]].value)
  {
    if n == 0 {
      ks := [];
    } else {
      ks := CommandsInOrder(cfg, f, n - 1);
      hide FileFor, InForce, Wanted;
      if f.temps[n - 1].Some? {
        var front := ks;
        ks := ks + [n - 1];
        WantedIsFile(cfg, InForce(f, n), f.temps[n - 1].value);
        assert forall k :: k in ks <==> k in front || k == n - 1;
        assert forall i :: 0 <= i < |front| ==> front[i] in front;
      }
    }
  }

  lemma WantedIsFile(cfg: Settings, s: FanState, reading: real)
    ensures Wanted(cfg, s, reading) == FileFor(cfg, s, reading)
  {}

  // ----- One step -----

  function Changes(f: Fixture, n: nat): map<string, Scalar> {
    var d, t := ChangeMap(f.directionChanges), ChangeMap(f.targetChanges);
    (if n in d then map["direction" := Str(d[n])] else map[])
    + (if n in t then map["targetTemp" := Num(t[n])] else map[])
  }

  ghost predicate Shows(tree: Json, f: Fixture, n: nat) {
    && Writable(tree, NODE)
    && Field(Get(tree, NODE), "targetTemp") == Some(Num(TargetAfter(f, n)))
    && Field(Get(tree, NODE), "direction") == Some(Str(WrittenDirection(f, n)))
  }

  /** Between steps: the node shows the user's settings, the fan has last seen them, and
      what was sent is the collapsed list of commands. */
  ghost predicate Between(cfg: Settings, f: Fixture, n: nat, w: World) {
    && n <= |f.temps| && Shows(w.tree, f, n)
    && w.state.target == TargetAfter(f, n) && w.state.direction == DirectionAfter(f, n)
    && InStep(w.ir) && w.ir.sent == Collapse(Commands(cfg, f, n))
  }

  /** What stands in the store: under fans and fan1 the target in force and the direction last written. */
  lemma ShownAtNode(tree: Json, f: Fixture, n: nat)
    requires Shows(tree, f, n)
    ensures match Lookup(tree, ["fans", "fan1"])
            case Some(Obj(m)) =>
              && "targetTemp" in m && m["targetTemp"] == Leaf(Num(TargetAfter(f, n)))
              && "direction" in m && m["direction"] == Leaf(Str(WrittenDirection(f, n)))
            case _ => false
  {
    hide Lookup, TargetAfter, WrittenDirection;
  }

  lemma {:induction false} WrittenIsInForce(f: Fixture, n: nat)
    ensures WrittenDirection(f, n) in ["in", "out"] ==> DirectionAfter(f, n) == WrittenDirection(f, n)
  {
    if n > 0 { WrittenIsInForce(f, n - 1); }
  }

  lemma ChangesShow(f: Fixture, n: nat, tree: Json)
    requires Shows(tree, f, n)
    ensures Changes(f, n) == map[] ==> Shows(tree, f, n + 1)
    ensures var patch := Leaves(Changes(f, n));
            Patch(tree, NODE, patch).Some? && Shows(Patch(tree, NODE, patch).value, f, n + 1)
  {
    var patch := Leaves(Changes(f, n));
    WritableNodePatches(tree, NODE, patch);
    PutThenLookup(tree, NODE, Merged(Get(tree, NODE), patch), []);
    assert NODE + [] == NODE;
    MergedField(Get(tree, NODE), Changes(f, n), "targetTemp");
    MergedField(Get(tree, NODE), Changes(f, n), "direction");
    if Changes(f, n) == map[] {
      assert "direction" !in Changes(f, n) && "targetTemp" !in Changes(f, n);
    }
  }

  /** A step observes the settings in force. */
  lemma ObservesInForce(cfg: Settings, f: Fixture, n: nat, s: FanState, tree: Json)
    requires Shows(tree, f, n + 1) && s.direction == DirectionAfter(f, n)
    ensures var o := Observe(cfg, s, Get(tree, NODE));
            && o.target == TargetAfter(f, n + 1) && o.direction == DirectionAfter(f, n + 1)
            && o.lastTemp == s.lastTemp && o.lastTime == s.lastTime
  {
    WrittenIsInForce(f, n);
    WrittenIsInForce(f, n + 1);
  }

  lemma WantedBySettings(cfg: Settings, a: FanState, b: FanState, current: real)
    requires a.target == b.target && a.direction == b.direction
    ensures Wanted(cfg, a, current) == Wanted(cfg, b, current)
  {}

  /** What an iteration makes of the settings it observes. */
  lemma IterationFollows(cfg: Settings, w: World, e: Event)
    requires Writable(w.tree, NODE) && e.getWorks && e.irWorks
    ensures var o, r := Observe(cfg, w.state, Get(w.tree, NODE)), Iterate(cfg, NODE, w, e);
            && r.state.target == o.target && r.state.direction == o.direction
            && r.ir == if e.reading.Some? then Request(w.ir, Wanted(cfg, o, e.reading.value), true).0 else w.ir
  {
    hide Request, Wanted, StatusPatch, Observe;
  }

  lemma ShowsAfterIteration(cfg: Settings, f: Fixture, n: nat, w: World, e: Event)
    requires Shows(w.tree, f, n)
    ensures Shows(Iterate(cfg, NODE, w, e).tree, f, n)
  {
    hide Iterate, Field, TargetAfter, WrittenDirection;
    SettingsUndisturbed(cfg, NODE, w, e, "targetTemp");
    SettingsUndisturbed(cfg, NODE, w, e, "direction");
  }

  lemma StepStaysBetween(cfg: Settings, f: Fixture, n: nat, w: World, e: Event)
    requires n < |f.temps| && Shows(w.tree, f, n + 1)
    requires w.state.direction == DirectionAfter(f, n)
    requires InStep(w.ir) && w.ir.sent == Collapse(Commands(cfg, f, n))
    requires e.getWorks && e.reading == f.temps[n] && e.irWorks
    ensures Between(cfg, f, n + 1, Iterate(cfg, NODE, w, e))
  {
    hide Iterate, Observe, Shows, Request, Collapse, InStep, Wanted, TargetAfter, DirectionAfter;
    ShowsAfterIteration(cfg, f, n + 1, w, e);
    ObservesInForce(cfg, f, n, w.state, w.tree);
    assert Writable(w.tree, NODE) by { ShowsWritable(w.tree, f, n + 1); }
    IterationFollows(cfg, w, e);
    if e.reading.Some? {
      var o := Observe(cfg, w.state, Get(w.tree, NODE));
      WantedBySettings(cfg, o, InForce(f, n + 1), e.reading.value);
      CollapseOneMore(w.ir, Commands(cfg, f, n), Wanted(cfg, o, e.reading.value));
    }
  }

  lemma ShowsWritable(tree: Json, f: Fixture, n: nat)
    requires Shows(tree, f, n)
    ensures Writable(tree, NODE)
  {}

  // ----- The run -----

  lemma Spelled()
    ensures "fans" + "/" + "fan1" == FAN_NODE
  {}

  lemma NodePath()
    ensures PathParts(FAN_NODE) == NODE
  {
    hide PathParts;
    Spelled();
    JoinNames(NODE);
    assert NODE[1..] == ["fan1"] && NODE[0] == "fans";
    assert Join(["fan1"]) == "fan1";
    assert Join(NODE) == NODE[0] + "/" + Join(NODE[1..]);
  }

  ghost function InitialTree(f: Fixture): Json {
    Obj(map["fans" := Obj(map["fan1" := Obj(Leaves(map[
      "targetTemp" := Num(f.target), "direction" := Str(f.direction)]))])])
  }

  lemma InitialShows(f: Fixture)
    ensures Shows(InitialTree(f), f, 0)
  {
    var t := InitialTree(f);
    var fans := t.m["fans"];
    assert NODE[1..] == ["fan1"] && NODE[1..][1..] == [];
    assert Lookup(t, NODE) == Lookup(fans, ["fan1"]) == Lookup(fans.m["fan1"], []);
    forall n | 0 <= n < |NODE|
      ensures !IsLeafAt(t, NODE[..n])
    {
      if n == 1 { assert NODE[..1] == ["fans"] && ["fans"][1..] == []; }
    }
  }

  method Nest(key: string, d: Dict, ghost p: Shape) returns (outer: Dict, ghost o: Shape)
    requires Top(p) == Ref(d) && Intact(p) && Separate(p)
    ensures Top(o) == Ref(outer) && Intact(o) && Separate(o) && fresh(outer) && Nodes(o) == {outer} + Nodes(p)
    ensures Tree(o) == Obj(map[key := Tree(p)])
  {
    NodesAllocated(p);
    outer := new Dict();
    outer.entries := map[key := Ref(d)];
    SingleFacts(outer, key, p);
    o := Single(outer, key, p);
  }

  /** The nested dictionaries a replay starts from. */
  method InitialStore(f: Fixture) returns (store: InMemoryFirebase)
    ensures store.Valid() && store.State() == InitialTree(f) && fresh(store) && fresh(Nodes(store.shape))
  {
    hide Intact, Separate, Nodes, Tree;
    var d: Dict;
    ghost var p: Shape;
    d, p := NewDict(map["targetTemp" := Num(f.target), "direction" := Str(f.direction)]);
    d, p := Nest("fan1", d, p);
    d, p := Nest("fans", d, p);
    store := new InMemoryFirebase(d, p);
  }

  /** One iteration of the single-fan loop: the caller keeps the memory, and a unit is
      built around it each time. */
  method RunLoopIteration(cfg: Settings, target: real, direction: string, lastTemp: Option<real>,
                          lastTime: Option<real>, crcFailures: int, sensor: Sensor, ir: DedupingIr, fb: Firebase,
                          now: real)
    returns (target': real, direction': string, lastTemp': Option<real>, lastTime': Option<real>)
    requires fb.store.Valid() && Writable(fb.State(), NODE)
    modifies sensor, ir, ir.inner, fb`gets, fb`patches, fb.store, Nodes(fb.store.shape)
    ensures fb.store.Valid() && sensor.taken == old(sensor.taken) + 1
    ensures forall n <- Nodes(fb.store.shape) :: n in old(Nodes(fb.store.shape)) || fresh(n)
    ensures var e := Event(now, fb.getWorks(old(fb.gets)), sensor.readings(old(sensor.taken)),
                           ir.inner.works(old(ir.inner.calls)), fb.patchWorks(old(fb.patches)));
            var s := FanState(target, direction, lastTemp, lastTime, crcFailures);
            World(FanState(target', direction', lastTemp', lastTime', crcFailures), ir.State(), fb.State())
            == Iterate(cfg, NODE, old(World(s, ir.State(), fb.State())), e)
  {
    hide Intact, Separate, Nodes;
    NodePath();
    NodesAllocated(fb.store.shape);
    var state := FanState(target, direction, lastTemp, lastTime, crcFailures);
    var unit := new FanUnit(cfg, FAN_NODE, sensor, ir, state);
    ghost var w := unit.WorldOf(fb);
    var report := unit.RunIteration(fb, now);
    IterationKeepsCrc(cfg, w, unit.WorldOf(fb));
    state := unit.state;
    target', direction', lastTemp', lastTime' := state.target, state.direction, state.lastTemp, state.lastTime;
  }

  lemma IterationKeepsCrc(cfg: Settings, w: World, r: World)
    requires Writable(w.tree, NODE) && exists e :: r == Iterate(cfg, NODE, w, e)
    ensures r.state.crcFailures == w.state.crcFailures
  {
    hide StatusPatch, Wanted, Request;
  }

  /** Makes the changes a fixture has for a step. */
  method MakeChanges(f: Fixture, n: nat, fb: Firebase)
    requires fb.store.Valid() && Shows(fb.State(), f, n) && forall k: nat :: fb.patchWorks(k)
    modifies fb`patches, fb.store, Nodes(fb.store.shape)
    ensures fb.store.Valid() && Shows(fb.State(), f, n + 1)
    ensures Changes(f, n) == map[] ==> fb.State() == old(fb.State())
    ensures Changes(f, n) != map[] ==> Patch(old(fb.State()), NODE, Leaves(Changes(f, n))) == Some(fb.State())
    ensures forall k <- Nodes(fb.store.shape) :: k in old(Nodes(fb.store.shape)) || fresh(k)
  {
    hide Intact, Separate, Nodes, Shows;
    var patches := Changes(f, n);
    ChangesShow(f, n, fb.State());
    NodePath();
    ShowsWritable(fb.State(), f, n);
    if patches != map[] { var ok := PatchScalars(fb, FAN_NODE, patches); }
  }

  ghost predicate AllWork(fb: Firebase, ir: DedupingIr) {
    && (forall k: nat :: fb.getWorks(k)) && (forall k: nat :: fb.patchWorks(k))
    && (forall k: nat :: ir.inner.works(k))
  }

  ghost predicate Ready(cfg: Settings, f: Fixture, n: nat, s: FanState, sensor: Sensor, ir: DedupingIr, fb: Firebase)
    reads sensor, ir, ir.inner, fb, fb.store, Nodes(fb.store.shape)
  {
    && fb.store.Valid() && AllWork(fb, ir) && sensor.taken == n
    && (forall i: nat :: i < |f.temps| ==> sensor.readings(i) == f.temps[i])
    && Between(cfg, f, n, World(s, ir.State(), fb.State()))
  }

  method ReplayStep(cfg: Settings, f: Fixture, n: nat, s: FanState, sensor: Sensor, ir: DedupingIr,
                    fb: Firebase, now: real) returns (s': FanState)
    requires n < |f.temps| && Ready(cfg, f, n, s, sensor, ir, fb)
    modifies sensor, ir, ir.inner, fb, fb.store, Nodes(fb.store.shape)
    ensures Ready(cfg, f, n + 1, s', sensor, ir, fb)
    ensures forall k <- Nodes(fb.store.shape) :: k in old(Nodes(fb.store.shape)) || fresh(k)
  {
    NodesAllocated(fb.store.shape);
    MakeChanges(f, n, fb);
    hide Shows, Intact, Separate, Nodes, Iterate;
    ShowsWritable(fb.State(), f, n + 1);
    ghost var w := World(s, ir.State(), fb.State());
    StepStaysBetween(cfg, f, n, w, Event(now, true, f.temps[n], true, true));
    var target, direction, lastTemp, lastTime :=
      RunLoopIteration(cfg, s.target, s.direction, s.lastTemp, s.lastTime, s.crcFailures, sensor, ir, fb, now);
    s' := FanState(target, direction, lastTemp, lastTime, s.crcFailures);
  }

  method SetUp(cfg: Settings, f: Fixture, crcFailures: int) returns (sensor: Sensor, ir: DedupingIr, fb: Firebase)
    ensures fresh(sensor) && fresh(ir) && fresh(ir.inner)
    ensures fresh(fb) && fresh(fb.store) && fresh(Nodes(fb.store.shape))
    ensures Ready(cfg, f, 0, FanState(f.target, f.direction, None, None, crcFailures), sensor, ir, fb)
  {
    var store := InitialStore(f);
    hide Intact, Separate, Nodes, InitialTree, Shows;
    NodesAllocated(store.shape);
    fb := new Firebase(store, n => true, n => true);
    sensor := new Sensor((i: nat) => if i < |f.temps| then f.temps[i] else None);
    var fake := new Transmitter(n => true);
    ir := new DedupingIr(fake);
    InitialShows(f);
  }

  /** Replaying any fixture through the loop, with a transmitter and a store that work,
      sends exactly the commands its readings call for under the settings then in force,
      less consecutive duplicates, and leaves the user's settings as the fixture last
      wrote them. */
  method RunReplayFixture(cfg: Settings, f: Fixture, startNow: real, stepSeconds: real, crcFailures: int)
    returns (sent: seq<string>, fb: Firebase)
    ensures sent == Collapse(Commands(cfg, f, |f.temps|))
    ensures fb.store.Valid() && Shows(fb.State(), f, |f.temps|)
  {
    var sensor: Sensor;
    var ir: DedupingIr;
    sensor, ir, fb := SetUp(cfg, f, crcFailures);
    hide Shows, Collapse, Commands, InStep, TargetAfter, DirectionAfter, AllWork, Intact, Separate, Nodes;
    var s, now := FanState(f.target, f.direction, None, None, crcFailures), startNow;
    var index := 0;
    while index < |f.temps|
      invariant 0 <= index <= |f.temps|
      invariant Ready(cfg, f, index, s, sensor, ir, fb) == true  // kept folded
      invariant fresh(fb.store) && forall n <- Nodes(fb.store.shape) :: fresh(n)
    {
      hide *;
      s := ReplayStep(cfg, f, index, s, sensor, ir, fb, now);
      now := now + stepSeconds;
      index := index + 1;
    }
    sent := ir.inner.sent;
  }
}

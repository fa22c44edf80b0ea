/** Several fans over one store: each fares as it would alone. */
module MultiFan {
  import opened Prelude
  import opened JsonTree
  import opened MemoryFirebase
  import opened FanIr
  import opened FanControl
  import opened StoreAgreement

  /** A fan with what it remembers and what it is about to meet. */
  datatype Fan = Fan(node: Path, state: FanState, ir: IrState, event: Event)

  ghost function Alone(cfg: Settings, f: Fan, tree: Json): (r: World)
    requires Writable(tree, f.node)
    ensures Writable(r.tree, f.node)
  {
    Iterate(cfg, f.node, World(f.state, f.ir, tree), f.event)
  }

  /** No fan's node lies at or below another's, and every node can be written. */
  ghost predicate Placed(fans: seq<Fan>, tree: Json) {
    && (forall i :: 0 <= i < |fans| ==> Writable(tree, fans[i].node))
    && (forall i, j :: 0 <= i < j < |fans| ==> Apart(fans[i].node, fans[j].node))
  }

  /** The tree after the fans have run one after another. */
  ghost function Pass(cfg: Settings, fans: seq<Fan>, tree: Json): Json
    requires Placed(fans, tree)
    decreases |fans|
  {
    if fans == [] then tree else
    PlacedAfter(cfg, fans, tree);
    Pass(cfg, fans[1..], Alone(cfg, fans[0], tree).tree)
  }

  // ----- One fan's iteration, seen by another -----

  /** An iteration depends on the tree through its own node alone, and what it does to the
      tree is one write there or nothing. */
  lemma ReadsOwnNode(cfg: Settings, f: Fan, a: Json, b: Json)
    requires Writable(a, f.node) && Writable(b, f.node) && Get(a, f.node) == Get(b, f.node)
    ensures var ra, rb := Alone(cfg, f, a), Alone(cfg, f, b);
            ra.state == rb.state && ra.ir == rb.ir && Get(ra.tree, f.node) == Get(rb.tree, f.node)
  {
    NodeAfter(cfg, f.node, World(f.state, f.ir, a), f.event);
    NodeAfter(cfg, f.node, World(f.state, f.ir, b), f.event);
  }

  lemma OneWrite(cfg: Settings, f: Fan, tree: Json)
    requires Writable(tree, f.node)
    ensures var value := NodeValue(cfg, f, Get(tree, f.node));
            if value.Some? then Put(tree, f.node, value.value) == Some(Alone(cfg, f, tree).tree)
            else Alone(cfg, f, tree).tree == tree
  {
    var o := Decide(cfg, f.state, f.ir, Seen(tree, f.node, f.event), f.event);
    if o.patched { WritableNodePatches(tree, f.node, Leaves(o.patch.value)); }
  }

  /** What a fan writes to its node, given what stands there. */
  function NodeValue(cfg: Settings, f: Fan, content: Json): Option<Json> {
    var o := Decide(cfg, f.state, f.ir, if f.event.getWorks then content else NONE, f.event);
    if o.patched then Some(Merged(content, Leaves(o.patch.value))) else None
  }

  lemma LeavesOthers(cfg: Settings, f: Fan, tree: Json, other: Path)
    requires Writable(tree, f.node) && Writable(tree, other) && Apart(f.node, other)
    ensures Get(Alone(cfg, f, tree).tree, other) == Get(tree, other)
    ensures Writable(Alone(cfg, f, tree).tree, other)
  {
    hide NodeValue, Iterate;
    OneWrite(cfg, f, tree);
    var value := NodeValue(cfg, f, Get(tree, f.node));
    if value.Some? {
      PutLeavesApart(tree, f.node, value.value, other);
      PutKeepsWritable(tree, f.node, value.value, other);
    }
  }

  lemma PlacedAfter(cfg: Settings, fans: seq<Fan>, tree: Json)
    requires Placed(fans, tree) && fans != []
    ensures Placed(fans[1..], Alone(cfg, fans[0], tree).tree)
  {
    forall i | 0 <= i < |fans[1..]|
      ensures Writable(Alone(cfg, fans[0], tree).tree, fans[1..][i].node)
    {
      assert Apart(fans[0].node, fans[i + 1].node);
      LeavesOthers(cfg, fans[0], tree, fans[i + 1].node);
    }
  }

  /** The tree the i-th fan finds when its turn comes. */
  ghost function Found(cfg: Settings, fans: seq<Fan>, tree: Json, i: nat): (t: Json)
    requires Placed(fans, tree) && i < |fans|
    ensures Writable(t, fans[i].node)
    decreases |fans|
  {
    if i == 0 then tree else
    PlacedAfter(cfg, fans, tree);
    Found(cfg, fans[1..], Alone(cfg, fans[0], tree).tree, i - 1)
  }

  lemma {:induction false} FoundAsAtFirst(cfg: Settings, fans: seq<Fan>, tree: Json, i: nat)
    requires Placed(fans, tree) && i < |fans|
    ensures Get(Found(cfg, fans, tree, i), fans[i].node) == Get(tree, fans[i].node)
    decreases |fans|
  {
    if i > 0 {
      PlacedAfter(cfg, fans, tree);
      assert Apart(fans[0].node, fans[i].node);
      LeavesOthers(cfg, fans[0], tree, fans[i].node);
      FoundAsAtFirst(cfg, fans[1..], Alone(cfg, fans[0], tree).tree, i - 1);
    }
  }

  lemma {:induction false} PassLeavesOthers(cfg: Settings, fans: seq<Fan>, tree: Json, other: Path)
    requires Placed(fans, tree) && Writable(tree, other)
    requires forall i :: 0 <= i < |fans| ==> Apart(fans[i].node, other)
    ensures Get(Pass(cfg, fans, tree), other) == Get(tree, other)
    decreases |fans|
  {
    if fans != [] {
      PlacedAfter(cfg, fans, tree);
      LeavesOthers(cfg, fans[0], tree, other);
      PassLeavesOthers(cfg, fans[1..], Alone(cfg, fans[0], tree).tree, other);
    }
  }

  /** In one pass every fan ends with the memory, the emitted commands and the node content
      it would have had running alone. */
  lemma {:induction false} PassIsIndependent(cfg: Settings, fans: seq<Fan>, tree: Json, i: nat)
    requires Placed(fans, tree) && i < |fans|
    ensures var mine, alone := Alone(cfg, fans[i], Found(cfg, fans, tree, i)), Alone(cfg, fans[i], tree);
            && mine.state == alone.state && mine.ir == alone.ir
            && Get(Pass(cfg, fans, tree), fans[i].node) == Get(alone.tree, fans[i].node)
    decreases |fans|
  {
    hide Iterate;
    FoundAsAtFirst(cfg, fans, tree, i);
    ReadsOwnNode(cfg, fans[i], Found(cfg, fans, tree, i), tree);
    PlacedAfter(cfg, fans, tree);
    var next := Alone(cfg, fans[0], tree).tree;
    if i == 0 {
      forall j | 0 <= j < |fans[1..]|
        ensures Apart(fans[1..][j].node, fans[0].node)
      {
        assert Apart(fans[0].node, fans[j + 1].node);
      }
      PassLeavesOthers(cfg, fans[1..], next, fans[0].node);
    } else {
      PassIsIndependent(cfg, fans[1..], next, i - 1);
      assert Apart(fans[0].node, fans[i].node);
      LeavesOthers(cfg, fans[0], tree, fans[i].node);
      ReadsOwnNode(cfg, fans[i], next, tree);
    }
  }

  // ----- Any order -----

  /** Two neighbours may change places. */
  lemma SwapFirstTwo(cfg: Settings, a: Fan, b: Fan, tree: Json)
    requires Writable(tree, a.node) && Writable(tree, b.node) && Apart(a.node, b.node)
    ensures Writable(Alone(cfg, a, tree).tree, b.node) && Writable(Alone(cfg, b, tree).tree, a.node)
    ensures Alone(cfg, b, Alone(cfg, a, tree).tree).tree == Alone(cfg, a, Alone(cfg, b, tree).tree).tree
  {
    hide NodeValue, Iterate;
    LeavesOthers(cfg, a, tree, b.node);
    LeavesOthers(cfg, b, tree, a.node);
    OneWrite(cfg, a, tree);
    OneWrite(cfg, b, tree);
    OneWrite(cfg, b, Alone(cfg, a, tree).tree);
    OneWrite(cfg, a, Alone(cfg, b, tree).tree);
    var v, w := NodeValue(cfg, a, Get(tree, a.node)), NodeValue(cfg, b, Get(tree, b.node));
    if v.Some? && w.Some? { PutsCommute(tree, a.node, v.value, b.node, w.value); }
  }

  lemma PlacedPart(fans: seq<Fan>, part: seq<Fan>, at: nat -> nat, tree: Json)
    requires Placed(fans, tree)
    requires forall i: nat :: i < |part| ==> at(i) < |fans| && part[i] == fans[at(i)]
    requires forall i: nat, j: nat :: i < j < |part| ==> at(i) != at(j)
    ensures Placed(part, tree)
  {
    forall i, j | 0 <= i < j < |part|
      ensures Apart(part[i].node, part[j].node)
    {
      var x, y := at(i), at(j);
      if x < y { assert Apart(fans[x].node, fans[y].node); } else { assert Apart(fans[y].node, fans[x].node); }
    }
  }

  lemma PassCons(cfg: Settings, f: Fan, fans: seq<Fan>, tree: Json)
    requires Placed([f] + fans, tree) && Writable(tree, f.node)
    ensures Placed(fans, Alone(cfg, f, tree).tree)
    ensures Pass(cfg, [f] + fans, tree) == Pass(cfg, fans, Alone(cfg, f, tree).tree)
  {
    hide Iterate;
    PlacedAfter(cfg, [f] + fans, tree);
    assert ([f] + fans)[1..] == fans;
  }

  lemma PlacedSwapped(fans: seq<Fan>, tree: Json)
    requires Placed(fans, tree) && |fans| >= 2
    ensures Placed([fans[1], fans[0]] + fans[2..], tree)
  {
    PlacedPart(fans, [fans[1], fans[0]] + fans[2..], i => if i == 0 then 1 else if i == 1 then 0 else i, tree);
  }

  lemma SwapHeads(cfg: Settings, f: Fan, g: Fan, rest: seq<Fan>, tree: Json)
    requires Placed([f, g] + rest, tree)
    ensures Placed([g, f] + rest, tree)
    ensures Pass(cfg, [f, g] + rest, tree) == Pass(cfg, [g, f] + rest, tree)
  {
    hide Iterate, Pass;
    var a, b := [f, g] + rest, [g, f] + rest;
    PlacedSwapped(a, tree);
    assert b == [a[1], a[0]] + a[2..];
    assert a == [f] + ([g] + rest) && b == [g] + ([f] + rest);
    assert Writable(tree, a[0].node) && Writable(tree, a[1].node) && Apart(a[0].node, a[1].node);
    SwapFirstTwo(cfg, f, g, tree);
    PassCons(cfg, f, [g] + rest, tree);
    PassCons(cfg, g, [f] + rest, tree);
    PassCons(cfg, g, rest, Alone(cfg, f, tree).tree);
    PassCons(cfg, f, rest, Alone(cfg, g, tree).tree);
  }

  /** Letting a later fan go first changes nothing. */
  lemma {:induction false} MoveToFront(cfg: Settings, before: seq<Fan>, f: Fan, after: seq<Fan>, tree: Json)
    requires Placed(before + [f] + after, tree)
    ensures Placed([f] + before + after, tree)
    ensures Pass(cfg, before + [f] + after, tree) == Pass(cfg, [f] + before + after, tree)
    decreases |before|
  {
    hide Iterate, Pass;
    MovedPlaced(before + [f] + after, |before|, tree);
    Pieces(before, f, after);
    if before == [] {
      assert before + [f] + after == [f] + before + after;
    } else {
      HeadPieces(before, f, after);
      var g, rest := before[0], before[1..];
      assert (before + [f] + after)[0] == g;
      var mid := Alone(cfg, g, tree).tree;
      PassCons(cfg, g, rest + [f] + after, tree);
      MoveToFront(cfg, rest, f, after, mid);
      SwapHeads(cfg, f, g, rest + after, tree);
      PassCons(cfg, g, [f] + rest + after, tree);
    }
  }

  lemma Pieces(before: seq<Fan>, f: Fan, after: seq<Fan>)
    ensures var late := before + [f] + after;
            [late[|before|]] + late[..|before|] + late[|before| + 1..] == [f] + before + after
  {
    var late := before + [f] + after;
    assert late[..|before|] == before;
    assert late[|before| + 1..] == after;
  }

  lemma HeadPieces(before: seq<Fan>, f: Fan, after: seq<Fan>)
    requires before != []
    ensures before + [f] + after == [before[0]] + (before[1..] + [f] + after)
    ensures [f] + before + after == [f, before[0]] + (before[1..] + after)
    ensures [before[0], f] + (before[1..] + after) == [before[0]] + ([f] + before[1..] + after)
  {
    var g, rest := before[0], before[1..];
    assert before == [g] + rest;
    Regroup([g], rest, [f] + after);
    assert (rest + [f]) + after == rest + ([f] + after) && (before + [f]) + after == before + ([f] + after);
    Regroup([f], [g] + rest, after);
    assert [f] + [g] == [f, g] && [g] + [f] == [g, f];
    Regroup([f] + [g], rest, after);
    Regroup([f], [g], rest);
    Regroup([g], [f], rest + after);
    Regroup([f], rest, after);
  }

  lemma Regroup(a: seq<Fan>, b: seq<Fan>, c: seq<Fan>)
    ensures (a + b) + c == a + (b + c)
  {}

  lemma Reordered(fans: seq<Fan>, others: seq<Fan>) returns (k: nat)
    requires multiset(fans) == multiset(others) && fans != []
    ensures k < |others| && others[k] == fans[0]
    ensures multiset(fans[1..]) == multiset(others[..k] + others[k + 1..])
  {
    assert fans == [fans[0]] + fans[1..];
    assert fans[0] in multiset(others);
    k :| 0 <= k < |others| && others[k] == fans[0];
    WithoutOne(others, k);
    WithoutOne(fans, 0);
    assert fans[..0] + fans[1..] == fans[1..];
  }

  lemma WithoutOne(fans: seq<Fan>, k: nat)
    requires k < |fans|
    ensures multiset(fans[..k] + fans[k + 1..]) == multiset(fans) - multiset{fans[k]}
  {
    var a, x, b := fans[..k], [fans[k]], fans[k + 1..];
    assert fans == a + x + b;
    assert multiset(fans) == multiset(a) + multiset(x) + multiset(b);
  }

  /** A pass leaves the same tree in whatever order the fans are taken. */
  lemma {:induction false} OrderDoesNotMatter(cfg: Settings, fans: seq<Fan>, others: seq<Fan>, tree: Json)
    requires Placed(fans, tree) && Placed(others, tree) && multiset(fans) == multiset(others)
    ensures Pass(cfg, fans, tree) == Pass(cfg, others, tree)
    decreases |fans|
  {
    hide Iterate;
    if fans == [] {
      assert |others| == |multiset(others)| == 0;
    } else {
      var k := Reordered(fans, others);
      var f, before, after := fans[0], others[..k], others[k + 1..];
      var moved := [f] + before + after;
      MovedPlaced(others, k, tree);
      assert others == before + [f] + after;
      MoveToFront(cfg, before, f, after, tree);
      PlacedAfter(cfg, fans, tree);
      PlacedAfter(cfg, moved, tree);
      assert moved[0] == f && moved[1..] == before + after;
      OrderDoesNotMatter(cfg, fans[1..], before + after, Alone(cfg, f, tree).tree);
    }
  }

  lemma MovedPlaced(fans: seq<Fan>, k: nat, tree: Json)
    requires Placed(fans, tree) && k < |fans|
    ensures Placed([fans[k]] + fans[..k] + fans[k + 1..], tree)
  {
    PlacedPart(fans, [fans[k]] + fans[..k] + fans[k + 1..],
               i => if i == 0 then k else if i <= k then i - 1 else i, tree);
  }

  // ----- The units themselves -----

  /** The units, their wrappers, transmitters and sensors are all different objects. */
  ghost predicate Distinct(units: seq<FanUnit>) {
    forall i, j :: 0 <= i < j < |units| ==>
      && units[i] != units[j] && units[i].ir != units[j].ir && units[i].ir.inner != units[j].ir.inner
      && units[i].sensor != units[j].sensor
  }

  /** A store that never fails: the in-memory one. */
  ghost predicate Reliable(fb: Firebase) {
    (forall n: nat :: fb.getWorks(n)) && (forall n: nat :: fb.patchWorks(n))
  }

  /** A unit as a fan about to run at `now` over a link that works. */
  ghost function Snapshot(u: FanUnit, now: real): Fan
    reads u, u.ir, u.ir.inner, u.sensor
  {
    Fan(PathParts(u.node), u.state, u.ir.State(),
        Event(now, true, u.sensor.readings(u.sensor.taken), u.ir.inner.works(u.ir.inner.calls), true))
  }

  /** The same fan over a link that lets its read and its patch through or not. */
  function Met(f: Fan, get: bool, patch: bool): Fan {
    f.(event := f.event.(getWorks := get, patchWorks := patch))
  }

  ghost function Snapshots(units: seq<FanUnit>, now: real): (fans: seq<Fan>)
    reads Footprint(units)
    ensures |fans| == |units| && forall i :: 0 <= i < |units| ==> fans[i] == Snapshot(units[i], now)
    ensures forall i :: 0 <= i < |fans| ==> fans[i] == Met(fans[i], true, true)
  {
    seq(|units|, i requires 0 <= i < |units|
                 reads Footprint(units)
                 => InFootprint(units, i); Snapshot(units[i], now))
  }

  lemma InFootprint(units: seq<FanUnit>, i: nat)
    requires i < |units|
    ensures units[i] in Footprint(units) && units[i].ir in Footprint(units)
    ensures units[i].ir.inner in Footprint(units) && units[i].sensor in Footprint(units)
  {
    assert units[i] in units;
  }

  /** `after` remembers what fan `f` does once it has run in tree `tree`. */
  ghost predicate Ran(cfg: Settings, after: Fan, f: Fan, tree: Json)
    requires Writable(tree, f.node)
  {
    after.state == Alone(cfg, f, tree).state && after.ir == Alone(cfg, f, tree).ir
  }

  /** The first `i` fans have run; what the others are about to meet is as at the start. */
  ghost predicate UpTo(cfg: Settings, i: nat, current: seq<Fan>, state: Json, fans: seq<Fan>, tree: Json) {
    && i <= |current| == |fans| && Placed(fans, tree)
    && Placed(fans[..i], tree) && state == Pass(cfg, fans[..i], tree)
    && (forall j :: 0 <= j < i ==> Ran(cfg, current[j], fans[j], tree))
    && (forall j :: i <= j < |fans| ==> current[j] == fans[j])
    && (forall j :: i <= j < |fans| ==>
          Writable(state, fans[j].node) && Get(state, fans[j].node) == Get(tree, fans[j].node))
  }

  lemma {:induction false} PassSnoc(cfg: Settings, fans: seq<Fan>, f: Fan, tree: Json)
    requires Placed(fans + [f], tree)
    ensures Placed(fans, tree) && Writable(Pass(cfg, fans, tree), f.node)
    ensures Pass(cfg, fans + [f], tree) == Alone(cfg, f, Pass(cfg, fans, tree)).tree
    decreases |fans|
  {
    hide Iterate;
    var all := fans + [f];
    PlacedPart(all, fans, i => i, tree);
    if fans == [] {
      assert all == [f] && all[1..] == [] && all[0] == f;
    } else {
      PlacedAfter(cfg, all, tree);
      PlacedAfter(cfg, fans, tree);
      assert all[0] == fans[0] && all[1..] == fans[1..] + [f];
      PassSnoc(cfg, fans[1..], f, Alone(cfg, fans[0], tree).tree);
    }
  }

  lemma PlacedByNodes(fans: seq<Fan>, others: seq<Fan>, tree: Json)
    requires Placed(fans, tree) && |fans| == |others| && forall j :: 0 <= j < |fans| ==> fans[j].node == others[j].node
    ensures Placed(others, tree)
  {
    forall i, j | 0 <= i < j < |others| ensures Apart(others[i].node, others[j].node) {
      assert Apart(fans[i].node, fans[j].node);
    }
  }

  /** What the i-th fan does, over the link it met, moves the pass on by one. */
  lemma PassMoves(cfg: Settings, i: nat, before: seq<Fan>, state: Json, fans: seq<Fan>, tree: Json, after: seq<Fan>,
                  f: Fan)
    requires i < |fans| && UpTo(cfg, i, before, state, fans, tree) && f.node == fans[i].node
    requires |after| == |before| && Writable(state, f.node) && Ran(cfg, after[i], f, state)
    requires forall j :: 0 <= j < |fans| && j != i ==> after[j] == before[j]
    ensures UpTo(cfg, i + 1, after, Alone(cfg, f, state).tree, fans[i := f], tree)
  {
    hide Iterate;
    var now := fans[i := f];
    PlacedByNodes(fans, now, tree);
    PlacedPart(now, now[..i + 1], j => j, tree);
    assert now[..i + 1] == fans[..i] + [f];
    PassSnoc(cfg, fans[..i], f, tree);
    ReadsOwnNode(cfg, f, state, tree);
    forall j | i < j < |fans|
      ensures Writable(Alone(cfg, f, state).tree, now[j].node)
      ensures Get(Alone(cfg, f, state).tree, now[j].node) == Get(tree, now[j].node)
    {
      assert Apart(fans[i].node, fans[j].node);
      LeavesOthers(cfg, f, state, fans[j].node);
    }
  }

  lemma Others(units: seq<FanUnit>, i: nat, j: nat)
    requires Distinct(units) && i < |units| && j < |units| && i != j
    ensures units[i] != units[j] && units[i].ir != units[j].ir && units[i].ir.inner != units[j].ir.inner
    ensures units[i].sensor != units[j].sensor
  {}

  /** How many patches a fan attempts that finds the tree so. */
  function PatchTries(cfg: Settings, f: Fan, tree: Json): nat {
    Tries(Decide(cfg, f.state, f.ir, Seen(tree, f.node, f.event), f.event))
  }

  /** And how many some fans attempt that find their nodes as in this tree. */
  function AllTries(cfg: Settings, fans: seq<Fan>, tree: Json): nat {
    if fans == [] then 0
    else AllTries(cfg, fans[..|fans| - 1], tree) + PatchTries(cfg, fans[|fans| - 1], tree)
  }

  /** One unit's iteration, in the terms of the fan it is and the link it meets; the other units
      stay as they are. */
  method RunUnit(cfg: Settings, units: seq<FanUnit>, i: nat, fb: Firebase, now: real)
    requires i < |units| && Distinct(units) && fb.store.Valid() && units[i].cfg == cfg
    requires Writable(fb.State(), PathParts(units[i].node))
    modifies units[i], units[i].sensor, units[i].ir, units[i].ir.inner
    modifies fb`gets, fb`patches, fb.store, Nodes(fb.store.shape)
    ensures fb.store.Valid() && fb.gets == old(fb.gets) + 1
    ensures var f := Met(old(Snapshot(units[i], now)), fb.getWorks(old(fb.gets)), fb.patchWorks(old(fb.patches)));
            && Ran(cfg, Snapshot(units[i], now), f, old(fb.State()))
            && fb.State() == Alone(cfg, f, old(fb.State())).tree
            && fb.patches == old(fb.patches) + PatchTries(cfg, f, old(fb.State()))
    ensures forall n <- Nodes(fb.store.shape) :: n in old(Nodes(fb.store.shape)) || fresh(n)
    ensures forall j :: 0 <= j < |units| && j != i ==> Snapshot(units[j], now) == old(Snapshot(units[j], now))
  {
    assert units[i].Upcoming(fb, now)
           == Met(Snapshot(units[i], now), fb.getWorks(fb.gets), fb.patchWorks(fb.patches)).event;
    hide Iterate, Writable, Intact, Separate, Nodes, Distinct, Decide, Seen;
    var report := units[i].RunIteration(fb, now);
    forall j | 0 <= j < |units| && j != i
      ensures Snapshot(units[j], now) == old(Snapshot(units[j], now))
    {
      Others(units, i, j);
    }
  }

  /** One turn of the pass. */
  method RunTurn(cfg: Settings, units: seq<FanUnit>, i: nat, fb: Firebase, now: real,
                 ghost fans: seq<Fan>, ghost tree: Json) returns (ghost met: seq<Fan>)
    requires i < |units| && Distinct(units) && fb.store.Valid() && units[i].cfg == cfg
    requires UpTo(cfg, i, Snapshots(units, now), fb.State(), fans, tree)
    modifies units[i], units[i].sensor, units[i].ir, units[i].ir.inner
    modifies fb`gets, fb`patches, fb.store, Nodes(fb.store.shape)
    ensures fb.store.Valid() && fb.gets == old(fb.gets) + 1
    ensures |fans| == |units|
    ensures met == fans[i := Met(fans[i], fb.getWorks(old(fb.gets)), fb.patchWorks(old(fb.patches)))]
    ensures fb.patches == old(fb.patches) + PatchTries(cfg, met[i], tree)
    ensures UpTo(cfg, i + 1, Snapshots(units, now), fb.State(), met, tree)
    ensures forall n <- Nodes(fb.store.shape) :: n in old(Nodes(fb.store.shape)) || fresh(n)
  {
    hide Iterate, Pass, Alone, Distinct, Intact, Separate, Nodes, Writable, UpTo, Ran, PatchTries;
    ghost var before, state := Snapshots(units, now), fb.State();
    UpToTurn(cfg, i, before, state, fans, tree);
    ghost var f := Met(fans[i], fb.getWorks(fb.gets), fb.patchWorks(fb.patches));
    RunUnit(cfg, units, i, fb, now);
    TriesAsAtFirst(cfg, f, state, tree);
    PassMoves(cfg, i, before, state, fans, tree, Snapshots(units, now), f);
    met := fans[i := f];
  }

  ghost function Footprint(units: seq<FanUnit>): set<object> {
    (set u: FanUnit | u in units :: u as object) + (set u: FanUnit | u in units :: u.ir as object)
    + (set u: FanUnit | u in units :: u.ir.inner as object) + (set u: FanUnit | u in units :: u.sensor as object)
  }

  /** The pass over unit objects and the shared store, over a link that may fail at any read and
      any patch. `met` is the fans as they were, each with what the link did for it: its read is
      the i-th of the pass, and its patch comes after those that the fans before it attempted.
      Every unit ends as it would have ended alone with that link. */
  method RunMultiFanIteration(cfg: Settings, units: seq<FanUnit>, fb: Firebase, now: real)
    returns (ghost met: seq<Fan>)
    requires Distinct(units) && fb.store.Valid()
    requires forall u <- units :: u.cfg == cfg
    requires Placed(Snapshots(units, now), fb.State())
    modifies Footprint(units), fb`gets, fb`patches, fb.store, Nodes(fb.store.shape)
    ensures fb.store.Valid() && |met| == |units| && Placed(met, old(fb.State()))
    ensures forall i :: 0 <= i < |units| ==>
              MetLink(cfg, fb, old(fb.gets), old(fb.patches), i, met, old(Snapshots(units, now)), old(fb.State()))
    ensures fb.patches == old(fb.patches) + AllTries(cfg, met, old(fb.State()))
    ensures Reliable(fb) ==> met == old(Snapshots(units, now))
    ensures fb.State() == Pass(cfg, met, old(fb.State()))
    ensures forall i :: 0 <= i < |units| ==> Ran(cfg, Snapshot(units[i], now), met[i], old(fb.State()))
  {
    ghost var fans := Snapshots(units, now);
    ghost var tree := fb.State();
    assert UpTo(cfg, 0, fans, tree, fans, tree) by { assert fans[..0] == []; }
    assert MetSoFar(cfg, fb, fb.gets, fb.patches, 0, fans, fans, tree, fb.patches);
    hide *;
    met := RunTurns(cfg, units, fb, now, fans, tree);
    MetAll(cfg, fb, old(fb.gets), old(fb.patches), met, fans, tree, fb.patches);
    UpToEnd(cfg, Snapshots(units, now), fb.State(), met, tree);
  }

  method RunTurns(cfg: Settings, units: seq<FanUnit>, fb: Firebase, now: real, ghost fans: seq<Fan>, ghost tree: Json)
    returns (ghost met: seq<Fan>)
    requires Distinct(units) && fb.store.Valid() && |fans| == |units|
    requires forall u <- units :: u.cfg == cfg
    requires UpTo(cfg, 0, Snapshots(units, now), fb.State(), fans, tree)
    requires MetSoFar(cfg, fb, fb.gets, fb.patches, 0, fans, fans, tree, fb.patches)
    modifies Footprint(units), fb`gets, fb`patches, fb.store, Nodes(fb.store.shape)
    ensures fb.store.Valid()
    ensures MetSoFar(cfg, fb, old(fb.gets), old(fb.patches), |units|, met, fans, tree, fb.patches)
    ensures UpTo(cfg, |units|, Snapshots(units, now), fb.State(), met, tree)
  {
    met := fans;
    hide *;
    for i := 0 to |units|
      invariant fb.store.Valid() && UpTo(cfg, i, Snapshots(units, now), fb.State(), met, tree) == true
      invariant fb.gets == old(fb.gets) + i
      invariant MetSoFar(cfg, fb, old(fb.gets), old(fb.patches), i, met, fans, tree, fb.patches) == true
      invariant forall n <- Nodes(fb.store.shape) :: n in old(Nodes(fb.store.shape)) || fresh(n)
    {
      InFootprint(units, i);
      MetStep(cfg, fb, old(fb.gets), old(fb.patches), i, met, fans, tree, fb.patches);
      met := RunTurn(cfg, units, i, fb, now, met, tree);
    }
  }

  /** The i-th fan met the link with its own read and, after the patches of those before it, its
      own patch. */
  ghost predicate MetLink(cfg: Settings, fb: Firebase, gets: nat, patches: nat, i: nat, met: seq<Fan>, fans: seq<Fan>,
                          tree: Json)
    requires i < |met| == |fans|
  {
    met[i] == Met(fans[i], fb.getWorks(gets + i), fb.patchWorks(patches + AllTries(cfg, met[..i], tree)))
  }

  /** The first `i` fans met the link, with one read each and the patches they attempted. */
  ghost predicate MetSoFar(cfg: Settings, fb: Firebase, gets: nat, patches: nat, i: nat, met: seq<Fan>, fans: seq<Fan>,
                           tree: Json, done: nat) {
    && i <= |met| == |fans| && done == patches + AllTries(cfg, met[..i], tree)
    && (forall j :: 0 <= j < i ==> MetLink(cfg, fb, gets, patches, j, met, fans, tree))
    && (forall j :: i <= j < |fans| ==> met[j] == fans[j])
  }

  lemma MetStep(cfg: Settings, fb: Firebase, gets: nat, patches: nat, i: nat, met: seq<Fan>, fans: seq<Fan>,
                tree: Json, done: nat)
    requires i < |fans| && MetSoFar(cfg, fb, gets, patches, i, met, fans, tree, done)
    ensures |met| == |fans|
    ensures var next := met[i := Met(met[i], fb.getWorks(gets + i), fb.patchWorks(done))];
            MetSoFar(cfg, fb, gets, patches, i + 1, next, fans, tree, done + PatchTries(cfg, next[i], tree))
  {
    hide *;
    MetUnfold(cfg, fb, gets, patches, i, met, fans, tree, done);
    var next := met[i := Met(met[i], fb.getWorks(gets + i), fb.patchWorks(done))];
    TriesOfOneMore(cfg, met, i, next[i], tree);
    forall j | 0 <= j <= i
      ensures MetLink(cfg, fb, gets, patches, j, next, fans, tree)
    {
      assert next[..j] == met[..j];
      if j < i { MetLinkKept(cfg, fb, gets, patches, j, met, next, fans, tree); }
      else { MetLinkNow(cfg, fb, gets, patches, i, met, next, fans, tree); }
    }
    MetFold(cfg, fb, gets, patches, i + 1, next, fans, tree, done + PatchTries(cfg, next[i], tree));
  }

  lemma MetUnfold(cfg: Settings, fb: Firebase, gets: nat, patches: nat, i: nat, met: seq<Fan>, fans: seq<Fan>,
                  tree: Json, done: nat)
    requires MetSoFar(cfg, fb, gets, patches, i, met, fans, tree, done)
    ensures i <= |met| == |fans| && done == patches + AllTries(cfg, met[..i], tree)
    ensures forall j :: 0 <= j < i ==> MetLink(cfg, fb, gets, patches, j, met, fans, tree)
    ensures forall j :: i <= j < |fans| ==> met[j] == fans[j]
  {
    hide MetLink, AllTries;
  }

  lemma MetFold(cfg: Settings, fb: Firebase, gets: nat, patches: nat, i: nat, met: seq<Fan>, fans: seq<Fan>,
                tree: Json, done: nat)
    requires i <= |met| == |fans| && done == patches + AllTries(cfg, met[..i], tree)
    requires forall j :: 0 <= j < i ==> MetLink(cfg, fb, gets, patches, j, met, fans, tree)
    requires forall j :: i <= j < |fans| ==> met[j] == fans[j]
    ensures MetSoFar(cfg, fb, gets, patches, i, met, fans, tree, done)
  {
    hide MetLink, AllTries;
  }

  lemma MetLinkKept(cfg: Settings, fb: Firebase, gets: nat, patches: nat, j: nat, met: seq<Fan>, next: seq<Fan>,
                    fans: seq<Fan>, tree: Json)
    requires j < |met| == |next| == |fans| && met[..j] == next[..j] && met[j] == next[j]
    requires MetLink(cfg, fb, gets, patches, j, met, fans, tree)
    ensures MetLink(cfg, fb, gets, patches, j, next, fans, tree)
  {}

  lemma MetLinkNow(cfg: Settings, fb: Firebase, gets: nat, patches: nat, i: nat, met: seq<Fan>, next: seq<Fan>,
                   fans: seq<Fan>, tree: Json)
    requires i < |met| == |next| == |fans| && met[..i] == next[..i] && met[i] == fans[i]
    requires next[i] == Met(met[i], fb.getWorks(gets + i), fb.patchWorks(patches + AllTries(cfg, met[..i], tree)))
    ensures MetLink(cfg, fb, gets, patches, i, next, fans, tree)
  {}

  lemma TriesOfOneMore(cfg: Settings, met: seq<Fan>, i: nat, f: Fan, tree: Json)
    requires i < |met|
    ensures AllTries(cfg, met[i := f][..i + 1], tree) == AllTries(cfg, met[..i], tree) + PatchTries(cfg, f, tree)
  {
    hide PatchTries;
    assert met[i := f][..i + 1][..i] == met[..i];
  }

  lemma MetAll(cfg: Settings, fb: Firebase, gets: nat, patches: nat, met: seq<Fan>, fans: seq<Fan>, tree: Json,
               done: nat)
    requires MetSoFar(cfg, fb, gets, patches, |fans|, met, fans, tree, done)
    requires forall j :: 0 <= j < |fans| ==> fans[j] == Met(fans[j], true, true)
    ensures |met| == |fans| && done == patches + AllTries(cfg, met, tree)
    ensures forall j :: 0 <= j < |fans| ==> MetLink(cfg, fb, gets, patches, j, met, fans, tree)
    ensures Reliable(fb) ==> met == fans
  {
    hide AllTries;
    assert met[..|fans|] == met;
    if Reliable(fb) {
      forall j | 0 <= j < |fans|
        ensures met[j] == fans[j]
      {
        assert MetLink(cfg, fb, gets, patches, j, met, fans, tree);
      }
    }
  }

  lemma TriesAsAtFirst(cfg: Settings, f: Fan, a: Json, b: Json)
    requires Get(a, f.node) == Get(b, f.node)
    ensures PatchTries(cfg, f, a) == PatchTries(cfg, f, b)
  {
    hide Decide, Get;
  }

  lemma UpToTurn(cfg: Settings, i: nat, current: seq<Fan>, state: Json, fans: seq<Fan>, tree: Json)
    requires UpTo(cfg, i, current, state, fans, tree) && i < |current|
    ensures |current| == |fans| && current[i] == fans[i] && Writable(state, fans[i].node)
    ensures Get(state, fans[i].node) == Get(tree, fans[i].node)
  {}

  lemma UpToEnd(cfg: Settings, current: seq<Fan>, state: Json, fans: seq<Fan>, tree: Json)
    requires UpTo(cfg, |fans|, current, state, fans, tree)
    ensures |current| == |fans| && Placed(fans, tree) && state == Pass(cfg, fans, tree)
    ensures forall i :: 0 <= i < |fans| ==> Writable(tree, fans[i].node) && Ran(cfg, current[i], fans[i], tree)
  {
    assert fans[..|fans|] == fans;
  }

  // ----- Nodes inside one another -----

  const OUTER: Path := ["fans"]
  const INNER: Path := ["fans", "online"]

  function Outaged(node: Path, now: real): Fan { Fan(node, FRESH, SILENT, Event(now, true, None, true, true)) }

  function Nested(target: real): Json {
    Obj(map["fans" := Obj(map["online" := Obj(map["targetTemp" := Leaf(Num(target))])])])
  }

  lemma NestedLookups(target: real)
    ensures var tree := Nested(target);
            && Writable(tree, OUTER) && Writable(tree, INNER)
            && Get(tree, INNER) == Obj(map["targetTemp" := Leaf(Num(target))])
  {
    var tree := Nested(target);
    assert Lookup(tree, []) == Some(tree);
    assert OUTER[1..] == [] && Lookup(tree, OUTER) == Lookup(tree.m["fans"], []);
    assert INNER[1..] == ["online"] && INNER[1..][1..] == [];
    assert Lookup(tree, INNER) == Lookup(tree.m["fans"], ["online"]) == Lookup(tree.m["fans"].m["online"], []);
    assert INNER[..0] == [] && INNER[..1] == OUTER && OUTER[..0] == [];
  }

  lemma InnerOverwritten(cfg: Settings, now: real, target: real)
    requires Writable(Nested(target), OUTER)
    ensures var after := Alone(cfg, Outaged(OUTER, now), Nested(target)).tree;
            Writable(after, INNER) && Get(after, INNER) == Leaf(Bool(true))
  {
    var tree, f := Nested(target), Outaged(OUTER, now);
    var after := Alone(cfg, f, tree).tree;
    OneWrite(cfg, f, tree);
    var value := NodeValue(cfg, f, Get(tree, OUTER)).value;
    PutThenLookup(tree, OUTER, value, []);
    PutThenLookup(tree, OUTER, value, ["online"]);
    assert OUTER + [] == OUTER && OUTER + ["online"] == INNER;
    assert ["online"][1..] == [];
    assert INNER[..0] == [] && INNER[..1] == OUTER && Lookup(after, []) == Some(after);
  }

  lemma NestedPaths()
    ensures "fans" != "fans/online" && PathParts("fans") == OUTER && PathParts("fans/online") == INNER
    ensures !Apart(OUTER, INNER)
  {
    hide PathParts;
    assert IsPart("fans") && IsPart("online");
    assert Join(OUTER) == "fans";
    assert INNER[1..] == ["online"] && Join(INNER) == "fans" + "/" + "online" == "fans/online";
    JoinNames(OUTER);
    JoinNames(INNER);
  }

  lemma SettingSeen(cfg: Settings, target: real)
    ensures Observe(cfg, FRESH, Obj(map["targetTemp" := Leaf(Num(target))])).target == target
    ensures Observe(cfg, FRESH, Leaf(Bool(true))).target == 72.0
  {}

  /** Two fans whose nodes are written differently, which is all that is checked of them, but
      lie inside one another: after the outer one has reported an outage the inner one no longer
      finds the target its user set. */
  lemma PrefixDisturbs(cfg: Settings, now: real)
    ensures "fans" != "fans/online" && PathParts("fans") == OUTER && PathParts("fans/online") == INNER
    ensures var tree, outer, inner := Nested(60.0), Outaged(OUTER, now), Outaged(INNER, now);
            && Writable(tree, OUTER) && Writable(tree, INNER) && !Apart(OUTER, INNER)
            && Alone(cfg, inner, tree).state.target == 60.0
            && var after := Alone(cfg, outer, tree).tree;
               Writable(after, INNER) && Alone(cfg, inner, after).state.target == 72.0
  {
    NestedPaths();
    NestedLookups(60.0);
    InnerOverwritten(cfg, now, 60.0);
    SettingSeen(cfg, 60.0);
    assert Outaged(OUTER, now).node == OUTER && Outaged(INNER, now).node == INNER;
    hide *;
    TargetSeen(cfg, INNER, now, Nested(60.0));
    TargetSeen(cfg, INNER, now, Alone(cfg, Outaged(OUTER, now), Nested(60.0)).tree);
  }

  lemma TargetSeen(cfg: Settings, node: Path, now: real, tree: Json)
    requires Writable(tree, node)
    ensures Alone(cfg, Outaged(node, now), tree).state.target == Observe(cfg, FRESH, Get(tree, node)).target
  {
    hide Get, Writable, StatusPatch, Leaves;
  }
}

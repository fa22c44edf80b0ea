/** Which nodes two fans may have without disturbing each other: the exact condition. */
module NodeOverlap {
  import opened Prelude
  import opened JsonTree
  import opened FanIr
  import opened FanControl
  import opened StoreAgreement
  import opened MultiFan

  /** No fan at `p`, on any tree in which both nodes can be written, changes what stands at `q`
      or keeps it from being written. */
  ghost predicate Undisturbed(cfg: Settings, p: Path, q: Path) {
    forall f: Fan, tree: Json | f.node == p && Writable(tree, p) && Writable(tree, q) :: Spares(cfg, f, tree, q)
  }

  ghost predicate Spares(cfg: Settings, f: Fan, tree: Json, q: Path)
    requires Writable(tree, f.node)
  {
    Writable(Alone(cfg, f, tree).tree, q) && Get(Alone(cfg, f, tree).tree, q) == Get(tree, q)
  }

  /** `q` lies strictly below `p`, under a name that no fan writes. */
  predicate BelowUserKey(p: Path, q: Path) {
    p < q && q[|p|] !in TELEMETRY
  }

  // ----- Sparing what lies below a name of the user's -----

  lemma {:induction false} LookupConcat(t: Json, p: Path, r: Path)
    ensures Lookup(t, p + r) == match Lookup(t, p) case None => None case Some(u) => Lookup(u, r)
    decreases |p|
  {
    if p == [] {
      assert p + r == r;
    } else if t.Obj? && p[0] in t.m {
      LookupConcat(t.m[p[0]], p[1..], r);
      assert (p + r)[1..] == p[1..] + r;
    }
  }

  lemma PatchIsTelemetry(cfg: Settings, f: Fan, content: Json)
    ensures var o := Decide(cfg, f.state, f.ir, if f.event.getWorks then content else NONE, f.event);
            o.patch.Some? ==> o.patch.value.Keys <= TELEMETRY
  {
    hide Request, Wanted, Observe;
  }

  /** Merging telemetry into a node keeps every path below another name. */
  lemma MergedKeepsOthers(node: Option<Json>, patch: map<string, Json>, r: Path)
    requires r != [] && r[0] !in patch && (node.Some? ==> node.value.Obj?)
    ensures var content := if node.Some? then node.value else NONE;
            Lookup(Merged(content, patch), r) == match node case None => None case Some(u) => Lookup(u, r)
  {}

  lemma WritesTelemetry(cfg: Settings, f: Fan, tree: Json) returns (patch: Option<map<string, Json>>)
    requires Writable(tree, f.node)
    ensures patch.Some? ==> patch.value.Keys <= TELEMETRY
                            && Put(tree, f.node, Merged(Get(tree, f.node), patch.value))
                               == Some(Alone(cfg, f, tree).tree)
    ensures patch.None? ==> Alone(cfg, f, tree).tree == tree
  {
    hide Iterate, Decide;
    OneWrite(cfg, f, tree);
    PatchIsTelemetry(cfg, f, Get(tree, f.node));
    var o := Decide(cfg, f.state, f.ir, if f.event.getWorks then Get(tree, f.node) else NONE, f.event);
    patch := if o.patched then Some(Leaves(o.patch.value)) else None;
  }

  lemma BelowIsKept(tree: Json, p: Path, q: Path, n: nat, patch: map<string, Json>)
    requires BelowUserKey(p, q) && |p| < n <= |q| && patch.Keys <= TELEMETRY
    requires Writable(tree, p) && !IsLeafAt(tree, p)
    ensures var put := Put(tree, p, Merged(Get(tree, p), patch));
            put.Some? && Lookup(put.value, q[..n]) == Lookup(tree, q[..n])
  {
    var r := q[|p|..n];
    assert q[..n] == p + r && r[0] == q[|p|];
    var value := Merged(Get(tree, p), patch);
    PutSucceeds(tree, p, value);
    PutThenLookup(tree, p, value, r);
    LookupConcat(tree, p, r);
    MergedKeepsOthers(Lookup(tree, p), patch, r);
  }

  lemma SparesBelow(cfg: Settings, f: Fan, tree: Json, q: Path)
    requires Writable(tree, f.node) && Writable(tree, q) && BelowUserKey(f.node, q)
    ensures Spares(cfg, f, tree, q)
  {
    hide Iterate, Alone, Put, Merged, Lookup;
    var p, after := f.node, Alone(cfg, f, tree).tree;
    var patch := WritesTelemetry(cfg, f, tree);
    if patch.Some? {
      assert q[..|p|] == p && !IsLeafAt(tree, p);
      var value := Merged(Get(tree, p), patch.value);
      forall n | 0 <= n < |q|
        ensures !IsLeafAt(after, q[..n])
      {
        if n < |p| {
          PutKeepsWritable(tree, p, value, p);
          assert q[..n] == p[..n];
        } else if n == |p| {
          PutThenLookup(tree, p, value, []);
          assert p + [] == p && Lookup(value, []) == Some(value) by { LookupNothing(value); }
          MergedIsObj(Get(tree, p), patch.value);
        } else {
          BelowIsKept(tree, p, q, n, patch.value);
        }
      }
      BelowIsKept(tree, p, q, |q|, patch.value);
      assert q[..|q|] == q;
    }
  }

  lemma LookupNothing(t: Json)
    ensures Lookup(t, []) == Some(t)
  {}

  lemma MergedIsObj(content: Json, patch: map<string, Json>)
    ensures Merged(content, patch).Obj?
  {}

  // ----- Disturbing everything else that overlaps -----

  /** A fan that is certain to write, all its telemetry. */
  function Busy(p: Path): Fan { Fan(p, FRESH, SILENT, Event(0.0, true, Some(0.0), true, true)) }

  lemma BusyWrites(cfg: Settings, p: Path, tree: Json) returns (patch: map<string, Json>)
    requires Writable(tree, p)
    ensures patch.Keys == TELEMETRY && forall k <- patch :: patch[k].Leaf?
    ensures Put(tree, p, Merged(Get(tree, p), patch)) == Some(Alone(cfg, Busy(p), tree).tree)
  {
    hide Iterate, Request, Wanted, FloatOf;
    OneWrite(cfg, Busy(p), tree);
    var o := Decide(cfg, FRESH, SILENT, Get(tree, p), Busy(p).event);
    assert o.patched && o.patch.value.Keys == TELEMETRY;
    patch := Leaves(o.patch.value);
  }

  lemma {:induction false} NothingInEmpty(q: Path)
    ensures q != [] ==> Lookup(EMPTY, q) == None && Lookup(NONE, q) == None
  {}

  /** A fan changes what stands at or above its own node. */
  lemma DisturbsAbove(cfg: Settings, p: Path, q: Path)
    requires q <= p
    ensures Writable(EMPTY, p) && Writable(EMPTY, q) && !Spares(cfg, Busy(p), EMPTY, q)
  {
    forall n | 0 <= n < |p| ensures !IsLeafAt(EMPTY, p[..n]) { EmptyHasNoLeaf(p[..n]); }
    forall n | 0 <= n < |q| ensures !IsLeafAt(EMPTY, q[..n]) { EmptyHasNoLeaf(q[..n]); }
    hide Iterate, Alone, Put, Lookup;
    var after := Alone(cfg, Busy(p), EMPTY).tree;
    var patch := BusyWrites(cfg, p, EMPTY);
    var value := Merged(Get(EMPTY, p), patch);
    assert "online" in patch && value.Obj? && "online" in value.m;
    PutThenLookup(EMPTY, p, value, []);
    LookupNothing(value);
    LookupNothing(EMPTY);
    assert p + [] == p && Lookup(after, p) == Some(value);
    var r := p[|q|..];
    assert p == q + r;
    LookupConcat(after, q, r);
    NothingInEmpty(q);
    NothingInEmpty(r);
    if r == [] { assert Lookup(after, q) == Some(value) && value != EMPTY; }
  }

  /** And what stands under a name it writes. */
  lemma DisturbsTelemetry(cfg: Settings, p: Path, q: Path) returns (tree: Json)
    requires p < q && q[|p|] in TELEMETRY
    ensures Writable(tree, p) && Writable(tree, q) && !Spares(cfg, Busy(p), tree, q)
  {
    forall n | 0 <= n < |q| ensures !IsLeafAt(EMPTY, q[..n]) { EmptyHasNoLeaf(q[..n]); }
    var content := Obj(map["targetTemp" := NONE]);
    PutSucceeds(EMPTY, q, content);
    tree := Put(EMPTY, q, content).value;
    PutKeepsWritable(EMPTY, q, content, q);
    forall n | 0 <= n < |p| ensures !IsLeafAt(tree, p[..n]) { assert p[..n] == q[..n]; }
    PutThenLookup(EMPTY, q, content, []);
    hide Iterate, Alone, Put, Lookup;
    LookupNothing(content);
    assert q + [] == q && Get(tree, q) == content;
    var after := Alone(cfg, Busy(p), tree).tree;
    var patch := BusyWrites(cfg, p, tree);
    var value, r := Merged(Get(tree, p), patch), q[|p|..];
    assert q == p + r && r[0] in patch;
    PutThenLookup(tree, p, value, r);
    LeafUnder(value, r);
  }

  /** Nothing but a leaf is found through a leaf. */
  lemma LeafUnder(value: Json, r: Path)
    requires r != [] && value.Obj? && r[0] in value.m && value.m[r[0]].Leaf?
    ensures Lookup(value, r).Some? ==> Lookup(value, r).value.Leaf?
  {}

  // ----- The exact condition -----

  /** One way: a fan at `p` never disturbs `q` exactly when the nodes are apart or `q` lies below
      `p` under a name that is not telemetry. */
  lemma UndisturbedExactly(cfg: Settings, p: Path, q: Path)
    ensures Undisturbed(cfg, p, q) <==> Apart(p, q) || BelowUserKey(p, q)
  {
    hide Spares, Writable;
    if Apart(p, q) {
      forall f: Fan, tree: Json | f.node == p && Writable(tree, p) && Writable(tree, q)
        ensures Spares(cfg, f, tree, q)
      {
        SparesApart(cfg, f, tree, q);
      }
    } else if BelowUserKey(p, q) {
      forall f: Fan, tree: Json | f.node == p && Writable(tree, p) && Writable(tree, q)
        ensures Spares(cfg, f, tree, q)
      {
        SparesBelow(cfg, f, tree, q);
      }
    } else if q <= p {
      DisturbsAbove(cfg, p, q);
      assert Busy(p).node == p;
    } else {
      var tree := DisturbsTelemetry(cfg, p, q);
      assert Busy(p).node == p;
    }
  }

  lemma SparesApart(cfg: Settings, f: Fan, tree: Json, q: Path)
    requires Writable(tree, f.node) && Writable(tree, q) && Apart(f.node, q)
    ensures Spares(cfg, f, tree, q)
  {
    hide Iterate, Alone;
    LeavesOthers(cfg, f, tree, q);
  }

  /** Both ways: two fans never disturb each other exactly when neither node lies at or below the
      other. */
  lemma ApartExactly(cfg: Settings, p: Path, q: Path)
    ensures Undisturbed(cfg, p, q) && Undisturbed(cfg, q, p) <==> Apart(p, q)
  {
    UndisturbedExactly(cfg, p, q);
    UndisturbedExactly(cfg, q, p);
    hide Undisturbed;
  }
}

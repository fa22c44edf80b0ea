/** The in-memory Firebase store as nested mutable dictionaries on the heap.

    A Shape is a snapshot of a dictionary tree: which dictionary objects it is made of
    and what each holds. The methods walk and change the objects; their contracts tie the
    tree they leave behind to the operations of JsonTree and say which objects it shares
    with its surroundings. */
module MemoryFirebase {
  import opened Prelude
  import opened JsonTree

  class Dict {
    var entries: map<string, Value>

    constructor ()
      ensures entries == map[]
    {
      entries := map[];
    }
  }

  datatype Value = Atom(v: Scalar) | Ref(d: Dict)

  datatype Shape = SLeaf(v: Scalar) | SDict(dict: Dict, kids: map<string, Shape>)

  ghost function Nodes(s: Shape): set<Dict> {
    match s
    case SLeaf(_) => {}
    case SDict(d, kids) => {d} + set k, n | k in kids && n in Nodes(kids[k]) :: n
  }

  ghost function Tree(s: Shape): Json {
    match s
    case SLeaf(v) => Leaf(v)
    case SDict(_, kids) => Obj(map k | k in kids :: Tree(kids[k]))
  }

  lemma {:induction false} NodesAllocated(s: Shape)
    ensures forall n <- Nodes(s) :: allocated(n)
  {
    if s.SDict? {
      forall k | k in s.kids { NodesAllocated(s.kids[k]); }
    }
  }

  function Top(s: Shape): Value {
    match s
    case SLeaf(v) => Atom(v)
    case SDict(d, _) => Ref(d)
  }

  /** No dictionary occurs twice. */
  ghost predicate Separate(s: Shape) {
    s.SDict? ==>
      && (forall k <- s.kids :: Separate(s.kids[k]) && s.dict !in Nodes(s.kids[k]))
      && (forall j, k | j in s.kids && k in s.kids && j != k :: Nodes(s.kids[j]) !! Nodes(s.kids[k]))
  }

  /** The heap agrees with the snapshot. */
  ghost predicate Intact(s: Shape)
    reads Nodes(s)
    decreases s
  {
    s.SDict? ==>
      && s.dict.entries == Tops(s.kids)
      && forall k <- s.kids :: Intact(s.kids[k])
  }

  function Tops(kids: map<string, Shape>): map<string, Value> {
    map k | k in kids :: Top(kids[k])
  }

  // ----- Positions inside a shape -----

  /** A dictionary stands at the path. */
  ghost predicate DictAt(s: Shape, path: Path)
    decreases |path|
  {
    s.SDict? && (path != [] ==> path[0] in s.kids && DictAt(s.kids[path[0]], path[1..]))
  }

  ghost function Sub(s: Shape, path: Path): (r: Shape)
    requires DictAt(s, path)
    ensures r.SDict? && Nodes(r) <= Nodes(s)
    decreases |path|
  {
    if path == [] then s else Sub(s.kids[path[0]], path[1..])
  }

  /** The shape after the dictionary at `path` is given `sub` under `key`. */
  ghost function Graft(s: Shape, path: Path, key: string, sub: Shape): (r: Shape)
    requires DictAt(s, path)
    ensures r.SDict? && r.dict == s.dict && Nodes(r) <= Nodes(s) + Nodes(sub)
    decreases |path|
  {
    if path == [] then SDict(s.dict, s.kids[key := sub])
    else SDict(s.dict, s.kids[path[0] := Graft(s.kids[path[0]], path[1..], key, sub)])
  }

  lemma TreeWith(d: Dict, kids: map<string, Shape>, key: string, sub: Shape)
    ensures Tree(SDict(d, kids[key := sub])) == Obj(Tree(SDict(d, kids)).m[key := Tree(sub)])
  {
    assert Tree(SDict(d, kids[key := sub])).m == Tree(SDict(d, kids)).m[key := Tree(sub)];
  }

  lemma {:induction false} GraftTree(s: Shape, path: Path, key: string, sub: Shape)
    requires DictAt(s, path)
    ensures Put(Tree(s), path + [key], Tree(sub)) == Some(Tree(Graft(s, path, key, sub)))
    decreases |path|
  {
    if path == [] {
      TreeWith(s.dict, s.kids, key, sub);
      assert (path + [key])[1..] == [];
    } else {
      GraftTree(s.kids[path[0]], path[1..], key, sub);
      assert (path + [key])[1..] == path[1..] + [key];
      TreeWith(s.dict, s.kids, path[0], Graft(s.kids[path[0]], path[1..], key, sub));
    }
  }

  lemma {:induction false} GraftSeparate(s: Shape, path: Path, key: string, sub: Shape)
    requires DictAt(s, path) && Separate(s) && Separate(sub) && Nodes(s) !! Nodes(sub)
    ensures Separate(Graft(s, path, key, sub))
    decreases |path|
  {
    if path != [] {
      GraftSeparate(s.kids[path[0]], path[1..], key, sub);
    }
  }

  lemma {:induction false} GraftDictAt(s: Shape, path: Path, key: string, sub: Shape)
    requires DictAt(s, path) && sub.SDict?
    ensures DictAt(Graft(s, path, key, sub), path + [key])
    ensures Sub(Graft(s, path, key, sub), path + [key]) == sub
    decreases |path|
  {
    if path == [] {
      assert (path + [key])[1..] == [];
    } else {
      GraftDictAt(s.kids[path[0]], path[1..], key, sub);
      assert (path + [key])[1..] == path[1..] + [key];
    }
  }

  lemma {:induction false} DictAtDeeper(s: Shape, path: Path, key: string)
    requires DictAt(s, path) && key in Sub(s, path).kids
    ensures Sub(s, path).kids[key].SDict? ==>
              DictAt(s, path + [key]) && Sub(s, path + [key]) == Sub(s, path).kids[key]
    ensures Sub(s, path).kids[key].SLeaf? ==> IsLeafAt(Tree(s), path + [key])
    decreases |path|
  {
    if path == [] {
      assert (path + [key])[1..] == [];
    } else {
      DictAtDeeper(s.kids[path[0]], path[1..], key);
      assert (path + [key])[1..] == path[1..] + [key];
    }
  }

  lemma {:induction false} SubIntact(s: Shape, path: Path)
    requires DictAt(s, path) && Intact(s)
    ensures Intact(Sub(s, path))
    decreases |path|
  {
    if path != [] { SubIntact(s.kids[path[0]], path[1..]); }
  }

  /** The heap agrees with the snapshot everywhere but in the dictionary at `path`, on
      whose own entries this does not depend. */
  ghost predicate IntactOff(s: Shape, path: Path)
    requires DictAt(s, path) && Separate(s)
    reads Nodes(s) - {Sub(s, path).dict}
    decreases |path|
  {
    if path == [] then forall k <- s.kids :: Intact(s.kids[k])
    else
      && s.dict.entries == Tops(s.kids)
      && IntactOff(s.kids[path[0]], path[1..])
      && forall k <- s.kids :: k != path[0] ==> Intact(s.kids[k])
  }

  lemma {:induction false} IntactSplits(s: Shape, path: Path)
    requires DictAt(s, path) && Separate(s)
    ensures Intact(s) ==> IntactOff(s, path) && Sub(s, path).dict.entries == Tops(Sub(s, path).kids)
    decreases |path|
  {
    if path != [] { IntactSplits(s.kids[path[0]], path[1..]); }
  }

  /** Assigning one key of one dictionary of the tree realizes the graft. */
  lemma {:induction false} GraftIntact(s: Shape, path: Path, key: string, sub: Shape)
    requires DictAt(s, path) && Separate(s) && IntactOff(s, path) && Intact(sub)
    requires Sub(s, path).dict.entries == Tops(Sub(s, path).kids)[key := Top(sub)]
    ensures Intact(Graft(s, path, key, sub))
    decreases |path|
  {
    if path == [] {
      TopsWith(s.kids, key, sub);
    } else {
      hide Separate;
      var below := Graft(s.kids[path[0]], path[1..], key, sub);
      assert Separate(s.kids[path[0]]) by { KidSeparate(s, path[0]); }
      GraftIntact(s.kids[path[0]], path[1..], key, sub);
      TopsWith(s.kids, path[0], below);
      assert Tops(s.kids)[path[0] := Top(below)] == Tops(s.kids);
    }
  }

  lemma KidSeparate(s: Shape, key: string)
    requires s.SDict? && Separate(s) && key in s.kids
    ensures Separate(s.kids[key])
  {}

  lemma TopsWith(kids: map<string, Shape>, key: string, sub: Shape)
    ensures Tops(kids[key := sub]) == Tops(kids)[key := Top(sub)]
  {}

  /** Creating a missing dictionary on the way to a write does not change its outcome. */
  lemma {:induction false} PutThroughFresh(t: Json, path: Path, key: string, rest: Path, value: Json)
    requires Put(t, path + [key], EMPTY).Some? && Lookup(t, path + [key]) == None && rest != []
    ensures Put(Put(t, path + [key], EMPTY).value, path + [key] + rest, value) == Put(t, path + [key] + rest, value)
    decreases |path|
  {
    var p := path + [key];
    assert (p + rest)[1..] == p[1..] + rest;
    if path == [] {
      assert p[1..] == [] && [] + rest == rest;
      if Put(EMPTY, rest, value).Some? {
        var v := Put(EMPTY, rest, value).value;
        assert t.m[key := EMPTY][key := v] == t.m[key := v];
      }
    } else {
      assert p[1..] == path[1..] + [key];
      var child := Child(t, path[0]);
      if path[0] !in t.m { EmptyHasNoNode(p[1..]); }
      PutThroughFresh(child, path[1..], key, rest, value);
      var c := Put(child, p[1..], EMPTY).value;
      if Put(c, p[1..] + rest, value).Some? {
        var v := Put(c, p[1..] + rest, value).value;
        assert t.m[path[0] := c][path[0] := v] == t.m[path[0] := v];
      }
    }
  }

  lemma EmptyHasNoNode(path: Path)
    requires path != []
    ensures Lookup(EMPTY, path) == None
  {}

  lemma {:induction false} SubLookup(s: Shape, path: Path, key: string)
    requires DictAt(s, path)
    ensures Lookup(Tree(s), path) == Some(Tree(Sub(s, path)))
    ensures key !in Sub(s, path).kids ==> Lookup(Tree(s), path + [key]) == None
    decreases |path|
  {
    if path == [] {
      assert (path + [key])[1..] == [];
    } else {
      SubLookup(s.kids[path[0]], path[1..], key);
      assert (path + [key])[1..] == path[1..] + [key];
    }
  }

  // ----- Copying -----

  /** Assigns one key of the dictionary at `path` of a tree. */
  method Assign(node: Dict, ghost s: Shape, ghost path: Path, key: string, v: Value, ghost sub: Shape)
    returns (ghost r: Shape)
    requires DictAt(s, path) && Sub(s, path).dict == node && Intact(s) && Separate(s)
    requires Top(sub) == v && Intact(sub) && Separate(sub) && Nodes(s) !! Nodes(sub)
    modifies node
    ensures r == Graft(s, path, key, sub) && Intact(r) && Separate(r)
  {
    IntactSplits(s, path);
    node.entries := node.entries[key := v];
    GraftIntact(s, path, key, sub);
    GraftSeparate(s, path, key, sub);
    r := Graft(s, path, key, sub);
  }

  lemma KidIntact(s: Shape, key: string)
    requires Intact(s) && s.SDict? && key in s.kids
    ensures s.dict.entries[key] == Top(s.kids[key]) && Intact(s.kids[key])
  {}

  /** A deep copy: an equal tree made of new dictionaries only. A dictionary that occurred twice
      would be copied once and occur twice again; here none does. */
  method DeepCopy(v: Value, ghost s: Shape) returns (w: Value, ghost c: Shape)
    requires Top(s) == v && Intact(s) && Separate(s)
    ensures Intact(s)
    ensures Top(c) == w && Intact(c) && Separate(c) && fresh(Nodes(c)) && Tree(c) == Tree(s)
    decreases s, 2
  {
    match v
    case Atom(a) =>
      w, c := v, SLeaf(a);
    case Ref(d) =>
      w, c := CopyDict(d, s);
  }

  method CopyDict(d: Dict, ghost s: Shape) returns (w: Value, ghost c: Shape)
    requires Top(s) == Ref(d) && Intact(s) && Separate(s)
    ensures Intact(s)
    ensures Top(c) == w && Intact(c) && Separate(c) && fresh(Nodes(c)) && Tree(c) == Tree(s)
    decreases s, 1
  {
    NodesAllocated(s);
    var copy := new Dict();
    c := SDict(copy, map[]);
    EmptyDict(c);
    var todo := d.entries.Keys;
    assert Copying(copy, c, s, todo);
    while todo != {}
      invariant Copying(copy, c, s, todo) && Intact(s)
      invariant forall n <- Nodes(c) :: fresh(n)
      decreases todo
    {
      hide *;
      var k :| k in todo;
      c := CopyKid(copy, c, k, d, s, todo);
      todo := todo - {k};
    }
    w := Ref(copy);
    SameKidsSameTree(c, s);
  }

  /** The kids of `s` outside `todo` have been copied to `c`. */
  ghost predicate Copying(copy: Dict, c: Shape, s: Shape, todo: set<string>)
    reads Nodes(c)
  {
    && c.SDict? && s.SDict? && c.dict == copy && copy !in Nodes(s) && Intact(c) && Separate(c)
    && todo <= s.kids.Keys && c.kids.Keys == s.kids.Keys - todo
    && forall k <- c.kids :: Tree(c.kids[k]) == Tree(s.kids[k])
  }

  lemma EmptyDict(s: Shape)
    requires s.SDict? && s.kids == map[]
    ensures Separate(s) && Nodes(s) == {s.dict} && (s.dict.entries == map[] ==> Intact(s))
  {}

  lemma SameKidsSameTree(a: Shape, b: Shape)
    requires a.SDict? && b.SDict? && a.kids.Keys == b.kids.Keys
    requires forall k <- a.kids :: Tree(a.kids[k]) == Tree(b.kids[k])
    ensures Tree(a) == Tree(b)
  {
    assert Tree(a).m == Tree(b).m;
  }

  method CopyKid(copy: Dict, ghost c: Shape, key: string, d: Dict, ghost s: Shape, ghost todo: set<string>)
    returns (ghost r: Shape)
    requires Top(s) == Ref(d) && Intact(s) && Separate(s) && Copying(copy, c, s, todo) && key in todo
    modifies copy
    ensures Intact(s) && Copying(copy, r, s, todo - {key})
    ensures forall n <- Nodes(r) :: n in Nodes(c) || fresh(n)
    decreases s, 0
  {
    var child: Value;
    ghost var sub: Shape;
    NodesAllocated(c);
    NodesAllocated(s);
    KidIntact(s, key);
    KidSeparate(s, key);
    ghost var have := Nodes(c);
    child, sub := DeepCopy(d.entries[key], s.kids[key]);
    assert have !! Nodes(sub);
    assert DictAt(c, []) && Sub(c, []) == c;
    hide Tree, Separate, Nodes;
    r := Assign(copy, c, [], key, child, sub);
    KidsCopied(c, s, key, sub, todo);
  }

  lemma KidsCopied(c: Shape, s: Shape, key: string, sub: Shape, todo: set<string>)
    requires c.SDict? && s.SDict? && key in todo && todo <= s.kids.Keys && c.kids.Keys == s.kids.Keys - todo
    requires forall k <- c.kids :: Tree(c.kids[k]) == Tree(s.kids[k])
    requires Tree(sub) == Tree(s.kids[key])
    ensures DictAt(c, [])
    ensures var r := Graft(c, [], key, sub);
            && r.dict == c.dict && r.kids.Keys == s.kids.Keys - (todo - {key})
            && forall k <- r.kids :: Tree(r.kids[k]) == Tree(s.kids[k])
  {
    hide Tree, Nodes;
  }

  /** The value at a path, as a copy; null when there is none. */
  method GetNode(root: Dict, ghost s: Shape, parts: Path) returns (v: Value, ghost c: Shape)
    requires Top(s) == Ref(root) && Intact(s) && Separate(s)
    ensures Top(c) == v && Intact(c) && Separate(c) && fresh(Nodes(c))
    ensures Tree(c) == Get(Tree(s), parts)
  {
    var node := Ref(root);
    ghost var at := s;
    for i := 0 to |parts|
      invariant Top(at) == node && Intact(at) && Separate(at)
      invariant Lookup(Tree(s), parts) == Lookup(Tree(at), parts[i..])
    {
      if node.Atom? || parts[i] !in node.d.entries {
        return Atom(Null), SLeaf(Null);
      }
      node := node.d.entries[parts[i]];
      at := at.kids[parts[i]];
      assert parts[i..][1..] == parts[i + 1..];
    }
    v, c := DeepCopy(node, at);
  }

  // ----- Writing -----

  /** Fetches a key of the dictionary at `path`, creating an empty dictionary there first
      when the key is missing. */
  method SetDefault(node: Dict, ghost s: Shape, ghost path: Path, key: string)
    returns (child: Value, ghost r: Shape)
    requires DictAt(s, path) && Sub(s, path).dict == node && Intact(s) && Separate(s)
    modifies node
    ensures Intact(r) && Separate(r) && r.SDict? && r.dict == s.dict
    ensures forall n <- Nodes(r) :: n in Nodes(s) || fresh(n)
    ensures key in Sub(s, path).kids ==> r == s && child == Top(Sub(s, path).kids[key]) && unchanged(node)
    ensures key !in Sub(s, path).kids ==>
              exists d: Dict :: fresh(d) && child == Ref(d) && r == Graft(s, path, key, SDict(d, map[]))
  {
    SubIntact(s, path);
    if key in node.entries {
      child, r := node.entries[key], s;
    } else {
      NodesAllocated(s);
      var d := new Dict();
      EmptyDict(SDict(d, map[]));
      r := Assign(node, s, path, key, Ref(d), SDict(d, map[]));
      child := Ref(d);
    }
  }

  /** What one step of the walk does to the tree and to the write that is under way. */
  lemma WalkStep(s: Shape, parts: Path, i: nat, value: Json, r: Shape, child: Value)
    requires i < |parts| - 1 && DictAt(s, parts[..i])
    requires parts[i] in Sub(s, parts[..i]).kids ==> r == s && child == Top(Sub(s, parts[..i]).kids[parts[i]])
    requires parts[i] !in Sub(s, parts[..i]).kids ==>
               child.Ref? && r == Graft(s, parts[..i], parts[i], SDict(child.d, map[]))
    ensures Put(Tree(r), parts, value) == Put(Tree(s), parts, value)
    ensures child.Ref? ==> DictAt(r, parts[..i + 1]) && Sub(r, parts[..i + 1]).dict == child.d
    ensures child.Ref? ==> child.d in Nodes(r)
    ensures child.Ref? ==> Sub(r, parts[..i + 1]).kids == map[] || (r == s && Sub(s, parts[..i]).kids != map[])
    ensures child.Atom? ==> r == s && Sub(s, parts[..i]).kids != map[] && Put(Tree(s), parts, value) == None
  {
    var path, key, rest := parts[..i], parts[i], parts[i + 1..];
    assert parts[..i + 1] == path + [key];
    assert parts == path + [key] + rest;
    if key in Sub(s, path).kids {
      DictAtDeeper(s, path, key);
      if child.Atom? {
        assert IsLeafAt(Tree(s), parts[..i + 1]);
        PutSucceeds(Tree(s), parts, value);
      }
    } else {
      var sub := SDict(child.d, map[]);
      assert Tree(sub) == EMPTY;
      GraftTree(s, path, key, sub);
      SubLookup(s, path, key);
      PutThroughFresh(Tree(s), path, key, rest, value);
      GraftDictAt(s, path, key, sub);
    }
  }

  /** A write of `value` to `parts` of the tree `s` has walked down `i` parts of the tree
      `r`, which differs from `s` at most by dictionaries it created. */
  ghost predicate Walking(s: Shape, parts: Path, value: Json, i: nat, r: Shape, node: Dict)
    reads Nodes(r)
  {
    && i < |parts| && s.SDict? && r.SDict? && r.dict == s.dict
    && DictAt(r, parts[..i]) && Sub(r, parts[..i]).dict == node && node in Nodes(r)
    && Intact(r) && Separate(r)
    && Put(Tree(r), parts, value) == Put(Tree(s), parts, value)
    && (r == s || Sub(r, parts[..i]).kids == map[])
  }

  method StepDown(node: Dict, ghost s: Shape, parts: Path, ghost value: Json, i: nat, ghost r: Shape)
    returns (ok: bool, child: Dict, ghost r': Shape)
    requires Walking(s, parts, value, i, r, node) && i + 1 < |parts|
    modifies node
    ensures forall n <- Nodes(r') :: n in Nodes(r) || fresh(n)
    ensures ok ==> Walking(s, parts, value, i + 1, r', child)
    ensures !ok ==> r' == s && Intact(s) && Put(Tree(s), parts, value) == None
  {
    var v: Value;
    v, r' := SetDefault(node, r, parts[..i], parts[i]);
    WalkStep(r, parts, i, value, r', v);
    ok, child := v.Ref?, if v.Ref? then v.d else node;
  }

  /** The walk of a write, down to the dictionary that holds the last key. */
  method Walk(root: Dict, ghost s: Shape, parts: Path, ghost value: Json)
    returns (ok: bool, node: Dict, ghost r: Shape)
    requires parts != [] && Top(s) == Ref(root) && Intact(s) && Separate(s)
    modifies Nodes(s)
    ensures forall n <- Nodes(r) :: n in Nodes(s) || fresh(n)
    ensures ok ==> Walking(s, parts, value, |parts| - 1, r, node)
    ensures !ok ==> r == s && Intact(s) && Put(Tree(s), parts, value) == None
  {
    r, node, ok := s, root, true;
    assert Walking(s, parts, value, 0, r, node) by { assert parts[..0] == []; }
    hide *;
    var i := 0;
    while i < |parts| - 1
      invariant 0 <= i <= |parts| - 1 && Walking(s, parts, value, i, r, node)
      invariant node in Nodes(r)
      invariant forall n <- Nodes(r) :: n in Nodes(s) || fresh(n)
    {
      ok, node, r := StepDown(node, s, parts, value, i, r);
      if !ok { return; }
      i := i + 1;
    }
  }

  /** Replaces the node at a path by a copy of `value`; at the root, where the code empties
      and refills the dictionary, by `value`'s own entries. A leaf on the way makes the
      write fail with nothing changed. */
  method SetNode(root: Dict, ghost s: Shape, parts: Path, value: Dict, ghost vs: Shape)
    returns (ok: bool, ghost r: Shape)
    requires Top(s) == Ref(root) && Intact(s) && Separate(s)
    requires Top(vs) == Ref(value) && Intact(vs) && Separate(vs) && Nodes(s) !! Nodes(vs)
    modifies Nodes(s)
    ensures ok <==> Put(Tree(s), parts, Tree(vs)).Some?
    ensures Top(r) == Ref(root) && Intact(r) && Separate(r) && Intact(vs)
    ensures ok ==> Tree(r) == Put(Tree(s), parts, Tree(vs)).value
    ensures !ok ==> r == s
    ensures parts != [] ==> forall n <- Nodes(r) :: n in Nodes(s) || fresh(n)
    ensures parts == [] ==> r == SDict(root, vs.kids)
  {
    if parts == [] {
      root.entries := value.entries;
      r := SDict(root, vs.kids);
      SameKidsSameTree(r, vs);
      RootTakesEntries(r, vs);
      return true, r;
    }
    hide Put, Tree;
    NodesAllocated(vs);
    var node: Dict;
    ok, node, r := Walk(root, s, parts, Tree(vs));
    if ok { r := PlaceCopy(node, r, parts, value, vs); }
  }

  /** A deep copy made beside a tree. */
  method CopyBeside(v: Value, ghost vs: Shape, ghost s: Shape) returns (w: Value, ghost c: Shape)
    requires Top(vs) == v && Intact(vs) && Separate(vs) && Intact(s)
    ensures Top(c) == w && Intact(c) && Separate(c) && Tree(c) == Tree(vs)
    ensures Nodes(s) !! Nodes(c) && Intact(s) && Intact(vs) && fresh(Nodes(c))
  {
    hide *;
    NodesAllocated(s);
    NodesAllocated(vs);
    ghost var have := Nodes(s);
    w, c := DeepCopy(v, vs);
    assert have !! Nodes(c);
  }

  method PlaceCopy(node: Dict, ghost s: Shape, parts: Path, value: Dict, ghost vs: Shape) returns (ghost r: Shape)
    requires parts != [] && DictAt(s, parts[..|parts| - 1]) && Sub(s, parts[..|parts| - 1]).dict == node
    requires Intact(s) && Separate(s) && Top(vs) == Ref(value) && Intact(vs) && Separate(vs) && node !in Nodes(vs)
    modifies node
    ensures Intact(r) && Separate(r) && Top(r) == Top(s) && Intact(vs)
    ensures Put(Tree(s), parts, Tree(vs)) == Some(Tree(r))
    ensures forall n <- Nodes(r) :: n in Nodes(s) || fresh(n)
  {
    assert s.SDict?;
    hide Put, Tree, Graft, DictAt, Sub, Separate, Nodes, Intact;
    ghost var path, key := parts[..|parts| - 1], parts[|parts| - 1];
    assert path + [key] == parts;
    var copy: Value;
    ghost var sub: Shape;
    copy, sub := CopyBeside(Ref(value), vs, s);
    GraftTree(s, path, key, sub);
    r := AssignBeside(node, s, path, parts[|parts| - 1], copy, sub, vs);
  }

  /** An assignment that leaves a further tree alone. */
  method AssignBeside(node: Dict, ghost s: Shape, ghost path: Path, key: string, v: Value, ghost sub: Shape,
                      ghost other: Shape) returns (ghost r: Shape)
    requires DictAt(s, path) && Sub(s, path).dict == node && Intact(s) && Separate(s)
    requires Top(sub) == v && Intact(sub) && Separate(sub) && Nodes(s) !! Nodes(sub)
    requires Intact(other) && node !in Nodes(other)
    modifies node
    ensures r == Graft(s, path, key, sub) && Intact(r) && Separate(r) && Intact(other)
    ensures Nodes(r) <= Nodes(s) + Nodes(sub) && r.SDict? && r.dict == s.dict
  {
    hide *;
    NodesAllocated(other);
    r := Assign(node, s, path, key, v, sub);
  }

  lemma RootTakesEntries(r: Shape, vs: Shape)
    requires r.SDict? && vs.SDict? && r.kids == vs.kids && r.dict !in Nodes(vs)
    requires Separate(vs) && Intact(vs) && r.dict.entries == vs.dict.entries
    ensures Separate(r) && Intact(r)
  {}

  // ----- Merging -----

  lemma UpdatedKid(m: Shape, p: Shape, k: string)
    requires m.SDict? && p.SDict? && Separate(m) && Separate(p) && Nodes(m) !! Nodes(p)
    requires k in m.kids || k in p.kids
    ensures var kid := (m.kids + p.kids)[k];
            && Separate(kid) && m.dict !in Nodes(kid)
            && (k in p.kids ==> kid == p.kids[k] && Nodes(kid) <= Nodes(p))
            && (k !in p.kids ==> kid == m.kids[k] && Nodes(kid) <= Nodes(m))
  {}

  lemma UpdatedSeparate(m: Shape, p: Shape)
    requires m.SDict? && p.SDict? && Separate(m) && Separate(p) && Nodes(m) !! Nodes(p)
    ensures Separate(SDict(m.dict, m.kids + p.kids))
    ensures Nodes(SDict(m.dict, m.kids + p.kids)) <= Nodes(m) + Nodes(p)
  {
    var kids := m.kids + p.kids;
    forall k | k in kids
      ensures Separate(kids[k]) && m.dict !in Nodes(kids[k]) && Nodes(kids[k]) <= Nodes(m) + Nodes(p)
    {
      UpdatedKid(m, p, k);
    }
    forall j, k | j in kids && k in kids && j != k
      ensures Nodes(kids[j]) !! Nodes(kids[k])
    {
      UpdatedKid(m, p, j);
      UpdatedKid(m, p, k);
    }
  }

  lemma UpdatedTops(m: map<string, Shape>, p: map<string, Shape>)
    ensures Tops(m + p) == Tops(m) + Tops(p)
  {}

  lemma TreeKeys(s: Shape)
    requires s.SDict?
    ensures Tree(s).Obj? && Tree(s).m.Keys == s.kids.Keys
    ensures forall k <- s.kids :: Tree(s).m[k] == Tree(s.kids[k])
  {}

  lemma UpdatedTree(m: Shape, p: Shape)
    requires m.SDict? && p.SDict?
    ensures Tree(SDict(m.dict, m.kids + p.kids)) == Merged(Tree(m), Tree(p).m)
  {
    var r := SDict(m.dict, m.kids + p.kids);
    TreeKeys(m);
    TreeKeys(p);
    TreeKeys(r);
    hide Tree;
    var a, b, c := Tree(r).m, Tree(m).m, Tree(p).m;
    forall k | k in r.kids
      ensures a[k] == (b + c)[k]
    {
      if k in p.kids { assert r.kids[k] == p.kids[k]; } else { assert r.kids[k] == m.kids[k]; }
    }
    assert a == b + c;
  }

  lemma UpdatedIntact(m: Shape, p: Shape)
    requires m.SDict? && p.SDict? && Intact(p) && forall k <- m.kids :: Intact(m.kids[k])
    requires m.dict.entries == Tops(m.kids + p.kids)
    ensures Intact(SDict(m.dict, m.kids + p.kids))
  {}

  /** The entries of `p` stand in `r` themselves, and nothing else of `p` does. */
  ghost predicate Updated(r: Shape, p: Shape) {
    && r.SDict? && p.SDict?
    && (forall k <- p.kids :: k in r.kids && r.kids[k] == p.kids[k])
    && (forall k <- r.kids :: k !in p.kids ==> Nodes(r.kids[k]) !! Nodes(p))
  }

  lemma UpdateUpdates(d: Dict, m: Shape, p: Shape)
    requires m.SDict? && p.SDict? && Nodes(m) !! Nodes(p)
    ensures Updated(SDict(d, m.kids + p.kids), p)
  {}

  /** `merged.update(patch)` on a copy of the existing node. */
  method Update(merged: Dict, ghost m: Shape, patch: Dict, ghost p: Shape) returns (ghost r: Shape)
    requires Top(m) == Ref(merged) && Intact(m) && Separate(m)
    requires Top(p) == Ref(patch) && Intact(p) && Separate(p) && Nodes(m) !! Nodes(p)
    modifies merged
    ensures Top(r) == Ref(merged) && Intact(r) && Separate(r) && Intact(p)
    ensures Tree(r) == Merged(Tree(m), Tree(p).m) && Nodes(r) <= Nodes(m) + Nodes(p)
    ensures r.kids == m.kids + p.kids && Updated(r, p)
  {
    UpdateUpdates(merged, m, p);
    UpdatedSeparate(m, p);
    UpdatedTree(m, p);
    UpdatedTops(m.kids, p.kids);
    merged.entries := merged.entries + patch.entries;
    r := SDict(merged, m.kids + p.kids);
    UpdatedIntact(m, p);
  }

  /** The merge of a patch into the node at a path. */
  method MergeNode(root: Dict, ghost s: Shape, parts: Path, patch: Dict, ghost p: Shape)
    returns (ok: bool, ghost r: Shape)
    requires Top(s) == Ref(root) && Intact(s) && Separate(s)
    requires Top(p) == Ref(patch) && Intact(p) && Separate(p) && Nodes(s) !! Nodes(p)
    modifies Nodes(s)
    ensures ok <==> Patch(Tree(s), parts, Tree(p).m).Some?
    ensures Top(r) == Ref(root) && Intact(r) && Separate(r) && Intact(p)
    ensures ok ==> Tree(r) == Patch(Tree(s), parts, Tree(p).m).value
    ensures !ok ==> r == s
    ensures parts != [] ==> forall n <- Nodes(r) :: n in Nodes(s) || fresh(n)
    ensures forall n <- Nodes(r) :: n in Nodes(s) || n in Nodes(p) || fresh(n)
    ensures parts == [] ==> Updated(r, p)
  {
    NodesAllocated(s);
    NodesAllocated(p);
    var existing: Value;
    ghost var e: Shape;
    existing, e := GetNode(root, s, parts);
    if existing.Atom? {
      ok, r := SetNode(root, s, parts, patch, p);
      return;
    }
    var merged: Value;
    ghost var m: Shape;
    merged, m := DeepCopy(existing, e);
    m := Update(merged.d, m, patch, p);
    ok, r := SetNode(root, s, parts, merged.d, m);
  }

  /** A dictionary inside it. */
  ghost predicate HasNested(p: Shape) { p.SDict? && exists k <- p.kids :: p.kids[k].SDict? }

  lemma KidNodes(s: Shape, n: Dict)
    requires s.SDict? && n in Nodes(s) && n != s.dict
    ensures exists k <- s.kids :: n in Nodes(s.kids[k])
  {}

  /** A tree updated from another shares a dictionary with it exactly when the other has one
      inside it. */
  lemma SharesExactly(r: Shape, p: Shape)
    requires Updated(r, p) && Separate(p) && r.dict !in Nodes(p)
    ensures !(Nodes(r) !! Nodes(p)) <==> HasNested(p)
  {
    if HasNested(p) {
      var k :| k in p.kids && p.kids[k].SDict?;
      assert p.kids[k].dict in Nodes(p.kids[k]);
      assert p.kids[k].dict in Nodes(p) && p.kids[k].dict in Nodes(r);
    }
    forall n | n in Nodes(r) && n in Nodes(p)
      ensures HasNested(p)
    {
      KidNodes(r, n);
      var k :| k in r.kids && n in Nodes(r.kids[k]);
      assert k in p.kids && p.kids[k].SDict?;
    }
  }

  // ----- The store -----

  class InMemoryFirebase {
    const root: Dict
    ghost var shape: Shape

    ghost predicate Valid()
      reads this, Nodes(shape)
    {
      Top(shape) == Ref(root) && Intact(shape) && Separate(shape)
    }

    /** The stored tree. */
    ghost function State(): Json
      reads this
    {
      Tree(shape)
    }

    constructor (initial: Dict, ghost s: Shape)
      requires Top(s) == Ref(initial) && Intact(s) && Separate(s)
      ensures Valid() && State() == Tree(s) && fresh(Nodes(shape))
    {
      var copy: Value;
      ghost var c: Shape;
      copy, c := DeepCopy(Ref(initial), s);
      root, shape := copy.d, c;
    }

    /** Reading hands out a copy that shares no dictionary with the store. */
    method Get(path: string) returns (v: Value, ghost c: Shape)
      requires Valid()
      ensures Top(c) == v && Intact(c) && Separate(c) && fresh(Nodes(c))
      ensures Tree(c) == JsonTree.Get(State(), PathParts(path))
      ensures Valid()
    {
      NodesAllocated(shape);
      v, c := GetNode(root, shape, PathParts(path));
    }

    /** Merges `data` at a path. Below the root nothing of `data` ends up in the store. */
    method Patch(path: string, data: Dict, ghost p: Shape) returns (ok: bool)
      requires Valid() && Top(p) == Ref(data) && Intact(p) && Separate(p) && Nodes(shape) !! Nodes(p)
      modifies this, Nodes(shape)
      ensures Valid() && Intact(p)
      ensures ok <==> JsonTree.Patch(old(State()), PathParts(path), Tree(p).m).Some?
      ensures State() == if ok then JsonTree.Patch(old(State()), PathParts(path), Tree(p).m).value else old(State())
      ensures PathParts(path) != [] ==> forall n <- Nodes(shape) :: n in old(Nodes(shape)) || fresh(n)
      ensures forall n <- Nodes(shape) :: n in old(Nodes(shape)) || n in Nodes(p) || fresh(n)
      ensures PathParts(path) == [] ==> Updated(shape, p)
    {
      ok, shape := MergeNode(root, shape, PathParts(path), data, p);
    }

    /** Replaces the node at a path; at the root the store then shares `data`'s entries. */
    method Put(path: string, data: Dict, ghost p: Shape) returns (ok: bool)
      requires Valid() && Top(p) == Ref(data) && Intact(p) && Separate(p) && Nodes(shape) !! Nodes(p)
      modifies this, Nodes(shape)
      ensures Valid() && Intact(p)
      ensures ok <==> JsonTree.Put(old(State()), PathParts(path), Tree(p)).Some?
      ensures State() == if ok then JsonTree.Put(old(State()), PathParts(path), Tree(p)).value else old(State())
      ensures PathParts(path) != [] ==> forall n <- Nodes(shape) :: n in old(Nodes(shape)) || fresh(n)
      ensures PathParts(path) == [] ==> shape == SDict(root, p.kids)
    {
      ok, shape := SetNode(root, shape, PathParts(path), data, p);
    }
  }

  // ----- Callers that scribble on what they hold -----

  /** Whatever a caller then does to a value it read, the store does not notice. */
  method ScribbleOnRead(store: InMemoryFirebase, path: string, scribble: map<string, Value>)
    requires store.Valid()
    ensures store.Valid() && store.State() == old(store.State())
  {
    NodesAllocated(store.shape);
    var v: Value;
    ghost var c: Shape;
    v, c := store.Get(path);
    if v.Ref? { v.d.entries := scribble; }
  }

  /** Nor does it notice what becomes of any dictionary of a value written below the root. */
  method ScribbleOnWritten(store: InMemoryFirebase, path: string, data: Dict, ghost p: Shape,
                           inner: Dict, scribble: map<string, Value>) returns (ok: bool)
    requires store.Valid() && Top(p) == Ref(data) && Intact(p) && Separate(p)
    requires Nodes(store.shape) !! Nodes(p) && inner in Nodes(p) && PathParts(path) != []
    modifies store, Nodes(store.shape), inner
    ensures store.Valid() && ok == JsonTree.Put(old(store.State()), PathParts(path), Tree(p)).Some?
    ensures ok ==> store.State() == JsonTree.Put(old(store.State()), PathParts(path), Tree(p)).value
  {
    NodesAllocated(p);
    ok := store.Put(path, data, p);
    inner.entries := scribble;
  }

  /** What a put leaves shared between the store and the caller: a dictionary exactly when the
      path names the root and the value has a dictionary inside it. */
  method PutShares(store: InMemoryFirebase, path: string, data: Dict, ghost p: Shape) returns (ok: bool)
    requires store.Valid() && Top(p) == Ref(data) && Intact(p) && Separate(p) && Nodes(store.shape) !! Nodes(p)
    modifies store, Nodes(store.shape)
    ensures store.Valid() && Intact(p)
    ensures !(Nodes(store.shape) !! Nodes(p)) <==> PathParts(path) == [] && HasNested(p)
  {
    NodesAllocated(p);
    ok := store.Put(path, data, p);
    if PathParts(path) == [] {
      PutUpdates(store.shape, p);
      SharesExactly(store.shape, p);
    }
  }

  lemma PutUpdates(r: Shape, p: Shape)
    requires r.SDict? && p.SDict? && r.kids == p.kids
    ensures Updated(r, p)
  {}

  /** And a patch the same: merging at the root copies what was there, not what is patched in. */
  method PatchShares(store: InMemoryFirebase, path: string, data: Dict, ghost p: Shape) returns (ok: bool)
    requires store.Valid() && Top(p) == Ref(data) && Intact(p) && Separate(p) && Nodes(store.shape) !! Nodes(p)
    modifies store, Nodes(store.shape)
    ensures store.Valid() && Intact(p)
    ensures !(Nodes(store.shape) !! Nodes(p)) <==> PathParts(path) == [] && HasNested(p)
  {
    NodesAllocated(p);
    ok := store.Patch(path, data, p);
    if PathParts(path) == [] { SharesExactly(store.shape, p); }
  }

  ghost function Single(d: Dict, key: string, sub: Shape): Shape { SDict(d, map[key := sub]) }

  lemma SingleFacts(d: Dict, key: string, sub: Shape)
    ensures var s := Single(d, key, sub);
            && Nodes(s) == {d} + Nodes(sub)
            && Tree(s) == Obj(map[key := Tree(sub)])
            && (Separate(sub) && d !in Nodes(sub) ==> Separate(s))
            && (Intact(sub) && d.entries == map[key := Top(sub)] ==> Intact(s))
  {
    var s := Single(d, key, sub);
    assert Tree(s).m == map[key := Tree(sub)];
    assert Tops(s.kids) == map[key := Top(sub)];
    assert s.kids[key] == sub;
  }

  /** At the root it does: a dictionary inside a value written there is the store's own. */
  method RootPutShares(store: InMemoryFirebase) returns (ghost after: Shape)
    requires store.Valid() && Nodes(store.shape) == {store.root}
    modifies store, store.root
    ensures Top(after) == Ref(store.root) && Intact(after)
    ensures store.State() == Obj(map["fans" := EMPTY])
    ensures Tree(after) == Obj(map["fans" := Obj(map["fan1" := NONE])])
  {
    var inner := new Dict();
    var data := new Dict();
    data.entries := map["fans" := Ref(inner)];
    ghost var q := SDict(inner, map[]);
    EmptyDict(q);
    SingleFacts(data, "fans", q);
    RootPath();
    assert Tree(q) == EMPTY;
    var ok := store.Put("", data, Single(data, "fans", q));
    assert store.shape == Single(store.root, "fans", q);
    assert store.root.entries == map["fans" := Ref(inner)] by {
      assert Tops(store.shape.kids) == map["fans" := Ref(inner)];
    }
    inner.entries := map["fan1" := Atom(Null)];
    after := Single(store.root, "fans", Single(inner, "fan1", SLeaf(Null)));
    NestedFacts(store.root, inner);
  }

  lemma NestedFacts(root: Dict, inner: Dict)
    requires root.entries == map["fans" := Ref(inner)] && inner.entries == map["fan1" := Atom(Null)]
    ensures var s := Single(root, "fans", Single(inner, "fan1", SLeaf(Null)));
            Intact(s) && Tree(s) == Obj(map["fans" := Obj(map["fan1" := NONE])])
  {
    SingleFacts(inner, "fan1", SLeaf(Null));
    SingleFacts(root, "fans", Single(inner, "fan1", SLeaf(Null)));
  }

  lemma RootPath()
    ensures PathParts("") == []
  {
    assert Split("") == [""];
    NonEmptyCons("", []);
  }
}

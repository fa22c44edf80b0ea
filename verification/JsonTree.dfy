/** JSON trees and the path operations of the in-memory Firebase store, on values. */
module JsonTree {
  import opened Prelude

  datatype Scalar = Null | Bool(b: bool) | Num(r: real) | Str(s: string)

  datatype Json = Leaf(v: Scalar) | Obj(m: map<string, Json>)

  const NONE := Leaf(Null)
  const EMPTY := Obj(map[])

  type Path = seq<string>

  // ----- Paths from their spelling -----

  /** The pieces between slashes, always at least one. */
  function Split(s: string): (pieces: seq<string>)
    ensures |pieces| >= 1
  {
    if s == [] then [""]
    else if s[0] == '/' then [""] + Split(s[1..])
    else var rest := Split(s[1..]); [[s[0]] + rest[0]] + rest[1..]
  }

  function NonEmpty(pieces: seq<string>): seq<string> {
    if pieces == [] then []
    else (if pieces[0] == "" then [] else [pieces[0]]) + NonEmpty(pieces[1..])
  }

  function StripLeft(s: string): string {
    if s != [] && s[0] == '/' then StripLeft(s[1..]) else s
  }

  function StripRight(s: string): string {
    if s != [] && s[|s| - 1] == '/' then StripRight(s[..|s| - 1]) else s
  }

  function PathParts(path: string): Path {
    NonEmpty(Split(StripRight(StripLeft(path))))
  }

  function Join(parts: Path): string {
    if parts == [] then "" else if |parts| == 1 then parts[0] else parts[0] + "/" + Join(parts[1..])
  }

  predicate IsPart(s: string) { s != "" && '/' !in s }

  lemma {:induction false} SplitConcat(a: string, b: string)
    ensures Split(a + "/" + b) == Split(a) + Split(b)
  {
    if a == [] {
      assert a + "/" + b == ['/'] + b;
      SplitSlash(b);
    } else {
      SplitConcat(a[1..], b);
      SplitCons(a[0], a[1..]);
      SplitCons(a[0], a[1..] + "/" + b);
      Refold(a, b);
      hide *;
      Associate([""], Split(a[1..]), Split(b));
      PrependToFirst(a[0], Split(a[1..]), Split(b));
    }
  }

  lemma Associate(a: seq<string>, b: seq<string>, c: seq<string>)
    ensures a + (b + c) == (a + b) + c
  {}

  lemma Refold(a: string, b: string)
    requires a != []
    ensures a == [a[0]] + a[1..] && a + "/" + b == [a[0]] + (a[1..] + "/" + b)
  {}

  lemma PrependToFirst(c: char, x: seq<string>, y: seq<string>)
    requires x != []
    ensures [[c] + (x + y)[0]] + (x + y)[1..] == ([[c] + x[0]] + x[1..]) + y
  {}

  lemma SplitSlash(b: string)
    ensures Split(['/'] + b) == [""] + Split(b)
  {
    assert (['/'] + b)[1..] == b;
  }

  lemma SplitCons(c: char, rest: string)
    ensures Split([c] + rest) == if c == '/' then [""] + Split(rest) else [[c] + Split(rest)[0]] + Split(rest)[1..]
  {
    assert ([c] + rest)[1..] == rest;
  }

  lemma {:induction false} NonEmptyConcat(a: seq<string>, b: seq<string>)
    ensures NonEmpty(a + b) == NonEmpty(a) + NonEmpty(b)
  {
    if a == [] {
      assert a + b == b && NonEmpty(a) + NonEmpty(b) == NonEmpty(b);
    } else {
      var first := if a[0] == "" then [] else [a[0]];
      NonEmptyConcat(a[1..], b);
      NonEmptyCons(a[0], a[1..]);
      NonEmptyCons(a[0], a[1..] + b);
      assert a == [a[0]] + a[1..] && a + b == [a[0]] + (a[1..] + b);
      hide NonEmpty;
      Associate(first, NonEmpty(a[1..]), NonEmpty(b));
    }
  }

  lemma NonEmptyCons(s: string, rest: seq<string>)
    ensures NonEmpty([s] + rest) == (if s == "" then [] else [s]) + NonEmpty(rest)
  {
    assert ([s] + rest)[1..] == rest;
  }

  lemma {:induction false} SplitPart(s: string)
    requires '/' !in s
    ensures Split(s) == [s]
  {
    if s != [] {
      SplitPart(s[1..]);
      assert [s[0]] + s[1..] == s;
    }
  }

  lemma {:induction false} StripLeftIgnored(s: string)
    ensures NonEmpty(Split(StripLeft(s))) == NonEmpty(Split(s))
  {
    if s != [] && s[0] == '/' {
      StripLeftIgnored(s[1..]);
      NonEmptyCons("", Split(s[1..]));
    }
  }

  lemma {:induction false} StripRightIgnored(s: string)
    ensures NonEmpty(Split(StripRight(s))) == NonEmpty(Split(s))
  {
    if s != [] && s[|s| - 1] == '/' {
      var t := s[..|s| - 1];
      StripRightIgnored(t);
      assert s == t + "/" + "";
      SplitConcat(t, "");
      NonEmptyConcat(Split(t), [""]);
      assert NonEmpty([""]) == [] by { NonEmptyCons("", []); }
    }
  }

  lemma PathPartsPlain(s: string)
    ensures PathParts(s) == NonEmpty(Split(s))
  {
    StripLeftIgnored(s);
    StripRightIgnored(StripLeft(s));
  }

  /** Joining and splitting again gives the pieces back, empty ones included. */
  lemma {:induction false} SplitJoined(parts: seq<string>)
    requires parts != [] && forall i :: 0 <= i < |parts| ==> '/' !in parts[i]
    ensures Split(Join(parts)) == parts
  {
    SplitPart(parts[0]);
    if |parts| == 1 {
      assert parts == [parts[0]];
    } else {
      SplitJoined(parts[1..]);
      SplitConcat(parts[0], Join(parts[1..]));
      assert parts == [parts[0]] + parts[1..];
    }
  }

  /** And every string is its pieces, joined. */
  lemma {:induction false} JoinOfSplit(s: string)
    ensures Join(Split(s)) == s
  {
    if s != [] {
      JoinOfSplit(s[1..]);
      var rest := Split(s[1..]);
      assert s == [s[0]] + s[1..];
      if s[0] == '/' {
        assert ([""] + rest)[1..] == rest;
      } else {
        var first := [s[0]] + rest[0];
        assert ([first] + rest[1..])[1..] == rest[1..];
        if |rest| == 1 { assert rest == [rest[0]]; }
      }
    }
  }

  lemma {:induction false} JoinSplits(parts: Path)
    requires forall i :: 0 <= i < |parts| ==> IsPart(parts[i])
    ensures NonEmpty(Split(Join(parts))) == parts
  {
    if |parts| == 1 {
      SplitPart(parts[0]);
      assert parts == [parts[0]];
    } else if |parts| > 1 {
      JoinSplits(parts[1..]);
      SplitConcat(parts[0], Join(parts[1..]));
      SplitPart(parts[0]);
      NonEmptyConcat([parts[0]], Split(Join(parts[1..])));
      assert NonEmpty([parts[0]]) == [parts[0]] by { assert [parts[0]][1..] == []; }
    }
  }

  lemma MoreSlashes(s: string)
    ensures PathParts("/" + s) == PathParts(s) && PathParts(s + "/") == PathParts(s)
  {
    hide PathParts;
    PathPartsPlain(s);
    PathPartsPlain("/" + s);
    PathPartsPlain(s + "/");
    assert "/" + s == "" + "/" + s && s + "/" == s + "/" + "";
    SplitConcat("", s);
    SplitConcat(s, "");
    NonEmptyConcat([""], Split(s));
    NonEmptyConcat(Split(s), [""]);
    assert NonEmpty([""]) == [] by { assert [""][1..] == []; }
  }

  /** Every list of proper parts is what its joined spelling names, and so is every
      respelling with more slashes: different strings can name one node. */
  lemma JoinNames(parts: Path)
    requires forall i :: 0 <= i < |parts| ==> IsPart(parts[i])
    ensures PathParts(Join(parts)) == parts
    ensures PathParts("/" + Join(parts)) == parts && PathParts(Join(parts) + "/") == parts
  {
    JoinSplits(parts);
    PathPartsPlain(Join(parts));
    MoreSlashes(Join(parts));
  }

  lemma {:induction false} PartsAreParts(s: string)
    ensures forall part <- PathParts(s) :: IsPart(part)
  {
    PathPartsPlain(s);
    PiecesHaveNoSlash(s);
    NonEmptyKeeps(Split(s));
  }

  lemma {:induction false} PiecesHaveNoSlash(s: string)
    ensures forall piece <- Split(s) :: '/' !in piece
  {
    if s != [] { PiecesHaveNoSlash(s[1..]); }
  }

  lemma {:induction false} NonEmptyKeeps(pieces: seq<string>)
    requires forall piece <- pieces :: '/' !in piece
    ensures forall part <- NonEmpty(pieces) :: IsPart(part)
  {
    if pieces != [] {
      assert pieces[0] in pieces;
      NonEmptyKeeps(pieces[1..]);
    }
  }

  // ----- Get, set and merge -----

  function Lookup(t: Json, path: Path): Option<Json>
    decreases |path|
  {
    if path == [] then Some(t)
    else if t.Leaf? || path[0] !in t.m then None
    else Lookup(t.m[path[0]], path[1..])
  }

  /** A missing node reads as null. */
  function Get(t: Json, path: Path): Json {
    match Lookup(t, path)
    case None => NONE
    case Some(v) => v
  }

  function Child(t: Json, key: string): Json
    requires t.Obj?
  {
    if key in t.m then t.m[key] else EMPTY
  }

  /** Missing dictionaries on the way are created. A leaf on the way is an error. */
  function Put(t: Json, path: Path, value: Json): Option<Json>
    decreases |path|
  {
    if path == [] then Some(value)
    else if t.Leaf? then None
    else match Put(Child(t, path[0]), path[1..], value)
      case None => None
      case Some(child) => Some(Obj(t.m[path[0] := child]))
  }

  function Merged(existing: Json, patch: map<string, Json>): Json {
    if existing.Obj? then Obj(existing.m + patch) else Obj(patch)
  }

  function Patch(t: Json, path: Path, patch: map<string, Json>): Option<Json> {
    Put(t, path, Merged(Get(t, path), patch))
  }

  // ----- When a path can be written -----

  /** No proper prefix of the path is a leaf. */
  ghost predicate Writable(t: Json, path: Path) {
    forall n :: 0 <= n < |path| ==> !IsLeafAt(t, path[..n])
  }

  predicate IsLeafAt(t: Json, path: Path) {
    Lookup(t, path).Some? && Lookup(t, path).value.Leaf?
  }

  lemma {:induction false} EmptyHasNoLeaf(path: Path)
    ensures !IsLeafAt(EMPTY, path)
  {}

  /** A write succeeds exactly when no proper prefix of its path is a leaf. */
  lemma {:induction false} PutSucceeds(t: Json, path: Path, value: Json)
    ensures Put(t, path, value).Some? <==> Writable(t, path)
    decreases |path|
  {
    if path == [] {
    } else if t.Leaf? {
      assert path[..0] == [];
      assert IsLeafAt(t, path[..0]);
    } else {
      var child, rest := Child(t, path[0]), path[1..];
      PutSucceeds(child, rest, value);
      forall n | 1 <= n <= |path|
        ensures IsLeafAt(t, path[..n]) <==> IsLeafAt(child, rest[..n - 1])
      {
        assert path[..n][1..] == rest[..n - 1];
        if path[0] !in t.m { EmptyHasNoLeaf(rest[..n - 1]); }
      }
      if Writable(t, path) {
        forall n | 0 <= n < |rest|
          ensures !IsLeafAt(child, rest[..n])
        {
          assert !IsLeafAt(t, path[..n + 1]);
        }
      }
      if Writable(child, rest) {
        forall n | 0 <= n < |path|
          ensures !IsLeafAt(t, path[..n])
        {
          if n > 0 { assert !IsLeafAt(child, rest[..n - 1]); }
        }
      }
    }
  }

  // ----- What a write changes -----

  /** Neither path leads through the other. */
  predicate Apart(p: Path, q: Path) { !(p <= q) && !(q <= p) }

  /** Reading at or below the written path reads the written value. */
  lemma {:induction false} PutThenLookup(t: Json, path: Path, value: Json, below: Path)
    requires Put(t, path, value).Some?
    ensures Lookup(Put(t, path, value).value, path + below) == Lookup(value, below)
    decreases |path|
  {
    if path == [] {
      assert path + below == below;
    } else {
      PutThenLookup(Child(t, path[0]), path[1..], value, below);
      assert (path + below)[1..] == path[1..] + below;
    }
  }

  /** A write leaves every path apart from its own as it was. */
  lemma {:induction false} PutLeavesApart(t: Json, path: Path, value: Json, other: Path)
    requires Put(t, path, value).Some? && Apart(path, other)
    ensures Lookup(Put(t, path, value).value, other) == Lookup(t, other)
    decreases |path|
  {
    if path[0] == other[0] {
      ApartTails(path, other);
      PutLeavesApart(Child(t, path[0]), path[1..], value, other[1..]);
      if path[0] !in t.m { assert Lookup(EMPTY, other[1..]) == None; }
    }
  }

  lemma ApartTails(p: Path, q: Path)
    requires Apart(p, q) && p[0] == q[0]
    ensures Apart(p[1..], q[1..])
  {
    assert p == [p[0]] + p[1..] && q == [q[0]] + q[1..];
  }

  /** Above the written path there are dictionaries, updated along it. */
  lemma {:induction false} PutSeenAbove(t: Json, above: Path, below: Path, value: Json)
    requires Put(t, above + below, value).Some? && below != []
    ensures Lookup(Put(t, above + below, value).value, above)
            == Put(NodeAt(t, above), below, value)
    decreases |above|
  {
    if above == [] {
      assert above + below == below;
    } else {
      assert (above + below)[1..] == above[1..] + below;
      PutSeenAbove(Child(t, above[0]), above[1..], below, value);
      if above[0] !in t.m && above[1..] != [] { assert Lookup(EMPTY, above[1..]) == None; }
    }
  }

  /** The node a write finds, or creates, on its way. */
  function NodeAt(t: Json, path: Path): Json {
    if Lookup(t, path).Some? then Lookup(t, path).value else EMPTY
  }

  /** Writes to paths apart from each other commute, and neither makes the other fail. */
  lemma {:induction false} PutsCommute(t: Json, p: Path, v: Json, q: Path, w: Json)
    requires Apart(p, q) && Put(t, p, v).Some? && Put(t, q, w).Some?
    ensures Put(Put(t, p, v).value, q, w).Some?
    ensures Put(Put(t, p, v).value, q, w) == Put(Put(t, q, w).value, p, v)
    decreases |p|
  {
    if p[0] == q[0] {
      ApartTails(p, q);
      PutsCommute(Child(t, p[0]), p[1..], v, q[1..], w);
      var a, b := Put(Child(t, p[0]), p[1..], v).value, Put(Child(t, p[0]), q[1..], w).value;
      var c := Put(a, q[1..], w).value;
      assert t.m[p[0] := a][p[0] := c] == t.m[p[0] := c] == t.m[p[0] := b][p[0] := c];
    } else {
      var a, b := Put(Child(t, p[0]), p[1..], v).value, Put(Child(t, q[0]), q[1..], w).value;
      assert t.m[p[0] := a][q[0] := b] == t.m[q[0] := b][p[0] := a];
    }
  }

  /** A written path can be written again, and so can a path apart from it. */
  lemma PutKeepsWritable(t: Json, path: Path, value: Json, other: Path)
    requires Put(t, path, value).Some? && Writable(t, other)
    requires path == other || Apart(path, other)
    ensures Writable(Put(t, path, value).value, other)
  {
    var t' := Put(t, path, value).value;
    if path == other {
      forall n | 0 <= n < |path|
        ensures !IsLeafAt(t', path[..n])
      {
        assert path == path[..n] + path[n..];
        PutSeenAbove(t, path[..n], path[n..], value);
      }
    } else {
      PutSucceeds(t, other, NONE);
      PutsCommute(t, path, value, other, NONE);
      PutSucceeds(t', other, NONE);
    }
  }

  /** Merging into a dictionary overrides the patched keys and keeps the others; merging
      onto anything else replaces it. */
  lemma PatchMeaning(t: Json, path: Path, patch: map<string, Json>)
    requires Writable(t, path)
    ensures Patch(t, path, patch).Some?
    ensures var node := Get(Patch(t, path, patch).value, path);
            && node.Obj?
            && (forall k <- patch :: k in node.m && node.m[k] == patch[k])
            && (forall k | k !in patch :: k in node.m <==> Get(t, path).Obj? && k in Get(t, path).m)
            && (forall k | k !in patch && k in node.m :: node.m[k] == Get(t, path).m[k])
  {
    var value := Merged(Get(t, path), patch);
    PutSucceeds(t, path, value);
    PutThenLookup(t, path, value, []);
    assert path + [] == path;
  }
}

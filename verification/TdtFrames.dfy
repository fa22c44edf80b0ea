/** Reassembly of one response frame from the fragments a pack notifies. */
module TdtFrames {
  import opened Prelude

  const CAPACITY := 256
  const TAIL: byte := 0x0d

  /** What an assembler holds: the octets received so far and its two progress fields. */
  datatype Progress = Progress(received: bytes, expected: nat, complete: bool)

  const EMPTY := Progress([], 0, false)

  /** The length announced by octets 6 and 7 of a frame, plus the 11 octets around the
      payload. */
  function Announced(received: bytes): nat
    requires |received| >= 8
  {
    Be16(received[6], received[7]) + 11
  }

  function Accept(s: Progress, data: bytes): Progress {
    if s.complete || |s.received| + |data| > CAPACITY then s else
    var received := s.received + data;
    var expected := if s.expected == 0 && |received| >= 8
                    then Min(Announced(received), CAPACITY) else s.expected;
    Progress(received, expected, expected != 0 && |received| >= expected)
  }

  function AcceptAll(s: Progress, fragments: seq<bytes>): Progress
    decreases |fragments|
  {
    if fragments == [] then s else AcceptAll(Accept(s, fragments[0]), fragments[1..])
  }

  function Extract(s: Progress): Option<bytes>
    requires Sound(s)
  {
    if !s.complete || (s.received[0] != 0x7e && s.received[0] != 0x1e) then None
    else if s.received[|s.received| - 1] != TAIL then None
    else Some(s.received[8..8 + (s.expected - 11)])
  }

  class Assembler {
    const buf: array<byte>
    var len: nat
    var expected: nat
    var complete: bool

    ghost predicate Valid()
      reads this, buf
    {
      buf.Length == CAPACITY && len <= CAPACITY && Sound(Held())
    }

    ghost function Held(): Progress
      requires buf.Length == CAPACITY && len <= CAPACITY
      reads this, buf
    {
      Progress(buf[..len], expected, complete)
    }

    constructor ()
      ensures Valid() && fresh(buf) && Held() == EMPTY
    {
      buf := new byte[CAPACITY];
      len, expected, complete := 0, 0, false;
    }

    method Reset()
      requires buf.Length == CAPACITY
      modifies this
      ensures Valid() && Held() == EMPTY
    {
      len := 0;
      expected := 0;
      complete := false;
    }

    method Feed(data: bytes)
      requires Valid()
      modifies this, buf
      ensures Valid() && Held() == Accept(old(Held()), data)
      ensures buf[len..] == old(buf[..])[len..]
    {
      if complete || len + |data| > buf.Length { return; }
      ghost var before := Held();
      AcceptSound(before, data);
      hide Sound;
      forall k | len <= k < len + |data| { buf[k] := data[k - len]; }
      assert buf[..len + |data|] == old(buf[..len]) + data;
      assert buf[len + |data|..] == old(buf[..])[len + |data|..] by {
        assert forall k :: len + |data| <= k < buf.Length ==> buf[k] == old(buf[k]);
      }
      len := len + |data|;
      if expected == 0 && len >= 8 {
        expected := Be16(buf[6], buf[7]) + 11;
        if expected > buf.Length { expected := buf.Length; }
      }
      if expected != 0 && len >= expected { complete := true; }
      assert Held() == Accept(before, data);
    }

    /** The payload as an offset and a length into the buffer. */
    method Payload() returns (ok: bool, out: nat, outLen: nat)
      requires Valid()
      ensures ok <==> Extract(Held()).Some?
      ensures ok ==> out + outLen <= len && buf[out..out + outLen] == Extract(Held()).value
    {
      out, outLen := 0, 0;
      if !complete || (buf[0] != 0x7e && buf[0] != 0x1e) { return false, out, outLen; }
      var dataLen := expected - 11;
      if buf[len - 1] != TAIL { return false, out, outLen; }
      assert buf[..len][8..8 + dataLen] == buf[8..8 + dataLen];
      return true, 8, dataLen;
    }
  }

  // ----- The invariant of any run -----

  ghost predicate Sound(s: Progress) {
    && |s.received| <= CAPACITY
    && (s.expected == 0 <==> |s.received| < 8)
    && (s.expected != 0 ==> 11 <= s.expected <= CAPACITY)
    && (s.complete <==> s.expected != 0 && |s.received| >= s.expected)
    && (|s.received| >= 8 ==> s.expected == Min(Announced(s.received), CAPACITY))
  }

  lemma AcceptSound(s: Progress, data: bytes)
    requires Sound(s)
    ensures Sound(Accept(s, data))
  {
    if |s.received| >= 8 && |s.received + data| <= CAPACITY {
      assert Announced(s.received + data) == Announced(s.received);
    }
  }

  /** Whatever is fed after a reset, in whatever pieces, the invariant holds, completion
      absorbs, and any payload lies inside the received octets. */
  lemma {:induction false} RunSound(s: Progress, fragments: seq<bytes>)
    requires Sound(s)
    ensures Sound(AcceptAll(s, fragments))
    ensures s.complete ==> AcceptAll(s, fragments) == s
    ensures s.received <= AcceptAll(s, fragments).received
    ensures var e := AcceptAll(s, fragments);
            Extract(e).Some? ==> 8 + |Extract(e).value| + 3 <= |e.received|
    decreases |fragments|
  {
    if fragments != [] {
      AcceptSound(s, fragments[0]);
      RunSound(Accept(s, fragments[0]), fragments[1..]);
    }
  }

  // ----- Frames as the packs write them -----

  /** The six octets before the length: the head and five routing octets. */
  datatype Frame = Frame(head: byte, routing: bytes, payload: bytes, crcHigh: byte, crcLow: byte)

  predicate WellFormed(f: Frame) {
    (f.head == 0x7e || f.head == 0x1e) && |f.routing| == 5 && |f.payload| < 65536
  }

  function Encode(f: Frame): (octets: bytes)
    requires WellFormed(f)
    ensures |octets| == |f.payload| + 11
  {
    [f.head] + f.routing + [|f.payload| / 256, |f.payload| % 256] + f.payload
    + [f.crcHigh, f.crcLow, TAIL]
  }

  function Flatten(fragments: seq<bytes>): bytes {
    if fragments == [] then [] else fragments[0] + Flatten(fragments[1..])
  }

  lemma {:induction false} FlattenConcat(a: seq<bytes>, b: seq<bytes>)
    ensures Flatten(a + b) == Flatten(a) + Flatten(b)
  {
    if a == [] {
      assert a + b == b;
    } else {
      FlattenConcat(a[1..], b);
      assert (a + b)[1..] == a[1..] + b;
      Regroup(a[0], Flatten(a[1..]), Flatten(b));
    }
  }

  lemma Regroup(a: bytes, b: bytes, c: bytes)
    ensures (a + b) + c == a + (b + c)
  {}

  lemma EncodeAnnounces(f: Frame, received: bytes)
    requires WellFormed(f) && |received| >= 8
    requires received[..8] == Encode(f)[..8]
    ensures Announced(received) == |f.payload| + 11 && received[0] == f.head
  {
    assert received[6] == received[..8][6] && received[7] == received[..8][7];
    assert received[0] == received[..8][0];
  }

  /** While a proper part of a frame no longer than the buffer has arrived, the assembler
      holds exactly that part and is not complete. */
  lemma {:induction false} PartialFrame(f: Frame, fragments: seq<bytes>)
    requires WellFormed(f) && Flatten(fragments) <= Encode(f)
    requires |Flatten(fragments)| < Min(|Encode(f)|, CAPACITY)
    ensures AcceptAll(EMPTY, fragments).received == Flatten(fragments)
    ensures !AcceptAll(EMPTY, fragments).complete && Sound(AcceptAll(EMPTY, fragments))
  {
    RunFromPart(f, EMPTY, fragments);
  }

  lemma {:induction false} RunFromPart(f: Frame, s: Progress, fragments: seq<bytes>)
    requires WellFormed(f) && Sound(s) && !s.complete
    requires s.received + Flatten(fragments) <= Encode(f)
    requires |s.received + Flatten(fragments)| < Min(|Encode(f)|, CAPACITY)
    ensures var e := AcceptAll(s, fragments);
            e.received == s.received + Flatten(fragments) && !e.complete && Sound(e)
    decreases |fragments|
  {
    if fragments != [] {
      var next := Accept(s, fragments[0]);
      AcceptSound(s, fragments[0]);
      assert s.received + Flatten(fragments) == (s.received + fragments[0]) + Flatten(fragments[1..]);
      assert next.received == s.received + fragments[0];
      if |next.received| >= 8 {
        assert next.received[..8] == Encode(f)[..8];
        EncodeAnnounces(f, next.received);
      }
      RunFromPart(f, next, fragments[1..]);
    }
  }

  /** The delivery of `f` cut as `before`, then a fragment `last` with which the frame's
      last octet arrives, perhaps followed in that same fragment by `trailing` octets. */
  ghost predicate Delivers(f: Frame, before: seq<bytes>, last: bytes, trailing: bytes) {
    WellFormed(f) && |Flatten(before)| < |Encode(f)| && Flatten(before) + last == Encode(f) + trailing
  }

  lemma DeliveryPrefix(f: Frame, before: seq<bytes>, last: bytes, trailing: bytes)
    requires Delivers(f, before, last, trailing)
    ensures Flatten(before) <= Encode(f)
  {
    var whole := Encode(f) + trailing;
    assert Flatten(before) == whole[..|Flatten(before)|];
  }

  /** A frame of at most 256 octets completes exactly with its last octet, unless that
      fragment would overrun the buffer, in which case nothing of it is taken. */
  lemma ShortFrameCompletes(f: Frame, before: seq<bytes>, last: bytes, trailing: bytes)
    requires Delivers(f, before, last, trailing) && |Encode(f)| <= CAPACITY
    ensures !AcceptAll(EMPTY, before).complete
    ensures var e := Accept(AcceptAll(EMPTY, before), last);
            && Sound(e)
            && (e.complete <==> |Encode(f)| + |trailing| <= CAPACITY)
            && (e.complete ==> e == Progress(Encode(f) + trailing, |Encode(f)|, true))
  {
    DeliveryPrefix(f, before, last, trailing);
    PartialFrame(f, before);
    var s := AcceptAll(EMPTY, before);
    AcceptSound(s, last);
    var whole := Encode(f) + trailing;
    assert whole[..8] == Encode(f)[..8];
    EncodeAnnounces(f, whole);
    if |s.received| >= 8 {
      assert s.received[..8] == Encode(f)[..8];
      EncodeAnnounces(f, s.received);
    }
  }

  lemma {:induction false} AcceptAllConcat(s: Progress, a: seq<bytes>, b: seq<bytes>)
    ensures AcceptAll(s, a + b) == AcceptAll(AcceptAll(s, a), b)
    decreases |a|
  {
    if a == [] {
      assert a + b == b;
    } else {
      AcceptAllConcat(Accept(s, a[0]), a[1..], b);
      assert (a + b)[1..] == a[1..] + b;
    }
  }

  // ----- Any pieces whatever -----

  /** A piece fed in state `s` is kept. */
  predicate Takes(s: Progress, data: bytes) { !s.complete && |s.received| + |data| <= CAPACITY }

  /** The pieces of a run that are kept; the others are refused whole. */
  function Taken(s: Progress, fragments: seq<bytes>): seq<bytes>
    decreases |fragments|
  {
    if fragments == [] then []
    else if Takes(s, fragments[0]) then [fragments[0]] + Taken(Accept(s, fragments[0]), fragments[1..])
    else Taken(s, fragments[1..])
  }

  lemma SoundIsDetermined(s: Progress, t: Progress)
    requires Sound(s) && Sound(t) && s.received == t.received
    ensures s == t
  {}

  lemma {:induction false} ReceivedIsTaken(s: Progress, fragments: seq<bytes>)
    requires Sound(s)
    ensures AcceptAll(s, fragments).received == s.received + Flatten(Taken(s, fragments))
    decreases |fragments|
  {
    if fragments != [] {
      AcceptSound(s, fragments[0]);
      var next := Accept(s, fragments[0]);
      ReceivedIsTaken(next, fragments[1..]);
      if Takes(s, fragments[0]) {
        var rest := Taken(next, fragments[1..]);
        assert Taken(s, fragments)[1..] == rest;
        Regroup(s.received, fragments[0], Flatten(rest));
      }
    }
  }

  /** Any run at all ends as if the pieces it keeps had come as one: refused pieces and the
      places of the cuts leave no trace. */
  lemma RunIsOnePiece(fragments: seq<bytes>)
    ensures AcceptAll(EMPTY, fragments) == Accept(EMPTY, Flatten(Taken(EMPTY, fragments)))
  {
    var whole := Flatten(Taken(EMPTY, fragments));
    ReceivedIsTaken(EMPTY, fragments);
    RunSound(EMPTY, fragments);
    assert [] + whole == whole;
    AcceptSound(EMPTY, whole);
    SoundIsDetermined(AcceptAll(EMPTY, fragments), Accept(EMPTY, whole));
  }

  /** Octets that are part of a frame, or begin with one. */
  ghost predicate Carries(f: Frame, octets: bytes) {
    WellFormed(f) && (octets <= Encode(f) || Encode(f) <= octets)
  }

  lemma PayloadWithin(f: Frame, octets: bytes)
    requires WellFormed(f) && Encode(f) <= octets
    ensures octets[8..8 + |f.payload|] == f.payload && octets[0] == f.head
  {
    var frame := Encode(f);
    assert frame[8..8 + |f.payload|] == f.payload && frame[0] == f.head;
    assert octets[..|frame|] == frame;
    assert octets[8..8 + |f.payload|] == octets[..|frame|][8..8 + |f.payload|];
  }

  lemma ExtractWhole(f: Frame, e: Progress)
    requires WellFormed(f) && Sound(e) && e.complete && e.expected == |f.payload| + 11
    requires e.received[0] == f.head && e.received[8..8 + |f.payload|] == f.payload
    ensures Extract(e) == Some(f.payload) <==> e.received[|e.received| - 1] == TAIL
  {}

  lemma ExtractShort(e: Progress, n: nat)
    requires Sound(e) && (e.complete ==> e.expected < n + 11)
    ensures Extract(e).Some? ==> |Extract(e).value| < n
  {}

  /** Over any pieces of which the kept ones carry a frame: the frame's payload comes back
      exactly when all of the frame was kept and the last octet kept is the tail octet. */
  lemma KeptFrame(f: Frame, fragments: seq<bytes>)
    requires Carries(f, Flatten(Taken(EMPTY, fragments)))
    ensures var e, kept := AcceptAll(EMPTY, fragments), Flatten(Taken(EMPTY, fragments));
            && Sound(e)
            && (Extract(e) == Some(f.payload) <==> Encode(f) <= kept && kept[|kept| - 1] == TAIL)
  {
    var e, kept, frame := AcceptAll(EMPTY, fragments), Flatten(Taken(EMPTY, fragments)), Encode(f);
    RunSound(EMPTY, fragments);
    ReceivedIsTaken(EMPTY, fragments);
    assert [] + kept == kept == e.received;
    if |kept| >= 8 {
      assert kept[..8] == frame[..8];
      EncodeAnnounces(f, kept);
    }
    hide Encode, Taken, Flatten, AcceptAll, Extract;
    if frame <= kept {
      PayloadWithin(f, kept);
      assert e.complete && e.expected == |f.payload| + 11;
      hide Sound;
      ExtractWhole(f, e);
    } else {
      assert |kept| < |frame|;
      if e.complete { assert e.expected == CAPACITY < |f.payload| + 11; }
      hide Sound;
      ExtractShort(e, |f.payload|);
    }
  }

  /** Round trip, with its exact condition. A frame is delivered in any pieces, the last of
      which may have more behind it, and anything may be fed later. If all of that last piece
      fits the buffer the payload comes back exactly when it ends in the tail octet; if it does
      not, the run ends as if the piece had never been sent; and a frame longer than the buffer
      never comes back. */
  lemma RoundTrip(f: Frame, before: seq<bytes>, last: bytes, trailing: bytes, later: seq<bytes>)
    requires Delivers(f, before, last, trailing)
    ensures var e := AcceptAll(EMPTY, before + [last] + later);
            && Sound(e)
            && (|Encode(f)| + |trailing| <= CAPACITY ==>
                  (Extract(e) == Some(f.payload) <==> trailing == [] || trailing[|trailing| - 1] == TAIL))
            && (|Encode(f)| <= CAPACITY < |Encode(f)| + |trailing| ==> e == AcceptAll(EMPTY, before + later))
            && (|Encode(f)| > CAPACITY ==> Extract(e) != Some(f.payload))
  {
    var s := AcceptAll(EMPTY, before);
    var e := Accept(s, last);
    RunSound(EMPTY, before + [last] + later);
    if |Encode(f)| > CAPACITY { return; }
    ShortFrameCompletes(f, before, last, trailing);
    AcceptAllConcat(EMPTY, before + [last], later);
    AcceptAllConcat(EMPTY, before, [last]);
    AcceptAllConcat(EMPTY, before, later);
    assert AcceptAll(s, [last]) == AcceptAll(e, []);
    if e.complete {
      RunSound(e, later);
      var frame := Encode(f);
      assert frame[8..8 + |f.payload|] == f.payload;
      assert (frame + trailing)[8..8 + |f.payload|] == frame[8..8 + |f.payload|];
      assert frame[0] == f.head && frame[|frame| - 1] == TAIL;
      assert e.received[|e.received| - 1] == (if trailing == [] then TAIL else trailing[|trailing| - 1]);
    } else {
      RefusedOverrun(f, before, last, trailing);
    }
  }

  /** A last piece that overruns the buffer is refused. */
  lemma RefusedOverrun(f: Frame, before: seq<bytes>, last: bytes, trailing: bytes)
    requires Delivers(f, before, last, trailing) && |Encode(f)| <= CAPACITY < |Encode(f)| + |trailing|
    ensures Accept(AcceptAll(EMPTY, before), last) == AcceptAll(EMPTY, before)
  {
    DeliveryPrefix(f, before, last, trailing);
    PartialFrame(f, before);
  }

  lemma WholeFrame(f: Frame, fragments: seq<bytes>)
    requires WellFormed(f) && |f.payload| <= 245 && Flatten(fragments) == Encode(f)
    ensures AcceptAll(EMPTY, fragments) == Progress(Encode(f), |Encode(f)|, true)
  {
    var k := LastNonEmpty(fragments);
    var before, last, later := fragments[..k], fragments[k], fragments[k + 1..];
    assert fragments == before + [last] + later;
    assert Encode(f) + [] == Encode(f);
    ShortFrameCompletes(f, before, last, []);
    AcceptAllConcat(EMPTY, before + [last], later);
    AcceptAllConcat(EMPTY, before, [last]);
    var e := Accept(AcceptAll(EMPTY, before), last);
    assert AcceptAll(AcceptAll(EMPTY, before), [last]) == AcceptAll(e, []);
    RunSound(e, later);
  }

  /** Every way of cutting a frame of at most 256 octets ends in one and the same state,
      whose payload is the frame's, and completes exactly when the last octet arrives. */
  lemma FragmentationIndependent(f: Frame, fragments: seq<bytes>, n: nat)
    requires WellFormed(f) && |f.payload| <= 245 && Flatten(fragments) == Encode(f)
    requires n <= |fragments|
    ensures AcceptAll(EMPTY, fragments) == Progress(Encode(f), |Encode(f)|, true)
    ensures Extract(AcceptAll(EMPTY, fragments)) == Some(f.payload)
    ensures AcceptAll(EMPTY, fragments[..n]).complete <==> |Flatten(fragments[..n])| == |Encode(f)|
  {
    WholeFrame(f, fragments);
    RunSound(EMPTY, fragments);
    var frame := Encode(f);
    assert frame[8..8 + |f.payload|] == f.payload;
    FlattenConcat(fragments[..n], fragments[n..]);
    assert fragments[..n] + fragments[n..] == fragments;
    if |Flatten(fragments[..n])| < |frame| {
      PartialFrame(f, fragments[..n]);
    } else {
      assert Flatten(fragments[..n]) == frame;
      WholeFrame(f, fragments[..n]);
    }
  }

  lemma {:induction false} LastNonEmpty(fragments: seq<bytes>) returns (k: nat)
    requires Flatten(fragments) != []
    ensures k < |fragments|
    ensures |Flatten(fragments[..k])| < |Flatten(fragments)|
    ensures Flatten(fragments[..k]) + fragments[k] == Flatten(fragments)
  {
    var n := |fragments| - 1;
    assert fragments == fragments[..n] + [fragments[n]];
    FlattenConcat(fragments[..n], [fragments[n]]);
    if fragments[n] == [] {
      k := LastNonEmpty(fragments[..n]);
      assert fragments[..n][..k] == fragments[..k];
    } else {
      k := n;
    }
  }

  // ----- On the wire -----

  /** What is offered after a run of notifications. */
  function Offered(fragments: seq<bytes>): Option<bytes> {
    RunSound(EMPTY, fragments);
    Extract(AcceptAll(EMPTY, fragments))
  }

  /** What is offered, octet by octet: a frame with one of the two heads whose last octet received
      is 0x0d, complete by the length its octets 6 and 7 announce or by a full buffer of 256. */
  lemma OfferedExactly(fragments: seq<bytes>)
    ensures var e := AcceptAll(EMPTY, fragments);
            && var d := e.received;
               var length: int := if |d| < 8 then 0 else d[6] as int * 256 + d[7] as int + 11;
               && |d| <= 256
               && (Offered(fragments).Some? <==> |d| >= 8 && |d| >= Min(length, 256)
                                                 && (d[0] == 0x7e || d[0] == 0x1e) && d[|d| - 1] == 0x0d)
               && (Offered(fragments).Some? ==> Offered(fragments).value == d[8..Min(length, 256) - 3])
  {
    RunSound(EMPTY, fragments);
    hide AcceptAll;
  }

  /** A first notification is kept exactly when it has at most 256 octets. */
  lemma FirstKept(data: bytes)
    ensures Accept(EMPTY, data).received == if |data| <= 256 then data else []
  {
    assert [] + data == data;
  }

  /** A frame of two payload octets in two notifications, and the same with another tail. */
  lemma SmallFrame()
    ensures var first: bytes := [0x7e, 0x00, 0x01, 0x03, 0x00, 0x8c, 0x00, 0x02, 0xaa];
            && !AcceptAll(EMPTY, [first]).complete
            && Offered([first, [0xbb, 0x12, 0x34, 0x0d]]) == Some([0xaa, 0xbb])
            && AcceptAll(EMPTY, [first, [0xbb, 0x12, 0x34, 0x0a]]).complete
            && Offered([first, [0xbb, 0x12, 0x34, 0x0a]]) == None
  {
    var first: bytes := [0x7e, 0x00, 0x01, 0x03, 0x00, 0x8c, 0x00, 0x02, 0xaa];
    assert [] + first == first;
    var s := Accept(EMPTY, first);
    assert s == Progress(first, 13, false);
    AcceptedOne(EMPTY, first);
    SmallEnd(s, 0x0d);
    SmallEnd(s, 0x0a);
  }

  lemma AcceptedOne(s: Progress, data: bytes)
    ensures AcceptAll(s, [data]) == Accept(s, data)
    ensures forall more: bytes :: AcceptAll(s, [data, more]) == Accept(Accept(s, data), more)
  {
    assert [data][1..] == [];
    forall more: bytes ensures AcceptAll(s, [data, more]) == Accept(Accept(s, data), more) {
      assert [data, more][1..] == [more] && [more][1..] == [];
      assert AcceptAll(Accept(s, data), [more]) == Accept(Accept(s, data), more);
    }
  }

  lemma SmallEnd(s: Progress, tail: byte)
    requires s == Progress([0x7e, 0x00, 0x01, 0x03, 0x00, 0x8c, 0x00, 0x02, 0xaa], 13, false)
    ensures var e := Accept(s, [0xbb, 0x12, 0x34, tail]);
            && e.complete && Sound(e) && (Extract(e) == if tail == 0x0d then Some([0xaa, 0xbb]) else None)
  {
    var e := Accept(s, [0xbb, 0x12, 0x34, tail]);
    assert e.received
           == [0x7e, 0x00, 0x01, 0x03, 0x00, 0x8c, 0x00, 0x02, 0xaa, 0xbb, 0x12, 0x34, tail];
    assert e.received[8..10] == [0xaa, 0xbb];
  }
}

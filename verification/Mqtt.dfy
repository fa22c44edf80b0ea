/** MQTT 3.1.1 framing: the remaining-length field (section 2.2.3), the packet writer, the
    packet reader over a socket that delivers in chunks, and the PUBLISH body
    (section 3.3). */
module Mqtt {
  import opened Prelude

  // ----- Remaining length -----

  function Varint(length: nat): (out: bytes)
    ensures out != []
  {
    if length / 128 == 0 then [length % 128] else [length % 128 + 128] + Varint(length / 128)
  }

  /** The encoder of the publisher: low seven bits first, top bit set while more follow. */
  method WriteVarint(length: nat) returns (out: bytes)
    ensures out == Varint(length)
  {
    out := [];
    var rest := length;
    while true
      invariant out + Varint(rest) == Varint(length)
      decreases rest
    {
      var digit := rest % 128;
      var before := rest;
      rest := rest / 128;
      if rest != 0 { digit := digit + 128; }
      assert out + Varint(before) == (out + [digit]) + (if rest != 0 then Varint(rest) else []);
      out := out + [digit];
      if rest == 0 { return; }
    }
  }

  /** A complete field: continuation bits on all octets but the last. */
  ghost predicate IsField(f: bytes) {
    f != [] && f[|f| - 1] < 128 && forall i :: 0 <= i < |f| - 1 ==> f[i] >= 128
  }

  /** The number a field stands for. */
  function FieldValue(f: bytes): nat {
    if f == [] then 0 else f[0] % 128 + 128 * FieldValue(f[1..])
  }

  lemma FieldGrows(digit: byte, rest: bytes)
    requires digit >= 128 && IsField(rest)
    ensures IsField([digit] + rest) && FieldValue([digit] + rest) == digit % 128 + 128 * FieldValue(rest)
  {
    var f := [digit] + rest;
    assert f[1..] == rest;
    assert forall i :: 0 < i < |f| ==> f[i] == rest[i - 1];
  }

  lemma {:induction false} VarintDecodes(length: nat)
    ensures IsField(Varint(length)) && FieldValue(Varint(length)) == length
  {
    if length / 128 == 0 {
      assert Varint(length)[1..] == [];
    } else {
      VarintDecodes(length / 128);
      hide IsField, FieldValue;
      FieldGrows(length % 128 + 128, Varint(length / 128));
    }
  }

  function Power128(n: nat): nat {
    if n == 0 then 1 else 128 * Power128(n - 1)
  }

  /** A field of n octets holds the numbers below 128 to the n, and the written one is as
      short as that allows. */
  lemma {:induction false} FieldRange(f: bytes)
    ensures FieldValue(f) < Power128(|f|)
  {
    if f != [] { FieldRange(f[1..]); }
  }

  lemma {:induction false} VarintLength(length: nat, n: nat)
    requires n > 0
    ensures |Varint(length)| <= n <==> length < Power128(n)
    decreases n
  {
    if n == 1 {
      assert Power128(1) == 128 * Power128(0);
      if length / 128 != 0 { assert |Varint(length / 128)| >= 1; }
    } else {
      var p := Power128(n - 1);
      if length / 128 == 0 {
        PowerAtLeast(n);
      } else {
        VarintLength(length / 128, n - 1);
        DivideBelow(length, p);
      }
    }
  }

  lemma DivideBelow(a: nat, p: nat)
    ensures a / 128 < p <==> a < 128 * p
  {}

  lemma {:induction false} PowerAtLeast(n: nat)
    requires n > 0
    ensures Power128(n) >= 128
  {
    if n > 1 { PowerAtLeast(n - 1); }
  }

  /** No field for the same number is shorter than the one written. */
  lemma VarintMinimal(f: bytes)
    requires IsField(f)
    ensures |Varint(FieldValue(f))| <= |f|
  {
    FieldRange(f);
    VarintLength(FieldValue(f), |f|);
  }

  /** The standard's limit of four octets is kept exactly up to its limit of 268435455. */
  lemma FourOctets(length: nat)
    ensures |Varint(length)| <= 4 <==> length <= 268435455
  {
    VarintLength(length, 4);
    assert Power128(4) == 128 * (128 * (128 * (128 * 1))) by {
      assert Power128(1) == 128 && Power128(2) == 16384 && Power128(3) == 2097152;
    }
  }

  /** No field begins another. */
  lemma VarintPrefixFree(a: nat, b: nat)
    requires Varint(a) <= Varint(b)
    ensures a == b
  {
    VarintDecodes(a);
    VarintDecodes(b);
    var va, vb := Varint(a), Varint(b);
    var last := va[|va| - 1];
    assert vb[|va| - 1] == last && last < 128;
    assert |va| == |vb|;
    assert va == vb;
  }

  // ----- Packets on a stream -----

  function Packet(header: byte, body: bytes): bytes {
    [header] + Varint(|body|) + body
  }

  /** A stream whose bytes arrive in pieces: `recv` yields at least one and at most the
      octets asked for, as `piece` has it, and nothing once the stream has ended. */
  class Socket {
    const stream: bytes
    const piece: nat -> nat
    var pos: nat
    var calls: nat

    constructor (stream: bytes, piece: nat -> nat)
      ensures this.stream == stream && this.piece == piece && pos == 0 && calls == 0
    {
      this.stream, this.piece, pos, calls := stream, piece, 0, 0;
    }

    ghost predicate Valid()
      reads this
    {
      pos <= |stream|
    }

    ghost function Left(): bytes
      requires Valid()
      reads this
    {
      stream[pos..]
    }

    method Recv(n: nat) returns (chunk: bytes)
      requires Valid() && n > 0
      modifies this
      ensures Valid() && |chunk| <= n && chunk + Left() == old(Left())
      ensures chunk == [] <==> old(Left()) == []
    {
      var most := Min(n, |stream| - pos);
      var take := if piece(calls) == 0 then Min(1, most) else Min(piece(calls), most);
      chunk := stream[pos..pos + take];
      pos := pos + take;
      calls := calls + 1;
    }
  }

  /** The field at the head of a stream, its value and what follows; none if the stream
      ends first. */
  function ReadField(s: bytes): Option<(nat, bytes)> {
    if s == [] then None
    else if s[0] < 128 then Some((s[0] as nat, s[1..]))
    else match ReadField(s[1..])
      case None => None
      case Some((v, rest)) => Some((s[0] % 128 + 128 * v, rest))
  }

  /** What reading one packet yields and leaves. A stream that ends inside the field yields
      nothing; one that ends inside the body yields what there is. */
  function ReadOne(s: bytes): (bytes, bytes) {
    if s == [] then ([], [])
    else match ReadField(s[1..])
      case None => ([], [])
      case Some((length, rest)) =>
        var n := Min(length, |rest|);
        ([s[0]] + rest[..n], rest[n..])
  }

  /** The same with the running total of the digits before. */
  function ReadDigits(s: bytes, length: nat, scale: nat): Option<(nat, bytes)> {
    if s == [] then None
    else
      var length' := length + (s[0] as nat) % 128 * scale;
      if s[0] < 128 then Some((length', s[1..])) else ReadDigits(s[1..], length', scale * 128)
  }

  lemma Accumulate(length: nat, scale: nat, low: nat, v: nat)
    ensures (length + low * scale) + scale * 128 * v == length + scale * (low + 128 * v)
  {}

  lemma {:induction false} DigitsAreField(s: bytes, length: nat, scale: nat)
    ensures ReadDigits(s, length, scale) == match ReadField(s)
                                            case None => None
                                            case Some((v, rest)) => Some((length + scale * v, rest))
  {
    if s != [] {
      var low := (s[0] as nat) % 128;
      if s[0] >= 128 {
        var next := ReadField(s[1..]);
        DigitsAreField(s[1..], length + low * scale, scale * 128);
        if next.Some? { Accumulate(length, scale, low, next.value.0); }
      }
    }
  }

  /** The field of a packet, digit by digit. */
  method ReadLength(sock: Socket) returns (ok: bool, length: nat)
    requires sock.Valid()
    modifies sock
    ensures sock.Valid()
    ensures ok <==> ReadField(old(sock.Left())).Some?
    ensures ok ==> (length, sock.Left()) == ReadField(old(sock.Left())).value
    ensures !ok ==> sock.Left() == []
  {
    DigitsAreField(sock.Left(), 0, 1);
    length := 0;
    var scale: nat := 1;
    while true
      invariant sock.Valid()
      invariant ReadDigits(sock.Left(), length, scale) == ReadDigits(old(sock.Left()), 0, 1)
      decreases |sock.Left()|
    {
      ghost var s := sock.Left();
      var digit := sock.Recv(1);
      if digit == [] { return false, length; }
      assert s[0] == digit[0] && s[1..] == sock.Left();
      var value: nat := digit[0];
      length := length + value % 128 * scale;
      if value < 128 { return true, length; }
      scale := scale * 128;
    }
  }

  /** The body of a packet, chunk by chunk. */
  method ReadBody(sock: Socket, length: nat) returns (body: bytes)
    requires sock.Valid()
    modifies sock
    ensures sock.Valid() && body + sock.Left() == old(sock.Left())
    ensures |body| == Min(length, |old(sock.Left())|)
  {
    body := [];
    while |body| < length
      invariant sock.Valid() && |body| <= length && body + sock.Left() == old(sock.Left())
    {
      var chunk := sock.Recv(length - |body|);
      if chunk == [] { break; }
      body := body + chunk;
    }
  }

  method ReadPacket(sock: Socket) returns (packet: bytes)
    requires sock.Valid()
    modifies sock
    ensures sock.Valid() && (packet, sock.Left()) == ReadOne(old(sock.Left()))
  {
    ghost var before := sock.Left();
    var head := sock.Recv(1);
    if head == [] { return []; }
    assert before[0] == head[0] && before[1..] == sock.Left();
    var ok, length := ReadLength(sock);
    if !ok { return []; }
    ghost var rest := sock.Left();
    assert ReadField(before[1..]) == Some((length, rest));
    var body := ReadBody(sock, length);
    assert body == rest[..|body|] && sock.Left() == rest[|body|..];
    packet := head + body;
    assert head == [before[0]];
  }

  // ----- What the reader makes of what the writer wrote -----

  lemma {:induction false} FieldReadsBack(length: nat, rest: bytes)
    ensures ReadField(Varint(length) + rest) == Some((length, rest))
  {
    var s := Varint(length) + rest;
    if length / 128 == 0 {
      assert s[1..] == rest;
    } else {
      FieldReadsBack(length / 128, rest);
      assert s[1..] == Varint(length / 128) + rest;
    }
  }

  /** One packet at the head of a stream is read back whole, its length field removed. */
  lemma PacketReadsBack(header: byte, body: bytes, rest: bytes)
    ensures ReadOne(Packet(header, body) + rest) == ([header] + body, rest)
  {
    var s := Packet(header, body) + rest;
    assert s[1..] == Varint(|body|) + (body + rest);
    FieldReadsBack(|body|, body + rest);
    assert (body + rest)[..|body|] == body && (body + rest)[|body|..] == rest;
  }

  /** A stream that ends inside a body gives the packet so far. */
  lemma CutInBody(header: byte, length: nat, part: bytes)
    requires |part| < length
    ensures ReadOne([header] + Varint(length) + part) == ([header] + part, [])
  {
    var s := [header] + Varint(length) + part;
    assert s[1..] == Varint(length) + part;
    FieldReadsBack(length, part);
    assert part[..|part|] == part && part[|part|..] == [] && [s[0]] + part == [header] + part;
  }

  /** One that ends inside the length gives nothing, and nothing is left. */
  lemma {:induction false} CutInLength(digits: bytes)
    requires forall i :: 0 <= i < |digits| ==> digits[i] >= 128
    ensures ReadField(digits) == None
    ensures forall header: byte :: ReadOne([header] + digits) == ([], [])
  {
    if digits != [] { CutInLength(digits[1..]); }
    forall header: byte ensures ReadOne([header] + digits) == ([], []) {
      assert ([header] + digits)[1..] == digits;
    }
  }

  function Packets(ps: seq<(byte, bytes)>): bytes {
    if ps == [] then [] else Packet(ps[0].0, ps[0].1) + Packets(ps[1..])
  }

  /** Reading as many packets as were written returns them in order and consumes exactly
      their octets, however the socket cuts the stream. */
  method ReadAll(sock: Socket, ghost ps: seq<(byte, bytes)>, n: nat, ghost rest: bytes) returns (out: seq<bytes>)
    requires sock.Valid() && sock.Left() == Packets(ps) + rest && n == |ps|
    modifies sock
    ensures sock.Valid() && sock.Left() == rest
    ensures |out| == |ps| && forall i :: 0 <= i < |ps| ==> out[i] == [ps[i].0] + ps[i].1
  {
    out := [];
    assert ps[0..] == ps;
    for i := 0 to n
      invariant sock.Valid() && sock.Left() == Packets(ps[i..]) + rest
      invariant |out| == i && forall j :: 0 <= j < i ==> out[j] == [ps[j].0] + ps[j].1
    {
      ghost var tail := Packets(ps[i + 1..]) + rest;
      assert ps[i..][1..] == ps[i + 1..];
      assert Packets(ps[i..]) + rest == Packet(ps[i].0, ps[i].1) + tail;
      PacketReadsBack(ps[i].0, ps[i].1, tail);
      var packet := ReadPacket(sock);
      out := out + [packet];
    }
  }

  // ----- PUBLISH -----

  const PUBLISH_RETAIN: byte := 0x31

  /** The body the publisher writes: a two-octet topic length of which the first is always
      zero. A longer topic cannot be written. */
  function PublishBody(topic: bytes, payload: bytes): Option<bytes> {
    if |topic| < 256 then Some([0, |topic| as byte] + topic + payload) else None
  }

  /** A broker's reading of a PUBLISH body at quality of service 0. */
  function ParsePublish(body: bytes): Option<(bytes, bytes)> {
    if |body| < 2 || |body| < 2 + Be16(body[0], body[1]) then None
    else var n := Be16(body[0], body[1]); Some((body[2..2 + n], body[2 + n..]))
  }

  /** Exactly the topics of at most 255 octets can be published, and what is published is
      received: topic and payload, through any chunking. */
  lemma PublishReceived(topic: bytes, payload: bytes, rest: bytes)
    ensures PublishBody(topic, payload).Some? <==> |topic| <= 255
    ensures PublishBody(topic, payload).Some? ==>
              var (packet, left) := ReadOne(Packet(PUBLISH_RETAIN, PublishBody(topic, payload).value) + rest);
              packet != [] && left == rest && ParsePublish(packet[1..]) == Some((topic, payload))
  {
    if |topic| < 256 {
      var body := PublishBody(topic, payload).value;
      PacketReadsBack(PUBLISH_RETAIN, body, rest);
      assert ([PUBLISH_RETAIN] + body)[1..] == body;
      assert body[2..2 + |topic|] == topic && body[2 + |topic|..] == payload;
    }
  }

  /** The standard's own examples (section 2.2.3): 64 and 321; and the largest numbers of one, two,
      three and four octets. */
  lemma StandardExamples()
    ensures Varint(64) == [64] && Varint(321) == [193, 2]
    ensures Varint(127) == [0x7f] && Varint(128) == [0x80, 0x01] && Varint(16383) == [0xff, 0x7f]
    ensures Varint(16384) == [0x80, 0x80, 0x01] && Varint(2097151) == [0xff, 0xff, 0x7f]
    ensures Varint(2097152) == [0x80, 0x80, 0x80, 0x01] && Varint(268435455) == [0xff, 0xff, 0xff, 0x7f]
  {
    assert Varint(2) == [2] && Varint(1) == [1] && Varint(127) == [127];
    assert Varint(128) == [128, 1] && Varint(16383) == [255, 127] && Varint(16384) == [128, 128, 1];
    assert Varint(2097151) == [255, 255, 127];
  }

  /** A retained PUBLISH of "1" under the topic "a/b": 0x31, the length of the body, the topic behind
      its own length, the payload. */
  lemma SmallPublish()
    ensures PublishBody([97, 47, 98], [49]) == Some([0, 3, 97, 47, 98, 49])
    ensures Packet(PUBLISH_RETAIN, [0, 3, 97, 47, 98, 49]) == [0x31, 6, 0, 3, 97, 47, 98, 49]
  {
    assert Varint(6) == [6];
    assert [0, 3] + [97, 47, 98] + [49] == [0, 3, 97, 47, 98, 49];
  }
}

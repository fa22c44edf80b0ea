/** The analog payload of a pack: parsing with a moving cursor, against a decoder that
    reads every field at its absolute offset, and an encoder it inverts.

    Readings are whole numbers in the unit of their last wire digit: millivolts for
    cells, tenths of a degree for temperatures, tenths of an ampere for the current,
    hundredths of a volt for the voltage, tenths of an ampere-hour for capacities. */
module AnalogPayload {
  import opened Prelude
  import TdtFrames

  datatype Reading = Reading(
    cells: seq<int>, mos: int, pcb: int, cellTemps: seq<int>,
    current: int, voltage: int, remaining: int, total: int,
    cycles: int, design: int, soc: int, soh: Option<int>)

  const KELVIN := 2730
  const FIXED := 14
  const SOH_ROOM := 18

  function Word(p: bytes, o: nat): int
    requires o + 2 <= |p|
  {
    Be16(p[o], p[o + 1])
  }

  /** Sign in bit 7 of the first octet, a tenths flag in bit 6, fourteen bits of size. */
  function Current(hi: byte, lo: byte): int {
    var negative := hi / 128 % 2 == 1;
    var tenths := hi / 64 % 2 == 1;
    var raw := lo + hi % 64 * 256;
    var value := if tenths then raw else raw * 10;
    if negative then -value else value
  }

  /** Cell temperatures the parser takes when a payload announces `temps` temperatures. */
  function CellTempsTaken(temps: int): (taken: nat)
    ensures taken <= 6
  {
    Min(Max(temps - 2, 0), 6)
  }

  predicate Accepts(p: bytes) {
    && |p| >= 2
    && 1 <= p[0] <= 16
    && |p| >= 2 + 2 * p[0]
    && |p| >= 20 + 2 * p[0] + 2 * CellTempsTaken(p[1 + 2 * p[0]])
  }

  function Words(p: bytes, o: nat, n: nat): (ws: seq<int>)
    requires o + 2 * n <= |p|
    ensures |ws| == n && forall i :: 0 <= i < n ==> ws[i] == Word(p, o + 2 * i)
  {
    seq(n, i requires 0 <= i < n => Word(p, o + 2 * i))
  }

  function Temps(p: bytes, o: nat, n: nat): (ts: seq<int>)
    requires o + 2 * n <= |p|
    ensures |ts| == n && forall i :: 0 <= i < n ==> ts[i] == Word(p, o + 2 * i) - KELVIN
  {
    seq(n, i requires 0 <= i < n => Word(p, o + 2 * i) - KELVIN)
  }

  function Decode(p: bytes): Reading
    requires Accepts(p)
  {
    var n := p[0];
    var c := CellTempsTaken(p[1 + 2 * n]);
    var f := 6 + 2 * n + 2 * c;
    Reading(
      Words(p, 1, n), Word(p, 2 + 2 * n) - KELVIN, Word(p, 4 + 2 * n) - KELVIN, Temps(p, 6 + 2 * n, c),
      Current(p[f], p[f + 1]), Word(p, f + 2), Word(p, f + 4), Word(p, f + 6),
      Word(p, f + 8), Word(p, f + 10), Word(p, f + 12),
      if |p| >= f + FIXED + SOH_ROOM then Some(Word(p, f + FIXED)) else None)
  }

  class BatteryData {
    var current: int
    var voltage: int
    var soc: int
    var soh: int
    var hasSoh: bool
    var remainingAh: int
    var totalAh: int
    var designAh: int
    var cycles: int
    const cellV: array<int>
    var nCells: int
    var mosTemp: int
    var pcbTemp: int
    const cellTemp: array<int>
    var nCellTemps: int

    constructor ()
      ensures Sized() && fresh(cellV) && fresh(cellTemp) && !hasSoh
    {
      cellV, cellTemp := new int[16], new int[6];
      nCells, nCellTemps, hasSoh := 0, 0, false;
      current, voltage, soc, soh, mosTemp, pcbTemp := 0, 0, 0, 0, 0, 0;
      remainingAh, totalAh, designAh, cycles := 0, 0, 0, 0;
    }

    ghost predicate Sized() {
      cellV.Length == 16 && cellTemp.Length == 6 && cellV != cellTemp
    }

    ghost function Shown(): Reading
      requires Sized() && 0 <= nCells <= 16 && 0 <= nCellTemps <= 6
      reads this, cellV, cellTemp
    {
      Reading(cellV[..nCells], mosTemp, pcbTemp, cellTemp[..nCellTemps],
              current, voltage, remainingAh, totalAh, cycles, designAh, soc,
              if hasSoh then Some(soh) else None)
    }

    /** A payload too short for a state of health leaves the one shown before. */
    static function Kept(r: Reading, hadSoh: bool, soh: int): Reading {
      if r.soh.None? && hadSoh then r.(soh := Some(soh)) else r
    }

    /** Parses the first `n` octets of `p`. The parse depends on those octets alone; a
        rejected payload leaves every field after the temperatures as it was. */
    method ParseAnalog(p: array<byte>, n: nat) returns (ok: bool)
      requires Sized() && n <= p.Length && p != cellV as object && p != cellTemp as object
      modifies this, cellV, cellTemp
      ensures ok <==> Accepts(p[..n])
      ensures ok ==> 0 <= nCells <= 16 && 0 <= nCellTemps <= 6
      ensures ok ==> Shown() == Kept(Decode(p[..n]), old(hasSoh), old(soh))
      ensures !ok ==> unchanged(`current, `voltage, `remainingAh, `totalAh, `cycles, `designAh, `soc, `hasSoh, `soh)
      ensures !(n >= 2 && 1 <= p[0] <= 16) ==> nCells == old(nCells)
    {
      hide Current, Word, Words, Temps, CellTempsTaken;
      var o: nat;
      ok, o := ParseCells(p, n);
      if !ok { return false; }
      ok, o := ParseTemps(p, n, o);
      if !ok { return false; }
      ok := ParseFixed(p, n, o);
    }

    method ParseCells(p: array<byte>, n: nat) returns (ok: bool, o: nat)
      requires Sized() && n <= p.Length && p != cellV as object
      modifies `nCells, cellV
      ensures ok <==> n >= 2 && 1 <= p[0] <= 16 && n >= 1 + 2 * p[0]
      ensures ok ==> nCells == p[0] && o == 1 + 2 * nCells && cellV[..nCells] == Words(p[..n], 1, nCells)
      ensures !(n >= 2 && 1 <= p[0] <= 16) ==> nCells == old(nCells)
    {
      o := 0;
      if n < 2 { return false, o; }
      var cells: int := p[o];
      o := o + 1;
      if cells < 1 || cells > 16 { return false, o; }
      nCells := cells;
      for i := 0 to cells
        invariant o == 1 + 2 * i <= n
        invariant forall j :: 0 <= j < i ==> cellV[j] == Word(p[..n], 1 + 2 * j)
        modifies cellV
      {
        if o + 2 > n { return false, o; }
        cellV[i] := Be16(p[o], p[o + 1]);
        o := o + 2;
      }
      return true, o;
    }

    method ParseTemps(p: array<byte>, n: nat, start: nat) returns (ok: bool, o: nat)
      requires Sized() && n <= p.Length && start <= n && p != cellTemp as object
      modifies `mosTemp, `pcbTemp, `nCellTemps, cellTemp
      ensures ok <==> start < n && n >= start + 5 + 2 * CellTempsTaken(p[start])
      ensures ok ==> nCellTemps == CellTempsTaken(p[start]) && o == start + 5 + 2 * nCellTemps
      ensures ok ==> mosTemp == Word(p[..n], start + 1) - KELVIN && pcbTemp == Word(p[..n], start + 3) - KELVIN
      ensures ok ==> cellTemp[..nCellTemps] == Temps(p[..n], start + 5, nCellTemps)
    {
      o := start;
      if o + 1 > n { return false, o; }
      var temps: int := p[o];
      o := o + 1;
      if o + 4 > n { return false, o; }
      mosTemp := Be16(p[o], p[o + 1]) - KELVIN;
      o := o + 2;
      pcbTemp := Be16(p[o], p[o + 1]) - KELVIN;
      o := o + 2;
      nCellTemps := 0;
      var i := 0;
      while i < temps - 2 && i < 6
        invariant 0 <= i <= CellTempsTaken(temps) && nCellTemps == i
        invariant o == start + 5 + 2 * i <= n
        invariant forall j :: 0 <= j < i ==> cellTemp[j] == Word(p[..n], start + 5 + 2 * j) - KELVIN
        modifies cellTemp, `nCellTemps
      {
        if o + 2 > n { return false, o; }
        cellTemp[nCellTemps] := Be16(p[o], p[o + 1]) - KELVIN;
        nCellTemps := nCellTemps + 1;
        o := o + 2;
        i := i + 1;
      }
      return true, o;
    }

    method ParseFixed(p: array<byte>, n: nat, start: nat) returns (ok: bool)
      requires n <= p.Length && start <= n
      modifies `current, `voltage, `remainingAh, `totalAh, `cycles, `designAh, `soc, `soh, `hasSoh
      ensures ok <==> n >= start + FIXED
      ensures ok ==> current == Current(p[start], p[start + 1]) && voltage == Word(p[..n], start + 2)
      ensures ok ==> remainingAh == Word(p[..n], start + 4) && totalAh == Word(p[..n], start + 6)
      ensures ok ==> cycles == Word(p[..n], start + 8) && designAh == Word(p[..n], start + 10)
      ensures ok ==> soc == Word(p[..n], start + 12)
      ensures var more := n >= start + FIXED + SOH_ROOM;
              && hasSoh == (more || old(hasSoh))
              && soh == if more then Word(p[..n], start + FIXED) else old(soh)
      ensures !ok ==> unchanged(this)
    {
      hide Current;
      var o := start;
      if o + 14 > n { return false; }
      current := Current(p[o], p[o + 1]);
      o := o + 2;
      voltage := Be16(p[o], p[o + 1]);
      o := o + 2;
      remainingAh := Be16(p[o], p[o + 1]);
      o := o + 2;
      totalAh := Be16(p[o], p[o + 1]);
      o := o + 2;
      cycles := Be16(p[o], p[o + 1]);
      o := o + 2;
      designAh := Be16(p[o], p[o + 1]);
      o := o + 2;
      soc := Be16(p[o], p[o + 1]);
      o := o + 2;
      if n - o >= 18 {
        hasSoh := true;
        soh := Be16(p[o], p[o + 1]);
      }
      return true;
    }
  }

  // ----- The current word -----

  predicate Representable(current: int) {
    -16383 <= current <= 16383 || (-163830 <= current <= 163830 && current % 10 == 0)
  }

  function SignOctet(negative: bool, tenths: bool, high: nat): (hi: byte)
    requires high < 64
    ensures hi / 128 % 2 == (if negative then 1 else 0)
    ensures hi / 64 % 2 == (if tenths then 1 else 0) && hi % 64 == high
  {
    (if negative then 128 else 0) + (if tenths then 64 else 0) + high
  }

  function Signed(negative: bool, size: int): int { if negative then -size else size }

  lemma CurrentOf(negative: bool, tenths: bool, raw: nat)
    requires raw < 16384
    ensures Current(SignOctet(negative, tenths, raw / 256), raw % 256)
            == Signed(negative, if tenths then raw else raw * 10)
  {
    hide SignOctet;
    var hi := SignOctet(negative, tenths, raw / 256);
    var high: int := hi % 64;
    assert raw % 256 + high * 256 == raw;
  }

  /** The finer form when the size fits fourteen bits, else whole amperes. */
  function EncodeCurrent(current: int): (w: (byte, byte))
    requires Representable(current)
    ensures Current(w.0, w.1) == current
  {
    hide Current, SignOctet;
    var raw := Size(current);
    CurrentOf(current < 0, Fine(current), raw);
    (SignOctet(current < 0, Fine(current), raw / 256), raw % 256)
  }

  predicate Fine(current: int) { -16383 <= current <= 16383 }

  function Size(current: int): (raw: nat)
    requires Representable(current)
    ensures raw < 16384
    ensures current == Signed(current < 0, if Fine(current) then raw else raw * 10)
  {
    var size := if current < 0 then -current else current;
    if Fine(current) then size else size / 10
  }

  /** The currents some word stands for are exactly the representable ones. */
  lemma CurrentsOnWire(current: int)
    ensures Representable(current) <==> exists hi: byte, lo: byte :: Current(hi, lo) == current
  {
    if Representable(current) {
      var w := EncodeCurrent(current);
      assert Current(w.0, w.1) == current;
    }
    forall hi: byte, lo: byte | Current(hi, lo) == current
      ensures Representable(current)
    {
      var raw := lo + hi % 64 * 256;
      assert 0 <= raw <= 16383;
    }
  }

  // ----- Field by field encoding -----

  /** A payload as the packs lay it out: every temperature is written, the two board
      temperatures first; what follows the fixed fields is kept as raw octets. */
  datatype Payload = Payload(
    cells: seq<int>, temps: seq<int>, current: int, voltage: int, remaining: int,
    total: int, cycles: int, design: int, soc: int, tail: bytes)

  predicate IsWord(v: int) { 0 <= v < 65536 }

  predicate AreWords(vs: seq<int>, offset: int) {
    forall i :: 0 <= i < |vs| ==> IsWord(vs[i] + offset)
  }

  predicate Encodable(x: Payload) {
    && 1 <= |x.cells| <= 16 && |x.temps| <= 255
    && AreWords(x.cells, 0) && AreWords(x.temps, KELVIN)
    && Representable(x.current) && IsWord(x.voltage) && IsWord(x.remaining) && IsWord(x.total)
    && IsWord(x.cycles) && IsWord(x.design) && IsWord(x.soc)
  }

  function W(v: int): (w: bytes)
    requires IsWord(v)
    ensures |w| == 2 && Word(w, 0) == v
  {
    [v / 256, v % 256]
  }

  function WriteWords(vs: seq<int>, offset: int): (w: bytes)
    requires AreWords(vs, offset)
    ensures |w| == 2 * |vs|
    ensures forall i :: 0 <= i < |vs| ==> Word(w, 2 * i) == vs[i] + offset
  {
    if vs == [] then [] else
      var rest := WriteWords(vs[1..], offset);
      var w := W(vs[0] + offset) + rest;
      assert forall i :: 1 <= i < |vs| ==> Word(w, 2 * i) == Word(rest, 2 * (i - 1));
      w
  }

  function Fixed(x: Payload): (w: bytes)
    requires Encodable(x)
    ensures |w| == FIXED
  {
    var c := EncodeCurrent(x.current);
    [c.0, c.1] + WriteWords([x.voltage, x.remaining, x.total, x.cycles, x.design, x.soc], 0)
  }

  function Encode(x: Payload): (p: bytes)
    requires Encodable(x)
    ensures |p| == 2 + 2 * |x.cells| + 2 * |x.temps| + FIXED + |x.tail|
  {
    [|x.cells| as byte] + WriteWords(x.cells, 0) + [|x.temps| as byte] + WriteWords(x.temps, KELVIN)
    + Fixed(x) + x.tail
  }

  /** What a decoder ought to give back. */
  function Meant(x: Payload): Reading
    requires |x.temps| >= 2
  {
    Reading(x.cells, x.temps[0], x.temps[1], x.temps[2..], x.current, x.voltage, x.remaining,
            x.total, x.cycles, x.design, x.soc,
            if |x.tail| >= SOH_ROOM then Some(Word(x.tail, 0)) else None)
  }

  /** Where everything is in an encoded payload. */
  lemma Layout(x: Payload)
    requires Encodable(x)
    ensures var p, n, t := Encode(x), |x.cells|, |x.temps|;
            && p[0] == n && p[1 + 2 * n] == t
            && (forall i :: 0 <= i < n ==> Word(p, 1 + 2 * i) == x.cells[i])
            && (forall i :: 0 <= i < t ==> Word(p, 2 + 2 * n + 2 * i) == x.temps[i] + KELVIN)
            && p[2 + 2 * n + 2 * t..2 + 2 * n + 2 * t + FIXED] == Fixed(x)
            && p[2 + 2 * n + 2 * t + FIXED..] == x.tail
  {
    var p, n, t := Encode(x), |x.cells|, |x.temps|;
    var cells, temps := WriteWords(x.cells, 0), WriteWords(x.temps, KELVIN);
    assert p[1..1 + 2 * n] == cells;
    assert p[2 + 2 * n..2 + 2 * n + 2 * t] == temps;
    forall i | 0 <= i < n
      ensures Word(p, 1 + 2 * i) == x.cells[i]
    {
      assert Word(p, 1 + 2 * i) == Word(p[1..1 + 2 * n], 2 * i);
    }
    forall i | 0 <= i < t
      ensures Word(p, 2 + 2 * n + 2 * i) == x.temps[i] + KELVIN
    {
      assert Word(p, 2 + 2 * n + 2 * i) == Word(p[2 + 2 * n..2 + 2 * n + 2 * t], 2 * i);
    }
  }

  lemma FixedWords(x: Payload)
    requires Encodable(x)
    ensures var w := Fixed(x);
            && Word(w, 2) == x.voltage && Word(w, 4) == x.remaining && Word(w, 6) == x.total
            && Word(w, 8) == x.cycles && Word(w, 10) == x.design && Word(w, 12) == x.soc
  {
    hide Current, EncodeCurrent;
    var w, vs := Fixed(x), [x.voltage, x.remaining, x.total, x.cycles, x.design, x.soc];
    forall i | 0 <= i < 6
      ensures Word(w, 2 + 2 * i) == vs[i]
    {
      assert Word(w, 2 + 2 * i) == Word(WriteWords(vs, 0), 2 * i);
    }
    assert Word(w, 2 + 2 * 0) == vs[0] && Word(w, 2 + 2 * 1) == vs[1] && Word(w, 2 + 2 * 2) == vs[2];
    assert Word(w, 2 + 2 * 3) == vs[3] && Word(w, 2 + 2 * 4) == vs[4] && Word(w, 2 + 2 * 5) == vs[5];
  }

  lemma FixedAt(x: Payload, p: bytes, f: nat)
    requires Encodable(x) && f + FIXED <= |p| && p[f..f + FIXED] == Fixed(x)
    ensures Current(p[f], p[f + 1]) == x.current && Word(p, f + 2) == x.voltage
    ensures Word(p, f + 4) == x.remaining && Word(p, f + 6) == x.total
    ensures Word(p, f + 8) == x.cycles && Word(p, f + 10) == x.design && Word(p, f + 12) == x.soc
  {
    var w := Fixed(x);
    forall i | 0 <= i < FIXED
      ensures p[f..][i] == w[i]
    {
      assert p[f + i] == p[f..f + FIXED][i];
    }
    forall i | 0 <= i < FIXED - 1
      ensures Word(p, f + i) == Word(w, i)
    {
      assert p[f..][i] == w[i] && p[f..][i + 1] == w[i + 1];
    }
    assert p[f..][0] == p[f] && p[f..][1] == p[f + 1];
    assert w[0] == EncodeCurrent(x.current).0 && w[1] == EncodeCurrent(x.current).1;
    FixedWords(x);
  }

  lemma TempsAt(x: Payload, c: nat)
    requires Encodable(x) && c + 2 <= |x.temps|
    ensures var p, n := Encode(x), |x.cells|;
            && Word(p, 2 + 2 * n) == x.temps[0] + KELVIN && Word(p, 4 + 2 * n) == x.temps[1] + KELVIN
            && Temps(p, 6 + 2 * n, c) == x.temps[2..2 + c]
  {
    Layout(x);
    var p, n := Encode(x), |x.cells|;
    assert Word(p, 2 + 2 * n + 2 * 0) == x.temps[0] + KELVIN;
    assert Word(p, 2 + 2 * n + 2 * 1) == x.temps[1] + KELVIN;
    var ts := Temps(p, 6 + 2 * n, c);
    forall i | 0 <= i < c
      ensures ts[i] == x.temps[2 + i]
    {
      assert Word(p, 6 + 2 * n + 2 * i) == Word(p, 2 + 2 * n + 2 * (i + 2));
    }
  }

  lemma CellsAt(x: Payload)
    requires Encodable(x)
    ensures var p, n := Encode(x), |x.cells|;
            p[0] == n && p[1 + 2 * n] == |x.temps| && Words(p, 1, n) == x.cells
  {
    hide Encode, Word, Fixed;
    Layout(x);
  }

  lemma TailAt(x: Payload, o: nat)
    requires Encodable(x) && o + 2 <= |x.tail|
    ensures Word(Encode(x), 2 + 2 * |x.cells| + 2 * |x.temps| + FIXED + o) == Word(x.tail, o)
  {
    Layout(x);
    var f := 2 + 2 * |x.cells| + 2 * |x.temps| + FIXED;
    var p := Encode(x);
    assert p[f + o] == p[f..][o] && p[f + o + 1] == p[f..][o + 1];
  }

  /** The parser inverts the encoder for two to eight temperatures. */
  lemma DecodesEncoded(x: Payload)
    requires Encodable(x) && 2 <= |x.temps| <= 8
    ensures Accepts(Encode(x)) && Decode(Encode(x)) == Meant(x)
  {
    hide Fixed, Current, Encode, EncodeCurrent, WriteWords, Word, Words, Temps, AreWords, Representable;
    var p, n, t := Encode(x), |x.cells|, |x.temps|;
    var f := 2 + 2 * n + 2 * t;
    CellsAt(x);
    TempsAt(x, t - 2);
    assert x.temps[2..2 + (t - 2)] == x.temps[2..];
    Layout(x);
    FixedAt(x, p, f);
    if |x.tail| >= SOH_ROOM { TailAt(x, 0); }
    assert CellTempsTaken(t) == t - 2 && f == 6 + 2 * n + 2 * (t - 2);
  }

  // ----- Where the parser and the layout part -----

  /** Every field of the payload that the reading has a place for comes back; surplus cell
      temperatures have none. */
  predicate Faithful(x: Payload)
    requires Encodable(x)
  {
    && Accepts(Encode(x))
    && var d, t := Decode(Encode(x)), |x.temps|;
       && d.cells == x.cells && (t >= 1 ==> d.mos == x.temps[0]) && (t >= 2 ==> d.pcb == x.temps[1])
       && (if t >= 2 then d.cellTemps <= x.temps[2..] else d.cellTemps == [])
       && d.current == x.current && d.voltage == x.voltage && d.remaining == x.remaining && d.total == x.total
       && d.cycles == x.cycles && d.design == x.design && d.soc == x.soc
       && d.soh == if |x.tail| >= SOH_ROOM then Some(Word(x.tail, 0)) else None
  }

  lemma CurrentOctetsAt(x: Payload, p: bytes, f: nat)
    requires Encodable(x) && f + FIXED <= |p| && p[f..f + FIXED] == Fixed(x)
    ensures p[f] == EncodeCurrent(x.current).0 && p[f + 1] == EncodeCurrent(x.current).1
  {
    hide EncodeCurrent, WriteWords;
    var w := Fixed(x);
    assert p[f] == p[f..f + FIXED][0] == w[0] && p[f + 1] == p[f..f + FIXED][1] == w[1];
  }

  lemma WordOctets(p: bytes, o: nat, v: int)
    requires o + 2 <= |p| && IsWord(v) && Word(p, o) == v
    ensures p[o] == W(v)[0] && p[o + 1] == W(v)[1]
  {
    SameOctets(p[o], p[o + 1], W(v)[0], W(v)[1]);
  }

  /** The fixed fields of an encoded payload, behind all of its temperatures. */
  lemma FieldsAt(x: Payload)
    requires Encodable(x)
    ensures var p, f := Encode(x), 2 + 2 * |x.cells| + 2 * |x.temps|;
            && |p| == f + FIXED + |x.tail|
            && p[f] == EncodeCurrent(x.current).0 && p[f + 1] == EncodeCurrent(x.current).1
            && Word(p, f + 2) == x.voltage && Word(p, f + 4) == x.remaining && Word(p, f + 6) == x.total
            && Word(p, f + 8) == x.cycles && Word(p, f + 10) == x.design && Word(p, f + 12) == x.soc
  {
    hide Fixed, Current, Encode, EncodeCurrent;
    Layout(x);
    var f := 2 + 2 * |x.cells| + 2 * |x.temps|;
    FixedAt(x, Encode(x), f);
    CurrentOctetsAt(x, Encode(x), f);
  }

  lemma FirstTemp(x: Payload)
    requires Encodable(x) && x.temps != []
    ensures Word(Encode(x), 2 + 2 * |x.cells|) == x.temps[0] + KELVIN
  {
    hide Encode, Word, Fixed;
    Layout(x);
    assert Word(Encode(x), 2 + 2 * |x.cells| + 2 * 0) == x.temps[0] + KELVIN;
  }

  /** With one temperature the parser still takes two: the current word for the second, and
      from there every field for the one before it. */
  lemma OneTemperature(x: Payload)
    requires Encodable(x) && |x.temps| == 1
    ensures Accepts(Encode(x)) <==> |x.tail| >= 2
    ensures Accepts(Encode(x)) ==>
              var c, w := EncodeCurrent(x.current), W(x.voltage);
              Decode(Encode(x))
              == Reading(x.cells, x.temps[0], Be16(c.0, c.1) - KELVIN, [], Current(w[0], w[1]), x.remaining, x.total,
                         x.cycles, x.design, x.soc, Word(x.tail, 0),
                         if |x.tail| >= 20 then Some(Word(x.tail, 2)) else None)
  {
    var p, n := Encode(x), |x.cells|;
    var f := 4 + 2 * n;
    hide Fixed, Current, Encode, EncodeCurrent, WriteWords, W, Word, Words, Temps, AreWords, Representable;
    CellsAt(x);
    FirstTemp(x);
    FieldsAt(x);
    WordOctets(p, f + 2, x.voltage);
    if |x.tail| >= 2 { TailAt(x, 0); }
    if |x.tail| >= 20 { TailAt(x, 2); }
  }

  /** With none it takes the current word and the voltage for temperatures. */
  lemma NoTemperature(x: Payload)
    requires Encodable(x) && |x.temps| == 0
    ensures Accepts(Encode(x)) <==> |x.tail| >= 4
    ensures Accepts(Encode(x)) ==>
              var c, w := EncodeCurrent(x.current), W(x.remaining);
              Decode(Encode(x))
              == Reading(x.cells, Be16(c.0, c.1) - KELVIN, x.voltage - KELVIN, [], Current(w[0], w[1]), x.total,
                         x.cycles, x.design, x.soc, Word(x.tail, 0), Word(x.tail, 2),
                         if |x.tail| >= 22 then Some(Word(x.tail, 4)) else None)
  {
    var p, n := Encode(x), |x.cells|;
    var f := 2 + 2 * n;
    hide Fixed, Current, Encode, EncodeCurrent, WriteWords, W, Word, Words, Temps, AreWords, Representable;
    CellsAt(x);
    FieldsAt(x);
    WordOctets(p, f + 4, x.remaining);
    if |x.tail| >= 4 {
      TailAt(x, 0);
      TailAt(x, 2);
      assert Accepts(p) && CellTempsTaken(p[1 + 2 * n]) == 0;
    }
    if |x.tail| >= 22 { TailAt(x, 4); }
    assert Words(p, 1, n) == x.cells;
  }

  /** With nine or more temperatures the ninth is taken for the current: the parser does
      not step over the temperatures it has no room for. */
  lemma SurplusReadAsCurrent(x: Payload)
    requires Encodable(x) && |x.temps| > 8
    ensures Accepts(Encode(x))
    ensures var w := W(x.temps[8] + KELVIN); Decode(Encode(x)).current == Current(w[0], w[1])
    ensures Decode(Encode(x)).cellTemps == x.temps[2..8]
  {
    var p, n := Encode(x), |x.cells|;
    Layout(x);
    assert CellTempsTaken(|x.temps|) == 6;
    var w := W(x.temps[8] + KELVIN);
    assert Word(p, 2 + 2 * n + 2 * 8) == Word(w, 0);
    SameOctets(p[18 + 2 * n], p[19 + 2 * n], w[0], w[1]);
    TempsAt(x, 6);
  }

  lemma SameOctets(a: byte, b: byte, c: byte, d: byte)
    requires Be16(a, b) == Be16(c, d)
    ensures a == c && b == d
  {}

  /** A pack at rest, with a short tail. */
  function Idle(t: nat): (x: Payload)
    requires t <= 255
    ensures Encodable(x) && |x.temps| == t && x.current == 0 && |x.tail| == 4
  {
    Payload([0], seq(t, _ => 0), 0, 1, 1, 0, 0, 0, 0, [0, 0, 0, 0])
  }

  /** Outside 2 to 8 it is accepted and its current misread. */
  lemma IdleMisread(t: nat)
    requires t <= 255 && !(2 <= t <= 8)
    ensures Accepts(Encode(Idle(t)))
    ensures Decode(Encode(Idle(t))).current == if t > 8 then 27300 else 10
  {
    var x := Idle(t);
    hide Encode, Decode, Accepts, Encodable;
    assert Current(10, 170) == 27300 && Current(0, 1) == 10;
    var w, one := W(2730), W(1);
    assert w[0] == 10 && w[1] == 170 && one[0] == 0 && one[1] == 1;
    if t > 8 {
      SurplusReadAsCurrent(x);
      assert x.temps[8] == 0;
    } else if t == 1 {
      OneTemperature(x);
      assert x.voltage == 1;
    } else {
      NoTemperature(x);
      assert x.remaining == 1;
    }
  }

  /** A count of temperatures is safe for every payload exactly when it is 2 to 8. */
  lemma FaithfulExactly(t: nat)
    requires t <= 255
    ensures (forall x :: Encodable(x) && |x.temps| == t ==> Faithful(x)) <==> 2 <= t <= 8
  {
    hide Encode, Decode, Accepts, Idle, Encodable;
    if 2 <= t <= 8 {
      forall x | Encodable(x) && |x.temps| == t
        ensures Faithful(x)
      {
        DecodesEncoded(x);
      }
    } else {
      IdleMisread(t);
      assert !Faithful(Idle(t));
    }
  }

  // ----- From the air to the reading -----

  /** A reading that is encoded, framed, cut into any notifications and reassembled is
      parsed back, whatever the routing octets and the CRC octets of the frame say. */
  lemma DeliveredReading(x: Payload, f: TdtFrames.Frame, fragments: seq<bytes>)
    requires Encodable(x) && 2 <= |x.temps| <= 8 && |Encode(x)| <= 245
    requires TdtFrames.WellFormed(f) && f.payload == Encode(x)
    requires TdtFrames.Flatten(fragments) == TdtFrames.Encode(f)
    ensures var held := TdtFrames.AcceptAll(TdtFrames.EMPTY, fragments);
            && TdtFrames.Sound(held) && TdtFrames.Extract(held).Some?
            && var p := TdtFrames.Extract(held).value;
               Accepts(p) && Decode(p) == Meant(x)
  {
    assert TdtFrames.Sound(TdtFrames.EMPTY);
    hide *;
    TdtFrames.RunSound(TdtFrames.EMPTY, fragments);
    TdtFrames.FragmentationIndependent(f, fragments, 0);
    DecodesEncoded(x);
  }

  // ----- A payload worked through -----

  /** The current word: the first octet has the sign at 128, the tenths flag at 64 and the high
      bits of the size, which is in whole amperes without the flag. */
  lemma CurrentInOctets(hi: byte, lo: byte)
    ensures var size := if hi % 128 >= 64 then hi as int % 64 * 256 + lo as int
                        else 10 * (hi as int % 64 * 256 + lo as int);
            Current(hi, lo) == if hi >= 128 then -size else size
  {}

  /** The state of health is read exactly when eighteen octets follow the fixed fields. */
  lemma HealthRead(p: bytes)
    requires Accepts(p)
    ensures Decode(p).soh.Some? <==> |p| >= 38 + 2 * p[0] as int + 2 * |Decode(p).cellTemps|
    ensures |Decode(p).cellTemps| == Min(Max(p[1 + 2 * p[0] as int] as int - 2, 0), 6)
  {
    hide Current, Word;
  }

  /** Two cells, four temperatures, 10.0 A drawn, and a state of health. */
  const CELLS: bytes := [0x02, 0x0c, 0xfc, 0x0d, 0x01]
  const DEGREES: bytes := [0x04, 0x0b, 0xa5, 0x0b, 0x9b, 0x0b, 0x91, 0x0a, 0xa0]
  const FIGURES: bytes := [0xc0, 0x64, 0x14, 0xc8, 0x01, 0xf4, 0x03, 0xe8, 0x00, 0x2a, 0x03, 0xf2, 0x00, 0x32]
  const HEALTH: bytes := [0x00, 0x63, 0, 0, 0, 0, 0, 0, 0, 0, 0, 0, 0, 0, 0, 0, 0, 0]

  const SAMPLE: bytes := CELLS + DEGREES + FIGURES + HEALTH

  lemma PartsOfSample()
    ensures |SAMPLE| == 46 && SAMPLE[..5] == CELLS && SAMPLE[5..14] == DEGREES
    ensures SAMPLE[14..28] == FIGURES && SAMPLE[28..] == HEALTH
  {}

  lemma WordInPart(p: bytes, from: nat, to: nat, o: nat)
    requires from <= to <= |p| && o + 2 <= to - from
    ensures Word(p, from + o) == Word(p[from..to], o)
  {}

  lemma SampleWords()
    ensures |SAMPLE| == 46 && SAMPLE[0] == 2 && SAMPLE[5] == 4
    ensures Word(SAMPLE, 1) == 3324 && Word(SAMPLE, 3) == 3329
    ensures Word(SAMPLE, 6) == 2981 && Word(SAMPLE, 8) == 2971 && Word(SAMPLE, 10) == 2961 && Word(SAMPLE, 12) == 2720
    ensures SAMPLE[14] == 0xc0 && SAMPLE[15] == 0x64 && Word(SAMPLE, 16) == 5320 && Word(SAMPLE, 18) == 500
    ensures Word(SAMPLE, 20) == 1000 && Word(SAMPLE, 22) == 42 && Word(SAMPLE, 24) == 1010 && Word(SAMPLE, 26) == 50
    ensures Word(SAMPLE, 28) == 99
  {
    PartsOfSample();
    PartWords();
    hide SAMPLE, Word;
    assert SAMPLE[0] == SAMPLE[..5][0] && SAMPLE[5] == SAMPLE[5..14][0];
    assert SAMPLE[14] == SAMPLE[14..28][0] && SAMPLE[15] == SAMPLE[14..28][1];
    forall o: nat | o <= 3 ensures Word(SAMPLE, 0 + o) == Word(SAMPLE[0..5], o) { WordInPart(SAMPLE, 0, 5, o); }
    forall o: nat | o <= 7 ensures Word(SAMPLE, 5 + o) == Word(SAMPLE[5..14], o) { WordInPart(SAMPLE, 5, 14, o); }
    forall o: nat | o <= 12 ensures Word(SAMPLE, 14 + o) == Word(SAMPLE[14..28], o) { WordInPart(SAMPLE, 14, 28, o); }
    WordInPart(SAMPLE, 28, 46, 0);
    assert SAMPLE[0..5] == SAMPLE[..5] && SAMPLE[28..46] == SAMPLE[28..];
  }

  lemma PartWords()
    ensures CELLS[0] == 2 && DEGREES[0] == 4 && FIGURES[0] == 0xc0 && FIGURES[1] == 0x64
    ensures Word(CELLS, 1) == 3324 && Word(CELLS, 3) == 3329
    ensures Word(DEGREES, 1) == 2981 && Word(DEGREES, 3) == 2971 && Word(DEGREES, 5) == 2961 && Word(DEGREES, 7) == 2720
    ensures Word(FIGURES, 2) == 5320 && Word(FIGURES, 4) == 500 && Word(FIGURES, 6) == 1000 && Word(FIGURES, 8) == 42
    ensures Word(FIGURES, 10) == 1010 && Word(FIGURES, 12) == 50 && Word(HEALTH, 0) == 99
  {}

  /** Read as 3.324 and 3.329 V in the cells, 25.1, 24.1, 23.1 and -1.0 degrees, -10.0 A, 53.20 V,
      50.0 of 100.0 Ah, 42 cycles, a design of 101.0 Ah, 50 % charge and 99 % health. */
  lemma SampleReads()
    ensures Accepts(SAMPLE)
    ensures Decode(SAMPLE) == Reading([3324, 3329], 251, 241, [231, -10], -100, 5320, 500, 1000, 42, 1010, 50, Some(99))
  {
    SampleWords();
    assert Current(0xc0, 0x64) == -100;
    assert CellTempsTaken(4) == 2;
    hide Word, Current, SAMPLE;
    assert Words(SAMPLE, 1, 2) == [3324, 3329];
    assert Temps(SAMPLE, 10, 2) == [231, -10];
  }
}

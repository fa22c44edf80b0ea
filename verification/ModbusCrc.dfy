/** The CRC of the pack protocol (CRC-16/MODBUS: section 6.2.2 of MODBUS over
    Serial Line V1.02) and the read request that carries it.

    The proofs treat the word operations below as an algebra: the laws of Xor, Half
    and Shift are proved once on sixteen-bit words, and the inductions over messages
    hide the words and use only those laws. */
module ModbusCrc {
  const PRESET: bv16 := 0xffff
  const FRAME_TAIL: bv8 := 0x0d

  // ----- Words -----

  function Xor(a: bv16, b: bv16): bv16 { a ^ b }
  function Half(a: bv16): bv16 { a >> 1 }
  predicate Odd(a: bv16) { a & 1 == 1 }
  function Bit(b: bool): bv16 { if b then 1 else 0 }

  /** One step of the register: divide by x, reducing modulo the reflected polynomial. */
  function Shift(crc: bv16): bv16 {
    if Odd(crc) then Xor(Half(crc), 0xa001) else Half(crc)
  }

  function Shifts(crc: bv16, n: nat): bv16
    decreases n
  {
    if n == 0 then crc else Shifts(Shift(crc), n - 1)
  }

  /** One message octet: exclusive-or into the low half, then eight shifts. */
  function Absorb(crc: bv16, b: bv8): bv16 {
    Shifts(Xor(crc, b as bv16), 8)
  }

  function CrcFrom(crc: bv16, message: seq<bv8>): bv16
    decreases |message|
  {
    if message == [] then crc else CrcFrom(Absorb(crc, message[0]), message[1..])
  }

  function Crc(message: seq<bv8>): bv16 {
    CrcFrom(PRESET, message)
  }

  lemma ShiftCode(crc: bv16)
    ensures Shift(crc) == if crc & 1 == 1 then (crc >> 1) ^ 0xa001 else crc >> 1
  {}

  lemma ShiftsStep(crc: bv16, n: nat)
    ensures Shifts(crc, n) == if n == 0 then crc else Shifts(Shift(crc), n - 1)
  {}

  lemma AbsorbCode(crc: bv16, b: bv8)
    ensures Absorb(crc, b) == Shifts(crc ^ (b as bv16), 8)
  {}

  /** The loops of the firmware compute that fold. */
  method ModbusCrc(buf: array<bv8>, n: nat) returns (crc: bv16)
    requires n <= buf.Length
    ensures crc == Crc(buf[..n])
  {
    hide Shift, Shifts, Absorb, Xor;
    crc := 0xffff;
    for i := 0 to n
      invariant CrcFrom(crc, buf[i..n]) == Crc(buf[..n])
    {
      AbsorbCode(crc, buf[i]);
      crc := crc ^ (buf[i] as bv16);
      ghost var mixed := crc;
      for b := 0 to 8
        invariant Shifts(crc, 8 - b) == Shifts(mixed, 8)
      {
        ShiftsStep(crc, 8 - b);
        ShiftCode(crc);
        crc := if crc & 1 == 1 then (crc >> 1) ^ 0xa001 else crc >> 1;
      }
      ShiftsStep(crc, 0);
      assert buf[i..n][1..] == buf[i + 1..n];
    }
  }

  // ----- The laws of words -----

  lemma XorUnit(a: bv16)
    ensures Xor(a, 0) == a && Xor(0, a) == a && Xor(a, a) == 0
  {}

  lemma XorAssociative(a: bv16, b: bv16, c: bv16)
    ensures Xor(Xor(a, b), c) == Xor(a, Xor(b, c))
  {}

  lemma XorCommutes(a: bv16, b: bv16)
    ensures Xor(a, b) == Xor(b, a)
  {}

  lemma XorShuffle(a: bv16, b: bv16, c: bv16, d: bv16)
    ensures Xor(Xor(a, b), Xor(c, d)) == Xor(Xor(a, c), Xor(b, d))
  {
    hide Xor;
    XorAssociative(a, b, Xor(c, d));
    XorAssociative(b, c, d);
    XorCommutes(b, c);
    XorAssociative(c, b, d);
    XorAssociative(a, c, Xor(b, d));
  }

  function Masked(crc: bv16): bv16 {
    (crc >> 1) ^ (0xa001 * (crc & 1))
  }

  function Unshift(crc: bv16): bv16 {
    ((crc ^ (0xa001 * (crc >> 15))) << 1) | (crc >> 15)
  }

  lemma OddMasked(a: bv16)
    requires a & 1 == 1
    ensures Shift(a) == Masked(a)
  {
    assert 0xa001 * (a & 1) == 0xa001;
  }

  lemma EvenMasked(a: bv16)
    requires a & 1 == 0
    ensures Shift(a) == Masked(a)
  {
    assert 0xa001 * (a & 1) == 0;
  }

  lemma LowBit(a: bv16)
    ensures a & 1 == 0 || a & 1 == 1
  {}

  lemma ShiftMasked(a: bv16)
    ensures Shift(a) == Masked(a)
  {
    LowBit(a);
    if a & 1 == 1 { OddMasked(a); } else { EvenMasked(a); }
  }

  lemma MaskedLinear(a: bv16, b: bv16)
    ensures Masked(Xor(a, b)) == Xor(Masked(a), Masked(b))
  {}

  lemma MaskedUnshift(a: bv16)
    ensures Masked(Unshift(a)) == a && Unshift(Masked(a)) == a
  {}

  /** Every register value has exactly one predecessor under a shift. */
  lemma ShiftBijective(a: bv16)
    ensures Shift(Unshift(a)) == a && Unshift(Shift(a)) == a
  {
    hide Shift, Masked, Unshift;
    ShiftMasked(a);
    ShiftMasked(Unshift(a));
    MaskedUnshift(a);
  }

  lemma ShiftLinear(a: bv16, b: bv16)
    ensures Shift(Xor(a, b)) == Xor(Shift(a), Shift(b))
  {
    hide Shift, Masked, Xor;
    ShiftMasked(a);
    ShiftMasked(b);
    ShiftMasked(Xor(a, b));
    MaskedLinear(a, b);
  }

  lemma EvenPart(w: bv16)
    ensures w == Xor(Bit(Odd(w)), w & 0xfffe) && Masked(w & 0xfffe) == Half(w)
  {
    LowBit(w);
    assert w == (w & 1) ^ (w & 0xfffe);
  }

  /** The lowest bit of an absorbed word acts at once; the rest moves down by one. */
  lemma PeelBit(crc: bv16, w: bv16)
    ensures Shift(Xor(crc, w)) == Xor(Shift(Xor(crc, Bit(Odd(w)))), Half(w))
  {
    hide Shift, Masked, Xor, Half, Odd, Bit;
    EvenPart(w);
    var low, rest := Bit(Odd(w)), w & 0xfffe;
    XorAssociative(crc, low, rest);
    ShiftLinear(Xor(crc, low), rest);
    ShiftMasked(rest);
  }

  // ----- Runs of shifts -----

  lemma {:induction false} ShiftsLinear(a: bv16, b: bv16, n: nat)
    ensures Shifts(Xor(a, b), n) == Xor(Shifts(a, n), Shifts(b, n))
    decreases n
  {
    hide Shift, Xor;
    if n > 0 {
      ShiftLinear(a, b);
      ShiftsLinear(Shift(a), Shift(b), n - 1);
    }
  }

  lemma {:induction false} ShiftsInjective(a: bv16, b: bv16, n: nat)
    requires Shifts(a, n) == Shifts(b, n)
    ensures a == b
    decreases n
  {
    hide Shift, Unshift;
    if n > 0 {
      ShiftsInjective(Shift(a), Shift(b), n - 1);
      ShiftBijective(a);
      ShiftBijective(b);
    }
  }

  lemma {:induction false} ShiftsZero(n: nat)
    ensures Shifts(0, n) == 0
    decreases n
  {
    if n > 0 { ShiftsZero(n - 1); }
  }

  lemma {:induction false} ShiftsAdd(a: bv16, m: nat, n: nat)
    ensures Shifts(Shifts(a, m), n) == Shifts(a, m + n)
    decreases m
  {
    hide Shift;
    if m > 0 { ShiftsAdd(Shift(a), m - 1, n); }
  }

  // ----- The same computation, one transmitted bit at a time -----

  function AbsorbBits(crc: bv16, bits: seq<bool>): bv16
    decreases |bits|
  {
    if bits == [] then crc else AbsorbBits(Shift(Xor(crc, Bit(bits[0]))), bits[1..])
  }

  /** The low `n` bits of a word, least significant first: the order on the wire. */
  function LowBits(w: bv16, n: nat): (bits: seq<bool>)
    ensures |bits| == n
    decreases n
  {
    if n == 0 then [] else [Odd(w)] + LowBits(Half(w), n - 1)
  }

  function Wire(message: seq<bv8>): (bits: seq<bool>)
    ensures |bits| == 8 * |message|
  {
    if message == [] then [] else LowBits(message[0] as bv16, 8) + Wire(message[1..])
  }

  function Halved(w: bv16, n: nat): bv16
    decreases n
  {
    if n == 0 then w else Halved(Half(w), n - 1)
  }

  lemma {:induction false} ShiftsAbsorbBits(crc: bv16, w: bv16, n: nat)
    ensures Shifts(Xor(crc, w), n) == Xor(AbsorbBits(crc, LowBits(w, n)), Halved(w, n))
    decreases n
  {
    hide Shift, Xor, Half, Odd, Bit;
    if n > 0 {
      var next := Shift(Xor(crc, Bit(Odd(w))));
      PeelBit(crc, w);
      ShiftsAbsorbBits(next, Half(w), n - 1);
      assert LowBits(w, n)[1..] == LowBits(Half(w), n - 1);
    }
  }

  lemma HalveTwice(w: bv16)
    ensures w <= 0xff ==> Half(Half(Half(Half(Half(Half(Half(Half(w)))))))) == 0
  {}

  lemma HalvedEight(w: bv16)
    ensures Halved(w, 8) == Half(Half(Half(Half(Half(Half(Half(Half(w))))))))
  {
    hide Half;
    assert Halved(w, 8) == Halved(Half(Half(Half(Half(w)))), 4);
  }

  lemma ByteHalvedAway(b: bv8)
    ensures Halved(b as bv16, 8) == 0
  {
    HalvedEight(b as bv16);
    HalveTwice(b as bv16);
  }

  lemma {:induction false} AbsorbBitsConcat(crc: bv16, a: seq<bool>, b: seq<bool>)
    ensures AbsorbBits(crc, a + b) == AbsorbBits(AbsorbBits(crc, a), b)
    decreases |a|
  {
    hide Shift, Xor, Bit;
    if a == [] {
      assert a + b == b;
    } else {
      AbsorbBitsConcat(Shift(Xor(crc, Bit(a[0]))), a[1..], b);
      assert (a + b)[1..] == a[1..] + b;
    }
  }

  /** The octet-wise CRC is the bit-serial CRC of the bits on the wire. */
  lemma {:induction false} CrcIsBitSerial(crc: bv16, message: seq<bv8>)
    ensures CrcFrom(crc, message) == AbsorbBits(crc, Wire(message))
    decreases |message|
  {
    hide Shift, Xor, Bit, Shifts, LowBits, Halved;
    if message != [] {
      var w := message[0] as bv16;
      ShiftsAbsorbBits(crc, w, 8);
      ByteHalvedAway(message[0]);
      XorUnit(AbsorbBits(crc, LowBits(w, 8)));
      AbsorbBitsConcat(crc, LowBits(w, 8), Wire(message[1..]));
      CrcIsBitSerial(Absorb(crc, message[0]), message[1..]);
    }
  }

  // ----- Differences between two messages -----

  function Difference(a: seq<bool>, b: seq<bool>): (d: seq<bool>)
    requires |a| == |b|
    ensures |d| == |a| && forall i :: 0 <= i < |d| ==> d[i] == (a[i] != b[i])
  {
    seq(|a|, i requires 0 <= i < |a| => a[i] != b[i])
  }

  lemma BitXor(a: bool, b: bool)
    ensures Xor(Bit(a), Bit(b)) == Bit(a != b)
  {}

  lemma AbsorbStep(c: bv16, a: seq<bool>)
    requires a != []
    ensures AbsorbBits(c, a) == AbsorbBits(Shift(Xor(c, Bit(a[0]))), a[1..])
  {}

  lemma DifferenceStep(a: seq<bool>, b: seq<bool>)
    requires |a| == |b| > 0
    ensures Difference(a, b)[0] == (a[0] != b[0])
    ensures Difference(a, b)[1..] == Difference(a[1..], b[1..])
  {}

  lemma {:induction false} AbsorbBitsLinear(c: bv16, d: bv16, a: seq<bool>, b: seq<bool>)
    requires |a| == |b|
    ensures Xor(AbsorbBits(c, a), AbsorbBits(d, b)) == AbsorbBits(Xor(c, d), Difference(a, b))
    decreases |a|
  {
    if a == [] {
      assert Difference(a, b) == [];
    } else {
      hide *;
      var c', d' := Xor(c, Bit(a[0])), Xor(d, Bit(b[0]));
      AbsorbStep(c, a);
      AbsorbStep(d, b);
      AbsorbStep(Xor(c, d), Difference(a, b));
      ShiftLinear(c', d');
      XorShuffle(c, Bit(a[0]), d, Bit(b[0]));
      BitXor(a[0], b[0]);
      AbsorbBitsLinear(Shift(c'), Shift(d'), a[1..], b[1..]);
      DifferenceStep(a, b);
    }
  }

  ghost predicate Quiet(bits: seq<bool>) {
    forall i :: 0 <= i < |bits| ==> !bits[i]
  }

  lemma {:induction false} QuietBitsShift(crc: bv16, bits: seq<bool>)
    requires Quiet(bits)
    ensures AbsorbBits(crc, bits) == Shifts(crc, |bits|)
    decreases |bits|
  {
    hide Shift, Xor;
    if bits != [] {
      assert !bits[0];
      XorUnit(crc);
      QuietBitsShift(Shift(crc), bits[1..]);
    }
  }

  // ----- At most sixteen bits fit in the register without loss -----

  function Push(p: bv16, b: bool): bv16 { if b then (p << 1) | 1 else p << 1 }

  function Pack(bits: seq<bool>): bv16 {
    if bits == [] then 0 else Push(Pack(bits[1..]), bits[0])
  }

  function Mask(n: nat): bv16 {
    if n == 0 then 0 else Push(Mask(n - 1), true)
  }

  predicate Within(a: bv16, m: bv16) { a & m == a }

  lemma DoubledOdd(p: bv16, m: bv16)
    ensures ((p << 1) | 1) & ((m << 1) | 1) == ((p & m) << 1) | 1
  {}

  lemma DoubledEven(p: bv16, m: bv16)
    ensures (p << 1) & ((m << 1) | 1) == (p & m) << 1
  {}

  lemma HalvedOdd(p: bv16)
    ensures ((p << 1) | 1) >> 1 == p & 0x7fff && ((p << 1) | 1) & 1 == 1
  {}

  lemma HalvedEven(p: bv16)
    ensures (p << 1) >> 1 == p & 0x7fff && (p << 1) & 1 == 0
  {}

  lemma PushPair(p: bv16, m: bv16, b: bool)
    ensures Push(p, b) & Push(m, true) == Push(p & m, b)
  {
    if b { DoubledOdd(p, m); } else { DoubledEven(p, m); }
  }

  lemma PushWithin(p: bv16, m: bv16, b: bool)
    requires Within(p, m)
    ensures Within(Push(p, b), Push(m, true))
  {
    hide Push;
    PushPair(p, m, b);
  }

  lemma WithinTransitive(a: bv16, b: bv16, c: bv16)
    ensures Within(a, b) && Within(b, c) ==> Within(a, c)
    ensures Within(0, a)
  {}

  lemma {:induction false} MaskGrows(n: nat)
    ensures Within(Mask(n), Mask(n + 1))
  {
    hide Push, Within;
    if n == 0 {
      WithinTransitive(Mask(1), 0, 0);
    } else {
      MaskGrows(n - 1);
      PushWithin(Mask(n - 1), Mask(n), true);
    }
  }

  lemma {:induction false} MaskWithinFifteen(n: nat)
    requires n <= 15
    ensures Within(Mask(n), 0x7fff)
    decreases 15 - n
  {
    if n == 15 {
      assert Mask(15) == 0x7fff;
    } else {
      hide Within, Push, Mask;
      MaskWithinFifteen(n + 1);
      MaskGrows(n);
      WithinTransitive(Mask(n), Mask(n + 1), 0x7fff);
    }
  }

  lemma {:induction false} PackFits(bits: seq<bool>)
    requires |bits| <= 16
    ensures Within(Pack(bits), Mask(|bits|))
  {
    hide Within, Push;
    if bits == [] {
      WithinTransitive(0, 0, 0);
    } else {
      PackFits(bits[1..]);
      PushWithin(Pack(bits[1..]), Mask(|bits| - 1), bits[0]);
    }
  }

  lemma PushPops(p: bv16, b: bool)
    requires Within(p, 0x7fff)
    ensures Half(Push(p, b)) == p && Odd(Push(p, b)) == b
  {
    if b { HalvedOdd(p); } else { HalvedEven(p); }
  }

  lemma {:induction false} PackUnpacks(bits: seq<bool>)
    requires |bits| <= 16
    ensures LowBits(Pack(bits), |bits|) == bits && Halved(Pack(bits), |bits|) == 0
  {
    hide Within, Push, Half, Odd, Mask;
    if bits != [] {
      var rest := bits[1..];
      PackFits(rest);
      MaskWithinFifteen(|rest|);
      WithinTransitive(Pack(rest), Mask(|rest|), 0x7fff);
      PushPops(Pack(rest), bits[0]);
      PackUnpacks(rest);
      assert bits == [bits[0]] + rest;
    }
  }

  lemma {:induction false} ZeroUnpacksQuiet(n: nat)
    ensures Quiet(LowBits(0, n))
  {
    if n > 0 { ZeroUnpacksQuiet(n - 1); }
  }

  /** A non-empty burst of at most sixteen bits leaves a trace in a clear register. */
  lemma BurstLeavesTrace(burst: seq<bool>)
    requires |burst| <= 16 && !Quiet(burst)
    ensures AbsorbBits(0, burst) != 0
  {
    hide Xor, Shift, Half, Odd, Bit, Pack, LowBits, AbsorbBits, Shifts;
    PackUnpacks(burst);
    ShiftsAbsorbBits(0, Pack(burst), |burst|);
    XorUnit(Pack(burst));
    XorUnit(AbsorbBits(0, burst));
    if AbsorbBits(0, burst) == 0 {
      ShiftsZero(|burst|);
      ShiftsInjective(Pack(burst), 0, |burst|);
      ZeroUnpacksQuiet(|burst|);
    }
  }

  // ----- What the CRC detects -----

  /** Two different bit strings that agree outside the sixteen positions from `k`. */
  ghost predicate DifferInBurst(a: seq<bool>, b: seq<bool>, k: nat) {
    |a| == |b| && a != b && k <= |a| &&
    forall i :: 0 <= i < |a| && !(k <= i < k + 16) ==> a[i] == b[i]
  }

  /** A difference confined to a burst survives to the end of the message. */
  lemma BurstSurvives(before: seq<bool>, burst: seq<bool>, after: seq<bool>)
    requires Quiet(before) && Quiet(after) && |burst| <= 16 && !Quiet(burst)
    ensures AbsorbBits(0, before + (burst + after)) != 0
  {
    hide Xor, Shift, AbsorbBits, Shifts;
    AbsorbBitsConcat(0, before, burst + after);
    QuietBitsShift(0, before);
    ShiftsZero(|before|);
    AbsorbBitsConcat(0, burst, after);
    BurstLeavesTrace(burst);
    QuietBitsShift(AbsorbBits(0, burst), after);
    ShiftsZero(|after|);
    if Shifts(AbsorbBits(0, burst), |after|) == 0 {
      ShiftsInjective(AbsorbBits(0, burst), 0, |after|);
    }
  }

  lemma DifferenceIsBurst(a: seq<bool>, b: seq<bool>, k: nat)
    requires DifferInBurst(a, b, k)
    ensures var d := Difference(a, b);
            var e := if k + 16 <= |d| then k + 16 else |d|;
            Quiet(d[..k]) && !Quiet(d[k..e]) && Quiet(d[e..])
  {
    var d := Difference(a, b);
    var e := if k + 16 <= |d| then k + 16 else |d|;
    forall i | e <= i < |d|
      ensures !d[i]
    {
      assert a[i] == b[i];
    }
    var i :| 0 <= i < |a| && a[i] != b[i];
    assert d[i] && k <= i < e;
    assert d[k..e][i - k] == d[i];
  }

  /** Every burst of up to sixteen corrupted bits changes the CRC, wherever it falls
      and whatever the length of the message. */
  lemma BurstDetected(crc: bv16, a: seq<bool>, b: seq<bool>, k: nat)
    requires DifferInBurst(a, b, k)
    ensures AbsorbBits(crc, a) != AbsorbBits(crc, b)
  {
    hide Xor, Shift, AbsorbBits;
    var d := Difference(a, b);
    DifferenceIsBurst(a, b, k);
    var e := if k + 16 <= |d| then k + 16 else |d|;
    assert d == d[..k] + (d[k..e] + d[e..]);
    BurstSurvives(d[..k], d[k..e], d[e..]);
    AbsorbBitsLinear(crc, crc, a, b);
    XorUnit(crc);
    XorUnit(AbsorbBits(crc, a));
  }

  // ----- An odd number of errors -----

  /** Whether an odd number of the low `n` bits of a word are set. */
  predicate OddOf(w: bv16, n: nat) {
    n > 0 && Odd(w) != OddOf(Half(w), n - 1)
  }

  predicate OddOnes(w: bv16) { OddOf(w, 16) }

  /** Whether an odd number of bits are set. */
  predicate OddCount(bits: seq<bool>) {
    bits != [] && (bits[0] != OddCount(bits[1..]))
  }

  lemma XorHalves(a: bv16, b: bv16)
    ensures Half(Xor(a, b)) == Xor(Half(a), Half(b))
  {}

  lemma XorLow(a: bv16, b: bv16)
    ensures (a ^ b) & 1 == (a & 1) ^ (b & 1)
  {}

  lemma OneOrNone(a: bv16)
    ensures a & 1 == 0 || a & 1 == 1
  {}

  lemma XorOdd(a: bv16, b: bv16)
    ensures Odd(Xor(a, b)) == (Odd(a) != Odd(b))
  {
    XorLow(a, b);
    OneOrNone(a);
    OneOrNone(b);
    if a & 1 == 0 {
      if b & 1 == 0 { assert (a ^ b) & 1 == 0; } else { assert (a ^ b) & 1 == 1; }
    } else {
      if b & 1 == 0 { assert (a ^ b) & 1 == 1; } else { assert (a ^ b) & 1 == 0; }
    }
  }

  lemma {:induction false} XorParity(a: bv16, b: bv16, n: nat)
    ensures OddOf(Xor(a, b), n) == (OddOf(a, n) != OddOf(b, n))
    decreases n
  {
    hide Xor, Odd, Half;
    if n > 0 {
      XorHalves(a, b);
      XorOdd(a, b);
      XorParity(Half(a), Half(b), n - 1);
    }
  }

  lemma {:induction false} TopBitParity(w: bv16, n: nat)
    ensures OddOf(w, n + 1) == (OddOf(w, n) != Odd(Halved(w, n)))
    decreases n
  {
    hide Odd, Half;
    if n > 0 { TopBitParity(Half(w), n - 1); }
  }

  lemma {:induction false} HalvedAdd(w: bv16, m: nat, n: nat)
    ensures Halved(w, m + n) == Halved(Halved(w, m), n)
    decreases m
  {
    hide Half;
    if m > 0 { HalvedAdd(Half(w), m - 1, n); }
  }

  lemma HalvesGone(w: bv16)
    ensures Half(Half(Half(Half(Half(Half(Half(Half(w)))))))) <= 0xff
  {}

  lemma HalvedAway(w: bv16)
    ensures Halved(w, 16) == 0
  {
    hide Half;
    HalvedEight(w);
    HalvesGone(w);
    HalvedAdd(w, 8, 8);
    HalvedEight(Halved(w, 8));
    HalveTwice(Halved(w, 8));
  }

  /** Halving drops one bit. */
  lemma HalfParity(w: bv16)
    ensures OddOnes(Half(w)) == (OddOnes(w) != Odd(w))
  {
    HalvedAway(w);
    TopBitParity(Half(w), 15);
    assert Halved(w, 16) == Halved(Half(w), 15);
    assert !Odd(0);
    hide OddOf, Half, Odd;
    OddOfStep(w, 15);
  }

  lemma OddOfStep(w: bv16, n: nat)
    ensures OddOf(w, n + 1) == (Odd(w) != OddOf(Half(w), n))
  {
    hide Odd, Half;
  }

  lemma PolynomialIsOdd()
    ensures OddOnes(0xa001)
  {
    assert Odd(0xa001) == true && Half(0xa001) == 0x5000;
    assert Odd(0x5000) == false && Half(0x5000) == 0x2800;
    assert Odd(0x2800) == false && Half(0x2800) == 0x1400;
    assert Odd(0x1400) == false && Half(0x1400) == 0x0a00;
    assert Odd(0x0a00) == false && Half(0x0a00) == 0x0500;
    assert Odd(0x0500) == false && Half(0x0500) == 0x0280;
    assert Odd(0x0280) == false && Half(0x0280) == 0x0140;
    assert Odd(0x0140) == false && Half(0x0140) == 0x00a0;
    assert Odd(0x00a0) == false && Half(0x00a0) == 0x0050;
    assert Odd(0x0050) == false && Half(0x0050) == 0x0028;
    assert Odd(0x0028) == false && Half(0x0028) == 0x0014;
    assert Odd(0x0014) == false && Half(0x0014) == 0x000a;
    assert Odd(0x000a) == false && Half(0x000a) == 0x0005;
    assert Odd(0x0005) == true && Half(0x0005) == 0x0002;
    assert Odd(0x0002) == false && Half(0x0002) == 0x0001;
    assert Odd(0x0001) == true && Half(0x0001) == 0x0000;
    hide Odd, Half;
    assert !OddOf(0, 0);
    OddOfStep(0x0001, 0);
    OddOfStep(0x0002, 1);
    OddOfStep(0x0005, 2);
    OddOfStep(0x000a, 3);
    OddOfStep(0x0014, 4);
    OddOfStep(0x0028, 5);
    OddOfStep(0x0050, 6);
    OddOfStep(0x00a0, 7);
    OddOfStep(0x0140, 8);
    OddOfStep(0x0280, 9);
    OddOfStep(0x0500, 10);
    OddOfStep(0x0a00, 11);
    OddOfStep(0x1400, 12);
    OddOfStep(0x2800, 13);
    OddOfStep(0x5000, 14);
    OddOfStep(0xa001, 15);
  }

  /** A step keeps the parity of the register: the polynomial has an even number of terms, of
      which the highest is not written. */
  lemma ShiftKeepsParity(crc: bv16)
    ensures OddOnes(Shift(crc)) == OddOnes(crc)
  {
    HalfParity(crc);
    PolynomialIsOdd();
    XorParity(Half(crc), 0xa001, 16);
    hide OddOf, Half, Odd, Xor;
  }

  lemma {:induction false} ZeroParity(n: nat)
    ensures !OddOf(0, n)
  {
    assert !Odd(0) && Half(0) == 0;
    hide Odd, Half;
    if n > 0 { ZeroParity(n - 1); }
  }

  lemma BitParity(b: bool)
    ensures OddOnes(Bit(b)) == b
  {
    assert Odd(Bit(b)) == b && Half(Bit(b)) == 0;
    hide Odd, Half;
    ZeroParity(15);
    OddOfStep(Bit(b), 15);
  }

  lemma BitTurnsParity(crc: bv16, b: bool)
    ensures OddOnes(Xor(crc, Bit(b))) == (OddOnes(crc) != b)
  {
    XorParity(crc, Bit(b), 16);
    BitParity(b);
    hide OddOf, Odd, Half, Xor;
  }

  lemma {:induction false} BitsTurnParity(crc: bv16, bits: seq<bool>)
    ensures OddOnes(AbsorbBits(crc, bits)) == (OddOnes(crc) != OddCount(bits))
    decreases |bits|
  {
    hide OddOnes, OddOf, Shift, Xor, Bit;
    if bits != [] {
      var mixed := Xor(crc, Bit(bits[0]));
      BitTurnsParity(crc, bits[0]);
      ShiftKeepsParity(mixed);
      BitsTurnParity(Shift(mixed), bits[1..]);
    }
  }

  lemma {:induction false} DifferenceCounts(a: seq<bool>, b: seq<bool>)
    requires |a| == |b|
    ensures OddCount(Difference(a, b)) == (OddCount(a) != OddCount(b))
    decreases |a|
  {
    var d := Difference(a, b);
    if a == [] { assert d == []; }
    else {
      DifferenceCounts(a[1..], b[1..]);
      assert d[1..] == Difference(a[1..], b[1..]);
    }
  }

  /** Every odd number of corrupted bits changes the CRC, wherever they are. */
  lemma OddErrorsDetected(crc: bv16, a: seq<bool>, b: seq<bool>)
    requires |a| == |b| && OddCount(Difference(a, b))
    ensures AbsorbBits(crc, a) != AbsorbBits(crc, b)
  {
    hide OddOnes, AbsorbBits, OddCount;
    DifferenceCounts(a, b);
    BitsTurnParity(crc, a);
    BitsTurnParity(crc, b);
  }

  /** So messages of one length that differ in an odd number of bits have different CRCs. */
  lemma OddErrorsInOctets(a: seq<bv8>, b: seq<bv8>)
    requires |a| == |b| && OddCount(Difference(Wire(a), Wire(b)))
    ensures Crc(a) != Crc(b)
  {
    hide AbsorbBits, CrcFrom, OddCount, Wire;
    CrcIsBitSerial(PRESET, a);
    CrcIsBitSerial(PRESET, b);
    OddErrorsDetected(PRESET, Wire(a), Wire(b));
  }

  lemma ByteBitsInjective(a: bv8, b: bv8)
    requires LowBits(a as bv16, 8) == LowBits(b as bv16, 8)
    ensures a == b
  {
    var v, w := a as bv16, b as bv16;
    assert v == w by {
      hide Xor, Shift, LowBits, AbsorbBits, Shifts;
      ShiftsAbsorbBits(0, v, 8);
      ShiftsAbsorbBits(0, w, 8);
      ByteHalvedAway(a);
      ByteHalvedAway(b);
      XorUnit(v);
      XorUnit(w);
      ShiftsInjective(v, w, 8);
    }
  }

  lemma WireStep(message: seq<bv8>)
    requires message != []
    ensures Wire(message) == LowBits(message[0] as bv16, 8) + Wire(message[1..])
  {}

  lemma {:induction false} WireAt(message: seq<bv8>, i: nat)
    requires i < |message|
    ensures Wire(message)[8 * i..8 * i + 8] == LowBits(message[i] as bv16, 8)
  {
    hide *;
    WireStep(message);
    var first, rest := LowBits(message[0] as bv16, 8), Wire(message[1..]);
    if i > 0 {
      WireAt(message[1..], i - 1);
      assert message[1..][i - 1] == message[i];
      SliceSecond(first, rest, 8 * (i - 1));
    } else {
      assert (first + rest)[0..8] == first;
    }
  }

  lemma SliceSecond(a: seq<bool>, b: seq<bool>, lo: nat)
    requires |a| == 8 && lo + 8 <= |b|
    ensures (a + b)[lo + 8..lo + 16] == b[lo..lo + 8]
  {}

  lemma WireDiffersNear(a: seq<bv8>, b: seq<bv8>, k: nat)
    requires |a| == |b| && a != b && k <= |a|
    requires forall i :: 0 <= i < |a| && i != k && i != k + 1 ==> a[i] == b[i]
    ensures DifferInBurst(Wire(a), Wire(b), 8 * k)
  {
    hide LowBits, Wire;
    var wa, wb := Wire(a), Wire(b);
    forall i | 0 <= i < |wa| && !(8 * k <= i < 8 * k + 16)
      ensures wa[i] == wb[i]
    {
      var j := i / 8;
      WireAt(a, j);
      WireAt(b, j);
      assert wa[i] == wa[8 * j..8 * j + 8][i - 8 * j];
      assert wb[i] == wb[8 * j..8 * j + 8][i - 8 * j];
    }
    var j :| 0 <= j < |a| && a[j] != b[j];
    if wa == wb {
      WireAt(a, j);
      WireAt(b, j);
      ByteBitsInjective(a[j], b[j]);
    }
  }

  /** Messages of one length that differ only inside two adjacent octets have
      different CRCs. */
  lemma AdjacentOctetsDetected(a: seq<bv8>, b: seq<bv8>, k: nat)
    requires |a| == |b| && a != b && k <= |a|
    requires forall i :: 0 <= i < |a| && i != k && i != k + 1 ==> a[i] == b[i]
    ensures Crc(a) != Crc(b)
  {
    hide Wire, AbsorbBits, CrcFrom;
    WireDiffersNear(a, b, k);
    BurstDetected(PRESET, Wire(a), Wire(b), 8 * k);
    CrcIsBitSerial(PRESET, a);
    CrcIsBitSerial(PRESET, b);
  }

  // ----- The self check of a message that carries its own CRC -----

  function HighOctet(w: bv16): bv8 { ((w >> 8) & 0xff) as bv8 }
  function LowOctet(w: bv16): bv8 { (w & 0xff) as bv8 }
  function Raised(y: bv8): bv16 { (y as bv16) << 8 }

  lemma {:induction false} CrcFromConcat(crc: bv16, a: seq<bv8>, b: seq<bv8>)
    ensures CrcFrom(crc, a + b) == CrcFrom(CrcFrom(crc, a), b)
    decreases |a|
  {
    hide Absorb;
    if a == [] {
      assert a + b == b;
    } else {
      CrcFromConcat(Absorb(crc, a[0]), a[1..], b);
      assert (a + b)[1..] == a[1..] + b;
    }
  }

  /** Eight shifts bring the high octet down untouched. */
  lemma RaisedFallsThrough(y: bv8)
    ensures Shifts(Raised(y), 8) == y as bv16
  {
    ghost var w0 := Raised(y);
    ghost var w1 := w0 >> 1; ghost var w2 := w1 >> 1; ghost var w3 := w2 >> 1;
    ghost var w4 := w3 >> 1; ghost var w5 := w4 >> 1; ghost var w6 := w5 >> 1; ghost var w7 := w6 >> 1;
    assert !Odd(w0) && !Odd(w1) && !Odd(w2) && !Odd(w3);
    assert !Odd(w4) && !Odd(w5) && !Odd(w6) && !Odd(w7);
    assert w7 >> 1 == y as bv16;
    assert Shift(w0) == w1 && Shift(w1) == w2 && Shift(w2) == w3 && Shift(w3) == w4;
    assert Shift(w4) == w5 && Shift(w5) == w6 && Shift(w6) == w7 && Shift(w7) == y as bv16;
    hide Shift, Raised, Odd;
    assert Shifts(w0, 8) == Shifts(w4, 4);
  }

  lemma TwoOctets(crc: bv16, x: bv8, y: bv8)
    ensures CrcFrom(crc, [x, y]) == Absorb(Absorb(crc, x), y)
  {
    hide Absorb;
    assert [x, y][1..] == [y];
    assert CrcFrom(Absorb(crc, x), [y]) == CrcFrom(Absorb(Absorb(crc, x), y), []);
  }

  lemma SpelledBy(crc: bv16, x: bv8, y: bv8)
    ensures Xor(Xor(crc, x as bv16), Raised(y)) == 0
            <==> x == LowOctet(crc) && y == HighOctet(crc)
  {}

  /** Two more octets clear the register exactly when together they spell it, low octet
      first. */
  lemma TwoOctetsClear(crc: bv16, x: bv8, y: bv8)
    ensures CrcFrom(crc, [x, y]) == 0 <==> x == LowOctet(crc) && y == HighOctet(crc)
  {
    hide Xor, Shifts, CrcFrom, Raised, LowOctet, HighOctet;
    TwoOctets(crc, x, y);
    var mixed := Xor(crc, x as bv16);
    RaisedFallsThrough(y);
    ShiftsLinear(mixed, Raised(y), 8);
    ShiftsAdd(Xor(mixed, Raised(y)), 8, 8);
    ShiftsZero(16);
    if Shifts(Xor(mixed, Raised(y)), 16) == 0 {
      ShiftsInjective(Xor(mixed, Raised(y)), 0, 16);
    }
    SpelledBy(crc, x, y);
  }

  /** Appending the CRC low octet first, as the standard has it, makes the CRC of the
      whole vanish; no other two octets do. */
  lemma SelfCheck(message: seq<bv8>, x: bv8, y: bv8)
    ensures Crc(message + [x, y]) == 0
            <==> x == LowOctet(Crc(message)) && y == HighOctet(Crc(message))
  {
    hide CrcFrom, LowOctet, HighOctet;
    CrcFromConcat(PRESET, message, [x, y]);
    TwoOctetsClear(Crc(message), x, y);
  }

  // ----- The read request -----

  function RequestBody(head: bv8, dp: bv16): seq<bv8> {
    [head, 0x00, 0x01, 0x03, HighOctet(dp), LowOctet(dp), 0x00, 0x00]
  }

  function ReadFrame(head: bv8, dp: bv16): seq<bv8> {
    var crc := Crc(RequestBody(head, dp));
    RequestBody(head, dp) + [HighOctet(crc), LowOctet(crc), FRAME_TAIL]
  }

  method BuildReadFrame(head: bv8, dp: bv16, out: array<bv8>) returns (n: nat)
    requires out.Length >= 11
    modifies out
    ensures n == 11 && out[..n] == ReadFrame(head, dp) && out[n..] == old(out[n..])
  {
    hide Crc, HighOctet, LowOctet;
    var high, low := Octets(dp);
    out[0] := head;
    out[1] := 0x00;
    out[2] := 0x01;
    out[3] := 0x03;
    out[4] := high;
    out[5] := low;
    out[6] := 0x00;
    out[7] := 0x00;
    var crc := ModbusCrc(out, 8);
    assert out[..8] == RequestBody(head, dp);
    high, low := Octets(crc);
    out[8] := high;
    out[9] := low;
    out[10] := FRAME_TAIL;
    n := 11;
    assert out[..8] == RequestBody(head, dp);
  }

  method Octets(w: bv16) returns (high: bv8, low: bv8)
    ensures high == HighOctet(w) && low == LowOctet(w)
  {
    high := ((w >> 8) & 0xff) as bv8;
    low := (w & 0xff) as bv8;
  }

  lemma OctetsSpell(w: bv16)
    ensures w == Xor(Raised(HighOctet(w)), LowOctet(w) as bv16)
  {}

  lemma OctetsDetermineWord(v: bv16, w: bv16)
    requires HighOctet(v) == HighOctet(w) && LowOctet(v) == LowOctet(w)
    ensures v == w
  {
    hide Xor, Raised, HighOctet, LowOctet;
    OctetsSpell(v);
    OctetsSpell(w);
  }

  /** Requests for different data points under one head differ in the CRC itself, not
      only in the octets that name the data point. */
  lemma RequestCrcsDistinct(head: bv8, dp: bv16, other: bv16)
    requires dp != other
    ensures ReadFrame(head, dp)[8..10] != ReadFrame(head, other)[8..10]
  {
    hide Crc, HighOctet, LowOctet;
    var a, b := RequestBody(head, dp), RequestBody(head, other);
    if a == b {
      assert a[4] == b[4] && a[5] == b[5];
      OctetsDetermineWord(dp, other);
    }
    AdjacentOctetsDetected(a, b, 4);
    var fa, fb := ReadFrame(head, dp), ReadFrame(head, other);
    if fa[8..10] == fb[8..10] {
      assert fa[8..10][0] == HighOctet(Crc(a)) && fb[8..10][0] == HighOctet(Crc(b));
      assert fa[8..10][1] == LowOctet(Crc(a)) && fb[8..10][1] == LowOctet(Crc(b));
      OctetsDetermineWord(Crc(a), Crc(b));
    }
  }

  /** The request stores its CRC high octet first, against the standard's order, so the
      standard self check over the request passes exactly when the two octets of the CRC of
      its first eight octets are equal. */
  lemma RequestSelfCheck(head: bv8, dp: bv16)
    ensures var crc := Crc(RequestBody(head, dp));
            Crc(ReadFrame(head, dp)[..10]) == 0 <==> HighOctet(crc) == LowOctet(crc)
  {
    hide Crc, HighOctet, LowOctet;
    var crc := Crc(RequestBody(head, dp));
    assert ReadFrame(head, dp)[..10] == RequestBody(head, dp) + [HighOctet(crc), LowOctet(crc)];
    SelfCheck(RequestBody(head, dp), HighOctet(crc), LowOctet(crc));
  }

  // ----- The requests the firmware sends -----

  lemma EightShifts(a: bv16)
    ensures Shifts(a, 8) == Shift(Shift(Shift(Shift(Shift(Shift(Shift(Shift(a))))))))
  {
    hide Shift;
    assert Shifts(a, 8) == Shifts(Shift(Shift(a)), 6);
    assert Shifts(Shift(Shift(a)), 6) == Shifts(Shift(Shift(Shift(Shift(a)))), 4);
    assert Shifts(Shift(Shift(Shift(Shift(a)))), 4) == Shifts(Shift(Shift(Shift(Shift(Shift(Shift(a)))))), 2);
  }

  lemma OneOctet(crc: bv16, b: bv8, rest: seq<bv8>)
    ensures CrcFrom(crc, [b] + rest) == CrcFrom(Absorb(crc, b), rest)
  {
    hide Absorb;
    assert ([b] + rest)[1..] == rest;
  }

  lemma FourOctets(crc: bv16, w: bv8, x: bv8, y: bv8, z: bv8, rest: seq<bv8>)
    ensures CrcFrom(crc, [w, x, y, z] + rest) == CrcFrom(Absorb(Absorb(Absorb(Absorb(crc, w), x), y), z), rest)
  {
    hide Absorb, CrcFrom;
    assert [w, x, y, z] + rest == [w] + ([x] + ([y] + ([z] + rest)));
    OneOctet(crc, w, [x] + ([y] + ([z] + rest)));
    OneOctet(Absorb(crc, w), x, [y] + ([z] + rest));
    OneOctet(Absorb(Absorb(crc, w), x), y, [z] + rest);
    OneOctet(Absorb(Absorb(Absorb(crc, w), x), y), z, rest);
  }

  /** The register after a request's first eight octets, octet by octet. */
  lemma RequestCrc(head: bv8, dp: bv16)
    ensures var fixed := Absorb(Absorb(Absorb(Absorb(PRESET, head), 0x00), 0x01), 0x03);
            Crc(RequestBody(head, dp)) == Absorb(Absorb(Absorb(Absorb(fixed, HighOctet(dp)), LowOctet(dp)), 0x00), 0x00)
  {
    hide Absorb, HighOctet, LowOctet, CrcFrom;
    var tail := [HighOctet(dp), LowOctet(dp), 0x00, 0x00];
    FourOctets(PRESET, head, 0x00, 0x01, 0x03, tail);
    var fixed := Absorb(Absorb(Absorb(Absorb(PRESET, head), 0x00), 0x01), 0x03);
    FourOctets(fixed, HighOctet(dp), LowOctet(dp), 0x00, 0x00, []);
    assert RequestBody(head, dp) == [head, 0x00, 0x01, 0x03] + tail && tail == tail + [];
    assert CrcFrom(Absorb(Absorb(Absorb(Absorb(fixed, HighOctet(dp)), LowOctet(dp)), 0x00), 0x00), [])
           == Absorb(Absorb(Absorb(Absorb(fixed, HighOctet(dp)), LowOctet(dp)), 0x00), 0x00) by { NoOctets(); }
  }

  lemma NoOctets()
    ensures forall crc: bv16 :: CrcFrom(crc, []) == crc
  {}

  lemma Head7E()
    ensures Absorb(Absorb(Absorb(Absorb(PRESET, 0x7e), 0x00), 0x01), 0x03) == 0x9d59
  {
    EightShifts(Xor(0xffff, 0x7e));
    EightShifts(Xor(0x603f, 0x00));
    EightShifts(Xor(0x1020, 0x01));
    EightShifts(Xor(0x18d0, 0x03));
    assert Absorb(0xffff, 0x7e) == 0x603f;
    assert Absorb(0x603f, 0x00) == 0x1020;
    assert Absorb(0x1020, 0x01) == 0x18d0;
    assert Absorb(0x18d0, 0x03) == 0x9d59;
  }

  lemma Head1E()
    ensures Absorb(Absorb(Absorb(Absorb(PRESET, 0x1e), 0x00), 0x01), 0x03) == 0x9d47
  {
    EightShifts(Xor(0xffff, 0x1e));
    EightShifts(Xor(0x483f, 0x00));
    EightShifts(Xor(0x1008, 0x01));
    EightShifts(Xor(0x06d0, 0x03));
    assert Absorb(0xffff, 0x1e) == 0x483f;
    assert Absorb(0x483f, 0x00) == 0x1008;
    assert Absorb(0x1008, 0x01) == 0x06d0;
    assert Absorb(0x06d0, 0x03) == 0x9d47;
  }

  lemma Analog7E()
    ensures Crc(RequestBody(0x7e, 0x008c)) == 0x9942
  {
    RequestCrc(0x7e, 0x008c);
    Head7E();
    EightShifts(Xor(0x9d59, 0x00));
    EightShifts(Xor(0x3a5d, 0x8c));
    EightShifts(Xor(0x5cfa, 0x00));
    EightShifts(Xor(0x43dc, 0x00));
    assert Absorb(0x9d59, 0x00) == 0x3a5d;
    assert Absorb(0x3a5d, 0x8c) == 0x5cfa;
    assert Absorb(0x5cfa, 0x00) == 0x43dc;
    assert Absorb(0x43dc, 0x00) == 0x9942;
    hide Shifts, Crc;
  }

  lemma Analog1E()
    ensures Crc(RequestBody(0x1e, 0x008c)) == 0xb144
  {
    RequestCrc(0x1e, 0x008c);
    Head1E();
    EightShifts(Xor(0x9d47, 0x00));
    EightShifts(Xor(0x32dd, 0x8c));
    EightShifts(Xor(0xfcf3, 0x00));
    EightShifts(Xor(0x45bc, 0x00));
    assert Absorb(0x9d47, 0x00) == 0x32dd;
    assert Absorb(0x32dd, 0x8c) == 0xfcf3;
    assert Absorb(0xfcf3, 0x00) == 0x45bc;
    assert Absorb(0x45bc, 0x00) == 0xb144;
    hide Shifts, Crc;
  }

  lemma Product7E()
    ensures Crc(RequestBody(0x7e, 0x0092)) == 0x9f22
  {
    RequestCrc(0x7e, 0x0092);
    Head7E();
    EightShifts(Xor(0x9d59, 0x00));
    EightShifts(Xor(0x3a5d, 0x92));
    EightShifts(Xor(0x547a, 0x00));
    EightShifts(Xor(0xe3d5, 0x00));
    assert Absorb(0x9d59, 0x00) == 0x3a5d;
    assert Absorb(0x3a5d, 0x92) == 0x547a;
    assert Absorb(0x547a, 0x00) == 0xe3d5;
    assert Absorb(0xe3d5, 0x00) == 0x9f22;
    hide Shifts, Crc;
  }

  lemma Product1E()
    ensures Crc(RequestBody(0x1e, 0x0092)) == 0xb724
  {
    RequestCrc(0x1e, 0x0092);
    Head1E();
    EightShifts(Xor(0x9d47, 0x00));
    EightShifts(Xor(0x32dd, 0x92));
    EightShifts(Xor(0xf473, 0x00));
    EightShifts(Xor(0xe5b5, 0x00));
    assert Absorb(0x9d47, 0x00) == 0x32dd;
    assert Absorb(0x32dd, 0x92) == 0xf473;
    assert Absorb(0xf473, 0x00) == 0xe5b5;
    assert Absorb(0xe5b5, 0x00) == 0xb724;
    hide Shifts, Crc;
  }

  lemma Passing()
    ensures Crc(RequestBody(0x7e, 0x0932)) == 0x2121
  {
    RequestCrc(0x7e, 0x0932);
    assert HighOctet(0x0932) == 0x09 && LowOctet(0x0932) == 0x32;
    Head7E();
    EightShifts(Xor(0x9d59, 0x09));
    EightShifts(Xor(0x3c9d, 0x32));
    EightShifts(Xor(0x7c7c, 0x00));
    EightShifts(Xor(0xe17d, 0x00));
    assert Absorb(0x9d59, 0x09) == 0x3c9d;
    assert Absorb(0x3c9d, 0x32) == 0x7c7c;
    assert Absorb(0x7c7c, 0x00) == 0xe17d;
    assert Absorb(0xe17d, 0x00) == 0x2121;
    hide Shifts, Crc;
  }

  const ANALOG: bv16 := 0x008c
  const PRODUCT: bv16 := 0x0092

  /** None of the four requests the firmware sends passes the standard self check. */
  lemma SentRequestsFail(head: bv8, dp: bv16)
    requires (head == 0x7e || head == 0x1e) && (dp == ANALOG || dp == PRODUCT)
    ensures Crc(ReadFrame(head, dp)[..10]) != 0
  {
    hide Crc;
    RequestSelfCheck(head, dp);
    if head == 0x7e {
      if dp == ANALOG { Analog7E(); } else { Product7E(); }
    } else {
      if dp == ANALOG { Analog1E(); } else { Product1E(); }
    }
  }

  /** Some data points would, as 0x0932 does. */
  lemma AnotherPasses()
    ensures Crc(ReadFrame(0x7e, 0x0932)[..10]) == 0
  {
    hide Crc;
    RequestSelfCheck(0x7e, 0x0932);
    Passing();
  }

  /** The request for the analog data, octet by octet. */
  lemma AnalogRequest()
    ensures ReadFrame(0x7e, 0x008c) == [0x7e, 0x00, 0x01, 0x03, 0x00, 0x8c, 0x00, 0x00, 0x99, 0x42, 0x0d]
  {
    Analog7E();
    hide Crc;
  }
}

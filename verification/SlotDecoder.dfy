/** The firmware's decoder: an array of slots that keeps old octets when a shorter frame
    arrives, decoded into a list of at most 32 entries. */
module SlotDecoder {
  import opened Prelude
  import opened PackDecoder

  const CAPACITY := 32

  datatype PyFrame = PyFrame(data: bytes, len: nat, seen: bool)

  type Slots = seq<PyFrame>

  const UNSEEN := PyFrame([0, 0, 0, 0, 0, 0, 0, 0], 0, false)

  ghost predicate Sound(slots: Slots) {
    |slots| == |PY_IDS| && forall i :: 0 <= i < |slots| ==> |slots[i].data| == 8 && slots[i].len <= 8
  }

  /** The position of an identifier, or the number of positions when it has none. */
  function Index(id: nat): (i: nat)
    ensures i <= |PY_IDS| && (i < |PY_IDS| <==> id in PY_IDS) && (i < |PY_IDS| ==> PY_IDS[i] == id)
  {
    FirstIndex(id, 0)
  }

  function FirstIndex(id: nat, from: nat): (i: nat)
    requires from <= |PY_IDS| && id !in PY_IDS[..from]
    ensures from <= i <= |PY_IDS| && (i < |PY_IDS| <==> id in PY_IDS) && (i < |PY_IDS| ==> PY_IDS[i] == id)
    decreases |PY_IDS| - from
  {
    if from == |PY_IDS| then assert PY_IDS[..from] == PY_IDS; from
    else if PY_IDS[from] == id then from
    else FirstIndex(id, from + 1)
  }

  lemma {:induction false} IndexUnique(id: nat, i: nat, from: nat)
    requires from <= i < |PY_IDS| && PY_IDS[i] == id && id !in PY_IDS[..i]
    ensures FirstIndex(id, from) == i
    decreases i - from
  {
    if from < i {
      assert PY_IDS[from] in PY_IDS[..i];
      IndexUnique(id, i, from + 1);
    }
  }

  method PyIndex(id: nat) returns (i: int)
    ensures i == if id in PY_IDS then Index(id) else -1
  {
    for k := 0 to |PY_IDS|
      invariant id !in PY_IDS[..k]
    {
      if PY_IDS[k] == id {
        IndexUnique(id, k, 0);
        return k;
      }
    }
    assert PY_IDS[..|PY_IDS|] == PY_IDS;
    return -1;
  }

  /** The octets a slot stands for: those of the last frame, not the stale ones after. */
  function LatestIn(slots: Slots): Latest
    requires Sound(slots)
  {
    id => var i := Index(id);
          if i < |PY_IDS| && slots[i].seen then Some(slots[i].data[..slots[i].len]) else None
  }

  function Store(slots: Slots, f: RawFrame): Slots
    requires Sound(slots) && WellFormed(f)
  {
    var i, n := Index(Id(f)), Taken(f);
    if i == |PY_IDS| then slots
    else slots[i := PyFrame(f.data[..n] + slots[i].data[n..], n, true)]
  }

  // ----- The two keepers of frames -----

  function Stored(history: seq<RawFrame>): (slots: Slots)
    requires forall f <- history :: WellFormed(f)
    ensures Sound(slots)
  {
    if history == [] then seq(|PY_IDS|, _ => UNSEEN)
    else Store(Stored(history[..|history| - 1]), history[|history| - 1])
  }

  /** Storing a frame replaces what its slot stands for, by its own octets only. */
  lemma StoreLatest(slots: Slots, f: RawFrame, id: nat)
    requires Sound(slots) && WellFormed(f) && id in PY_IDS
    ensures LatestIn(Store(slots, f))(id)
            == if id == Id(f) then Some(f.data[..Taken(f)]) else LatestIn(slots)(id)
  {
    hide FirstIndex;
    var i, n := Index(Id(f)), Taken(f);
    if id == Id(f) {
      var stored := f.data[..n] + slots[i].data[n..];
      assert stored[..n] == f.data[..n];
    } else if i < |PY_IDS| {
      assert Index(id) != i;
    }
  }

  /** After any history of frames the slots and the dictionary hold the same latest frame of
      every kind, whatever stale octets the slots have. */
  lemma {:induction false} SameLatest(history: seq<RawFrame>, id: nat)
    requires forall f <- history :: WellFormed(f)
    requires id in PY_IDS
    ensures LatestIn(Stored(history))(id) == LatestOf(Kept(history))(id)
  {
    hide FirstIndex, Store;
    if history != [] {
      var before, f := history[..|history| - 1], history[|history| - 1];
      SameLatest(before, id);
      StoreLatest(Stored(before), f, id);
    }
  }

  lemma BlockDepends(a: Latest, b: Latest, id: nat)
    requires a(id) == b(id)
    ensures Block(a, id) == Block(b, id)
  {
    forall p: Path | Layout(p).Some? && Layout(p).value.id == id
      ensures Shown(a, p) == Shown(b, p)
    {}
    hide Shown, Layout;
  }

  lemma {:induction false} BlocksDepend(a: Latest, b: Latest, ids: seq<nat>)
    requires forall id <- ids :: a(id) == b(id)
    ensures Blocks(a, ids) == Blocks(b, ids)
  {
    if ids != [] {
      hide Block;
      BlocksDepend(a, b, ids[..|ids| - 1]);
      assert ids[|ids| - 1] in ids;
      BlockDepends(a, b, ids[|ids| - 1]);
    }
  }

  /** After any history the two decoders show the same numbers under the same paths. */
  lemma DecodersAgree(history: seq<RawFrame>)
    requires forall f <- history :: WellFormed(f)
    ensures Numbers(LatestIn(Stored(history))) == Numbers(LatestOf(Kept(history)))
  {
    hide Blocks;
    forall id | id in NUMERIC_IDS
      ensures LatestIn(Stored(history))(id) == LatestOf(Kept(history))(id)
    {
      assert id in PY_IDS;
      SameLatest(history, id);
    }
    BlocksDepend(LatestIn(Stored(history)), LatestOf(Kept(history)), NUMERIC_IDS);
  }

  // ----- The list of entries -----

  datatype Entry = Entry(path: Path, value: Value)

  /** A list as a broker sees it: a later entry replaces an earlier one. */
  function AsMap(entries: seq<Entry>): Values {
    if entries == [] then map[]
    else AsMap(entries[..|entries| - 1])[entries[|entries| - 1].path := entries[|entries| - 1].value]
  }

  function Numeric(entries: seq<Entry>): Values { AsMap(entries) - NAMES }

  lemma AsMapStep(entries: seq<Entry>, e: Entry)
    ensures AsMap(entries + [e]) == AsMap(entries)[e.path := e.value]
  {
    assert (entries + [e])[..|entries|] == entries;
  }

  lemma {:induction false} AsMapConcat(a: seq<Entry>, b: seq<Entry>)
    ensures AsMap(a + b) == AsMap(a) + AsMap(b)
  {
    if b == [] {
      assert a + b == a;
    } else {
      var front, e := b[..|b| - 1], b[|b| - 1];
      AsMapConcat(a, front);
      assert a + b == (a + front) + [e] && b == front + [e];
      AsMapStep(a + front, e);
    }
  }

  lemma NumericConcat(a: seq<Entry>, b: seq<Entry>)
    ensures Numeric(a + b) == Numeric(a) + Numeric(b)
  {
    hide AsMap;
    AsMapConcat(a, b);
  }

  lemma OneEntry(e: Entry)
    ensures AsMap([e]) == map[e.path := e.value]
  {
    assert [] + [e] == [e];
    AsMapStep([], e);
  }

  lemma TwoEntries(a: Entry, b: Entry)
    ensures AsMap([a, b]) == map[a.path := a.value][b.path := b.value]
  {
    hide AsMap;
    OneEntry(a);
    AsMapStep([a], b);
    assert [a] + [b] == [a, b];
  }

  lemma ThreeEntries(a: Entry, b: Entry, c: Entry)
    ensures AsMap([a, b, c]) == map[a.path := a.value][b.path := b.value][c.path := c.value]
  {
    hide AsMap;
    TwoEntries(a, b);
    AsMapStep([a, b], c);
    assert [a, b] + [c] == [a, b, c];
  }

  lemma FourEntries(a: Entry, b: Entry, c: Entry, d: Entry)
    ensures AsMap([a, b, c, d]) == map[a.path := a.value][b.path := b.value][c.path := c.value][d.path := d.value]
  {
    hide AsMap;
    ThreeEntries(a, b, c);
    AsMapStep([a, b, c], d);
    assert [a, b, c] + [d] == [a, b, c, d];
  }

  // ----- What each slot contributes -----

  function Standing(s: PyFrame): Option<bytes>
    requires s.len <= |s.data|
  {
    if s.seen then Some(s.data[..s.len]) else None
  }

  function Limits(s: PyFrame): seq<Entry>
    requires |s.data| == 8
  {
    if !(s.seen && s.len >= 8) then []
    else [Entry(MaxChargeVoltage, Fixed(U16(s.data, 0), 1)), Entry(MaxChargeCurrent, Fixed(U16(s.data, 2), 1)),
          Entry(MaxDischargeCurrent, Fixed(U16(s.data, 4), 1)), Entry(BatteryLowVoltage, Fixed(U16(s.data, 6), 1))]
  }

  function Charge(s: PyFrame): seq<Entry>
    requires |s.data| == 8
  {
    if !(s.seen && s.len >= 4) then []
    else [Entry(Soc, Fixed(U16(s.data, 0), 0)), Entry(Soh, Fixed(U16(s.data, 2), 0))]
  }

  function Measurement(s: PyFrame): seq<Entry>
    requires |s.data| == 8
  {
    if !(s.seen && s.len >= 6) then []
    else [Entry(Voltage, Fixed(U16(s.data, 0), 2)), Entry(Current, Fixed(S16(s.data, 2), 1)),
          Entry(Temperature, Fixed(S16(s.data, 4), 1))]
  }

  function Status(s: PyFrame): seq<Entry>
    requires |s.data| == 8
  {
    if !(s.seen && s.len >= 5) then []
    else [Entry(ModuleCount, Fixed(s.data[4], 0)),
          Entry(Alarm, Flag(s.data[0] != 0 || s.data[1] != 0 || s.data[2] != 0 || s.data[3] != 0))]
  }

  function Requests(s: PyFrame): seq<Entry>
    requires |s.data| == 8
  {
    if !(s.seen && s.len >= 1) then []
    else [Entry(ChargeRequest, Flag(s.data[0] / 128 % 2 == 1)), Entry(DischargeRequest, Flag(s.data[0] / 64 % 2 == 1))]
  }

  function Cells(s: PyFrame): seq<Entry>
    requires |s.data| == 8
  {
    if !(s.seen && s.len >= 8 && (U16(s.data, 0) != 0 || U16(s.data, 2) != 0)) then []
    else [Entry(MinCellVoltage, Fixed(U16(s.data, 0), 3)), Entry(MaxCellVoltage, Fixed(U16(s.data, 2), 3)),
          Entry(MinCellTemperature, Fixed(U16(s.data, 4) - 273, 0)),
          Entry(MaxCellTemperature, Fixed(U16(s.data, 6) - 273, 0))]
  }

  function Remaining(s: PyFrame): seq<Entry>
    requires |s.data| == 8
  {
    if !(s.seen && s.len >= 2) then [] else [Entry(Capacity, Fixed(U16(s.data, 0), 0))]
  }

  /** Entries that are exactly what one kind of frame has to show. */
  ghost predicate Contributes(entries: seq<Entry>, latest: Latest, id: nat) {
    AsMap(entries) == Block(latest, id)
  }

  lemma LimitsContribute(s: PyFrame, latest: Latest)
    requires |s.data| == 8 && s.len <= 8 && latest(0x351) == Standing(s)
    ensures Contributes(Limits(s), latest, 0x351)
  {
    LimitsBlock(latest);
    hide Block, AsMap, U16;
    if s.seen && s.len >= 8 {
      assert s.data[..s.len] == s.data;
      var es := Limits(s);
      FourEntries(es[0], es[1], es[2], es[3]);
    } else { assert AsMap([]) == map[] by { EmptyAsMap(); } }
  }

  lemma EmptyAsMap()
    ensures AsMap([]) == map[]
  {}

  lemma ChargeContributes(s: PyFrame, latest: Latest)
    requires |s.data| == 8 && s.len <= 8 && latest(0x355) == Standing(s)
    ensures Contributes(Charge(s), latest, 0x355)
  {
    ChargeBlock(latest);
    hide Block, AsMap;
    if s.seen && s.len >= 4 {
      var es := Charge(s);
      TwoEntries(es[0], es[1]);
    } else { EmptyAsMap(); }
  }

  lemma MeasurementContributes(s: PyFrame, latest: Latest)
    requires |s.data| == 8 && s.len <= 8 && latest(0x356) == Standing(s)
    ensures Contributes(Measurement(s), latest, 0x356)
  {
    MeasurementBlock(latest);
    hide Block, AsMap;
    if s.seen && s.len >= 6 {
      var es := Measurement(s);
      ThreeEntries(es[0], es[1], es[2]);
    } else { EmptyAsMap(); }
  }

  lemma StatusContributes(s: PyFrame, latest: Latest)
    requires |s.data| == 8 && s.len <= 8 && latest(0x359) == Standing(s)
    ensures Contributes(Status(s), latest, 0x359)
  {
    StatusBlock(latest);
    hide Block, AsMap;
    if s.seen && s.len >= 5 {
      var es := Status(s);
      TwoEntries(es[0], es[1]);
    } else { EmptyAsMap(); }
  }

  lemma RequestsContribute(s: PyFrame, latest: Latest)
    requires |s.data| == 8 && s.len <= 8 && latest(0x35C) == Standing(s)
    ensures Contributes(Requests(s), latest, 0x35C)
  {
    RequestsBlock(latest);
    hide Block, AsMap;
    if s.seen && s.len >= 1 {
      var es := Requests(s);
      TwoEntries(es[0], es[1]);
    } else { EmptyAsMap(); }
  }

  lemma CellsContribute(s: PyFrame, latest: Latest)
    requires |s.data| == 8 && s.len <= 8 && latest(0x373) == Standing(s)
    ensures Contributes(Cells(s), latest, 0x373)
  {
    CellsBlock(latest);
    hide Block, AsMap, U16;
    if s.seen && s.len >= 8 { assert s.data[..s.len] == s.data; }
    var es := Cells(s);
    if es != [] { FourEntries(es[0], es[1], es[2], es[3]); } else { EmptyAsMap(); }
  }

  lemma RemainingContributes(s: PyFrame, latest: Latest)
    requires |s.data| == 8 && s.len <= 8 && latest(0x379) == Standing(s)
    ensures Contributes(Remaining(s), latest, 0x379)
  {
    CapacityBlock(latest);
    hide Block, AsMap;
    if s.seen && s.len >= 2 { OneEntry(Remaining(s)[0]); } else { EmptyAsMap(); }
  }

  /** The text before the first zero octet. */
  function UntilNul(d: bytes): (t: bytes)
    ensures |t| <= |d|
  {
    if d == [] || d[0] == 0 then [] else [d[0]] + UntilNul(d[1..])
  }

  /** What stands before the first zero octet, all of it when there is none. */
  lemma {:induction false} TextBeforeZero(d: bytes)
    ensures UntilNul(d) <= d && 0 !in UntilNul(d)
    ensures |UntilNul(d)| < |d| ==> d[|UntilNul(d)|] == 0
  {
    if d != [] && d[0] != 0 {
      TextBeforeZero(d[1..]);
      assert d == [d[0]] + d[1..];
    }
  }

  function NameText(s: PyFrame): bytes {
    if s.seen then UntilNul(s.data) else []
  }

  function NameEntries(n0: PyFrame, n1: PyFrame): seq<Entry> {
    var full := NameText(n0) + NameText(n1);
    if full == [] then [] else [Entry(ProductName, Text(full)), Entry(CustomName, Text(full))]
  }

  function ProductEntries(s: PyFrame): seq<Entry> {
    if NameText(s) == [] then [] else [Entry(ProductName, Text(NameText(s)))]
  }

  lemma NamesAreNotNumeric(n0: PyFrame, n1: PyFrame, s: PyFrame)
    ensures Numeric(NameEntries(n0, n1)) == map[] && Numeric(ProductEntries(s)) == map[]
  {
    hide NameText, AsMap;
    EmptyAsMap();
    var es := NameEntries(n0, n1);
    if es != [] { TwoEntries(es[0], es[1]); }
    var fs := ProductEntries(s);
    if fs != [] { OneEntry(fs[0]); }
  }

  // ----- Writing the list -----

  method Put(out: array<Entry>, n: nat, p: Path, v: Value) returns (m: nat)
    requires n < out.Length
    modifies out
    ensures m == n + 1 && out[..m] == old(out[..n]) + [Entry(p, v)]
  {
    out[n] := Entry(p, v);
    m := n + 1;
  }

  method WriteLimits(s: PyFrame, out: array<Entry>, n: nat) returns (m: nat)
    requires |s.data| == 8 && n + 4 <= out.Length
    modifies out
    ensures m == n + |Limits(s)| <= n + 4 && out[..m] == old(out[..n]) + Limits(s)
  {
    hide U16, S16, Flag;
    m := n;
    if s.seen && s.len >= 8 {
      m := Put(out, m, MaxChargeVoltage, Fixed(U16(s.data, 0), 1));
      m := Put(out, m, MaxChargeCurrent, Fixed(U16(s.data, 2), 1));
      m := Put(out, m, MaxDischargeCurrent, Fixed(U16(s.data, 4), 1));
      m := Put(out, m, BatteryLowVoltage, Fixed(U16(s.data, 6), 1));
    }
  }

  method WriteCharge(s: PyFrame, out: array<Entry>, n: nat) returns (m: nat)
    requires |s.data| == 8 && n + 2 <= out.Length
    modifies out
    ensures m == n + |Charge(s)| <= n + 2 && out[..m] == old(out[..n]) + Charge(s)
  {
    hide U16, S16, Flag;
    m := n;
    if s.seen && s.len >= 4 {
      m := Put(out, m, Soc, Fixed(U16(s.data, 0), 0));
      m := Put(out, m, Soh, Fixed(U16(s.data, 2), 0));
    }
  }

  method WriteMeasurement(s: PyFrame, out: array<Entry>, n: nat) returns (m: nat)
    requires |s.data| == 8 && n + 3 <= out.Length
    modifies out
    ensures m == n + |Measurement(s)| <= n + 3 && out[..m] == old(out[..n]) + Measurement(s)
  {
    hide U16, S16, Flag;
    m := n;
    if s.seen && s.len >= 6 {
      m := Put(out, m, Voltage, Fixed(U16(s.data, 0), 2));
      m := Put(out, m, Current, Fixed(S16(s.data, 2), 1));
      m := Put(out, m, Temperature, Fixed(S16(s.data, 4), 1));
    }
  }

  method WriteStatus(s: PyFrame, out: array<Entry>, n: nat) returns (m: nat)
    requires |s.data| == 8 && n + 2 <= out.Length
    modifies out
    ensures m == n + |Status(s)| <= n + 2 && out[..m] == old(out[..n]) + Status(s)
  {
    hide U16, S16, Flag;
    m := n;
    if s.seen && s.len >= 5 {
      m := Put(out, m, ModuleCount, Fixed(s.data[4], 0));
      m := Put(out, m, Alarm, Flag(s.data[0] != 0 || s.data[1] != 0 || s.data[2] != 0 || s.data[3] != 0));
    }
  }

  method WriteRequests(s: PyFrame, out: array<Entry>, n: nat) returns (m: nat)
    requires |s.data| == 8 && n + 2 <= out.Length
    modifies out
    ensures m == n + |Requests(s)| <= n + 2 && out[..m] == old(out[..n]) + Requests(s)
  {
    hide U16, S16, Flag;
    m := n;
    if s.seen && s.len >= 1 {
      m := Put(out, m, ChargeRequest, Flag(s.data[0] / 128 % 2 == 1));
      m := Put(out, m, DischargeRequest, Flag(s.data[0] / 64 % 2 == 1));
    }
  }

  method WriteCells(s: PyFrame, out: array<Entry>, n: nat) returns (m: nat)
    requires |s.data| == 8 && n + 4 <= out.Length
    modifies out
    ensures m == n + |Cells(s)| <= n + 4 && out[..m] == old(out[..n]) + Cells(s)
  {
    hide U16, S16, Flag;
    m := n;
    if s.seen && s.len >= 8 && (U16(s.data, 0) != 0 || U16(s.data, 2) != 0) {
      m := Put(out, m, MinCellVoltage, Fixed(U16(s.data, 0), 3));
      m := Put(out, m, MaxCellVoltage, Fixed(U16(s.data, 2), 3));
      m := Put(out, m, MinCellTemperature, Fixed(U16(s.data, 4) - 273, 0));
      m := Put(out, m, MaxCellTemperature, Fixed(U16(s.data, 6) - 273, 0));
    }
  }

  method WriteRemaining(s: PyFrame, out: array<Entry>, n: nat) returns (m: nat)
    requires |s.data| == 8 && n + 1 <= out.Length
    modifies out
    ensures m == n + |Remaining(s)| <= n + 1 && out[..m] == old(out[..n]) + Remaining(s)
  {
    hide U16, S16, Flag;
    m := n;
    if s.seen && s.len >= 2 {
      m := Put(out, m, Capacity, Fixed(U16(s.data, 0), 0));
    }
  }

  /** The characters of a name slot up to a zero, stale ones included. */
  method CopyName(s: PyFrame) returns (text: bytes)
    requires |s.data| == 8
    ensures text == NameText(s)
  {
    text := [];
    if !s.seen { return; }
    var i := 0;
    while i < 8
      invariant 0 <= i <= 8 && text + UntilNul(s.data[i..]) == UntilNul(s.data)
    {
      assert s.data[i..][1..] == s.data[i + 1..];
      if s.data[i] == 0 { break; }
      text := text + [s.data[i]];
      i := i + 1;
    }
  }

  method WriteNames(n0: PyFrame, n1: PyFrame, s: PyFrame, out: array<Entry>, n: nat) returns (m: nat)
    requires |n0.data| == 8 && |n1.data| == 8 && |s.data| == 8 && n + 3 <= out.Length
    modifies out
    ensures m == n + |NameEntries(n0, n1)| + |ProductEntries(s)| <= n + 3
    ensures out[..m] == old(out[..n]) + (NameEntries(n0, n1) + ProductEntries(s))
  {
    hide NameText;
    m := n;
    var first := CopyName(n0);
    var second := CopyName(n1);
    if |first + second| > 0 {
      m := Put(out, m, ProductName, Text(first + second));
      m := Put(out, m, CustomName, Text(first + second));
    }
    var text := CopyName(s);
    if |text| > 0 { m := Put(out, m, ProductName, Text(text)); }
  }

  // ----- The firmware -----

  function Preamble(): seq<Entry> {
    [Entry(ProductName, Text(PYLO)), Entry(CustomName, Text(WATTCYCLE)), Entry(Connected, Fixed(1, 0))]
  }

  function SlotOf(slots: Slots, id: nat): (s: PyFrame)
    requires Sound(slots) && id in PY_IDS
    ensures |s.data| == 8 && s.len <= 8 && LatestIn(slots)(id) == Standing(s)
  {
    slots[Index(id)]
  }

  /** The whole list, in the order it is written. */
  function Entries(slots: Slots): seq<Entry>
    requires Sound(slots)
  {
    EarlyEntries(slots)
    + (NameEntries(SlotOf(slots, 0x370), SlotOf(slots, 0x371)) + ProductEntries(SlotOf(slots, 0x35E)))
    + Cells(SlotOf(slots, 0x373)) + Remaining(SlotOf(slots, 0x379))
  }

  lemma BlockIsNumeric(entries: seq<Entry>, latest: Latest, id: nat)
    requires Contributes(entries, latest, id)
    ensures Numeric(entries) == Block(latest, id)
  {
    hide Shown, AsMap;
    assert ProductName !in Block(latest, id) && CustomName !in Block(latest, id);
  }

  lemma PreambleNumeric()
    ensures Numeric(Preamble()) == map[Connected := Fixed(1, 0)]
  {
    hide AsMap;
    var es := Preamble();
    ThreeEntries(es[0], es[1], es[2]);
  }

  /** One more group of entries adds its block, or nothing when it is names. */
  lemma AddGroup(sofar: seq<Entry>, group: seq<Entry>, latest: Latest, id: nat)
    requires Contributes(group, latest, id)
    ensures Numeric(sofar + group) == Numeric(sofar) + Block(latest, id)
  {
    hide *;
    NumericConcat(sofar, group);
    BlockIsNumeric(group, latest, id);
  }

  lemma AddNameGroup(sofar: seq<Entry>, n0: PyFrame, n1: PyFrame, s: PyFrame)
    ensures Numeric(sofar + (NameEntries(n0, n1) + ProductEntries(s))) == Numeric(sofar)
  {
    hide *;
    NamesAreNotNumeric(n0, n1, s);
    NumericConcat(sofar, NameEntries(n0, n1) + ProductEntries(s));
    NumericConcat(NameEntries(n0, n1), ProductEntries(s));
  }

  /** The groups of the list, before the names and after them. */
  function EarlyEntries(slots: Slots): seq<Entry>
    requires Sound(slots)
  {
    Preamble() + Limits(SlotOf(slots, 0x351)) + Charge(SlotOf(slots, 0x355)) + Measurement(SlotOf(slots, 0x356))
    + Status(SlotOf(slots, 0x359)) + Requests(SlotOf(slots, 0x35C))
  }

  function EarlyNumbers(latest: Latest): Values {
    map[Connected := Fixed(1, 0)] + Block(latest, 0x351) + Block(latest, 0x355) + Block(latest, 0x356)
    + Block(latest, 0x359) + Block(latest, 0x35C)
  }

  lemma EarlyGroups(pre: seq<Entry>, a: seq<Entry>, b: seq<Entry>, c: seq<Entry>, d: seq<Entry>, e: seq<Entry>,
                    latest: Latest)
    requires Numeric(pre) == map[Connected := Fixed(1, 0)]
    requires Contributes(a, latest, 0x351) && Contributes(b, latest, 0x355) && Contributes(c, latest, 0x356)
    requires Contributes(d, latest, 0x359) && Contributes(e, latest, 0x35C)
    ensures Numeric(pre + a + b + c + d + e) == EarlyNumbers(latest)
  {
    hide Numeric, Contributes, Block;
    AddGroup(pre, a, latest, 0x351);
    AddGroup(pre + a, b, latest, 0x355);
    AddGroup(pre + a + b, c, latest, 0x356);
    AddGroup(pre + a + b + c, d, latest, 0x359);
    AddGroup(pre + a + b + c + d, e, latest, 0x35C);
  }

  lemma EarlyAreNumbers(slots: Slots)
    requires Sound(slots)
    ensures Numeric(EarlyEntries(slots)) == EarlyNumbers(LatestIn(slots)) && |EarlyEntries(slots)| <= 16
  {
    var latest := LatestIn(slots);
    var a, b, c := SlotOf(slots, 0x351), SlotOf(slots, 0x355), SlotOf(slots, 0x356);
    var d, e := SlotOf(slots, 0x359), SlotOf(slots, 0x35C);
    hide *;
    LimitsContribute(a, latest);
    ChargeContributes(b, latest);
    MeasurementContributes(c, latest);
    StatusContributes(d, latest);
    RequestsContribute(e, latest);
    PreambleNumeric();
    EarlyGroups(Preamble(), Limits(a), Charge(b), Measurement(c), Status(d), Requests(e), latest);
    EarlyShape(slots);
  }

  lemma EarlyShape(slots: Slots)
    requires Sound(slots)
    ensures EarlyEntries(slots) ==
              Preamble() + Limits(SlotOf(slots, 0x351)) + Charge(SlotOf(slots, 0x355))
              + Measurement(SlotOf(slots, 0x356))
              + Status(SlotOf(slots, 0x359)) + Requests(SlotOf(slots, 0x35C))
    ensures |EarlyEntries(slots)| <= 16
  {
    hide SlotOf, Sound, U16, S16, Flag;
  }

  /** What the firmware lists is, name entries aside, exactly the numbers of the protocol. */
  lemma EntriesAreNumbers(slots: Slots)
    requires Sound(slots)
    ensures Numeric(Entries(slots)) == Numbers(LatestIn(slots))
    ensures |Entries(slots)| <= 24
  {
    var latest := LatestIn(slots);
    var n0, n1, n2 := SlotOf(slots, 0x370), SlotOf(slots, 0x371), SlotOf(slots, 0x35E);
    var f, g := SlotOf(slots, 0x373), SlotOf(slots, 0x379);
    hide *;
    EarlyAreNumbers(slots);
    CellsContribute(f, latest);
    RemainingContributes(g, latest);
    var early := EarlyEntries(slots);
    var names := NameEntries(n0, n1) + ProductEntries(n2);
    AddNameGroup(early, n0, n1, n2);
    AddGroup(early + names, Cells(f), latest, 0x373);
    AddGroup(early + names + Cells(f), Remaining(g), latest, 0x379);
    EntriesShape(slots);
    NumbersShape(latest);
  }

  lemma NumbersShape(latest: Latest)
    ensures Numbers(latest) == EarlyNumbers(latest) + Block(latest, 0x373) + Block(latest, 0x379)
  {
    hide Block, Numbers;
    NumbersStepByStep(latest);
  }

  lemma EntriesShape(slots: Slots)
    requires Sound(slots)
    ensures Entries(slots) == EarlyEntries(slots)
              + (NameEntries(SlotOf(slots, 0x370), SlotOf(slots, 0x371)) + ProductEntries(SlotOf(slots, 0x35E)))
              + Cells(SlotOf(slots, 0x373)) + Remaining(SlotOf(slots, 0x379))
    ensures |EarlyEntries(slots)| <= 16 ==> |Entries(slots)| <= 24
  {
    hide EarlyEntries, SlotOf, Sound, U16, S16, Flag, NameText;
  }

  /** After any history of frames the firmware's list, name entries aside, has exactly the
      numbers of the daemon's dictionary, and never comes near the end of its array. */
  lemma FirmwareMirrorsDaemon(history: seq<RawFrame>)
    requires forall f <- history :: WellFormed(f)
    ensures Numeric(Entries(Stored(history))) == Numbers(LatestOf(Kept(history)))
    ensures |Entries(Stored(history))| <= 24 < CAPACITY
  {
    assert 24 < CAPACITY;
    hide *;
    EntriesAreNumbers(Stored(history));
    DecodersAgree(history);
  }

  method WritePreamble(out: array<Entry>) returns (n: nat)
    requires out.Length >= 3
    modifies out
    ensures n == 3 && out[..n] == Preamble()
  {
    n := Put(out, 0, ProductName, Text(PYLO));
    n := Put(out, n, CustomName, Text(WATTCYCLE));
    n := Put(out, n, Connected, Fixed(1, 0));
  }

  class Reader {
    const frames: array<PyFrame>

    ghost predicate Valid()
      reads frames
    {
      Sound(frames[..])
    }

    constructor ()
      ensures Valid() && fresh(frames) && frames[..] == Stored([])
    {
      frames := new PyFrame[|PY_IDS|](_ => UNSEEN);
      new;
      assert frames[..] == seq(|PY_IDS|, _ => UNSEEN);
    }

    /** A frame from the bus goes to its slot, if it has one. */
    method Receive(f: RawFrame)
      requires Valid() && WellFormed(f)
      modifies frames
      ensures Valid() && frames[..] == Store(old(frames[..]), f)
    {
      var idx := PyIndex(f.id % 2048);
      if idx >= 0 {
        var n := if f.dlc > 8 then 8 else f.dlc;
        frames[idx] := PyFrame(f.data[..n] + frames[idx].data[n..], n, true);
      }
    }

    method Slot(id: nat) returns (s: PyFrame)
      requires Valid() && id in PY_IDS
      ensures s == SlotOf(frames[..], id) && |s.data| == 8 && s.len <= 8
    {
      var i := PyIndex(id);
      s := frames[i];
    }

    /** The groups before the names, written from the start of the array. */
    method DecodeEarly(out: array<Entry>) returns (n: nat)
      requires Valid() && out.Length == CAPACITY && out as object != frames
      modifies out
      ensures n <= 16 && out[..n] == EarlyEntries(frames[..])
    {
      var limits := Slot(0x351);
      var soc := Slot(0x355);
      var meas := Slot(0x356);
      var status := Slot(0x359);
      var flags := Slot(0x35C);
      ghost var slots := frames[..];
      EarlyShape(slots);
      assert out.Length == 32;
      hide *;
      n := WritePreamble(out);
      n := WriteLimits(limits, out, n);
      n := WriteCharge(soc, out, n);
      n := WriteMeasurement(meas, out, n);
      n := WriteStatus(status, out, n);
      n := WriteRequests(flags, out, n);
      assert frames[..] == slots;
    }

    /** Writes the list into an array of 32 and returns how much of it is used: never more
        than 24. As a map, names aside, it is what the protocol shows. */
    method DecodePack(out: array<Entry>) returns (n: nat)
      requires Valid() && out.Length == CAPACITY && out as object != frames
      modifies out
      ensures n <= 24 && out[..n] == Entries(frames[..])
      ensures Numeric(out[..n]) == Numbers(LatestIn(frames[..])) && ShowsAll(Numeric(out[..n]), LatestIn(frames[..]))
    {
      var n0 := Slot(0x370);
      var n1 := Slot(0x371);
      var name := Slot(0x35E);
      var cells := Slot(0x373);
      var cap := Slot(0x379);
      n := DecodeEarly(out);
      ghost var slots := frames[..];
      assert out.Length == 32 && Sound(slots);
      hide *;
      n := WriteNames(n0, n1, name, out, n);
      n := WriteCells(cells, out, n);
      n := WriteRemaining(cap, out, n);
      assert frames[..] == slots;
      EntriesShape(slots);
      EntriesAreNumbers(slots);
      NumbersAreShown(LatestIn(slots));
    }
  }
}

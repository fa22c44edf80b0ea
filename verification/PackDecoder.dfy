/** The Pylontech frames of a pack, decoded by the daemon from a dictionary of the latest
    frames and by the firmware from an array of slots. Values are whole numbers with a
    count of decimals. */
module PackDecoder {
  import opened Prelude

  const PY_IDS: seq<nat> := [0x351, 0x355, 0x356, 0x359, 0x35A, 0x35C, 0x35E, 0x370, 0x371, 0x373, 0x379]

  /** A frame as the bus delivers it: identifier with its flag bits, length code, eight octets. */
  datatype RawFrame = RawFrame(id: nat, dlc: nat, data: bytes)

  predicate WellFormed(f: RawFrame) { |f.data| == 8 }

  function Id(f: RawFrame): nat { f.id % 2048 }

  function Taken(f: RawFrame): nat { Min(f.dlc, 8) }

  // ----- What is published -----

  datatype Path =
    | ProductName | CustomName | Connected
    | MaxChargeVoltage | MaxChargeCurrent | MaxDischargeCurrent | BatteryLowVoltage
    | Soc | Soh | Voltage | Current | Temperature | ModuleCount | Alarm
    | ChargeRequest | DischargeRequest
    | MinCellVoltage | MaxCellVoltage | MinCellTemperature | MaxCellTemperature | Capacity

  const PYLO: bytes := [80, 89, 76, 79]
  const WATTCYCLE: bytes := [87, 97, 116, 116, 67, 121, 99, 108, 101]

  const NAMES := {ProductName, CustomName}

  datatype Value = Fixed(digits: int, decimals: nat) | Text(text: bytes)

  function U16(d: bytes, i: nat): int
    requires i + 1 < |d|
  {
    Be16(d[i + 1], d[i])
  }

  function S16(d: bytes, i: nat): int
    requires i + 1 < |d|
  {
    var v := U16(d, i);
    if v >= 32768 then v - 65536 else v
  }

  /** How a field is read out of its frame. */
  datatype Kind = Unsigned | Signed | Kelvin | Octet | AnyOfFour | Bit(weight: nat)

  datatype Field = Field(id: nat, needs: nat, offset: nat, kind: Kind, decimals: nat)

  /** The layout of the protocol: for every numeric path its frame, the length that frame
      must have, and how to read it. */
  function Layout(p: Path): Option<Field> {
    match p
    case ProductName | CustomName | Connected => None
    case MaxChargeVoltage => Some(Field(0x351, 8, 0, Unsigned, 1))
    case MaxChargeCurrent => Some(Field(0x351, 8, 2, Unsigned, 1))
    case MaxDischargeCurrent => Some(Field(0x351, 8, 4, Unsigned, 1))
    case BatteryLowVoltage => Some(Field(0x351, 8, 6, Unsigned, 1))
    case Soc => Some(Field(0x355, 4, 0, Unsigned, 0))
    case Soh => Some(Field(0x355, 4, 2, Unsigned, 0))
    case Voltage => Some(Field(0x356, 6, 0, Unsigned, 2))
    case Current => Some(Field(0x356, 6, 2, Signed, 1))
    case Temperature => Some(Field(0x356, 6, 4, Signed, 1))
    case ModuleCount => Some(Field(0x359, 5, 4, Octet, 0))
    case Alarm => Some(Field(0x359, 5, 0, AnyOfFour, 0))
    case ChargeRequest => Some(Field(0x35C, 1, 0, Bit(128), 0))
    case DischargeRequest => Some(Field(0x35C, 1, 0, Bit(64), 0))
    case MinCellVoltage => Some(Field(0x373, 8, 0, Unsigned, 3))
    case MaxCellVoltage => Some(Field(0x373, 8, 2, Unsigned, 3))
    case MinCellTemperature => Some(Field(0x373, 8, 4, Kelvin, 0))
    case MaxCellTemperature => Some(Field(0x373, 8, 6, Kelvin, 0))
    case Capacity => Some(Field(0x379, 2, 0, Unsigned, 0))
  }

  function Width(k: Kind): nat {
    match k
    case Unsigned | Signed | Kelvin => 2
    case AnyOfFour => 4
    case Octet | Bit(_) => 1
  }

  function Extract(k: Kind, d: bytes, i: nat): int
    requires i + Width(k) <= |d|
  {
    match k
    case Unsigned => U16(d, i)
    case Signed => S16(d, i)
    case Kelvin => U16(d, i) - 273
    case Octet => d[i]
    case AnyOfFour => if d[i] != 0 || d[i + 1] != 0 || d[i + 2] != 0 || d[i + 3] != 0 then 1 else 0
    case Bit(w) => if w > 0 && d[i] / w % 2 == 1 then 1 else 0
  }

  type Latest = nat -> Option<bytes>

  /** Cell extremes of zero mean there are none yet. */
  predicate NoCells(d: bytes) {
    |d| >= 4 && U16(d, 0) == 0 && U16(d, 2) == 0
  }

  /** What the protocol says is shown for a path, given the latest frame of each kind. */
  function Shown(latest: Latest, p: Path): Option<Value> {
    match Layout(p)
    case None => None
    case Some(f) =>
      match latest(f.id)
      case None => None
      case Some(d) =>
        if |d| < f.needs || |d| < f.offset + Width(f.kind) || (f.id == 0x373 && NoCells(d)) then None
        else Some(Fixed(Extract(f.kind, d, f.offset), f.decimals))
  }

  /** A map shows exactly what the protocol says, besides the names and the constant that
      says the pack is connected. */
  ghost predicate ShowsAll(out: map<Path, Value>, latest: Latest) {
    && Connected in out && out[Connected] == Fixed(1, 0)
    && forall p | p !in NAMES && p != Connected ::
         (p in out <==> Shown(latest, p).Some?) && (p in out ==> Some(out[p]) == Shown(latest, p))
  }

  // ----- The daemon -----

  /** The daemon keeps the octets of a frame whose identifier it knows. */
  function Keep(frames: map<nat, bytes>, f: RawFrame): map<nat, bytes>
    requires WellFormed(f)
  {
    if Id(f) in PY_IDS then frames[Id(f) := f.data[..Taken(f)]] else frames
  }

  function Kept(history: seq<RawFrame>): map<nat, bytes>
    requires forall f <- history :: WellFormed(f)
  {
    if history == [] then map[] else Keep(Kept(history[..|history| - 1]), history[|history| - 1])
  }

  type Values = map<Path, Value>

  /** Everything one kind of frame has to show. */
  function Block(latest: Latest, id: nat): Values {
    map p: Path | Layout(p).Some? && Layout(p).value.id == id && Shown(latest, p).Some? :: Shown(latest, p).value
  }

  function LatestOf(frames: map<nat, bytes>): Latest {
    id => if id in frames then Some(frames[id]) else None
  }

  function Flag(b: bool): Value { Fixed(if b then 1 else 0, 0) }

  /** The latest frame of a kind, and no octets when there is none. */
  function Octets(latest: Latest, id: nat): bytes {
    match latest(id)
    case None => []
    case Some(d) => d
  }

  lemma LimitsBlock(latest: Latest)
    ensures var d := Octets(latest, 0x351);
            Block(latest, 0x351) == if |d| >= 8 then
              map[MaxChargeVoltage := Fixed(U16(d, 0), 1), MaxChargeCurrent := Fixed(U16(d, 2), 1),
                  MaxDischargeCurrent := Fixed(U16(d, 4), 1), BatteryLowVoltage := Fixed(U16(d, 6), 1)]
            else map[]
  {
    hide U16;
  }

  lemma ChargeBlock(latest: Latest)
    ensures var d := Octets(latest, 0x355);
            Block(latest, 0x355) == if |d| >= 4 then map[Soc := Fixed(U16(d, 0), 0), Soh := Fixed(U16(d, 2), 0)]
                                    else map[]
  {
    hide U16;
  }

  lemma MeasurementBlock(latest: Latest)
    ensures var d := Octets(latest, 0x356);
            Block(latest, 0x356) == if |d| >= 6 then
              map[Voltage := Fixed(U16(d, 0), 2), Current := Fixed(S16(d, 2), 1), Temperature := Fixed(S16(d, 4), 1)]
            else map[]
  {
    hide U16, S16;
  }

  lemma StatusBlock(latest: Latest)
    ensures var d := Octets(latest, 0x359);
            Block(latest, 0x359) == if |d| >= 5 then
              map[ModuleCount := Fixed(d[4], 0),
                  Alarm := Flag(d[0] != 0 || d[1] != 0 || d[2] != 0 || d[3] != 0)]
            else map[]
  {
    hide U16, S16;
  }

  lemma RequestsBlock(latest: Latest)
    ensures var d := Octets(latest, 0x35C);
            Block(latest, 0x35C) == if |d| >= 1 then
              map[ChargeRequest := Flag(d[0] / 128 % 2 == 1), DischargeRequest := Flag(d[0] / 64 % 2 == 1)]
            else map[]
  {
    hide U16, S16;
  }

  lemma CellsBlock(latest: Latest)
    ensures var d := Octets(latest, 0x373);
            Block(latest, 0x373) == if |d| >= 8 && (U16(d, 0) != 0 || U16(d, 2) != 0) then
              map[MinCellVoltage := Fixed(U16(d, 0), 3), MaxCellVoltage := Fixed(U16(d, 2), 3),
                  MinCellTemperature := Fixed(U16(d, 4) - 273, 0), MaxCellTemperature := Fixed(U16(d, 6) - 273, 0)]
            else map[]
  {
    assert forall p :: Layout(p).Some? && Layout(p).value.id == 0x373
             <==> p in {MinCellVoltage, MaxCellVoltage, MinCellTemperature, MaxCellTemperature};
    hide U16, S16;
  }

  lemma CapacityBlock(latest: Latest)
    ensures var d := Octets(latest, 0x379);
            Block(latest, 0x379) == if |d| >= 2 then map[Capacity := Fixed(U16(d, 0), 0)] else map[]
  {
    hide U16, S16;
  }

  /** The fields of several frames, one after the other. */
  function Blocks(latest: Latest, ids: seq<nat>): Values {
    if ids == [] then map[Connected := Fixed(1, 0)]
    else Blocks(latest, ids[..|ids| - 1]) + Block(latest, ids[|ids| - 1])
  }

  lemma BlocksStep(latest: Latest, ids: seq<nat>, id: nat)
    ensures Blocks(latest, ids + [id]) == Blocks(latest, ids) + Block(latest, id)
  {
    assert (ids + [id])[..|ids|] == ids;
  }

  lemma {:induction false} BlocksShow(latest: Latest, ids: seq<nat>, p: Path)
    ensures var out := Blocks(latest, ids);
            if p == Connected then p in out && out[p] == Fixed(1, 0)
            else if Layout(p).Some? && Layout(p).value.id in ids then
              (p in out <==> Shown(latest, p).Some?) && (p in out ==> Some(out[p]) == Shown(latest, p))
            else p !in out
  {
    if ids != [] {
      hide Shown;
      var front, id := ids[..|ids| - 1], ids[|ids| - 1];
      BlocksShow(latest, front, p);
      assert forall x :: x in ids <==> x in front || x == id by { assert ids == front + [id]; }
      assert p in Block(latest, id) <==> Layout(p).Some? && Layout(p).value.id == id && Shown(latest, p).Some?;
    }
  }

  const NUMERIC_IDS: seq<nat> := [0x351, 0x355, 0x356, 0x359, 0x35C, 0x373, 0x379]

  function Numbers(latest: Latest): Values {
    Blocks(latest, NUMERIC_IDS)
  }

  lemma EveryFieldListed(p: Path)
    ensures p in NAMES || p == Connected || (Layout(p).Some? && Layout(p).value.id in NUMERIC_IDS)
    ensures p in NAMES ==> Layout(p).None?
  {}

  lemma NumberIsShown(latest: Latest, p: Path)
    ensures var out := Numbers(latest);
            if p == Connected then p in out && out[p] == Fixed(1, 0)
            else if p in NAMES then p !in out
            else (p in out <==> Shown(latest, p).Some?) && (p in out ==> Some(out[p]) == Shown(latest, p))
  {
    EveryFieldListed(p);
    hide Blocks, Shown, Layout;
    BlocksShow(latest, NUMERIC_IDS, p);
  }

  lemma NumbersAreShown(latest: Latest)
    ensures ShowsAll(Numbers(latest), latest)
    ensures ProductName !in Numbers(latest) && CustomName !in Numbers(latest)
  {
    hide Numbers, Shown;
    forall p: Path { NumberIsShown(latest, p); }
    NumberIsShown(latest, ProductName);
    NumberIsShown(latest, CustomName);
    NumberIsShown(latest, Connected);
  }

  method AddLimits(frames: map<nat, bytes>, out: Values) returns (r: Values)
    ensures r == out + Block(LatestOf(frames), 0x351)
  {
    LimitsBlock(LatestOf(frames));
    hide Block, U16;
    r := out;
    if 0x351 in frames && |frames[0x351]| >= 8 {
      var limits := frames[0x351];
      r := r[MaxChargeVoltage := Fixed(U16(limits, 0), 1)];
      r := r[MaxChargeCurrent := Fixed(U16(limits, 2), 1)];
      r := r[MaxDischargeCurrent := Fixed(U16(limits, 4), 1)];
      r := r[BatteryLowVoltage := Fixed(U16(limits, 6), 1)];
    }
  }

  method AddCharge(frames: map<nat, bytes>, out: Values) returns (r: Values)
    ensures r == out + Block(LatestOf(frames), 0x355)
  {
    ChargeBlock(LatestOf(frames));
    hide Block, U16;
    r := out;
    if 0x355 in frames && |frames[0x355]| >= 4 {
      r := r[Soc := Fixed(U16(frames[0x355], 0), 0)];
      r := r[Soh := Fixed(U16(frames[0x355], 2), 0)];
    }
  }

  method AddMeasurement(frames: map<nat, bytes>, out: Values) returns (r: Values)
    ensures r == out + Block(LatestOf(frames), 0x356)
  {
    MeasurementBlock(LatestOf(frames));
    hide Block, U16, S16;
    r := out;
    if 0x356 in frames && |frames[0x356]| >= 6 {
      var measurement := frames[0x356];
      r := r[Voltage := Fixed(U16(measurement, 0), 2)];
      r := r[Current := Fixed(S16(measurement, 2), 1)];
      r := r[Temperature := Fixed(S16(measurement, 4), 1)];
    }
  }

  method AddStatus(frames: map<nat, bytes>, out: Values) returns (r: Values)
    ensures r == out + Block(LatestOf(frames), 0x359)
  {
    StatusBlock(LatestOf(frames));
    hide Block, Flag;
    r := out;
    if 0x359 in frames && |frames[0x359]| >= 5 {
      var status := frames[0x359];
      r := r[ModuleCount := Fixed(status[4], 0)];
      r := r[Alarm := Flag(status[0] != 0 || status[1] != 0 || status[2] != 0 || status[3] != 0)];
    }
  }

  method AddRequests(frames: map<nat, bytes>, out: Values) returns (r: Values)
    ensures r == out + Block(LatestOf(frames), 0x35C)
  {
    RequestsBlock(LatestOf(frames));
    hide Block, Flag;
    r := out;
    if 0x35C in frames && |frames[0x35C]| >= 1 {
      var flags := frames[0x35C];
      r := r[ChargeRequest := Flag(flags[0] / 128 % 2 == 1)];
      r := r[DischargeRequest := Flag(flags[0] / 64 % 2 == 1)];
    }
  }

  method AddCells(frames: map<nat, bytes>, out: Values) returns (r: Values)
    ensures r == out + Block(LatestOf(frames), 0x373)
  {
    CellsBlock(LatestOf(frames));
    hide Block, U16;
    r := out;
    if 0x373 in frames && |frames[0x373]| >= 8 && (U16(frames[0x373], 0) != 0 || U16(frames[0x373], 2) != 0) {
      var cells := frames[0x373];
      r := r[MinCellVoltage := Fixed(U16(cells, 0), 3)];
      r := r[MaxCellVoltage := Fixed(U16(cells, 2), 3)];
      r := r[MinCellTemperature := Fixed(U16(cells, 4) - 273, 0)];
      r := r[MaxCellTemperature := Fixed(U16(cells, 6) - 273, 0)];
    }
  }

  method AddCapacity(frames: map<nat, bytes>, out: Values) returns (r: Values)
    ensures r == out + Block(LatestOf(frames), 0x379)
  {
    CapacityBlock(LatestOf(frames));
    hide Block, U16;
    r := out;
    if 0x379 in frames && |frames[0x379]| >= 2 {
      r := r[Capacity := Fixed(U16(frames[0x379], 0), 0)];
    }
  }

  lemma NumbersStepByStep(latest: Latest)
    ensures Numbers(latest) == map[Connected := Fixed(1, 0)] + Block(latest, 0x351) + Block(latest, 0x355)
              + Block(latest, 0x356) + Block(latest, 0x359) + Block(latest, 0x35C) + Block(latest, 0x373)
              + Block(latest, 0x379)
  {
    hide *;
    var s1: seq<nat> := [0x351];
    var s2, s3 := s1 + [0x355], s1 + [0x355] + [0x356];
    var s4, s5, s6 := s3 + [0x359], s3 + [0x359] + [0x35C], s3 + [0x359] + [0x35C] + [0x373];
    FirstBlock(latest, 0x351);
    BlocksStep(latest, s1, 0x355);
    BlocksStep(latest, s2, 0x356);
    BlocksStep(latest, s3, 0x359);
    BlocksStep(latest, s4, 0x35C);
    BlocksStep(latest, s5, 0x373);
    BlocksStep(latest, s6, 0x379);
    assert s6 + [0x379] == NUMERIC_IDS by { AllNumeric(); }
    NumbersAre(latest);
  }

  lemma AllNumeric()
    ensures NUMERIC_IDS == [0x351] + [0x355] + [0x356] + [0x359] + [0x35C] + [0x373] + [0x379]
  {}

  lemma NumbersAre(latest: Latest)
    ensures Numbers(latest) == Blocks(latest, NUMERIC_IDS)
  {}

  lemma FirstBlock(latest: Latest, id: nat)
    ensures Blocks(latest, [id]) == map[Connected := Fixed(1, 0)] + Block(latest, id)
  {
    BlocksStep(latest, [], id);
    assert [] + [id] == [id];
  }

  /** The numeric part of the daemon's decoder, frame by frame. */
  method DecodePack(frames: map<nat, bytes>) returns (out: Values)
    ensures out == Numbers(LatestOf(frames)) && ShowsAll(out, LatestOf(frames))
  {
    hide Block, Numbers, ShowsAll;
    out := map[Connected := Fixed(1, 0)];
    out := AddLimits(frames, out);
    out := AddCharge(frames, out);
    out := AddMeasurement(frames, out);
    out := AddStatus(frames, out);
    out := AddRequests(frames, out);
    out := AddCells(frames, out);
    out := AddCapacity(frames, out);
    NumbersStepByStep(LatestOf(frames));
    NumbersAreShown(LatestOf(frames));
  }
}

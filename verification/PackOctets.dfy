/** The two feeds octet by octet: every number, section and alarm as the frames have it on the
    wire, and the frames of one pack worked through. */
module PackOctets {
  import opened Prelude
  import opened PackDecoder
  import opened CerboBank
  import opened PackPublisher
  import Rounding

  // ----- Words -----

  function Word(low: int, high: int): int { low + 256 * high }

  /** A word is its low octet and 256 times its high one; a signed one is the number between
      -32768 and 32767 that differs from it by a multiple of 65536. */
  lemma WordsInOctets(d: bytes, i: nat)
    requires i + 1 < |d|
    ensures U16(d, i) == Word(d[i], d[i + 1])
    ensures -32768 <= S16(d, i) <= 32767 && (S16(d, i) - Word(d[i], d[i + 1])) % 65536 == 0
  {}

  /** A number in two's complement of sixteen bits. */
  ghost predicate Reads(v: Option<Value>, low: byte, high: byte, decimals: nat) {
    && v.Some? && v.value.Fixed? && v.value.decimals == decimals
    && -32768 <= v.value.digits <= 32767 && (v.value.digits - Word(low, high)) % 65536 == 0
  }

  lemma SignedReads(d: bytes, i: nat, decimals: nat)
    requires i + 1 < |d|
    ensures Reads(Some(Fixed(S16(d, i), decimals)), d[i], d[i + 1], decimals)
  {
    WordsInOctets(d, i);
    hide S16, Word;
  }

  // ----- What every frame shows -----

  lemma LimitsInOctets(latest: Latest)
    ensures var d := Octets(latest, 0x351);
            if |d| >= 8 then
              && Shown(latest, MaxChargeVoltage) == Some(Fixed(Word(d[0], d[1]), 1))
              && Shown(latest, MaxChargeCurrent) == Some(Fixed(Word(d[2], d[3]), 1))
              && Shown(latest, MaxDischargeCurrent) == Some(Fixed(Word(d[4], d[5]), 1))
              && Shown(latest, BatteryLowVoltage) == Some(Fixed(Word(d[6], d[7]), 1))
            else forall p <- {MaxChargeVoltage, MaxChargeCurrent, MaxDischargeCurrent, BatteryLowVoltage} ::
              Shown(latest, p) == None
  {}

  lemma ChargeInOctets(latest: Latest)
    ensures var d := Octets(latest, 0x355);
            if |d| >= 4 then
              Shown(latest, Soc) == Some(Fixed(Word(d[0], d[1]), 0))
              && Shown(latest, Soh) == Some(Fixed(Word(d[2], d[3]), 0))
            else Shown(latest, Soc) == None && Shown(latest, Soh) == None
  {}

  /** Volts are unsigned; amperes and degrees have a sign. */
  lemma MeasurementInOctets(latest: Latest)
    ensures var d := Octets(latest, 0x356);
            if |d| >= 6 then
              && Shown(latest, Voltage) == Some(Fixed(Word(d[0], d[1]), 2))
              && Reads(Shown(latest, Current), d[2], d[3], 1)
              && Reads(Shown(latest, Temperature), d[4], d[5], 1)
            else Shown(latest, Voltage) == None && Shown(latest, Current) == None && Shown(latest, Temperature) == None
  {
    var d := Octets(latest, 0x356);
    if |d| >= 6 {
      WordsInOctets(d, 0);
      SignedReads(d, 2, 1);
      SignedReads(d, 4, 1);
    }
    hide U16, S16, Word, Reads;
  }

  lemma StatusInOctets(latest: Latest)
    ensures var d := Octets(latest, 0x359);
            if |d| >= 5 then
              && Shown(latest, ModuleCount) == Some(Fixed(d[4], 0))
              && Shown(latest, Alarm) == Some(Fixed(if d[0] == d[1] == d[2] == d[3] == 0 then 0 else 1, 0))
            else Shown(latest, ModuleCount) == None && Shown(latest, Alarm) == None
  {}

  /** The two highest bits of the first octet. */
  lemma RequestsInOctets(latest: Latest)
    ensures var d := Octets(latest, 0x35C);
            if |d| >= 1 then
              && Shown(latest, ChargeRequest) == Some(Fixed(if d[0] >= 128 then 1 else 0, 0))
              && Shown(latest, DischargeRequest) == Some(Fixed(if d[0] % 128 >= 64 then 1 else 0, 0))
            else Shown(latest, ChargeRequest) == None && Shown(latest, DischargeRequest) == None
  {}

  lemma ZeroWords(d: bytes)
    requires |d| >= 8
    ensures NoCells(d) <==> d[0] == d[1] == d[2] == d[3] == 0
  {}

  /** Cell extremes, unless all four octets of the voltages are zero; their temperatures are in
      kelvins. */
  lemma CellsInOctets(latest: Latest)
    ensures var d := Octets(latest, 0x373);
            if |d| >= 8 && !(d[0] == d[1] == d[2] == d[3] == 0) then
              && Shown(latest, MinCellVoltage) == Some(Fixed(Word(d[0], d[1]), 3))
              && Shown(latest, MaxCellVoltage) == Some(Fixed(Word(d[2], d[3]), 3))
              && Shown(latest, MinCellTemperature) == Some(Fixed(Word(d[4], d[5]) - 273, 0))
              && Shown(latest, MaxCellTemperature) == Some(Fixed(Word(d[6], d[7]) - 273, 0))
            else forall p <- {MinCellVoltage, MaxCellVoltage, MinCellTemperature, MaxCellTemperature} ::
              Shown(latest, p) == None
  {
    var d := Octets(latest, 0x373);
    if |d| >= 8 {
      ZeroWords(d);
      WordsInOctets(d, 0);
      WordsInOctets(d, 2);
      WordsInOctets(d, 4);
      WordsInOctets(d, 6);
    }
    hide NoCells, U16, S16, Word;
  }

  lemma CapacityInOctets(latest: Latest)
    ensures var d := Octets(latest, 0x379);
            Shown(latest, Capacity) == if |d| >= 2 then Some(Fixed(Word(d[0], d[1]), 0)) else None
  {}

  // ----- What the bank object says -----

  /** The charge on the Cerbo is the first word of its frame, and its capacity is constant. */
  lemma ChargeInBank(values: Values, frames: map<nat, bytes>)
    requires ShowsAll(values, LatestOf(frames))
    ensures var d, bank := Octets(LatestOf(frames), 0x355), BankOf(values, frames);
            && bank.soc == (if |d| >= 4 then Some(Fixed(Word(d[0], d[1]), 0)) else None)
            && bank.installedCapacity == 600
  {
    ChargeInOctets(LatestOf(frames));
    assert Soc in values <==> Shown(LatestOf(frames), Soc).Some?;
    assert Soc in values ==> Some(values[Soc]) == Shown(LatestOf(frames), Soc);
    hide Shown, Octets, Dc, Copied, PylonAlarms;
  }

  /** A product to the nearest hundred. */
  ghost predicate NearProduct(p: int, v: int, i: int) { -50 <= 100 * p - v * i <= 50 }

  /** Volts, amperes, degrees and watts. */
  lemma MeasurementInBank(values: Values, frames: map<nat, bytes>)
    requires ShowsAll(values, LatestOf(frames))
    ensures var d, dc := Octets(LatestOf(frames), 0x356), BankOf(values, frames).dc;
            if |d| >= 6 then
              && dc.voltage == Some(Fixed(Word(d[0], d[1]), 2))
              && Reads(dc.current, d[2], d[3], 1) && Reads(dc.temperature, d[4], d[5], 1)
              && dc.power.Some? && dc.power.value.Fixed? && dc.power.value.decimals == 1
              && NearProduct(dc.power.value.digits, Word(d[0], d[1]), dc.current.value.digits)
            else dc == DcSide(None, None, None, None)
  {
    hide Reads, Word, U16, S16, ShowsAll, BankOf, Octets;
    MeasurementRelays(values, frames);
    var d := Octets(LatestOf(frames), 0x356);
    if |d| >= 6 {
      WordsInOctets(d, 0);
      SignedReads(d, 2, 1);
      SignedReads(d, 4, 1);
      assert NearProduct(BankOf(values, frames).dc.power.value.digits, U16(d, 0), S16(d, 2));
    }
    assert NO_DC == DcSide(None, None, None, None);
    hide *;
  }

  /** Every entry of the limits by its name, and no other. */
  lemma InfoNamed(values: Values, frames: map<nat, bytes>)
    requires ShowsAll(values, LatestOf(frames))
    ensures var info, latest := BankOf(values, frames).info, LatestOf(frames);
            && Relays(info, "MaxChargeVoltage", latest, MaxChargeVoltage)
            && Relays(info, "MaxChargeCurrent", latest, MaxChargeCurrent)
            && Relays(info, "MaxDischargeCurrent", latest, MaxDischargeCurrent)
            && Within(info, {"MaxChargeVoltage", "MaxChargeCurrent", "MaxDischargeCurrent"})
  {
    TablesDistinct();
    hide Relays, ShowsAll, Copied, Dc, PylonAlarms, Within, NamesDistinct;
    CopiedWithin(values, INFO, {"MaxChargeVoltage", "MaxChargeCurrent", "MaxDischargeCurrent"});
    SectionRelays(values, INFO, LatestOf(frames), 0);
    SectionRelays(values, INFO, LatestOf(frames), 1);
    SectionRelays(values, INFO, LatestOf(frames), 2);
  }

  /** The same for the cells. */
  lemma SystemNamed(values: Values, frames: map<nat, bytes>)
    requires ShowsAll(values, LatestOf(frames))
    ensures var system, latest := BankOf(values, frames).system, LatestOf(frames);
            && Relays(system, "MinCellVoltage", latest, MinCellVoltage)
            && Relays(system, "MaxCellVoltage", latest, MaxCellVoltage)
            && Relays(system, "MinCellTemperature", latest, MinCellTemperature)
            && Relays(system, "MaxCellTemperature", latest, MaxCellTemperature)
            && Within(system, {"MinCellVoltage", "MaxCellVoltage", "MinCellTemperature", "MaxCellTemperature"})
  {
    TablesDistinct();
    hide Relays, ShowsAll, Copied, Dc, PylonAlarms, Within, NamesDistinct;
    CopiedWithin(values, SYSTEM, {"MinCellVoltage", "MaxCellVoltage", "MinCellTemperature", "MaxCellTemperature"});
    SectionRelays(values, SYSTEM, LatestOf(frames), 0);
    SectionRelays(values, SYSTEM, LatestOf(frames), 1);
    SectionRelays(values, SYSTEM, LatestOf(frames), 2);
    SectionRelays(values, SYSTEM, LatestOf(frames), 3);
  }

  /** And for the requests. */
  lemma IoNamed(values: Values, frames: map<nat, bytes>)
    requires ShowsAll(values, LatestOf(frames))
    ensures var io, latest := BankOf(values, frames).io, LatestOf(frames);
            && Relays(io, "AllowToCharge", latest, ChargeRequest)
            && Relays(io, "AllowToDischarge", latest, DischargeRequest)
            && Within(io, {"AllowToCharge", "AllowToDischarge"})
  {
    TablesDistinct();
    hide Relays, ShowsAll, Copied, Dc, PylonAlarms, Within, NamesDistinct;
    CopiedWithin(values, IO, {"AllowToCharge", "AllowToDischarge"});
    SectionRelays(values, IO, LatestOf(frames), 0);
    SectionRelays(values, IO, LatestOf(frames), 1);
  }

  /** A section, if there is one, has no names but these, and at least one of them. */
  ghost predicate Within(section: Option<Section>, names: set<string>) {
    match section
    case None => true
    case Some(s) => s.Keys <= names && s != map[]
  }

  lemma CopiedWithin(values: Values, table: CerboBank.Table, names: set<string>)
    requires forall k :: 0 <= k < |table| ==> table[k].1 in names
    ensures Within(CerboBank.Optional(Copied(values, table)), names)
  {
    forall name <- Copied(values, table) ensures name in names { var k := CopiedFrom(values, table, name); }
  }

  /** An alarm at level 2 when a bit of its protection octet is set, else at level 1 when the same
      bit of the warning octet is, else none. */
  ghost predicate Raised(level: nat, protection: bool, warning: bool) {
    level == if protection then 2 else if warning then 1 else 0
  }

  /** Which bit raises which alarm: bits 1 to 4 and 7 of the first octet protect and of the third
      warn; the charge current has bit 0 of the second, and no warning. */
  lemma AlarmBits(values: Values, frames: map<nat, bytes>)
    ensures var d := Octets(LatestOf(frames), 0x359);
            match BankOf(values, frames).alarms
            case None => |d| < 4
            case Some(a) =>
              && |d| >= 4
              && Raised(a.highVoltage, d[0] / 2 % 2 == 1, d[2] / 2 % 2 == 1)
              && Raised(a.lowVoltage, d[0] / 4 % 2 == 1, d[2] / 4 % 2 == 1)
              && Raised(a.highTemperature, d[0] / 8 % 2 == 1, d[2] / 8 % 2 == 1)
              && Raised(a.lowTemperature, d[0] / 16 % 2 == 1, d[2] / 16 % 2 == 1)
              && Raised(a.highDischargeCurrent, d[0] / 128 == 1, d[2] / 128 == 1)
              && Raised(a.highChargeCurrent, d[1] % 2 == 1, false)
  {
    hide Dc, Copied;
  }

  // ----- Names -----

  /** The octets of a text. */
  ghost predicate Spells(text: bytes, s: string) {
    |text| == |s| && forall i :: 0 <= i < |s| ==> text[i] == s[i] as int
  }

  lemma DefaultNames()
    ensures Spells(PYLO, "PYLO") && Spells(WATTCYCLE, "WattCycle")
  {}

  /** A name chosen among the texts of the frames, in order, or else a default. */
  ghost predicate Chosen(v: Value, texts: seq<bytes>, default: string) {
    && v.Text?
    && if texts == [] then Spells(v.text, default)
       else if texts[0] != [] then v.text == texts[0] else Chosen(v, texts[1..], default)
  }

  lemma ChosenOne(v: Value, a: bytes, default: string, text: bytes)
    requires Spells(text, default) && v == Text(if a != [] then a else text)
    ensures Chosen(v, [a], default)
  {
    hide Spells;
  }

  lemma ChosenTwo(v: Value, a: bytes, b: bytes, default: string, text: bytes)
    requires Spells(text, default) && v == Text(if a != [] then a else if b != [] then b else text)
    ensures Chosen(v, [a, b], default)
  {
    hide Spells;
    assert [a, b][1..] == [b];
    if a == [] { ChosenOne(v, b, default, text); }
  }

  /** The text of some frames' octets, none when there are no octets. */
  function TextOf(name: Namer, octets: bytes): bytes { if octets == [] then [] else name(octets) }

  /** The names of the daemon: the product name of its own frame, else the one of the two halves,
      else a default; the custom name of the halves, else a default. */
  lemma NamesChosen(name: Namer, frames: map<nat, bytes>)
    ensures var latest, values := LatestOf(frames), ValuesOf(name, frames);
            var own := TextOf(name, Octets(latest, 0x35E));
            var halves := TextOf(name, Octets(latest, 0x370) + Octets(latest, 0x371));
            && ProductName in values && CustomName in values
            && Chosen(values[ProductName], [own, halves], "PYLO") && Chosen(values[CustomName], [halves], "WattCycle")
  {
    NumbersHaveNoNames(name, frames);
    NamesAre(name, LatestOf(frames));
    hide *;
  }

  lemma NamesAre(name: Namer, latest: Latest)
    ensures var names := Names(name, latest);
            var own := TextOf(name, Octets(latest, 0x35E));
            var halves := TextOf(name, Octets(latest, 0x370) + Octets(latest, 0x371));
            && ProductName in names && CustomName in names
            && Chosen(names[ProductName], [own, halves], "PYLO") && Chosen(names[CustomName], [halves], "WattCycle")
  {
    DefaultNames();
    var own := TextOf(name, Octets(latest, 0x35E));
    var halves := TextOf(name, Octets(latest, 0x370) + Octets(latest, 0x371));
    var names := Names(name, latest);
    hide Octets, Spells, Chosen;
    ChosenOne(names[CustomName], halves, "WattCycle", WATTCYCLE);
    ChosenTwo(names[ProductName], own, halves, "PYLO", PYLO);
  }

  lemma NumbersHaveNoNames(name: Namer, frames: map<nat, bytes>)
    ensures var names, values := Names(name, LatestOf(frames)), ValuesOf(name, frames);
            && ProductName in names && CustomName in names && ProductName in values && CustomName in values
            && values[ProductName] == names[ProductName] && values[CustomName] == names[CustomName]
  {
    NumbersAreShown(LatestOf(frames));
    hide Numbers, ShowsAll, Octets, NameOf;
  }

  // ----- One pack worked through -----

  /** The frames of a pack at 53.20 V and 2.0 A whose voltage is too high. */
  const CYCLE: map<nat, bytes> := map[
    0x351 := [0x30, 0x02, 0xe8, 0x03, 0xe8, 0x03, 0xc0, 0x01],
    0x355 := [0x60, 0x00, 0x64, 0x00, 0x00, 0x00, 0x00, 0x00],
    0x356 := [0xc8, 0x14, 0x14, 0x00, 0xe9, 0x00, 0x00, 0x00],
    0x359 := [0x02, 0x01, 0x04, 0x00, 0x01, 0x50, 0x4e, 0x00],
    0x35C := [0xc0, 0x00, 0x00, 0x00, 0x00, 0x00, 0x00, 0x00],
    0x373 := [0xfc, 0x0c, 0x01, 0x0d, 0x28, 0x01, 0x28, 0x01],
    0x379 := [0x64, 0x00, 0x00, 0x00, 0x00, 0x00, 0x00, 0x00]]

  /** What is published of it. */
  function CycleValue(p: Path): Value {
    match p
    case ProductName => Text([80, 89, 76, 79])
    case CustomName => Text([87, 97, 116, 116, 67, 121, 99, 108, 101])
    case Connected => Fixed(1, 0)
    case MaxChargeVoltage => Fixed(560, 1)
    case MaxChargeCurrent => Fixed(1000, 1)
    case MaxDischargeCurrent => Fixed(1000, 1)
    case BatteryLowVoltage => Fixed(448, 1)
    case Soc => Fixed(96, 0)
    case Soh => Fixed(100, 0)
    case Voltage => Fixed(5320, 2)
    case Current => Fixed(20, 1)
    case Temperature => Fixed(233, 1)
    case ModuleCount => Fixed(1, 0)
    case Alarm => Fixed(1, 0)
    case ChargeRequest => Fixed(1, 0)
    case DischargeRequest => Fixed(1, 0)
    case MinCellVoltage => Fixed(3324, 3)
    case MaxCellVoltage => Fixed(3329, 3)
    case MinCellTemperature => Fixed(23, 0)
    case MaxCellTemperature => Fixed(23, 0)
    case Capacity => Fixed(100, 0)
  }

  const CYCLE_BANK := Bank(
    DcSide(Some(Fixed(1064, 1)), Some(Fixed(5320, 2)), Some(Fixed(20, 1)), Some(Fixed(233, 1))), 600,
    Some(Fixed(96, 0)),
    Some(map["MaxChargeVoltage" := Fixed(560, 1), "MaxChargeCurrent" := Fixed(1000, 1),
             "MaxDischargeCurrent" := Fixed(1000, 1)]),
    Some(map["MinCellVoltage" := Fixed(3324, 3), "MaxCellVoltage" := Fixed(3329, 3),
             "MinCellTemperature" := Fixed(23, 0), "MaxCellTemperature" := Fixed(23, 0)]),
    Some(map["AllowToCharge" := Fixed(1, 0), "AllowToDischarge" := Fixed(1, 0)]),
    Some(Alarms(2, 1, 0, 0, 0, 2)))

  function CycleLatest(): Latest { LatestOf(CYCLE) }

  lemma CycleOctets()
    ensures Octets(CycleLatest(), 0x351) == [0x30, 0x02, 0xe8, 0x03, 0xe8, 0x03, 0xc0, 0x01]
    ensures Octets(CycleLatest(), 0x355) == [0x60, 0x00, 0x64, 0x00, 0x00, 0x00, 0x00, 0x00]
    ensures Octets(CycleLatest(), 0x356) == [0xc8, 0x14, 0x14, 0x00, 0xe9, 0x00, 0x00, 0x00]
    ensures Octets(CycleLatest(), 0x359) == [0x02, 0x01, 0x04, 0x00, 0x01, 0x50, 0x4e, 0x00]
    ensures Octets(CycleLatest(), 0x35C) == [0xc0, 0x00, 0x00, 0x00, 0x00, 0x00, 0x00, 0x00]
    ensures Octets(CycleLatest(), 0x373) == [0xfc, 0x0c, 0x01, 0x0d, 0x28, 0x01, 0x28, 0x01]
    ensures Octets(CycleLatest(), 0x379) == [0x64, 0x00, 0x00, 0x00, 0x00, 0x00, 0x00, 0x00]
  {}

  lemma CycleLimits()
    ensures Shown(CycleLatest(), MaxChargeVoltage) == Some(CycleValue(MaxChargeVoltage))
    ensures Shown(CycleLatest(), MaxChargeCurrent) == Some(CycleValue(MaxChargeCurrent))
    ensures Shown(CycleLatest(), MaxDischargeCurrent) == Some(CycleValue(MaxDischargeCurrent))
    ensures Shown(CycleLatest(), BatteryLowVoltage) == Some(CycleValue(BatteryLowVoltage))
  {
    CycleOctets();
    LimitsInOctets(CycleLatest());
    hide Octets, CycleLatest, Shown;
  }

  lemma CycleCharge()
    ensures Shown(CycleLatest(), Soc) == Some(CycleValue(Soc))
    ensures Shown(CycleLatest(), Soh) == Some(CycleValue(Soh))
  {
    CycleOctets();
    ChargeInOctets(CycleLatest());
    hide Octets, CycleLatest, Shown;
  }

  lemma CycleMeasurement()
    ensures Shown(CycleLatest(), Voltage) == Some(CycleValue(Voltage))
    ensures Shown(CycleLatest(), Current) == Some(CycleValue(Current))
    ensures Shown(CycleLatest(), Temperature) == Some(CycleValue(Temperature))
  {
    CycleOctets();
    MeasurementShows(CycleLatest());
    CycleWords();
    hide Octets, CycleLatest, Shown, U16, S16;
  }

  lemma MeasurementShows(latest: Latest)
    requires |Octets(latest, 0x356)| >= 6
    ensures var d := Octets(latest, 0x356);
            && Shown(latest, Voltage) == Some(Fixed(U16(d, 0), 2))
            && Shown(latest, Current) == Some(Fixed(S16(d, 2), 1))
            && Shown(latest, Temperature) == Some(Fixed(S16(d, 4), 1))
  {
    hide U16, S16;
  }

  lemma CycleWords()
    ensures var d: bytes := [0xc8, 0x14, 0x14, 0x00, 0xe9, 0x00, 0x00, 0x00];
            U16(d, 0) == 5320 && S16(d, 2) == 20 && S16(d, 4) == 233
  {}

  lemma CycleStatus()
    ensures Shown(CycleLatest(), ModuleCount) == Some(CycleValue(ModuleCount))
    ensures Shown(CycleLatest(), Alarm) == Some(CycleValue(Alarm))
  {
    CycleOctets();
    StatusInOctets(CycleLatest());
    hide Octets, CycleLatest, Shown;
  }

  lemma CycleRequests()
    ensures Shown(CycleLatest(), ChargeRequest) == Some(CycleValue(ChargeRequest))
    ensures Shown(CycleLatest(), DischargeRequest) == Some(CycleValue(DischargeRequest))
  {
    CycleOctets();
    RequestsInOctets(CycleLatest());
    hide Octets, CycleLatest, Shown;
  }

  lemma CycleCells()
    ensures Shown(CycleLatest(), MinCellVoltage) == Some(CycleValue(MinCellVoltage))
    ensures Shown(CycleLatest(), MaxCellVoltage) == Some(CycleValue(MaxCellVoltage))
    ensures Shown(CycleLatest(), MinCellTemperature) == Some(CycleValue(MinCellTemperature))
    ensures Shown(CycleLatest(), MaxCellTemperature) == Some(CycleValue(MaxCellTemperature))
  {
    CycleOctets();
    CellsInOctets(CycleLatest());
    hide Octets, CycleLatest, Shown;
  }

  lemma CycleCapacity()
    ensures Shown(CycleLatest(), Capacity) == Some(CycleValue(Capacity))
  {
    CycleOctets();
    CapacityInOctets(CycleLatest());
    hide Octets, CycleLatest, Shown;
  }

  lemma CycleInfo(values: Values)
    requires IsCycle(values)
    ensures CerboBank.Optional(Copied(values, INFO)) == CYCLE_BANK.info
  {
    assert INFO[..2][..1] == INFO[..1] && INFO[..1][..0] == [];
    assert values[MaxChargeVoltage] == Fixed(560, 1) && values[MaxChargeCurrent] == Fixed(1000, 1);
    assert values[MaxDischargeCurrent] == Fixed(1000, 1);
    hide IsCycle;
    assert Copied(values, INFO[..1]) == map["MaxChargeVoltage" := Fixed(560, 1)];
    assert "MaxChargeVoltage" in Copied(values, INFO);
  }

  lemma CycleSystem(values: Values)
    requires IsCycle(values)
    ensures CerboBank.Optional(Copied(values, SYSTEM)) == CYCLE_BANK.system
  {
    assert SYSTEM[..3][..2] == SYSTEM[..2] && SYSTEM[..2][..1] == SYSTEM[..1] && SYSTEM[..1][..0] == [];
    assert values[MinCellVoltage] == Fixed(3324, 3) && values[MaxCellVoltage] == Fixed(3329, 3);
    assert values[MinCellTemperature] == Fixed(23, 0) && values[MaxCellTemperature] == Fixed(23, 0);
    hide IsCycle;
    assert Copied(values, SYSTEM[..1]) == map["MinCellVoltage" := Fixed(3324, 3)];
    assert Copied(values, SYSTEM[..2]) == map["MinCellVoltage" := Fixed(3324, 3), "MaxCellVoltage" := Fixed(3329, 3)];
    assert "MinCellVoltage" in Copied(values, SYSTEM);
  }

  lemma CycleIo(values: Values)
    requires IsCycle(values)
    ensures CerboBank.Optional(Copied(values, IO)) == CYCLE_BANK.io
  {
    assert IO[..1][..0] == [];
    assert values[ChargeRequest] == Fixed(1, 0) && values[DischargeRequest] == Fixed(1, 0);
    hide IsCycle;
    assert Copied(values, IO[..1]) == map["AllowToCharge" := Fixed(1, 0)];
    assert "AllowToCharge" in Copied(values, IO);
  }

  lemma CyclePower()
    ensures Power(Fixed(5320, 2), Fixed(20, 1)) == Fixed(1064, 1)
  {
    CentivoltsDeciamps(5320, 20);
    Rounding.RoundWhole(1064);
  }

  lemma CycleAlarms()
    ensures PylonAlarms(CYCLE[0x359]) == Alarms(2, 1, 0, 0, 0, 2)
  {}

  lemma CycleNames(name: Namer)
    ensures Names(name, CycleLatest())
            == map[ProductName := CycleValue(ProductName), CustomName := CycleValue(CustomName)]
  {
    DefaultNames();
    assert Octets(CycleLatest(), 0x370) == Octets(CycleLatest(), 0x371) == Octets(CycleLatest(), 0x35E) == [];
    hide Octets;
  }

  lemma CycleNumber(values: Values, p: Path)
    requires ShowsAll(values, CycleLatest()) && p !in NAMES
    ensures p in values && values[p] == CycleValue(p)
  {
    hide Shown, CycleLatest, CycleValue;
    match p {
      case MaxChargeVoltage | MaxChargeCurrent | MaxDischargeCurrent | BatteryLowVoltage => CycleLimits();
      case Soc | Soh => CycleCharge();
      case Voltage | Current | Temperature => CycleMeasurement();
      case ModuleCount | Alarm => CycleStatus();
      case ChargeRequest | DischargeRequest => CycleRequests();
      case MinCellVoltage | MaxCellVoltage | MinCellTemperature | MaxCellTemperature => CycleCells();
      case Capacity => CycleCapacity();
      case Connected => ConnectedValue();
      case ProductName | CustomName =>
    }
  }

  lemma ConnectedValue()
    ensures CycleValue(Connected) == Fixed(1, 0)
  {}

  /** Every value of the pack is in, as listed. */
  ghost predicate IsCycle(values: Values) { forall p: Path :: p in values && values[p] == CycleValue(p) }

  lemma CycleValues(name: Namer)
    ensures IsCycle(ValuesOf(name, CYCLE))
  {
    CycleNames(name);
    ValuesShow(name, CYCLE);
    NumbersAreShown(CycleLatest());
    var values := ValuesOf(name, CYCLE);
    hide Names, Numbers, ShowsAll;
    assert CycleLatest() == LatestOf(CYCLE);
    forall p: Path ensures p in values && values[p] == CycleValue(p) {
      if p in NAMES { assert p !in Numbers(CycleLatest()); } else { CycleNumber(values, p); }
    }
  }

  lemma CycleBank(values: Values)
    requires IsCycle(values)
    ensures BankOf(values, CYCLE) == CYCLE_BANK
  {
    assert Soc in values && values[Soc] == CycleValue(Soc) == Fixed(96, 0);
    CycleInfo(values);
    CycleSystem(values);
    CycleIo(values);
    CycleDc(values);
    CycleAlarms();
    BankParts(values, CYCLE);
    assert 0x359 in CYCLE && |CYCLE[0x359]| >= 4;
    hide Copied, Dc, PylonAlarms, BankOf, CerboBank.Optional, IsCycle, CycleValue;
  }

  lemma BankParts(values: Values, frames: map<nat, bytes>)
    ensures BankOf(values, frames)
            == Bank(Dc(values), 600, if Soc in values then Some(values[Soc]) else None,
                    CerboBank.Optional(Copied(values, INFO)), CerboBank.Optional(Copied(values, SYSTEM)),
                    CerboBank.Optional(Copied(values, IO)),
                    if 0x359 in frames && |frames[0x359]| >= 4 then Some(PylonAlarms(frames[0x359])) else None)
  {
    hide Copied, Dc, PylonAlarms, CerboBank.Optional;
  }

  lemma CycleDc(values: Values)
    requires IsCycle(values)
    ensures Dc(values)
            == DcSide(Some(Fixed(1064, 1)), Some(Fixed(5320, 2)), Some(Fixed(20, 1)), Some(Fixed(233, 1)))
  {
    CyclePower();
    hide Power;
    assert values[Voltage] == CycleValue(Voltage) && values[Current] == CycleValue(Current);
    assert values[Temperature] == CycleValue(Temperature);
  }

  /** Decoded and published: every value of the pack for the coach, and the object for the Cerbo. */
  method PublishCycle(name: Namer) returns (values: Values, bank: Bank)
    ensures IsCycle(values) && bank == CYCLE_BANK
  {
    CycleValues(name);
    hide *;
    values := Decode(name, CYCLE);
    CycleBank(values);
    bank := CerboPayload(values, CYCLE);
  }

  /** The same pack discharging at 10 A: both the current and the power are negative. */
  lemma Discharging(values: Values, frames: map<nat, bytes>)
    requires ShowsAll(values, LatestOf(frames)) && 0x356 in frames
    requires frames[0x356] == [0x88, 0x13, 0x9c, 0xff, 0xf6, 0xff]
    ensures BankOf(values, frames).dc
            == DcSide(Some(Fixed(-5000, 1)), Some(Fixed(5000, 2)), Some(Fixed(-100, 1)), Some(Fixed(-10, 1)))
  {
    MeasurementShown(values, LatestOf(frames));
    DischargingWords();
    assert Octets(LatestOf(frames), 0x356) == frames[0x356];
    hide ShowsAll, Shown, Octets, U16, S16, Power, Copied, PylonAlarms;
  }

  lemma DischargingWords()
    ensures var d: bytes := [0x88, 0x13, 0x9c, 0xff, 0xf6, 0xff];
            U16(d, 0) == 5000 && S16(d, 2) == -100 && S16(d, 4) == -10
    ensures Power(Fixed(5000, 2), Fixed(-100, 1)) == Fixed(-5000, 1)
  {
    CentivoltsDeciamps(5000, -100);
    Rounding.RoundWhole(-5000);
    assert (5000 * -100) as real / 100.0 == (-5000) as real;
    hide ToReal, Rounding.Round;
  }
}

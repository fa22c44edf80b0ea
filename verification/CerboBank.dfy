/** The one object the daemon publishes to the Cerbo, built from the decoded values and
    the latest frames. */
module CerboBank {
  import opened Prelude
  import opened PackDecoder
  import Rounding

  const INSTALLED_CAPACITY_AH := 600

  datatype Alarms = Alarms(highVoltage: nat, lowVoltage: nat, highTemperature: nat, lowTemperature: nat,
                           highDischargeCurrent: nat, highChargeCurrent: nat)

  type Section = map<string, Value>

  datatype DcSide = DcSide(power: Option<Value>, voltage: Option<Value>, current: Option<Value>,
                           temperature: Option<Value>)

  const NO_DC := DcSide(None, None, None, None)

  datatype Bank = Bank(dc: DcSide, installedCapacity: nat, soc: Option<Value>, info: Option<Section>,
                       system: Option<Section>, io: Option<Section>, alarms: Option<Alarms>)

  const EMPTY := Bank(NO_DC, INSTALLED_CAPACITY_AH, None, None, None, None, None)

  // ----- Sections copied from the values -----

  type Table = seq<(Path, string)>

  const INFO: Table := [(MaxChargeVoltage, "MaxChargeVoltage"), (MaxChargeCurrent, "MaxChargeCurrent"),
                        (MaxDischargeCurrent, "MaxDischargeCurrent")]
  const SYSTEM: Table := [(MinCellVoltage, "MinCellVoltage"), (MaxCellVoltage, "MaxCellVoltage"),
                          (MinCellTemperature, "MinCellTemperature"), (MaxCellTemperature, "MaxCellTemperature")]
  const IO: Table := [(ChargeRequest, "AllowToCharge"), (DischargeRequest, "AllowToDischarge")]

  ghost predicate NamesDistinct(table: Table) {
    forall i, j | 0 <= i < j < |table| :: table[i].1 != table[j].1
  }

  /** The section of a table: the values it lists, under its names. */
  function Copied(values: Values, table: Table): Section {
    if table == [] then map[]
    else
      var front, row := Copied(values, table[..|table| - 1]), table[|table| - 1];
      if row.0 in values then front[row.1 := values[row.0]] else front
  }

  function Optional(s: Section): Option<Section> { if s == map[] then None else Some(s) }

  /** A section agrees with a table when it has exactly the listed values, and is absent
      when there are none. */
  ghost predicate Lists(section: Section, values: Values, table: Table) {
    && (forall row <- table :: row.1 in section <==> row.0 in values)
    && (forall row <- table :: row.0 in values ==> row.1 in section && section[row.1] == values[row.0])
    && (forall name <- section :: exists row <- table :: row.1 == name)
  }

  lemma {:induction false} CopiedAt(values: Values, table: Table, k: nat)
    requires NamesDistinct(table) && k < |table|
    ensures var s := Copied(values, table);
            && (table[k].1 in s <==> table[k].0 in values)
            && (table[k].0 in values ==> s[table[k].1] == values[table[k].0])
  {
    var n := |table| - 1;
    if k < n {
      CopiedAt(values, table[..n], k);
      assert table[..n][k] == table[k] && table[k].1 != table[n].1;
    } else {
      forall name <- Copied(values, table[..n])
        ensures name != table[n].1
      {
        var j := CopiedFrom(values, table[..n], name);
        assert table[..n][j] == table[j];
      }
    }
  }

  lemma {:induction false} CopiedFrom(values: Values, table: Table, name: string) returns (k: nat)
    requires name in Copied(values, table)
    ensures k < |table| && table[k].1 == name
  {
    var n := |table| - 1;
    if table[n].1 == name { k := n; } else { k := CopiedFrom(values, table[..n], name); }
  }

  lemma CopiedLists(values: Values, table: Table)
    requires NamesDistinct(table)
    ensures Lists(Copied(values, table), values, table)
  {
    hide Copied;
    forall row <- table
      ensures row.1 in Copied(values, table) <==> row.0 in values
      ensures row.0 in values ==> row.1 in Copied(values, table) && Copied(values, table)[row.1] == values[row.0]
    {
      var k :| 0 <= k < |table| && table[k] == row;
      CopiedAt(values, table, k);
    }
    forall name <- Copied(values, table)
      ensures exists row <- table :: row.1 == name
    {
      var k := CopiedFrom(values, table, name);
      assert table[k] in table;
    }
  }

  lemma TablesDistinct()
    ensures NamesDistinct(INFO) && NamesDistinct(SYSTEM) && NamesDistinct(IO)
  {}

  method CopySection(values: Values, table: Table) returns (section: Section)
    ensures section == Copied(values, table)
  {
    section := map[];
    for i := 0 to |table|
      invariant section == Copied(values, table[..i])
    {
      assert table[..i + 1][..i] == table[..i];
      if table[i].0 in values { section := section[table[i].1 := values[table[i].0]]; }
    }
    assert table[..|table|] == table;
  }

  // ----- Power -----

  function Tens(n: nat): (t: int)
    ensures t > 0
  {
    if n == 0 then 1 else 10 * Tens(n - 1)
  }

  function ToReal(v: Value): real
    requires v.Fixed?
  {
    v.digits as real / Tens(v.decimals) as real
  }

  /** Power in watts, to one decimal. */
  function Power(voltage: Value, current: Value): Value
    requires voltage.Fixed? && current.Fixed?
  {
    Fixed(Rounding.Round(ToReal(voltage) * ToReal(current) * 10.0), 1)
  }

  lemma CentivoltsDeciamps(v: int, i: int)
    ensures ToReal(Fixed(v, 2)) * ToReal(Fixed(i, 1)) * 10.0 == (v * i) as real / 100.0
  {
    assert Tens(2) == 100 by { assert Tens(1) == 10; }
    assert Tens(1) == 10;
    var a, b := v as real, i as real;
    assert a / 100.0 * (b / 10.0) * 10.0 == a * b / 100.0;
    assert a * b == (v * i) as real;
  }

  lemma SignOfProduct(v: int, i: int)
    requires v >= 0
    ensures v * i > 0 ==> i > 0
    ensures v * i < 0 ==> i < 0
  {
    if i > 0 { assert v * i >= 0; } else if i < 0 { assert v * -i >= 0; }
  }

  /** Shown to within half a unit, and never on the wrong side of zero: a pack that charges
      is not shown discharging. */
  lemma PowerNear(v: int, i: int)
    requires v >= 0
    ensures var p := Power(Fixed(v, 2), Fixed(i, 1)).digits;
            -50 <= 100 * p - v * i <= 50 && (p > 0 ==> i > 0) && (p < 0 ==> i < 0)
  {
    CentivoltsDeciamps(v, i);
    var x := (v * i) as real / 100.0;
    var p := Rounding.Round(x);
    Rounding.RoundNear(x);
    assert -50.0 <= 100.0 * p as real - (v * i) as real <= 50.0;
    assert (100 * p - v * i) as real == 100.0 * p as real - (v * i) as real;
    Rounding.RoundWhole(0);
    if p > 0 { if x <= 0.0 { Rounding.RoundMonotone(x, 0.0); } }
    if p < 0 { if x >= 0.0 { Rounding.RoundMonotone(0.0, x); } }
    SignOfProduct(v, i);
  }

  // ----- Alarms -----

  predicate BitOf(octet: byte, weight: nat)
    requires weight > 0
  {
    octet / weight % 2 == 1
  }

  function AlarmLevel(protection: bool, warning: bool): nat {
    if protection then 2 else if warning then 1 else 0
  }

  /** Protection outranks warning; the charge current has a protection bit only. */
  function PylonAlarms(status: bytes): Alarms
    requires |status| >= 4
  {
    var protect, extra, warning := status[0], status[1], status[2];
    Alarms(AlarmLevel(BitOf(protect, 2), BitOf(warning, 2)), AlarmLevel(BitOf(protect, 4), BitOf(warning, 4)),
           AlarmLevel(BitOf(protect, 8), BitOf(warning, 8)), AlarmLevel(BitOf(protect, 16), BitOf(warning, 16)),
           AlarmLevel(BitOf(protect, 128), BitOf(warning, 128)), AlarmLevel(BitOf(extra, 1), false))
  }

  // ----- The object -----

  predicate Numeric(values: Values, p: Path) { p in values && values[p].Fixed? }

  function Given(values: Values, p: Path): Option<Value> {
    if Numeric(values, p) then Some(values[p]) else None
  }

  function Dc(values: Values): DcSide {
    DcSide(if Numeric(values, Voltage) && Numeric(values, Current) then Some(Power(values[Voltage], values[Current]))
           else None,
           Given(values, Voltage), Given(values, Current), Given(values, Temperature))
  }

  function BankOf(values: Values, frames: map<nat, bytes>): Bank {
    Bank(Dc(values), INSTALLED_CAPACITY_AH,
         if Soc in values then Some(values[Soc]) else None,
         Optional(Copied(values, INFO)), Optional(Copied(values, SYSTEM)), Optional(Copied(values, IO)),
         if 0x359 in frames && |frames[0x359]| >= 4 then Some(PylonAlarms(frames[0x359])) else None)
  }

  method CerboPayload(values: Values, frames: map<nat, bytes>) returns (payload: Bank)
    ensures payload == BankOf(values, frames)
  {
    hide Copied, Power, PylonAlarms;
    var dc := NO_DC;
    if Numeric(values, Voltage) && Numeric(values, Current) {
      dc := dc.(power := Some(Power(values[Voltage], values[Current])));
    }
    if Numeric(values, Voltage) { dc := dc.(voltage := Some(values[Voltage])); }
    if Numeric(values, Current) { dc := dc.(current := Some(values[Current])); }
    if Numeric(values, Temperature) { dc := dc.(temperature := Some(values[Temperature])); }
    payload := EMPTY.(dc := dc);
    if Soc in values { payload := payload.(soc := Some(values[Soc])); }
    var info := CopySection(values, INFO);
    if info != map[] { payload := payload.(info := Some(info)); }
    var system := CopySection(values, SYSTEM);
    if system != map[] { payload := payload.(system := Some(system)); }
    var io := CopySection(values, IO);
    if ChargeRequest in values || DischargeRequest in values { payload := payload.(io := Some(io)); }
    IoPresent(values);
    if 0x359 in frames && |frames[0x359]| >= 4 { payload := payload.(alarms := Some(PylonAlarms(frames[0x359]))); }
  }

  lemma IoPresent(values: Values)
    ensures Copied(values, IO) != map[] <==> ChargeRequest in values || DischargeRequest in values
  {
    TablesDistinct();
    CopiedLists(values, IO);
    hide Copied;
    assert IO[0] in IO && IO[1] in IO;
    if Copied(values, IO) != map[] {
      var name :| name in Copied(values, IO);
      var row :| row in IO && row.1 == name;
    }
  }

  // ----- What the object says about the pack -----

  /** One entry of a section stands for a path of the protocol. */
  ghost predicate Relays(section: Option<Section>, name: string, latest: Latest, p: Path) {
    match section
    case None => Shown(latest, p).None?
    case Some(s) => (name in s <==> Shown(latest, p).Some?) && (name in s ==> Some(s[name]) == Shown(latest, p))
  }

  lemma SectionRelays(values: Values, table: Table, latest: Latest, k: nat)
    requires ShowsAll(values, latest) && NamesDistinct(table) && k < |table|
    requires table[k].0 !in NAMES && table[k].0 != Connected
    ensures Relays(Optional(Copied(values, table)), table[k].1, latest, table[k].0)
  {
    hide Shown, Copied;
    CopiedAt(values, table, k);
  }

  /** Every entry of the three copied sections stands for its path of the protocol: there
      with that value, or absent. A section with no entries is left out. */
  lemma SectionsRelay(values: Values, frames: map<nat, bytes>)
    requires ShowsAll(values, LatestOf(frames))
    ensures var bank, latest := BankOf(values, frames), LatestOf(frames);
            && (forall k | 0 <= k < |INFO| :: Relays(bank.info, INFO[k].1, latest, INFO[k].0))
            && (forall k | 0 <= k < |SYSTEM| :: Relays(bank.system, SYSTEM[k].1, latest, SYSTEM[k].0))
            && (forall k | 0 <= k < |IO| :: Relays(bank.io, IO[k].1, latest, IO[k].0))
            && bank.info != Some(map[]) && bank.system != Some(map[]) && bank.io != Some(map[])
  {
    var latest := LatestOf(frames);
    TablesDistinct();
    hide ShowsAll, Relays, Copied, LatestOf, NamesDistinct, Dc;
    forall k | 0 <= k < |INFO| ensures Relays(BankOf(values, frames).info, INFO[k].1, latest, INFO[k].0) {
      SectionRelays(values, INFO, latest, k);
    }
    forall k | 0 <= k < |SYSTEM| ensures Relays(BankOf(values, frames).system, SYSTEM[k].1, latest, SYSTEM[k].0) {
      SectionRelays(values, SYSTEM, latest, k);
    }
    forall k | 0 <= k < |IO| ensures Relays(BankOf(values, frames).io, IO[k].1, latest, IO[k].0) {
      SectionRelays(values, IO, latest, k);
    }
  }

  lemma MeasurementShown(values: Values, latest: Latest)
    requires ShowsAll(values, latest)
    ensures var d := Octets(latest, 0x356);
            && (forall p | p in {Voltage, Current, Temperature} :: p in values <==> |d| >= 6)
            && (|d| >= 6 ==>
                  && values[Voltage] == Fixed(U16(d, 0), 2) && values[Current] == Fixed(S16(d, 2), 1)
                  && values[Temperature] == Fixed(S16(d, 4), 1) && U16(d, 0) >= 0)
  {
    assert forall p | p in {Voltage, Current, Temperature} ::
        (p in values <==> Shown(latest, p).Some?) && (p in values ==> Some(values[p]) == Shown(latest, p));
  }

  /** Volts, amperes and watts appear together, exactly when the measurement frame is whole,
      and the watts are the product of the other two to the nearest tenth. */
  lemma MeasurementRelays(values: Values, frames: map<nat, bytes>)
    requires ShowsAll(values, LatestOf(frames))
    ensures var dc, d := BankOf(values, frames).dc, Octets(LatestOf(frames), 0x356);
            && (|d| < 6 ==> dc == NO_DC)
            && (|d| >= 6 ==>
                  && dc.voltage == Some(Fixed(U16(d, 0), 2)) && dc.current == Some(Fixed(S16(d, 2), 1))
                  && dc.temperature == Some(Fixed(S16(d, 4), 1))
                  && dc.power.Some? && dc.power.value.Fixed? && dc.power.value.decimals == 1
                  && var p := dc.power.value.digits;
                     -50 <= 100 * p - U16(d, 0) * S16(d, 2) <= 50
                     && (p > 0 ==> S16(d, 2) > 0) && (p < 0 ==> S16(d, 2) < 0))
  {
    var d := Octets(LatestOf(frames), 0x356);
    MeasurementShown(values, LatestOf(frames));
    if |d| >= 6 { PowerNear(U16(d, 0), S16(d, 2)); }
    hide U16, S16, ShowsAll, Shown, Copied, PylonAlarms, Octets, Rounding.Round;
  }

  lemma AnyBit(octet: byte, weight: nat)
    requires weight > 0 && BitOf(octet, weight)
    ensures octet != 0
  {}

  const QUIET := Alarms(0, 0, 0, 0, 0, 0)

  /** The two feeds disagree on how long a status frame must be. An alarm on the Cerbo comes
      with the alarm flag of the coach feed exactly when the frame has its fifth octet. */
  lemma AlarmsRaiseFlag(values: Values, frames: map<nat, bytes>)
    requires ShowsAll(values, LatestOf(frames))
    ensures var bank := BankOf(values, frames);
            && (bank.alarms.Some? <==> 0x359 in frames && |frames[0x359]| >= 4)
            && (bank.alarms.Some? && bank.alarms.value != QUIET ==>
                  (Alarm in values && values[Alarm] == Fixed(1, 0) <==> |frames[0x359]| >= 5))
  {
    hide Dc, Copied, BitOf;
    assert Alarm in values <==> Shown(LatestOf(frames), Alarm).Some?;
    assert Alarm in values ==> Some(values[Alarm]) == Shown(LatestOf(frames), Alarm);
    forall octet: byte, weight: nat | weight > 0 && BitOf(octet, weight) ensures octet != 0 { AnyBit(octet, weight); }
  }

  /** A frame of four octets that reports a high voltage: the Cerbo has the alarm, the coach
      has no flag at all. */
  lemma AlarmWithoutFlag()
    ensures var frames: map<nat, bytes> := map[0x359 := [2, 0, 0, 0]];
            var values := Numbers(LatestOf(frames));
            ShowsAll(values, LatestOf(frames))
            && BankOf(values, frames).alarms == Some(Alarms(2, 0, 0, 0, 0, 0)) && Alarm !in values
  {
    var frames: map<nat, bytes> := map[0x359 := [2, 0, 0, 0]];
    NumbersAreShown(LatestOf(frames));
    assert Shown(LatestOf(frames), Alarm) == None;
    HighVoltageOnly();
    hide Dc, Copied, PylonAlarms, Numbers;
  }

  lemma HighVoltageOnly()
    ensures PylonAlarms([2, 0, 0, 0]) == Alarms(2, 0, 0, 0, 0, 0)
  {}
}

/** The relay: topics of six packs in, one object for the whole bank out. */
module BankRelay {
  import opened Prelude
  import Rounding

  const PACK_COUNT := 6
  const FRESH := 180.0
  const HEARTBEAT := 30.0
  const PACK_CURRENT := 100.0

  datatype Json =
    | Null
    | Bool(flag: bool)
    | Number(value: real)
    | String(text: string)
    | List(items: seq<Json>)
    | Object(members: map<string, Json>)

  /** Reading a number out of a string. */
  type ParseFloat = string -> Option<real>

  /** Reading a whole number out of a string. */
  type ParseInt = string -> Option<int>

  function AsNumber(parse: ParseFloat, v: Json): Option<real> {
    match v
    case Number(x) => Some(x)
    case String(s) => parse(s)
    case _ => None
  }

  type Pack = map<string, Json>

  function Num(parse: ParseFloat, f: Pack, key: string): Option<real> {
    if key in f then AsNumber(parse, f[key]) else None
  }

  // ----- Lists of numbers -----

  function MinOf(s: seq<real>): (m: real)
    requires s != []
    ensures m in s && forall x <- s :: m <= x
  {
    if |s| == 1 then s[0]
    else
      assert s == [s[0]] + s[1..];
      var rest := MinOf(s[1..]);
      if s[0] <= rest then s[0] else rest
  }

  function MaxOf(s: seq<real>): (m: real)
    requires s != []
    ensures m in s && forall x <- s :: x <= m
  {
    if |s| == 1 then s[0]
    else
      assert s == [s[0]] + s[1..];
      var rest := MaxOf(s[1..]);
      if s[0] >= rest then s[0] else rest
  }

  function SumOf(s: seq<real>): real {
    if s == [] then 0.0 else s[0] + SumOf(s[1..])
  }

  lemma {:induction false} SumBetween(s: seq<real>, low: real, high: real)
    requires forall i :: 0 <= i < |s| ==> low <= s[i] <= high
    ensures low * |s| as real <= SumOf(s) <= high * |s| as real
  {
    if s == [] {
      assert |s| as real == 0.0;
    } else {
      SumBetween(s[1..], low, high);
      var n := |s[1..]| as real;
      assert |s| as real == n + 1.0;
      assert low * (n + 1.0) == low * n + low && high * (n + 1.0) == high * n + high;
    }
  }

  function Mean(s: seq<real>): real
    requires s != []
  {
    SumOf(s) / |s| as real
  }

  lemma DivideBounds(sum: real, n: real, low: real, high: real)
    requires n > 0.0 && low * n <= sum <= high * n
    ensures low <= sum / n <= high
  {
    var q := sum / n;
    assert q * n == sum;
    Rounding.ScaleOrder(low, q, n);
    Rounding.ScaleOrder(q, high, n);
  }

  lemma ElementsBetween(s: seq<real>)
    requires s != []
    ensures forall i :: 0 <= i < |s| ==> MinOf(s) <= s[i] <= MaxOf(s)
  {
    hide MinOf, MaxOf;
    assert forall i :: 0 <= i < |s| ==> s[i] in s;
  }

  lemma MeanIs(s: seq<real>)
    requires s != []
    ensures Mean(s) == SumOf(s) / |s| as real
  {}

  lemma MeanBetween(s: seq<real>)
    requires s != []
    ensures MinOf(s) <= Mean(s) <= MaxOf(s)
  {
    hide *;
    ElementsBetween(s);
    SumBetween(s, MinOf(s), MaxOf(s));
    MeanIs(s);
    DivideBounds(SumOf(s), |s| as real, MinOf(s), MaxOf(s));
  }

  /** A rounded mean stays on the right side of the smallest and of the largest reading when
      that reading is itself a multiple of the unit. */
  lemma RoundedMeanBetween(s: seq<real>, scale: int)
    requires s != [] && scale > 0
    ensures Rounding.MultipleOf(MinOf(s), scale) ==> MinOf(s) <= Rounding.RoundTo(Mean(s), scale)
    ensures Rounding.MultipleOf(MaxOf(s), scale) ==> Rounding.RoundTo(Mean(s), scale) <= MaxOf(s)
  {
    MeanBetween(s);
    hide Rounding.MultipleOf, Rounding.RoundTo, MinOf, MaxOf, Mean;
    if Rounding.MultipleOf(MinOf(s), scale) { Rounding.RoundToRespects(Mean(s), MinOf(s), scale); }
    if Rounding.MultipleOf(MaxOf(s), scale) { Rounding.RoundToRespects(Mean(s), MaxOf(s), scale); }
  }

  /** When all readings are equal the rounded mean is between them exactly when they are a
      multiple of the unit. */
  lemma EqualReadingsExactly(s: seq<real>, x: real, scale: int)
    requires s != [] && scale > 0 && forall y <- s :: y == x
    ensures MinOf(s) <= Rounding.RoundTo(Mean(s), scale) <= MaxOf(s) <==> Rounding.MultipleOf(x, scale)
  {
    MeanBetween(s);
    assert Mean(s) == x && MinOf(s) == x && MaxOf(s) == x;
    hide MinOf, MaxOf, Mean;
    RoundedMeanBetween(s, scale);
    if Rounding.RoundTo(x, scale) == x {
      Rounding.ScaledRounded(x, scale);
      hide Rounding.Round, Rounding.RoundTo;
      WholeIsFloor(Rounding.Scaled(x, scale), Rounding.Round(Rounding.Scaled(x, scale)));
    }
  }

  lemma WholeIsFloor(x: real, n: int)
    requires x == n as real
    ensures x == x.Floor as real
  {}

  // ----- Readings of several packs -----

  /** The numbers several packs have under one key. */
  function Column(parse: ParseFloat, packs: seq<Pack>, key: string): seq<real> {
    if packs == [] then []
    else
      var front := Column(parse, packs[..|packs| - 1], key);
      match Num(parse, packs[|packs| - 1], key)
      case None => front
      case Some(x) => front + [x]
  }

  ghost predicate Reads(parse: ParseFloat, packs: seq<Pack>, key: string, x: real) {
    exists f <- packs :: Num(parse, f, key) == Some(x)
  }

  lemma {:induction false} ColumnReads(parse: ParseFloat, packs: seq<Pack>, key: string, x: real)
    ensures x in Column(parse, packs, key) <==> Reads(parse, packs, key, x)
  {
    if packs != [] {
      var front, f := packs[..|packs| - 1], packs[|packs| - 1];
      ColumnReads(parse, front, key, x);
      assert packs == front + [f];
      hide Num;
    }
  }

  function NumbersIn(parse: ParseFloat, items: seq<Json>): seq<real> {
    if items == [] then []
    else
      var front := NumbersIn(parse, items[..|items| - 1]);
      match AsNumber(parse, items[|items| - 1])
      case None => front
      case Some(x) => front + [x]
  }

  const CELL_TEMPS := "System/CellTemps"
  const CASE_TEMP := "Dc/0/Temperature"
  const MIN_CELL := "System/MinCellVoltage"
  const MAX_CELL := "System/MaxCellVoltage"
  const VOLTAGE := "Dc/0/Voltage"
  const CURRENT := "Dc/0/Current"
  const SOC := "Soc"

  function CellTemps(parse: ParseFloat, f: Pack): seq<real> {
    if CELL_TEMPS in f && f[CELL_TEMPS].List? then NumbersIn(parse, f[CELL_TEMPS].items) else []
  }

  function PackTemps(parse: ParseFloat, f: Pack): seq<real> {
    match Num(parse, f, CASE_TEMP)
    case None => CellTemps(parse, f)
    case Some(x) => CellTemps(parse, f) + [x]
  }

  function Temps(parse: ParseFloat, packs: seq<Pack>): seq<real> {
    if packs == [] then [] else Temps(parse, packs[..|packs| - 1]) + PackTemps(parse, packs[|packs| - 1])
  }

  lemma {:induction false} NumbersInRead(parse: ParseFloat, items: seq<Json>, x: real)
    ensures x in NumbersIn(parse, items) <==> exists item <- items :: AsNumber(parse, item) == Some(x)
  {
    if items != [] {
      var front, item := items[..|items| - 1], items[|items| - 1];
      NumbersInRead(parse, front, x);
      assert items == front + [item];
      hide AsNumber;
    }
  }

  /** A temperature of one of a pack's cells, or of its case. */
  ghost predicate PackHas(parse: ParseFloat, f: Pack, x: real) {
    || Num(parse, f, "Dc/0/Temperature") == Some(x)
    || ("System/CellTemps" in f && f["System/CellTemps"].List?
        && exists item <- f["System/CellTemps"].items :: AsNumber(parse, item) == Some(x))
  }

  lemma PackTempsRead(parse: ParseFloat, f: Pack, x: real)
    ensures x in PackTemps(parse, f) <==> PackHas(parse, f, x)
  {
    if CELL_TEMPS in f && f[CELL_TEMPS].List? { NumbersInRead(parse, f[CELL_TEMPS].items, x); }
    hide Num, AsNumber, NumbersIn;
  }

  ghost predicate HasTemp(parse: ParseFloat, packs: seq<Pack>, x: real) {
    exists f <- packs :: PackHas(parse, f, x)
  }

  lemma {:induction false} TempsRead(parse: ParseFloat, packs: seq<Pack>, x: real)
    ensures x in Temps(parse, packs) <==> HasTemp(parse, packs, x)
  {
    if packs != [] {
      hide PackHas, PackTemps;
      var front, f := packs[..|packs| - 1], packs[|packs| - 1];
      TempsRead(parse, front, x);
      PackTempsRead(parse, f, x);
      assert packs == front + [f];
      HasTempMore(parse, front, f, x);
      hide HasTemp;
    }
  }

  lemma HasTempMore(parse: ParseFloat, front: seq<Pack>, f: Pack, x: real)
    ensures HasTemp(parse, front + [f], x) <==> HasTemp(parse, front, x) || PackHas(parse, f, x)
  {
    hide PackHas;
    assert forall g :: g in front + [f] <==> g in front || g == f;
  }

  // ----- The bank -----

  datatype Bank = Bank(voltage: real, power: real, current: Option<real>, soc: Option<real>,
                       chargeLimit: real, dischargeLimit: real, online: nat, offline: int,
                       minCell: Option<real>, maxCell: Option<real>, minTemp: Option<real>, maxTemp: Option<real>)

  function LeastOf(s: seq<real>): Option<real> { if s == [] then None else Some(MinOf(s)) }

  function MostOf(s: seq<real>): Option<real> { if s == [] then None else Some(MaxOf(s)) }

  function Watts(voltage: real, current: real): real { Rounding.RoundTo(voltage * current, 10) }

  function BankFor(parse: ParseFloat, packs: seq<Pack>): Option<Bank> {
    var voltages := Column(parse, packs, VOLTAGE);
    if voltages == [] then None
    else
      var currents, socs := Column(parse, packs, CURRENT), Column(parse, packs, SOC);
      var temps := Temps(parse, packs);
      var voltage := Rounding.RoundTo(Mean(voltages), 100);
      var current := if currents == [] then None else Some(Rounding.RoundTo(SumOf(currents), 10));
      var limit := PACK_CURRENT * |packs| as real;
      Some(Bank(voltage, if current == None then 0.0 else Watts(voltage, current.value), current,
                if socs == [] then None else Some(Rounding.RoundTo(Mean(socs), 10)),
                limit, limit, |packs|, PACK_COUNT - |packs|,
                LeastOf(Column(parse, packs, MIN_CELL)), MostOf(Column(parse, packs, MAX_CELL)),
                LeastOf(temps), MostOf(temps)))
  }

  /** A value is the least of a kind of reading, or absent when there are none. */
  ghost predicate IsLeast(m: Option<real>, reading: real -> bool) {
    match m
    case None => forall x :: !reading(x)
    case Some(v) => reading(v) && forall x :: reading(x) ==> v <= x
  }

  ghost predicate IsMost(m: Option<real>, reading: real -> bool) {
    match m
    case None => forall x :: !reading(x)
    case Some(v) => reading(v) && forall x :: reading(x) ==> x <= v
  }

  lemma LeastIsLeast(s: seq<real>, reading: real -> bool)
    requires forall x :: x in s <==> reading(x)
    ensures IsLeast(LeastOf(s), reading) && IsMost(MostOf(s), reading)
  {
    if s == [] {
      forall x: real ensures !reading(x) { assert x !in s; }
    } else {
      assert s[0] in s;
    }
  }

  /** What the bank object says of the packs it was made from: how many there are, the true
      extremes of their readings, a voltage within half a hundredth of the mean and inside the
      range of the readings when those are whole hundredths, the same for the charge, the sum
      of the currents to a tenth, the power that voltage and current make, and limits in
      proportion to the packs. */
  ghost predicate Describes(parse: ParseFloat, packs: seq<Pack>, bank: Bank) {
    var voltages, socs := Column(parse, packs, "Dc/0/Voltage"), Column(parse, packs, "Soc");
    && bank.online == |packs| && bank.online + bank.offline == 6
    && IsLeast(bank.minCell, x => Reads(parse, packs, "System/MinCellVoltage", x))
    && IsMost(bank.maxCell, x => Reads(parse, packs, "System/MaxCellVoltage", x))
    && IsLeast(bank.minTemp, x => HasTemp(parse, packs, x)) && IsMost(bank.maxTemp, x => HasTemp(parse, packs, x))
    && voltages != [] && Fair(voltages, bank.voltage, 100)
    && (bank.soc.Some? <==> socs != []) && (socs != [] ==> Fair(socs, bank.soc.value, 10))
    && Electric(Column(parse, packs, "Dc/0/Current"), bank)
  }

  /** Current, power and limits of a bank whose packs have these currents. */
  ghost predicate Electric(currents: seq<real>, bank: Bank) {
    && (bank.current.Some? <==> currents != [])
    && (currents != [] ==>
          && -0.05 <= bank.current.value - SumOf(currents) <= 0.05
          && -0.05 <= bank.power - bank.voltage * bank.current.value <= 0.05)
    && (currents == [] ==> bank.power == 0.0)
    && bank.chargeLimit == bank.dischargeLimit == 100.0 * bank.online as real
  }

  lemma TenthNear(x: real)
    ensures -0.05 <= Rounding.RoundTo(x, 10) - x <= 0.05
  {
    RoundToNear(x, 10);
  }

  lemma WattsNear(voltage: real, current: real)
    ensures -0.05 <= Watts(voltage, current) - voltage * current <= 0.05
  {
    hide Rounding.RoundTo;
    TenthNear(voltage * current);
  }

  lemma BankElectric(parse: ParseFloat, packs: seq<Pack>)
    requires BankFor(parse, packs).Some?
    ensures Electric(Column(parse, packs, CURRENT), BankFor(parse, packs).value)
  {
    hide Rounding.RoundTo, Mean, MinOf, MaxOf, Column, Temps, SumOf, Watts;
    var currents, bank := Column(parse, packs, CURRENT), BankFor(parse, packs).value;
    if currents != [] {
      TenthNear(SumOf(currents));
      WattsNear(bank.voltage, bank.current.value);
      assert bank.power == Watts(bank.voltage, bank.current.value);
    }
  }

  /** A rounded mean, and where it lies. */
  ghost predicate Fair(readings: seq<real>, mean: real, scale: int)
    requires readings != [] && scale > 0
  {
    && (forall low <- readings ::
          (forall x <- readings :: low <= x) && Rounding.MultipleOf(low, scale) ==> low <= mean)
    && (forall high <- readings ::
          (forall x <- readings :: x <= high) && Rounding.MultipleOf(high, scale) ==> mean <= high)
    && -0.5 <= (mean - Mean(readings)) * scale as real <= 0.5
  }

  lemma MinUnique(s: seq<real>, low: real)
    requires low in s && forall x <- s :: low <= x
    ensures MinOf(s) == low
  {
    hide MinOf;
  }

  lemma MaxUnique(s: seq<real>, high: real)
    requires high in s && forall x <- s :: x <= high
    ensures MaxOf(s) == high
  {
    hide MaxOf;
  }

  lemma RoundToNear(x: real, scale: int)
    requires scale > 0
    ensures -0.5 <= (Rounding.RoundTo(x, scale) - x) * scale as real <= 0.5
  {
    Rounding.ScaledRounded(x, scale);
    Rounding.RoundNear(Rounding.Scaled(x, scale));
    var r, s := Rounding.RoundTo(x, scale), scale as real;
    hide Rounding.Round, Rounding.RoundTo;
    assert (r - x) * s == r * s - x * s;
  }

  lemma RoundedMeanIsFair(s: seq<real>, scale: int)
    requires s != [] && scale > 0
    ensures Fair(s, Rounding.RoundTo(Mean(s), scale), scale)
  {
    hide *;
    var mean := Rounding.RoundTo(Mean(s), scale);
    RoundedMeanBetween(s, scale);
    RoundToNear(Mean(s), scale);
    NearAndBetweenIsFair(s, mean, scale);
  }

  lemma NearAndBetweenIsFair(s: seq<real>, mean: real, scale: int)
    requires s != [] && scale > 0
    requires Rounding.MultipleOf(MinOf(s), scale) ==> MinOf(s) <= mean
    requires Rounding.MultipleOf(MaxOf(s), scale) ==> mean <= MaxOf(s)
    requires -0.5 <= (mean - Mean(s)) * scale as real <= 0.5
    ensures Fair(s, mean, scale)
  {
    hide Mean, MinOf, MaxOf, Rounding.MultipleOf;
    forall low <- s | (forall x <- s :: low <= x) && Rounding.MultipleOf(low, scale) ensures low <= mean {
      MinUnique(s, low);
    }
    forall high <- s | (forall x <- s :: x <= high) && Rounding.MultipleOf(high, scale) ensures mean <= high {
      MaxUnique(s, high);
    }
  }

  lemma BankDescribes(parse: ParseFloat, packs: seq<Pack>)
    ensures BankFor(parse, packs).None? <==> forall x :: !Reads(parse, packs, "Dc/0/Voltage", x)
    ensures BankFor(parse, packs).Some? ==> Describes(parse, packs, BankFor(parse, packs).value)
  {
    var voltages, socs := Column(parse, packs, VOLTAGE), Column(parse, packs, SOC);
    hide Rounding.RoundTo, Mean, MinOf, MaxOf, Reads, HasTemp, Column, Temps, SumOf, Electric, Watts;
    forall key: string, x: real ensures x in Column(parse, packs, key) <==> Reads(parse, packs, key, x) {
      ColumnReads(parse, packs, key, x);
    }
    forall x: real ensures x in Temps(parse, packs) <==> HasTemp(parse, packs, x) { TempsRead(parse, packs, x); }
    LeastIsLeast(voltages, x => Reads(parse, packs, VOLTAGE, x));
    LeastIsLeast(Column(parse, packs, MIN_CELL), x => Reads(parse, packs, MIN_CELL, x));
    LeastIsLeast(Column(parse, packs, MAX_CELL), x => Reads(parse, packs, MAX_CELL, x));
    LeastIsLeast(Temps(parse, packs), x => HasTemp(parse, packs, x));
    if voltages != [] {
      BankElectric(parse, packs);
      RoundedMeanIsFair(voltages, 100);
      if socs != [] { RoundedMeanIsFair(socs, 10); }
    }
  }

  // ----- Every pack counts once -----

  /** These are the packs that have a number under a key, in order, and those are the numbers. */
  ghost predicate NumbersAt(parse: ParseFloat, packs: seq<Pack>, key: string, ks: seq<nat>, numbers: seq<real>) {
    && |ks| == |numbers| && (forall i, j :: 0 <= i < j < |ks| ==> ks[i] < ks[j])
    && (forall i :: 0 <= i < |ks| ==> ks[i] < |packs| && Num(parse, packs[ks[i]], key) == Some(numbers[i]))
    && (forall k: nat :: k < |packs| && Num(parse, packs[k], key).Some? ==> k in ks)
  }

  lemma NumbersAtMore(parse: ParseFloat, packs: seq<Pack>, f: Pack, key: string, ks: seq<nat>, numbers: seq<real>)
    requires NumbersAt(parse, packs, key, ks, numbers)
    ensures match Num(parse, f, key)
            case None => NumbersAt(parse, packs + [f], key, ks, numbers)
            case Some(x) => NumbersAt(parse, packs + [f], key, ks + [|packs|], numbers + [x])
  {
    hide Num;
  }

  /** The numbers collected under a key are one for each pack that has one, in order. */
  lemma {:induction false} ColumnOfPacks(parse: ParseFloat, packs: seq<Pack>, key: string) returns (ks: seq<nat>)
    ensures NumbersAt(parse, packs, key, ks, Column(parse, packs, key))
  {
    if packs == [] {
      ks := [];
    } else {
      var n := |packs| - 1;
      ks := ColumnOfPacks(parse, packs[..n], key);
      hide NumbersAt, Num;
      assert packs == packs[..n] + [packs[n]];
      NumbersAtMore(parse, packs[..n], packs[n], key, ks, Column(parse, packs[..n], key));
      if Num(parse, packs[n], key).Some? { ks := ks + [n]; }
    }
  }

  /** A sum is that of its parts, and of one number that number. */
  lemma {:induction false} SumOfParts(a: seq<real>, b: seq<real>)
    ensures SumOf(a + b) == SumOf(a) + SumOf(b)
    ensures forall x :: SumOf([x]) == x
  {
    assert forall x :: SumOf([x]) == x + SumOf([]) by { assert forall x: real :: [x][1..] == []; }
    if a == [] {
      assert a + b == b;
    } else {
      assert (a + b)[1..] == a[1..] + b;
      SumOfParts(a[1..], b);
    }
  }

  /** A mean is that number which, taken as often as there are readings, makes their sum. */
  lemma MeanIsMean(s: seq<real>)
    requires s != []
    ensures Mean(s) * |s| as real == SumOf(s)
  {}
}

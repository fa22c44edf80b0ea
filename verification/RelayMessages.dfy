/** The relay in the words of its topics and payloads: what a message leaves behind, which packs a
    pass sums up and when it sends, and two packs worked through. */
module RelayMessages {
  import opened Prelude
  import opened BankRelay
  import opened RelayRuns
  import JsonTree
  import Rounding

  // ----- Topics -----

  /** Every topic is some pieces between slashes. It speaks of a pack exactly when there are at
      least five, the third is "battery" and the fourth reads as a number from 1 to 6; of what,
      the pieces after say. */
  lemma TopicsAddressed(env: Env, pieces: seq<string>)
    requires pieces != [] && forall i :: 0 <= i < |pieces| ==> '/' !in pieces[i]
    ensures var about := |pieces| >= 5 && pieces[2] == "battery" && env.parseInt(pieces[3]).Some?
                         && 1 <= env.parseInt(pieces[3]).value <= 6;
            Addressed(env, JsonTree.Join(pieces))
            == if about then Some(Address(env.parseInt(pieces[3]).value, JsonTree.Join(pieces[4..]))) else None
  {
    JsonTree.SplitJoined(pieces);
    hide JsonTree.Split, JsonTree.Join;
  }

  // ----- Messages -----

  /** What a payload stands for: an object for its member "value", null when it has none, and
      anything else for itself. */
  ghost predicate Carries(payload: Json, value: Json) {
    match payload
    case Object(members) => if "value" in members then members["value"] == value else value == Null
    case _ => payload == value
  }

  /** A message that parses and is addressed sets that path of that pack and its time, and nothing
      else; any other changes nothing. */
  lemma MessageTaken(env: Env, s: State, topic: string, payload: Option<Json>, at: real)
    requires Shaped(s.fields, s.updatedAt)
    ensures var r := Next(env, s, Message(topic, payload, at));
            match Addressed(env, topic)
            case None => r == s
            case Some(a) =>
              if payload.None? then r == s
              else
                && a.path in r.fields[a.pack] && Carries(payload.value, r.fields[a.pack][a.path])
                && (forall path :: path != a.path ==>
                      (path in r.fields[a.pack] <==> path in s.fields[a.pack])
                      && (path in s.fields[a.pack] ==> r.fields[a.pack][path] == s.fields[a.pack][path]))
                && (forall n: nat :: 1 <= n <= 6 && n != a.pack ==>
                      r.fields[n] == s.fields[n] && r.updatedAt[n] == s.updatedAt[n])
                && r.updatedAt[a.pack] == at && r.sent == s.sent && r.lastBank == s.lastBank
  {
    hide Addressed;
  }

  /** The number a message leaves under its path: the member "value" of an object, or a bare
      payload, when it is a number or a text that reads as one. */
  lemma NumberTaken(env: Env, s: State, topic: string, payload: Json, at: real)
    requires Shaped(s.fields, s.updatedAt) && Addressed(env, topic).Some?
    ensures var r, a := Next(env, s, Message(topic, Some(payload), at)), Addressed(env, topic).value;
            Num(env.parseFloat, r.fields[a.pack], a.path)
            == match payload
               case Number(x) => Some(x)
               case String(text) => env.parseFloat(text)
               case Object(members) =>
                 if "value" !in members then None
                 else (match members["value"]
                       case Number(x) => Some(x)
                       case String(text) => env.parseFloat(text)
                       case _ => None)
               case _ => None
  {
    hide Addressed;
  }

  /** The firmware's form: an object with the number as its value. */
  lemma VoltageTaken(env: Env, s: State, topic: string, n: nat, x: real, at: real)
    requires Shaped(s.fields, s.updatedAt) && Addressed(env, topic) == Some(Address(n, "Dc/0/Voltage"))
    ensures IsPack(n)
    ensures var r := Next(env, s, Message(topic, Some(Object(map["value" := Number(x)])), at));
            Num(env.parseFloat, r.fields[n], "Dc/0/Voltage") == Some(x) && r.updatedAt[n] == at
    ensures var r := Next(env, s, Message(topic, Some(Number(x)), at));
            Num(env.parseFloat, r.fields[n], "Dc/0/Voltage") == Some(x) && r.updatedAt[n] == at
    ensures var r := Next(env, s, Message(topic, Some(Object(map["volts" := Number(x)])), at));
            Num(env.parseFloat, r.fields[n], "Dc/0/Voltage") == None && r.updatedAt[n] == at
  {
    NumberTaken(env, s, topic, Object(map["value" := Number(x)]), at);
    NumberTaken(env, s, topic, Number(x), at);
    NumberTaken(env, s, topic, Object(map["volts" := Number(x)]), at);
    hide Addressed, Num, ValueOf;
  }

  // ----- Passes -----

  /** The packs heard of less than 180 s before their reading of the clock, in order. */
  ghost predicate AreFresh(s: State, clock: seq<real>, count: nat, ns: seq<nat>)
    requires Shaped(s.fields, s.updatedAt) && |clock| == 6 && count <= 6
  {
    && (forall i, j :: 0 <= i < j < |ns| ==> ns[i] < ns[j])
    && (forall i :: 0 <= i < |ns| ==> 1 <= ns[i] <= count)
    && (forall n: nat :: 1 <= n <= count ==> (n in ns <==> clock[n - 1] - s.updatedAt[n] < 180.0))
  }

  lemma AreFreshMore(s: State, clock: seq<real>, count: nat, ns: seq<nat>)
    requires Shaped(s.fields, s.updatedAt) && |clock| == 6 && 0 < count <= 6 && AreFresh(s, clock, count - 1, ns)
    ensures AreFresh(s, clock, count, if clock[count - 1] - s.updatedAt[count] < 180.0 then ns + [count] else ns)
  {
    assert forall n :: n in ns + [count] <==> n in ns || n == count;
  }

  /** Exactly those are summed up, each with its own fields. */
  lemma {:induction false} FreshAre(s: State, clock: seq<real>, count: nat) returns (ns: seq<nat>)
    requires Shaped(s.fields, s.updatedAt) && |clock| == 6 && count <= 6
    ensures AreFresh(s, clock, count, ns)
    ensures var packs := FreshPacks(s.fields, s.updatedAt, clock, count);
            |packs| == |ns| && forall i :: 0 <= i < |ns| ==> 1 <= ns[i] <= 6 && packs[i] == s.fields[ns[i]]
  {
    if count == 0 {
      ns := [];
    } else {
      ns := FreshAre(s, clock, count - 1);
      AreFreshMore(s, clock, count, ns);
      hide AreFresh;
      if clock[count - 1] - s.updatedAt[count] < 180.0 { ns := ns + [count]; }
    }
  }

  /** A pack of the bank: fresh, and with a voltage that reads as a number. */
  ghost predicate Gives(env: Env, s: State, clock: seq<real>, n: nat)
    requires Shaped(s.fields, s.updatedAt) && |clock| == 6
  {
    1 <= n <= 6 && clock[n - 1] - s.updatedAt[n] < 180.0
    && Num(env.parseFloat, s.fields[n], "Dc/0/Voltage").Some?
  }

  lemma GivenIsRead(env: Env, s: State, clock: seq<real>, n: nat)
    requires Shaped(s.fields, s.updatedAt) && |clock| == 6 && Gives(env, s, clock, n)
    ensures var packs := FreshPacks(s.fields, s.updatedAt, clock, 6);
            Reads(env.parseFloat, packs, "Dc/0/Voltage", Num(env.parseFloat, s.fields[n], "Dc/0/Voltage").value)
  {
    hide FreshPacks, Num;
    var ns := FreshAre(s, clock, 6);
    var i :| 0 <= i < |ns| && ns[i] == n;
    assert FreshPacks(s.fields, s.updatedAt, clock, 6)[i] == s.fields[n];
  }

  lemma ReadIsGiven(env: Env, s: State, clock: seq<real>, x: real) returns (n: nat)
    requires Shaped(s.fields, s.updatedAt) && |clock| == 6
    requires Reads(env.parseFloat, FreshPacks(s.fields, s.updatedAt, clock, 6), "Dc/0/Voltage", x)
    ensures Gives(env, s, clock, n)
  {
    hide FreshPacks, Num;
    var packs := FreshPacks(s.fields, s.updatedAt, clock, 6);
    var ns := FreshAre(s, clock, 6);
    var f :| f in packs && Num(env.parseFloat, f, "Dc/0/Voltage") == Some(x);
    var i :| 0 <= i < |packs| && packs[i] == f;
    n := ns[i];
    assert n in ns;
  }

  /** There is a bank exactly when some fresh pack has a voltage. */
  lemma BankWhenGiven(env: Env, s: State, clock: seq<real>)
    requires Shaped(s.fields, s.updatedAt) && |clock| == 6
    ensures BankNow(env, s, clock).Some? <==> exists n: nat :: Gives(env, s, clock, n)
  {
    var packs := FreshPacks(s.fields, s.updatedAt, clock, 6);
    BankDescribes(env.parseFloat, packs);
    hide BankFor, Describes, FreshPacks, Num, Reads, Gives;
    forall n: nat | Gives(env, s, clock, n) ensures BankNow(env, s, clock).Some? { GivenIsRead(env, s, clock, n); }
    if BankNow(env, s, clock).Some? {
      var x :| Reads(env.parseFloat, packs, "Dc/0/Voltage", x);
      var n := ReadIsGiven(env, s, clock, x);
    }
  }

  /** A pass sends exactly when the last bank went out half a minute ago or more, the Cerbo takes
      it, and some pack heard of in the last three minutes has a voltage. */
  lemma PassSendsExactly(env: Env, s: State, now: real, clock: seq<real>, up: bool)
    requires Shaped(s.fields, s.updatedAt) && |clock| == 6
    ensures var r := Next(env, s, Pass(now, clock, up));
            && (r.sent != s.sent <==> now >= s.lastBank + 30.0 && up && exists n: nat :: Gives(env, s, clock, n))
            && r.lastBank == (if r.sent != s.sent then now else s.lastBank)
            && r.fields == s.fields && r.updatedAt == s.updatedAt
  {
    BankWhenGiven(env, s, clock);
    hide BankNow, Gives;
  }

  // ----- Two packs worked through -----

  const FIRST_PACK: Pack := map[
    "Dc/0/Voltage" := Number(53.2), "Dc/0/Current" := Number(-5.0), "Soc" := Number(80.0),
    "System/MinCellVoltage" := Number(3.3), "System/MaxCellVoltage" := Number(3.35),
    "System/CellTemps" := List([Number(21.0), Number(24.0)]), "Dc/0/Temperature" := Number(20.0)]

  const SECOND_PACK: Pack := map[
    "Dc/0/Voltage" := Number(53.4), "Dc/0/Current" := Number(3.0), "Soc" := Number(81.0),
    "System/MinCellVoltage" := Number(3.31), "System/MaxCellVoltage" := Number(3.36),
    "System/CellTemps" := List([Null, Number(19.0)]), "Dc/0/Temperature" := Number(25.0)]

  lemma ColumnOfTwo(parse: ParseFloat, f: Pack, g: Pack, key: string, x: real, y: real)
    requires Num(parse, f, key) == Some(x) && Num(parse, g, key) == Some(y)
    ensures Column(parse, [f, g], key) == [x, y]
  {
    hide Num;
    assert [f, g][..1] == [f] && [f][..0] == [];
    assert Column(parse, [], key) == [];
    assert Column(parse, [f], key) == [x];
  }

  lemma OfTwo(x: real, y: real)
    ensures SumOf([x, y]) == x + y && Mean([x, y]) == (x + y) / 2.0
    ensures MinOf([x, y]) == (if x <= y then x else y) && MaxOf([x, y]) == if x >= y then x else y
  {
    assert [x, y] == [x] + [y];
    SumOfParts([x], [y]);
    assert [x, y][1..] == [y];
  }

  lemma RoundsTo(x: real, n: int, scale: int)
    requires scale > 0 && x * scale as real == n as real
    ensures Rounding.RoundTo(x, scale) == n as real / scale as real
  {
    Rounding.RoundWhole(n);
    hide Rounding.Round;
  }

  lemma TempsOfTwo(parse: ParseFloat)
    ensures Temps(parse, [FIRST_PACK, SECOND_PACK]) == [21.0, 24.0, 20.0, 19.0, 25.0]
  {
    var f, g := FIRST_PACK, SECOND_PACK;
    var a, b := [Number(21.0), Number(24.0)], [Null, Number(19.0)];
    assert a[..1] == [Number(21.0)] && a[..1][..0] == [] && b[..1] == [Null] && b[..1][..0] == [];
    assert NumbersIn(parse, a[..1]) == [21.0] && NumbersIn(parse, b[..1]) == [];
    assert NumbersIn(parse, a) == [21.0, 24.0] && NumbersIn(parse, b) == [19.0];
    assert PackTemps(parse, f) == [21.0, 24.0, 20.0] && PackTemps(parse, g) == [19.0, 25.0];
    hide PackTemps;
    assert [f, g][..1] == [f] && [f][..0] == [];
    assert Temps(parse, []) == [];
    assert Temps(parse, [f]) == [21.0, 24.0, 20.0];
  }

  lemma ExtremesOfTemps()
    ensures MinOf([21.0, 24.0, 20.0, 19.0, 25.0]) == 19.0 && MaxOf([21.0, 24.0, 20.0, 19.0, 25.0]) == 25.0
  {
    var s := [21.0, 24.0, 20.0, 19.0, 25.0];
    assert s[3] == 19.0 && s[4] == 25.0;
    assert 19.0 in s && 25.0 in s;
    MinUnique(s, 19.0);
    MaxUnique(s, 25.0);
  }

  lemma ColumnsOfTwo(parse: ParseFloat)
    ensures Column(parse, [FIRST_PACK, SECOND_PACK], "Dc/0/Voltage") == [53.2, 53.4]
    ensures Column(parse, [FIRST_PACK, SECOND_PACK], "Dc/0/Current") == [-5.0, 3.0]
    ensures Column(parse, [FIRST_PACK, SECOND_PACK], "Soc") == [80.0, 81.0]
    ensures Column(parse, [FIRST_PACK, SECOND_PACK], "System/MinCellVoltage") == [3.3, 3.31]
    ensures Column(parse, [FIRST_PACK, SECOND_PACK], "System/MaxCellVoltage") == [3.35, 3.36]
  {
    var f, g := FIRST_PACK, SECOND_PACK;
    hide Column;
    ColumnOfTwo(parse, f, g, "Dc/0/Voltage", 53.2, 53.4);
    ColumnOfTwo(parse, f, g, "Dc/0/Current", -5.0, 3.0);
    ColumnOfTwo(parse, f, g, "Soc", 80.0, 81.0);
    ColumnOfTwo(parse, f, g, "System/MinCellVoltage", 3.3, 3.31);
    ColumnOfTwo(parse, f, g, "System/MaxCellVoltage", 3.35, 3.36);
  }

  lemma FiguresOfTwo()
    ensures Rounding.RoundTo(Mean([53.2, 53.4]), 100) == 53.3 && Rounding.RoundTo(SumOf([-5.0, 3.0]), 10) == -2.0
    ensures Rounding.RoundTo(Mean([80.0, 81.0]), 10) == 80.5 && Watts(53.3, -2.0) == -106.6
    ensures MinOf([3.3, 3.31]) == 3.3 && MaxOf([3.35, 3.36]) == 3.36
  {
    OfTwo(53.2, 53.4);
    OfTwo(-5.0, 3.0);
    OfTwo(80.0, 81.0);
    OfTwo(3.3, 3.31);
    OfTwo(3.35, 3.36);
    RoundsTo(53.3, 5330, 100);
    RoundsTo(-2.0, -20, 10);
    RoundsTo(80.5, 805, 10);
    RoundsTo(53.3 * -2.0, -1066, 10);
    hide SumOf, Mean, MinOf, MaxOf, Rounding.RoundTo;
  }

  /** The bank of two packs, one discharging and one charging. */
  lemma BankOfTwo(parse: ParseFloat)
    ensures BankFor(parse, [FIRST_PACK, SECOND_PACK])
            == Some(Bank(53.3, -106.6, Some(-2.0), Some(80.5), 200.0, 200.0, 2, 4,
                         Some(3.3), Some(3.36), Some(19.0), Some(25.0)))
  {
    ColumnsOfTwo(parse);
    TempsOfTwo(parse);
    ExtremesOfTemps();
    FiguresOfTwo();
    hide *;
    FiguresOf(parse, FIRST_PACK, SECOND_PACK);
  }

  lemma FiguresOf(parse: ParseFloat, f: Pack, g: Pack)
    requires Column(parse, [f, g], "Dc/0/Voltage") != [] && Column(parse, [f, g], "Dc/0/Current") != []
    requires Column(parse, [f, g], "Soc") != [] && Temps(parse, [f, g]) != []
    requires Column(parse, [f, g], "System/MinCellVoltage") != []
    requires Column(parse, [f, g], "System/MaxCellVoltage") != []
    ensures var packs := [f, g];
            var volts := Rounding.RoundTo(Mean(Column(parse, packs, "Dc/0/Voltage")), 100);
            var amperes := Rounding.RoundTo(SumOf(Column(parse, packs, "Dc/0/Current")), 10);
            BankFor(parse, packs)
            == Some(Bank(volts, Watts(volts, amperes), Some(amperes),
                         Some(Rounding.RoundTo(Mean(Column(parse, packs, "Soc")), 10)), 200.0, 200.0, 2, 4,
                         Some(MinOf(Column(parse, packs, "System/MinCellVoltage"))),
                         Some(MaxOf(Column(parse, packs, "System/MaxCellVoltage"))),
                         Some(MinOf(Temps(parse, packs))), Some(MaxOf(Temps(parse, packs)))))
  {
    var packs := [f, g];
    assert |packs| as real == 2.0;
    hide Column, Temps, SumOf, Mean, MinOf, MaxOf, Watts, Rounding.RoundTo;
  }

  /** The topic of a pack's voltage. */
  function VoltageOf(number: string): string {
    JsonTree.Join(["N", "wattcycle48ble", "battery", number, "Dc", "0", "Voltage"])
  }

  lemma VoltageAddressed(env: Env, number: string, n: int)
    requires '/' !in number && env.parseInt(number) == Some(n) && 1 <= n <= 6
    ensures Addressed(env, VoltageOf(number)) == Some(Address(n, "Dc/0/Voltage"))
  {
    var pieces := ["N", "wattcycle48ble", "battery", number, "Dc", "0", "Voltage"];
    assert pieces[4..] == ["Dc", "0", "Voltage"];
    hide Addressed, JsonTree.Split, JsonTree.Join;
    TopicsAddressed(env, pieces);
    VoltageJoins();
  }

  lemma VoltageJoins()
    ensures JsonTree.Join(["Dc", "0", "Voltage"]) == "Dc/0/Voltage"
  {
    assert ["Dc", "0", "Voltage"][1..] == ["0", "Voltage"] && ["0", "Voltage"][1..] == ["Voltage"];
    assert JsonTree.Join(["0", "Voltage"]) == "0" + "/" + "Voltage";
  }

  /** A message in the form the firmware sends. */
  function Voltage(number: string, x: real, at: real): Event {
    Message(VoltageOf(number), Some(Object(map["value" := Number(x)])), at)
  }

  function TwoVoltages(): seq<Event> { [Voltage("1", 53.2, 10.0), Voltage("2", 53.4, 20.0)] }

  const LATER: seq<real> := [185.0, 185.0, 185.0, 185.0, 185.0, 185.0]

  lemma AfterVoltages(env: Env)
    requires env.parseInt("1") == Some(1) && env.parseInt("2") == Some(2)
    ensures var s := Run(env, TwoVoltages());
            && s.fields == NOBODY[1 := map["Dc/0/Voltage" := Number(53.2)]][2 := map["Dc/0/Voltage" := Number(53.4)]]
            && s.updatedAt == NEVER[1 := 10.0][2 := 20.0] && s.lastBank == 0.0 && s.sent == []
  {
    var a, b := Voltage("1", 53.2, 10.0), Voltage("2", 53.4, 20.0);
    hide VoltageOf, Addressed, ValueOf, BankNow, Next;
    assert [a, b][..1] == [a] && [a][..0] == [];
    assert Run(env, []) == START;
    assert Run(env, [a]) == Next(env, START, a);
    VoltageHeard(env, START, "1", 1, 53.2, 10.0);
    VoltageHeard(env, Run(env, [a]), "2", 2, 53.4, 20.0);
    hide Run;
    assert map["Dc/0/Voltage" := Number(53.2)] == map[]["Dc/0/Voltage" := Number(53.2)];
  }

  lemma VoltageHeard(env: Env, s: State, number: string, n: nat, x: real, at: real)
    requires Shaped(s.fields, s.updatedAt) && '/' !in number && env.parseInt(number) == Some(n) && 1 <= n <= 6
    ensures Next(env, s, Voltage(number, x, at))
            == s.(fields := s.fields[n := s.fields[n]["Dc/0/Voltage" := Number(x)]], updatedAt := s.updatedAt[n := at])
  {
    VoltageAddressed(env, number, n);
    assert ValueOf(Object(map["value" := Number(x)])) == Number(x);
    hide Addressed, VoltageOf, ValueOf, BankNow;
  }

  lemma {:induction false} FreshAfterVoltages(s: State, count: nat)
    requires Shaped(s.fields, s.updatedAt) && s.updatedAt == NEVER[1 := 10.0][2 := 20.0] && 2 <= count <= 6
    ensures FreshPacks(s.fields, s.updatedAt, LATER, count) == [s.fields[1], s.fields[2]]
  {
    if count == 2 {
      assert FreshPacks(s.fields, s.updatedAt, LATER, 0) == [];
      assert FreshPacks(s.fields, s.updatedAt, LATER, 1) == [s.fields[1]];
    } else {
      FreshAfterVoltages(s, count - 1);
    }
  }

  lemma BankOfVoltages(parse: ParseFloat)
    ensures BankFor(parse, [map["Dc/0/Voltage" := Number(53.2)], map["Dc/0/Voltage" := Number(53.4)]])
            == Some(Bank(53.3, 0.0, None, None, 200.0, 200.0, 2, 4, None, None, None, None))
  {
    var f: Pack, g: Pack := map["Dc/0/Voltage" := Number(53.2)], map["Dc/0/Voltage" := Number(53.4)];
    ColumnOfTwo(parse, f, g, "Dc/0/Voltage", 53.2, 53.4);
    NothingElse(parse, f, g);
    FiguresOfTwo();
    hide Column, Temps, SumOf, Mean, Watts, Rounding.RoundTo, MinOf, MaxOf;
    assert |[f, g]| as real == 2.0;
  }

  lemma NothingElse(parse: ParseFloat, f: Pack, g: Pack)
    requires f.Keys == g.Keys == {"Dc/0/Voltage"}
    ensures Column(parse, [f, g], "Dc/0/Current") == [] && Column(parse, [f, g], "Soc") == []
    ensures Column(parse, [f, g], "System/MinCellVoltage") == []
    ensures Column(parse, [f, g], "System/MaxCellVoltage") == [] && Temps(parse, [f, g]) == []
  {
    assert [f, g][..1] == [f] && [f][..0] == [];
    forall key: string | key != "Dc/0/Voltage" ensures Column(parse, [f, g], key) == [] {
      assert Column(parse, [], key) == [] && Column(parse, [f], key) == [];
    }
    assert Temps(parse, []) == [] && Temps(parse, [f]) == [];
  }

  /** Two packs send their voltages after 10 and 20 seconds; a pass at 185 seconds sends one bank,
      of the two packs and their mean voltage, and counts the four others offline. */
  lemma TwoOnline(env: Env)
    requires env.parseInt("1") == Some(1) && env.parseInt("2") == Some(2)
    ensures Run(env, TwoVoltages() + [Pass(185.0, LATER, true)]).sent
            == [(185.0, Bank(53.3, 0.0, None, None, 200.0, 200.0, 2, 4, None, None, None, None))]
  {
    var events := TwoVoltages() + [Pass(185.0, LATER, true)];
    assert events[..2] == TwoVoltages() && events[2] == Pass(185.0, LATER, true);
    AfterVoltages(env);
    PassAfterVoltages(env, Run(env, TwoVoltages()));
    assert Run(env, events) == Next(env, Run(env, TwoVoltages()), Pass(185.0, LATER, true));
    hide Run, Next, TwoVoltages;
  }

  lemma PassAfterVoltages(env: Env, s: State)
    requires s.fields == NOBODY[1 := map["Dc/0/Voltage" := Number(53.2)]][2 := map["Dc/0/Voltage" := Number(53.4)]]
    requires s.updatedAt == NEVER[1 := 10.0][2 := 20.0] && s.lastBank == 0.0 && s.sent == []
    ensures Shaped(s.fields, s.updatedAt)
    ensures Next(env, s, Pass(185.0, LATER, true)).sent
            == [(185.0, Bank(53.3, 0.0, None, None, 200.0, 200.0, 2, 4, None, None, None, None))]
  {
    FreshAfterVoltages(s, 6);
    BankOfVoltages(env.parseFloat);
    hide BankFor, FreshPacks;
  }
}

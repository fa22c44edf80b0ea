/** The daemon's loop: keep the latest frames, decode them, and publish to the coach broker
    and to the Cerbo when something changed or half a minute has passed. */
module PackPublisher {
  import opened Prelude
  import opened PackDecoder
  import opened CerboBank

  const HEARTBEAT := 30.0

  // ----- The coach feed, one retained topic per path -----

  /** The order in which the decoder fills its dictionary. */
  const ORDER: seq<Path> :=
    [ProductName, CustomName, Connected, MaxChargeVoltage, MaxChargeCurrent, MaxDischargeCurrent, BatteryLowVoltage,
     Soc, Soh, Voltage, Current, Temperature, ModuleCount, Alarm, ChargeRequest, DischargeRequest,
     MinCellVoltage, MaxCellVoltage, MinCellTemperature, MaxCellTemperature, Capacity]

  function Among(values: Values, order: seq<Path>): (topics: seq<Path>)
    ensures forall p :: p in topics <==> p in order && p in values
  {
    if order == [] then []
    else (if order[0] in values then [order[0]] else []) + Among(values, order[1..])
  }

  function Topics(values: Values): (topics: seq<Path>)
    ensures forall p :: p in topics <==> p in values
  {
    assert forall p: Path :: p in ORDER by { EveryPath(); }
    Among(values, ORDER)
  }

  function Place(p: Path): nat {
    match p
    case ProductName => 0 case CustomName => 1 case Connected => 2 case MaxChargeVoltage => 3
    case MaxChargeCurrent => 4 case MaxDischargeCurrent => 5 case BatteryLowVoltage => 6 case Soc => 7
    case Soh => 8 case Voltage => 9 case Current => 10 case Temperature => 11 case ModuleCount => 12
    case Alarm => 13 case ChargeRequest => 14 case DischargeRequest => 15 case MinCellVoltage => 16
    case MaxCellVoltage => 17 case MinCellTemperature => 18 case MaxCellTemperature => 19 case Capacity => 20
  }

  lemma Placed(p: Path)
    ensures Place(p) < |ORDER| && ORDER[Place(p)] == p
  {}

  lemma EveryPath()
    ensures forall p: Path :: p in ORDER
  {
    hide Place;
    forall p: Path ensures p in ORDER { Placed(p); }
  }

  /** What reaches the broker when it goes away after `reach` messages. */
  function Delivered(values: Values, reach: nat): Values {
    map p | p in Topics(values)[..Min(reach, |Topics(values)|)] :: values[p]
  }

  predicate Whole(values: Values, reach: nat) { reach >= |Topics(values)| }

  /** Every path of the pack has its topic, with its value. */
  ghost predicate Agree(topics: Values, values: Values) {
    forall p <- values :: p in topics && topics[p] == values[p]
  }

  lemma DeliveredWhole(values: Values, reach: nat)
    requires Whole(values, reach)
    ensures Delivered(values, reach) == values
  {
    assert Topics(values)[..|Topics(values)|] == Topics(values);
  }

  lemma DeliveredNone(values: Values)
    ensures Delivered(values, 0) == map[]
  {}

  lemma DeliveredStep(values: Values, i: nat)
    requires i < |Topics(values)|
    ensures var p := Topics(values)[i]; Delivered(values, i + 1) == Delivered(values, i)[p := values[p]]
  {
    var order := Topics(values);
    assert order[..i + 1] == order[..i] + [order[i]];
    hide Topics;
  }

  class CoachPublisher {
    var topics: Values

    constructor ()
      ensures topics == map[]
    {
      topics := map[];
    }

    /** One message per path, until the broker fails. */
    method Publish(values: Values, reach: nat) returns (ok: bool)
      modifies this
      ensures topics == old(topics) + Delivered(values, reach)
      ensures ok <==> Whole(values, reach)
      ensures ok ==> Agree(topics, values)
    {
      var order := Topics(values);
      DeliveredNone(values);
      hide Delivered, Topics;
      for i := 0 to |order|
        invariant i <= reach && topics == old(topics) + Delivered(values, i)
      {
        if i == reach { return false; }
        DeliveredStep(values, i);
        topics := topics[order[i] := values[order[i]]];
      }
      DeliveredWhole(values, |order|);
      DeliveredWhole(values, reach);
      return true;
    }
  }

  class CerboPublisher {
    var retained: Option<Bank>

    constructor ()
      ensures retained == None
    {
      retained := None;
    }

    /** One message; a failed one delivers nothing. */
    method Publish(payload: Bank, up: bool) returns (ok: bool)
      modifies this
      ensures ok == up && retained == if up then Some(payload) else old(retained)
    {
      if up { retained := Some(payload); }
      ok := up;
    }
  }

  // ----- Decoding, names included -----

  /** Splitting at a zero octet, decoding and trimming a name. */
  type Namer = bytes -> bytes

  function NameOf(name: Namer, data: bytes): bytes { if data == [] then [] else name(data) }

  function Names(name: Namer, latest: Latest): Values {
    var full := NameOf(name, Octets(latest, 0x370) + Octets(latest, 0x371));
    var both := if full == [] then map[ProductName := Text(PYLO), CustomName := Text(WATTCYCLE)]
                else map[ProductName := Text(full), CustomName := Text(full)];
    var product := NameOf(name, Octets(latest, 0x35E));
    if product == [] then both else both[ProductName := Text(product)]
  }

  function ValuesOf(name: Namer, frames: map<nat, bytes>): Values {
    Names(name, LatestOf(frames)) + Numbers(LatestOf(frames))
  }

  lemma ValuesShow(name: Namer, frames: map<nat, bytes>)
    ensures ShowsAll(ValuesOf(name, frames), LatestOf(frames))
  {
    hide Numbers, Shown;
    NumbersAreShown(LatestOf(frames));
    assert Names(name, LatestOf(frames)).Keys == {ProductName, CustomName};
  }

  method Decode(name: Namer, frames: map<nat, bytes>) returns (values: Values)
    ensures values == ValuesOf(name, frames)
  {
    hide Numbers, ShowsAll;
    var numbers := DecodePack(frames);
    values := map[ProductName := Text(PYLO), CustomName := Text(WATTCYCLE)];
    var first := if 0x370 in frames then frames[0x370] else [];
    var second := if 0x371 in frames then frames[0x371] else [];
    if first + second != [] {
      var text := name(first + second);
      if text != [] { values := values[ProductName := Text(text)][CustomName := Text(text)]; }
    }
    if 0x35E in frames && frames[0x35E] != [] {
      var text := name(frames[0x35E]);
      if text != [] { values := values[ProductName := Text(text)]; }
    }
    values := values + numbers;
  }

  // ----- The loop -----

  /** What one pass of the loop meets: a frame or a timeout, the clock, how many messages the
      coach broker takes, and whether the Cerbo can be reached. */
  datatype Turn = Turn(frame: Option<RawFrame>, now: real, reach: nat, up: bool)

  predicate Possible(t: Turn) { t.frame.Some? ==> WellFormed(t.frame.value) }

  datatype Coach = Coach(last: Option<Values>, at: real, topics: Values)
  datatype Cerbo = Cerbo(last: Option<Bank>, at: real, retained: Option<Bank>)
  datatype State = State(frames: map<nat, bytes>, coach: Coach, cerbo: Cerbo)

  const START := State(map[], Coach(None, 0.0, map[]), Cerbo(None, 0.0, None))

  predicate Due<T(==)>(last: Option<T>, at: real, x: T, now: real) {
    last != Some(x) || now - at >= HEARTBEAT
  }

  function Received(frames: map<nat, bytes>, t: Turn): map<nat, bytes>
    requires Possible(t)
  {
    if t.frame.Some? then Keep(frames, t.frame.value) else frames
  }

  function CoachNext(c: Coach, values: Values, t: Turn): Coach {
    if !Due(c.last, c.at, values, t.now) then c
    else
      var topics := c.topics + Delivered(values, t.reach);
      if Whole(values, t.reach) then Coach(Some(values), t.now, topics) else c.(topics := topics)
  }

  function CerboNext(c: Cerbo, bank: Bank, t: Turn): Cerbo {
    if Due(c.last, c.at, bank, t.now) && t.up then Cerbo(Some(bank), t.now, Some(bank)) else c
  }

  function BankNow(name: Namer, frames: map<nat, bytes>): Bank { BankOf(ValuesOf(name, frames), frames) }

  function Next(name: Namer, s: State, t: Turn): State
    requires Possible(t)
  {
    var frames := Received(s.frames, t);
    if frames == map[] then s.(frames := frames)
    else State(frames, CoachNext(s.coach, ValuesOf(name, frames), t), CerboNext(s.cerbo, BankNow(name, frames), t))
  }

  function Run(name: Namer, turns: seq<Turn>): State
    requires forall t <- turns :: Possible(t)
  {
    if turns == [] then START else Next(name, Run(name, turns[..|turns| - 1]), turns[|turns| - 1])
  }

  class Daemon {
    const name: Namer
    const coach: CoachPublisher
    const cerbo: CerboPublisher
    var frames: map<nat, bytes>
    var lastValues: Option<Values>
    var lastCerbo: Option<Bank>
    var lastCoachAt: real
    var lastCerboAt: real

    ghost function Now(): State
      reads this, coach, cerbo
    {
      State(frames, Coach(lastValues, lastCoachAt, coach.topics), Cerbo(lastCerbo, lastCerboAt, cerbo.retained))
    }

    constructor (name: Namer)
      ensures this.name == name && Now() == START && fresh(coach) && fresh(cerbo)
    {
      this.name := name;
      coach := new CoachPublisher();
      cerbo := new CerboPublisher();
      frames, lastValues, lastCerbo, lastCoachAt, lastCerboAt := map[], None, None, 0.0, 0.0;
    }

    method Pass(t: Turn)
      requires Possible(t)
      modifies this, coach, cerbo
      ensures Now() == Next(name, old(Now()), t)
    {
      hide Delivered, Whole, Agree, ValuesOf, BankOf, Keep;
      if t.frame.Some? {
        var f := t.frame.value;
        if f.id % 2048 in PY_IDS { KeepKnown(frames, f); frames := frames[f.id % 2048 := f.data[..Min(f.dlc, 8)]]; }
        else { KeepUnknown(frames, f); }
      }
      if frames == map[] { return; }
      var values := Decode(name, frames);
      var bank := CerboPayload(values, frames);
      if lastValues != Some(values) || t.now - lastCoachAt >= HEARTBEAT {
        var ok := coach.Publish(values, t.reach);
        if ok { lastValues, lastCoachAt := Some(values), t.now; }
      }
      if lastCerbo != Some(bank) || t.now - lastCerboAt >= HEARTBEAT {
        var ok := cerbo.Publish(bank, t.up);
        if ok { lastCerbo, lastCerboAt := Some(bank), t.now; }
      }
    }

    method RunFor(turns: seq<Turn>)
      requires forall t <- turns :: Possible(t)
      requires Now() == START
      modifies this, coach, cerbo
      ensures Now() == Run(name, turns)
    {
      hide Next;
      for i := 0 to |turns|
        invariant Now() == Run(name, turns[..i])
      {
        assert turns[..i + 1][..i] == turns[..i];
        Pass(turns[i]);
      }
      assert turns[..|turns|] == turns;
    }
  }

  lemma KeepKnown(frames: map<nat, bytes>, f: RawFrame)
    requires WellFormed(f) && f.id % 2048 in PY_IDS
    ensures Keep(frames, f) == frames[f.id % 2048 := f.data[..Min(f.dlc, 8)]]
  {}

  lemma KeepUnknown(frames: map<nat, bytes>, f: RawFrame)
    requires WellFormed(f) && f.id % 2048 !in PY_IDS
    ensures Keep(frames, f) == frames
  {}
}

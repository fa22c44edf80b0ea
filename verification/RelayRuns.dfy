/** The relay as a machine: messages from the packs and passes of the publishing loop, in any
    order. */
module RelayRuns {
  import opened Prelude
  import opened BankRelay
  import JsonTree
  import Rounding

  /** The two readers of numbers in text. */
  datatype Env = Env(parseFloat: ParseFloat, parseInt: ParseInt)

  /** What the relay keeps, and the bank objects the Cerbo has been sent, with their times. */
  datatype State = State(fields: map<nat, Pack>, updatedAt: map<nat, real>, lastBank: real, sent: seq<(real, Bank)>)

  const NOBODY: map<nat, Pack> := map[1 := map[], 2 := map[], 3 := map[], 4 := map[], 5 := map[], 6 := map[]]
  const NEVER: map<nat, real> := map[1 := 0.0, 2 := 0.0, 3 := 0.0, 4 := 0.0, 5 := 0.0, 6 := 0.0]

  const START := State(NOBODY, NEVER, 0.0, [])

  predicate IsPack(n: int) { 1 <= n <= PACK_COUNT }

  ghost predicate Shaped(fields: map<nat, Pack>, updatedAt: map<nat, real>) {
    forall n: nat | IsPack(n) :: n in fields && n in updatedAt
  }

  // ----- Messages -----

  datatype Address = Address(pack: nat, path: string)

  /** The pack and path a topic speaks of, if any. */
  function Addressed(env: Env, topic: string): (a: Option<Address>)
    ensures a.Some? ==> IsPack(a.value.pack)
  {
    var parts := JsonTree.Split(topic);
    if |parts| < 5 || parts[2] != "battery" then None
    else
      match env.parseInt(parts[3])
      case None => None
      case Some(n) => if IsPack(n) then Some(Address(n, JsonTree.Join(parts[4..]))) else None
  }

  function ValueOf(payload: Json): Json {
    if !payload.Object? then payload else if "value" in payload.members then payload.members["value"] else Null
  }

  /** One thing that happens: a message, whose payload may fail to parse, or a pass that reads
      the clock once for itself and once for every pack. */
  datatype Event =
    | Message(topic: string, payload: Option<Json>, at: real)
    | Pass(now: real, clock: seq<real>, up: bool)

  predicate Possible(e: Event) { e.Pass? ==> |e.clock| == PACK_COUNT }

  /** The packs heard of less than three minutes before their reading of the clock. */
  function FreshPacks(fields: map<nat, Pack>, updatedAt: map<nat, real>, clock: seq<real>, count: nat)
    : (packs: seq<Pack>)
    requires Shaped(fields, updatedAt) && |clock| == PACK_COUNT && count <= PACK_COUNT
    ensures |packs| <= count
  {
    if count == 0 then []
    else
      var front := FreshPacks(fields, updatedAt, clock, count - 1);
      if clock[count - 1] - updatedAt[count] < FRESH then front + [fields[count]] else front
  }

  function BankNow(env: Env, s: State, clock: seq<real>): Option<Bank>
    requires Shaped(s.fields, s.updatedAt) && |clock| == PACK_COUNT
  {
    BankFor(env.parseFloat, FreshPacks(s.fields, s.updatedAt, clock, PACK_COUNT))
  }

  function Next(env: Env, s: State, e: Event): (n: State)
    requires Shaped(s.fields, s.updatedAt) && Possible(e)
    ensures Shaped(n.fields, n.updatedAt)
  {
    match e
    case Message(topic, payload, at) =>
      var a := Addressed(env, topic);
      if a.None? || payload.None? then s
      else
        var n := a.value.pack;
        s.(fields := s.fields[n := s.fields[n][a.value.path := ValueOf(payload.value)]],
           updatedAt := s.updatedAt[n := at])
    case Pass(now, clock, up) =>
      if now - s.lastBank < HEARTBEAT then s
      else
        var bank := BankNow(env, s, clock);
        if bank.Some? && up then s.(lastBank := now, sent := s.sent + [(now, bank.value)]) else s
  }

  ghost predicate AllPossible(events: seq<Event>) { forall e <- events :: Possible(e) }

  function Run(env: Env, events: seq<Event>): (s: State)
    requires AllPossible(events)
    ensures Shaped(s.fields, s.updatedAt)
  {
    if events == [] then START else Next(env, Run(env, events[..|events| - 1]), events[|events| - 1])
  }

  class Relay {
    const env: Env
    var fields: map<nat, Pack>
    var updatedAt: map<nat, real>
    var lastBank: real
    var sent: seq<(real, Bank)>

    ghost predicate Valid()
      reads this
    {
      Shaped(fields, updatedAt)
    }

    ghost function Now(): State
      reads this
    {
      State(fields, updatedAt, lastBank, sent)
    }

    constructor (env: Env)
      ensures this.env == env && Valid() && Now() == START
    {
      this.env := env;
      fields, updatedAt, lastBank, sent := NOBODY, NEVER, 0.0, [];
    }

    method OnCoachMessage(topic: string, payload: Option<Json>, at: real)
      requires Valid()
      modifies this
      ensures Valid() && Now() == Next(env, old(Now()), Message(topic, payload, at))
    {
      var parts := JsonTree.Split(topic);
      if |parts| < 5 || parts[2] != "battery" { return; }
      var number := env.parseInt(parts[3]);
      if number.None? { return; }
      var n := number.value;
      if !(1 <= n <= PACK_COUNT) { return; }
      var path := JsonTree.Join(parts[4..]);
      if payload.None? { return; }
      var value := payload.value;
      if value.Object? { value := if "value" in value.members then value.members["value"] else Null; }
      fields := fields[n := fields[n][path := value]];
      updatedAt := updatedAt[n := at];
    }

    method BuildBankPayload(clock: seq<real>) returns (payload: Option<Bank>)
      requires Valid() && |clock| == PACK_COUNT
      ensures payload == BankNow(env, Now(), clock)
    {
      var packs: seq<Pack> := [];
      for n := 1 to PACK_COUNT + 1
        invariant packs == FreshPacks(fields, updatedAt, clock, n - 1)
      {
        if clock[n - 1] - updatedAt[n] < FRESH { packs := packs + [fields[n]]; }
      }
      payload := Summarize(env.parseFloat, packs);
    }

    method PublishPass(now: real, clock: seq<real>, up: bool)
      requires Valid() && |clock| == PACK_COUNT
      modifies this
      ensures Valid() && Now() == Next(env, old(Now()), Pass(now, clock, up))
    {
      if now - lastBank >= HEARTBEAT {
        var bank := BuildBankPayload(clock);
        if bank.Some? && up {
          sent := sent + [(now, bank.value)];
          lastBank := now;
        }
      }
    }
  }

  method CollectTemps(parse: ParseFloat, packs: seq<Pack>) returns (temps: seq<real>)
    ensures temps == Temps(parse, packs)
  {
    temps := [];
    for i := 0 to |packs|
      invariant temps == Temps(parse, packs[..i])
    {
      var f := packs[i];
      assert packs[..i + 1][..i] == packs[..i];
      ghost var before := temps;
      if CELL_TEMPS in f && f[CELL_TEMPS].List? { temps := temps + NumbersIn(parse, f[CELL_TEMPS].items); }
      var mos := Num(parse, f, CASE_TEMP);
      if mos.Some? { temps := temps + [mos.value]; }
      assert temps == before + PackTemps(parse, f);
    }
    assert packs[..|packs|] == packs;
  }

  /** The bank object, field by field. */
  method Summarize(parse: ParseFloat, packs: seq<Pack>) returns (payload: Option<Bank>)
    ensures payload == BankFor(parse, packs)
  {
    hide Column, Temps, Mean, SumOf, MinOf, MaxOf, Rounding.RoundTo, Watts;
    if |packs| == 0 { ColumnOfNone(parse, VOLTAGE); return None; }
    var voltages := Column(parse, packs, VOLTAGE);
    if voltages == [] { return None; }
    var currents := Column(parse, packs, CURRENT);
    var socs := Column(parse, packs, SOC);
    var voltage, power := Rounding.RoundTo(Mean(voltages), 100), 0.0;
    var current: Option<real> := None;
    if currents != [] {
      var total := Rounding.RoundTo(SumOf(currents), 10);
      current := Some(total);
      power := Watts(voltage, total);
    }
    var soc := if socs != [] then Some(Rounding.RoundTo(Mean(socs), 10)) else None;
    var limit := PACK_CURRENT * |packs| as real;
    var bank := Bank(voltage, power, current, soc, limit, limit, |packs|, PACK_COUNT - |packs|, None, None, None, None);
    var mins := Column(parse, packs, MIN_CELL);
    var maxs := Column(parse, packs, MAX_CELL);
    if mins != [] { bank := bank.(minCell := Some(MinOf(mins))); }
    if maxs != [] { bank := bank.(maxCell := Some(MaxOf(maxs))); }
    var temps := CollectTemps(parse, packs);
    if temps != [] { bank := bank.(minTemp := Some(MinOf(temps)), maxTemp := Some(MaxOf(temps))); }
    payload := Some(bank);
  }

  lemma ColumnOfNone(parse: ParseFloat, key: string)
    ensures Column(parse, [], key) == []
  {}

  // ----- Histories -----

  /** A message that is about a pack. */
  predicate About(env: Env, e: Event, n: nat) {
    e.Message? && e.payload.Some? && Addressed(env, e.topic).Some? && Addressed(env, e.topic).value.pack == n
  }

  /** When a pack was last heard of. */
  function LastHeard(env: Env, events: seq<Event>, n: nat): Option<real> {
    if events == [] then None
    else
      var e := events[|events| - 1];
      if About(env, e, n) then Some(e.at) else LastHeard(env, events[..|events| - 1], n)
  }

  /** The last value heard for one path of a pack. */
  function LastValue(env: Env, events: seq<Event>, n: nat, path: string): Option<Json> {
    if events == [] then None
    else
      var e := events[|events| - 1];
      if About(env, e, n) && Addressed(env, e.topic).value.path == path then Some(ValueOf(e.payload.value))
      else LastValue(env, events[..|events| - 1], n, path)
  }

  /** Whatever else happens in between, a pack's fields are the last values heard for them. */
  lemma {:induction false} FieldsAreLastValues(env: Env, events: seq<Event>, n: nat, path: string)
    requires AllPossible(events) && IsPack(n)
    ensures var f := Run(env, events).fields[n];
            (if path in f then Some(f[path]) else None) == LastValue(env, events, n, path)
  {
    if events != [] {
      FieldsAreLastValues(env, events[..|events| - 1], n, path);
      hide Addressed, ValueOf, BankNow;
    }
  }

  lemma {:induction false} UpdatedWhenLastHeard(env: Env, events: seq<Event>, n: nat)
    requires AllPossible(events) && IsPack(n)
    ensures Run(env, events).updatedAt[n] == match LastHeard(env, events, n) case None => 0.0 case Some(t) => t
  {
    if events != [] {
      UpdatedWhenLastHeard(env, events[..|events| - 1], n);
      hide Addressed, ValueOf, BankNow;
    }
  }

  // ----- How many packs are online -----

  /** Heard of less than three minutes ago. */
  predicate HeardOf(env: Env, events: seq<Event>, clock: seq<real>, n: nat)
    requires 1 <= n <= |clock|
  {
    match LastHeard(env, events, n)
    case None => false
    case Some(t) => clock[n - 1] - t < 180.0
  }

  function HeardCount(env: Env, events: seq<Event>, clock: seq<real>, count: nat): nat
    requires count <= |clock|
  {
    if count == 0 then 0
    else HeardCount(env, events, clock, count - 1) + if HeardOf(env, events, clock, count) then 1 else 0
  }

  /** No pack without any message passes for one just heard of. */
  ghost predicate SilentPastStart(env: Env, events: seq<Event>, clock: seq<real>, count: nat)
    requires count <= |clock|
  {
    forall n: nat | 1 <= n <= count :: LastHeard(env, events, n) == None ==> clock[n - 1] >= 180.0
  }

  /** The number online is never below the number of packs heard of in the last three minutes,
      and equals it exactly when the clock shows at least three minutes for every pack that has
      never been heard of. */
  lemma {:induction false} OnlineExactly(env: Env, events: seq<Event>, clock: seq<real>, count: nat)
    requires AllPossible(events) && |clock| == PACK_COUNT && count <= PACK_COUNT
    ensures var s := Run(env, events);
            var online := |FreshPacks(s.fields, s.updatedAt, clock, count)|;
            && online >= HeardCount(env, events, clock, count)
            && (online == HeardCount(env, events, clock, count) <==> SilentPastStart(env, events, clock, count))
  {
    if count > 0 {
      OnlineExactly(env, events, clock, count - 1);
      UpdatedWhenLastHeard(env, events, count);
      SilentOneMore(env, events, clock, count);
      hide Run, LastHeard, SilentPastStart;
    }
  }

  lemma SilentOneMore(env: Env, events: seq<Event>, clock: seq<real>, count: nat)
    requires 0 < count <= |clock|
    ensures SilentPastStart(env, events, clock, count) <==>
              && SilentPastStart(env, events, clock, count - 1)
              && (LastHeard(env, events, count) == None ==> clock[count - 1] >= 180.0)
  {
    hide LastHeard;
  }

  // ----- A run that overcounts -----

  const PARTS: seq<string> := ["N", "wattcycle48ble", "battery", "1", "Dc", "0", "Voltage"]

  /** The topic on which the first pack's voltage arrives. */
  function VoltageTopic(): string { JsonTree.Join(PARTS) }

  lemma TopicAddressed(env: Env)
    requires env.parseInt("1") == Some(1)
    ensures Addressed(env, VoltageTopic()) == Some(Address(1, "Dc/0/Voltage"))
  {
    PartsJoin();
    PartsSplit();
    assert PARTS[2] == "battery" && PARTS[3] == "1";
    hide JsonTree.Split, JsonTree.Join;
  }

  lemma PartsSplit()
    ensures JsonTree.Split(VoltageTopic()) == PARTS
  {
    assert forall i :: 0 <= i < |PARTS| ==> JsonTree.IsPart(PARTS[i]);
    hide JsonTree.Split, JsonTree.Join;
    JsonTree.SplitJoined(PARTS);
  }

  lemma PartsJoin()
    ensures JsonTree.Join(PARTS[4..]) == "Dc/0/Voltage"
  {
    assert PARTS[4..] == ["Dc", "0", "Voltage"];
    assert PARTS[4..][1..] == ["0", "Voltage"] && PARTS[4..][1..][1..] == ["Voltage"];
    assert JsonTree.Join(["0", "Voltage"]) == "0" + "/" + "Voltage";
    assert JsonTree.Join(["Dc", "0", "Voltage"]) == "Dc" + "/" + ("0" + "/" + "Voltage");
  }

  const HALF_MINUTE: seq<real> := [30.0, 30.0, 30.0, 30.0, 30.0, 30.0]

  /** One voltage from one pack ten seconds after the start. */
  function OneMessage(): seq<Event> { [Message(VoltageTopic(), Some(Number(53.0)), 10.0)] }

  lemma OnlyOneHeard(env: Env)
    requires env.parseInt("1") == Some(1)
    ensures forall n: nat | IsPack(n) :: LastHeard(env, OneMessage(), n) == if n == 1 then Some(10.0) else None
  {
    TopicAddressed(env);
    hide Addressed, VoltageTopic;
    assert OneMessage()[..0] == [];
  }

  lemma OneVoltage(env: Env)
    requires env.parseInt("1") == Some(1)
    ensures AllPossible(OneMessage())
    ensures Run(env, OneMessage()).fields[1] == map["Dc/0/Voltage" := Number(53.0)]
    ensures Run(env, OneMessage()).updatedAt == NEVER[1 := 10.0] && Run(env, OneMessage()).lastBank == 0.0
    ensures Run(env, OneMessage()).sent == []
  {
    TopicAddressed(env);
    var e := Message(VoltageTopic(), Some(Number(53.0)), 10.0);
    assert OneMessage() == [e] && [e][..0] == [];
    assert ValueOf(Number(53.0)) == Number(53.0);
    hide Addressed, VoltageTopic, OneMessage, ValueOf;
    assert Run(env, []) == START;
    FirstHeard(env, e);
  }

  lemma FirstHeard(env: Env, e: Event)
    requires e.Message? && e.payload.Some? && Addressed(env, e.topic) == Some(Address(1, "Dc/0/Voltage"))
    ensures Next(env, START, e) == START.(fields := NOBODY[1 := map["Dc/0/Voltage" := ValueOf(e.payload.value)]],
                                          updatedAt := NEVER[1 := e.at])
  {
    hide Addressed, ValueOf, BankNow;
    assert NOBODY[1] == map[];
  }

  /** Five packs that were never heard of count as online: after that one message a pass at half
      a minute sends a bank of six. */
  lemma FiveTooMany(env: Env)
    requires env.parseInt("1") == Some(1)
    ensures AllPossible(OneMessage())
    ensures var n := Next(env, Run(env, OneMessage()), Pass(30.0, HALF_MINUTE, true));
            && |n.sent| == 1 && n.sent[0].1.online == 6
            && HeardCount(env, OneMessage(), HALF_MINUTE, PACK_COUNT) == 1
  {
    hide BankFor, Describes, FreshPacks, Run, Reads, HeardCount, OneMessage, LastHeard, Num;
    OneVoltage(env);
    var s := Run(env, OneMessage());
    var packs := FreshPacks(s.fields, s.updatedAt, HALF_MINUTE, PACK_COUNT);
    AllFresh(s);
    HeardOnce(env);
    VoltageRead(env.parseFloat, packs, s.fields[1]);
    BankDescribes(env.parseFloat, packs);
    DescribesCounts(env.parseFloat, packs, BankFor(env.parseFloat, packs).value);
  }

  lemma VoltageRead(parse: ParseFloat, packs: seq<Pack>, f: Pack)
    requires f in packs && f == map["Dc/0/Voltage" := Number(53.0)]
    ensures Reads(parse, packs, VOLTAGE, 53.0)
  {
    assert Num(parse, f, VOLTAGE) == Some(53.0);
  }

  lemma AllFresh(s: State)
    requires Shaped(s.fields, s.updatedAt) && s.updatedAt == NEVER[1 := 10.0]
    ensures var packs := FreshPacks(s.fields, s.updatedAt, HALF_MINUTE, PACK_COUNT);
            |packs| == 6 && s.fields[1] in packs
  {
    FreshUpTo(s, PACK_COUNT);
  }

  lemma {:induction false} FreshUpTo(s: State, count: nat)
    requires Shaped(s.fields, s.updatedAt) && s.updatedAt == NEVER[1 := 10.0] && count <= PACK_COUNT
    ensures var packs := FreshPacks(s.fields, s.updatedAt, HALF_MINUTE, count);
            |packs| == count && (count > 0 ==> s.fields[1] in packs)
  {
    if count > 0 { FreshUpTo(s, count - 1); }
  }

  lemma HeardOnce(env: Env)
    requires env.parseInt("1") == Some(1)
    ensures HeardCount(env, OneMessage(), HALF_MINUTE, PACK_COUNT) == 1
  {
    OnlyOneHeard(env);
    HeardUpTo(env, PACK_COUNT);
  }

  lemma {:induction false} HeardUpTo(env: Env, count: nat)
    requires count <= PACK_COUNT
    requires forall n: nat | IsPack(n) :: LastHeard(env, OneMessage(), n) == if n == 1 then Some(10.0) else None
    ensures HeardCount(env, OneMessage(), HALF_MINUTE, count) == if count == 0 then 0 else 1
  {
    hide LastHeard, OneMessage;
    if count > 0 {
      HeardUpTo(env, count - 1);
      assert IsPack(count) && HALF_MINUTE[count - 1] == 30.0;
    }
  }

  /** What a pass sends describes the packs that are fresh at that moment, whose fields are the
      last values heard; it counts online exactly the packs heard of, under the condition of
      `OnlineExactly`. */
  lemma PassDescribesFresh(env: Env, events: seq<Event>, now: real, clock: seq<real>, up: bool)
    requires AllPossible(events) && |clock| == PACK_COUNT
    ensures var s := Run(env, events);
            var n := Next(env, s, Pass(now, clock, up));
            n.sent != s.sent ==>
              && |n.sent| == |s.sent| + 1 && n.sent[..|s.sent|] == s.sent && n.sent[|s.sent|].0 == now
              && var bank := n.sent[|s.sent|].1;
                 && Describes(env.parseFloat, FreshPacks(s.fields, s.updatedAt, clock, PACK_COUNT), bank)
                 && (bank.online == HeardCount(env, events, clock, PACK_COUNT)
                     <==> SilentPastStart(env, events, clock, PACK_COUNT))
  {
    var s := Run(env, events);
    var packs := FreshPacks(s.fields, s.updatedAt, clock, PACK_COUNT);
    BankDescribes(env.parseFloat, packs);
    OnlineExactly(env, events, clock, PACK_COUNT);
    if BankFor(env.parseFloat, packs).Some? {
      DescribesCounts(env.parseFloat, packs, BankFor(env.parseFloat, packs).value);
    }
    hide BankFor, Describes, FreshPacks, HeardCount, SilentPastStart, Run;
  }

  // ----- What is sent -----

  function LastTime(sent: seq<(real, Bank)>): real { if sent == [] then 0.0 else sent[|sent| - 1].0 }

  /** Bank objects went out at least half a minute apart, the first one included. */
  ghost predicate Spaced(sent: seq<(real, Bank)>) {
    sent != [] ==>
      var front := sent[..|sent| - 1];
      Spaced(front) && LastTime(sent) - LastTime(front) >= 30.0
  }

  lemma SpaceOne(sent: seq<(real, Bank)>, one: (real, Bank))
    requires Spaced(sent) && one.0 - LastTime(sent) >= 30.0
    ensures Spaced(sent + [one])
  {
    assert (sent + [one])[..|sent|] == sent;
  }

  lemma {:induction false} RunSendsSpaced(env: Env, events: seq<Event>)
    requires AllPossible(events)
    ensures var s := Run(env, events); Spaced(s.sent) && s.lastBank == LastTime(s.sent)
  {
    if events != [] {
      var before, e := Run(env, events[..|events| - 1]), events[|events| - 1];
      RunSendsSpaced(env, events[..|events| - 1]);
      assert e in events;
      hide Spaced, BankFor, FreshPacks, Addressed, ValueOf;
      if e.Pass? && e.now - before.lastBank >= HEARTBEAT && BankNow(env, before, e.clock).Some? {
        SpaceOne(before.sent, (e.now, BankNow(env, before, e.clock).value));
      }
    }
  }

  lemma {:induction false} SpacedOut(sent: seq<(real, Bank)>)
    requires Spaced(sent)
    ensures 30.0 * |sent| as real <= LastTime(sent)
  {
    if sent != [] { SpacedOut(sent[..|sent| - 1]); } else { assert |sent| as real == 0.0; }
  }

  /** The k-th event is the pass that sent this object. */
  ghost predicate SentByPass(env: Env, events: seq<Event>, k: nat, one: (real, Bank))
    requires AllPossible(events)
  {
    && k < |events| && events[k].Pass? && Possible(events[k]) && one.0 == events[k].now
    && BankNow(env, Run(env, events[..k]), events[k].clock) == Some(one.1)
  }

  lemma OnlyPassesSend(env: Env, s: State, e: Event)
    requires Shaped(s.fields, s.updatedAt) && Possible(e)
    ensures var n := Next(env, s, e);
            n.sent == s.sent
            || (e.Pass? && BankNow(env, s, e.clock).Some?
                && n.sent == s.sent + [(e.now, BankNow(env, s, e.clock).value)])
  {
    hide BankNow, Addressed, ValueOf;
  }

  /** Every object sent was made by one pass, from what had been heard by then. */
  lemma {:induction false} SenderOf(env: Env, events: seq<Event>, i: nat) returns (k: nat)
    requires AllPossible(events) && i < |Run(env, events).sent|
    ensures SentByPass(env, events, k, Run(env, events).sent[i])
  {
    var n := |events| - 1;
    var front, e := events[..n], events[n];
    assert e in events;
    OnlyPassesSend(env, Run(env, front), e);
    hide Next, BankNow;
    if i < |Run(env, front).sent| {
      k := SenderOf(env, front, i);
      assert front[..k] == events[..k];
    } else {
      k := n;
    }
  }

  /** The packs a pass sums up: those fresh by its own readings of the clock, with the fields
      last heard before it. */
  function PacksOf(env: Env, events: seq<Event>, k: nat): seq<Pack>
    requires AllPossible(events) && k < |events| && events[k].Pass?
  {
    assert Possible(events[k]);
    var s := Run(env, events[..k]);
    FreshPacks(s.fields, s.updatedAt, events[k].clock, PACK_COUNT)
  }

  /** Over every interleaving of messages and passes: each object sent describes the packs
      fresh at the pass that sent it, accounts for all six packs, and no more than one object
      is sent for every thirty seconds on the clock. */
  lemma EveryBankSent(env: Env, events: seq<Event>, i: nat) returns (k: nat)
    requires AllPossible(events) && i < |Run(env, events).sent|
    ensures k < |events| && events[k].Pass?
    ensures var sent := Run(env, events).sent;
            && sent[i].0 == events[k].now && Describes(env.parseFloat, PacksOf(env, events, k), sent[i].1)
            && sent[i].1.online + sent[i].1.offline == 6 && sent[i].1.offline >= 0
            && 30.0 * |sent| as real <= sent[|sent| - 1].0
  {
    RunSendsSpaced(env, events);
    k := SenderOf(env, events, i);
    var sent := Run(env, events).sent;
    assert LastTime(sent) == sent[|sent| - 1].0;
    BankDescribes(env.parseFloat, PacksOf(env, events, k));
    DescribesCounts(env.parseFloat, PacksOf(env, events, k), sent[i].1);
    hide Run, Describes, FreshPacks, BankFor, Spaced, LastTime;
    SpacedOut(sent);
  }

  lemma DescribesCounts(parse: ParseFloat, packs: seq<Pack>, bank: Bank)
    requires Describes(parse, packs, bank)
    ensures bank.online == |packs| && bank.online + bank.offline == 6
  {}
}

/** What the two brokers hold after any run of the daemon: the Cerbo's object is always the
    current bank unless its publish just failed; the coach's topics agree except in one case,
    stated exactly. */
module PackFeeds {
  import opened Prelude
  import opened PackDecoder
  import opened PackPublisher

  ghost predicate AllPossible(turns: seq<Turn>) { forall t <- turns :: Possible(t) }

  /** The publish of the last pass was due, and failed. */
  ghost predicate CerboFails(name: Namer, s: State, t: Turn)
    requires Possible(t)
  {
    var frames := Received(s.frames, t);
    frames != map[] && Due(s.cerbo.last, s.cerbo.at, BankNow(name, frames), t.now) && !t.up
  }

  // ----- The Cerbo -----

  lemma {:induction false} RetainedIsLast(name: Namer, turns: seq<Turn>)
    requires AllPossible(turns)
    ensures Run(name, turns).cerbo.retained == Run(name, turns).cerbo.last
  {
    if turns != [] {
      hide BankNow, ValuesOf, CoachNext, Received;
      RetainedIsLast(name, turns[..|turns| - 1]);
    }
  }

  /** After any run whose last Cerbo publish did not fail, the Cerbo holds exactly the bank
      of the frames received so far, and was told so less than half a minute ago. */
  lemma CerboFollows(name: Namer, turns: seq<Turn>, t: Turn)
    requires AllPossible(turns) && Possible(t)
    ensures var s := Next(name, Run(name, turns), t);
            !CerboFails(name, Run(name, turns), t) && s.frames != map[] ==>
              s.cerbo.retained == Some(BankNow(name, s.frames)) && t.now - s.cerbo.at < HEARTBEAT
  {
    hide BankNow, ValuesOf, CoachNext, Received, Run;
    RetainedIsLast(name, turns);
  }

  /** Whatever fails, the Cerbo never holds a mixture: always the bank of some moment. */
  lemma {:induction false} CerboNeverMixed(name: Namer, turns: seq<Turn>) returns (k: nat)
    requires AllPossible(turns)
    ensures k <= |turns|
    ensures var held := Run(name, turns).cerbo.retained;
            held == None || held == Some(BankNow(name, Run(name, turns[..k]).frames))
  {
    k := |turns|;
    assert turns[..k] == turns;
    if turns != [] {
      hide BankNow, ValuesOf, CoachNext, Received;
      var front := turns[..k - 1];
      var j := CerboNeverMixed(name, front);
      assert front[..j] == turns[..j];
      if Run(name, turns).cerbo.retained == Run(name, front).cerbo.retained { k := j; }
    }
  }

  /** A failed publish is tried again on the next pass, unless the bank has by then gone back
      to what the Cerbo holds; with no new frame it always is. */
  lemma CerboRetries(name: Namer, turns: seq<Turn>, t: Turn, u: Turn)
    requires AllPossible(turns) && Possible(t) && Possible(u) && t.now <= u.now
    ensures var s := Next(name, Run(name, turns), t);
            var bank := BankNow(name, Received(s.frames, u));
            CerboFails(name, Run(name, turns), t) ==>
            && (Due(s.cerbo.last, s.cerbo.at, bank, u.now)
                || (s.cerbo.retained == Some(bank) && u.now - s.cerbo.at < HEARTBEAT))
            && (u.frame == None ==> Due(s.cerbo.last, s.cerbo.at, bank, u.now))
            && (u.frame == None && u.up ==> Next(name, s, u).cerbo == Cerbo(Some(bank), u.now, Some(bank)))
  {
    hide BankNow, ValuesOf, CoachNext, Run, Keep;
    RetainedIsLast(name, turns);
  }

  // ----- Frames, times and order -----

  /** Of the identifier the low eleven bits count, and eleven identifiers are kept; of the octets
      as many as the frame announces, at most eight. */
  lemma FramesKept(name: Namer, s: State, t: Turn)
    requires Possible(t)
    ensures var known := {0x351, 0x355, 0x356, 0x359, 0x35A, 0x35C, 0x35E, 0x370, 0x371, 0x373, 0x379};
            Next(name, s, t).frames
            == if t.frame.Some? && t.frame.value.id % 2048 in known then
                 var f := t.frame.value;
                 s.frames[f.id % 2048 := if f.dlc < 8 then f.data[..f.dlc] else f.data]
               else s.frames
  {
    if t.frame.Some? { assert t.frame.value.data[..8] == t.frame.value.data; }
    hide ValuesOf, BankNow, CoachNext, CerboNext;
  }

  /** The Cerbo is sent the bank exactly when it can be reached and holds another one, or has held
      this one for half a minute. */
  lemma CerboPaced(name: Namer, turns: seq<Turn>, t: Turn)
    requires AllPossible(turns) && Possible(t)
    ensures var s := Run(name, turns);
            var n := Next(name, s, t);
            var bank := BankNow(name, n.frames);
            n.cerbo == if n.frames != map[] && t.up
                          && (s.cerbo.retained != Some(bank) || t.now >= s.cerbo.at + 30.0)
                       then Cerbo(Some(bank), t.now, Some(bank)) else s.cerbo
  {
    RetainedIsLast(name, turns);
    hide BankNow, ValuesOf, CoachNext, Run, Received;
  }

  /** The coach is sent the values exactly when the last whole publish had others or is half a
      minute old. It is whole when the broker takes a message for every value. */
  lemma CoachPaced(name: Namer, s: State, t: Turn)
    requires Possible(t)
    ensures var n := Next(name, s, t);
            var values := ValuesOf(name, n.frames);
            var due := n.frames != map[] && (s.coach.last != Some(values) || t.now >= s.coach.at + 30.0);
            && n.coach.topics == (if due then s.coach.topics + Delivered(values, t.reach) else s.coach.topics)
            && (n.coach.last, n.coach.at)
               == (if due && t.reach >= |values| then (Some(values), t.now) else (s.coach.last, s.coach.at))
  {
    hide BankNow, ValuesOf, Received, Delivered, Topics, CerboNext;
    CoachSteps(s.coach, ValuesOf(name, Received(s.frames, t)), t);
    hide CoachNext, Due, Whole;
  }

  lemma CoachSteps(c: Coach, values: Values, t: Turn)
    ensures var n, due := CoachNext(c, values, t), c.last != Some(values) || t.now >= c.at + 30.0;
            && n.topics == (if due then c.topics + Delivered(values, t.reach) else c.topics)
            && (n.last, n.at) == if due && t.reach >= |values| then (Some(values), t.now) else (c.last, c.at)
  {
    TopicsCount(values);
    hide Topics, Delivered;
  }

  ghost predicate Distinct(order: seq<Path>) { forall i, j :: 0 <= i < j < |order| ==> order[i] != order[j] }

  function Present(values: Values, order: seq<Path>): set<Path> { set p | p in order && p in values }

  lemma PresentStep(values: Values, p: Path, rest: seq<Path>)
    requires p !in rest
    ensures Present(values, [p] + rest) == Present(values, rest) + if p in values then {p} else {}
    ensures |Present(values, [p] + rest)| == |Present(values, rest)| + if p in values then 1 else 0
  {
    assert forall q :: q in [p] + rest <==> q == p || q in rest;
  }

  lemma {:induction false} AmongCount(values: Values, order: seq<Path>)
    requires Distinct(order)
    ensures |Among(values, order)| == |Present(values, order)|
  {
    if order != [] {
      AmongCount(values, order[1..]);
      assert order == [order[0]] + order[1..] && order[0] !in order[1..];
      hide Present, Distinct;
      PresentStep(values, order[0], order[1..]);
    }
  }

  lemma OrderDistinct()
    ensures Distinct(ORDER)
  {
    hide Place;
    forall i | 0 <= i < |ORDER| ensures Place(ORDER[i]) == i { PlaceOf(i); }
  }

  lemma PlaceOf(i: nat)
    requires i < |ORDER|
    ensures Place(ORDER[i]) == i
  {}

  /** One topic for every value. */
  lemma TopicsCount(values: Values)
    ensures |Topics(values)| == |values|
  {
    OrderDistinct();
    hide Distinct;
    AmongCount(values, ORDER);
    EveryPath();
    assert Present(values, ORDER) == values.Keys;
    hide Among;
  }

  /** The topics stand at these places of the order. */
  ghost predicate StandAt(topics: seq<Path>, order: seq<Path>, ks: seq<nat>) {
    && |ks| == |topics| && (forall i, j :: 0 <= i < j < |ks| ==> ks[i] < ks[j])
    && forall i :: 0 <= i < |ks| ==> ks[i] < |order| && topics[i] == order[ks[i]]
  }

  lemma StandBehind(topics: seq<Path>, p: Path, rest: seq<Path>, ks: seq<nat>) returns (moved: seq<nat>)
    requires StandAt(topics, rest, ks)
    ensures StandAt(topics, [p] + rest, moved) && StandAt([p] + topics, [p] + rest, [0] + moved)
  {
    moved := seq(|ks|, i requires 0 <= i < |ks| => ks[i] + 1);
  }

  lemma {:induction false} AmongInOrder(values: Values, order: seq<Path>) returns (ks: seq<nat>)
    ensures StandAt(Among(values, order), order, ks)
  {
    if order == [] {
      ks := [];
    } else {
      ks := AmongInOrder(values, order[1..]);
      assert order == [order[0]] + order[1..];
      hide StandAt;
      ks := StandBehind(Among(values, order[1..]), order[0], order[1..], ks);
      if order[0] in values { ks := [0] + ks; } else { assert [] + Among(values, order[1..]) == Among(values, order); }
    }
  }

  /** The topics go out in the order in which the decoder fills its dictionary. */
  lemma TopicsInOrder(values: Values) returns (ks: seq<nat>)
    ensures var order :=
              [ProductName, CustomName, Connected, MaxChargeVoltage, MaxChargeCurrent, MaxDischargeCurrent,
               BatteryLowVoltage, Soc, Soh, Voltage, Current, Temperature, ModuleCount, Alarm, ChargeRequest,
               DischargeRequest, MinCellVoltage, MaxCellVoltage, MinCellTemperature, MaxCellTemperature, Capacity];
            StandAt(Topics(values), order, ks)
  {
    ks := AmongInOrder(values, ORDER);
    hide Among, StandAt;
  }

  /** When the broker goes away after some messages, the first topics have been reached, as many as
      there were messages, each once. */
  lemma DeliveredFirst(values: Values, reach: nat, p: Path)
    ensures |Topics(values)| == |values|
    ensures p in Delivered(values, reach) <==> exists i :: 0 <= i < |values| && i < reach && Topics(values)[i] == p
    ensures p in Delivered(values, reach) ==> p in values && Delivered(values, reach)[p] == values[p]
  {
    TopicsCount(values);
    hide Topics;
  }

  // ----- The coach -----

  ghost predicate CoachDue(name: Namer, s: State, t: Turn)
    requires Possible(t)
  {
    var frames := Received(s.frames, t);
    frames != map[] && Due(s.coach.last, s.coach.at, ValuesOf(name, frames), t.now)
  }

  /** What the publishes that failed since the last one that succeeded have left behind. */
  ghost function Leftovers(name: Namer, turns: seq<Turn>): Values
    requires AllPossible(turns)
  {
    if turns == [] then map[]
    else
      var front, t := turns[..|turns| - 1], turns[|turns| - 1];
      var s := Run(name, front);
      var values := ValuesOf(name, Received(s.frames, t));
      if !CoachDue(name, s, t) then Leftovers(name, front)
      else if Whole(values, t.reach) then map[]
      else Leftovers(name, front) + Delivered(values, t.reach)
  }

  /** The topics of the last whole publish, as left behind by the failures since. */
  ghost predicate Overlaid(c: Coach, left: Values) {
    c.last.Some? ==>
      forall p <- c.last.value :: p in c.topics && c.topics[p] == if p in left then left[p] else c.last.value[p]
  }

  lemma CoachStep(name: Namer, s: State, t: Turn, left: Values)
    requires Possible(t) && Overlaid(s.coach, left)
    ensures var values := ValuesOf(name, Received(s.frames, t));
            var c := Next(name, s, t).coach;
            if !CoachDue(name, s, t) then c == s.coach
            else if Whole(values, t.reach) then c.last == Some(values) && c.at == t.now && Agree(c.topics, values)
            else c.last == s.coach.last && c.at == s.coach.at && Overlaid(c, left + Delivered(values, t.reach))
  {
    var values := ValuesOf(name, Received(s.frames, t));
    if Whole(values, t.reach) { DeliveredWhole(values, t.reach); }
    hide ValuesOf, BankNow, Received, Delivered, Whole;
  }

  lemma {:induction false} TopicsAreOverlaid(name: Namer, turns: seq<Turn>)
    requires AllPossible(turns)
    ensures Overlaid(Run(name, turns).coach, Leftovers(name, turns))
  {
    if turns != [] {
      var front, t := turns[..|turns| - 1], turns[|turns| - 1];
      TopicsAreOverlaid(name, front);
      CoachStep(name, Run(name, front), t, Leftovers(name, front));
      hide Next, ValuesOf, Delivered, Whole, Received, CoachDue;
    }
  }

  /** After every publish that went through, every topic has its current value. */
  lemma CoachAgreesOnceWhole(name: Namer, turns: seq<Turn>, t: Turn)
    requires AllPossible(turns) && Possible(t)
    ensures var before := Run(name, turns);
            var s := Next(name, before, t);
            CoachDue(name, before, t) && Whole(ValuesOf(name, Received(before.frames, t)), t.reach) ==>
              Agree(s.coach.topics, ValuesOf(name, s.frames)) && s.coach.at == t.now
  {
    TopicsAreOverlaid(name, turns);
    CoachStep(name, Run(name, turns), t, Leftovers(name, turns));
    hide ValuesOf, Whole, Run, Received, Leftovers, Delivered;
  }

  /** On a pass that has nothing to publish, the topics agree exactly when nothing left behind
      by failed publishes contradicts the values, and any disagreement is younger than half
      a minute since the last whole publish. */
  lemma QuietAgreesExactly(name: Namer, turns: seq<Turn>, t: Turn)
    requires AllPossible(turns) && Possible(t)
    requires !CoachDue(name, Run(name, turns), t)
    ensures var s := Next(name, Run(name, turns), t);
            var values, left := ValuesOf(name, s.frames), Leftovers(name, turns);
            s.frames != map[] ==>
              && (Agree(s.coach.topics, values) <==> forall p | p in left && p in values :: left[p] == values[p])
              && (left == map[] ==> Agree(s.coach.topics, values))
              && t.now - s.coach.at < HEARTBEAT
  {
    TopicsAreOverlaid(name, turns);
    CoachStep(name, Run(name, turns), t, Leftovers(name, turns));
    hide ValuesOf, Whole, Run, Received, Leftovers, Delivered, CerboNext;
  }

  lemma DeliveredIsShown(values: Values, reach: nat)
    ensures forall p <- Delivered(values, reach) :: p in values && Delivered(values, reach)[p] == values[p]
  {
    hide Topics;
  }

  /** On a pass whose publish was due and failed, before the first whole publish or after, the
      topics agree exactly when those it did not reach had their values already. */
  lemma FailedAgreesExactly(name: Namer, turns: seq<Turn>, t: Turn)
    requires AllPossible(turns) && Possible(t)
    ensures var before := Run(name, turns);
            var values := ValuesOf(name, Received(before.frames, t));
            CoachDue(name, before, t) && !Whole(values, t.reach) ==>
              (Agree(Next(name, before, t).coach.topics, values) <==>
               forall p <- values | p !in Delivered(values, t.reach) ::
                 p in before.coach.topics && before.coach.topics[p] == values[p])
  {
    hide ValuesOf, Run, Received, Delivered, Whole, CerboNext, Keep;
    DeliveredIsShown(ValuesOf(name, Received(Run(name, turns).frames, t)), t.reach);
  }

  /** Before the first whole publish there is no quiet pass: with frames, one is due. */
  lemma DueUntilWhole(name: Namer, turns: seq<Turn>, t: Turn)
    requires AllPossible(turns) && Possible(t) && Run(name, turns).coach.last == None
    ensures CoachDue(name, Run(name, turns), t) <==> Received(Run(name, turns).frames, t) != map[]
  {}

  // ----- The case in which they disagree -----

  lemma {:induction false} AmongHas(values: Values, order: seq<Path>, b: nat) returns (j: nat)
    requires b < |order| && order[b] in values
    ensures j < |Among(values, order)| && Among(values, order)[j] == order[b]
  {
    if b == 0 { j := 0; }
    else {
      var k := AmongHas(values, order[1..], b - 1);
      j := if order[0] in values then k + 1 else k;
    }
  }

  lemma {:induction false} AmongOrdered(values: Values, order: seq<Path>, a: nat, b: nat) returns (i: nat, j: nat)
    requires a < b < |order| && order[a] in values && order[b] in values
    ensures i < j < |Among(values, order)| && Among(values, order)[i] == order[a] && Among(values, order)[j] == order[b]
  {
    if a == 0 {
      i := 0;
      var k := AmongHas(values, order[1..], b - 1);
      j := k + 1;
    } else {
      var x, y := AmongOrdered(values, order[1..], a - 1, b - 1);
      i, j := if order[0] in values then x + 1 else x, if order[0] in values then y + 1 else y;
    }
  }

  function ChargeFrame(soc: byte): RawFrame { RawFrame(0x355, 4, [soc, 0, 99, 0, 0, 0, 0, 0]) }

  function ChargeOnly(soc: byte): map<nat, bytes> { map[0x355 := [soc, 0, 99, 0]] }

  lemma KeepCharge(frames: map<nat, bytes>, was: byte, soc: byte)
    requires frames == map[] || frames == ChargeOnly(was)
    ensures ChargeOnly(soc) != map[] && Received(frames, ChargeTurn(soc, 0.0, 0)) == ChargeOnly(soc)
  {
    assert PY_IDS[1] == 0x355;
    assert ChargeFrame(soc).data[..4] == [soc, 0, 99, 0];
    assert 0x355 in ChargeOnly(soc);
  }

  lemma ChargePaths(p: Path)
    ensures Layout(p).Some? && Layout(p).value.id == 0x355 <==> p == Soc || p == Soh
  {}

  lemma ChargeShown(soc: byte, p: Path)
    ensures Shown(LatestOf(ChargeOnly(soc)), p).Some? <==> p == Soc || p == Soh
    ensures p == Soc ==> Shown(LatestOf(ChargeOnly(soc)), p) == Some(Fixed(soc, 0))
  {
    ChargePaths(p);
    ChargeOctets(soc);
    if p == Soc || p == Soh { assert Layout(p) == Some(Field(0x355, 4, if p == Soc then 0 else 2, Unsigned, 0)); }
    hide U16, NoCells, Layout, LatestOf, ChargeOnly;
  }

  lemma ChargeOctets(soc: byte)
    ensures forall id: nat :: LatestOf(ChargeOnly(soc))(id) == if id == 0x355 then Some([soc, 0, 99, 0]) else None
    ensures U16([soc, 0, 99, 0], 0) == soc
  {}

  lemma ChargeNames(name: Namer, soc: byte)
    ensures Names(name, LatestOf(ChargeOnly(soc))).Keys == {ProductName, CustomName}
  {}

  lemma ChargeValues(name: Namer, soc: byte)
    ensures var values := ValuesOf(name, ChargeOnly(soc));
            values.Keys == {ProductName, CustomName, Connected, Soc, Soh} && values[Soc] == Fixed(soc, 0)
  {
    var latest := LatestOf(ChargeOnly(soc));
    NumbersAreShown(latest);
    ChargeNames(name, soc);
    hide Shown, Numbers, LatestOf, ChargeOnly, Names;
    forall p: Path ensures Shown(latest, p).Some? <==> p == Soc || p == Soh { ChargeShown(soc, p); }
    ChargeShown(soc, Soc);
  }

  function ChargeTurn(soc: byte, now: real, reach: nat): (t: Turn)
    ensures Possible(t)
  {
    Turn(Some(ChargeFrame(soc)), now, reach, true)
  }

  lemma WholePass(name: Namer, s: State, soc: byte, t: Turn, v: Values)
    requires s.frames == map[] && s.coach.last == None
    requires t.frame == Some(ChargeFrame(soc)) && v == ValuesOf(name, ChargeOnly(soc)) && Whole(v, t.reach)
    ensures Possible(t)
    ensures var n := Next(name, s, t);
            n.frames == ChargeOnly(soc) && n.coach.last == Some(v) && n.coach.at == t.now
  {
    KeepCharge(s.frames, 0, soc);
    PossibleCharge(soc);
    hide *;
    assert t.frame == ChargeTurn(soc, 0.0, 0).frame by { FrameOf(soc); }
    ReceivedDependsOnFrame(s.frames, t, ChargeTurn(soc, 0.0, 0));
    PublishesWhole(name, s, t, ChargeOnly(soc));
  }

  lemma FrameOf(soc: byte)
    ensures ChargeTurn(soc, 0.0, 0).frame == Some(ChargeFrame(soc))
  {}

  lemma PossibleCharge(soc: byte)
    ensures forall t: Turn :: t.frame == Some(ChargeFrame(soc)) ==> Possible(t)
  {}

  lemma ReceivedDependsOnFrame(frames: map<nat, bytes>, t: Turn, u: Turn)
    requires t.frame == u.frame && Possible(t) && Possible(u)
    ensures Received(frames, t) == Received(frames, u)
  {}

  lemma PublishesWhole(name: Namer, s: State, t: Turn, frames: map<nat, bytes>)
    requires Possible(t) && Received(s.frames, t) == frames && frames != map[] && s.coach.last == None
    requires Whole(ValuesOf(name, frames), t.reach)
    ensures var n := Next(name, s, t);
            n.frames == frames && n.coach.last == Some(ValuesOf(name, frames)) && n.coach.at == t.now
  {
    hide ValuesOf, BankNow, CerboNext, Whole, Received, Delivered;
  }

  lemma PartialPass(name: Namer, s: State, was: byte, soc: byte, now: real, reach: nat)
    requires s.frames == ChargeOnly(was)
    requires var v := ValuesOf(name, ChargeOnly(soc));
             s.coach.last != Some(v) && reach < |Topics(v)| && Soc in Delivered(v, reach)
    ensures var n := Next(name, s, ChargeTurn(soc, now, reach));
            && n.frames == ChargeOnly(soc) && n.coach.last == s.coach.last && n.coach.at == s.coach.at
            && Soc in n.coach.topics && n.coach.topics[Soc] == ValuesOf(name, ChargeOnly(soc))[Soc]
  {
    KeepCharge(s.frames, was, soc);
    hide ValuesOf, BankNow, CerboNext, Topics, Keep, ChargeOnly, ChargeFrame, Delivered;
  }

  lemma QuietPass(name: Namer, s: State, was: byte, soc: byte, now: real, reach: nat)
    requires s.frames == ChargeOnly(was)
    requires s.coach.last == Some(ValuesOf(name, ChargeOnly(soc))) && now - s.coach.at < HEARTBEAT
    ensures var t := ChargeTurn(soc, now, reach);
            var n := Next(name, s, t);
            !CoachDue(name, s, t) && n.frames == ChargeOnly(soc) && n.coach == s.coach
  {
    KeepCharge(s.frames, was, soc);
    hide ValuesOf, BankNow, CerboNext, Topics, Keep, ChargeOnly, ChargeFrame, Delivered;
  }

  lemma RunOfTwo(name: Namer, t1: Turn, t2: Turn)
    requires Possible(t1) && Possible(t2)
    ensures Run(name, [t1, t2]) == Next(name, Next(name, START, t1), t2)
  {
    hide Next;
    assert [t1, t2][..1] == [t1] && [t1][..0] == [];
    assert Run(name, []) == START;
    assert Run(name, [t1]) == Next(name, START, t1);
  }

  /** A topic holds one value while the pack has another. */
  ghost predicate Wrong(name: Namer, s: State, p: Path, held: Value, actual: Value) {
    var values := ValuesOf(name, s.frames);
    p in s.coach.topics && s.coach.topics[p] == held && p in values && values[p] == actual && held != actual
  }

  /** Three passes that leave the coach wrong: the charge goes from 50 to 51, that publish
      fails after its topic, the charge returns to 50 and nothing more is published. */
  lemma MixedAfterRevert(name: Namer) returns (turns: seq<Turn>, t: Turn)
    ensures AllPossible(turns) && Possible(t) && !CoachDue(name, Run(name, turns), t)
    ensures Wrong(name, Next(name, Run(name, turns), t), Soc, Fixed(51, 0), Fixed(50, 0))
  {
    ChargeValues(name, 51);
    var reach := SocGoesOut(ValuesOf(name, ChargeOnly(51)));
    var t1, t2 := ChargeTurn(50, 100.0, |Topics(ValuesOf(name, ChargeOnly(50)))|), ChargeTurn(51, 101.0, reach);
    turns, t := [t1, t2], ChargeTurn(50, 102.0, 0);
    RunOfTwo(name, t1, t2);
    ThreePasses(name, t1, t2, t, reach);
    hide *;
    BothPossible(t1, t2);
  }

  lemma BothPossible(t1: Turn, t2: Turn)
    requires Possible(t1) && Possible(t2)
    ensures AllPossible([t1, t2])
  {}

  lemma ThreePasses(name: Namer, t1: Turn, t2: Turn, t3: Turn, reach: nat)
    requires t1 == ChargeTurn(50, 100.0, |Topics(ValuesOf(name, ChargeOnly(50)))|)
    requires t2 == ChargeTurn(51, 101.0, reach) && t3 == ChargeTurn(50, 102.0, 0)
    requires var v := ValuesOf(name, ChargeOnly(51)); reach < |Topics(v)| && Soc in Delivered(v, reach)
    ensures var s := Next(name, Next(name, START, t1), t2);
            !CoachDue(name, s, t3) && Wrong(name, Next(name, s, t3), Soc, Fixed(51, 0), Fixed(50, 0))
  {
    ChargeValues(name, 50);
    ChargeValues(name, 51);
    assert t1.frame == Some(ChargeFrame(50)) && t1.now == 100.0;
    hide ValuesOf, Topics, Delivered, Next, CoachDue, ChargeTurn, ChargeOnly, ChargeFrame;
    WholePass(name, START, 50, t1, ValuesOf(name, ChargeOnly(50)));
    var s1 := Next(name, START, t1);
    assert s1.coach.last != Some(ValuesOf(name, ChargeOnly(51)));
    PartialPass(name, s1, 50, 51, 101.0, reach);
    var s2 := Next(name, s1, t2);
    QuietPass(name, s2, 51, 50, 102.0, 0);
  }

  /** A publish can stop after the charge and before the last topic. */
  lemma SocGoesOut(values: Values) returns (reach: nat)
    requires Soc in values && Soh in values
    ensures reach < |Topics(values)| && Soc in Delivered(values, reach)
  {
    assert ORDER[7] == Soc && ORDER[8] == Soh;
    var i, j := AmongOrdered(values, ORDER, 7, 8);
    reach := j;
    assert Topics(values)[..j][i] == Soc;
    hide Among, ORDER;
  }
}

/** The firmware's feed: publish the list when it changed or half a minute has passed, and
    remember it as published whatever became of the messages. */
module SlotFeed {
  import opened Prelude
  import opened PackDecoder
  import opened SlotDecoder
  import PackPublisher

  const HEARTBEAT_MS := 30000

  /** The clock counts milliseconds in thirty-two bits and wraps around. */
  const WRAP := 0x1_0000_0000

  type Outcomes = nat -> bool

  /** The list last published, when, and the topics the broker holds. */
  datatype Feed = Feed(last: seq<Entry>, at: nat, topics: Values)

  const START := Feed([], 0, map[])

  function Elapsed(now: nat, at: nat): nat { (now - at) % WRAP }

  predicate Quiet(f: Feed, entries: seq<Entry>, now: nat) {
    entries == f.last && |f.last| > 0 && Elapsed(now, f.at) < HEARTBEAT_MS
  }

  /** The topics after a round of messages, of which some are lost. */
  function After(topics: Values, entries: seq<Entry>, works: Outcomes): Values {
    if entries == [] then topics
    else
      var n := |entries| - 1;
      var front := After(topics, entries[..n], works);
      if works(n) then front[entries[n].path := entries[n].value] else front
  }

  function Next(f: Feed, entries: seq<Entry>, now: nat, works: Outcomes): Feed {
    if Quiet(f, entries, now) then f else Feed(entries, now, After(f.topics, entries, works))
  }

  /** A round goes out exactly when the list is empty, is another one, or has stood for half a
      minute on the wrapping clock. */
  lemma FeedPaced(f: Feed, entries: seq<Entry>, now: nat, works: Outcomes)
    ensures Next(f, entries, now, works)
            == if entries != [] && entries == f.last && (now - f.at) % 4294967296 < 30000 then f
               else Feed(entries, now, After(f.topics, entries, works))
  {}

  class ValuePublisher {
    const last: array<Entry>
    var lastCount: nat
    var lastPublishMs: nat
    var topics: Values

    ghost predicate Valid()
      reads this
    {
      last.Length == CAPACITY && lastCount <= CAPACITY
    }

    ghost function Now(): Feed
      requires Valid()
      reads this, last
    {
      Feed(last[..lastCount], lastPublishMs, topics)
    }

    constructor ()
      ensures Valid() && fresh(last) && Now() == START
    {
      last := new Entry[CAPACITY](_ => Entry(Connected, Fixed(0, 0)));
      lastCount, lastPublishMs, topics := 0, 0, map[];
    }

    /** Whether the list differs from the one remembered. */
    method Changed(values: array<Entry>, count: nat) returns (changed: bool)
      requires Valid() && count <= values.Length
      ensures changed <==> values[..count] != last[..lastCount]
    {
      changed := count != lastCount;
      if !changed {
        for i := 0 to count
          invariant values[..i] == last[..i]
        {
          if values[i] != last[i] {
            assert values[..count][i] != last[..lastCount][i];
            return true;
          }
        }
      }
    }

    /** One message per entry; a lost one is passed over. */
    method SendAll(values: array<Entry>, count: nat, works: Outcomes) returns (ok: nat)
      requires count <= values.Length
      modifies `topics
      ensures topics == After(old(topics), values[..count], works)
      ensures ok <= count && (ok == count <==> forall i :: 0 <= i < count ==> works(i))
    {
      ok := 0;
      for i := 0 to count
        invariant topics == After(old(topics), values[..i], works)
        invariant ok <= i && (ok == i <==> forall j :: 0 <= j < i ==> works(j))
      {
        assert values[..i + 1][..i] == values[..i];
        if works(i) {
          topics := topics[values[i].path := values[i].value];
          ok := ok + 1;
        }
      }
    }

    method PublishValues(values: array<Entry>, count: nat, now: nat, works: Outcomes) returns (done: bool)
      requires Valid() && values.Length == CAPACITY && count <= CAPACITY && values != last && now < WRAP
      modifies this, last
      ensures Valid() && Now() == Next(old(Now()), values[..count], now, works)
      ensures done <==> Quiet(old(Now()), values[..count], now) || forall i :: 0 <= i < count ==> works(i)
    {
      var changed := Changed(values, count);
      if !changed && lastCount > 0 && (now - lastPublishMs) % WRAP < HEARTBEAT_MS { return true; }
      var ok := SendAll(values, count, works);
      for i := 0 to count
        invariant last[..i] == values[..i]
        modifies last
      {
        last[i] := values[i];
      }
      lastCount := count;
      lastPublishMs := now;
      return ok == count;
    }
  }

  // ----- When the topics agree -----

  /** The last entry of its path. */
  predicate Final(entries: seq<Entry>, i: nat) {
    i < |entries| && forall j :: i < j < |entries| ==> entries[j].path != entries[i].path
  }

  predicate Holds(topics: Values, e: Entry) { e.path in topics && topics[e.path] == e.value }

  /** Every path's last message got through, or its topic held the value already. */
  ghost predicate Arrived(topics: Values, entries: seq<Entry>, works: Outcomes) {
    forall i | 0 <= i < |entries| && Final(entries, i) ::
      works(i) || Holds(After(topics, entries[..i], works), entries[i])
  }

  lemma {:induction false} AfterFinal(topics: Values, entries: seq<Entry>, works: Outcomes, i: nat)
    requires Final(entries, i)
    ensures Holds(After(topics, entries, works), entries[i])
            <==> works(i) || Holds(After(topics, entries[..i], works), entries[i])
  {
    var n := |entries| - 1;
    if i < n {
      var front := entries[..n];
      assert front[i] == entries[i] && front[..i] == entries[..i];
      assert Final(front, i) by {
        forall j | i < j < |front| ensures front[j].path != front[i].path { assert entries[j] == front[j]; }
      }
      AfterFinal(topics, front, works, i);
      assert entries[n].path != entries[i].path;
    }
  }

  /** The list as a map has, for every path, the value of its last entry. */
  lemma {:induction false} FinalIsShown(entries: seq<Entry>, i: nat)
    requires Final(entries, i)
    ensures entries[i].path in AsMap(entries) && AsMap(entries)[entries[i].path] == entries[i].value
  {
    var n := |entries| - 1;
    if i < n {
      assert entries[..n][i] == entries[i];
      assert Final(entries[..n], i) by {
        forall j | i < j < n ensures entries[..n][j].path != entries[i].path { assert entries[j] == entries[..n][j]; }
      }
      FinalIsShown(entries[..n], i);
      assert entries[n].path != entries[i].path;
    }
  }

  lemma {:induction false} LastOf(entries: seq<Entry>, p: Path) returns (i: nat)
    requires p in AsMap(entries)
    ensures Final(entries, i) && entries[i].path == p
  {
    var n := |entries| - 1;
    if entries[n].path == p { i := n; }
    else {
      i := LastOf(entries[..n], p);
      assert entries[i] == entries[..n][i];
      forall j | i < j < |entries| ensures entries[j].path != p {
        if j < n { assert entries[j] == entries[..n][j]; }
      }
    }
  }

  /** After a round of messages every topic has its value exactly when, for every path, the
      last message got through or the topic held that value just before it. */
  lemma RoundAgreesExactly(topics: Values, entries: seq<Entry>, works: Outcomes)
    ensures PackPublisher.Agree(After(topics, entries, works), AsMap(entries)) <==> Arrived(topics, entries, works)
  {
    var after, shown := After(topics, entries, works), AsMap(entries);
    hide After, AsMap;
    forall i | 0 <= i < |entries| && Final(entries, i)
      ensures entries[i].path in shown && shown[entries[i].path] == entries[i].value
      ensures Holds(after, entries[i]) <==> works(i) || Holds(After(topics, entries[..i], works), entries[i])
    {
      FinalIsShown(entries, i);
      AfterFinal(topics, entries, works, i);
    }
    if Arrived(topics, entries, works) {
      forall p <- shown
        ensures p in after && after[p] == shown[p]
      {
        var i := LastOf(entries, p);
        assert Holds(after, entries[i]);
      }
    }
  }

  // ----- Runs -----

  datatype Round = Round(entries: seq<Entry>, now: nat, works: Outcomes)

  function Run(rounds: seq<Round>): Feed {
    if rounds == [] then START
    else
      var r := rounds[|rounds| - 1];
      Next(Run(rounds[..|rounds| - 1]), r.entries, r.now, r.works)
  }

  predicate QuietRound(f: Feed, r: Round) { Quiet(f, r.entries, r.now) }

  /** What is remembered is the list of the last round, sent or not. */
  lemma LastIsRemembered(rounds: seq<Round>)
    requires rounds != []
    ensures Run(rounds).last == rounds[|rounds| - 1].entries
  {}

  /** The k-th round was published, and every later one found nothing to do. */
  ghost predicate LastPublished(rounds: seq<Round>, k: nat) {
    && k < |rounds| && !QuietRound(Run(rounds[..k]), rounds[k])
    && forall j | k < j < |rounds| :: QuietRound(Run(rounds[..j]), rounds[j])
  }

  lemma {:induction false} WhenPublished(rounds: seq<Round>) returns (k: nat)
    requires rounds != []
    ensures LastPublished(rounds, k)
  {
    var n := |rounds| - 1;
    var front := rounds[..n];
    if QuietRound(Run(front), rounds[n]) {
      assert front != [] by { assert Run([]) == START; }
      k := WhenPublished(front);
      hide Run, QuietRound;
      assert front[..k] == rounds[..k];
      forall j | k < j < |rounds| ensures QuietRound(Run(rounds[..j]), rounds[j]) {
        if j < n { assert front[..j] == rounds[..j] && front[j] == rounds[j]; }
      }
    } else {
      k := n;
    }
  }

  lemma {:induction false} QuietSince(rounds: seq<Round>, k: nat)
    requires LastPublished(rounds, k)
    ensures Run(rounds) == Run(rounds[..k + 1])
  {
    var n := |rounds| - 1;
    if k == n {
      assert rounds[..k + 1] == rounds;
    } else {
      var front := rounds[..n];
      assert QuietRound(Run(front), rounds[n]);
      assert Run(rounds) == Run(front);
      hide Run, QuietRound;
      assert front[..k] == rounds[..k] && front[..k + 1] == rounds[..k + 1];
      forall j | k < j < |front| ensures QuietRound(Run(front[..j]), front[j]) {
        assert front[..j] == rounds[..j];
      }
      QuietSince(front, k);
    }
  }

  /** After any run the topics agree with the list exactly when the last round that was
      published left them so: whatever it lost is not sent again while the list stays and
      half a minute has not passed. */
  lemma FeedAgreesExactly(rounds: seq<Round>, k: nat)
    requires LastPublished(rounds, k)
    ensures rounds[|rounds| - 1].entries == rounds[k].entries
    ensures PackPublisher.Agree(Run(rounds).topics, AsMap(rounds[|rounds| - 1].entries))
            <==> Arrived(Run(rounds[..k]).topics, rounds[k].entries, rounds[k].works)
  {
    QuietSince(rounds, k);
    LastIsRemembered(rounds);
    LastIsRemembered(rounds[..k + 1]);
    assert rounds[..k + 1][..k] == rounds[..k];
    RoundAgreesExactly(Run(rounds[..k]).topics, rounds[k].entries, rounds[k].works);
    hide After, AsMap, Arrived;
  }

  // ----- The numbers of the pack -----

  /** The same, of the numeric paths only. */
  ghost predicate NumbersArrived(topics: Values, entries: seq<Entry>, works: Outcomes) {
    forall i | 0 <= i < |entries| && Final(entries, i) && entries[i].path !in NAMES ::
      works(i) || Holds(After(topics, entries[..i], works), entries[i])
  }

  lemma RoundShowsNumbers(topics: Values, entries: seq<Entry>, works: Outcomes)
    ensures PackPublisher.Agree(After(topics, entries, works), Numeric(entries))
            <==> NumbersArrived(topics, entries, works)
  {
    var after, shown := After(topics, entries, works), AsMap(entries);
    hide After, AsMap;
    forall i | 0 <= i < |entries| && Final(entries, i)
      ensures entries[i].path in shown && shown[entries[i].path] == entries[i].value
      ensures Holds(after, entries[i]) <==> works(i) || Holds(After(topics, entries[..i], works), entries[i])
    {
      FinalIsShown(entries, i);
      AfterFinal(topics, entries, works, i);
    }
    if NumbersArrived(topics, entries, works) {
      forall p <- Numeric(entries)
        ensures p in after && after[p] == Numeric(entries)[p]
      {
        var i := LastOf(entries, p);
        assert Holds(after, entries[i]);
      }
    }
  }

  /** From the bus to the broker: after any run whose last list is that of the slots after some
      history of frames, the numeric topics show what the protocol says of that history exactly
      when each number of the last round published got through or was there already. */
  lemma FeedShowsProtocol(rounds: seq<Round>, k: nat, history: seq<RawFrame>)
    requires LastPublished(rounds, k) && forall f <- history :: WellFormed(f)
    requires rounds[|rounds| - 1].entries == Entries(Stored(history))
    ensures var latest := LatestOf(Kept(history));
            && ShowsAll(Numbers(latest), latest)
            && (PackPublisher.Agree(Run(rounds).topics, Numbers(latest))
                <==> NumbersArrived(Run(rounds[..k]).topics, rounds[k].entries, rounds[k].works))
  {
    assert k < |rounds|;
    hide *;
    FirmwareMirrorsDaemon(history);
    NumbersAreShown(LatestOf(Kept(history)));
    FeedAgreesExactly(rounds, k);
    TopicsOfRound(rounds, k);
    RoundShowsNumbers(Run(rounds[..k]).topics, rounds[k].entries, rounds[k].works);
  }

  lemma TopicsOfRound(rounds: seq<Round>, k: nat)
    requires LastPublished(rounds, k)
    ensures Run(rounds).topics == After(Run(rounds[..k]).topics, rounds[k].entries, rounds[k].works)
  {
    QuietSince(rounds, k);
    assert rounds[..k + 1][..k] == rounds[..k];
    hide After;
  }

  // ----- A list that undoes itself -----

  /** The one frame of a pack that has given its product name, the letter W. */
  const NAMED := RawFrame(0x35E, 8, [87, 0, 0, 0, 0, 0, 0, 0])
  const W: bytes := [87]

  function NamedList(): seq<Entry> { Preamble() + [Entry(ProductName, Text(W))] }

  lemma OneSlotSeen(id: nat)
    requires id in PY_IDS
    ensures SlotOf(Stored([NAMED]), id) == if id == 0x35E then PyFrame(NAMED.data, 8, true) else UNSEEN
  {
    assert PY_IDS[6] == 0x35E;
    assert [NAMED][..0] == [] && Id(NAMED) == 0x35E && Taken(NAMED) == 8;
    var i := Index(0x35E);
    assert Stored([]) == seq(|PY_IDS|, _ => UNSEEN);
    assert Stored([NAMED]) == Stored([])[i := PyFrame(NAMED.data[..8] + UNSEEN.data[8..], 8, true)];
    assert NAMED.data[..8] + UNSEEN.data[8..] == NAMED.data;
    if id != 0x35E { assert Index(id) != i; }
    hide FirstIndex;
  }

  lemma UnseenAddsNothing()
    ensures Limits(UNSEEN) == [] && Charge(UNSEEN) == [] && Measurement(UNSEEN) == [] && Status(UNSEEN) == []
    ensures Requests(UNSEEN) == [] && Cells(UNSEEN) == [] && Remaining(UNSEEN) == []
    ensures NameEntries(UNSEEN, UNSEEN) == []
  {}

  lemma NamedAdds()
    ensures ProductEntries(PyFrame(NAMED.data, 8, true)) == [Entry(ProductName, Text(W))]
  {
    assert NAMED.data[1..][0] == 0;
    assert UntilNul(NAMED.data) == [87] + UntilNul(NAMED.data[1..]) == W;
  }

  lemma NamedSlots()
    ensures var slots := Stored([NAMED]);
            && SlotOf(slots, 0x351) == UNSEEN && SlotOf(slots, 0x355) == UNSEEN && SlotOf(slots, 0x356) == UNSEEN
            && SlotOf(slots, 0x359) == UNSEEN && SlotOf(slots, 0x35C) == UNSEEN && SlotOf(slots, 0x370) == UNSEEN
            && SlotOf(slots, 0x371) == UNSEEN && SlotOf(slots, 0x373) == UNSEEN && SlotOf(slots, 0x379) == UNSEEN
            && SlotOf(slots, 0x35E) == PyFrame(NAMED.data, 8, true)
  {
    assert PY_IDS[0] == 0x351 && PY_IDS[1] == 0x355 && PY_IDS[2] == 0x356 && PY_IDS[3] == 0x359 && PY_IDS[5] == 0x35C;
    assert PY_IDS[6] == 0x35E && PY_IDS[7] == 0x370 && PY_IDS[8] == 0x371 && PY_IDS[9] == 0x373 && PY_IDS[10] == 0x379;
    hide Stored, SlotOf;
    OneSlotSeen(0x351);
    OneSlotSeen(0x355);
    OneSlotSeen(0x356);
    OneSlotSeen(0x359);
    OneSlotSeen(0x35C);
    OneSlotSeen(0x35E);
    OneSlotSeen(0x370);
    OneSlotSeen(0x371);
    OneSlotSeen(0x373);
    OneSlotSeen(0x379);
  }

  /** The firmware's list for that pack: its default names, and its own product name after. */
  lemma NamedEntries()
    ensures Entries(Stored([NAMED])) == NamedList()
  {
    var slots := Stored([NAMED]);
    hide *;
    NamedSlots();
    UnseenAddsNothing();
    NamedAdds();
    NamedEarly();
    EntriesShape(slots);
    var name := [Entry(ProductName, Text(W))];
    AddNothing(name);
    AddNothing(Preamble() + name);
    NamedListIs();
  }

  lemma NamedEarly()
    ensures EarlyEntries(Stored([NAMED])) == Preamble()
  {
    var slots := Stored([NAMED]);
    assert Sound(slots);
    hide *;
    NamedSlots();
    UnseenAddsNothing();
    EarlyShape(slots);
    AddNothing(Preamble());
  }

  lemma AddNothing(s: seq<Entry>)
    ensures s + [] == s && [] + s == s
  {}

  lemma NamedListIs()
    ensures NamedList() == Preamble() + [Entry(ProductName, Text(W))]
  {}

  lemma NamedFinals()
    ensures Final(NamedList(), 3) && !Final(NamedList(), 0) && Final(NamedList(), 1) && Final(NamedList(), 2)
    ensures NamedList()[..3] == Preamble() && Final(Preamble(), 0) && NamedList()[3] == Entry(ProductName, Text(W))
    ensures Preamble()[0] == Entry(ProductName, Text(PYLO)) && Text(PYLO) != Text(W)
  {
    assert |PYLO| != |W|;
    assert NamedList()[3].path == NamedList()[0].path;
  }

  function FirstRound(): Round { Round(NamedList(), 1000, _ => true) }

  function LostRound(): Round { Round(NamedList(), 31000, i => i != 3) }

  /** A list the firmware does publish can undo itself. Every topic agrees; half a minute later,
      with nothing changed, the list goes out again and the own product name is lost behind the
      default one: the default name stands until the next half minute. */
  lemma RepeatUndone()
    ensures Entries(Stored([NAMED])) == NamedList()
    ensures PackPublisher.Agree(Run([FirstRound()]).topics, AsMap(NamedList()))
    ensures !PackPublisher.Agree(Run([FirstRound(), LostRound()]).topics, AsMap(NamedList()))
    ensures forall now, works | 31000 <= now < 61000 ::
              Run([FirstRound(), LostRound(), Round(NamedList(), now, works)]) == Run([FirstRound(), LostRound()])
  {
    NamedEntries();
    hide *;
    RoundsOfNamed();
    AllArrive(map[], NamedList(), FirstRound().works);
    RoundAgreesExactly(map[], NamedList(), FirstRound().works);
    RoundAgreesExactly(Run([FirstRound()]).topics, NamedList(), LostRound().works);
    NameIsLost(Run([FirstRound()]).topics, LostRound().works);
    forall now, works | 31000 <= now < 61000
      ensures Run([FirstRound(), LostRound(), Round(NamedList(), now, works)]) == Run([FirstRound(), LostRound()])
    {
      ThirdIsQuiet(now, works);
    }
  }

  lemma RoundsOfNamed()
    ensures Run([FirstRound()]) == Feed(NamedList(), 1000, After(map[], NamedList(), FirstRound().works))
    ensures Run([FirstRound(), LostRound()])
            == Feed(NamedList(), 31000, After(Run([FirstRound()]).topics, NamedList(), LostRound().works))
    ensures (forall i :: FirstRound().works(i)) && LostRound().works(0) && !LostRound().works(3)
  {
    RunOfOne(FirstRound());
    RunOfTwo(FirstRound(), LostRound());
    assert |NamedList()| == 4;
    hide After, NamedList, Run;
  }

  lemma ThirdIsQuiet(now: nat, works: Outcomes)
    requires 31000 <= now < 61000
    ensures Run([FirstRound(), LostRound(), Round(NamedList(), now, works)]) == Run([FirstRound(), LostRound()])
  {
    RoundsOfNamed();
    RunOfThree(FirstRound(), LostRound(), Round(NamedList(), now, works));
    assert |NamedList()| == 4;
    hide After, NamedList, Run, FirstRound, LostRound;
  }

  lemma AllArrive(topics: Values, entries: seq<Entry>, works: Outcomes)
    requires forall i :: works(i)
    ensures Arrived(topics, entries, works)
  {}

  lemma NameIsLost(topics: Values, works: Outcomes)
    requires works(0) && !works(3)
    ensures !Arrived(topics, NamedList(), works)
  {
    NamedFinals();
    var entries := NamedList();
    AfterFinal(topics, Preamble(), works, 0);
    hide After, Preamble, Final, NamedList;
    assert Holds(After(topics, entries[..3], works), Entry(ProductName, Text(PYLO)));
    assert !Holds(After(topics, entries[..3], works), entries[3]);
  }

  lemma RunOfThree(r: Round, t: Round, u: Round)
    ensures Run([r, t, u]) == Next(Run([r, t]), u.entries, u.now, u.works)
  {
    hide Next;
    assert [r, t, u][..2] == [r, t];
  }

  lemma RunOfOne(r: Round)
    ensures Run([r]) == Next(START, r.entries, r.now, r.works)
  {
    hide Next;
    assert [r][..0] == [] && Run([]) == START;
  }

  lemma RunOfTwo(r: Round, t: Round)
    ensures Run([r, t]) == Next(Run([r]), t.entries, t.now, t.works)
  {
    hide Next;
    assert [r, t][..1] == [r];
  }
}

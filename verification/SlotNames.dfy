/** The names in the firmware's list, as a broker that is sent the whole list ends up with them. */
module SlotNames {
  import opened Prelude
  import opened PackDecoder
  import opened SlotDecoder
  import opened PackOctets

  /** The text of a slot: the octets in it before a zero, whatever the length of the last frame. */
  ghost predicate Before(text: bytes, s: PyFrame) {
    if !s.seen then text == []
    else text <= s.data && 0 !in text && (|text| < |s.data| ==> s.data[|text|] == 0)
  }

  lemma NameTextIs(s: PyFrame)
    ensures Before(NameText(s), s)
  {
    TextBeforeZero(s.data);
    hide UntilNul;
  }

  ghost predicate Nameless(entries: seq<Entry>) {
    ProductName !in AsMap(entries) && CustomName !in AsMap(entries)
  }

  lemma BlockIsNameless(entries: seq<Entry>, latest: Latest, id: nat)
    requires Contributes(entries, latest, id)
    ensures Nameless(entries)
  {
    hide Shown, AsMap;
  }

  /** Both names and their values. */
  ghost predicate Named(entries: seq<Entry>, product: bytes, custom: bytes) {
    var m := AsMap(entries);
    ProductName in m && CustomName in m && m[ProductName] == Text(product) && m[CustomName] == Text(custom)
  }

  lemma NamelessAfter(entries: seq<Entry>, more: seq<Entry>, product: bytes, custom: bytes)
    requires Named(entries, product, custom) && Nameless(more)
    ensures Named(entries + more, product, custom)
  {
    hide AsMap;
    AsMapConcat(entries, more);
  }

  lemma NamesAfter(entries: seq<Entry>, n0: PyFrame, n1: PyFrame, s: PyFrame, product: bytes, custom: bytes)
    requires Named(entries, product, custom)
    ensures var full, own := NameText(n0) + NameText(n1), NameText(s);
            Named(entries + (NameEntries(n0, n1) + ProductEntries(s)),
                  if own != [] then own else if full != [] then full else product, if full != [] then full else custom)
  {
    hide AsMap, NameText;
    AsMapConcat(entries, NameEntries(n0, n1) + ProductEntries(s));
    AsMapConcat(NameEntries(n0, n1), ProductEntries(s));
    EmptyAsMap();
    var es, fs := NameEntries(n0, n1), ProductEntries(s);
    if es != [] { TwoEntries(es[0], es[1]); }
    if fs != [] { OneEntry(fs[0]); }
  }

  lemma EarlyNames(slots: Slots)
    requires Sound(slots)
    ensures Named(EarlyEntries(slots), PYLO, WATTCYCLE)
  {
    var latest := LatestIn(slots);
    var a, b, c := SlotOf(slots, 0x351), SlotOf(slots, 0x355), SlotOf(slots, 0x356);
    var d, e := SlotOf(slots, 0x359), SlotOf(slots, 0x35C);
    PreambleNames();
    hide *;
    LimitsContribute(a, latest);
    ChargeContributes(b, latest);
    MeasurementContributes(c, latest);
    StatusContributes(d, latest);
    RequestsContribute(e, latest);
    BlockIsNameless(Limits(a), latest, 0x351);
    BlockIsNameless(Charge(b), latest, 0x355);
    BlockIsNameless(Measurement(c), latest, 0x356);
    BlockIsNameless(Status(d), latest, 0x359);
    BlockIsNameless(Requests(e), latest, 0x35C);
    var one := Preamble() + Limits(a);
    NamelessAfter(Preamble(), Limits(a), PYLO, WATTCYCLE);
    NamelessAfter(one, Charge(b), PYLO, WATTCYCLE);
    NamelessAfter(one + Charge(b), Measurement(c), PYLO, WATTCYCLE);
    NamelessAfter(one + Charge(b) + Measurement(c), Status(d), PYLO, WATTCYCLE);
    NamelessAfter(one + Charge(b) + Measurement(c) + Status(d), Requests(e), PYLO, WATTCYCLE);
    EarlyShape(slots);
  }

  lemma PreambleNames()
    ensures Named(Preamble(), PYLO, WATTCYCLE)
  {
    hide AsMap;
    var es := Preamble();
    ThreeEntries(es[0], es[1], es[2]);
  }

  lemma ListNames(slots: Slots)
    requires Sound(slots)
    ensures var first, second := NameText(SlotOf(slots, 0x370)), NameText(SlotOf(slots, 0x371));
            var full, own := first + second, NameText(SlotOf(slots, 0x35E));
            Named(Entries(slots), if own != [] then own else if full != [] then full else PYLO,
                  if full != [] then full else WATTCYCLE)
  {
    var latest := LatestIn(slots);
    var n0, n1, s := SlotOf(slots, 0x370), SlotOf(slots, 0x371), SlotOf(slots, 0x35E);
    var f, g := SlotOf(slots, 0x373), SlotOf(slots, 0x379);
    hide *;
    var full, own := NameText(n0) + NameText(n1), NameText(s);
    var product := if own != [] then own else if full != [] then full else PYLO;
    var custom := if full != [] then full else WATTCYCLE;
    CellsContribute(f, latest);
    RemainingContributes(g, latest);
    BlockIsNameless(Cells(f), latest, 0x373);
    BlockIsNameless(Remaining(g), latest, 0x379);
    EarlyNames(slots);
    var early, names := EarlyEntries(slots), NameEntries(n0, n1) + ProductEntries(s);
    NamesAfter(early, n0, n1, s, PYLO, WATTCYCLE);
    NamelessAfter(early + names, Cells(f), product, custom);
    NamelessAfter(early + names + Cells(f), Remaining(g), product, custom);
    EntriesShape(slots);
  }

  /** The custom name is what the two halves spell, or a default; the product name what its own
      frame spells, or the halves, or a default. */
  lemma FirmwareNames(slots: Slots) returns (first: bytes, second: bytes, own: bytes)
    requires Sound(slots)
    ensures Before(first, SlotOf(slots, 0x370)) && Before(second, SlotOf(slots, 0x371))
    ensures Before(own, SlotOf(slots, 0x35E))
    ensures var m := AsMap(Entries(slots));
            && ProductName in m && CustomName in m
            && Chosen(m[ProductName], [own, first + second], "PYLO")
            && Chosen(m[CustomName], [first + second], "WattCycle")
  {
    first, second := NameText(SlotOf(slots, 0x370)), NameText(SlotOf(slots, 0x371));
    own := NameText(SlotOf(slots, 0x35E));
    NameTextIs(SlotOf(slots, 0x370));
    NameTextIs(SlotOf(slots, 0x371));
    NameTextIs(SlotOf(slots, 0x35E));
    ListNames(slots);
    DefaultNames();
    hide Spells, Entries, SlotOf, AsMap, NameText, Before, Chosen;
    ChosenTwo(AsMap(Entries(slots))[ProductName], own, first + second, "PYLO", PYLO);
    ChosenOne(AsMap(Entries(slots))[CustomName], first + second, "WattCycle", WATTCYCLE);
  }
}

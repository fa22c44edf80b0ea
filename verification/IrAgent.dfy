/** The agent: what the C compiler makes of the generated header, and sending a command by
    file name. */
module IrAgent {
  import opened Prelude
  import opened IrCompiler
  import FanIr
  import Text

  datatype Code = Code(filename: string, timings: seq<nat>, length: nat)

  datatype Firmware = Firmware(khz: nat, maxTimings: nat, codes: seq<Code>)

  /** A list in braces may not narrow: every literal must fit sixteen bits. */
  predicate FitsWord(n: int) { 0 <= n < 65536 }

  predicate AllFit(ns: seq<int>) { forall i :: 0 <= i < |ns| ==> FitsWord(ns[i]) }

  /** What the compiler brings to the header: the names that mean something before it is
      included, beside those of the sketch, and how it reads a text between quotes. */
  datatype Compiler = Compiler(taken: set<string>, quoted: string -> Option<string>)

  /** The names the header declares itself, and the macro of the sketch. */
  const DECLARED: set<string> := {"IR_CARRIER_KHZ", "IR_MAX_TIMINGS", "IR_CODES", "IR_CODE_COUNT"}
  const SKETCH := "IR_SEND_PIN"

  predicate Free(c: Compiler, ident: string) { ident !in DECLARED && ident != SKETCH && ident !in c.taken }

  /** A text that nothing in it keeps from being read as it is. */
  predicate Quotable(s: string) {
    forall i :: 0 <= i < |s| ==> s[i] != '"' && s[i] != '\\' && s[i] != '\n' && s[i] != '\r'
  }

  /** Such texts are read as they are. */
  ghost predicate ReadsText(c: Compiler) { forall s | Quotable(s) :: c.quoted(s) == Some(s) }

  /** The header compiles: no array is defined twice or has a name that is taken, no literal
      narrows, and every row of the table reads and names an array. */
  predicate Compiles(h: Header, c: Compiler) {
    && (forall i, j :: 0 <= i < j < |h.arrays| ==> h.arrays[i].0 != h.arrays[j].0)
    && (forall i :: 0 <= i < |h.arrays| ==> Free(c, h.arrays[i].0) && AllFit(LiteralsOf(h.arrays[i].1)))
    && (forall i :: 0 <= i < |h.table| ==> FitsWord(h.table[i].length) && Defined(h, h.table[i].ident))
    && (forall i :: 0 <= i < |h.table| ==> c.quoted(h.table[i].filename).Some?)
  }

  predicate Defined(h: Header, ident: string) {
    exists i :: 0 <= i < |h.arrays| && h.arrays[i].0 == ident
  }

  function Resolve(arrays: seq<(string, seq<string>)>, ident: string): seq<nat> {
    if arrays == [] then []
    else if arrays[0].0 == ident then LiteralsOf(arrays[0].1)
    else Resolve(arrays[1..], ident)
  }

  /** The compiled firmware: a plain constant is cut to its type, eight bits for the
      carrier and sixteen for the longest length. */
  function Compile(h: Header, c: Compiler): Option<Firmware> {
    if !Compiles(h, c) then None
    else Some(Firmware(h.khz % 256, h.maxTimings % 65536,
      seq(|h.table|, i requires 0 <= i < |h.table| =>
        Code(c.quoted(h.table[i].filename).value, Resolve(h.arrays, h.table[i].ident), h.table[i].length))))
  }

  // ----- Sending -----

  class Agent {
    const firmware: Firmware
    var transmitted: seq<(seq<nat>, nat)>

    constructor (firmware: Firmware)
      ensures this.firmware == firmware && transmitted == []
    {
      this.firmware, transmitted := firmware, [];
    }

    /** The first code of that name. */
    method FindIrCode(filename: string) returns (found: Option<Code>)
      ensures found.None? <==> forall i :: 0 <= i < |firmware.codes| ==> firmware.codes[i].filename != filename
      ensures found.Some? ==> exists i :: 0 <= i < |firmware.codes| && firmware.codes[i] == found.value
                                && found.value.filename == filename
                                && forall j :: 0 <= j < i ==> firmware.codes[j].filename != filename
    {
      for i := 0 to |firmware.codes|
        invariant forall j :: 0 <= j < i ==> firmware.codes[j].filename != filename
      {
        if filename == firmware.codes[i].filename { return Some(firmware.codes[i]); }
      }
      return None;
    }

    /** Copies a code into a buffer of the longest length and sends it, unless it is empty
        or would not fit. */
    method SendIrCode(code: Option<Code>) returns (ok: bool)
      requires code.Some? ==> code.value.length <= |code.value.timings|
      modifies this
      ensures ok <==> code.Some? && 0 < code.value.length <= firmware.maxTimings
      ensures ok ==> transmitted == old(transmitted) + [(code.value.timings[..code.value.length], firmware.khz)]
      ensures !ok ==> transmitted == old(transmitted)
    {
      if code.None? || code.value.length == 0 || code.value.length > firmware.maxTimings { return false; }
      var n := code.value.length;
      var buffer := new nat[firmware.maxTimings];
      for i := 0 to n
        invariant buffer[..i] == code.value.timings[..i]
        modifies buffer
      {
        buffer[i] := code.value.timings[i];
      }
      transmitted := transmitted + [(buffer[..n], firmware.khz)];
      return true;
    }

    method SendByName(filename: string) returns (ok: bool)
      requires forall i :: 0 <= i < |firmware.codes| ==> firmware.codes[i].length <= |firmware.codes[i].timings|
      modifies this
      ensures (forall i :: 0 <= i < |firmware.codes| ==> firmware.codes[i].filename != filename) ==>
                !ok && transmitted == old(transmitted)
      ensures forall i :: 0 <= i < |firmware.codes| && firmware.codes[i].filename == filename
                          && (forall j :: 0 <= j < i ==> firmware.codes[j].filename != filename) ==>
                var c := firmware.codes[i];
                && (ok <==> 0 < c.length <= firmware.maxTimings)
                && transmitted == old(transmitted) + if ok then [(c.timings[..c.length], firmware.khz)] else []
    {
      var code := FindIrCode(filename);
      ok := SendIrCode(code);
    }
  }

  // ----- Meaning preserved -----

  ghost predicate DistinctIdentifiers(signals: seq<Signal>) {
    forall i, j :: 0 <= i < j < |signals| ==> CIdentifier(signals[i].filename) != CIdentifier(signals[j].filename)
  }

  ghost predicate AllFree(c: Compiler, signals: seq<Signal>) {
    forall i :: 0 <= i < |signals| ==> Free(c, CIdentifier(signals[i].filename))
  }

  ghost predicate AllRead(c: Compiler, signals: seq<Signal>) {
    forall i :: 0 <= i < |signals| ==> c.quoted(signals[i].filename).Some?
  }

  ghost predicate AllRepresentable(signals: seq<Signal>) {
    forall i :: 0 <= i < |signals| ==> AllFit(signals[i].timings) && FitsWord(|signals[i].timings|)
  }

  lemma EntryAt(h: Header, signals: seq<Signal>, i: nat)
    requires Renders(h, signals) && i < |signals|
    ensures Entry(h.arrays[i], h.table[i], signals[i]) && |signals[i].timings| <= h.maxTimings
  {}

  ghost predicate AllCompile(c: Compiler, signals: seq<Signal>) {
    DistinctIdentifiers(signals) && AllFree(c, signals) && AllRepresentable(signals) && AllRead(c, signals)
  }

  /** The generated header compiles exactly when the identifiers are distinct and not taken, by
      the header itself or before it, every timing and length fits sixteen bits, and every name
      reads as some text. */
  lemma CompilesExactly(h: Header, c: Compiler, signals: seq<Signal>)
    requires Renders(h, signals)
    ensures Compiles(h, c) <==> AllCompile(c, signals)
  {
    hide LiteralsOf, CIdentifier, OneCarrier, Longest, Free;
    forall i | 0 <= i < |signals|
      ensures Entry(h.arrays[i], h.table[i], signals[i]) && Defined(h, h.table[i].ident)
    {
      EntryAt(h, signals, i);
    }
    if Compiles(h, c) {
      forall i, j | 0 <= i < j < |signals|
        ensures CIdentifier(signals[i].filename) != CIdentifier(signals[j].filename)
      {
        assert h.arrays[i].0 != h.arrays[j].0;
      }
    }
  }

  lemma {:induction false} ResolveFindsOwn(arrays: seq<(string, seq<string>)>, i: nat)
    requires i < |arrays| && forall j, k :: 0 <= j < k < |arrays| ==> arrays[j].0 != arrays[k].0
    ensures Resolve(arrays, arrays[i].0) == LiteralsOf(arrays[i].1)
  {
    if i > 0 {
      assert arrays[0].0 != arrays[i].0;
      ResolveFindsOwn(arrays[1..], i - 1);
    }
  }

  lemma Compiled(h: Header, c: Compiler)
    requires Compile(h, c).Some?
    ensures var fw := Compile(h, c).value;
            && Compiles(h, c) && fw.khz == h.khz % 256 && fw.maxTimings == h.maxTimings % 65536
            && |fw.codes| == |h.table|
            && forall i :: 0 <= i < |h.table| ==>
                 c.quoted(h.table[i].filename) == Some(fw.codes[i].filename)
                 && fw.codes[i].timings == Resolve(h.arrays, h.table[i].ident)
                 && fw.codes[i].length == h.table[i].length
  {
    hide Resolve;
    assert Compiles(h, c);
  }

  lemma MaxTimingsFit(h: Header, c: Compiler, signals: seq<Signal>)
    requires Renders(h, signals) && Compiles(h, c)
    ensures h.maxTimings < 65536
  {
    hide LiteralsOf, CIdentifier;
    var k :| 0 <= k < |signals| && |signals[k].timings| == h.maxTimings;
    EntryAt(h, signals, k);
    assert FitsWord(h.table[k].length);
  }

  /** The firmware holds, for every signal, its own timings under its own name as read. */
  lemma CompiledCodes(h: Header, c: Compiler, signals: seq<Signal>, i: nat)
    requires Renders(h, signals) && Compile(h, c).Some? && i < |signals|
    ensures var fw := Compile(h, c).value;
            && |fw.codes| == |signals|
            && c.quoted(signals[i].filename) == Some(fw.codes[i].filename)
            && fw.codes[i].timings == signals[i].timings && fw.codes[i].length == |signals[i].timings|
            && |signals[i].timings| <= fw.maxTimings
  {
    hide LiteralsOf, CIdentifier, Compile, Resolve;
    Compiled(h, c);
    MaxTimingsFit(h, c, signals);
    EntryAt(h, signals, i);
    ResolveFindsOwn(h.arrays, i);
  }

  /** The first signal whose name reads as this one. */
  ghost predicate FirstNamed(c: Compiler, signals: seq<Signal>, name: string, k: nat) {
    && k < |signals| && c.quoted(signals[k].filename) == Some(name)
    && forall j :: 0 <= j < k ==> c.quoted(signals[j].filename) != Some(name)
  }

  /** Whatever signals are rendered and compiled, and whatever name the agent is asked for: it
      sends the timings of the first signal whose name reads so, unless it has none, and nothing
      when no name does. The carrier is the recorded one exactly when it is below 256 kHz. */
  method CompileAndSend(ghost signals: seq<Signal>, h: Header, c: Compiler, agent: Agent, name: string)
    returns (ok: bool)
    requires Renders(h, signals) && Compile(h, c) == Some(agent.firmware)
    modifies agent
    ensures forall k: nat :: FirstNamed(c, signals, name, k) ==>
              && (ok <==> signals[k].timings != [])
              && agent.transmitted
                 == old(agent.transmitted) + if ok then [(signals[k].timings, agent.firmware.khz)] else []
    ensures (forall i :: 0 <= i < |signals| ==> c.quoted(signals[i].filename) != Some(name)) ==>
              !ok && agent.transmitted == old(agent.transmitted)
    ensures forall s <- signals :: agent.firmware.khz * 1000 == s.carrierHz <==> s.carrierHz < 256000
  {
    hide LiteralsOf, CIdentifier, Compile, Compiles, Renders;
    Compiled(h, c);
    forall j | 0 <= j < |signals|
      ensures |agent.firmware.codes| == |signals|
      ensures c.quoted(signals[j].filename) == Some(agent.firmware.codes[j].filename)
      ensures agent.firmware.codes[j].timings == signals[j].timings
      ensures agent.firmware.codes[j].length == |signals[j].timings| <= agent.firmware.maxTimings
    {
      CompiledCodes(h, c, signals, j);
    }
    EverySignalHasCode(h, c, signals);
    forall s <- signals
      ensures agent.firmware.khz * 1000 == s.carrierHz <==> s.carrierHz < 256000
    {
      CarrierKept(h, c, signals, s);
    }
    ok := agent.SendByName(name);
    forall k: nat | FirstNamed(c, signals, name, k)
      ensures signals[k].timings[..|signals[k].timings|] == signals[k].timings
      ensures agent.firmware.codes[k].filename == name
      ensures forall j :: 0 <= j < k ==> agent.firmware.codes[j].filename != name
    {}
  }

  lemma EverySignalHasCode(h: Header, c: Compiler, signals: seq<Signal>)
    requires Renders(h, signals) && Compile(h, c).Some?
    ensures |Compile(h, c).value.codes| == |signals|
  {
    hide Compile, Entry, OneCarrier, Longest;
    Compiled(h, c);
  }

  lemma CarrierKept(h: Header, c: Compiler, signals: seq<Signal>, s: Signal)
    requires Renders(h, signals) && Compile(h, c).Some? && s in signals
    ensures Compile(h, c).value.khz * 1000 == s.carrierHz <==> s.carrierHz < 256000
  {
    hide Compile, Compiles, Longest, Entry;
    Compiled(h, c);
  }

  // ----- From the recordings to the air -----

  /** A file of the directory: its name, and its lines split into words and numbers. */
  datatype Source = Source(name: string, tokens: seq<Token>)

  datatype BuildError = NoFiles | BadFile(parse: ParseError) | BadCarriers(render: RenderError) | DoesNotCompile

  ghost predicate IsRecorded(f: Source) {
    FaultFree(f.tokens, |f.tokens|) && |Carriers(f.tokens)| == 1 && Timings(f.tokens) != []
  }

  /** The signal that stands for a file. */
  ghost predicate StandsFor(s: Signal, f: Source) {
    IsRecorded(f) && s.filename == f.name && Carriers(f.tokens) == [s.carrierHz] && s.timings == Timings(f.tokens)
  }

  method LoadIrDir(files: seq<Source>) returns (r: Result<seq<Signal>, BuildError>)
    ensures r.Ok? <==> files != [] && forall i :: 0 <= i < |files| ==> IsRecorded(files[i])
    ensures r.Ok? ==> |r.value| == |files| && forall i :: 0 <= i < |files| ==> StandsFor(r.value[i], files[i])
    ensures r == Err(NoFiles) <==> files == []
    ensures r.Err? ==> r.error.NoFiles? || r.error.BadFile?
  {
    if files == [] { return Err(NoFiles); }
    var signals: seq<Signal> := [];
    for i := 0 to |files|
      invariant |signals| == i && forall j :: 0 <= j < i ==> StandsFor(signals[j], files[j])
    {
      hide FaultFree, Carriers, Timings, Fault;
      var parsed := ParseIrFile(files[i].name, files[i].tokens);
      if parsed.Err? { return Err(BadFile(parsed.error)); }
      signals := signals + [parsed.value];
    }
    return Ok(signals);
  }

  /** What it takes for a directory to become a working agent: recordings of one carrier in
      whole kHz, whose identifiers are distinct and not taken, with numbers and lengths of
      sixteen bits and names that can be read. */
  ghost predicate Builds(files: seq<Source>, hz: nat, c: Compiler) {
    && files != [] && hz % 1000 == 0
    && (forall i :: 0 <= i < |files| ==> IsRecorded(files[i]) && Carriers(files[i].tokens) == [hz])
    && (forall i :: 0 <= i < |files| ==> AllFit(Timings(files[i].tokens)) && FitsWord(|Timings(files[i].tokens)|))
    && (forall i, j :: 0 <= i < j < |files| ==> CIdentifier(files[i].name) != CIdentifier(files[j].name))
    && (forall i :: 0 <= i < |files| ==> Unreserved(c, files[i].name) && c.quoted(files[i].name).Some?)
  }

  /** The stems of the names that the header and the sketch use up. */
  const RESERVED: set<string> := {"CARRIER_KHZ", "MAX_TIMINGS", "CODES", "CODE_COUNT", "SEND_PIN"}

  /** A file whose stem is not like a reserved one, nor its identifier taken before. */
  predicate Unreserved(c: Compiler, name: string) {
    (forall r <- RESERVED :: !Alike(Stem(name), r)) && CIdentifier(name) !in c.taken
  }

  lemma AlikeExactly(name: string, r: string)
    requires PlainStem(r) && r[0] != '_'
    ensures CIdentifier(name) == "IR_" + r <==> Alike(Stem(name), r)
  {
    IdentifiersDistinguish(r, r);
    StemOf(r);
    IdentifiersExactly(name, r + ".ir");
    var stem := Stem(name);
    if Numbered(stem) && |stem| + 1 == |r| { assert ("_" + stem)[0] != r[0] && !Blank(r[0]); }
  }

  lemma ReservedStems()
    ensures forall r <- RESERVED :: PlainStem(r) && r[0] != '_'
    ensures forall ident: string :: ident in DECLARED || ident == SKETCH <==> exists r <- RESERVED :: ident == "IR_" + r
  {
    assert "IR_" + "CARRIER_KHZ" == "IR_CARRIER_KHZ" && "IR_" + "MAX_TIMINGS" == "IR_MAX_TIMINGS";
    assert "IR_" + "CODES" == "IR_CODES" && "IR_" + "CODE_COUNT" == "IR_CODE_COUNT" && "IR_" + "SEND_PIN" == SKETCH;
  }

  /** An array's name is free exactly when the stem of its file is not like a reserved one. */
  lemma FreeExactly(c: Compiler, name: string)
    ensures Free(c, CIdentifier(name)) <==> Unreserved(c, name)
  {
    ReservedStems();
    hide CIdentifier, Stem, Alike, PlainStem;
    forall r <- RESERVED
      ensures CIdentifier(name) == "IR_" + r <==> Alike(Stem(name), r)
    {
      AlikeExactly(name, r);
    }
  }

  ghost predicate AllStand(signals: seq<Signal>, files: seq<Source>) {
    |signals| == |files| && forall i :: 0 <= i < |files| ==> StandsFor(signals[i], files[i])
  }

  lemma BuildsSignals(files: seq<Source>, signals: seq<Signal>, hz: nat, c: Compiler)
    requires AllStand(signals, files)
    ensures Builds(files, hz, c) <==> OneCarrier(signals, hz) && hz % 1000 == 0 && AllCompile(c, signals)
  {
    hide FaultFree, Carriers, Timings, CIdentifier, AllFit, Unreserved, Free;
    forall i | 0 <= i < |files|
      ensures Free(c, CIdentifier(signals[i].filename)) <==> Unreserved(c, files[i].name)
    {
      FreeExactly(c, files[i].name);
    }
    if OneCarrier(signals, hz) {
      forall i | 0 <= i < |files| ensures signals[i].carrierHz == hz { assert signals[i] in signals; }
    }
    if Builds(files, hz, c) {
      forall s <- signals ensures s.carrierHz == hz {
        var i :| 0 <= i < |signals| && signals[i] == s;
        assert Carriers(files[i].tokens)[0] == hz;
      }
    }
  }

  lemma OtherCarrier(signals: seq<Signal>, a: nat, b: nat)
    requires OneCarrier(signals, a) && OneCarrier(signals, b)
    ensures a == b
  {
    assert signals[0] in signals;
  }

  /** The first file whose name reads as this one. */
  ghost predicate FirstRead(c: Compiler, files: seq<Source>, name: string, k: nat) {
    && k < |files| && c.quoted(files[k].name) == Some(name)
    && forall j :: 0 <= j < k ==> c.quoted(files[j].name) != Some(name)
  }

  /** From the files to a header that compiles. */
  method Build(files: seq<Source>, c: Compiler) returns (r: Result<Header, BuildError>, ghost signals: seq<Signal>)
    ensures r.Ok? <==> exists hz :: Builds(files, hz, c)
    ensures r.Ok? ==> AllStand(signals, files) && Renders(r.value, signals) && Compile(r.value, c).Some?
    ensures forall hz | Builds(files, hz, c) :: r.Ok? && hz == r.value.khz * 1000
  {
    hide Renders, Compile, Compiles, CIdentifier, Timings, Carriers, FaultFree, AllCompile;
    signals := [];
    var loaded := LoadIrDir(files);
    if loaded.Err? { return Err(loaded.error), signals; }
    signals := loaded.value;
    assert AllStand(signals, files);
    forall hz
      ensures Builds(files, hz, c) <==> OneCarrier(signals, hz) && hz % 1000 == 0 && AllCompile(c, signals)
    {
      BuildsSignals(files, signals, hz, c);
    }
    hide Builds, OneCarrier, AllStand;
    var rendered := RenderHeader(loaded.value);
    if rendered.Err? {
      if rendered.error.NotWholeKhz? { NotBuildable(signals); }
      return Err(BadCarriers(rendered.error)), signals;
    }
    var h := rendered.value;
    RendersCarrier(h, signals);
    CompilesExactly(h, c, signals);
    CompileSome(h, c);
    forall hz | OneCarrier(signals, hz) ensures hz == h.khz * 1000 { OtherCarrier(signals, hz, h.khz * 1000); }
    r := if Compiles(h, c) then Ok(h) else Err(DoesNotCompile);
    assert h.khz * 1000 % 1000 == 0;
  }

  lemma ThousandTimes(n: nat, hz: nat)
    requires hz == n * 1000
    ensures hz / 1000 % 256 == n % 256
  {}

  /** End to end: a directory is parsed, rendered and compiled, and the agent asked for a name.
      That works exactly for a directory that builds. Then the timings of the first file whose
      name reads so go out, on the recorded carrier cut to eight bits of kHz, and nothing when
      no file's name does. */
  method BuildAndSend(files: seq<Source>, c: Compiler, name: string)
    returns (r: Result<seq<(seq<int>, nat)>, BuildError>)
    ensures r.Ok? <==> exists hz :: Builds(files, hz, c)
    ensures forall hz, k: nat | Builds(files, hz, c) && FirstRead(c, files, name, k) ::
              r == Ok([(Timings(files[k].tokens), hz / 1000 % 256)])
    ensures r.Ok? && (forall i :: 0 <= i < |files| ==> c.quoted(files[i].name) != Some(name)) ==> r == Ok([])
  {
    hide Renders, Compile, Compiles, Timings, Builds, AllStand;
    var built: Result<Header, BuildError>;
    ghost var signals: seq<Signal>;
    built, signals := Build(files, c);
    if built.Err? { return Err(built.error); }
    var h := built.value;
    FirstReadNamed(files, signals, c, name);
    Compiled(h, c);
    var agent := new Agent(Compile(h, c).value);
    var ok := CompileAndSend(signals, h, c, agent, name);
    r := Ok(agent.transmitted);
    forall hz, k: nat | Builds(files, hz, c) && k < |files| && FirstRead(c, files, name, k)
      ensures r == Ok([(Timings(files[k].tokens), hz / 1000 % 256)])
    {
      assert FirstNamed(c, signals, name, k) && ok;
      ThousandTimes(h.khz, hz);
      assert agent.firmware.khz == h.khz % 256;
      assert agent.transmitted == [(signals[k].timings, h.khz % 256)];
    }
  }

  lemma FirstReadNamed(files: seq<Source>, signals: seq<Signal>, c: Compiler, name: string)
    requires AllStand(signals, files)
    ensures forall k: nat | FirstRead(c, files, name, k) ::
              FirstNamed(c, signals, name, k) && signals[k].timings == Timings(files[k].tokens) != []
    ensures (forall i :: 0 <= i < |files| ==> c.quoted(files[i].name) != Some(name)) ==>
              forall i :: 0 <= i < |signals| ==> c.quoted(signals[i].filename) != Some(name)
  {
    hide FaultFree, Carriers, Timings;
  }

  lemma NotBuildable(signals: seq<Signal>)
    requires exists hz :: OneCarrier(signals, hz) && hz % 1000 != 0
    ensures forall hz :: OneCarrier(signals, hz) ==> hz % 1000 != 0
  {
    var a :| OneCarrier(signals, a) && a % 1000 != 0;
    forall hz | OneCarrier(signals, hz) ensures hz == a { OtherCarrier(signals, a, hz); }
  }

  lemma RendersCarrier(h: Header, signals: seq<Signal>)
    requires Renders(h, signals)
    ensures OneCarrier(signals, h.khz * 1000)
  {}

  lemma CompileSome(h: Header, c: Compiler)
    ensures Compile(h, c).Some? <==> Compiles(h, c)
  {}

  /** A directory that builds and whose names are read as they are. */
  ghost predicate Buildable(files: seq<Source>, hz: nat, c: Compiler) {
    Builds(files, hz, c) && forall i :: 0 <= i < |files| ==> Quotable(files[i].name)
  }

  /** Asking a buildable agent for a file reads as asking for that file, so its own timings are
      what goes out. */
  lemma AsksForOwn(files: seq<Source>, hz: nat, c: Compiler, i: nat)
    requires ReadsText(c) && Buildable(files, hz, c) && i < |files|
    ensures FirstRead(c, files, files[i].name, i)
  {
    hide CIdentifier, IsRecorded, Unreserved;
    forall j | 0 <= j < i ensures files[j].name != files[i].name {
      assert CIdentifier(files[j].name) != CIdentifier(files[i].name);
    }
  }

  const SHORT: seq<Token> := [Token("carrier", 38000), Token("pulse", 900)]

  /** A recording in good order whose name no header can take: its array would be defined
      beside the table of the same name. */
  lemma ReservedName(c: Compiler)
    ensures IsRecorded(Source("CODES.ir", SHORT)) && CIdentifier("CODES.ir") == "IR_CODES"
    ensures forall hz :: !Builds([Source("CODES.ir", SHORT)], hz, c)
  {
    ShortIsRecorded();
    assert "CODES" + ".ir" == "CODES.ir" && "IR_" + "CODES" == "IR_CODES";
    IdentifiersDistinguish("CODES", "CODES");
    StemOf("CODES");
    assert Alike("CODES", "CODES") && !Unreserved(c, "CODES.ir");
    hide IsRecorded, CIdentifier, Unreserved;
    var files := [Source("CODES.ir", SHORT)];
    assert files[0].name == "CODES.ir";
  }

  /** Five files no directory can hold, whatever else is in it: their arrays would be named like the
      four things the header declares, or like the macro of the sketch. */
  lemma ReservedFiles(c: Compiler, files: seq<Source>, hz: nat, i: nat, stem: string)
    requires stem in {"CARRIER_KHZ", "MAX_TIMINGS", "CODES", "CODE_COUNT", "SEND_PIN"}
    requires i < |files| && files[i].name == stem + ".ir"
    ensures CIdentifier(files[i].name) == "IR_" + stem && !Builds(files, hz, c)
  {
    StemOf(stem);
    ReservedStems();
    hide CIdentifier, Stem, IsRecorded;
    PlainIdentifier(stem);
    assert Alike(stem, stem) && !Unreserved(c, files[i].name);
  }

  lemma ShortIsRecorded()
    ensures IsRecorded(Source("CODES.ir", SHORT))
  {
    assert SHORT[..0] == [] && SHORT[..1] == [SHORT[0]] && SHORT[..1][..0] == [];
    assert Carriers(SHORT[..1]) == [38000] && Timings(SHORT[..1]) == [];
    assert Carriers(SHORT) == [38000] && Timings(SHORT) == [900];
    assert Fault(SHORT, 0) == None && Fault(SHORT, 1) == None;
  }

  /** Quotes in a name are read away: a file so named answers for another. */
  lemma QuotedNameAnswers(c: Compiler, odd: seq<Token>, own: seq<Token>)
    requires c.quoted("a\"\"b.ir") == Some("ab.ir")
    ensures FirstRead(c, [Source("a\"\"b.ir", odd), Source("ab.ir", own)], "ab.ir", 0)
  {}

  // ----- The fans' own commands -----

  function FanStem(direction: string, speed: nat): string {
    if speed == 0 then "fan_off"
    else (if direction == "out" then FanIr.PREFIX_OUT else FanIr.PREFIX_IN) + Text.Decimal(speed)
  }

  lemma FanStemPlain(direction: string, speed: nat)
    ensures PlainStem(FanStem(direction, speed))
    ensures FanIr.ResolveIrFilename(direction, speed) == FanStem(direction, speed) + ".ir"
  {
    var s := FanStem(direction, speed);
    if speed == 0 {
      assert FanIr.FAN_OFF == "fan_off" + ".ir";
    } else {
      var prefix := if direction == "out" then FanIr.PREFIX_OUT else FanIr.PREFIX_IN;
      assert forall i :: 0 <= i < |prefix| ==> IsIdentifierChar(prefix[i]);
      assert s[0] == prefix[0] == 'f';
    }
  }

  /** The commands a fan can be sent compile together: different settings that need
      different files get different identifiers. */
  lemma FanCommandsDistinct(d: string, s: nat, e: string, t: nat)
    ensures CIdentifier(FanIr.ResolveIrFilename(d, s)) == CIdentifier(FanIr.ResolveIrFilename(e, t))
            <==> s == t && (s == 0 || (d == "out" <==> e == "out"))
  {
    hide CIdentifier;
    FanStemPlain(d, s);
    FanStemPlain(e, t);
    IdentifiersDistinguish(FanStem(d, s), FanStem(e, t));
    FanIr.NamesDistinguish(d, s, e, t);
  }

  /** Two of them, spelled out. */
  lemma FanIdentifiers()
    ensures CIdentifier(FanIr.ResolveIrFilename("out", 40)) == "IR_fan_on_out_40"
    ensures CIdentifier(FanIr.ResolveIrFilename("in", 0)) == "IR_fan_off"
  {
    FanIr.RecordedNames();
    assert "fan_on_out_40" + ".ir" == "fan_on_out_40.ir" && "fan_off" + ".ir" == "fan_off.ir";
    assert "IR_" + "fan_on_out_40" == "IR_fan_on_out_40" && "IR_" + "fan_off" == "IR_fan_off";
    PlainIdentifier("fan_on_out_40");
    PlainIdentifier("fan_off");
    hide CIdentifier, FanIr.ResolveIrFilename;
  }

  // ----- A directory worked through -----

  const PRESS: seq<Token> := [Token("carrier", 38000), Token("pulse", 900), Token("space", 450), Token("pulse", 900)]

  lemma PressIsRecorded()
    ensures FaultFree(PRESS, 4) && Carriers(PRESS) == [38000] && Timings(PRESS) == [900, 450, 900]
  {
    assert PRESS[..0] == [] && PRESS[..1] == [PRESS[0]] && PRESS[..1][..0] == [];
    assert PRESS[..2][..1] == PRESS[..1] && PRESS[..3][..2] == PRESS[..2];
    assert Carriers(PRESS[..1]) == [38000] && Timings(PRESS[..1]) == [];
    assert Carriers(PRESS[..2]) == [38000] && Timings(PRESS[..2]) == [900];
    assert Carriers(PRESS[..3]) == [38000] && Timings(PRESS[..3]) == [900, 450];
    assert Fault(PRESS, 0) == None && Fault(PRESS, 1) == None && Fault(PRESS, 2) == None && Fault(PRESS, 3) == None;
  }

  lemma PressBuilds(c: Compiler)
    requires c.quoted("fan_off.ir") == Some("fan_off.ir") && "IR_fan_off" !in c.taken
    ensures Builds([Source("fan_off.ir", PRESS)], 38000, c)
    ensures FirstRead(c, [Source("fan_off.ir", PRESS)], "fan_off.ir", 0)
  {
    PressIsRecorded();
    FanIdentifiers();
    FanIr.RecordedNames();
    FreeExactly(c, "fan_off.ir");
    hide CIdentifier, FaultFree, Carriers, Timings, FanIr.ResolveIrFilename, Unreserved;
  }

  /** One recording goes through the compiler to the air: asked for by its name, its three timings
      are sent on 38 kHz, and asked for another name the agent sends nothing. */
  method SendPress(c: Compiler) returns (own: Result<seq<(seq<int>, nat)>, BuildError>,
                                         other: Result<seq<(seq<int>, nat)>, BuildError>)
    requires c.quoted("fan_off.ir") == Some("fan_off.ir") && "IR_fan_off" !in c.taken
    ensures own == Ok([([900, 450, 900], 38)])
    ensures other == Ok([])
  {
    PressBuilds(c);
    PressIsRecorded();
    hide Builds, FirstRead, Timings;
    var files := [Source("fan_off.ir", PRESS)];
    own := BuildAndSend(files, c, "fan_off.ir");
    other := BuildAndSend(files, c, "fan_on_in_10.ir");
  }
}

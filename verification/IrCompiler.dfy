/** From recorded pulse/space files to the table the agent's firmware is built with. */
module IrCompiler {
  import opened Prelude
  import opened Text

  /** A line of a recording that is neither blank nor a comment, split in two. */
  datatype Token = Token(kind: string, value: int)

  datatype Signal = Signal(filename: string, carrierHz: nat, timings: seq<nat>)

  datatype ParseError =
    | Negative(line: nat) | DuplicateCarrier(line: nat) | OutOfTurn(line: nat) | UnknownKind(line: nat)
    | MissingCarrier | NoTimings

  // ----- What a recording says -----

  function Timings(tokens: seq<Token>): seq<int> {
    if tokens == [] then []
    else
      var before, t := Timings(tokens[..|tokens| - 1]), tokens[|tokens| - 1];
      if t.kind == "pulse" || t.kind == "space" then before + [t.value] else before
  }

  function Carriers(tokens: seq<Token>): seq<int> {
    if tokens == [] then []
    else
      var before, t := Carriers(tokens[..|tokens| - 1]), tokens[|tokens| - 1];
      if t.kind == "carrier" then before + [t.value] else before
  }

  /** What is wrong with line `i`, given the lines before it. Pulses and spaces take turns,
      pulses first. */
  function Fault(tokens: seq<Token>, i: nat): Option<ParseError>
    requires i < |tokens|
  {
    var t, turn := tokens[i], |Timings(tokens[..i])| % 2;
    if t.value < 0 then Some(Negative(i))
    else if t.kind == "carrier" then if Carriers(tokens[..i]) != [] then Some(DuplicateCarrier(i)) else None
    else if t.kind == "pulse" then if turn != 0 then Some(OutOfTurn(i)) else None
    else if t.kind == "space" then if turn != 1 then Some(OutOfTurn(i)) else None
    else if t.kind == "timeout" then None
    else Some(UnknownKind(i))
  }

  ghost predicate FaultFree(tokens: seq<Token>, n: nat) {
    n <= |tokens| && forall i :: 0 <= i < n ==> Fault(tokens, i) == None
  }

  lemma PrefixStep(tokens: seq<Token>, i: nat)
    requires i < |tokens|
    ensures var t := tokens[i];
            && Timings(tokens[..i + 1])
               == Timings(tokens[..i]) + (if t.kind == "pulse" || t.kind == "space" then [t.value] else [])
            && Carriers(tokens[..i + 1]) == Carriers(tokens[..i]) + (if t.kind == "carrier" then [t.value] else [])
    ensures FaultFree(tokens, i + 1) <==> FaultFree(tokens, i) && Fault(tokens, i) == None
    ensures Fault(tokens, i) != None ==> !FaultFree(tokens, |tokens|)
  {
    assert tokens[..i + 1][..i] == tokens[..i];
  }

  lemma NothingYet(tokens: seq<Token>)
    ensures FaultFree(tokens, 0) && Carriers(tokens[..0]) == [] && Timings(tokens[..0]) == []
  {}

  /** The recording is accepted exactly when no line is at fault, it names a carrier and it
      has a timing; otherwise the first fault, or what is missing, is reported. */
  method ParseIrFile(filename: string, tokens: seq<Token>) returns (r: Result<Signal, ParseError>)
    ensures r.Ok? <==> FaultFree(tokens, |tokens|) && |Carriers(tokens)| == 1 && Timings(tokens) != []
    ensures r.Ok? ==> r.value.filename == filename && Carriers(tokens) == [r.value.carrierHz]
    ensures r.Ok? ==> r.value.timings == Timings(tokens)
    ensures r.Err? && (r.error.Negative? || r.error.DuplicateCarrier? || r.error.OutOfTurn? || r.error.UnknownKind?) ==>
              r.error.line < |tokens| && FaultFree(tokens, r.error.line) && Fault(tokens, r.error.line) == Some(r.error)
    ensures r == Err(MissingCarrier) ==> FaultFree(tokens, |tokens|) && Carriers(tokens) == []
    ensures r == Err(NoTimings) ==> FaultFree(tokens, |tokens|) && Timings(tokens) == []
  {
    var carrierHz: Option<nat> := None;
    var timings: seq<nat> := [];
    var expecting := "pulse";
    hide Timings, Carriers, FaultFree;
    NothingYet(tokens);
    for i := 0 to |tokens|
      invariant FaultFree(tokens, i)
      invariant Carriers(tokens[..i]) == if carrierHz.None? then [] else [carrierHz.value]
      invariant timings == Timings(tokens[..i])
      invariant expecting == if |timings| % 2 == 0 then "pulse" else "space"
    {
      PrefixStep(tokens, i);
      var kind, value := tokens[i].kind, tokens[i].value;
      if value < 0 { return Err(Negative(i)); }
      if kind == "carrier" {
        if carrierHz.Some? { return Err(DuplicateCarrier(i)); }
        carrierHz := Some(value);
      } else if kind == "pulse" {
        if expecting != "pulse" { return Err(OutOfTurn(i)); }
        timings := timings + [value];
        expecting := "space";
      } else if kind == "space" {
        if expecting != "space" { return Err(OutOfTurn(i)); }
        timings := timings + [value];
        expecting := "pulse";
      } else if kind == "timeout" {
      } else {
        return Err(UnknownKind(i));
      }
    }
    assert tokens[..|tokens|] == tokens;
    if carrierHz.None? { return Err(MissingCarrier); }
    if timings == [] { return Err(NoTimings); }
    return Ok(Signal(filename, carrierHz.value, timings));
  }

  // ----- Numbers in C source -----

  /** The length of the run of digits a text begins with. */
  function DigitRun(s: string): (n: nat)
    ensures n <= |s| && AllDigits(s[..n]) && (n == |s| || !IsDigit(s[n]))
  {
    if s == [] || !IsDigit(s[0]) then 0
    else
      var n := 1 + DigitRun(s[1..]);
      assert forall i :: 1 <= i < n ==> s[i] == s[1..][i - 1];
      n
  }

  /** The decimal literals of a text, in order. */
  function Literals(s: string): seq<nat>
    decreases |s|
  {
    if s == [] then []
    else if !IsDigit(s[0]) then Literals(s[1..])
    else [Numeral(s[..DigitRun(s)])] + Literals(s[DigitRun(s)..])
  }

  function LiteralsOf(lines: seq<string>): seq<nat> {
    if lines == [] then [] else LiteralsOf(lines[..|lines| - 1]) + Literals(lines[|lines| - 1])
  }

  lemma {:induction false} RunOfDigits(digits: string, rest: string)
    requires AllDigits(digits) && (rest == [] || !IsDigit(rest[0]))
    ensures DigitRun(digits + rest) == |digits|
  {
    var s := digits + rest;
    if digits == [] {
      assert s == rest;
    } else {
      RunOfDigits(digits[1..], rest);
      assert s[1..] == digits[1..] + rest;
    }
  }

  lemma LiteralFirst(n: nat, rest: string)
    requires rest == [] || !IsDigit(rest[0])
    ensures Literals(Decimal(n) + rest) == [n] + Literals(rest)
  {
    var d := Decimal(n);
    var s := d + rest;
    RunOfDigits(d, rest);
    assert s[..|d|] == d && s[|d|..] == rest;
    DecimalReadsBack(n);
  }

  lemma LiteralsSkip(c: char, rest: string)
    requires !IsDigit(c)
    ensures Literals([c] + rest) == Literals(rest)
  {
    assert ([c] + rest)[1..] == rest;
  }

  // ----- Rows of an array -----

  function JoinRow(row: seq<nat>): string
    requires row != []
  {
    if |row| == 1 then Decimal(row[0]) else Decimal(row[0]) + ", " + JoinRow(row[1..])
  }

  function RowLine(row: seq<nat>): string
    requires row != []
  {
    "  " + JoinRow(row) + ","
  }

  lemma Regroup(a: string, b: string)
    ensures a + ", " + b + "," == a + ([','] + ([' '] + (b + ",")))
  {}

  lemma {:induction false} JoinedRowLiterals(row: seq<nat>)
    requires row != []
    ensures Literals(JoinRow(row) + ",") == row
  {
    hide Literals, Decimal;
    if |row| == 1 {
      LiteralFirst(row[0], ",");
      LiteralsSkip(',', "");
      assert "," == [','] + "";
      assert Literals("") == [] by { NoLiterals(); }
      assert row == [row[0]];
    } else {
      var rest := JoinRow(row[1..]);
      JoinedRowLiterals(row[1..]);
      Regroup(Decimal(row[0]), rest);
      LiteralFirst(row[0], [','] + ([' '] + (rest + ",")));
      LiteralsSkip(',', [' '] + (rest + ","));
      LiteralsSkip(' ', rest + ",");
      assert row == [row[0]] + row[1..];
    }
  }

  lemma NoLiterals()
    ensures Literals("") == []
  {}

  /** A rendered row reads back as its numbers. */
  lemma RowReadsBack(row: seq<nat>)
    requires row != []
    ensures Literals(RowLine(row)) == row
  {
    var body := JoinRow(row) + ",";
    assert RowLine(row) == [' '] + ([' '] + body);
    LiteralsSkip(' ', [' '] + body);
    LiteralsSkip(' ', body);
    JoinedRowLiterals(row);
  }

  lemma RowNumerals()
    ensures Decimal(7) == "7" && Decimal(45) == "45" && Decimal(450) == "450" && Decimal(9000) == "9000"
  {
    assert Decimal(90) == "90" && Decimal(900) == "900";
  }

  /** A row as it is written, and a row of one number. */
  lemma RowSpelled()
    ensures RowLine([9000, 450, 7]) == "  9000, 450, 7," && RowLine([45]) == "  45,"
  {
    RowNumerals();
    hide Decimal;
    assert [9000, 450, 7][1..] == [450, 7] && [450, 7][1..] == [7];
    assert JoinRow([7]) == "7" && JoinRow([450, 7]) == "450, 7";
  }

  lemma LiteralsOfOneMore(lines: seq<string>, line: string)
    ensures LiteralsOf(lines + [line]) == LiteralsOf(lines) + Literals(line)
  {
    assert (lines + [line])[..|lines|] == lines;
  }

  /** The body of an array, twelve numbers to a line: as C source it denotes exactly the
      timings. */
  method RenderRows(timings: seq<nat>) returns (lines: seq<string>)
    ensures LiteralsOf(lines) == timings
    ensures |lines| == (|timings| + 11) / 12
    ensures forall i :: 0 <= i < |timings| / 12 ==> |Literals(lines[i])| == 12
  {
    lines := [];
    var row: seq<nat> := [];
    for index := 1 to |timings| + 1
      invariant |row| == (index - 1) % 12 && |lines| == (index - 1) / 12
      invariant LiteralsOf(lines) + row == timings[..index - 1]
      invariant forall i :: 0 <= i < |lines| ==> |Literals(lines[i])| == 12
    {
      row := row + [timings[index - 1]];
      assert LiteralsOf(lines) + row == timings[..index];
      if index % 12 == 0 {
        RowReadsBack(row);
        LiteralsOfOneMore(lines, RowLine(row));
        lines := lines + [RowLine(row)];
        row := [];
      }
    }
    assert timings[..|timings|] == timings;
    if row != [] {
      RowReadsBack(row);
      LiteralsOfOneMore(lines, RowLine(row));
      lines := lines + [RowLine(row)];
    }
  }

  // ----- The language of recordings -----

  /** The kinds of the timing lines. */
  function Turns(tokens: seq<Token>): (kinds: seq<string>)
    ensures |kinds| == |Timings(tokens)|
  {
    if tokens == [] then []
    else
      var before, t := Turns(tokens[..|tokens| - 1]), tokens[|tokens| - 1];
      if t.kind == "pulse" || t.kind == "space" then before + [t.kind] else before
  }

  ghost predicate Alternate(kinds: seq<string>) {
    forall i :: 0 <= i < |kinds| ==> kinds[i] == if i % 2 == 0 then "pulse" else "space"
  }

  predicate Plausible(t: Token) {
    t.value >= 0 && t.kind in ["carrier", "pulse", "space", "timeout"]
  }

  ghost predicate Recording(tokens: seq<Token>) {
    (forall t <- tokens :: Plausible(t)) && |Carriers(tokens)| <= 1 && Alternate(Turns(tokens))
  }

  lemma TurnsStep(tokens: seq<Token>, i: nat)
    requires i < |tokens|
    ensures Turns(tokens[..i + 1]) == Turns(tokens[..i])
              + (if tokens[i].kind == "pulse" || tokens[i].kind == "space" then [tokens[i].kind] else [])
  {
    assert tokens[..i + 1][..i] == tokens[..i];
  }

  lemma AlternateStep(kinds: seq<string>, kind: string)
    ensures Alternate(kinds + [kind]) <==>
              Alternate(kinds) && kind == if |kinds| % 2 == 0 then "pulse" else "space"
  {
    var longer := kinds + [kind];
    if Alternate(longer) {
      assert longer[|kinds|] == kind;
      forall i | 0 <= i < |kinds|
        ensures kinds[i] == if i % 2 == 0 then "pulse" else "space"
      {
        assert longer[i] == kinds[i];
      }
    }
  }

  lemma RecordingStep(tokens: seq<Token>, i: nat)
    requires i < |tokens|
    ensures Recording(tokens[..i + 1]) <==> Recording(tokens[..i]) && Fault(tokens, i) == None
  {
    var front, t := tokens[..i], tokens[i];
    assert tokens[..i + 1] == front + [t];
    PrefixStep(tokens, i);
    TurnsStep(tokens, i);
    AlternateStep(Turns(front), t.kind);
    assert (forall u <- tokens[..i + 1] :: Plausible(u)) <==> (forall u <- front :: Plausible(u)) && Plausible(t) by {
      assert forall u :: u in tokens[..i + 1] <==> u in front || u == t;
    }
    hide Turns, Carriers, Timings, Alternate;
    if t.kind == "carrier" && |Carriers(front)| == 0 { assert Carriers(front) == []; }
  }

  /** Going line by line without a fault is having non-negative lines of known kinds, at
      most one carrier, and pulses and spaces that alternate from a pulse. */
  lemma {:induction false} FaultFreeIsRecording(tokens: seq<Token>, n: nat)
    requires n <= |tokens|
    ensures FaultFree(tokens, n) <==> Recording(tokens[..n])
  {
    if n == 0 {
      assert tokens[..0] == [];
    } else {
      FaultFreeIsRecording(tokens, n - 1);
      RecordingStep(tokens, n - 1);
      PrefixStep(tokens, n - 1);
    }
  }

  /** Which fault is reported for a line behind good ones. A negative number comes first; then a
      carrier behind a carrier; a pulse behind a pulse, or a space behind a space or behind nothing;
      and a kind that is none of the four. */
  lemma FaultsNamed(tokens: seq<Token>, i: nat)
    requires i < |tokens| && FaultFree(tokens, i)
    ensures var t, kinds := tokens[i], Turns(tokens[..i]);
            && (Fault(tokens, i) == Some(Negative(i)) <==> t.value < 0)
            && (Fault(tokens, i) == Some(DuplicateCarrier(i)) <==>
                  t.value >= 0 && t.kind == "carrier" && exists j :: 0 <= j < i && tokens[j].kind == "carrier")
            && (Fault(tokens, i) == Some(OutOfTurn(i)) <==>
                  t.value >= 0 && if kinds == [] then t.kind == "space"
                                  else t.kind in {"pulse", "space"} && t.kind == kinds[|kinds| - 1])
            && (Fault(tokens, i) == Some(UnknownKind(i)) <==>
                  t.value >= 0 && t.kind !in {"carrier", "pulse", "space", "timeout"})
  {
    FaultFreeIsRecording(tokens, i);
    CarriersBefore(tokens, i);
    hide Carriers, Timings, FaultFree;
  }

  lemma {:induction false} CarriersBefore(tokens: seq<Token>, i: nat)
    requires i <= |tokens|
    ensures Carriers(tokens[..i]) != [] <==> exists j :: 0 <= j < i && tokens[j].kind == "carrier"
  {
    if i > 0 {
      CarriersBefore(tokens, i - 1);
      assert tokens[..i][..i - 1] == tokens[..i - 1];
    }
  }

  // ----- Identifiers -----

  predicate IsIdentifierChar(c: char) {
    '0' <= c <= '9' || 'A' <= c <= 'Z' || 'a' <= c <= 'z' || c == '_'
  }

  /** The position of the last dot, or the length when there is none. */
  function LastDot(s: string): (n: nat)
    ensures n <= |s|
  {
    if s == [] then 0
    else if s[|s| - 1] == '.' then |s| - 1
    else var n := LastDot(s[..|s| - 1]); if n == |s| - 1 then |s| else n
  }

  /** A file name without its last suffix; a leading or trailing dot starts none. */
  function Stem(filename: string): string {
    var dot := LastDot(filename);
    if 0 < dot < |filename| - 1 then filename[..dot] else filename
  }

  function Sanitize(s: string): (r: string)
    ensures |r| == |s| && forall i :: 0 <= i < |s| ==> r[i] == if IsIdentifierChar(s[i]) then s[i] else '_'
  {
    seq(|s|, i requires 0 <= i < |s| => if IsIdentifierChar(s[i]) then s[i] else '_')
  }

  function CIdentifier(filename: string): string {
    var ident := Sanitize(Stem(filename));
    "IR_" + (if ident != "" && IsDigit(ident[0]) then "_" + ident else ident)
  }

  predicate PlainStem(s: string) {
    s != "" && !IsDigit(s[0]) && forall i :: 0 <= i < |s| ==> IsIdentifierChar(s[i])
  }

  lemma {:induction false} LastDotOf(stem: string)
    ensures LastDot(stem + ".ir") == |stem|
  {
    var s := stem + ".ir";
    assert s[..|s| - 1] == stem + ".i";
    assert (stem + ".i")[..|stem| + 1] == stem + ".";
    assert s[|s| - 1] == 'r' && (stem + ".i")[|stem| + 1] == 'i' && (stem + ".")[|stem|] == '.';
    assert LastDot(stem + ".") == |stem|;
    assert LastDot(stem + ".i") == |stem|;
  }

  /** The same to the eye of a C compiler: characters that agree, or that both turn into an
      underscore. */
  predicate Alike(a: string, b: string) {
    |a| == |b| && forall i :: 0 <= i < |a| ==> a[i] == b[i] || (Blank(a[i]) && Blank(b[i]))
  }

  predicate Blank(c: char) { c == '_' || !IsIdentifierChar(c) }

  predicate Numbered(s: string) { s != "" && IsDigit(s[0]) }

  /** Two stems get one identifier: they are alike, or one begins with a digit and is alike to
      the other less a leading blank. */
  predicate Collide(a: string, b: string) {
    || Alike(a, b)
    || (Numbered(a) && Alike("_" + a, b))
    || (Numbered(b) && Alike(a, "_" + b))
  }

  lemma SanitizedAlike(a: string, b: string)
    ensures Sanitize(a) == Sanitize(b) <==> Alike(a, b)
  {
    var x, y := Sanitize(a), Sanitize(b);
    if Alike(a, b) {
      assert x == y;
    } else if x == y && |a| == |b| {
      forall i | 0 <= i < |a|
        ensures a[i] == b[i] || (Blank(a[i]) && Blank(b[i]))
      {
        assert x[i] == y[i];
      }
    }
  }

  lemma SanitizedLead(s: string)
    ensures Sanitize("_" + s) == "_" + Sanitize(s)
  {}

  lemma NumberedIsNotAlike(a: string, b: string)
    requires Numbered(a) && !Numbered(b)
    ensures !Alike(a, b) && !Alike(b, a)
  {
    if b != "" { assert a[0] != b[0] && !Blank(a[0]); }
  }

  lemma PrefixedAlike(a: string, b: string)
    ensures "_" + Sanitize(a) == "_" + Sanitize(b) <==> Alike(a, b)
    ensures "_" + Sanitize(a) == Sanitize(b) <==> Alike("_" + a, b)
    ensures Sanitize(a) == "_" + Sanitize(b) <==> Alike(a, "_" + b)
  {
    SanitizedAlike(a, b);
    SanitizedLead(a);
    SanitizedLead(b);
    SanitizedAlike("_" + a, b);
    SanitizedAlike(a, "_" + b);
    hide Alike, Sanitize;
    if "_" + Sanitize(a) == "_" + Sanitize(b) { assert ("_" + Sanitize(a))[1..] == ("_" + Sanitize(b))[1..]; }
  }

  function Ident(stem: string): string {
    if Numbered(stem) then "_" + Sanitize(stem) else Sanitize(stem)
  }

  lemma CIdentifierIs(filename: string)
    ensures CIdentifier(filename) == "IR_" + Ident(Stem(filename))
  {
    var stem := Stem(filename);
    assert Sanitize(stem) != "" && IsDigit(Sanitize(stem)[0]) <==> Numbered(stem);
  }

  lemma IdentsExactly(a: string, b: string)
    ensures Ident(a) == Ident(b) <==> Collide(a, b)
  {
    PrefixedAlike(a, b);
    SanitizedAlike(a, b);
    var la, lb := "_" + a, "_" + b;
    assert !Numbered(la) && !Numbered(lb);
    if Numbered(a) { NumberedIsNotAlike(a, lb); }
    if Numbered(b) { NumberedIsNotAlike(b, la); }
    if Numbered(a) && !Numbered(b) { NumberedIsNotAlike(a, b); }
    if Numbered(b) && !Numbered(a) { NumberedIsNotAlike(b, a); }
    hide Alike, Sanitize, Numbered;
  }

  /** Two files get the same identifier exactly when their stems collide. */
  lemma IdentifiersExactly(f: string, g: string)
    ensures CIdentifier(f) == CIdentifier(g) <==> Collide(Stem(f), Stem(g))
  {
    CIdentifierIs(f);
    CIdentifierIs(g);
    IdentsExactly(Stem(f), Stem(g));
    hide CIdentifier, Ident, Collide;
    var x, y := Ident(Stem(f)), Ident(Stem(g));
    if "IR_" + x == "IR_" + y { assert x == ("IR_" + x)[3..] && y == ("IR_" + y)[3..]; }
  }

  /** So files named by a plain stem are told apart, */
  lemma IdentifiersDistinguish(a: string, b: string)
    requires PlainStem(a) && PlainStem(b)
    ensures CIdentifier(a + ".ir") == "IR_" + a
    ensures CIdentifier(a + ".ir") == CIdentifier(b + ".ir") <==> a == b
  {
    PlainIdentifier(a);
    PlainIdentifier(b);
    if "IR_" + a == "IR_" + b {
      assert a == ("IR_" + a)[3..] && b == ("IR_" + b)[3..];
    }
  }

  lemma PlainIdentifier(stem: string)
    requires PlainStem(stem)
    ensures CIdentifier(stem + ".ir") == "IR_" + stem
  {
    LastDotOf(stem);
    assert (stem + ".ir")[..|stem|] == stem;
    assert Sanitize(stem) == stem;
  }

  lemma StemOf(stem: string)
    requires stem != ""
    ensures Stem(stem + ".ir") == stem
  {
    LastDotOf(stem);
    assert (stem + ".ir")[..|stem|] == stem;
  }

  /** while a dash passes for an underscore, */
  lemma DashCollides()
    ensures CIdentifier("a-b.ir") == CIdentifier("a_b.ir")
  {
    StemOf("a-b");
    StemOf("a_b");
    assert "a-b" + ".ir" == "a-b.ir" && "a_b" + ".ir" == "a_b.ir";
    assert Alike("a-b", "a_b");
    IdentifiersExactly("a-b.ir", "a_b.ir");
  }

  /** and a leading digit for itself behind an underscore. */
  lemma DigitCollides()
    ensures CIdentifier("1.ir") == CIdentifier("_1.ir")
  {
    StemOf("1");
    StemOf("_1");
    assert "1" + ".ir" == "1.ir" && "_1" + ".ir" == "_1.ir";
    assert Numbered("1") && "_" + "1" == "_1";
    IdentifiersExactly("1.ir", "_1.ir");
  }

  // ----- The header -----

  /** The generated header: two constants, an array per signal, a table naming them. */
  datatype Header = Header(khz: nat, maxTimings: nat, arrays: seq<(string, seq<string>)>, table: seq<Row>)

  datatype Row = Row(filename: string, ident: string, length: nat)

  datatype RenderError = MixedCarriers | NotWholeKhz

  ghost predicate OneCarrier(signals: seq<Signal>, hz: nat) {
    signals != [] && forall s <- signals :: s.carrierHz == hz
  }

  /** An array and a table row that stand for a signal. */
  ghost predicate Entry(definition: (string, seq<string>), row: Row, s: Signal) {
    && definition.0 == CIdentifier(s.filename) && LiteralsOf(definition.1) == s.timings
    && row == Row(s.filename, CIdentifier(s.filename), |s.timings|)
  }

  ghost predicate Longest(n: nat, signals: seq<Signal>) {
    && (forall i :: 0 <= i < |signals| ==> |signals[i].timings| <= n)
    && (exists i :: 0 <= i < |signals| && |signals[i].timings| == n)
  }

  /** The header that stands for the signals. */
  ghost predicate Renders(h: Header, signals: seq<Signal>) {
    && OneCarrier(signals, h.khz * 1000) && Longest(h.maxTimings, signals)
    && |h.arrays| == |h.table| == |signals|
    && (forall i :: 0 <= i < |signals| ==> Entry(h.arrays[i], h.table[i], signals[i]))
  }

  method LongestTimings(signals: seq<Signal>) returns (n: nat)
    requires signals != []
    ensures Longest(n, signals)
  {
    n := |signals[0].timings|;
    for i := 0 to |signals|
      invariant forall j :: 0 <= j < i ==> |signals[j].timings| <= n
      invariant exists j :: 0 <= j < |signals| && |signals[j].timings| == n
    {
      n := Max(n, |signals[i].timings|);
    }
  }

  method RenderEntries(signals: seq<Signal>) returns (arrays: seq<(string, seq<string>)>, table: seq<Row>)
    ensures |arrays| == |table| == |signals|
    ensures forall i :: 0 <= i < |signals| ==> Entry(arrays[i], table[i], signals[i])
  {
    arrays, table := [], [];
    for i := 0 to |signals|
      invariant |arrays| == |table| == i
      invariant forall j :: 0 <= j < i ==> Entry(arrays[j], table[j], signals[j])
    {
      hide LiteralsOf, CIdentifier;
      var ident := CIdentifier(signals[i].filename);
      var rows := RenderRows(signals[i].timings);
      arrays := arrays + [(ident, rows)];
      table := table + [Row(signals[i].filename, ident, |signals[i].timings|)];
    }
  }

  method RenderHeader(signals: seq<Signal>) returns (r: Result<Header, RenderError>)
    ensures r.Ok? ==> Renders(r.value, signals)
    ensures r == Err(MixedCarriers) <==> !exists hz :: OneCarrier(signals, hz)
    ensures r == Err(NotWholeKhz) <==> exists hz :: OneCarrier(signals, hz) && hz % 1000 != 0
  {
    hide Longest, Entry;
    if signals == [] { return Err(MixedCarriers); }
    assert signals[0] in signals;
    var carrier := signals[0].carrierHz;
    if exists s <- signals :: s.carrierHz != carrier { return Err(MixedCarriers); }
    assert OneCarrier(signals, carrier);
    if carrier % 1000 != 0 { return Err(NotWholeKhz); }
    var maxTimings := LongestTimings(signals);
    var arrays, table := RenderEntries(signals);
    return Ok(Header(carrier / 1000, maxTimings, arrays, table));
  }
}

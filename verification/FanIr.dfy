/** Infrared command names, and the wrapper that suppresses repeated commands. */
module FanIr {
  import opened Prelude
  import Text

  // ----- Command names -----

  const FAN_OFF := "fan_off.ir"
  const PREFIX_IN := "fan_on_in_"
  const PREFIX_OUT := "fan_on_out_"
  const SUFFIX := ".ir"

  function ResolveIrFilename(direction: string, speed: nat): string {
    if speed == 0 then FAN_OFF
    else if direction == "out" then PREFIX_OUT + Text.Decimal(speed) + SUFFIX
    else PREFIX_IN + Text.Decimal(speed) + SUFFIX
  }

  lemma InfixUnique(prefix: string, a: string, b: string)
    requires prefix + a + SUFFIX == prefix + b + SUFFIX
    ensures a == b
  {
    var s, t := prefix + a + SUFFIX, prefix + b + SUFFIX;
    assert |a| == |b|;
    assert a == s[|prefix|..|prefix| + |a|];
    assert b == t[|prefix|..|prefix| + |b|];
  }

  /** Two settings share a name exactly when both are off, or they agree in speed and in
      whether they blow out. */
  lemma NamesDistinguish(d: string, s: nat, e: string, t: nat)
    ensures ResolveIrFilename(d, s) == ResolveIrFilename(e, t)
            <==> s == t && (s == 0 || (d == "out" <==> e == "out"))
  {
    var f, g := ResolveIrFilename(d, s), ResolveIrFilename(e, t);
    if f == g {
      assert FAN_OFF[4] == 'o' && FAN_OFF[5] == 'f' && PREFIX_IN[5] == 'n' && PREFIX_OUT[5] == 'n';
      assert PREFIX_IN[7] == 'i' && PREFIX_OUT[7] == 'o';
      assert s == 0 ==> f[5] == 'f';
      assert s != 0 ==> f[5] == 'n' && (f[7] == 'o' <==> d == "out");
      assert t == 0 ==> g[5] == 'f';
      assert t != 0 ==> g[5] == 'n' && (g[7] == 'o' <==> e == "out");
      if s != 0 {
        InfixUnique(if d == "out" then PREFIX_OUT else PREFIX_IN, Text.Decimal(s), Text.Decimal(t));
        Text.DecimalReadsBack(s);
        Text.DecimalReadsBack(t);
      }
    }
  }

  /** The names as they are spelled. Off is one file. On, the direction chooses the beginning,
      anything but "out" blowing in; the speed follows as its numeral, and ".ir" ends it. */
  lemma NamesSpelled(direction: string, speed: nat)
    ensures speed == 0 ==> ResolveIrFilename(direction, speed) == "fan_off.ir"
    ensures speed > 0 ==>
              var name := ResolveIrFilename(direction, speed);
              var prefix := if direction == "out" then "fan_on_out_" else "fan_on_in_";
              && |prefix| + 3 < |name| && prefix <= name && name[|name| - 3..] == ".ir"
              && var numeral := name[|prefix|..|name| - 3];
                 && Text.AllDigits(numeral) && Text.Numeral(numeral) == speed && numeral[0] != '0'
  {
    if speed > 0 {
      var numeral := Text.Decimal(speed);
      var prefix := if direction == "out" then "fan_on_out_" else "fan_on_in_";
      assert ResolveIrFilename(direction, speed) == prefix + numeral + ".ir";
      Text.DecimalReadsBack(speed);
      Text.NoLeadingZero(speed);
      assert (prefix + numeral + ".ir")[|prefix|..|prefix| + |numeral|] == numeral;
    }
  }

  /** The recordings the repository has, and the settings they are sent for. */
  lemma RecordedNames()
    ensures ResolveIrFilename("in", 10) == "fan_on_in_10.ir" && ResolveIrFilename("out", 10) == "fan_on_out_10.ir"
    ensures ResolveIrFilename("in", 20) == "fan_on_in_20.ir" && ResolveIrFilename("out", 20) == "fan_on_out_20.ir"
    ensures ResolveIrFilename("in", 30) == "fan_on_in_30.ir" && ResolveIrFilename("out", 30) == "fan_on_out_30.ir"
    ensures ResolveIrFilename("in", 40) == "fan_on_in_40.ir" && ResolveIrFilename("out", 40) == "fan_on_out_40.ir"
    ensures ResolveIrFilename("in", 50) == "fan_on_in_50.ir" && ResolveIrFilename("out", 50) == "fan_on_out_50.ir"
    ensures ResolveIrFilename("in", 60) == "fan_on_in_60.ir" && ResolveIrFilename("out", 60) == "fan_on_out_60.ir"
    ensures ResolveIrFilename("in", 70) == "fan_on_in_70.ir" && ResolveIrFilename("out", 70) == "fan_on_out_70.ir"
    ensures ResolveIrFilename("in", 80) == "fan_on_in_80.ir" && ResolveIrFilename("out", 80) == "fan_on_out_80.ir"
    ensures ResolveIrFilename("in", 90) == "fan_on_in_90.ir" && ResolveIrFilename("out", 90) == "fan_on_out_90.ir"
    ensures ResolveIrFilename("in", 100) == "fan_on_in_100.ir" && ResolveIrFilename("out", 100) == "fan_on_out_100.ir"
    ensures ResolveIrFilename("in", 0) == ResolveIrFilename("out", 0) == "fan_off.ir"
  {
    Text.SpeedNumerals();
    hide Text.Decimal;
  }

  // ----- Suppression -----

  /** What the wrapper remembers, and every command the transmitter has emitted. */
  datatype IrState = IrState(lastSent: Option<string>, sent: seq<string>)

  const SILENT := IrState(None, [])

  /** One request; `works` is what the transmitter would answer if asked. */
  function Request(s: IrState, filename: string, works: bool): (IrState, bool) {
    if s.lastSent == Some(filename) then (s, true)
    else if works then (IrState(Some(filename), s.sent + [filename]), true)
    else (s, false)
  }

  /** A transmitter that emits what it is sent, or fails and emits nothing, as `works`
      decides call by call. */
  class Transmitter {
    const works: nat -> bool
    var calls: nat
    var sent: seq<string>

    constructor (works: nat -> bool)
      ensures this.works == works && calls == 0 && sent == []
    {
      this.works, calls, sent := works, 0, [];
    }

    method Send(filename: string) returns (ok: bool)
      modifies this
      ensures ok == works(old(calls)) && calls == old(calls) + 1
      ensures sent == if ok then old(sent) + [filename] else old(sent)
    {
      ok := works(calls);
      calls := calls + 1;
      if ok { sent := sent + [filename]; }
    }
  }

  class DedupingIr {
    const inner: Transmitter
    var lastSent: Option<string>

    constructor (inner: Transmitter)
      ensures this.inner == inner && lastSent == None
    {
      this.inner, lastSent := inner, None;
    }

    ghost function State(): IrState
      reads this, inner
    {
      IrState(lastSent, inner.sent)
    }

    method Send(filename: string) returns (ok: bool)
      modifies this, inner
      ensures (State(), ok) == Request(old(State()), filename, inner.works(old(inner.calls)))
      ensures inner.calls == if old(lastSent) == Some(filename) then old(inner.calls) else old(inner.calls) + 1
    {
      if lastSent == Some(filename) { return true; }
      ok := inner.Send(filename);
      if ok { lastSent := Some(filename); }
    }

    method Reset()
      modifies this
      ensures State() == old(State()).(lastSent := None)
    {
      lastSent := None;
    }
  }

  // ----- Runs of requests -----

  function Requests(s: IrState, names: seq<string>, works: seq<bool>): IrState
    requires |works| == |names|
    decreases |names|
  {
    if names == [] then s
    else Requests(Request(s, names[0], works[0]).0, names[1..], works[1..])
  }

  ghost predicate NoRepeats(names: seq<string>) {
    forall i :: 0 < i < |names| ==> names[i] != names[i - 1]
  }

  /** The wrapper remembers exactly the last command emitted. */
  ghost predicate InStep(s: IrState) {
    s.lastSent == (if s.sent == [] then None else Some(s.sent[|s.sent| - 1])) && NoRepeats(s.sent)
  }

  /** As seen from the fan, suppressing refines always sending: after a request that
      succeeds the last command emitted is the one asked for, after one that fails nothing
      has changed, and a request succeeds whenever the transmitter would. */
  lemma RequestRefinesSendAlways(s: IrState, filename: string, works: bool)
    requires InStep(s)
    ensures var (t, ok) := Request(s, filename, works);
            && InStep(t)
            && (ok ==> t.sent != [] && t.sent[|t.sent| - 1] == filename)
            && (!ok ==> t == s)
            && (works ==> ok)
            && (t.sent != s.sent <==> ok && s.lastSent != Some(filename))
  {}

  /** Over any run of requests and failures, starting silent, no command is ever emitted
      twice in a row. */
  lemma {:induction false} RunsStayInStep(s: IrState, names: seq<string>, works: seq<bool>)
    requires |works| == |names| && InStep(s)
    ensures InStep(Requests(s, names, works)) && s.sent <= Requests(s, names, works).sent
    decreases |names|
  {
    if names != [] {
      RequestRefinesSendAlways(s, names[0], works[0]);
      RunsStayInStep(Request(s, names[0], works[0]).0, names[1..], works[1..]);
    }
  }

  /** Once something was emitted, asking for it again emits it again exactly after a reset. */
  lemma RepeatExactlyAfterReset(s: IrState, reset: bool)
    requires InStep(s) && s.sent != []
    ensures var s' := if reset then s.(lastSent := None) else s;
            var again := s.sent[|s.sent| - 1];
            NoRepeats(Request(s', again, true).0.sent) <==> !reset
  {
    var again := s.sent[|s.sent| - 1];
    if reset {
      var t := s.sent + [again];
      assert t[|s.sent|] == t[|s.sent| - 1];
    }
  }

  /** Runs of equal neighbours reduced to one. */
  function Collapse(names: seq<string>): seq<string> {
    if |names| <= 1 then names
    else if names[|names| - 1] == names[|names| - 2] then Collapse(names[..|names| - 1])
    else Collapse(names[..|names| - 1]) + [names[|names| - 1]]
  }

  lemma {:induction false} CollapseEnds(names: seq<string>)
    requires names != []
    ensures Collapse(names) != [] && Collapse(names)[|Collapse(names)| - 1] == names[|names| - 1]
  {
    if |names| > 1 { CollapseEnds(names[..|names| - 1]); }
  }

  /** One more request to a working transmitter extends the collapsed history. */
  lemma CollapseOneMore(s: IrState, names: seq<string>, filename: string)
    requires InStep(s) && s.sent == Collapse(names)
    ensures Request(s, filename, true).0.sent == Collapse(names + [filename])
    ensures InStep(Request(s, filename, true).0)
  {
    var all := names + [filename];
    assert all[..|all| - 1] == names;
    if names != [] { CollapseEnds(names); }
    RequestRefinesSendAlways(s, filename, true);
  }
}

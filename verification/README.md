# Verified model of the fan controller and battery bridge

A Dafny model of the parts of this repository that carry its logic, with proofs that hold
for every input, every run and every interleaving. It covers six systems:

- **The battery's radio protocol** (`ModbusCrc`, `TdtFrames`, `AnalogPayload`): the CRC of
  MODBUS over Serial Line V1.02, section 6.2.2, the read request, the assembler that rebuilds
  one frame from notifications, and the cursor parser of the analog reading.
- **The thermostat loop** (`Rounding`, `SpeedCurve`, `FanIr`, `FanControl`, `PatchBudget`,
  `StoreAgreement`, `FanSteps`, `MultiFan`, `NodeOverlap`, `Replay`, `ReplayFixtures`): one fan's
  iteration with its sensor, its deduplicating transmitter and the store, then what holds over runs,
  over several fans in one pass, and over a replayed fixture.
- **The in-memory Firebase tree** (`JsonTree`, `MemoryFirebase`): the laws of reading and
  writing paths, on values, and the mutable dictionaries that realize them, with deep copies.
- **MQTT framing** (`Mqtt`): the remaining-length field, packets, and the PUBLISH body, after
  sections 2.2.3 and 3.3 of MQTT 3.1.1.
- **The IR compiler and its agent** (`Text`, `IrCompiler`, `IrAgent`): from recorded tokens to
  C tables to the timings the agent transmits.
- **The Pylontech feeds** (`PackDecoder`, `SlotDecoder`, `SlotNames`, `CerboBank`, `PackPublisher`,
  `PackOctets`, `PackFeeds`, `SlotFeed`, `BankRelay`, `RelayRuns`, `RelayMessages`): the daemon's and
  the firmware's decoders and publish-on-change loops, and the relay that sums six packs up into one
  bank.

Code that updates objects or buffers in place is modelled by classes, arrays and loops whose
contracts name a function of the old state; the theorems are about those functions. Code made
of expressions is modelled by functions and lemmas. `Prelude` holds shared vocabulary.

What a function of the model means is stated once more without it, in the keys, file names, octets,
times and texts of the repository: for the thermostat in `FanSteps` and `FanIr.NamesSpelled`, for
the feeds in `PackOctets`, `SlotNames` and `RelayMessages`. The examples the repository promises,
its replay fixtures and the battery frames of its tests, are theorems as well (`ReplayFixtures.ReplayAll`,
`PackOctets.PublishCycle`).

Where the code does not do what its documentation or design suggests, the model follows the
code, and the exact condition under which the promise holds is a theorem:

- The assembler ends every run as if the pieces it kept had come as one, and a frame comes back
  exactly when all of it was kept and the last octet kept is the tail octet
  (`TdtFrames.RunIsOnePiece`, `KeptFrame`). So trailing octets in a last piece that fits cost the
  frame unless they end in the tail octet, a last piece that does not fit behind a frame of at most
  256 octets is refused whole, and a longer frame never comes back (`RoundTrip`).
- An analog reading is read faithfully for every payload exactly when it has 2 to 8 temperatures
  (`AnalogPayload.FaithfulExactly`); with fewer, later fields are taken for temperatures
  (`OneTemperature`, `NoTemperature`), with more, a temperature for the current
  (`SurplusReadAsCurrent`).
- The request keeps its CRC high octet first, so the standard's self check over it passes only
  when the two octets of the CRC are equal (`ModbusCrc.RequestSelfCheck`); it fails for every
  request the firmware sends (`SentRequestsFail`).
- `sensorOk`, `lastIrCommand` and `irOk` in the store are current exactly when a patch was due and
  made, or the store had them right already; `irOk` besides is claimed true by every outage patch
  (`StoreAgreement.SensorFlagCurrentExactly`, `LastCommandCurrentExactly`, `IrFlagCurrentExactly`).
  So an outage is not shown at once (`OutageNotShown`), nor its end (`StaleSensorFlag`), nor a new
  command (`StaleCommand`), nor a failed one (`FailureNotShown`, `OutageHidesFailure`).
- A value put or patched at the root of the in-memory store is not copied: store and caller share
  a dictionary exactly when the path is the root and the value has a dictionary inside it
  (`MemoryFirebase.PutShares`, `PatchShares`).
- Two fans never disturb each other's nodes exactly when neither node lies at or below the other
  (`NodeOverlap.ApartExactly`); the configuration check compares strings and lets others pass
  (`MultiFan.PrefixDisturbs`). One way, a fan spares a node exactly when it is apart or lies below
  its own under a name that is not telemetry (`UndisturbedExactly`), so a fan at `fans` spares
  `fans/fan1` and is disturbed by it.
- Above its target the fan is off exactly at the distances p/q gradients with e^p <= (e/2)^q, and
  there is no such distance exactly for exponents from 1 to 2 (`SpeedCurve.OffExactly`,
  `OffOnlyAtTargetExactly`), for positive exponents e; the exponent can be configured freely, and
  one of zero or below leaves the fan off two gradients above (`OffWithoutPositive`).
- Different file names can get the same C identifier: exactly when their stems agree once
  everything but letters and digits is an underscore, and a leading digit is put behind one
  (`IrCompiler.IdentifiersExactly`).
- A header that is rendered need not compile: it does exactly when the identifiers are distinct and
  not taken, by its own constants and table or before it is included, the numbers fit sixteen bits
  and every name reads as a text (`IrAgent.CompilesExactly`, `FreeExactly`). A recording named
  `CODES.ir` has no place (`ReservedName`), and a name with quotes in it can answer for another
  (`QuotedNameAnswers`).
- An alarm on the Cerbo comes with the coach's alarm flag exactly when the status frame has five
  octets; one of four octets raises the alarm alone (`CerboBank.AlarmsRaiseFlag`,
  `AlarmWithoutFlag`).
- The coach's topics can disagree with the pack after a publish that failed part-way: exactly then,
  when a topic it did not reach lacked its value (`PackFeeds.FailedAgreesExactly`), and, on a later
  pass with nothing due, when something left behind contradicts the values
  (`QuietAgreesExactly`, `MixedAfterRevert`).
- The firmware remembers a list as published whatever became of its messages, so its topics agree
  exactly when the last round it published left them so (`SlotFeed.FeedAgreesExactly`,
  `RepeatUndone`); the daemon tries again.
- Before the relay's clock reaches three minutes it counts packs as online that were never
  heard of (`RelayRuns.OnlineExactly`, `FiveTooMany`).

## Model

| member | source | states |
|---|---|---|
| ModbusCrc.ModbusCrc | firmware/wattcycle-reader/src/main.cpp:99-108 | the firmware's two loops compute the CRC of exactly the first n octets, as an octet-wise fold |
| ModbusCrc.ShiftBijective | firmware/wattcycle-reader/src/main.cpp:104 | one bit step of the register is a bijection, with an explicit inverse |
| ModbusCrc.ShiftLinear | firmware/wattcycle-reader/src/main.cpp:104 | a bit step is linear over exclusive or |
| ModbusCrc.ShiftsLinear | firmware/wattcycle-reader/src/main.cpp:103-105 | any number of steps is linear |
| ModbusCrc.ShiftsInjective | firmware/wattcycle-reader/src/main.cpp:103-105 | no number of steps merges two registers |
| ModbusCrc.CrcIsBitSerial | firmware/wattcycle-reader/src/main.cpp:99-108 | the octet-wise CRC equals the bit-serial CRC of the bits on the wire, for every message and start value |
| ModbusCrc.BurstLeavesTrace | firmware/wattcycle-reader/src/main.cpp:99-108 | a non-empty burst of at most 16 bits never leaves a clear register clear |
| ModbusCrc.BurstDetected | firmware/wattcycle-reader/src/main.cpp:99-108 | every error confined to 16 consecutive bits changes the CRC, at any place in a message of any length |
| ModbusCrc.AdjacentOctetsDetected | firmware/wattcycle-reader/src/main.cpp:99-108 | equal-length messages that differ only inside two adjacent octets have different CRCs |
| ModbusCrc.OddErrorsDetected | firmware/wattcycle-reader/src/main.cpp:99-108 | every odd number of flipped bits, wherever they are, changes the CRC |
| ModbusCrc.OddErrorsInOctets | firmware/wattcycle-reader/src/main.cpp:99-108 | so messages of one length that differ in an odd number of bits have different CRCs |
| ModbusCrc.TwoOctetsClear | firmware/wattcycle-reader/src/main.cpp:99-108 | two further octets clear the register if and only if they spell it, low octet first |
| ModbusCrc.SelfCheck | firmware/wattcycle-reader/src/main.cpp:99-108 | the standard's self check: exactly the CRC appended low octet first makes the whole CRC vanish |
| ModbusCrc.BuildReadFrame | firmware/wattcycle-reader/src/main.cpp:110-124 | the eleven octets of a request, its CRC over the first eight stored high octet first, and nothing written beyond |
| ModbusCrc.RequestCrcsDistinct | firmware/wattcycle-reader/src/main.cpp:110-124 | under one head, different data points give different CRC octets |
| ModbusCrc.RequestSelfCheck | firmware/wattcycle-reader/src/main.cpp:119-121 | the standard's check over a request holds if and only if the two octets of the CRC of its first eight octets are equal |
| ModbusCrc.SentRequestsFail | firmware/wattcycle-reader/src/main.cpp:343-347 | it fails for each of the four requests the firmware sends |
| ModbusCrc.AnotherPasses | firmware/wattcycle-reader/src/main.cpp:110-124 | it passes for another data point |
| ModbusCrc.AnalogRequest | firmware/wattcycle-reader/src/main.cpp:110-124 | the eleven octets of the request for the analog data, spelled out |
| TdtFrames.Assembler.constructor | firmware/wattcycle-reader/src/main.cpp:126-130 | a new assembler holds nothing |
| TdtFrames.Assembler.Reset | firmware/wattcycle-reader/src/main.cpp:132-136 | a reset forgets everything, from any field values |
| TdtFrames.Assembler.Feed | firmware/wattcycle-reader/src/main.cpp:138-147 | one notification: taken whole, or ignored when complete or too long; octets beyond the length untouched |
| TdtFrames.Assembler.Payload | firmware/wattcycle-reader/src/main.cpp:149-156 | the slice is offered exactly when the frame is complete with a known head and the tail, and lies inside the received octets |
| TdtFrames.AcceptSound | firmware/wattcycle-reader/src/main.cpp:138-147 | the invariant: length at most 256; the expected length is 0 exactly below 8 octets, else 11 to 256 and as announced; complete exactly when reached |
| TdtFrames.RunSound | firmware/wattcycle-reader/src/main.cpp:132-156 | over every sequence of notifications the invariant holds, completion absorbs, received octets only grow, and any payload keeps its eleven octets of frame around it |
| TdtFrames.PartialFrame | firmware/wattcycle-reader/src/main.cpp:138-147 | while a proper part of a frame has arrived, in any pieces, the assembler holds exactly that part and is not complete |
| TdtFrames.ShortFrameCompletes | firmware/wattcycle-reader/src/main.cpp:138-147 | a frame of at most 256 octets completes exactly with its last octet, unless that notification overruns the buffer |
| TdtFrames.RunIsOnePiece | firmware/wattcycle-reader/src/main.cpp:132-147 | any run at all ends as if the pieces it keeps had come in one; refused pieces and cuts leave no trace |
| TdtFrames.KeptFrame | firmware/wattcycle-reader/src/main.cpp:138-156 | over any pieces whose kept octets carry a frame, the payload comes back if and only if all of the frame was kept and the last octet kept is the tail octet |
| TdtFrames.RoundTrip | firmware/wattcycle-reader/src/main.cpp:138-156 | for any frame, cutting, trailing octets and later pieces: if frame and trailing octets fit the buffer, the payload comes back exactly when they end in the tail octet; if only the frame would, the run ends as if its last piece were never sent; a longer frame never comes back |
| TdtFrames.WholeFrame | firmware/wattcycle-reader/src/main.cpp:138-147 | every cutting of a frame with a payload of at most 245 octets ends in one stated state |
| TdtFrames.FragmentationIndependent | firmware/wattcycle-reader/src/main.cpp:132-156 | every cutting returns the payload, and completion comes exactly with the last octet |
| TdtFrames.OfferedExactly | firmware/wattcycle-reader/src/main.cpp:126-156 | over any notifications, octet by octet: a payload is offered if and only if the head is 0x7e or 0x1e, the announced length or the full 256 octets have come and the last octet is 0x0d; and it is the octets between |
| TdtFrames.FirstKept | firmware/wattcycle-reader/src/main.cpp:138-140 | a first notification is kept if and only if it has at most 256 octets |
| TdtFrames.SmallFrame | firmware/wattcycle-reader/src/main.cpp:138-156 | a frame of thirteen octets in two notifications, and the same with another tail octet |
| AnalogPayload.BatteryData.ParseAnalog | firmware/wattcycle-reader/src/main.cpp:178-222 | accepts exactly when the cell count is 1 to 16 and the length suffices; never reads past n; all fields as the layout says; a rejected payload leaves the fields after the temperatures alone |
| AnalogPayload.BatteryData.ParseCells | firmware/wattcycle-reader/src/main.cpp:179-188 | the cell voltages in order and the cursor behind them, or a rejection |
| AnalogPayload.BatteryData.ParseTemps | firmware/wattcycle-reader/src/main.cpp:189-201 | case, board and up to six cell temperatures, and the cursor behind them, or a rejection |
| AnalogPayload.BatteryData.ParseFixed | firmware/wattcycle-reader/src/main.cpp:202-221 | the seven fixed words; the state of health only when 18 more octets follow, else kept as it was |
| AnalogPayload.EncodeCurrent | firmware/wattcycle-reader/src/main.cpp:170-176 | an encoder for the sign and decimal word that the decoder inverts |
| AnalogPayload.CurrentsOnWire | firmware/wattcycle-reader/src/main.cpp:170-176 | a current has a word if and only if it is representable: at most 16383 tenths, or at most 16383 whole amperes, of either sign |
| AnalogPayload.Layout | firmware/wattcycle-reader/src/main.cpp:178-222 | where every field of an encoded payload lies |
| AnalogPayload.DecodesEncoded | firmware/wattcycle-reader/src/main.cpp:178-222 | the parser inverts the encoder for two to eight temperatures |
| AnalogPayload.SurplusReadAsCurrent | firmware/wattcycle-reader/src/main.cpp:197-203 | with more than eight temperatures the ninth is taken for the current |
| AnalogPayload.OneTemperature | firmware/wattcycle-reader/src/main.cpp:190-216 | with one, it is accepted exactly when two octets follow, and the whole reading then: the current word is taken for a temperature, and each later field for the one before it |
| AnalogPayload.NoTemperature | firmware/wattcycle-reader/src/main.cpp:190-216 | with none, four must follow, and the whole reading then: the current word and the voltage are taken for temperatures |
| AnalogPayload.FaithfulExactly | firmware/wattcycle-reader/src/main.cpp:189-203 | all fields a payload shares with the reading come back, for every payload of t temperatures, if and only if t is 2 to 8; otherwise a payload is accepted and its current misread |
| AnalogPayload.DeliveredReading | firmware/wattcycle-reader/src/main.cpp:126-222 | a reading encoded, framed, cut into any notifications and reassembled is parsed back |
| AnalogPayload.CurrentInOctets | firmware/wattcycle-reader/src/main.cpp:170-176 | the current word octet by octet: sign, tenths flag and size |
| AnalogPayload.HealthRead | firmware/wattcycle-reader/src/main.cpp:216-220 | the state of health is read if and only if eighteen octets follow the fixed fields; how many cell temperatures are taken |
| AnalogPayload.SampleReads | firmware/wattcycle-reader/src/main.cpp:178-222 | a payload of 46 octets and all the fields read from it |
| Rounding.RoundAtLeast | maxxair_fan/fan.py:64 | half-even rounding reaches k exactly above k - 1/2, or at it when k is even |
| Rounding.RoundMonotone | maxxair_fan/fan.py:64 | rounding keeps order |
| Rounding.RoundToRespects | deploy/wattcycle-ble-relay.py:153 | rounding to a unit never crosses a multiple of that unit |
| SpeedCurve.PowersOrdered | maxxair_fan/fan.py:59 | rational powers, known only by their defining equation, are ordered as their exponents however the fractions are written |
| SpeedCurve.NoTie | maxxair_fan/fan.py:64 | for exponent 2 no value above the target is a half-way tie |
| SpeedCurve.SpeedStep | maxxair_fan/fan.py:51-65 | with exponent 2 and distance p/q gradients the speed reaches 10k if and only if (2k-1)^q < 2^p |
| SpeedCurve.SpeedCountsSteps | maxxair_fan/fan.py:51-65 | the speed is ten times the number of such k in 1 to 10 |
| SpeedCurve.WholeGradients | maxxair_fan/fan.py:51-65 | at n whole gradients the speed is 10 times 2^(n-1), capped at 100 |
| SpeedCurve.SpeedMonotone | maxxair_fan/fan.py:45-65 | the speed never falls as the distance to the target grows, for every exponent of at least 1 and every spelling of the distance |
| SpeedCurve.OffExactly | maxxair_fan/fan.py:51-65 | for every positive exponent e, p/q gradients above the target the fan is off if and only if e^p <= (e/2)^q |
| SpeedCurve.OffOnlyAtTargetExactly | maxxair_fan/fan.py:51-65 | among positive exponents, there is no such distance if and only if the exponent is from 1 to 2 |
| SpeedCurve.SomewhereTooClose | maxxair_fan/config.py:16 | for each other exponent such a distance: whole gradients below 1, a fraction 1/q above 2 |
| SpeedCurve.OffExactlyAtTarget | maxxair_fan/fan.py:51-65 | so for exponents from 1 to 2 the fan is off if and only if the reading is at or below the target |
| SpeedCurve.OffAboveTarget | maxxair_fan/fan.py:58-65 | a reading at which it fails: with exponent 4, half a gradient above the target, the fan stays off |
| SpeedCurve.OffFarAboveTarget | maxxair_fan/fan.py:58-65 | another: with exponent one half, two gradients above the target |
| SpeedCurve.OffWithoutPositive | maxxair_fan/fan.py:58-65 | with any exponent of zero or below the fan is off two gradients above the target |
| SpeedCurve.SpeedFromPower | maxxair_fan/fan.py:45-65 | for any exponent: off at or below the target, else ten times the rounded power at one less than the gradients above it, from 0 to 100 |
| SpeedCurve.GradientsAbove | maxxair_fan/fan.py:45-65 | one, two and four gradients above the target run at 10, 20 and 80 |
| FanIr.NamesDistinguish | maxxair_fan/fan.py:10-17 | two settings share a file name if and only if both are off, or speed and blowing out agree |
| FanIr.NamesSpelled | maxxair_fan/fan.py:10-17 | every name as spelled: `fan_off.ir` for speed 0, else `fan_on_out_` for "out" and `fan_on_in_` for anything else, then the numeral of the speed without leading zeros, then `.ir` |
| FanIr.RecordedNames | maxxair_fan/fan.py:10-17 | the 21 recordings of the repository and the settings they are sent for |
| FanIr.DedupingIr.Send | maxxair_fan/backends/deduping_ir.py:11-17 | one request: what is emitted, remembered and returned, and whether the transmitter is used |
| FanIr.DedupingIr.Reset | maxxair_fan/backends/deduping_ir.py:19-20 | a reset forgets the last name and emits nothing |
| FanIr.RequestRefinesSendAlways | maxxair_fan/backends/deduping_ir.py:11-17 | suppression refines always sending: after success the last emitted command is the requested one, after failure nothing changed, and it succeeds whenever the transmitter would |
| FanIr.RunsStayInStep | maxxair_fan/backends/deduping_ir.py:7-17 | over every run with any failures no command is emitted twice in a row and nothing emitted is lost |
| FanIr.RepeatExactlyAfterReset | maxxair_fan/backends/deduping_ir.py:19-20 | the last command is emitted again if and only if there was a reset |
| FanIr.CollapseOneMore | maxxair_fan/backends/deduping_ir.py:11-17 | with a working transmitter the emissions are the requests less consecutive duplicates |
| JsonTree.MoreSlashes | maxxair_fan/backends/in_memory_firebase.py:8-9 | leading and trailing slashes do not change the node a path names |
| JsonTree.JoinNames | maxxair_fan/backends/in_memory_firebase.py:8-9 | every list of non-empty parts is named by its joined spelling, so different strings can name one node |
| JsonTree.SplitJoined | deploy/wattcycle-ble-relay.py:67 | joined pieces split into the same pieces, empty ones included |
| JsonTree.JoinOfSplit | deploy/wattcycle-ble-relay.py:67-75 | every string is its pieces, joined |
| JsonTree.PartsAreParts | maxxair_fan/backends/in_memory_firebase.py:8-9 | no part of a path is empty or holds a slash |
| JsonTree.PutSucceeds | maxxair_fan/backends/in_memory_firebase.py:21-31 | a write succeeds if and only if no proper prefix of its path is a leaf |
| JsonTree.PutThenLookup | maxxair_fan/backends/in_memory_firebase.py:12-31 | reading at or below a written path reads the written value |
| JsonTree.PutLeavesApart | maxxair_fan/backends/in_memory_firebase.py:21-31 | a write leaves every incomparable path as it was |
| JsonTree.PutSeenAbove | maxxair_fan/backends/in_memory_firebase.py:28-31 | above the written path the dictionaries are updated along it and created where missing |
| JsonTree.PutsCommute | maxxair_fan/backends/in_memory_firebase.py:21-31 | writes to incomparable paths commute and never make each other fail |
| JsonTree.PutKeepsWritable | maxxair_fan/backends/in_memory_firebase.py:21-31 | a written path, and any incomparable one, stays writable |
| JsonTree.PatchMeaning | maxxair_fan/backends/in_memory_firebase.py:34-46 | a patch overrides the patched keys of a dictionary and keeps the others, and replaces anything else |
| MemoryFirebase.DeepCopy | maxxair_fan/backends/in_memory_firebase.py:18 | the copy of a tree is an equal tree of new dictionaries only |
| MemoryFirebase.GetNode | maxxair_fan/backends/in_memory_firebase.py:12-18 | the loop over moving nodes reads what the tree has at the path, as a copy that shares nothing |
| MemoryFirebase.SetDefault | maxxair_fan/backends/in_memory_firebase.py:30 | one step of a write: the existing child, or a new empty dictionary grafted in place |
| MemoryFirebase.Walk | maxxair_fan/backends/in_memory_firebase.py:28-30 | the walk of a write reaches the dictionary of the last key without changing what the write will mean, or meets a leaf with nothing changed |
| MemoryFirebase.SetNode | maxxair_fan/backends/in_memory_firebase.py:21-31 | in-place writing realizes the value law, leaves the store tree-shaped, and below the root takes in none of the caller's dictionaries |
| MemoryFirebase.MergeNode | maxxair_fan/backends/in_memory_firebase.py:34-46 | in-place merging realizes the patch law |
| MemoryFirebase.GraftIntact | maxxair_fan/backends/in_memory_firebase.py:31 | assigning one key of one dictionary changes exactly that subtree and keeps the tree intact |
| MemoryFirebase.InMemoryFirebase.constructor | maxxair_fan/backends/in_memory_firebase.py:52-53 | the store starts from a copy of the initial tree |
| MemoryFirebase.InMemoryFirebase.Get | maxxair_fan/backends/in_memory_firebase.py:55-58 | reading hands out a copy and changes nothing |
| MemoryFirebase.InMemoryFirebase.Patch | maxxair_fan/backends/in_memory_firebase.py:60-63 | patching by path string, with success exactly when the path is writable |
| MemoryFirebase.InMemoryFirebase.Put | maxxair_fan/backends/in_memory_firebase.py:65-66 | putting by path string; at the root the store then holds the caller's own entries |
| MemoryFirebase.ScribbleOnRead | maxxair_fan/backends/in_memory_firebase.py:18 | changing a value that was read never changes the store |
| MemoryFirebase.ScribbleOnWritten | maxxair_fan/backends/in_memory_firebase.py:31 | changing any dictionary of a value written below the root never changes the store |
| MemoryFirebase.PutShares | maxxair_fan/backends/in_memory_firebase.py:21-31 | after any put, store and value share a dictionary if and only if the path is the root and the value has a dictionary inside it |
| MemoryFirebase.PatchShares | maxxair_fan/backends/in_memory_firebase.py:34-46 | the same after any patch |
| MemoryFirebase.RootPutShares | maxxair_fan/backends/in_memory_firebase.py:23-26 | a run in which changing a value put at the root changes the store |
| FanControl.FanUnit.ReadSettings | maxxair_fan/fan_unit.py:116-131 | target and direction are taken over when usable and kept otherwise, a failed read included |
| FanControl.FanUnit.RunControl | maxxair_fan/fan_unit.py:140-176 | with a reading: the command requested, the patch made or throttled, what is remembered, and the report |
| FanControl.FanUnit.RunOutage | maxxair_fan/fan_unit.py:177-193 | without a reading: only the status, at most once a heartbeat, and no command |
| FanControl.FanUnit.RunIteration | maxxair_fan/fan_unit.py:96-198 | one iteration against the mutable store equals one step of the value-level machine, report included, for all outcomes of sensor, reads, transmitter and patches |
| FanControl.PatchScalars | maxxair_fan/fan_unit.py:51-72 | a fresh dictionary of scalars is merged into the node, or nothing changes when the patch fails |
| FanSteps.SettingsKept | maxxair_fan/fan_unit.py:116-131 | a failed read, a missing node or one that is no dictionary leaves target and direction as they were |
| FanSteps.MissingKept | maxxair_fan/fan_unit.py:117-131 | a setting that is missing, or no scalar, is kept |
| FanSteps.TargetTaken | maxxair_fan/fan_unit.py:117-128 | what becomes of the target for every value at `targetTemp`: numbers, truth values as 1 and 0, texts that read as numbers; otherwise, and when it is missing, it is kept |
| FanSteps.DirectionTaken | maxxair_fan/fan_unit.py:130-131 | the direction is taken if and only if it is "in" or "out" |
| FanSteps.UnreadKeepsSettings | maxxair_fan/fan_unit.py:75-131 | over every run in which no iteration reads the node, target and direction stay what they were |
| FanSteps.CommandSent | maxxair_fan/fan_unit.py:140-151 | with a reading the file of the speed under the settings just seen goes out, unless it was the last one sent or the transmitter fails; at or below the target it is `fan_off.ir` |
| FanSteps.NoCommand | maxxair_fan/fan_unit.py:177-193 | without a reading no command goes out and none is forgotten |
| FanSteps.Remembers | maxxair_fan/fan_unit.py:153-193 | time and temperature of the last patch are updated exactly by a patch that is due and made; due is: none yet, a heartbeat old, or off by the threshold to either side |
| FanSteps.StatusShown | maxxair_fan/fan_unit.py:51-72 | after every iteration every key of the node: the eight of the status when a patch was made, with their values, the error text included; all else as before |
| FanSteps.Reported | maxxair_fan/fan_unit.py:103-196 | what the observer is told: reading, settings, speed, file, whether it went out, whether the patch was made, and the reason |
| FanSteps.FirstIteration | maxxair_fan/fan_unit.py:18-24 | the first iteration of a fresh fan on an empty store: its default settings, one `fan_off.ir`, and the node it makes |
| PatchBudget.StepCredit | maxxair_fan/fan_unit.py:27-48 | a patch costs one credit, earned by travel of the readings or by elapsed time |
| PatchBudget.RunCredit | maxxair_fan/fan_unit.py:140-193 | over a run the patches and the credit left never exceed the credit earned |
| PatchBudget.PatchesBounded | maxxair_fan/fan_unit.py:27-48 | from a fresh start, successful patches number at most 2 + total variation / threshold + elapsed time / heartbeat, whatever fails |
| PatchBudget.ResumedPatchesBounded | maxxair_fan/fan_unit.py:27-48 | the same without the 2, counted from the last patch |
| PatchBudget.TwoAtOnce | maxxair_fan/fan_unit.py:33-48 | the 2 is needed: two patches at one instant without travel |
| StoreAgreement.NodeAfter | maxxair_fan/fan_unit.py:96-198 | the node after an iteration: merged with the patch made, or unchanged |
| StoreAgreement.SettingsUndisturbed | maxxair_fan/fan_unit.py:61-72 | telemetry never disturbs a key outside it, the user's settings included |
| StoreAgreement.PatchRemembered | maxxair_fan/fan_unit.py:160-193 | what a patch says and what is remembered of it agree; without one the memory stays |
| StoreAgreement.IterationKeepsMirror | maxxair_fan/fan_unit.py:140-193 | an iteration keeps the node equal to the memory |
| StoreAgreement.RunKeepsMirror | maxxair_fan/fan_unit.py:140-193 | over every run, with any failures and any writes by others that leave the telemetry alone, the node's `currentTemp` equals the last patched temperature |
| StoreAgreement.IterationLeavesCurrent | maxxair_fan/fan_unit.py:33-48 | unless its patch failed, an iteration leaves a patch younger than the heartbeat and a shown temperature within the threshold of the reading |
| StoreAgreement.SensorFlagCurrentExactly | maxxair_fan/fan_unit.py:140-193 | after any iteration the node tells whether there was a reading if and only if a patch was due and made, or it told so already |
| StoreAgreement.LastCommandCurrentExactly | maxxair_fan/fan_unit.py:136-193 | it shows the last command sent if and only if a patch was due and made, or it showed it already |
| StoreAgreement.IrFlagCurrentExactly | maxxair_fan/fan_unit.py:137-193 | it shows how the last attempt to send went if and only if, a patch being made, there was an attempt or the last had succeeded; or, none being made, it showed it already |
| StoreAgreement.OutageNotShown | maxxair_fan/fan_unit.py:45-48 | within a heartbeat of the last patch an outage leaves the flag true |
| StoreAgreement.StaleCommand | maxxair_fan/fan_unit.py:36-42 | a new command with an unchanged reading leaves the old one shown |
| StoreAgreement.FailureNotShown | maxxair_fan/fan_unit.py:36-42 | a failed command with an unchanged reading leaves `irOk` true |
| StoreAgreement.OutageHidesFailure | maxxair_fan/fan_unit.py:137-190 | an outage patch says `irOk` after a failed attempt |
| StoreAgreement.StaleSensorFlag | maxxair_fan/fan_unit.py:177-193 | after an outage and the same reading again the flag stays false for the rest of a heartbeat |
| MultiFan.ReadsOwnNode | maxxair_fan/fan_unit.py:116-198 | an iteration depends on the store only through its own node |
| MultiFan.OneWrite | maxxair_fan/fan_unit.py:160-193 | an iteration is one write at its node or none |
| MultiFan.LeavesOthers | maxxair_fan/main.py:241-242 | an iteration leaves every node apart from its own as it was, and writable |
| MultiFan.FoundAsAtFirst | maxxair_fan/main.py:241-242 | when its turn comes a fan finds its node as at the start of the pass |
| MultiFan.PassIsIndependent | maxxair_fan/main.py:233-242 | in one pass every fan ends with the memory, emissions and node content it would have had alone |
| MultiFan.SwapFirstTwo | maxxair_fan/main.py:241-242 | two neighbouring fans may change places |
| MultiFan.MoveToFront | maxxair_fan/main.py:241-242 | letting a later fan go first changes nothing |
| MultiFan.OrderDoesNotMatter | maxxair_fan/main.py:233-242 | a pass leaves the same tree for every order of the fans |
| MultiFan.RunUnit | maxxair_fan/main.py:241-242 | one unit object's iteration in those terms, over a link that may fail, with every other unit's objects untouched |
| MultiFan.RunMultiFanIteration | maxxair_fan/main.py:233-242 | the loop over unit objects and the shared mutable store realizes the pass, over a link that may fail at any read or patch; each unit ends as it would alone with what the link did at its own read and at its patch, counted after those the units before it attempted |
| MultiFan.PrefixDisturbs | maxxair_fan/fans_config.py:84-92 | two nodes whose strings differ but of which one lies inside the other: a pass loses the inner fan its target |
| NodeOverlap.UndisturbedExactly | maxxair_fan/fan_unit.py:61-72 | no fan at p ever changes what stands at q or makes it unwritable if and only if p and q are apart, or q lies below p under a name that is not telemetry |
| NodeOverlap.ApartExactly | maxxair_fan/fans_config.py:84-92 | two nodes never disturb each other if and only if neither is a prefix of the other |
| Replay.ChangeMapMeaning | maxxair_fan/devtools/replay.py:33-34 | a step is in the change map exactly when some change names it, with the value of the last one that does |
| Replay.TargetInForce | maxxair_fan/devtools/replay.py:68-75 | a step runs under the target of the latest change listed for it or an earlier step |
| Replay.FirstTargetInForce | maxxair_fan/devtools/replay.py:47-63 | without one it runs under the first target |
| Replay.DirectionInForce | maxxair_fan/devtools/replay.py:68-75 | the same for the direction, of the changes to "in" or "out" |
| Replay.FirstDirectionInForce | maxxair_fan/devtools/replay.py:47-63 | without one it runs under the first direction |
| Replay.CommandsInOrder | maxxair_fan/devtools/replay.py:68-87 | there is one command for each reading, in order, and it is the file for that reading under the settings in force at its step |
| Replay.ShownAtNode | maxxair_fan/devtools/replay.py:54-75 | the store has target and direction under `fans` and `fan1` |
| Replay.ObservesInForce | maxxair_fan/devtools/replay.py:69-75 | a step observes exactly the target and direction in force after its changes |
| Replay.StepStaysBetween | maxxair_fan/devtools/replay.py:68-88 | a step keeps memory, emissions and store in agreement with the fixture |
| Replay.MakeChanges | maxxair_fan/devtools/replay.py:69-75 | the changes of a step reach the store, and only they: the new tree is the old one patched with them |
| Replay.RunLoopIteration | maxxair_fan/main.py:193-230 | building a unit around the caller's memory and the sensor's failure count and running it equals one step of the machine |
| Replay.RunReplayFixture | maxxair_fan/devtools/replay.py:37-98 | for every fixture the list sent is: each reading with the settings then in force, through the curve and the file names, less consecutive duplicates; the user's settings end as the fixture wrote them |
| ReplayFixtures.SpeedAt | maxxair_fan/fan.py:45-65 | the speed under the shipped curve at any distance between two steps |
| ReplayFixtures.AtTarget | tests/fixtures/at_target_stable.json:1-13 | the commands expected of this fixture are those the replay sends |
| ReplayFixtures.Cooling | tests/fixtures/cooling_below.json:1-13 | the same of this one |
| ReplayFixtures.DirectionChanged | tests/fixtures/direction_change.json:1-15 | the same of this one |
| ReplayFixtures.Heating | tests/fixtures/heating_up.json:1-23 | the same of this one |
| ReplayFixtures.Noisy | tests/fixtures/noisy_sensor.json:1-13 | the same of this one |
| ReplayFixtures.Outage | tests/fixtures/sensor_outage.json:1-14 | the same of this one |
| ReplayFixtures.TargetChanged | tests/fixtures/target_change.json:1-15 | the same of this one |
| ReplayFixtures.ReplayAll | tests/integration/test_replay_fixtures.py:12-30 | replayed through the loop, the mutable store and the transmitter, the seven fixtures send the commands they list |
| Mqtt.WriteVarint | maxxair_fan/wattcycle.py:269-278 | the loop writes the recursive field |
| Mqtt.VarintDecodes | maxxair_fan/wattcycle.py:269-278 | the field is well formed and stands for the number, for every natural number |
| Mqtt.VarintLength | maxxair_fan/wattcycle.py:269-278 | it takes at most n octets if and only if the number is below 128^n |
| Mqtt.VarintMinimal | maxxair_fan/wattcycle.py:269-278 | no well-formed field for the same number is shorter |
| Mqtt.FourOctets | maxxair_fan/wattcycle.py:269-278 | the standard's four octets suffice exactly up to 268435455 |
| Mqtt.StandardExamples | maxxair_fan/wattcycle.py:269-278 | the examples and limits of the standard, octet by octet |
| Mqtt.VarintPrefixFree | maxxair_fan/wattcycle.py:269-278 | no field begins another |
| Mqtt.ReadLength | maxxair_fan/wattcycle.py:285-295 | the digit loop reads exactly one field, or runs out of stream |
| Mqtt.ReadBody | maxxair_fan/wattcycle.py:296-301 | the chunk loop reads exactly the body, or what is left of the stream, for every chunking |
| Mqtt.ReadPacket | maxxair_fan/wattcycle.py:281-302 | the reader consumes exactly one packet, for every chunking |
| Mqtt.PacketReadsBack | maxxair_fan/wattcycle.py:264-302 | a written packet at the head of any stream reads back as head and body |
| Mqtt.CutInBody | maxxair_fan/wattcycle.py:296-302 | a stream that ends inside a body gives the packet so far |
| Mqtt.CutInLength | maxxair_fan/wattcycle.py:286-289 | one that ends inside the length gives nothing |
| Mqtt.ReadAll | maxxair_fan/wattcycle.py:264-302 | any sequence of packets reads back in order, consuming exactly their octets, however the socket cuts the stream |
| Mqtt.PublishReceived | maxxair_fan/wattcycle.py:201-206 | exactly topics of at most 255 octets can be published, and topic and payload come back |
| Mqtt.SmallPublish | maxxair_fan/wattcycle.py:201-206 | a retained publish of one octet under a topic of three, spelled out |
| IrCompiler.ParseIrFile | scripts/ir_to_rmt.py:34-77 | a recording is accepted if and only if no line is at fault, it has one carrier and a timing; else the first fault is reported |
| IrCompiler.FaultFreeIsRecording | scripts/ir_to_rmt.py:51-71 | no faulty line is the same as: non-negative lines of known kinds, at most one carrier, pulses and spaces alternating from a pulse |
| IrCompiler.FaultsNamed | scripts/ir_to_rmt.py:47-71 | which fault is reported for the first bad line, each if and only if its condition holds |
| IrCompiler.RowReadsBack | scripts/ir_to_rmt.py:119 | a rendered row denotes its numbers as C source |
| IrCompiler.RowSpelled | scripts/ir_to_rmt.py:115-122 | two rows as they are written |
| IrCompiler.RenderRows | scripts/ir_to_rmt.py:115-122 | rows of twelve denote exactly the timings, in the least number of rows |
| IrCompiler.IdentifiersExactly | scripts/ir_to_rmt.py:26-31 | two files share an identifier if and only if their stems agree but for characters that become underscores, or one begins with a digit and so agrees with the other behind an underscore |
| IrCompiler.IdentifiersDistinguish | scripts/ir_to_rmt.py:26-31 | so plain stems share one only when equal |
| IrCompiler.DashCollides | scripts/ir_to_rmt.py:28 | two names that collide by a dash |
| IrCompiler.DigitCollides | scripts/ir_to_rmt.py:29-30 | two names that collide by a leading digit |
| IrCompiler.RenderHeader | scripts/ir_to_rmt.py:87-134 | each error exactly in its case, and otherwise arrays, table, carrier, longest length and count that render the signals |
| IrAgent.CompilesExactly | scripts/ir_to_rmt.py:106-132 | a rendered header compiles if and only if identifiers are distinct and not taken, every number fits sixteen bits and every name reads as a text |
| IrAgent.FreeExactly | scripts/ir_to_rmt.py:107-132 | an array's name is none of the header's four or the sketch's macro if and only if the stem of its file is not like a reserved one |
| IrAgent.CompiledCodes | scripts/ir_to_rmt.py:126-130 | the firmware holds each signal's own timings under its own name as the compiler reads it, none longer than the buffer |
| IrAgent.Agent.FindIrCode | firmware/atoms3-agent/src/main.cpp:116-123 | the first code of that name, or none when no code has it |
| IrAgent.Agent.SendIrCode | firmware/atoms3-agent/src/main.cpp:125-137 | sends exactly the code's timings, and refuses exactly missing, empty and too long codes |
| IrAgent.Agent.SendByName | firmware/atoms3-agent/src/main.cpp:116-137 | lookup and sending together, for every table |
| IrAgent.CompileAndSend | firmware/atoms3-agent/src/main.cpp:116-137 | asked for any name, the agent transmits exactly the timings of the first signal whose name reads so, and nothing when none does |
| IrAgent.LoadIrDir | scripts/ir_to_rmt.py:80-84 | a directory loads if and only if it has files and each is a recording; then every signal stands for its file |
| IrAgent.Build | scripts/ir_to_rmt.py:34-134 | from token lines to a header that compiles: exactly for a directory of recordings of one carrier in whole kHz whose identifiers are distinct and not reserved or taken, with sixteen-bit numbers and readable names |
| IrAgent.BuildAndSend | scripts/ir_to_rmt.py:34-134 | from token lines to the air: it works exactly for such a directory, and then exactly the timings of the first file whose name reads as the one asked for are sent |
| IrAgent.AsksForOwn | firmware/atoms3-agent/src/main.cpp:116-123 | in a directory that builds and whose names hold no quotes, backslashes or line ends, asking for a file's name means that file |
| IrAgent.ReservedName | scripts/ir_to_rmt.py:112-126 | `CODES.ir`, a good recording, can be part of no header |
| IrAgent.ReservedFiles | scripts/ir_to_rmt.py:107-132 | five file names no directory that builds can hold, whatever else is in it |
| IrAgent.QuotedNameAnswers | scripts/ir_to_rmt.py:129 | a name with two quotes in it answers for the name without them |
| IrAgent.CarrierKept | scripts/ir_to_rmt.py:107 | the transmitted carrier is the recorded one if and only if it is below 256 kHz |
| IrAgent.FanCommandsDistinct | maxxair_fan/fan.py:10-17 | settings that need different files also get different identifiers |
| IrAgent.FanIdentifiers | scripts/ir_to_rmt.py:26-31 | the identifiers of two of them, spelled out |
| IrAgent.SendPress | scripts/ir_to_rmt.py:34-134 | a directory of one recording compiled and asked for: its own timings and carrier go out, and nothing for another name |
| PackDecoder.DecodePack | maxxair_fan/wattcycle.py:54-105 | the daemon's dictionary shows exactly the numeric paths of the protocol's layout table, with scaled integers, given the latest frames |
| PackDecoder.NumbersAreShown | maxxair_fan/wattcycle.py:54-105 | the frame-by-frame decoding agrees path by path with the layout table, absences included |
| SlotDecoder.PyIndex | firmware/wattcycle-reader/src/can_main.cpp:50-55 | the search finds the slot of an identifier, or none when it has none |
| SlotDecoder.TextBeforeZero | firmware/wattcycle-reader/src/can_main.cpp:117-135 | a name is what stands before the first zero octet |
| SlotDecoder.StoreLatest | firmware/wattcycle-reader/src/can_main.cpp:281-286 | storing a frame replaces what its slot stands for, never mixing in stale octets |
| SlotDecoder.SameLatest | firmware/wattcycle-reader/src/can_main.cpp:281-294 | after every history slots and dictionary hold the same latest frames |
| SlotDecoder.DecodersAgree | firmware/wattcycle-reader/src/can_main.cpp:79-158 | after every history both decoders mean the same numbers |
| SlotDecoder.EntriesAreNumbers | firmware/wattcycle-reader/src/can_main.cpp:80-158 | the firmware's list, names aside, is exactly the protocol's numbers, in at most 24 entries |
| SlotDecoder.FirmwareMirrorsDaemon | firmware/wattcycle-reader/src/can_main.cpp:79-158 | after every history of frames the firmware's list equals the daemon's dictionary, names aside, and fits its array of 32 |
| SlotDecoder.Reader.constructor | firmware/wattcycle-reader/src/can_main.cpp:44 | no slot has been seen |
| SlotDecoder.Reader.Receive | firmware/wattcycle-reader/src/can_main.cpp:281-294 | a frame goes to its slot over the octets it brings, the rest staying; unknown identifiers change nothing |
| SlotDecoder.Reader.DecodePack | firmware/wattcycle-reader/src/can_main.cpp:80-158 | the list written into the array, in order, its length, and that it shows exactly what the protocol says |
| SlotNames.FirmwareNames | firmware/wattcycle-reader/src/can_main.cpp:80-137 | the names a broker ends up with from the list: from the halves or a default, and the own product name before them, each cut at a zero with stale octets included |
| CerboBank.CopySection | maxxair_fan/wattcycle.py:159-176 | the loop copies the listed values under their names |
| CerboBank.PowerNear | maxxair_fan/wattcycle.py:147 | power is volts times amperes to half a unit, and never on the other side of zero |
| CerboBank.CerboPayload | maxxair_fan/wattcycle.py:139-189 | the object built step by step is the bank of the values and frames |
| CerboBank.SectionsRelay | maxxair_fan/wattcycle.py:158-185 | every entry of the three copied sections is there exactly when the protocol shows its path, with that value; empty sections are left out |
| CerboBank.MeasurementRelays | maxxair_fan/wattcycle.py:143-154 | voltage, current, temperature and power appear together, exactly for a whole measurement frame, with their relation |
| CerboBank.AlarmsRaiseFlag | maxxair_fan/wattcycle.py:76-78 | a non-zero alarm on the Cerbo comes with the coach's alarm flag if and only if the status frame has at least five octets; alarms are published from four |
| CerboBank.AlarmWithoutFlag | maxxair_fan/wattcycle.py:186-188 | a frame of four octets that raises a high-voltage alarm without the flag |
| PackOctets.WordsInOctets | maxxair_fan/wattcycle.py:41-47 | unsigned and signed words from their octets, low octet first |
| PackOctets.LimitsInOctets | maxxair_fan/wattcycle.py:61-66 | every number of the limits frame octet by octet, for every frame and length |
| PackOctets.ChargeInOctets | maxxair_fan/wattcycle.py:67-70 | the same of the charge frame |
| PackOctets.MeasurementInOctets | maxxair_fan/wattcycle.py:71-75 | the same of volts, amperes and degrees, the latter two in two's complement |
| PackOctets.StatusInOctets | maxxair_fan/wattcycle.py:76-79 | the same of the module count and the alarm flag |
| PackOctets.RequestsInOctets | maxxair_fan/wattcycle.py:80-83 | the same of the two request bits |
| PackOctets.CellsInOctets | maxxair_fan/wattcycle.py:94-100 | the same of the cell extremes, absent when both voltages are zero, in kelvins less 273 |
| PackOctets.CapacityInOctets | maxxair_fan/wattcycle.py:101-103 | the same of the capacity |
| PackOctets.ChargeInBank | maxxair_fan/wattcycle.py:155-157 | the charge on the Cerbo is the first word of its frame, and the installed capacity 600 |
| PackOctets.MeasurementInBank | maxxair_fan/wattcycle.py:143-154 | the electrical side of the bank octet by octet, the power the product to half a tenth |
| PackOctets.InfoNamed | maxxair_fan/wattcycle.py:158-166 | the limits under their names on the Cerbo, and no other names |
| PackOctets.SystemNamed | maxxair_fan/wattcycle.py:167-177 | the cells under theirs |
| PackOctets.IoNamed | maxxair_fan/wattcycle.py:178-185 | the requests under theirs |
| PackOctets.AlarmBits | maxxair_fan/wattcycle.py:124-136 | which bit raises which alarm to which level, for all six |
| PackOctets.NamesChosen | maxxair_fan/wattcycle.py:56-93 | which text becomes the product name and the custom name, and the defaults |
| PackOctets.PublishCycle | tests/test_wattcycle.py:84-102 | a whole pack decoded and published: all 21 values and the whole bank object |
| PackOctets.Discharging | maxxair_fan/wattcycle.py:143-154 | a pack discharging at 10 A below freezing: current, power and temperature are negative |
| PackPublisher.CoachPublisher.Publish | maxxair_fan/wattcycle.py:243-245 | topics go out in order until the broker fails; when all went out every topic agrees |
| PackPublisher.Decode | maxxair_fan/wattcycle.py:54-105 | names and numbers together are the values published |
| PackPublisher.ValuesShow | maxxair_fan/wattcycle.py:54-105 | those values show exactly what the protocol says |
| PackPublisher.Daemon.Pass | maxxair_fan/wattcycle.py:361-381 | one pass of the daemon's loop over its fields and brokers equals one step of the machine |
| PackPublisher.Daemon.RunFor | maxxair_fan/wattcycle.py:347-381 | any number of passes from the start equals the run of the machine |
| PackFeeds.RetainedIsLast | maxxair_fan/wattcycle.py:378-381 | in every run the Cerbo holds what the daemon remembers having published |
| PackFeeds.CerboFollows | maxxair_fan/wattcycle.py:378-381 | after every pass whose Cerbo publish did not fail, the Cerbo holds the bank of the frames so far, sent less than 30 s ago |
| PackFeeds.CerboNeverMixed | maxxair_fan/wattcycle.py:378-381 | whatever fails, the Cerbo holds the bank of some moment of the run |
| PackFeeds.CerboRetries | maxxair_fan/wattcycle.py:378-381 | a failed publish is retried on the next pass unless the bank has gone back to what is held; with no new frame always |
| PackFeeds.FramesKept | maxxair_fan/wattcycle.py:326-334 | which identifiers are kept, under their low eleven bits, and how many octets |
| PackFeeds.CerboPaced | maxxair_fan/wattcycle.py:378-381 | the Cerbo is sent the bank if and only if it can be reached and holds another one or has held this one for 30 s |
| PackFeeds.CoachPaced | maxxair_fan/wattcycle.py:374-377 | the coach is sent the values if and only if the last whole publish had others or is 30 s old; it is whole when there is a message for every value |
| PackFeeds.TopicsInOrder | maxxair_fan/wattcycle.py:54-105 | the topics go out in the order in which the decoder fills its dictionary |
| PackFeeds.DeliveredFirst | maxxair_fan/wattcycle.py:243-245 | when the broker goes away, exactly the first topics have been reached |
| PackFeeds.CoachStep | maxxair_fan/wattcycle.py:374-377 | one pass keeps the topics equal to the last whole publish overlaid with what failures left behind |
| PackFeeds.TopicsAreOverlaid | maxxair_fan/wattcycle.py:374-377 | so over every run |
| PackFeeds.CoachAgreesOnceWhole | maxxair_fan/wattcycle.py:243-245 | after every publish that went through, every topic has its current value |
| PackFeeds.QuietAgreesExactly | maxxair_fan/wattcycle.py:374-377 | on a pass with nothing to publish the topics agree if and only if nothing left behind by failed publishes contradicts the values; a disagreement is younger than 30 s since the last whole publish |
| PackFeeds.FailedAgreesExactly | maxxair_fan/wattcycle.py:374-377 | on a pass whose publish was due and failed, before the first whole publish or after, the topics agree if and only if every one it did not reach had its value already |
| PackFeeds.DueUntilWhole | maxxair_fan/wattcycle.py:374-377 | before the first whole publish every pass with frames has one due |
| PackFeeds.MixedAfterRevert | maxxair_fan/wattcycle.py:374-377 | three passes that leave a topic wrong with nothing due |
| SlotFeed.ValuePublisher.SendAll | firmware/wattcycle-reader/src/can_main.cpp:182-191 | the messages of a round, in order, past any that is lost, and how many got through |
| SlotFeed.ValuePublisher.PublishValues | firmware/wattcycle-reader/src/can_main.cpp:160-201 | one call equals one step of the machine: quiet when the list stands and half a minute has not passed on the wrapping clock, else everything is sent and remembered as sent |
| SlotFeed.FeedPaced | firmware/wattcycle-reader/src/can_main.cpp:160-177 | a round goes out if and only if the list is empty or new, or has stood for 30000 ms on a clock of 32 bits |
| SlotFeed.RoundAgreesExactly | firmware/wattcycle-reader/src/can_main.cpp:182-191 | after a round every topic has its value if and only if, for each path, the last message got through or the topic held it just before |
| SlotFeed.QuietSince | firmware/wattcycle-reader/src/can_main.cpp:175-177 | since the last round published nothing has changed, lost messages included |
| SlotFeed.FeedAgreesExactly | firmware/wattcycle-reader/src/can_main.cpp:160-201 | after any run the topics agree with the list if and only if the last round published left them so |
| SlotFeed.FeedShowsProtocol | firmware/wattcycle-reader/src/can_main.cpp:80-201 | from the bus to the broker: the numeric topics show what the protocol says of the frames so far if and only if each number of the last round published got through or was there already |
| SlotFeed.RepeatUndone | firmware/wattcycle-reader/src/can_main.cpp:80-191 | a pack that has sent its product name: its list repeated with that one message lost undoes a topic that agreed, until the next half minute |
| BankRelay.MeanBetween | deploy/wattcycle-ble-relay.py:153 | a mean lies between the least and the greatest reading |
| BankRelay.RoundedMeanBetween | deploy/wattcycle-ble-relay.py:153 | the rounded mean too, on each side where the extreme is a multiple of the unit |
| BankRelay.EqualReadingsExactly | deploy/wattcycle-ble-relay.py:153 | for equal readings that condition is also necessary |
| BankRelay.ColumnReads | deploy/wattcycle-ble-relay.py:147-151 | the numbers collected under a key are exactly those some pack has |
| BankRelay.TempsRead | deploy/wattcycle-ble-relay.py:190-197 | the temperatures collected are exactly those of the packs' cells and cases |
| BankRelay.BankDescribes | deploy/wattcycle-ble-relay.py:140-201 | there is a bank exactly when a fresh pack has a voltage; it accounts for six packs, its extremes are bounds and attained, its voltage and charge are fair means, its current the sum and its power the product to a tenth, its limits in proportion |
| BankRelay.ColumnOfPacks | deploy/wattcycle-ble-relay.py:147-151 | the numbers collected under a key are one for each pack that has one, in order |
| BankRelay.SumOfParts | deploy/wattcycle-ble-relay.py:157 | a sum is that of its parts, and of one number that number |
| BankRelay.MeanIsMean | deploy/wattcycle-ble-relay.py:153 | a mean taken as often as there are readings makes their sum |
| RelayMessages.TopicsAddressed | deploy/wattcycle-ble-relay.py:66-75 | for every topic: whether it speaks of a pack, of which, and of what path |
| RelayMessages.MessageTaken | deploy/wattcycle-ble-relay.py:76-85 | a message sets that path of that pack to its value, and its time, and nothing else; an object stands for its member "value", or null |
| RelayMessages.NumberTaken | deploy/wattcycle-ble-relay.py:53-85 | which number a message leaves under its path, for every payload |
| RelayMessages.VoltageTaken | deploy/wattcycle-ble-relay.py:79-85 | an object with a value, a bare number and an object without a value on the voltage topic |
| RelayMessages.FreshAre | deploy/wattcycle-ble-relay.py:140-142 | exactly the packs heard of less than 180 s before their reading of the clock are summed up, each with its own fields, in order |
| RelayMessages.BankWhenGiven | deploy/wattcycle-ble-relay.py:143-149 | there is a bank if and only if one of those has a voltage |
| RelayMessages.PassSendsExactly | deploy/wattcycle-ble-relay.py:238-241 | a pass sends if and only if 30 s have passed since the last bank, the Cerbo takes it and there is one |
| RelayMessages.BankOfTwo | deploy/wattcycle-ble-relay.py:140-201 | two packs with every reading, and the whole bank made of them |
| RelayMessages.TwoOnline | deploy/wattcycle-ble-relay.py:66-241 | a run of two voltage messages and a pass, and the bank it sends |
| RelayRuns.Relay.OnCoachMessage | deploy/wattcycle-ble-relay.py:66-85 | a message sets one field and the time of its pack, or is ignored, exactly as addressed |
| RelayRuns.Relay.BuildBankPayload | deploy/wattcycle-ble-relay.py:140-201 | the object of the packs heard of less than 180 s before their own reading of the clock |
| RelayRuns.Relay.PublishPass | deploy/wattcycle-ble-relay.py:238-241 | a pass sends when 30 s have passed, there is a bank and the broker takes it, and only then remembers the time |
| RelayRuns.CollectTemps | deploy/wattcycle-ble-relay.py:190-197 | the loop collects all temperatures in order |
| RelayRuns.Summarize | deploy/wattcycle-ble-relay.py:145-201 | the object built field by field is the bank of the packs |
| RelayRuns.FieldsAreLastValues | deploy/wattcycle-ble-relay.py:83-84 | over every interleaving a pack's fields are the last values heard for them |
| RelayRuns.UpdatedWhenLastHeard | deploy/wattcycle-ble-relay.py:44-85 | and its time is when it was last heard of, or zero |
| RelayRuns.OnlineExactly | deploy/wattcycle-ble-relay.py:141-144 | online is never below the number of packs heard of within 180 s, and equals it if and only if every silent pack's clock reading is at least 180 s |
| RelayRuns.FiveTooMany | deploy/wattcycle-ble-relay.py:44-144 | one voltage message and a pass at 30 s that sends six packs online |
| RelayRuns.PassDescribesFresh | deploy/wattcycle-ble-relay.py:238-241 | what a pass sends describes the packs fresh at that moment |
| RelayRuns.RunSendsSpaced | deploy/wattcycle-ble-relay.py:238-241 | over every interleaving sends are at least 30 s apart, the first included |
| RelayRuns.SenderOf | deploy/wattcycle-ble-relay.py:238-241 | every object sent was built by one pass, at its time, from what had been heard by then |
| RelayRuns.EveryBankSent | deploy/wattcycle-ble-relay.py:140-241 | over every interleaving each object sent describes the packs fresh at the pass that sent it, has online plus offline 6, and at most one is sent per 30 s on the clock |

## Left out

- Floating point: temperatures, voltages, means and powers are exact numbers; IEEE rounding, overflow, NaN and infinities are not modelled. Half-even rounding is.
- SpeedCurve.ComputeSpeed: real powers are a parameter, known through their defining equation where a theorem needs them; the overflow of the source's power function is not modelled.
- SpeedCurve.OffExactly: positive exponents; below, the source's power function raises an exception at most distances.
- SpeedCurve.OffOnlyAtTargetExactly: positive exponents; `OffWithoutPositive` covers the others.
- FanControl.FanUnit.RunIteration: reading a number out of a string target and spelling the time are parameters, and a write that would step through a leaf is excluded, where the source raises an exception.
- FanControl.FanUnit.RunControl: the same write through a leaf is excluded, where the source raises an exception.
- FanControl.FanUnit.RunOutage: the same write through a leaf is excluded, where the source raises an exception.
- FanControl.PatchScalars: the same write through a leaf is excluded, where the source raises an exception.
- FanControl: only the deduplicating transmitter is modelled, and a failed transmission or patch changes nothing.
- MemoryFirebase.DeepCopy: a value in which no dictionary occurs twice; of one that does, the source's copy keeps the sharing.
- MemoryFirebase.InMemoryFirebase.constructor: the same of the initial tree.
- MemoryFirebase.SetNode: values passed in are dictionaries that form a tree and share nothing with the store; the source makes the missing dictionaries on the path before it copies the value, so a value that shared one with the store would be copied with the change in it.
- MemoryFirebase.MergeNode: the same holds of the value passed in.
- MemoryFirebase.InMemoryFirebase.Patch: the same holds of the value passed in.
- MemoryFirebase.InMemoryFirebase.Put: the same holds of the value passed in.
- MemoryFirebase.ScribbleOnWritten: the same holds of the value passed in.
- MemoryFirebase.PutShares: the same holds of the value passed in.
- MemoryFirebase.PatchShares: the same holds of the value passed in.
- MultiFan.RunMultiFanIteration: nodes are not prefixes of one another, without which it fails as `PrefixDisturbs` shows; the repository checks only that the node strings differ.
- MultiFan.RunUnit: a node path that runs through a leaf is excluded, where the source raises an exception.
- Replay.RunReplayFixture: the default backends; replaying against backends passed in is not modelled.
- Mqtt: connection set-up, acknowledgements, and what a broker does with a malformed packet.
- IrCompiler.ParseIrFile: parsing starts from lines already split into a kind and an integer; comments, blank lines and unreadable lines are left to text handling.
- IrCompiler.RenderHeader: the fixed lines of the header are not spelled out; the names they declare are known to `IrAgent.Compiles`.
- IrAgent: the C compiler is modelled on the generated declarations only; the names that libraries define before the header, and how a quoted text with quotes, backslashes or line ends reads, are parameters. Extracting the file name from a request is left out.
- TdtFrames: the CRC of a response is never checked by the firmware, so no theorem speaks of it.
- PackDecoder.DecodePack: name strings are published but not compared, since the two decoders cut them differently.
- SlotFeed.ValuePublisher.PublishValues: entries are compared as values, where the source compares their texts; whether the broker is connected is decided before the call.
- PackPublisher.Decode: cutting, decoding and trimming a name is a parameter.
- PackPublisher.CerboPublisher.Publish: a failed publish delivers nothing; a message lost after a send that succeeded is not modelled.
- RelayRuns: reading numbers out of strings is a parameter; the objects of single packs and the fixed entries of the bank object are left out, as they would add only easy members.
- RelayRuns.Relay.PublishPass: the lock is modelled by taking each message, snapshot and send as one step; a message between the snapshot and the send does not change what is sent.
- Sensor and Firebase retries, configuration, preflight checks, locking, servers, the user interface, BLE and CAN drivers, LEDs and logging: input and output with no logic of their own here.

# MK1-Tank in Dafny

MK1-Tank turns gamepad input into Mould King 6.0 radio telegrams. This project models the five
parts of the firmware that carry its promises and proves them, from the raw axis reading to the
bits on the air.

| files | part |
|---|---|
| `Bits.dfy`, `Crc.dfy`, `Whitening.dfy`, `Protocol.dfy`, `Encoder.dfy`, `KnownAnswers.dfy` | the telegram encoder, a receiver that undoes it, the laws between them, and a worked example |
| `Broadcast.dfy`, `BroadcastRuns.dfy`, `LampRuns.dfy`, `SleepRuns.dfy`, `SlicerObject.dfy` | the time-slicer as a step machine, theorems about its runs, the dashboard lamp, deep sleep, and the arrays and methods that implement its steps |
| `CText.dfy`, `ConfigLine.dfy`, `ConfigGrammar.dfy`, `ConfigRoundTrip.dfy`, `ConfigTable.dfy`, `ConfigStore.dfy` | the mapping file: printing, parsing, what a hand-written line and a whole file mean, and the scanning loops and table updates |
| `Storage.dfy`, `StorageObject.dfy` | boot, save, migration and reload over an abstract disk |
| `Curves.dfy`, `ControlLaw.dfy`, `Machines.dfy`, `Sweep.dfy`, `Readings.dfy`, `DriveObject.dfy` | response curves, the heading-lock law, the latch, pulse and lock machines, the arbitration, what a port sends reading by reading, and the sweep loops |
| `Failsafe.dfy`, `DriveRuns.dfy`, `ButtonRuns.dfy`, `LockRuns.dfy`, `ReloadRuns.dfy`, `MachineTraces.dfy` | table, controllers, edits, sweep and time-slicer together, what happens when the controller is lost, latches, pulses, locks and reloads over whole runs, and how runs of the whole are runs of the time-slicer |
| `ReportRing.dfy` | the outgoing report ring and its drain |

Each stateful part has two layers. Functions on values say what one operation does, and lemmas
prove properties of every input or every run of them. Classes and loops in the form of the source
are then proved to do exactly what those functions say.

`dafny verify dfyconfig.toml` checks the whole project.

## Where the code and its comments differ

The model follows the code. In these places the code does less than its comments say, or something
goes wrong in a corner; each has a lemma that says exactly when.

- The drive sweep may write to a hub during its countdown. What the three services air is then what
  was written: neutral if and only if on every port the last write since the toggle-off was neutral
  (`BroadcastRuns.DropSafety`); with a button held none of them is (`DriveRuns.DropWithoutNeutral`).
- An event callback that runs after its hub was dropped turns the hub's lamp on again. That takes an
  event send accepted between the dropping service and the firing before it
  (`LampRuns.StrayWaitsExactly`, `StrayCallbackIsReachable`). Taps on that hub then do nothing
  (`LampRuns.TapRevivesExactlyWhenLampIsOff`), and a later sleep wait runs into its timeout, for no
  other reason (`SleepRuns.WaitEndsExactly`, `SleepEndsClearExactly`).
- The serializer writes no mode for an axis binding. It also writes bindings with max above 100 or no
  input, which the parser then skips; no file gives such a binding (`ConfigTable.LinesGiveSavable`), only a
  caller of `mkh_config_set_port_bindings` can (`ConfigRoundTrip.PrintedLineParses`, `ConfigTable.RestoredIsComplete`).
- A mapping saved with HUB1_PORT_A or HUB2_PORT_A unassigned, as RESET ALL saves it, comes back with the
  fallback binding on that port (`Storage.AllPortsComeBackExactly`, `ResetAllIsUndone`).
- A rename that fails after the old file was removed leaves no config file, and the next boot seeds the
  defaults (`Storage.SaveOutcome`, `FailedRenameLosesConfig`, `CrashThenBoot`).
- The pulse length is 1 frame in code and 4 in comments; the pulse laws hold for any length.
- The disconnect failsafe skips ports without bindings, so a port that lost its bindings while it was
  driven stays driven (`Failsafe.TendedExactly`, `DisconnectNeutralizesExactly`, `DriveRuns.ResetLeavesPortDriven`).
- RESET on the settings page reloads the table and clears no runtime state, so a reloaded binding can
  start from its predecessor's latch or pulse (`ButtonRuns.ReloadedLatchExactly`, `ReloadedPulseExactly`,
  `ReloadLeavesLatchOn`).
- Reports can overtake each other, by a direct send past a waiting report or by a drain whose send fails
  with another report behind (`ReportRing.OrderIsKeptExactly`, `OrderCanBeLost`).

## Model

| member | source | states |
|---|---|---|
| Crc.ReverseBits8 | main/mkh_protocol.c:64-71 | the loop reverses the order of the eight bits |
| Crc.ReverseBits16 | main/mkh_protocol.c:73-80 | the loop reverses the order of the sixteen bits |
| Crc.FeedByte | main/mkh_protocol.c:98-102 | adding a byte at the top and stepping eight times is feeding its bits one at a time to the bit-serial register |
| Crc.Crc16 | main/mkh_protocol.c:86-106 | the byte loops compute the complement of the bit-serial register over seed and message, in reversed bit order |
| Crc.FeedAllIsLinear | main/mkh_protocol.c:86-106 | the register is linear over XOR in its state and its input bits together |
| Crc.RegisterIsAffine | main/mkh_protocol.c:86-106 | XORing a difference into the data moves the register by a value that depends on the difference alone |
| Crc.FeedAllKernel | main/mkh_protocol.c:86-106 | up to sixteen bits clear the register if and only if they spell its top cells and the rest is zero already |
| Crc.ResidueCharacterisesChecksum | main/mkh_protocol.c:177-179 | feeding sixteen bits back leaves one fixed residue if and only if they are the transmitted checksum |
| Crc.ErrorIsNoticedExactly | main/mkh_protocol.c:86-106 | an error leaves the register where it was if and only if it leaves the zero register at zero, whatever the data and the start |
| Crc.BurstChangesRegister | main/mkh_protocol.c:86-106 | a non-zero error confined to sixteen consecutive bits always changes the register |
| Crc.FeedAllParity | main/mkh_protocol.c:86-106 | the parity of the register changes by exactly the parity of the bits fed |
| Whitening.WhiteningInit | main/mkh_protocol.c:114-118 | the seven cells hold the Bluetooth LE whitening register for the key's six bits |
| Whitening.WhiteningStep | main/mkh_protocol.c:120-131 | one step outputs position 6 and shifts the register as the Core Specification (Vol 6, Part B, section 3.2) does |
| Whitening.WhiteningEncode | main/mkh_protocol.c:133-143 | a slice of the buffer is XORed with the keystream from phase 0, the rest is untouched and the register moves on eight steps a byte |
| Whitening.KeystreamRecurrence | main/mkh_protocol.c:108-131 | the keystream obeys x^7 + x^4 + 1 from every state |
| Whitening.WhitenTwice | main/mkh_protocol.c:133-143 | whitening twice at one phase is the identity |
| Whitening.WhitenKeepsErrors | main/mkh_protocol.c:133-143 | an error passes through whitening in place |
| Encoder.Stage | main/mkh_protocol.c:165-179 | the buffer holds flipped header, flipped reversed seed, data and checksum |
| Encoder.MkhProtocolEncrypt | main/mkh_protocol.c:152-191 | the result is data + 10 bytes equal to the encoding when it fits the output and the 64-byte buffer, 0 otherwise; the rest of the output is untouched |
| KnownAnswers.ConnectAnswer | main/mkh_protocol.c:152-191 | a worked example through seed, checksum, framing and both keystreams: the CONNECT telegram is sent as the eighteen bytes 6D B6 43 CF 7E 8F 47 11 88 66 59 38 D1 7A AA 26 49 5E |
| KnownAnswers.ResidueIs | main/mkh_protocol.c:86-106 | the residue is 1D0F, that of the standard sixteen-bit code this checksum is |
| Protocol.ReceiveInvertsEncrypt | main/mkh_protocol.c:152-191 | a receiver that undoes both passes and checks header, seed and residue recovers every data string exactly |
| Protocol.ReceiveAcceptsOnlyEncodings | main/mkh_protocol.c:152-191 | whatever that receiver accepts is the encoding of what it returns |
| Protocol.EncryptIsInjective | main/mkh_protocol.c:152-191 | different data never share a payload |
| Protocol.BurstBreaksResidue | main/mkh_protocol.c:86-106 | any burst of up to sixteen bits in data and checksum breaks the receiver's residue |
| Protocol.ErrorIsAcceptedExactly | main/mkh_protocol.c:152-191 | the receiver lets a damaged payload through if and only if the error spares header and seed and its remaining bits leave the zero register at zero |
| Protocol.BurstIsRejected | main/mkh_protocol.c:152-191 | any burst of up to sixteen bits anywhere in a payload makes the receiver refuse it |
| Protocol.OddErrorIsRejected | main/mkh_protocol.c:152-191 | an error in an odd number of bits, wherever they are, makes the receiver refuse the payload |
| Protocol.Channel37CancelsSecondPass | main/mkh_protocol.c:145-151 | for every payload and every 8-byte PDU prefix, link-layer whitening on channel 37 leaves exactly the buffer after pass 1 from byte 15 of the PDU on |
| Protocol.AdvertisingDataIs | main/mkh_broadcast.c:188-202 | the advertising buffer byte for byte around a CONNECT and a CONTROL payload |
| Protocol.ControlPayloadIsHeard | main/mkh_protocol.c:34-62 | a CONTROL payload is heard by exactly its hub with exactly its six channel bytes |
| Protocol.ControlTelegramIs | main/mkh_protocol.c:21-25 | the three CONTROL telegrams byte for byte, and that a receiver recovers them |
| Protocol.ConnectPayloadIsNotControl | main/mkh_protocol.c:30-32 | the CONNECT payload is heard by no hub as a CONTROL telegram |
| Protocol.PowerLevelOfByte | main/mkh_broadcast.c:219-222 | byte to power to byte is the identity for all 256 bytes |
| Protocol.PowerLevelLaws | main/mkh_protocol.c:38-62 | over all powers the byte is monotone, saturates outside [-1, 1] and is neutral exactly within 1/128 of zero |
| Encoder.SetChannel | main/mkh_protocol.c:38-62 | only the addressed channel byte of a telegram changes, to the level of the power |
| Encoder.BuildControlTelegram | main/mkh_broadcast.c:216-222 | a telegram built from six channel bytes carries the hub's address and those bytes unchanged |
| SlicerObject.TimeSlicer.constructor | main/mkh_broadcast.c:136-161 | the arrays start at the boot state of the step machine |
| SlicerObject.TimeSlicer.MkhBroadcastInit | main/mkh_broadcast.c:577-592 | the first two slots become active, nothing is pending or in transition, everything else is kept |
| SlicerObject.TimeSlicer.NextActiveDevice | main/mkh_broadcast.c:330-337 | the search returns the round-robin successor, or -1 |
| Broadcast.NextActiveIsRoundRobin | main/mkh_broadcast.c:330-337 | the three candidates are tried in rotation order and -1 means no device is active |
| SlicerObject.TimeSlicer.SetAdvPayload | main/mkh_broadcast.c:188-202 | the advertising buffer holds the flags element and the manufacturer element around the payload |
| SlicerObject.TimeSlicer.StageAndSend | main/mkh_broadcast.c:216-234 | exactly one encoded CONTROL telegram with the given bytes is staged and only the hub's lamp changes |
| SlicerObject.TimeSlicer.MkhSetChannel | main/mkh_broadcast.c:276-306 | the write, its rate limit and the queued callback are the machine's channel step |
| SlicerObject.TimeSlicer.EventSendCallback | main/mkh_broadcast.c:266-274 | the callback is the machine's callback step and the buffer carries the hub's current bytes |
| SlicerObject.TimeSlicer.BroadcastControl | main/mkh_broadcast.c:339-425 | one timer firing is the machine's timer step |
| SlicerObject.TimeSlicer.MkhToggleOff | main/mkh_broadcast.c:453-468 | toggle-off is the machine's step, with the early returns |
| SlicerObject.TimeSlicer.MkhToggleOn | main/mkh_broadcast.c:470-506 | toggle-on is the machine's step, with the CONNECT replay |
| Broadcast.StepKeepsInv | main/mkh_broadcast.c:339-506 | every step keeps: countdown 0..3, countdown > 0 iff in transition, countdown > 0 implies active, slot 2 never active, event sends spaced |
| Broadcast.ReachableInv | main/mkh_broadcast.c:339-506 | that invariant holds at every point of every run |
| BroadcastRuns.StepSends | main/mkh_broadcast.c:339-506 | what every step puts on the air: one CONNECT for a toggle-on that has something to do, one periodic telegram of an active device for a firing, one telegram for a queued callback, and nothing else ever |
| BroadcastRuns.ConnectsExactly | main/mkh_broadcast.c:470-506 | a telegram no hub hears as CONTROL goes out if and only if a rotating hub that is not already on and settled is toggled on; it is one, and is received as the eight CONNECT bytes |
| BroadcastRuns.LampStep | main/mkh_broadcast.c:228-234 | the lamp after any step: lit by a service that does not drop the hub, by its callback and by such a toggle-on, out after the drop, otherwise as it was |
| BroadcastRuns.WriteIsSentExactly | main/mkh_broadcast.c:276-306 | in every run from boot a write is stored, and sent out of turn if and only if it changes the value, the hub is in the rotation and its last such send is 25000 us or more ago |
| BroadcastRuns.EventSendsAreSpaced | main/mkh_broadcast.c:297-305 | in every run two accepted event sends of one hub lie at least 25000 us apart, whatever the clock does |
| BroadcastRuns.CountdownStep | main/mkh_broadcast.c:396-405 | a step changes a hub's countdown and activity only by its own service or an accepted toggle |
| BroadcastRuns.ServiceIsFresh | main/mkh_broadcast.c:350-380 | what a service puts on the air decodes to exactly that hub and its current six bytes |
| BroadcastRuns.CountdownHistory | main/mkh_broadcast.c:396-405 | while a hub counts down, the run holds the toggle-off that started it, no toggle-on since, and one service for each count gone |
| BroadcastRuns.RowFollowsWrites | main/mkh_broadcast.c:276-286 | during a countdown the channels are exactly the values last written since the toggle-off, neutral where nothing was written |
| BroadcastRuns.DropSafety | main/mkh_broadcast.c:386-405 | a hub leaves the rotation only inside its own third service since an accepted toggle-off; each of the three airs exactly what was written since, so it is heard as neutral if and only if on every port the last write since the toggle-off, if any, was neutral |
| DriveRuns.DropWithoutNeutral | main/sketch.cpp:3005-3215 | a run of the whole machine, hub toggled off and then a button held, in which all three services of the countdown air full power |
| BroadcastRuns.DropIsBounded | main/mkh_broadcast.c:330-405 | a measure over countdown and rotation distance, at most 6, falls with every timer firing whatever happens to other hubs |
| BroadcastRuns.DropWithinSix | main/mkh_broadcast.c:330-405 | not toggled on again, a hub is out and stays out after six firings |
| BroadcastRuns.ServedWithinTwoFirings | main/mkh_broadcast.c:330-380 | of two successive firings one services any hub active at both, with its current bytes |
| LampRuns.LampBreaksExactlyOnStrayCallback | main/mkh_broadcast.c:228-233 | the lamp stays within the rotation across a step if and only if the step is not an event callback for a dropped hub |
| LampRuns.QueueStep | main/mkh_broadcast.c:297-305 | a queued callback waits until it runs, and a new one comes only with an event send accepted for an active hub |
| LampRuns.StrayWaitsExactly | main/mkh_broadcast.c:266-305 | with callbacks drained before timers, a callback waits for a dropped hub if and only if an event send was accepted after the last firing before the one that dropped it, with no callback for it, toggle-on or firing since |
| LampRuns.StrayCallbackIsReachable | main/mkh_broadcast.c:266-274 | a run from boot, callbacks drained before timers, that leaves a dropped hub's lamp on |
| LampRuns.TapRevivesExactlyWhenLampIsOff | main/sketch.cpp:3966-4001 | a tap brings a dropped hub back if and only if its lamp is off; otherwise it does nothing |
| DriveRuns.TapConnectsExactly | main/sketch.cpp:3960-4001 | a tap sends one CONNECT telegram if and only if the hub rotates, its lamp is off and it is neither in transition nor already on |
| LampRuns.StrandedLampStaysOn | main/mkh_broadcast.c:339-506 | over every run without a toggle-on of that hub the lamp stays on |
| SleepRuns.IdleSettles | main/sketch.cpp:4068-4082 | when sleep is entered from the idle page no hub is counting down |
| SleepRuns.SleepDropsEveryHub | main/sketch.cpp:3799-3829 | six firings into the wait every hub is out, those in the rotation at entry after exactly three services, the others after none |
| SleepRuns.SleepTelegramsAreNeutral | main/sketch.cpp:3799-3829 | every telegram put on the air in the sleep wait, by a firing or by an event callback, is heard as all channels neutral, by a hub that was in the rotation at entry |
| SleepRuns.WaitClearsExactly | main/sketch.cpp:3814-3829 | at any point of the wait the exit test holds if and only if no lamp was lying at entry, no stray callback has run since, and every hub is out of the rotation |
| SleepRuns.WaitEndsExactly | main/sketch.cpp:3814-3829 | after six firings the exit test holds if and only if no lamp was lying at entry and no stray callback has run; otherwise the wait goes on into its timeout |
| SleepRuns.SleepEndsClearExactly | main/sketch.cpp:3814-3832 | entered from the idle page, the wait ends clean within six firings if and only if no lamp was lying at entry |
| MachineTraces.TraceIsARun | main/sketch.cpp:2984-3303 | for the time-slicer every run of the whole machine is a run of its own steps |
| MachineTraces.MachineSleepsFromIdle | main/sketch.cpp:4068-4128 | a machine run without a tap over seven firings meets the sleep theorems' guard, in the slicer state that run led to |
| ConfigStore.SkipSpacesOf | main/mkh_config.c:219-223 | the loop drops leading blanks |
| ConfigStore.RStripOf | main/mkh_config.c:227-237 | the loop drops trailing blanks and line ends |
| ConfigStore.StrTok | main/mkh_config.c:297-325 | successive calls yield the blank-separated words in order |
| ConfigStore.LookUp | main/mkh_config.c:305-313 | the loop finds the first entry matching case-insensitively, or none |
| ConfigStore.ParseAttributes | main/mkh_config.c:325-393 | the attribute loop folds the words into settings and stops at the first refused one |
| ConfigStore.Store.MkhConfigParseLine | main/mkh_config.c:239-400 | one line changes the table and the skip count as its parse says, with every early return and the cap |
| ConfigStore.Store.MkhConfigSerialize | main/mkh_config.c:191-217 | the buffer holds the text of the table, or -1 if and only if some line exists and the text is at least as long as the buffer |
| ConfigStore.Store.MkhConfigSetDefaults | main/mkh_config.c:82-110 | the table is blank and the skip count zero |
| ConfigStore.Store.MkhConfigApplyFallbacks | main/mkh_config.c:121-132 | only the two empty default ports are filled |
| ConfigStore.Store.MkhConfigSetPortBindings | main/mkh_config.c:154-169 | one port is replaced by at most eight bindings; bad arguments change nothing |
| ConfigTable.EditExactly | main/mkh_config.c:154-169 | the addressed port takes the first eight bindings and is marked; bad arguments and other ports change nothing |
| ConfigLine.LabelsRoundTrip | main/mkh_ports.h:33-62 | hub numbers and port letters are inverse to slots and channels, both ways |
| ConfigLine.InputNamesRoundTrip | main/mkh_config.c:171-177 | the parser's token table undoes the printer's for every input but NONE |
| ConfigLine.ModeNamesRoundTrip | main/mkh_config.c:183-189 | the same for every mode |
| ConfigGrammar.InputNamesAre | main/mkh_config.c:26-33 | the eighteen input names, one by one |
| ConfigGrammar.ModeNamesAre | main/mkh_config.c:42-48 | the five mode names, one by one |
| ConfigGrammar.LabelsAre | main/mkh_ports.h:33-62 | hubs 1 to 3 are slots 0 to 2, ports are the letters A to F in either case, and nothing else is a label |
| CText.ScanDecimal | main/mkh_config.c:349-350 | scanning a printed number gives it back and stops right after it |
| ConfigGrammar.ScanIntOfText | main/mkh_config.c:349-350 | a number is white space, an optional sign and digits, with the value they spell |
| ConfigGrammar.WordsOfText | main/mkh_config.c:297-325 | words come out one by one whatever blanks stand between them |
| ConfigGrammar.AttributeOfText | main/mkh_config.c:325-393 | key=val changes the settings exactly as one of the written-out cases says, and is refused in every other case |
| ConfigGrammar.ValueOfText | main/mkh_config.c:293-399 | a value is an input name and attributes, over the defaults of its kind of input; anything else is refused |
| ConfigGrammar.KeyOfText | main/mkh_config.c:263-291 | a key is HUB, a number, _PORT_ and a letter |
| ConfigGrammar.LineOfText | main/mkh_config.c:239-291 | a line laid out with any blanks says what its key and value say |
| ConfigGrammar.IgnoredLines | main/mkh_config.c:245-248 | a line is ignored if and only if it is blank or its first visible character is a number sign |
| ConfigGrammar.RefusedWithoutEquals | main/mkh_config.c:250-255 | a line that means something and has no equals sign is refused |
| CText.SplitLinesOfText | main/mkh_storage.cpp:128-150 | splitting a file into lines loses nothing; a last line need not be ended |
| ConfigRoundTrip.PrintedValueParses | main/mkh_config.c:293-393 | a printed value parses back to its binding, and no printed value reaches the 95-character cut |
| ConfigRoundTrip.PrintedLineParses | main/mkh_config.c:191-400 | a saved line parses back to its binding, axis mode normalised, if and only if its input is assigned and max <= 100, else it is skipped; it is shorter than 127 characters |
| ConfigTable.FileMeaning | main/mkh_config.c:283-291 | after any lines each port holds what it had plus the valid lines addressed to it in order, cut to eight |
| ConfigTable.InterleavingIsIrrelevant | main/mkh_config.c:239-400 | lines for different ports may interleave in any way |
| ConfigTable.LinesAreConserved | main/mkh_config.c:239-400 | every line that is not blank or a comment adds one binding or one skip, never both |
| ConfigTable.MarkedFromFile | main/mkh_config.c:396-399 | a port is marked as coming from the file iff lines gave it a binding |
| ConfigTable.FallbackLaws | main/mkh_config.c:112-132 | fallbacks are idempotent, fill only empty default ports and touch nothing else |
| ConfigTable.TableRoundTrip | main/mkh_config.c:191-400 | for any table, printing and parsing back restores each port's writable bindings in order |
| ConfigTable.RestoredIsComplete | main/mkh_config.c:191-217 | nothing is lost if and only if every binding has an input and max <= 100 |
| ConfigTable.SameTextAfterNormalizing | main/mkh_config.c:199-209 | a normalised table prints the same text |
| ConfigTable.LinesGiveSavable | main/mkh_config.c:239-400 | lines never produce a binding that would not survive saving |
| ConfigTable.SavableRoundTrip | main/mkh_config.c:191-400 | such a table comes back exactly, axis modes normalised |
| StorageObject.FlashStorage.MkhStorageSaveConfig | main/mkh_storage.cpp:223-253 | the file operations, their order, the early returns and the result |
| StorageObject.FlashStorage.ReadAndParseConfigFile | main/mkh_storage.cpp:128-175 | the line loop, the version of the first line, the fallbacks and the gated write-back |
| StorageObject.FlashStorage.MkhStorageBootRead | main/mkh_storage.cpp:177-214 | mount failure, seeding and reading |
| StorageObject.FlashStorage.MkhStorageReloadConfig | main/mkh_storage.cpp:216-221 | reset, then read |
| Storage.FitsExactly | main/mkh_storage.cpp:223-229 | a table is saved if it has no binding or its text has at most 2047 characters |
| Storage.SaveIsAtomic | main/mkh_storage.cpp:231-248 | at every crash point of a save the config path holds the whole old text, the whole new text, or nothing with the new text in the temporary file |
| Storage.SaveOutcome | main/mkh_storage.cpp:223-253 | exactly when a save succeeds, and that a failed rename leaves no config file while any other failure leaves it as it was |
| Storage.FailedRenameLosesConfig | main/mkh_storage.cpp:198-213 | after a failed rename the next boot runs on the seeded defaults |
| Storage.BootGivesSavable | main/mkh_storage.cpp:177-214 | whatever the disk holds and whatever fails, the booted table can be saved and drives both default ports |
| Storage.SavedFileParses | main/mkh_storage.cpp:128-175 | for every table that can be saved, each port comes back with its bindings, axis modes normalised, except that an empty default port comes back with its fallback |
| Storage.AllPortsComeBackExactly | main/mkh_config.c:121-132 | all ports come back if and only if neither default port was saved empty |
| Storage.SaveThenBoot | main/mkh_storage.cpp:177-253 | a saved table boots so, and that boot writes nothing |
| Storage.EditSaveBoot | main/mkh_storage.cpp:223-253 | one port edited with writable bindings, saved and booted: every port comes back so, and the edited table whole if and only if it drives both default ports |
| Storage.ResetAllIsUndone | main/sketch.cpp:1361-1367 | a table saved without any binding boots with the two fallback bindings |
| ConfigTable.EditKeepsSavable | main/mkh_config.c:154-169 | an edit keeps a table savable if and only if the bindings it takes over have an input and max <= 100 |
| Storage.BootSaveBoot | main/mkh_storage.cpp:128-253 | boot, save, boot gives the first boot's bindings up to axis modes, writes nothing more, and every later save is byte-identical |
| Storage.VersionExactly | main/mkh_storage.cpp:104-110 | the version of a line is the number after its header, and 0 for every line that carries none |
| Storage.BootWritesExactly | main/mkh_storage.cpp:159-214 | a boot performs file operations if and only if it seeds a missing file, or the file is non-empty and its first line carries no version of 3 or more and no negative one, the table fits the buffer and the temporary file opens |
| Storage.FileIsTable | main/mkh_storage.cpp:128-175 | for any file: each port gets the first eight valid lines addressed to it or its fallback, the marks and the skip count follow, and the file is the source |
| Storage.BootRunsOn | main/mkh_storage.cpp:177-214 | which file a boot runs on, and that without one it runs on the two fallback bindings alone |
| Storage.ReloadForgets | main/mkh_storage.cpp:216-221 | a reload does not depend on the table, marks or skip count before it |
| Storage.ReloadIsBoot | main/mkh_storage.cpp:216-221 | on a mounted disk with a config file a reload gives what a boot gives |
| Storage.SaveThenReload | main/mkh_storage.cpp:216-253 | after a save a reload gives every port as saved, and only reads |
| Storage.ReloadGivesSavable | main/mkh_storage.cpp:216-221 | the reloaded table can be saved and drives both default ports |
| ReloadRuns.ResetTakesFile | main/sketch.cpp:2415-2424 | RESET on the settings page puts the machine on the table a boot from this disk would give and touches nothing else |
| ReloadRuns.ResetRestoresSaved | main/sketch.cpp:2415-2424 | edits that were not saved are undone by RESET, port by port |
| Storage.CrashThenBoot | main/mkh_storage.cpp:231-248 | after power is lost at any point of a save the next boot runs on the whole old file, the whole new one or the seeded defaults, and on which of them |
| Storage.MigratedOnce | main/mkh_storage.cpp:159-174 | a migrated file is not rewritten on the next boot |
| Storage.SeedIsSavedDefaults | main/mkh_storage.cpp:30-36 | the seeded text is byte for byte what saving the default mapping writes |
| Curves.StickCurve | main/sketch.cpp:2675-2699 | the stick byte falls with the axis by at most one per unit, is neutral in the dead zone, 0xFF from -511 up and 0x00 from 512 on |
| Curves.StickIsStraight | main/sketch.cpp:2675-2699 | between dead zone and end of travel the stick byte is exactly the rounded straight line, in whole numbers |
| Curves.TriggerCurve | main/sketch.cpp:2754-2771 | the trigger byte rises by at most one per unit, never below neutral, 0xFF at full pull |
| Curves.TriggerIsStraight | main/sketch.cpp:2754-2771 | the same for the trigger |
| Curves.BindingOrder | main/sketch.cpp:2715-2745 | invert and max keep (or reverse) the order of levels and never stretch a step |
| Curves.BindingShare | main/sketch.cpp:2737-2744 | except for the lock the level stays within max percent of full scale; a plain binding changes nothing |
| Curves.BindingIsAccurate | main/sketch.cpp:2715-2745 | invert mirrors the distance from neutral, the lock passes it on, every other mode takes max percent of it rounded towards neutral |
| Curves.InvertTwice | main/sketch.cpp:2715-2723 | inverting twice at full scale gives every level back but 0, which becomes 1 |
| Curves.StickEndToEnd | main/sketch.cpp:2675-2745 | raw axis through invert and max to the telegram byte: monotone, gentle, neutral in the dead zone, both extremes reached, sent unchanged |
| ControlLaw.WrapIsShortest | main/mkh_thl.cpp:132-139 | the wrapped angle is congruent to the raw one, in (-180, 180], and least in magnitude |
| ControlLaw.WrapIsUnique | main/mkh_thl.cpp:132-139 | it is the only congruent angle there |
| ControlLaw.OutputIgnoresTurns | main/mkh_thl.cpp:141-165 | whole turns of reference or heading do not change the output |
| ControlLaw.OutputIsSafe | main/mkh_thl.cpp:141-165 | the output never opposes the error, is zero in the dead band, and when not zero lies between the smaller and the larger of floor and ceiling |
| ControlLaw.OutputExactly | main/mkh_thl.cpp:141-165 | for all admissible tunables: the output is nothing in the dead band, else gain times error on the side of the error, cut to the ceiling and raised to the floor |
| ControlLaw.OutputGrowsWithError | main/mkh_thl.cpp:141-165 | a larger error never gets a smaller output |
| Machines.LatchIsParity | main/sketch.cpp:3043-3048 | a latch is on exactly after an odd number of press edges |
| Machines.PulseLevels | main/sketch.cpp:3049-3092 | for any pulse length N >= 1 and frames that never fall, full level is exactly the frames in the windows [s, s + N) |
| Machines.WindowsAreDisjoint | main/sketch.cpp:3049-3092 | windows are disjoint and each has a full-level tick |
| Machines.StartHasOneEdge | main/sketch.cpp:3056-3078 | each window opens in a later frame than its one arming press edge, with nothing at full level between |
| Machines.EdgeFires | main/sketch.cpp:3074-3083 | an accepted edge starts a pulse at the first later frame |
| Machines.PressInLockoutIsIgnored | main/sketch.cpp:3059-3072 | a press while armed or active changes only the edge detector |
| Machines.NeverBoth | main/sketch.cpp:3056-3090 | armed and active exclude each other in every reachable state |
| DriveObject.StepPulse | main/sketch.cpp:3056-3090 | the statement sequence is the pulse machine |
| DriveObject.StepLock | main/sketch.cpp:3099-3119 | the statement sequence is the lock machine |
| DriveObject.StepBinding | main/sketch.cpp:3021-3152 | the class and mode chain gives the binding's next state and level |
| DriveObject.ArbitrateInPlace | main/sketch.cpp:3155-3203 | the search, cancel and suppress loops over the raw bytes |
| DriveObject.SweepBindings | main/sketch.cpp:3019-3215 | three passes over a port's bindings give its next states and its clamped byte |
| Sweep.LockArbitration | main/sketch.cpp:3093-3215 | with one lock binding, a sweep ends engaged with the lock's contribution alone, or off with the clamped sum of the others; it ends engaged if and only if its press logic leaves it so and no sibling passes the cancel threshold |
| Readings.PortSendsSum | main/sketch.cpp:3019-3215 | a port without a lock binding sends neutral plus the sum of what its bindings add, from the readings they name, cut to a byte |
| Readings.OneBinding | main/sketch.cpp:2919-3092 | a port with one binding, input by input: the curve of exactly the named axis or trigger, or full or neutral for the named button and mode |
| Readings.OnlyNamedReadingsMatter | main/sketch.cpp:2919-2983 | a port depends only on the readings its bindings name, on the frame for pulses and on heading and gyro for locks |
| Readings.LockFollowsRule | main/sketch.cpp:3093-3203 | a new press toggles the lock, engaging only with a calibrated gyro; another input past the cancel threshold turns it off; and the heading of the engaging sweep is captured |
| Readings.LockPortSends | main/sketch.cpp:3093-3215 | a one-lock port sends its lock's output alone while engaged, and else the sum of its other bindings |
| Readings.LockSendsOutput | main/sketch.cpp:3121-3131 | an engaged lock is within half a step of its output, at 127 steps for 100 percent |
| LockRuns.LockFollowsPresses | main/sketch.cpp:3093-3203 | over machine runs: since its port was last cleared a lock is engaged exactly as the presses, the gyro and the other inputs say |
| LockRuns.EngagedExactly | main/sketch.cpp:3093-3203 | that is, if and only if some new press engaged it and since then there was no new press and the other inputs stayed at rest |
| LockRuns.PressEngages | main/sketch.cpp:3114-3118 | a run that ends with the lock engaged at the heading of its press |
| DriveRuns.LockOverStep | main/sketch.cpp:3099-3119 | over any step of the machine a lock ends engaged only with its old reference, or freshly engaged with the heading of this sweep |
| DriveRuns.ReferenceIsHeld | main/sketch.cpp:3114-3118 | in every run of the machine, with taps, edits, reconnections and retuning, the reference of an engaged lock is the heading of the sweep that engaged it |
| Sweep.ArbitrationKeepsMachines | main/sketch.cpp:3005-3018 | arbitration never disturbs a latch or pulse |
| ButtonRuns.PulseLevelsOverRuns | main/sketch.cpp:3049-3092 | over machine runs, since its slot was last cleared, a pulse binding is at full level exactly in the windows opened by the presses seen through the slot |
| ButtonRuns.ReloadedPulseExactly | main/sketch.cpp:2415-2424 | from a reload on a pulse keeps to the levels of a cleared one, whatever follows, if and only if its slot was idle at the reload |
| ButtonRuns.SlotOverStep | main/sketch.cpp:2887-3092 | over any step of the machine a slot is cleared, or its latch and pulse advance on the presses of the binding it serves, or they are kept |
| ButtonRuns.LatchIsParityOverRuns | main/sketch.cpp:3043-3048 | over machine runs, with taps, edits, reconnections and reloads, a latch is on exactly after an odd number of the press edges seen through its slot since it was last cleared |
| ButtonRuns.ReloadedLatchExactly | main/sketch.cpp:2415-2424 | from a reload on the latch law holds for the reloaded bindings' presses if and only if the slot was off, or on with its button held then and the new one pressed at the first sweep |
| ButtonRuns.ReloadLeavesLatchOn | main/sketch.cpp:2415-2424 | a run in which RESET on the settings page leaves a port driven fully by the latch of a button that was never pressed |
| DriveObject.Drive.ProcessMappedInputs | main/sketch.cpp:2984-3218 | the nested loops sweep all assigned ports in order and write each byte to the slicer |
| DriveRuns.SweepSetsChannels | main/sketch.cpp:2984-3218 | after a sweep of the machine every assigned channel holds the level of its port as a byte, every other is kept |
| DriveObject.Drive.ClearLatchStateForPort | main/sketch.cpp:2887-2900 | one port's eight records are cleared and no other |
| DriveObject.Drive.ClearAllLatchState | main/sketch.cpp:2908-2912 | every record is cleared |
| DriveObject.Drive.PushPort | main/sketch.cpp:430-437 | a pushed port takes its new bindings and loses its runtime state; no channel is written |
| DriveObject.Drive.ResetAll | main/sketch.cpp:1361-1366 | every port is emptied and all runtime state cleared; no channel is written |
| DriveObject.Drive.OnConnectedController | main/sketch.cpp:3222-3244 | the first empty slot takes the controller |
| DriveObject.Drive.OnDisconnectedController | main/sketch.cpp:3246-3303 | the slot is emptied; slot 0 also neutralises assigned ports and clears all state |
| Failsafe.ControllersComeAndGo | main/sketch.cpp:3222-3303 | a controller takes the lowest empty slot; one that leaves empties the lowest slot holding it, and only slot 0 touches anything else |
| Failsafe.DisconnectNeutralizesExactly | main/sketch.cpp:3286-3294 | losing slot 0 makes all channels neutral if and only if the unassigned ports were neutral already |
| Failsafe.TendedExactly | main/sketch.cpp:424-440 | a step leaves a tended port tended if and only if it does not take the port's bindings while the port is driven |
| Failsafe.FailsafePerPort | main/sketch.cpp:3246-3303 | in every run, edits included: with slot 0 empty all runtime state is cleared, and every port is neutral that did not lose its bindings while driven |
| Failsafe.FailsafeHolds | main/sketch.cpp:3246-3303 | edited only where no driven port loses its bindings, all 18 channels are neutral and every latch, pulse and lock is cleared whenever slot 0 is empty |
| Failsafe.FixedTableIsSafe | main/sketch.cpp:3246-3303 | in particular in every run with the table fixed after boot |
| DriveRuns.ResetLeavesPortDriven | main/sketch.cpp:1361-1366 | a run in which RESET ALL empties a driven port, the controller is lost, and the hub goes on hearing full power |
| DriveRuns.OnlyNeutralWithoutController | main/mkh_broadcast.c:339-380 | every telegram put on the air while slot 0 is empty is a CONNECT telegram or is heard as all channels neutral |
| DriveRuns.LostControllerStopsHubs | main/mkh_broadcast.c:339-380 | with slot 0 empty, of two successive firings one puts a telegram on the air that a hub active at both hears as all neutral |
| ReportRing.CircularBuffer.Put | components/bluepad32/uni_circular_buffer.c:11-26 | a report is appended to the contents, or refused when 31 wait or it has 128 bytes or more; only the tail slot is written |
| ReportRing.CircularBuffer.Get | components/bluepad32/uni_circular_buffer.c:28-40 | the oldest report leaves the contents and stays in its slot |
| ReportRing.CircularBuffer.IsFull | components/bluepad32/uni_circular_buffer.c:46-48 | full means 31 reports wait |
| ReportRing.CircularBuffer.IsEmpty | components/bluepad32/uni_circular_buffer.c:42-44 | empty means none waits |
| ReportRing.HidDevice.SendReport | components/bluepad32/uni_hid_device.c:797-822 | send, or queue on failure, or give up |
| ReportRing.HidDevice.SendQueuedReports | components/bluepad32/uni_hid_device.c:845-863 | one drain; the slot being read is never the slot written |
| ReportRing.OfferIs | components/bluepad32/uni_hid_device.c:797-822 | what becomes of an offered report, case by case |
| ReportRing.DrainNeverLoses | components/bluepad32/uni_hid_device.c:845-863 | a drained report is sent or goes to the back of the queue |
| ReportRing.ReportsAreConserved | components/bluepad32/uni_hid_device.c:797-863 | over every run each report offered is queued, sent or lost, exactly once |
| ReportRing.LossIsExactly | components/bluepad32/uni_hid_device.c:812-819 | a report is lost if and only if it is offered, its send fails, and the queue is full or the report too big |
| ReportRing.OrderIsKeptExactly | components/bluepad32/uni_hid_device.c:797-863 | an operation leaves sent and waiting reports in line if and only if it is no send past a waiting report and no failed drain with another report behind; the line then grows by what joined |
| ReportRing.InTurnWhenDistinct | components/bluepad32/uni_hid_device.c:797-863 | for distinct reports that means: the offer is not sent or nothing waits; the drain succeeds or at most one report waits |
| ReportRing.DeliveredInOrder | components/bluepad32/uni_hid_device.c:797-863 | over every run of such operations reports leave in the order they were accepted |
| ReportRing.OrderCanBeLost | components/bluepad32/uni_hid_device.c:812-863 | the two runs that lose the order |
| ReportRing.DrainsInOrder | components/bluepad32/uni_hid_device.c:845-863 | with sends that succeed n drains send the n oldest reports in order |
| ReportRing.CidRoundTrip | components/bluepad32/uni_circular_buffer.c:11-36 | a channel id survives the signed slot field |

## Left out

- Drawing, pages, touch zones, battery, console, NVS and GPIO: user interface and plumbing. The on-device editor appears as the edits it pushes, the idle page as its guarantee that no hub was toggled for at least seven firings before sleep (thirty seconds hold about 300).
- BTstack, Bluepad32 connection code and the IMU driver: their answers are parameters. A queued event callback may run at any later step, or, where a theorem says so, before a second firing, as the BTstack run loop (components/btstack/platform/freertos/btstack_run_loop_freertos.c:159-187) drains callbacks before timers; `l2cap_send` may succeed or fail; heading and IMU readiness are arbitrary.
- Interleavings finer than one call: a toggle, a channel write, a callback, a sweep or a timer firing is one step.
- Radio retransmission, the CONNECT phase before the first timer firing, and real time between firings.
- Floating-point rounding: curves and control law use exact numbers, with round-half-away and truncating casts as written. Not-a-number and infinity, which the tuning command accepts as values, have no counterpart in the model.
- Wrap-around of `millis()`: frame numbers are taken not to fall; clock readings are unbounded integers.
- The 128- and 96-byte line buffers are string values cut to 127 and 95 characters; the zero bytes the parser writes into them to cut words are not modelled as writes.
- LittleFS: a file is written and closed, removed or renamed in one atomic operation; short writes are not modelled, and first-boot seeding is outside the crash claim.
- The seven whitening cells hold booleans, since they only ever hold 0 or 1; the sixteen-bit register is a sixteen-bit word, since the source masks it after every step.
- The ten runtime arrays of the sweep are one array of per-binding records, and a controller is an integer, 0 for none.
- Two or more heading locks on one port: no exclusivity is claimed for them.
- Logging, status lines, and the last-logged snapshots: no effect on what is modelled. The serial tuning command appears as tunables that may differ at every sweep.
- The ~200 ms tap debounce: every tap is one that passed it.

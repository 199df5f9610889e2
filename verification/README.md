# AC remote relay: control logic

This project models the control logic of an infrared AC relay sketch
(`ac_control/src/main.cpp`). The sketch does two things on every pass of its
main loop:

- **Protocol detector.** It polls the IR receiver for a decoded frame. If the
  IR library can encode that frame's protocol, the sketch records the protocol,
  raises the "supported" flag, and resets the AC command record to fixed
  defaults. Any other protocol clears the detection.
- **Command dispatcher.** It reads one serial line and trims it. It then
  dispatches on `on`, `off` (both ignoring case) and the case-sensitive prefix
  `temp ` followed by a number. It changes one field of the command record and
  hands the record to the IR transmitter, or it prints a rejection.

The model is a functional state machine:

- the process-wide globals become an immutable record `Sketch.Globals`;
- each step function returns a `Step`: the new globals, the kinds of lines
  printed, and the record transmitted, if any.

The IR library is abstracted:

- a decoded frame is an optional `Protocol` input;
- `IRac::isProtocolSupported` is a parameter `isSupported: Protocol -> bool` that the model never inspects;
- `IRac::sendAc` is the `sent` field of a step.

The Arduino `String` operations the dispatcher relies on are modelled as they
behave in the Arduino core:

- `trim` strips C-locale white space at both ends;
- `equalsIgnoreCase` walks the receiver as a C string, so it stops at an
  embedded NUL byte;
- `startsWith` compares the prefix exactly;
- `toInt` is C's `atol` (section 7.22.1.2 of ISO C11).

Modules, one per concern:

- `Optional`: an option type.
- `ArduinoString`: `trim`, `equalsIgnoreCase`, `startsWith`.
- `Atol`: `toInt`, plus a decimal printer that acts as its inverse in lemmas.
- `AcModel`: protocol identifiers, the AC command record and its defaults.
- `Sketch`: `detectProtocol`, `handleSerialCommand`, `loop`.
- `CommandLines`: what happens to concrete operator lines.
- `Trace`: runs of many loop passes and the invariants along them.
- `Scenario`: a typical operator session, played through the model.

Points where the sketch's behaviour is easy to misread:

- Only the `on` and `off` keywords ignore case. `temp ` is matched case-sensitively, so `TEMP 20` is an unknown command.
- One might expect the flag to be true exactly when a protocol other than UNKNOWN is recorded. In the code this holds only if the library does not report UNKNOWN as supported. `Trace.FlagTracksProtocol` proves it under that hypothesis. `Trace.UnknownSupportedStillLocked` shows that without the hypothesis the flag can be true while the protocol is UNKNOWN; the second half of the send guard still stops every transmission.
- A detection does not create a fresh record. It overwrites eight fields of the existing `ac.next` and leaves the rest of that record (`other` in the model) as it was.
- Because `equalsIgnoreCase` stops at a NUL byte, the two-byte line "o" NUL is taken as `on` (`ArduinoString.NulEndsComparison`). On lines without NUL bytes it is ordinary case-insensitive equality (`ArduinoString.EqualsIgnoreCaseNulFree`).

## Model

| member | source | states |
|---|---|---|
| `ArduinoString.Trim` | ac_control/src/main.cpp:55 | the trimmed line is a slice of the input; it has no white space at either end, and everything cut off before and after it is white space |
| `ArduinoString.TrimPadded` | ac_control/src/main.cpp:55 | trimming any white-space padding around a trimmed core gives back exactly that core |
| `ArduinoString.TrimIdempotent` | ac_control/src/main.cpp:55 | trimming an already trimmed line changes nothing |
| `ArduinoString.EqualsIgnoreCaseNulFree` | ac_control/src/main.cpp:59 | on a line without NUL bytes the keyword test holds exactly when the lengths agree and every character matches after C `tolower` |
| `ArduinoString.NulEndsComparison` | ac_control/src/main.cpp:59 | "o" followed by a NUL byte passes the `on` test although it is not "on" in any case |
| `Atol.AtoLShowInt` | ac_control/src/main.cpp:68 | `toInt` of a decimal numeral of any integer, followed by any text that does not start with a digit, is that integer |
| `Atol.AtoLSkipsSpace` | ac_control/src/main.cpp:68 | white space before the argument does not change the value `toInt` reads |
| `Atol.AtoLNonNumeric` | ac_control/src/main.cpp:68 | an argument that has no digit after its leading white space and optional sign reads as 0 |
| `Sketch.Boot` | ac_control/src/main.cpp:18-22 | at power-up the protocol is UNKNOWN and the flag is false, so the send guard is closed whatever the library put in the command record |
| `Sketch.Classify` | ac_control/src/main.cpp:59-79 | on a line without NUL bytes, `on` and `off` are recognised exactly when the line spells the keyword in any case; a line is a temperature command exactly when it starts with `temp ` (so no such line is taken as a keyword), and its value is `toInt` of the text after the prefix |
| `Sketch.DetectProtocol` | ac_control/src/main.cpp:24-49 | no frame changes nothing. A supported protocol p is recorded with the flag set, and the record is reset to protocol p, model 1, power on, 24 degrees, cool, fan auto, both swings auto; fields the sketch never writes are kept. An unsupported protocol sets UNKNOWN and clears the flag, and the record is untouched. Detection never transmits |
| `Sketch.HandleSerialCommand` | ac_control/src/main.cpp:51-86 | no input changes nothing. Otherwise exactly one line is printed and the flags never change. Only power or degrees changes, never both. A transmission happens only behind the guard and carries the updated record; with no transmission nothing changes. When the guard fails, any line gets the advisory and no send. Behind the guard: `on`/`off` set power and send; an in-range temperature sets degrees and sends; an out-of-range temperature or unknown text is rejected with nothing changed |
| `Sketch.Loop` | ac_control/src/main.cpp:96-99 | one pass is detection then command. It transmits at most once, only when the globals after the pass let commands through, and the record sent is the final command record. A pass with neither frame nor line changes nothing |
| `CommandLines.PowerKeyword` | ac_control/src/main.cpp:55-66 | behind the guard, `on` or `off` in any case and with any white-space padding switches power accordingly, sends the updated record once and changes no other field |
| `CommandLines.TempNumeral` | ac_control/src/main.cpp:67-76 | behind the guard, `temp N` with white-space padding sets degrees to N and sends once when 16 <= N <= 30; for any other N nothing changes, nothing is sent and the out-of-range line is printed |
| `CommandLines.TempNonNumeric` | ac_control/src/main.cpp:67-76 | behind the guard, `temp ` followed by a non-numeric argument is rejected as out of range with nothing changed |
| `CommandLines.UpperCaseTempIsUnknown` | ac_control/src/main.cpp:67-79 | `TEMP 20` is not a temperature command: it gets "unknown command", no send and no change |
| `CommandLines.BareTempIsUnknown` | ac_control/src/main.cpp:55-79 | `temp` with any padding, even with the space of `temp `, is trimmed first and then falls through to "unknown command" |
| `Trace.RunLoop` | ac_control/src/main.cpp:96-99 | a run of n loop passes transmits at most n records |
| `Trace.BootConsistent` | ac_control/src/main.cpp:18-22 | power-up globals satisfy the consistency invariant |
| `Trace.LoopKeepsConsistent` | ac_control/src/main.cpp:24-86 | one loop pass preserves the invariant: whenever the guard is open, the record's protocol is the supported protocol detected, the seeded settings are intact and degrees is within 16..30. What it transmits is such a record |
| `Trace.RunTransmitsOnlyValid` | ac_control/src/main.cpp:30-76 | along any run from consistent globals (power-up included), every transmitted record has a supported protocol other than UNKNOWN, model 1, cool mode, auto fan and swings, and a temperature within 16..30 |
| `Trace.SilentUntilArmed` | ac_control/src/main.cpp:58-81 | from a closed guard (power-up included), as long as no frame of a supported protocol other than UNKNOWN arrives, nothing is ever transmitted and the guard stays closed |
| `Trace.FlagTracksProtocol` | ac_control/src/main.cpp:30-45 | if the library does not report UNKNOWN as supported, the flag stays true exactly when a protocol other than UNKNOWN is recorded, along any run |
| `Trace.UnknownSupportedStillLocked` | ac_control/src/main.cpp:58 | if the library did report UNKNOWN as supported, a frame of unknown protocol would set the flag with UNKNOWN recorded, and the guard would still block the send |
| `Scenario.DetectThenCommands` | ac_control/src/main.cpp:24-86 | after a supported detection, the lines "on", "temp 18", "temp 40", "off", "bogus" send power-on at 24 degrees, then 18 degrees, then power-off at 18 degrees; "temp 40" and "bogus" send nothing and change nothing |
| `Scenario.OnBeforeDetection` | ac_control/src/main.cpp:80-81 | before any detection, "on" yields the advisory line and no transmission |

## Left out

- Serial I/O is not modelled: `Serial.available`, `readStringUntil('\n')`, the drain loop at line 85 and the text printed. Input is one optional line already split at the line feed. Output is a message kind; the temperature line carries its number.
- `typeToString` and the protocol name in "Detected protocol: ..." are not modelled; the message carries the protocol identifier instead.
- IR hardware and library internals are not modelled: `IRrecv::decode`, `IRrecv::resume` (line 47), `IRsend`, and the waveform encoding inside `IRac::sendAc`. They are foreign calls; decoding is an input and sending is an output event.
- Which protocols `IRac::isProtocolSupported` accepts is not modelled. It is a parameter that every property holds for.
- The initial contents of `ac.next` come from the library's constructor. `Sketch.Boot` takes them as a parameter.
- Fields of `stdAc::state_t` that the sketch never writes (quiet, turbo, clock and the rest) are one abstract field, `other`. The sketch never reads or writes them, and the model carries them through unchanged.
- `degrees` is a float in the library's record. The model uses an integer, since the sketch only ever stores the integers 16..30 and 24.
- Whether `model = 1` suits every vendor (line 35) is not modelled; the code gives no basis to decide.
- Pin constants and `setup()` (lines 9-10, 88-94) are configuration only.
- Atol.AtoL: does not model overflow of `long` (and then of `int`) for huge digit strings, which is undefined behaviour in C; the model reads the mathematical value, which lies outside 16..30 and is rejected. The same verdict holds for a saturating reading, such as newlib's `strtol`-based `atol` returning LONG_MAX or LONG_MIN; a wrapping reading would differ (`temp 4294967316` wraps modulo 2^32 to 20) and is not modelled.
- Serial bytes are modelled as `char`; `tolower` and `isspace` act only on their ASCII meaning, as in the "C" locale.

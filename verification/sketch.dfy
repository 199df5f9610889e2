/** The control logic of the sketch: the process-wide globals, the protocol
    detector, the serial command dispatcher and one pass of the main loop.
    The IR decoder becomes an optional input per poll, the library's
    supported-protocol test the parameter `isSupported`, a serial read an
    optional line (already split at the line feed), and `sendAc` the
    `sent` field of a step: the command record handed to the transmitter. */
module Sketch {
  import opened Optional
  import opened ArduinoString
  import opened Atol
  import opened AcModel

  /** `detectedProtocol`, `protocolSupported` and the `next` record of the
      library's AC object. */
  datatype Globals<X> = Globals(detectedProtocol: Protocol, protocolSupported: bool, next: AcState<X>)

  /** The kind of each line the sketch prints. */
  datatype Message =
    | Detected(protocol: Protocol)
    | ProtocolSupported
    | ProtocolNotSupported
    | SendingOn
    | SendingOff
    | SetTemperature(degrees: int)
    | TemperatureOutOfRange
    | UnknownCommand
    | NoValidProtocol

  /** What one call does: the globals afterwards, the lines printed, and the
      record transmitted, if any. */
  datatype Step<X> = Step(globals: Globals<X>, messages: seq<Message>, sent: Option<AcState<X>>)

  /** The globals at power-up; `next` is whatever the library's constructor
      left in the record. */
  function Boot<X>(next: AcState<X>): (g: Globals<X>)
    ensures g.detectedProtocol == Unknown && !g.protocolSupported
    ensures !CanSend(g)
    ensures g.next == next
  {
    Globals(Unknown, false, next)
  }

  /** The guard in front of every command. */
  predicate CanSend<X>(g: Globals<X>) {
    g.protocolSupported && g.detectedProtocol != Unknown
  }

  /** `detectProtocol`. A supported protocol is recorded and the command
      record reset to the defaults for it; any other protocol clears the
      detection and leaves the command record as it was. No frame, no change.
      Detection never transmits. */
  function DetectProtocol<X>(isSupported: Protocol -> bool, g: Globals<X>, frame: Option<Protocol>): (r: Step<X>)
    ensures r.sent == None
    ensures frame == None ==> r.globals == g && r.messages == []
    ensures frame.Some? && isSupported(frame.value) ==>
              && r.globals.detectedProtocol == frame.value
              && r.globals.protocolSupported
              && IsSeeded(r.globals.next, frame.value)
              && r.globals.next.power
              && r.globals.next.degrees == DefaultDegrees
              && r.globals.next.other == g.next.other
              && r.messages == [Detected(frame.value), ProtocolSupported]
    ensures frame.Some? && !isSupported(frame.value) ==>
              && r.globals.detectedProtocol == Unknown
              && !r.globals.protocolSupported
              && r.globals.next == g.next
              && r.messages == [Detected(frame.value), ProtocolNotSupported]
  {
    match frame
    case None => Step(g, [], None)
    case Some(p) =>
      if isSupported(p) then
        Step(Globals(p, true, Defaults(p, g.next)), [Detected(p), ProtocolSupported], None)
      else
        Step(g.(detectedProtocol := Unknown, protocolSupported := false), [Detected(p), ProtocolNotSupported], None)
  }

  /** The reading the dispatcher gives a trimmed line. */
  datatype Command = PowerOn | PowerOff | SetTemp(value: int) | Unrecognised

  /** The dispatcher's chain of tests, in order: "on" and "off" ignoring
      case, then the case-sensitive prefix "temp " with the rest read by
      `toInt`. On a line without NUL bytes the keywords are plain
      case-insensitive matches, and no line with the prefix is a keyword. */
  function Classify(t: string): (c: Command)
    ensures NulFree(t) ==> (c == PowerOn <==> SameIgnoringCase(t, "on"))
    ensures NulFree(t) ==> (c == PowerOff <==> SameIgnoringCase(t, "off"))
    ensures c.SetTemp? <==> StartsWith(t, "temp ")
    ensures c.SetTemp? ==> c.value == AtoL(t[5..])
  {
    KeywordsOnNulFreeLines(t);
    if EqualsIgnoreCase(t, "on") then PowerOn
    else if EqualsIgnoreCase(t, "off") then PowerOff
    else if StartsWith(t, "temp ") then SetTemp(AtoL(t[5..]))
    else Unrecognised
  }

  /** On a line without NUL bytes the two keyword tests are plain
      case-insensitive equality. */
  lemma KeywordsOnNulFreeLines(t: string)
    ensures NulFree(t) ==> (EqualsIgnoreCase(t, "on") <==> SameIgnoringCase(t, "on"))
    ensures NulFree(t) ==> (EqualsIgnoreCase(t, "off") <==> SameIgnoringCase(t, "off"))
  {
    if NulFree(t) {
      EqualsIgnoreCaseNulFree(t, "on");
      EqualsIgnoreCaseNulFree(t, "off");
    }
  }

  /** `handleSerialCommand`. Without input nothing happens. Otherwise exactly
      one line is printed; the detection flags never change; only the power
      or the temperature of the command record changes, never both; a
      record is transmitted only behind the guard, it is the updated record,
      and when nothing is transmitted nothing changes. */
  function HandleSerialCommand<X>(g: Globals<X>, line: Option<string>): (r: Step<X>)
    ensures line == None ==> r == Step(g, [], None)
    ensures line.Some? ==> |r.messages| == 1
    ensures r.globals.detectedProtocol == g.detectedProtocol
    ensures r.globals.protocolSupported == g.protocolSupported
    ensures r.globals.next == g.next.(power := r.globals.next.power, degrees := r.globals.next.degrees)
    ensures r.globals.next.power == g.next.power || r.globals.next.degrees == g.next.degrees
    ensures r.sent.Some? ==> CanSend(g) && r.sent.value == r.globals.next
    ensures r.sent == None ==> r.globals == g
    ensures line.Some? && !CanSend(g) ==> r == Step(g, [NoValidProtocol], None)
    ensures line.Some? && CanSend(g) && Classify(Trim(line.value)) == PowerOn ==>
              r.globals.next == g.next.(power := true) && r.sent.Some? && r.messages == [SendingOn]
    ensures line.Some? && CanSend(g) && Classify(Trim(line.value)) == PowerOff ==>
              r.globals.next == g.next.(power := false) && r.sent.Some? && r.messages == [SendingOff]
    ensures line.Some? && CanSend(g) && Classify(Trim(line.value)).SetTemp? ==>
              var n := Classify(Trim(line.value)).value;
              if InRange(n) then
                r.globals.next == g.next.(degrees := n) && r.sent.Some? && r.messages == [SetTemperature(n)]
              else
                r == Step(g, [TemperatureOutOfRange], None)
    ensures line.Some? && CanSend(g) && Classify(Trim(line.value)) == Unrecognised ==>
              r == Step(g, [UnknownCommand], None)
  {
    match line
    case None => Step(g, [], None)
    case Some(text) =>
      if !CanSend(g) then
        Step(g, [NoValidProtocol], None)
      else
        match Classify(Trim(text))
        case PowerOn =>
          var next := g.next.(power := true);
          Step(g.(next := next), [SendingOn], Some(next))
        case PowerOff =>
          var next := g.next.(power := false);
          Step(g.(next := next), [SendingOff], Some(next))
        case SetTemp(n) =>
          if InRange(n) then
            var next := g.next.(degrees := n);
            Step(g.(next := next), [SetTemperature(n)], Some(next))
          else
            Step(g, [TemperatureOutOfRange], None)
        case Unrecognised =>
          Step(g, [UnknownCommand], None)
  }

  /** `loop`: one detection poll, then one command poll, on the globals the
      detection left. At most one record is transmitted per pass, and only
      when the globals after the pass allow it. */
  function Loop<X>(isSupported: Protocol -> bool, g: Globals<X>, frame: Option<Protocol>, line: Option<string>): (r: Step<X>)
    ensures r.sent.Some? ==> CanSend(r.globals) && r.sent.value == r.globals.next
    ensures frame == None && line == None ==> r == Step(g, [], None)
    ensures |r.messages| <= 3
  {
    var d := DetectProtocol(isSupported, g, frame);
    var h := HandleSerialCommand(d.globals, line);
    Step(h.globals, d.messages + h.messages, h.sent)
  }
}

/** Runs of the main loop: a sequence of polls, each one pass of `loop`,
    and the invariants that hold along every run from power-up. */
module Trace {
  import opened Optional
  import opened ArduinoString
  import opened Atol
  import opened AcModel
  import opened Sketch

  /** What one pass of `loop` receives: a decoded frame, if any, and a
      serial line, if any. */
  datatype Poll = Poll(frame: Option<Protocol>, line: Option<string>)

  /** The globals after a run and the records transmitted, in order. */
  datatype Run<X> = Run(globals: Globals<X>, sent: seq<AcState<X>>)

  function RunLoop<X>(isSupported: Protocol -> bool, g: Globals<X>, polls: seq<Poll>): (r: Run<X>)
    ensures |r.sent| <= |polls|
    decreases |polls|
  {
    if polls == [] then Run(g, [])
    else
      var s := Loop(isSupported, g, polls[0].frame, polls[0].line);
      var rest := RunLoop(isSupported, s.globals, polls[1..]);
      Run(rest.globals, s.sent.Elements() + rest.sent)
  }

  /** A frame that lets commands through: a supported protocol other than UNKNOWN. */
  predicate Arms(isSupported: Protocol -> bool, frame: Option<Protocol>) {
    frame.Some? && frame.value != Unknown && isSupported(frame.value)
  }

  /** A record that may go on the air: its protocol is the supported one
      detected, the settings seeded at detection are intact, and the
      temperature is within 16..30. */
  predicate Transmittable<X>(isSupported: Protocol -> bool, s: AcState<X>) {
    s.protocol != Unknown && isSupported(s.protocol) && IsSeeded(s, s.protocol) && InRange(s.degrees)
  }

  predicate AllTransmittable<X>(isSupported: Protocol -> bool, sent: seq<AcState<X>>) {
    forall i :: 0 <= i < |sent| ==> Transmittable(isSupported, sent[i])
  }

  /** Whenever commands are let through, the command record belongs to the
      detected protocol and is fit to transmit. */
  predicate Consistent<X>(isSupported: Protocol -> bool, g: Globals<X>) {
    CanSend(g) ==> g.next.protocol == g.detectedProtocol && Transmittable(isSupported, g.next)
  }

  lemma BootConsistent<X>(isSupported: Protocol -> bool, next: AcState<X>)
    ensures Consistent(isSupported, Boot(next))
  {
  }

  /** One pass of the loop keeps the globals consistent, and what it
      transmits is fit to transmit. */
  lemma LoopKeepsConsistent<X>(isSupported: Protocol -> bool, g: Globals<X>, frame: Option<Protocol>, line: Option<string>)
    requires Consistent(isSupported, g)
    ensures var s := Loop(isSupported, g, frame, line);
            && Consistent(isSupported, s.globals)
            && (s.sent.Some? ==> Transmittable(isSupported, s.sent.value) && s.sent.value.protocol == s.globals.detectedProtocol)
  {
  }

  /** Every record transmitted on a run from consistent globals (power-up
      among them) is fit to transmit: a supported protocol, the seeded
      settings, and a temperature within 16..30. */
  lemma {:induction false} RunTransmitsOnlyValid<X>(isSupported: Protocol -> bool, g: Globals<X>, polls: seq<Poll>)
    requires Consistent(isSupported, g)
    ensures Consistent(isSupported, RunLoop(isSupported, g, polls).globals)
    ensures AllTransmittable(isSupported, RunLoop(isSupported, g, polls).sent)
    decreases |polls|
  {
    if polls != [] {
      var s := Loop(isSupported, g, polls[0].frame, polls[0].line);
      LoopKeepsConsistent(isSupported, g, polls[0].frame, polls[0].line);
      RunTransmitsOnlyValid(isSupported, s.globals, polls[1..]);
    }
  }

  /** Until a frame of a supported protocol arrives, nothing is transmitted
      and commands stay locked, whatever lines are typed; from power-up in
      particular. */
  lemma {:induction false} SilentUntilArmed<X>(isSupported: Protocol -> bool, g: Globals<X>, polls: seq<Poll>)
    requires !CanSend(g)
    requires forall i :: 0 <= i < |polls| ==> !Arms(isSupported, polls[i].frame)
    ensures RunLoop(isSupported, g, polls).sent == []
    ensures !CanSend(RunLoop(isSupported, g, polls).globals)
    decreases |polls|
  {
    if polls != [] {
      var s := Loop(isSupported, g, polls[0].frame, polls[0].line);
      assert !Arms(isSupported, polls[0].frame);
      assert !CanSend(DetectProtocol(isSupported, g, polls[0].frame).globals);
      assert s.sent == None && !CanSend(s.globals);
      SilentUntilArmed(isSupported, s.globals, polls[1..]);
    }
  }

  /** The flag is raised exactly when a protocol other than UNKNOWN is recorded. */
  predicate FlagMatchesProtocol<X>(g: Globals<X>) {
    g.protocolSupported <==> g.detectedProtocol != Unknown
  }

  /** When the library does not report UNKNOWN as supported, the flag is
      true exactly when a protocol other than UNKNOWN is recorded, on
      every run from power-up. */
  lemma {:induction false} FlagTracksProtocol<X>(isSupported: Protocol -> bool, g: Globals<X>, polls: seq<Poll>)
    requires !isSupported(Unknown)
    requires FlagMatchesProtocol(g)
    ensures FlagMatchesProtocol(RunLoop(isSupported, g, polls).globals)
    decreases |polls|
  {
    if polls != [] {
      var s := Loop(isSupported, g, polls[0].frame, polls[0].line);
      RunFlagStep(isSupported, g, polls[0].frame, polls[0].line);
      FlagTracksProtocol(isSupported, s.globals, polls[1..]);
    }
  }

  lemma RunFlagStep<X>(isSupported: Protocol -> bool, g: Globals<X>, frame: Option<Protocol>, line: Option<string>)
    requires !isSupported(Unknown)
    requires FlagMatchesProtocol(g)
    ensures FlagMatchesProtocol(Loop(isSupported, g, frame, line).globals)
  {
  }

  /** Were the library to report UNKNOWN as supported, a frame of unknown
      protocol would set the flag while the recorded protocol stays
      UNKNOWN; the second half of the guard still keeps every command
      from transmitting. */
  lemma UnknownSupportedStillLocked<X>(isSupported: Protocol -> bool, g: Globals<X>, line: Option<string>)
    requires isSupported(Unknown)
    ensures var s := Loop(isSupported, g, Some(Unknown), line);
            && s.globals.protocolSupported
            && s.globals.detectedProtocol == Unknown
            && s.sent == None
  {
  }
}

/** A typical operator session, played through the model. */
module Scenario {
  import opened Optional
  import opened ArduinoString
  import opened Atol
  import opened AcModel
  import opened Sketch
  import opened CommandLines
  import opened Trace

  function Typed(line: string): Poll {
    Poll(None, Some(line))
  }

  /** A supported protocol is detected, then "on", "temp 18", "temp 40",
      "off" and "bogus" are typed, one line per pass of the loop: the record
      goes out with power on at 24 degrees, then at 18 degrees, then with
      power off at 18 degrees; "temp 40" and "bogus" send nothing and change
      nothing. */
  lemma DetectThenCommands<X>(isSupported: Protocol -> bool, next: AcState<X>, p: Protocol)
    requires p != Unknown && isSupported(p)
    ensures var d := Defaults(p, next);
            var s1 := Loop(isSupported, Boot(next), Some(p), None);
            var s2 := Loop(isSupported, s1.globals, None, Some("on"));
            var s3 := Loop(isSupported, s2.globals, None, Some("temp 18"));
            var s4 := Loop(isSupported, s3.globals, None, Some("temp 40"));
            var s5 := Loop(isSupported, s4.globals, None, Some("off"));
            var s6 := Loop(isSupported, s5.globals, None, Some("bogus"));
            && s1.sent == None
            && s2.sent == Some(d.(power := true))
            && s3.sent == Some(d.(degrees := 18))
            && s4.sent == None && s4.globals == s3.globals
            && s5.sent == Some(d.(degrees := 18, power := false))
            && s6.sent == None && s6.globals == s5.globals && s6.messages == [UnknownCommand]
  {
    var d := Defaults(p, next);
    var g1 := Globals(p, true, d);
    var g2 := g1.(next := d.(power := true));
    var g3 := g2.(next := g2.next.(degrees := 18));
    var g5 := g3.(next := g3.next.(power := false));
    assert Loop(isSupported, Boot(next), Some(p), None) == Step(g1, [Detected(p), ProtocolSupported], None);
    SessionOn(isSupported, g1);
    SessionTemp18(isSupported, g2);
    SessionTemp40(isSupported, g3);
    SessionOff(isSupported, g3);
    SessionBogus(isSupported, g5);
  }

  lemma SessionOn<X>(isSupported: Protocol -> bool, g: Globals<X>)
    requires CanSend(g)
    ensures var n := g.next.(power := true);
            Loop(isSupported, g, None, Some("on")).globals == g.(next := n)
            && Loop(isSupported, g, None, Some("on")).sent == Some(n)
  {
  }

  lemma SessionOff<X>(isSupported: Protocol -> bool, g: Globals<X>)
    requires CanSend(g)
    ensures var n := g.next.(power := false);
            Loop(isSupported, g, None, Some("off")).globals == g.(next := n)
            && Loop(isSupported, g, None, Some("off")).sent == Some(n)
  {
  }

  lemma SessionTemp18<X>(isSupported: Protocol -> bool, g: Globals<X>)
    requires CanSend(g)
    ensures var n := g.next.(degrees := 18);
            Loop(isSupported, g, None, Some("temp 18")).globals == g.(next := n)
            && Loop(isSupported, g, None, Some("temp 18")).sent == Some(n)
  {
    assert ShowInt(18) == "18";
    assert "" + "temp " + ShowInt(18) + "" == "temp 18";
    TempNumeral(g, "", 18, "");
  }

  lemma SessionTemp40<X>(isSupported: Protocol -> bool, g: Globals<X>)
    requires CanSend(g)
    ensures Loop(isSupported, g, None, Some("temp 40")).globals == g
            && Loop(isSupported, g, None, Some("temp 40")).sent == None
  {
    assert ShowInt(40) == "40";
    assert "" + "temp " + ShowInt(40) + "" == "temp 40";
    TempNumeral(g, "", 40, "");
  }

  lemma SessionBogus<X>(isSupported: Protocol -> bool, g: Globals<X>)
    requires CanSend(g)
    ensures Loop(isSupported, g, None, Some("bogus")).globals == g
            && Loop(isSupported, g, None, Some("bogus")).sent == None
            && Loop(isSupported, g, None, Some("bogus")).messages == [UnknownCommand]
  {
  }

  /** Without a detection, "on" is refused with the advisory line and nothing is sent. */
  lemma OnBeforeDetection<X>(isSupported: Protocol -> bool, next: AcState<X>)
    ensures RunLoop(isSupported, Boot(next), [Typed("on")]) == Run(Boot(next), [])
    ensures Loop(isSupported, Boot(next), None, Some("on")).messages == [NoValidProtocol]
  {
  }
}

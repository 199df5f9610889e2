/** What the dispatcher does with the concrete lines an operator types:
    keywords in any case and with any surrounding white space, "temp"
    followed by a numeral or by text, and the near misses that fall through
    to "unknown command". */
module CommandLines {
  import opened Optional
  import opened ArduinoString
  import opened Atol
  import opened AcModel
  import opened Sketch

  /** A two-letter "on" or three-letter "off" in any mix of cases is a
      trimmed word without NUL bytes, so `equalsIgnoreCase` accepts it. */
  lemma KeywordMatches(w: string, keyword: string)
    requires keyword == "on" || keyword == "off"
    requires SameIgnoringCase(w, keyword)
    ensures Trimmed(w) && EqualsIgnoreCase(w, keyword)
    ensures keyword == "on" ==> !EqualsIgnoreCase(w, "off")
  {
    assert ToLower(w[0]) == 'o' && ToLower(w[|w| - 1]) != ' ';
    assert NulFree(w) by {
      forall i | 0 <= i < |w| ensures w[i] != '\0' {
        assert ToLower(w[i]) == ToLower(keyword[i]);
      }
    }
    EqualsIgnoreCaseNulFree(w, keyword);
    EqualsIgnoreCaseNulFree(w, "off");
  }

  /** "on" or "off", in any case, padded with any white space, switches the
      power accordingly, transmits the updated record and changes nothing else. */
  lemma PowerKeyword<X>(g: Globals<X>, lead: string, w: string, trail: string, keyword: string)
    requires CanSend(g)
    requires AllSpace(lead) && AllSpace(trail)
    requires keyword == "on" || keyword == "off"
    requires SameIgnoringCase(w, keyword)
    ensures var r := HandleSerialCommand(g, Some(lead + w + trail));
            && r.globals == g.(next := g.next.(power := keyword == "on"))
            && r.sent == Some(r.globals.next)
            && r.messages == [if keyword == "on" then SendingOn else SendingOff]
  {
    KeywordMatches(w, keyword);
    TrimPadded(lead, w, trail);
    if keyword == "off" {
      assert !EqualsIgnoreCase(w, "on");
    }
  }

  /** Any line that starts with "temp " is neither keyword, so its argument
      is what `toInt` reads after the prefix. */
  lemma TempPrefixClassifies(arg: string)
    ensures Classify("temp " + arg) == SetTemp(AtoL(arg))
  {
  }

  lemma TempNumeralReads(n: int)
    ensures Classify("temp " + ShowInt(n)) == SetTemp(n)
  {
    TempPrefixClassifies(ShowInt(n));
    assert ShowInt(n) == ShowInt(n) + [];
    AtoLShowInt(n, []);
  }

  lemma TrimTempNumeral(lead: string, n: int, trail: string)
    requires AllSpace(lead) && AllSpace(trail)
    ensures Trim(lead + "temp " + ShowInt(n) + trail) == "temp " + ShowInt(n)
  {
    var t := "temp " + ShowInt(n);
    assert lead + "temp " + ShowInt(n) + trail == lead + t + trail;
    TrimPadded(lead, t, trail);
  }

  /** "temp " and a numeral N, padded with any white space: N within 16..30
      becomes the temperature and the record is transmitted; any other N
      changes nothing and transmits nothing. */
  lemma TempNumeral<X>(g: Globals<X>, lead: string, n: int, trail: string)
    requires CanSend(g)
    requires AllSpace(lead) && AllSpace(trail)
    ensures var r := HandleSerialCommand(g, Some(lead + "temp " + ShowInt(n) + trail));
            if InRange(n) then
              && r.globals == g.(next := g.next.(degrees := n))
              && r.sent == Some(r.globals.next)
              && r.messages == [SetTemperature(n)]
            else
              r == Step(g, [TemperatureOutOfRange], None)
  {
    TrimTempNumeral(lead, n, trail);
    TempNumeralReads(n);
  }

  /** "temp " followed by text that is not a number (after white space and a
      sign) reads as 0, which the range check rejects. */
  lemma TempNonNumeric<X>(g: Globals<X>, lead: string, arg: string, trail: string)
    requires CanSend(g)
    requires AllSpace(lead) && AllSpace(trail)
    requires Trimmed("temp " + arg)
    requires NonNumeric(arg)
    ensures HandleSerialCommand(g, Some(lead + "temp " + arg + trail)) == Step(g, [TemperatureOutOfRange], None)
  {
    var t := "temp " + arg;
    assert Trim(lead + "temp " + arg + trail) == t by {
      assert lead + "temp " + arg + trail == lead + t + trail;
      TrimPadded(lead, t, trail);
    }
    assert Classify(t) == SetTemp(0) by {
      TempPrefixClassifies(arg);
      AtoLNonNumeric(arg);
    }
  }

  /** The "temp " prefix is case-sensitive: "TEMP 20" is an unknown command. */
  lemma UpperCaseTempIsUnknown<X>(g: Globals<X>)
    requires CanSend(g)
    ensures HandleSerialCommand(g, Some("TEMP 20")) == Step(g, [UnknownCommand], None)
  {
  }

  /** Trimming happens before the prefix test: "temp" with any trailing
      white space, the space of "temp " included, is an unknown command. */
  lemma BareTempIsUnknown<X>(g: Globals<X>, lead: string, trail: string)
    requires CanSend(g)
    requires AllSpace(lead) && AllSpace(trail)
    ensures HandleSerialCommand(g, Some(lead + "temp" + trail)) == Step(g, [UnknownCommand], None)
  {
    TrimPadded(lead, "temp", trail);
  }
}

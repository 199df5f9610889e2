/** The three operations of the Arduino `String` class that the command
    dispatcher uses: `trim`, `equalsIgnoreCase` and `startsWith`, with the
    C library's `isspace` and `tolower` in the "C" locale. A serial byte is
    modelled as one `char`. */
module ArduinoString {

  /** `isspace` in the "C" locale: space, tab, line feed, vertical tab,
      form feed and carriage return. */
  predicate IsSpace(c: char) {
    c == ' ' || c == '\t' || c == '\n' || c == '\U{0B}' || c == '\U{0C}' || c == '\r'
  }

  predicate AllSpace(s: string) {
    forall i :: 0 <= i < |s| ==> IsSpace(s[i])
  }

  /** A string with no white space at either end. */
  predicate Trimmed(s: string) {
    s == [] || (!IsSpace(s[0]) && !IsSpace(s[|s| - 1]))
  }

  /** `tolower` in the "C" locale: only 'A'..'Z' are changed. */
  function ToLower(c: char): (r: char)
    ensures 'A' <= c <= 'Z' ==> 'a' <= r <= 'z' && r as int - c as int == 32
    ensures !('A' <= c <= 'Z') ==> r == c
  {
    if 'A' <= c <= 'Z' then (c as int + 32) as char else c
  }

  /** The front pointer of `trim`: from index `i`, step over white space
      up to the first other character or the end. */
  function SkipSpace(s: string, i: nat): (k: nat)
    requires i <= |s|
    ensures i <= k <= |s|
    ensures forall j :: i <= j < k ==> IsSpace(s[j])
    ensures k < |s| ==> !IsSpace(s[k])
    decreases |s| - i
  {
    if i < |s| && IsSpace(s[i]) then SkipSpace(s, i + 1) else i
  }

  /** The back pointer of `trim`: from the end `j`, step down over white
      space but never below the front pointer `lo`. */
  function BackSpace(s: string, lo: nat, j: nat): (k: nat)
    requires lo <= j <= |s|
    ensures lo <= k <= j
    ensures forall m :: k <= m < j ==> IsSpace(s[m])
    ensures k > lo ==> !IsSpace(s[k - 1])
    decreases j
  {
    if j > lo && IsSpace(s[j - 1]) then BackSpace(s, lo, j - 1) else j
  }

  /** `String::trim`: the line without its leading and trailing white space.
      Everything cut off on either side is white space, and what is kept
      has none at either end. */
  function Trim(s: string): (r: string)
    ensures Trimmed(r)
    ensures |r| <= |s|
    ensures var b := SkipSpace(s, 0);
            && b + |r| <= |s| && r == s[b..b + |r|]
            && AllSpace(s[..b]) && AllSpace(s[b + |r|..])
  {
    var b := SkipSpace(s, 0);
    var e := BackSpace(s, b, |s|);
    s[b..e]
  }

  /** The front pointer stops at the first non-space character. */
  lemma SkipSpaceStops(s: string, i: nat, k: nat)
    requires i <= k <= |s|
    requires forall j :: i <= j < k ==> IsSpace(s[j])
    requires k < |s| ==> !IsSpace(s[k])
    ensures SkipSpace(s, i) == k
  {
  }

  /** The back pointer stops just after the last non-space character. */
  lemma BackSpaceStops(s: string, lo: nat, j: nat, k: nat)
    requires lo <= k <= j <= |s|
    requires forall m :: k <= m < j ==> IsSpace(s[m])
    requires k > lo ==> !IsSpace(s[k - 1])
    ensures BackSpace(s, lo, j) == k
  {
  }

  /** The trimmed form of a line is determined by its non-blank core:
      any white space padding on either side is removed and nothing else. */
  lemma TrimPadded(a: string, t: string, b: string)
    requires AllSpace(a) && AllSpace(b) && Trimmed(t)
    ensures Trim(a + t + b) == t
  {
    var s := a + t + b;
    if t == [] {
      SkipSpaceStops(s, 0, |s|);
      BackSpaceStops(s, |s|, |s|, |s|);
    } else {
      assert s[|a|] == t[0];
      SkipSpaceStops(s, 0, |a|);
      assert s[|a| + |t| - 1] == t[|t| - 1];
      BackSpaceStops(s, |a|, |s|, |a| + |t|);
      assert s[|a|..|a| + |t|] == t;
    }
  }

  /** Trimming twice is trimming once. */
  lemma TrimIdempotent(s: string)
    ensures Trim(Trim(s)) == Trim(s)
  {
    var t := Trim(s);
    assert [] + t + [] == t;
    TrimPadded([], t, []);
  }

  /** The comparison loop of `String::equalsIgnoreCase` from position `i`:
      it walks the receiver `a` as a C string, so it stops at the
      terminator and also at the first embedded NUL byte. */
  predicate FoldedMatchFrom(a: string, b: string, i: nat)
    requires |a| == |b| && i <= |a|
    decreases |a| - i
  {
    i == |a| || a[i] == '\0' || (ToLower(a[i]) == ToLower(b[i]) && FoldedMatchFrom(a, b, i + 1))
  }

  /** `String::equalsIgnoreCase`: equal lengths, then the folded comparison loop. */
  predicate EqualsIgnoreCase(a: string, b: string) {
    |a| == |b| && FoldedMatchFrom(a, b, 0)
  }

  predicate NulFree(s: string) {
    forall i :: 0 <= i < |s| ==> s[i] != '\0'
  }

  /** Case-insensitive equality as one would write it without C strings. */
  predicate SameIgnoringCase(a: string, b: string) {
    |a| == |b| && forall i :: 0 <= i < |a| ==> ToLower(a[i]) == ToLower(b[i])
  }

  lemma {:induction false} FoldedMatchFromNulFree(a: string, b: string, i: nat)
    requires |a| == |b| && i <= |a| && NulFree(a)
    ensures FoldedMatchFrom(a, b, i) <==> forall k :: i <= k < |a| ==> ToLower(a[k]) == ToLower(b[k])
    decreases |a| - i
  {
    if i < |a| {
      FoldedMatchFromNulFree(a, b, i + 1);
    }
  }

  /** On a line without NUL bytes, `equalsIgnoreCase` is plain
      case-insensitive equality. */
  lemma EqualsIgnoreCaseNulFree(a: string, b: string)
    requires NulFree(a)
    ensures EqualsIgnoreCase(a, b) <==> SameIgnoringCase(a, b)
  {
    if |a| == |b| {
      FoldedMatchFromNulFree(a, b, 0);
    }
  }

  /** A NUL byte cuts the comparison short: "o" followed by NUL matches "on". */
  lemma NulEndsComparison()
    ensures EqualsIgnoreCase("o\0", "on")
    ensures !SameIgnoringCase("o\0", "on")
  {
    assert ToLower("o\0"[1]) != ToLower("on"[1]);
  }

  /** `String::startsWith` (a `strncmp` over the prefix's length). */
  predicate StartsWith(s: string, prefix: string) {
    |prefix| <= |s| && s[..|prefix|] == prefix
  }
}

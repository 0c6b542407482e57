/** When a request parser that asks for more bytes can still be satisfied by what fits in the buffer. */
module Waiting {
  import opened CStrings
  import opened LineMachine
  import opened RequestHead

  lemma {:induction false} WaitsBeforeContent(s: string, c: Cursor<Head>)
    requires InStream(s, c) && c.parsed.state != CheckContent && Read(s, c).1.None?
    ensures Read(s, c).0.parsed.state != CheckContent
    decreases |s| - c.checked
  {
    hide HandleLine, ScanLine;
    match Turn(HandleLine, s, c)
    case Wait(_) =>
    case Stop(_, _) =>
    case Go(c') =>
      NoContentYet(c.parsed, s[c.start..ScanLine(s, c.checked).1]);
      WaitsBeforeContent(s, c');
  }

  lemma EmptyHeaderLine(h: Head)
    requires h.state != CheckRequestLine
    ensures HandleLine(h, "").1.Some?
  {}

  lemma LeavesRequestLine(h: Head, raw: string)
    requires HandleLine(h, raw).1.None?
    ensures HandleLine(h, raw).0.state != CheckRequestLine
  {
    hide CutNul, EqNoCase, EqNoCaseN, SkipTabs, ContentLength, ParseRequestLine;
  }

  /** When the bytes seen end where a line end may follow, `t` completes the line and adds an empty one. */
  lemma TwoLineEnds(s: string, c: Cursor<Head>, t: string)
    requires InStream(s, c) && c.parsed.state != CheckContent
    requires ScanLine(s, c.checked) == (LineOpen, c.checked)
    requires t == (if c.checked == |s| then "\r\n\r\n" else "\n\r\n")
    ensures Read(s + t, c).1.Some?
  {
    hide HandleLine, ScanLine, Turn;
    var all, k := s + t, c.checked;
    assert all[k] == CR && all[k + 1] == LF && all[k + 2] == CR && all[k + 3] == LF;
    TurnAtEnd(HandleLine, all, c);
    var (h, result) := HandleLine(c.parsed, all[c.start..k]);
    if result.None? {
      LeavesRequestLine(c.parsed, all[c.start..k]);
      EmptyHeaderLine(h);
      var next := Cursor(k + 2, k + 2, h);
      assert all[next.start..next.checked] == "";
      TurnAtEnd(HandleLine, all, next);
      assert Run(HandleLine, all, next).1.Some?;
      assert Turn(HandleLine, all, c) == Go(next);
    }
  }

  // ---------------------------------------------------------------- the bytes needed

  /** The fewest bytes that bring an outcome, when the scan stands where a line may end: the rest of the line end; if
      the line would be accepted, also an empty line - or one byte in front of the line end that spoils a version. */
  function Need(s: string, c: Cursor<Head>): nat
    requires InStream(s, c)
  {
    var e := if c.checked == |s| then 2 else 1;
    var raw := s[c.start..c.checked];
    if HandleLine(c.parsed, raw).1.Some? then e
    else if c.parsed.state == CheckRequestLine && c.checked == |s| && NUL !in raw then 3
    else e + 2
  }

  /** A line end takes two bytes. */
  lemma TooFewLeft(s: string, c: Cursor<Head>)
    requires InStream(s, c) && |s| < c.checked + 2
    ensures Read(s, c).1.None?
  {
    hide HandleLine, ScanLine;
  }

  /** A CR already there: its LF, and then nothing that is a line. */
  lemma ShortAfterCr(s: string, c: Cursor<Head>, t: string)
    requires InStream(s, c) && ScanLine(s, c.checked) == (LineOpen, c.checked) && c.checked < |s|
    requires |t| < Need(s, c)
    ensures Read(s + t, c).1.None?
  {
    hide HandleLine, ScanLine, Turn;
    var all, k := s + t, c.checked;
    assert all[k] == CR;
    ScanLineIs(all, k, k);
    if t != "" && t[0] == LF {
      assert all[k + 1] == LF && all[c.start..k] == s[c.start..k];
      TurnAtEnd(HandleLine, all, c);
      TooFewLeft(all, Cursor(k + 2, k + 2, HandleLine(c.parsed, s[c.start..k]).0));
    } else {
      NoLineEnd(all, c);
    }
  }

  lemma NoLineEnd(s: string, c: Cursor<Head>)
    requires InStream(s, c) && ScanLine(s, c.checked).0 != LineOk
    ensures Read(s, c).1.None?
  {
    hide HandleLine, ScanLine;
  }

  /** A byte more does not help a line whose C string it is not part of, nor a header line. */
  lemma OneByteMore(h: Head, raw: string, u: string)
    requires h.state != CheckContent && HandleLine(h, raw).1.None?
    requires h.state == CheckRequestLine ==> u == "" || NUL in raw
    ensures HandleLine(h, raw + u).1.None?
  {
    hide HandleLine;
    if u == "" {
      assert raw + u == raw;
    } else if h.state == CheckRequestLine {
      BehindNul(h, raw, u);
    } else {
      HeaderLineLonger(h, raw, u);
    }
  }

  lemma BehindNul(h: Head, raw: string, u: string)
    requires h.state == CheckRequestLine && NUL in raw
    ensures HandleLine(h, raw + u) == HandleLine(h, raw)
  {
    hide CutNul, RequestHead.ParseRequestLine, ParseHeader;
    CutNulPrefix(raw, raw + u);
  }

  /** A header line without an outcome does not begin with a NUL. */
  lemma HeaderLineLonger(h: Head, raw: string, u: string)
    requires h.state == CheckHeader && HandleLine(h, raw).1.None?
    ensures HandleLine(h, raw + u).1.None?
  {
    hide EqNoCase, EqNoCaseN, SkipTabs, ContentLength, RequestHead.ParseRequestLine;
    assert raw != "" && raw[0] != NUL;
    assert (raw + u)[0] == raw[0];
  }

  /** A turn on a line of which `u` is new. */
  lemma ShortTurn(s: string, c: Cursor<Head>, t: string, j: nat)
    requires InStream(s, c) && c.checked == |s| && c.parsed.state != CheckContent && |t| < Need(s, c)
    requires ScanLine(s + t, c.checked) == (LineOk, |s| + j) && j + 2 <= |t|
    ensures HandleLine(c.parsed, s[c.start..] + t[..j]).1.None? && |t| < j + 4
  {
    hide HandleLine, ScanLine;
    assert s[c.start..c.checked] == s[c.start..];
    OneByteMore(c.parsed, s[c.start..], t[..j]);
  }

  lemma ShortAtEnd(s: string, c: Cursor<Head>, t: string)
    requires InStream(s, c) && c.checked == |s| && c.parsed.state != CheckContent && |t| < Need(s, c)
    ensures Read(s + t, c).1.None?
  {
    hide HandleLine, ScanLine, Turn, Need;
    var all := s + t;
    var (status, k) := ScanLine(all, c.checked);
    if status == LineOk {
      var j := k - |s|;
      ShortTurn(s, c, t, j);
      var raw := s[c.start..] + t[..j];
      assert all[c.start..k] == raw;
      TurnIs(all, c);
      TooFewLeft(all, Cursor(k + 2, k + 2, HandleLine(c.parsed, raw).0));
    } else {
      NoLineEnd(all, c);
    }
  }

  lemma TurnIs(s: string, c: Cursor<Head>)
    requires InStream(s, c) && ScanLine(s, c.checked).0 == LineOk
    ensures var k := ScanLine(s, c.checked).1; var (h, result) := HandleLine(c.parsed, s[c.start..k]);
      result.None? ==> Turn(HandleLine, s, c) == Go(Cursor(k + 2, k + 2, h))
  {
    hide HandleLine, ScanLine;
  }

  // ---------------------------------------------------------------- and that they suffice

  /** A request line that would be accepted is spoiled by one more byte. */
  lemma SpoiledVersion(h: Head, raw: string)
    requires h.state == CheckRequestLine && NUL !in raw && HandleLine(h, raw).1.None?
    ensures HandleLine(h, raw + "x").1.Some?
  {
    hide CutNul, FindBlank, Tabs, EqNoCase, ParseTarget, MethodOf, RequestHead.ParseRequestLine;
    CutNulIs(raw, raw);
    CutNulIs(raw + "x", raw + "x");
    var w, b1, tabs1, u, b2, tabs2, v := ParsedIsShaped(raw);
    SameLength(v, "HTTP/1.1");
    var t := w + ([b1] + (tabs1 + (u + ([b2] + (tabs2 + (v + "x"))))));
    assert raw + "x" == t;
    ShapedIsParsed(t, w, b1, tabs1, u, b2, tabs2, v + "x");
    if EqNoCase(v + "x", "HTTP/1.1") { SameLength(v + "x", "HTTP/1.1"); }
  }

  /** The rest of a line end, with one byte in front of it or none. */
  lemma LineEnds(s: string, c: Cursor<Head>, u: string, t: string)
    requires InStream(s, c) && ScanLine(s, c.checked) == (LineOpen, c.checked) && PlainLine(u)
    requires t == if c.checked == |s| then u + "\r\n" else "\n"
    requires HandleLine(c.parsed, s[c.start..c.checked] + if c.checked == |s| then u else "").1.Some?
    ensures Read(s + t, c).1.Some?
  {
    hide HandleLine, ScanLine;
    var all := s + t;
    var k := c.checked + if c.checked == |s| then |u| else 0;
    assert all[k] == CR && all[k + 1] == LF;
    assert forall i :: c.checked <= i < k ==> all[i] == u[i - |s|];
    ScanLineIs(all, c.checked, k);
    assert all[c.start..k] == s[c.start..c.checked] + if c.checked == |s| then u else "";
  }

  /** The bytes needed. */
  lemma Enough(s: string, c: Cursor<Head>) returns (t: string)
    requires InStream(s, c) && c.parsed.state != CheckContent && ScanLine(s, c.checked) == (LineOpen, c.checked)
    ensures |t| == Need(s, c) && Read(s + t, c).1.Some?
  {
    hide HandleLine, ScanLine;
    var raw := s[c.start..c.checked];
    if HandleLine(c.parsed, raw).1.Some? {
      t := if c.checked == |s| then "" + "\r\n" else "\n";
      assert raw + "" == raw;
      LineEnds(s, c, "", t);
    } else if c.parsed.state == CheckRequestLine && c.checked == |s| && NUL !in raw {
      t := "x" + "\r\n";
      SpoiledVersion(c.parsed, raw);
      LineEnds(s, c, "x", t);
    } else {
      t := if c.checked == |s| then "\r\n\r\n" else "\n\r\n";
      TwoLineEnds(s, c, t);
    }
  }

  // ---------------------------------------------------------------- the theorem

  /** A parser that asks for more bytes can get no outcome from what fits in `n` bytes exactly when it stands at a bad
      line end or fewer bytes than it needs fit. */
  lemma StuckIff(s: string, c: Cursor<Head>, n: nat)
    requires InStream(s, c) && c.parsed.state != CheckContent && Read(s, c) == (c, None) && |s| <= n
    ensures (forall t :: |s + t| <= n ==> Read(s + t, c).1.None?) <==>
      ScanLine(s, c.checked).0 == LineBad || |s| + Need(s, c) > n
  {
    hide HandleLine, ScanLine, Need;
    if ScanLine(s, c.checked).0 == LineBad {
      forall t ensures Read(s + t, c).1.None? { ScanLineGrows(s, t, c.checked); NoLineEnd(s + t, c); }
    } else if |s| + Need(s, c) > n {
      forall t | |s + t| <= n ensures Read(s + t, c).1.None? {
        if c.checked == |s| { ShortAtEnd(s, c, t); } else { ShortAfterCr(s, c, t); }
      }
    } else {
      var t := Enough(s, c);
      assert |s + t| <= n && Read(s + t, c).1.Some?;
    }
  }

  /** Whatever a connection has sent, in any pieces, that leaves its parser asking for more: nothing that still fits in
      the read buffer brings an outcome exactly when it stands at a bad line end or there is too little room. */
  lemma HopelessIff(text: string)
    requires |text| <= READ_BUFFER_SIZE && ReadAll(text).1.None?
    ensures var c := ReadAll(text).0;
      (forall t :: |text + t| <= READ_BUFFER_SIZE ==> ReadAll(text + t).1.None?) <==>
        ScanLine(text, c.checked).0 == LineBad || |text| + Need(text, c) > READ_BUFFER_SIZE
  {
    hide HandleLine, ScanLine, Run, Need;
    WaitsBeforeContent(text, INITIAL);
    RunSettles(HandleLine, text, INITIAL);
    var c := ReadAll(text).0;
    forall t ensures ReadAll(text + t) == Read(text + t, c) { RunGrows(HandleLine, text, t, INITIAL); }
    StuckIff(text, c, READ_BUFFER_SIZE);
  }

  /** 2047 bytes without a line end: good so far, and past hope. */
  lemma LongLine(text: string)
    requires |text| == READ_BUFFER_SIZE - 1 && PlainLine(text)
    ensures ReadAll(text) == (Cursor(0, |text|, INITIAL.parsed), None) && ScanLine(text, |text|).0 == LineOpen
    ensures forall t :: |text + t| <= READ_BUFFER_SIZE ==> ReadAll(text + t).1.None?
  {
    hide HandleLine, ScanLine;
    ScanLineIs(text, 0, |text|);
    HopelessIff(text);
  }
}

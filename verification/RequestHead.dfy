/** The request head parser as a function of the bytes received, none of which it edits.
    HttpConn.dfy proves that the class working in place on the read buffer computes it. */
module RequestHead {
  import opened CStrings
  import opened LineMachine

  datatype Method = Get | Post
  datatype CheckState = CheckRequestLine | CheckHeader | CheckContent

  /** What ends the reading of a head. NullTarget: strncasecmp is handed the null pointer strchr returned.
      Body: the head is complete and announces a body, so CHECK_STATE_CONTENT is entered.
      GetRequest: do_request is called. */
  datatype Final = BadRequest | NullTarget | Body | GetRequest

  /** The fields parsing fills in; `url` and `host` are the strings the pointers designate. */
  datatype Head = Head(state: CheckState, verb: Method, url: Option<string>, host: Option<string>,
                       linger: bool, contentLength: int)

  const READ_BUFFER_SIZE: nat := 2048

  /** The state init() leaves. */
  const INITIAL: Cursor<Head> := Cursor(0, 0, Head(CheckRequestLine, Get, None, None, false, 0))

  // ---------------------------------------------------------------- request line

  /** The suffix of `u` from its first '/'; None is strchr's null. */
  function FromSlash(u: string): Option<string> {
    var k := FindChar(u, '/');
    if k < |u| then Some(u[k..]) else None
  }

  datatype LineResult = BadLine | NullLine | Target(verb: Method, url: string)

  /** The target without a scheme and authority, when it begins with `scheme`. */
  function AfterAuthority(u: string, scheme: string): Option<string> {
    if EqNoCaseN(u, scheme, |scheme|) then FromSlash(u[|scheme|..]) else Some(u)
  }

  /** The request target, once the version is known to be good. */
  function ParseTarget(verb: Method, u: string): LineResult {
    match AfterAuthority(u, "http://")
    case None => NullLine
    case Some(v) =>
      match AfterAuthority(v, "https://")
      case None => BadLine
      case Some(w) =>
        if w == "" || w[0] != '/' then BadLine
        else Target(verb, if |w| == 1 then w + "judge.html" else w)
  }

  function MethodOf(s: string): Option<Method> {
    if EqNoCase(s, "GET") then Some(Get) else if EqNoCase(s, "POST") then Some(Post) else None
  }

  function SkipTabs(s: string): string { s[Tabs(s)..] }

  function ParseAfterMethod(verb: Method, s: string): LineResult {
    var u := SkipTabs(s);
    var n := FindBlank(u);
    if n == |u| || !EqNoCase(SkipTabs(u[n + 1..]), "HTTP/1.1") then BadLine
    else ParseTarget(verb, u[..n])
  }

  /** parse_request_line on the C string `t`. */
  function ParseRequestLine(t: string): LineResult {
    var k := FindBlank(t);
    if k == |t| then BadLine
    else
      match MethodOf(t[..k])
      case None => BadLine
      case Some(verb) => ParseAfterMethod(verb, t[k + 1..])
  }

  // ---------------------------------------------------------------- header lines

  /** parse_headers on the line `raw`, up to its CR. A field name is compared with the C string;
      the 15 bytes skipped after Content-Length may take `text` past a NUL. */
  function ParseHeader(h: Head, raw: string): (Head, Option<Final>) {
    var t := CutNul(raw);
    if t == "" then
      if h.contentLength != 0 then (h.(state := CheckContent), Some(Body)) else (h, Some(GetRequest))
    else if EqNoCaseN(t, "Connection:", 11) then
      (h.(linger := h.linger || EqNoCase(SkipTabs(t[11..]), "keep-alive")), None)
    else if EqNoCaseN(t, "Content-Length", 15) then
      (h.(contentLength := ContentLength(raw)), None)
    else if EqNoCaseN(t, "Host:", 5) then
      (h.(host := Some(SkipTabs(t[5..]))), None)
    else (h, None)
  }

  function ContentLength(raw: string): int {
    ToInt32(Atol(SkipTabs(CutNul(if |raw| < 15 then "" else raw[15..]))))
  }

  // ---------------------------------------------------------------- the whole head

  /** One line in the state the main state machine is in. */
  function HandleLine(h: Head, raw: string): (Head, Option<Final>) {
    if h.state == CheckRequestLine then
      match ParseRequestLine(CutNul(raw))
      case BadLine => (h, Some(BadRequest))
      case NullLine => (h, Some(NullTarget))
      case Target(verb, url) => (h.(state := CheckHeader, verb := verb, url := Some(url)), None)
    else ParseHeader(h, raw)
  }

  /** process_read with the bytes `s` received so far. */
  function Read(s: string, c: Cursor<Head>): (r: (Cursor<Head>, Option<Final>))
    requires InStream(s, c)
    ensures InStream(s, r.0) && c.checked <= r.0.checked
  {
    Run(HandleLine, s, c)
  }

  /** process_read with the whole text there, and after each chunk of it until the first outcome. */
  function ReadAll(text: string): (Cursor<Head>, Option<Final>) { Read(text, INITIAL) }

  function ReadChunks(chunks: seq<string>): (Cursor<Head>, Option<Final>) { Feed(HandleLine, "", INITIAL, chunks) }

  /** Feeding the pieces of a request gives what feeding it whole gives: the first outcome, the target,
      the host, the linger flag, the state and the cursors. */
  lemma ReadInPieces(chunks: seq<string>)
    ensures ReadChunks(chunks) == ReadAll(Flatten(chunks))
  {
    LineMachine.ChunkIndependence(HandleLine, "", INITIAL, chunks);
    assert "" + Flatten(chunks) == Flatten(chunks);
  }

  /** Without NULs the 15-byte comparison accepts the bare name "Content-Length" only, which is worth 0. */
  lemma NulFreeLength(raw: string)
    requires NUL !in raw && EqNoCaseN(CutNul(raw), "Content-Length", 15)
    ensures ContentLength(raw) == 0
  {
    hide CutNul, Atol, ToInt32, SkipTabs;
    CutNulIs(raw, raw);
    assert |raw| == 14;
    NoLength();
  }

  lemma NoLength()
    ensures ToInt32(Atol(SkipTabs(CutNul("")))) == 0
  {}

  lemma PrefixFits(t: string, prefix: string)
    requires EqNoCaseN(t, prefix, |prefix|)
    ensures |t| >= |prefix|
  {}

  predicate NoBodyState(h: Head) { h.contentLength == 0 && h.state != CheckContent }

  lemma NulFreeLine(h: Head, raw: string)
    requires NUL !in raw && NoBodyState(h)
    ensures NoBodyState(HandleLine(h, raw).0) && HandleLine(h, raw).1 != Some(Body)
  {
    hide ContentLength, ParseRequestLine, EqNoCaseN, EqNoCase, SkipTabs, CutNul;
    if EqNoCaseN(CutNul(raw), "Content-Length", 15) { NulFreeLength(raw); }
    if EqNoCaseN(CutNul(raw), "Connection:", 11) { PrefixFits(CutNul(raw), "Connection:"); }
    if EqNoCaseN(CutNul(raw), "Host:", 5) { PrefixFits(CutNul(raw), "Host:"); }
  }

  /** On NUL-free bytes the recorded content length stays 0, so the CONTENT state is never entered. */
  lemma NoBodyWithoutNul(s: string, c: Cursor<Head>)
    requires InStream(s, c) && NUL !in s && NoBodyState(c.parsed)
    ensures NoBodyState(Read(s, c).0.parsed) && Read(s, c).1 != Some(Body)
  {
    forall p, i, j | 0 <= i <= j <= |s| && NoBodyState(p)
      ensures var (p', result) := HandleLine(p, s[i..j]); NoBodyState(p') && (result.Some? ==> result.value != Body)
    {
      NulFreeLine(p, s[i..j]);
    }
    RunKeeps(HandleLine, s, c, NoBodyState, r => r != Body);
  }

  /** Once a request line is accepted, the target begins with a slash. */
  predicate SlashFirst(h: Head) {
    h.state != CheckRequestLine ==> h.url.Some? && h.url.value != "" && h.url.value[0] == '/'
  }

  lemma LineKeepsSlash(h: Head, raw: string)
    requires SlashFirst(h)
    ensures SlashFirst(HandleLine(h, raw).0)
  {
    hide CutNul, EqNoCase, EqNoCaseN, SkipTabs, ContentLength, FindBlank, AfterAuthority;
  }

  lemma TargetHasSlash(s: string, c: Cursor<Head>)
    requires InStream(s, c) && SlashFirst(c.parsed)
    ensures SlashFirst(Read(s, c).0.parsed)
  {
    forall p, i, j | 0 <= i <= j <= |s| && SlashFirst(p) ensures SlashFirst(HandleLine(p, s[i..j]).0) {
      LineKeepsSlash(p, s[i..j]);
    }
    hide HandleLine;
    RunKeeps(HandleLine, s, c, SlashFirst, r => true);
  }

  lemma RequestInHeader(h: Head, raw: string)
    requires h.state != CheckContent
    ensures HandleLine(h, raw).1 == Some(GetRequest) ==> HandleLine(h, raw).0.state == CheckHeader
    ensures HandleLine(h, raw).1.None? ==> HandleLine(h, raw).0.state != CheckContent
  {
    hide CutNul, EqNoCase, EqNoCaseN, SkipTabs, ContentLength, ParseRequestLine;
  }

  /** do_request is called in the state of the header lines. */
  lemma {:induction false} GetRequestInHeader(s: string, c: Cursor<Head>)
    requires InStream(s, c) && c.parsed.state != CheckContent && Read(s, c).1 == Some(GetRequest)
    ensures Read(s, c).0.parsed.state == CheckHeader
    decreases |s| - c.checked
  {
    hide HandleLine, ScanLine;
    RequestInHeader(c.parsed, s[c.start..ScanLine(s, c.checked).1]);
    match Turn(HandleLine, s, c)
    case Wait(_) =>
    case Stop(_, _) =>
    case Go(c') => GetRequestInHeader(s, c');
  }

  /** Which line announces a length: its C string is the bare name, so the digits stand behind a NUL. */
  lemma LengthIff(h: Head, raw: string)
    requires h.state == CheckHeader && NoBodyState(h)
    ensures HandleLine(h, raw).0.contentLength != 0 <==> EqNoCase(CutNul(raw), "Content-Length") && ContentLength(raw) != 0
  {
    hide CutNul, ContentLength;
    var t := CutNul(raw);
    if EqNoCase(t, "Content-Length") {
      assert Take(t, 15) == t && Take("Content-Length", 15) == "Content-Length";
      assert Lower(t[3]) == 't' && Lower(t[0]) == 'c';
      assert Take(t, 11)[3] == t[3] && Take("Connection:", 11)[3] == 'n';
    }
    if EqNoCaseN(t, "Content-Length", 15) {
      assert |Take("Content-Length", 15)| == 14;
      assert Take(t, 15) == t;
    }
    hide SkipTabs;
  }

  /** Which line makes Body the outcome. */
  lemma BodyIff(h: Head, raw: string)
    ensures HandleLine(h, raw).1 == Some(Body) <==>
      h.state != CheckRequestLine && h.contentLength != 0 && (raw == "" || raw[0] == NUL)
  {
    hide EqNoCase, EqNoCaseN, SkipTabs, ContentLength, ParseRequestLine;
  }

  lemma LengthBehindNul(h: Head)
    requires h.state == CheckHeader
    ensures HandleLine(h, "Content-Length" + ([NUL] + "5")) == (h.(contentLength := 5), None)
  {
    hide CutNul;
    var name := "Content-Length";
    var raw := name + ([NUL] + "5");
    CutNulIs(raw, name);
    assert raw[15..] == "5";
    CutNulIs("5", "5");
    assert Take(name, 11)[3] == 't' && Take("Connection:", 11)[3] == 'n';
    assert Take(name, 15) == name == Take("Content-Length", 15);
  }

  lemma RootRequest()
    ensures HandleLine(INITIAL.parsed, "GET / HTTP/1.1") ==
      (Head(CheckHeader, Get, Some("/judge.html"), None, false, 0), None)
  {
    hide CutNul, FindBlank, Tabs, ParseTarget, EqNoCase, MethodOf, ParseRequestLine;
    var line := "GET / HTTP/1.1";
    CutNulIs(line, line);
    assert line == "GET" + ([' '] + ("" + ("/" + ([' '] + ("" + "HTTP/1.1")))));
    GetRoot();
    ShapedIsParsed(line, "GET", ' ', "", "/", ' ', "", "HTTP/1.1");
  }

  lemma GetRoot()
    ensures MethodOf("GET") == Some(Get) && EqNoCase("HTTP/1.1", "HTTP/1.1")
    ensures ParseTarget(Get, "/") == Target(Get, "/judge.html")
  {
    assert Take("/", 7)[0] == '/' && Take("/", 8)[0] == '/';
    assert Take("http://", 7)[0] == 'h' && Take("https://", 8)[0] == 'h';
    assert "/" + "judge.html" == "/judge.html";
  }

  /** A request with a NUL in it that makes the server wait for a body of 5 bytes. */
  lemma BodyReached()
    ensures var text := Lines(["GET / HTTP/1.1"] + (["Content-Length" + ([NUL] + "5")] + ([""] + [])));
      ReadAll(text).1 == Some(Body) && ReadAll(text).0.parsed.contentLength == 5
  {
    hide HandleLine, Lines, Run;
    var l0, l1, l2 := "GET / HTTP/1.1", "Content-Length" + ([NUL] + "5"), "";
    var h := HandleLine(INITIAL.parsed, l0).0;
    var end := [l2] + [];
    var rest := [l1] + end;
    RunOfLines(HandleLine, "", INITIAL.parsed, [l0] + rest);
    assert "" + Lines([l0] + rest) == Lines([l0] + rest);
    RootRequest();
    LengthBehindNul(h);
    EmptyKeeps(h.(contentLength := 5));
    assert ([l0] + rest)[1..] == rest && rest[1..] == end;
    var at := |l0| + 2;
    var last := Fold(HandleLine, at + |l1| + 2, h.(contentLength := 5), end);
    assert last.1 == Some(Body) && last.0.parsed.contentLength == 5;
    assert Fold(HandleLine, at, h, rest) == last;
    assert Fold(HandleLine, 0, INITIAL.parsed, [l0] + rest) == last;
  }

  lemma EmptyKeeps(h: Head)
    requires h.state == CheckHeader && h.contentLength != 0
    ensures HandleLine(h, "") == (h.(state := CheckContent), Some(Body))
  {}

  /** Until there is an outcome, the CONTENT state is not entered. */
  lemma NoContentYet(h: Head, raw: string)
    requires h.state != CheckContent && HandleLine(h, raw).1.None?
    ensures HandleLine(h, raw).0.state != CheckContent
  {
    hide CutNul, EqNoCase, EqNoCaseN, SkipTabs, ContentLength, ParseRequestLine;
  }

  // ---------------------------------------------------------------- what request lines are accepted

  /** A request line the parser takes apart: method, target and version, one blank and then any tabs in between. */
  ghost predicate Shaped(t: string, w: string, b1: char, tabs1: string, u: string, b2: char, tabs2: string, v: string) {
    && t == w + ([b1] + (tabs1 + (u + ([b2] + (tabs2 + v)))))
    && Blank(b1) && Blank(b2) && (u == "" ==> b2 == ' ')
    && (forall i :: 0 <= i < |tabs1| ==> tabs1[i] == '\t')
    && (forall i :: 0 <= i < |tabs2| ==> tabs2[i] == '\t')
    && (forall i :: 0 <= i < |w| ==> !Blank(w[i]))
    && (forall i :: 0 <= i < |u| ==> !Blank(u[i]))
    && (v != "" ==> v[0] != '\t')
  }

  lemma {:induction false} TabsIs(tabs: string, u: string)
    requires forall i :: 0 <= i < |tabs| ==> tabs[i] == '\t'
    requires u != "" ==> u[0] != '\t'
    ensures Tabs(tabs + u) == |tabs| && SkipTabs(tabs + u) == u
  {
    if tabs == "" {
      assert tabs + u == u;
    } else {
      assert (tabs + u)[1..] == tabs[1..] + u;
      TabsIs(tabs[1..], u);
    }
  }

  /** Cutting the first field off a string, and putting it back. */
  lemma CutField(w: string, b: char, tabs: string, rest: string)
    requires Blank(b) && forall i :: 0 <= i < |w| ==> !Blank(w[i])
    requires forall i :: 0 <= i < |tabs| ==> tabs[i] == '\t'
    requires rest != "" ==> rest[0] != '\t'
    ensures var t := w + ([b] + (tabs + rest));
      FindBlank(t) == |w| < |t| && t[..|w|] == w && SkipTabs(t[|w| + 1..]) == rest
  {
    var t := w + ([b] + (tabs + rest));
    assert t[|w|] == b && t[|w| + 1..] == tabs + rest;
    FindBlankIs(t, |w|);
    TabsIs(tabs, rest);
  }

  lemma FourSlices(t: string, k: nat, r: string, j: nat)
    requires k < |t| && r == t[k + 1..] && j <= |r|
    ensures t == t[..k] + ([t[k]] + (r[..j] + r[j..]))
  {}

  lemma UncutField(t: string) returns (w: string, b: char, tabs: string, rest: string)
    requires FindBlank(t) < |t|
    ensures t == w + ([b] + (tabs + rest))
    ensures w == t[..FindBlank(t)] && rest == SkipTabs(t[FindBlank(t) + 1..])
    ensures Blank(b) && forall i :: 0 <= i < |w| ==> !Blank(w[i])
    ensures forall i :: 0 <= i < |tabs| ==> tabs[i] == '\t'
    ensures rest != "" ==> rest[0] != '\t'
    ensures w == "" ==> t[0] == b
  {
    var k := FindBlank(t);
    var r := t[k + 1..];
    var j := Tabs(r);
    w, b, tabs, rest := t[..k], t[k], r[..j], r[j..];
    FourSlices(t, k, r, j);
  }

  lemma ShapedIsParsed(t: string, w: string, b1: char, tabs1: string, u: string, b2: char, tabs2: string, v: string)
    requires Shaped(t, w, b1, tabs1, u, b2, tabs2, v)
    ensures ParseRequestLine(t) ==
      if MethodOf(w).Some? && EqNoCase(v, "HTTP/1.1") then ParseTarget(MethodOf(w).value, u) else BadLine
  {
    hide FindBlank, SkipTabs, EqNoCase, MethodOf, ParseTarget;
    CutField(w, b1, tabs1, u + ([b2] + (tabs2 + v)));
    CutField(u, b2, tabs2, v);
  }

  lemma ParsedIsShaped(t: string)
    returns (w: string, b1: char, tabs1: string, u: string, b2: char, tabs2: string, v: string)
    requires ParseRequestLine(t) != BadLine
    ensures Shaped(t, w, b1, tabs1, u, b2, tabs2, v) && MethodOf(w).Some? && EqNoCase(v, "HTTP/1.1")
    ensures ParseRequestLine(t) == ParseTarget(MethodOf(w).value, u)
  {
    hide FindBlank, SkipTabs, EqNoCase, MethodOf, ParseTarget;
    var rest;
    w, b1, tabs1, rest := UncutField(t);
    u, b2, tabs2, v := UncutField(rest);
  }

  function Word(verb: Method): string { if verb == Get then "GET" else "POST" }

  lemma MethodIff(w: string, verb: Method)
    ensures MethodOf(w) == Some(verb) <==> EqNoCase(w, Word(verb))
  {}

  /** Exactly the lines accepted, and the target found in them. */
  lemma AcceptedLines(t: string, verb: Method, url: string)
    ensures ParseRequestLine(t) == Target(verb, url) <==>
      exists w, b1, tabs1, u, b2, tabs2, v :: Shaped(t, w, b1, tabs1, u, b2, tabs2, v)
        && EqNoCase(w, Word(verb)) && EqNoCase(v, "HTTP/1.1") && ParseTarget(verb, u) == Target(verb, url)
  {
    hide ParseRequestLine, Shaped, EqNoCase, MethodOf, ParseTarget;
    if ParseRequestLine(t) == Target(verb, url) {
      var w, b1, tabs1, u, b2, tabs2, v := ParsedIsShaped(t);
      TargetVerb(MethodOf(w).value, u);
      MethodIff(w, verb);
    }
    forall w, b1, tabs1, u, b2, tabs2, v | Shaped(t, w, b1, tabs1, u, b2, tabs2, v)
        && EqNoCase(w, Word(verb)) && EqNoCase(v, "HTTP/1.1") && ParseTarget(verb, u) == Target(verb, url)
      ensures ParseRequestLine(t) == Target(verb, url)
    {
      MethodIff(w, verb);
      ShapedIsParsed(t, w, b1, tabs1, u, b2, tabs2, v);
    }
  }

  lemma TargetVerb(verb: Method, u: string)
    ensures ParseTarget(verb, u).Target? ==> ParseTarget(verb, u).verb == verb
  {}

  // ---------------------------------------------------------------- where the parser departs from RFC 7230

  /** strchr's null is passed on exactly for http targets without a slash behind the authority. */
  lemma NullTargetIff(verb: Method, u: string)
    ensures ParseTarget(verb, u) == NullLine <==> EqNoCaseN(u, "http://", 7) && '/' !in u[7..]
  {
    hide EqNoCaseN;
    if EqNoCaseN(u, "http://", 7) {
      PrefixFits(u, "http://");
      assert u[7..][..|u[7..]|] == u[7..];
    }
  }

  /** The outcome of a first line: a null pointer is passed on exactly for the lines that would be accepted but for an
      http target without a slash; other lines that are not accepted are bad requests. */
  lemma FirstLineOutcome(h: Head, raw: string)
    requires h.state == CheckRequestLine
    ensures HandleLine(h, raw).1 == Some(NullTarget) <==> NullLineShape(CutNul(raw))
    ensures HandleLine(h, raw).1 == Some(BadRequest) <==>
      !NullLineShape(CutNul(raw)) && forall verb, url :: ParseRequestLine(CutNul(raw)) != Target(verb, url)
    ensures HandleLine(h, raw).1 in [None, Some(NullTarget), Some(BadRequest)]
  {
    hide CutNul, ParseRequestLine, NullLineShape;
    var t := CutNul(raw);
    NullLineIff(t);
    if ParseRequestLine(t).Target? {
      assert ParseRequestLine(t) == Target(ParseRequestLine(t).verb, ParseRequestLine(t).url);
    }
  }

  ghost predicate NullLineShape(t: string) {
    exists w, b1, tabs1, u, b2, tabs2, v :: Shaped(t, w, b1, tabs1, u, b2, tabs2, v)
      && (EqNoCase(w, "GET") || EqNoCase(w, "POST")) && EqNoCase(v, "HTTP/1.1")
      && SlashlessHttp(u)
  }

  predicate SlashlessHttp(u: string) { EqNoCaseN(u, "http://", 7) && '/' !in u[7..] }

  lemma NullLineIff(t: string)
    ensures ParseRequestLine(t) == NullLine <==> NullLineShape(t)
  {
    hide ParseRequestLine, ParseTarget, Shaped, EqNoCase, EqNoCaseN;
    if ParseRequestLine(t) == NullLine {
      var w, b1, tabs1, u, b2, tabs2, v := ParsedIsShaped(t);
      NullTargetIff(MethodOf(w).value, u);
    }
    forall w, b1, tabs1, u, b2, tabs2, v | Shaped(t, w, b1, tabs1, u, b2, tabs2, v)
        && (EqNoCase(w, "GET") || EqNoCase(w, "POST")) && EqNoCase(v, "HTTP/1.1")
        && SlashlessHttp(u)
      ensures ParseRequestLine(t) == NullLine
    {
      ShapedIsParsed(t, w, b1, tabs1, u, b2, tabs2, v);
      NullTargetIff(MethodOf(w).value, u);
    }
  }

  /** A field name in any case. */
  lemma SameName(name: string, other: string, rest: string)
    requires EqNoCase(name, other)
    ensures EqNoCaseN(name + rest, other, |other|) && (name + rest)[|other|..] == rest
  {
    assert Take(name + rest, |other|) == name && Take(other, |other|) == other;
  }

  lemma ConnectionField(h: Head, name: string, value: string)
    requires h.state == CheckHeader && EqNoCase(name, "Connection:") && NUL !in name + value
    ensures HandleLine(h, name + value) == (h.(linger := h.linger || EqNoCase(SkipTabs(value), "keep-alive")), None)
  {
    hide CutNul, SkipTabs, EqNoCase, EqNoCaseN;
    var line := name + value;
    CutNulIs(line, line);
    SameName(name, "Connection:", value);
    SameLength(name, "Connection:");
  }

  lemma SameLength(a: string, b: string)
    requires EqNoCase(a, b)
    ensures |a| == |b|
  {}

  /** Section 3.2 of RFC 7230 allows white space in front of the value, but only tabs are skipped. */
  lemma SpaceBeforeKeepAlive(h: Head)
    requires h.state == CheckHeader
    ensures HandleLine(h, "Connection:" + "keep-alive") == (h.(linger := true), None)
    ensures HandleLine(h, "Connection:" + " keep-alive") == (h, None)
  {
    ConnectionField(h, "Connection:", "keep-alive");
    ConnectionField(h, "Connection:", " keep-alive");
    hide HandleLine;
  }

  /** The host is what stands behind the name, in any case, and any tabs. */
  lemma HostValue(h: Head, name: string, tabs: string, value: string)
    requires h.state == CheckHeader && EqNoCase(name, "Host:") && NUL !in name + (tabs + value)
    requires (forall i :: 0 <= i < |tabs| ==> tabs[i] == '\t') && (value != "" ==> value[0] != '\t')
    ensures HandleLine(h, name + (tabs + value)) == (h.(host := Some(value)), None)
  {
    hide CutNul, Tabs, EqNoCaseN, ContentLength;
    var line := name + (tabs + value);
    CutNulIs(line, line);
    SameLength(name, "Host:");
    SameName(name, "Host:", tabs + value);
    TabsIs(tabs, value);
    assert Lower(line[0]) == Lower(name[0]) == 'h';
    OtherFirstLetter(line, "Connection:", 11);
    OtherFirstLetter(line, "Content-Length", 15);
  }

  lemma OtherFirstLetter(line: string, name: string, n: nat)
    requires line != "" && name != "" && n > 0 && Lower(line[0]) != Lower(name[0])
    ensures !EqNoCaseN(line, name, n)
  {
    assert Take(line, n)[0] == line[0] && Take(name, n)[0] == name[0];
  }

  /** The length a client announces is not read. */
  lemma LengthIsIgnored(h: Head, name: string, value: string)
    requires h.state == CheckHeader && EqNoCase(name, "Content-Length:") && NUL !in name + value
    ensures HandleLine(h, name + value) == (h, None)
  {
    hide CutNul;
    var line := name + value;
    CutNulIs(line, line);
    assert |Take(line, 15)| == 15 && |Take("Content-Length", 15)| == 14;
    assert Lower(name[3]) == 't' && Lower(name[0]) == 'c';
    assert Take(line, 11)[3] == name[3] && Take("Connection:", 11)[3] == 'n';
    assert Take(line, 5)[0] == name[0] && Take("Host:", 5)[0] == 'H';
  }
}

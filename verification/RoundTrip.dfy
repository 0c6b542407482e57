/** What webbench prints, the server reads back. */
module RoundTrip {
  import opened CStrings
  import opened LineMachine
  import opened RequestHead
  import opened WebBench

  predicate NoBlanks(s: string) { forall i :: 0 <= i < |s| ==> !Blank(s[i]) }

  /** The page a path asks for. */
  function Page(path: string): string { if path == "/" then "/judge.html" else path }

  // ---------------------------------------------------------------- the request line

  /** A request line with one space between its parts. */
  lemma SpacedLine(w: string, verb: Method, u: string)
    requires MethodOf(w) == Some(verb) && NoBlanks(w) && u != "" && !Blank(u[0])
    ensures ParseRequestLine(w + ([' '] + ("" + (u + ([' '] + ("" + "HTTP/1.1")))))) ==
      if NoBlanks(u) then ParseTarget(verb, u) else BadLine
  {
    hide EqNoCase, ParseTarget, MethodOf;
    if NoBlanks(u) {
      SameVersion();
      ShapedIsParsed(w + ([' '] + ("" + (u + ([' '] + ("" + "HTTP/1.1"))))), w, ' ', "", u, ' ', "", "HTTP/1.1");
    } else {
      BlankInTarget(w, u);
    }
  }

  lemma SameVersion()
    ensures EqNoCase("HTTP/1.1", "HTTP/1.1")
  {}

  lemma GetLine(u: string)
    requires u != "" && !Blank(u[0])
    ensures ParseRequestLine("GET" + ([' '] + ("" + (u + ([' '] + ("" + "HTTP/1.1")))))) ==
      if NoBlanks(u) then ParseTarget(Get, u) else BadLine
  {
    hide ParseRequestLine, ParseTarget;
    SpacedLine("GET", Get, u);
  }

  /** The forms of the pages are posted. */
  lemma PostLine(u: string)
    requires u != "" && !Blank(u[0])
    ensures var t := "POST" + ([' '] + ("" + (u + ([' '] + ("" + "HTTP/1.1")))));
      && ParseRequestLine(t) == (if NoBlanks(u) then ParseTarget(Post, u) else BadLine)
      && (NoBlanks(u) && u[0] == '/' ==> ParseRequestLine(t) == Target(Post, Page(u)))
  {
    hide ParseRequestLine, ParseTarget, NoBlanks, Page;
    PostIsPost();
    SpacedLine("POST", Post, u);
    if u[0] == '/' { OriginForm(Post, u); }
  }

  lemma PostIsPost()
    ensures MethodOf("POST") == Some(Post) && NoBlanks("POST")
  {}

  /** A target with a blank in it makes the version too long. */
  lemma BlankInTarget(w: string, u: string)
    requires NoBlanks(w) && u != "" && !Blank(u[0]) && !NoBlanks(u)
    ensures ParseRequestLine(w + ([' '] + ("" + (u + ([' '] + ("" + "HTTP/1.1")))))) == BadLine
  {
    hide EqNoCase, ParseTarget, FindBlank, Tabs, MethodOf;
    var rest := u + ([' '] + ("" + "HTTP/1.1"));
    CutField(w, ' ', "", rest);
    FirstBlank(u);
    var n := FindBlank(u);
    FindBlankIs(rest, n);
    var tail, last := rest[n + 1..], |u| - n - 1;
    assert tail[last] == ' ' && |tail| == last + 9;
    TooLong(SkipTabs(tail));
  }

  lemma FirstBlank(u: string)
    requires !NoBlanks(u)
    ensures FindBlank(u) < |u|
  {
    hide FindBlank;
  }

  lemma TooLong(v: string)
    requires |v| > 8
    ensures !EqNoCase(v, "HTTP/1.1")
  {}

  lemma OriginForm(verb: Method, path: string)
    requires path != "" && path[0] == '/'
    ensures ParseTarget(verb, path) == Target(verb, Page(path))
  {
    NoScheme(path, "http://");
    NoScheme(path, "https://");
    if |path| == 1 { assert path == "/"; }
  }

  lemma NoScheme(path: string, scheme: string)
    requires path != "" && path[0] == '/' && scheme != "" && scheme[0] == 'h'
    ensures AfterAuthority(path, scheme) == Some(path)
  {}

  lemma SchemePrefix(url: string, scheme: string)
    requires EqNoCaseN(url, scheme, |scheme|)
    ensures |scheme| <= |url| && forall i :: 0 <= i < |scheme| ==> Lower(url[i]) == Lower(scheme[i])
  {}

  lemma SchemeAt(url: string, n: nat)
    requires n + 3 <= |url| && url[n] == ':' && url[n + 1] == '/' && url[n + 2] == '/'
    requires forall i :: 0 <= i < n ==> url[i] != ':'
    ensures FindScheme(url) == n
  {}

  /** "://" is found right after the scheme. */
  lemma HttpScheme(url: string)
    requires EqNoCaseN(url, "http://", 7)
    ensures |url| >= 7 && FindScheme(url) == 4
  {
    hide EqNoCaseN, FindScheme;
    SchemePrefix(url, "http://");
    SchemeAt(url, 4);
  }

  lemma HttpsScheme(url: string)
    requires EqNoCaseN(url, "https://", 8)
    ensures |url| >= 8 && FindScheme(url) == 5 && !EqNoCaseN(url, "http://", 7)
  {
    hide EqNoCaseN, FindScheme;
    SchemePrefix(url, "https://");
    SchemeAt(url, 5);
    if EqNoCaseN(url, "http://", 7) {
      SchemePrefix(url, "http://");
      assert false;
    }
  }

  /** The authority of a URL is followed by its path. */
  lemma PathAfterAuthority(url: string)
    requires Accepted(url, false)
    ensures FromSlash(AfterScheme(url)) == Some(PathOf(url))
    ensures PathOf(url) != "" && PathOf(url)[0] == '/'
  {
    hide FindScheme, EqNoCaseN;
    Found(AfterScheme(url), '/');
  }

  lemma StripHttp(url: string)
    requires Accepted(url, false) && EqNoCaseN(url, "http://", 7)
    ensures AfterAuthority(url, "http://") == Some(PathOf(url))
  {
    HttpScheme(url);
    PathAfterAuthority(url);
    hide EqNoCaseN, FindChar, PathOf, FromSlash;
  }

  lemma StripHttps(url: string)
    requires Accepted(url, false) && EqNoCaseN(url, "https://", 8)
    ensures AfterAuthority(url, "http://") == Some(url)
    ensures AfterAuthority(url, "https://") == Some(PathOf(url))
  {
    HttpsScheme(url);
    PathAfterAuthority(url);
    hide EqNoCaseN, FindChar, PathOf, FromSlash;
  }

  /** The absolute form of a URL means its path. */
  lemma AbsoluteForm(url: string)
    requires Accepted(url, false) && (EqNoCaseN(url, "http://", 7) || EqNoCaseN(url, "https://", 8))
    ensures PathOf(url) != "" && PathOf(url)[0] == '/'
    ensures ParseTarget(Get, url) == Target(Get, Page(PathOf(url)))
  {
    hide EqNoCaseN, PathOf, AfterAuthority, Accepted, AfterScheme, FromSlash;
    var path := PathOf(url);
    PathAfterAuthority(url);
    NoScheme(path, "https://");
    if EqNoCaseN(url, "http://", 7) { StripHttp(url); } else { StripHttps(url); }
    if |path| == 1 { assert path == "/"; }
  }

  // ---------------------------------------------------------------- the header lines

  /** A field whose name begins with another letter than those of Connection, Content-Length and Host. */
  lemma OtherField(h: Head, line: string)
    requires h.state == CheckHeader && line != "" && NUL !in line && Lower(line[0]) != 'c' && Lower(line[0]) != 'h'
    ensures HandleLine(h, line) == (h, None)
  {
    hide CutNul;
    CutNulIs(line, line);
    assert Take(line, 11)[0] == Take(line, 15)[0] == Take(line, 5)[0] == line[0];
    assert Take("Connection:", 11)[0] == 'C' && Take("Content-Length", 15)[0] == 'C' && Take("Host:", 5)[0] == 'H';
  }

  lemma HostField(h: Head, host: string)
    requires h.state == CheckHeader && NUL !in host
    ensures HandleLine(h, "Host: " + host) == (h.(host := Some(" " + host)), None)
  {
    hide CutNul;
    var line := "Host: " + host;
    assert NUL !in line;
    CutNulIs(line, line);
    assert Take(line, 11)[0] == Take(line, 15)[0] == 'H';
    assert Take("Connection:", 11)[0] == 'C' && Take("Content-Length", 15)[0] == 'C';
    assert Take(line, 5) == "Host:" == Take("Host:", 5);
    assert line[5..] == " " + host;
  }

  lemma CloseField(h: Head)
    requires h.state == CheckHeader
    ensures HandleLine(h, "Connection: close") == (h, None)
  {
    hide CutNul;
    var line := "Connection: close";
    CutNulIs(line, line);
    assert Take(line, 11) == "Connection:" == Take("Connection:", 11);
    assert line[11..] == " close";
  }

  lemma EndOfHead(h: Head)
    requires h.state == CheckHeader && h.contentLength == 0
    ensures HandleLine(h, "") == (h, Some(GetRequest))
  {}

  // ---------------------------------------------------------------- lines read one after another

  /** The head when the first line is read and the next begins. */
  function Asked(page: string): Head { Head(CheckHeader, Get, Some(page), None, false, 0) }

  lemma FirstLine(u: string, page: string)
    requires u != "" && !Blank(u[0]) && NUL !in u && ParseTarget(Get, u) == Target(Get, page)
    ensures HandleLine(INITIAL.parsed, "GET " + u + " HTTP/1.1") ==
      if NoBlanks(u) then (Asked(page), None) else (INITIAL.parsed, Some(BadRequest))
  {
    hide CutNul, ParseTarget, RequestHead.ParseRequestLine, NoBlanks;
    var line := "GET " + u + " HTTP/1.1";
    assert line == "GET" + ([' '] + ("" + (u + ([' '] + ("" + "HTTP/1.1")))));
    CutNulIs(line, line);
    GetLine(u);
  }

  lemma FoldNext(at: nat, h: Head, line: string, rest: seq<string>)
    requires HandleLine(h, line).1.None?
    ensures Fold(HandleLine, at, h, [line] + rest) == Fold(HandleLine, at + |line| + 2, HandleLine(h, line).0, rest)
    ensures |Lines([line] + rest)| == |line| + 2 + |Lines(rest)|
  {
    hide HandleLine;
    assert ([line] + rest)[1..] == rest;
  }

  lemma FoldLast(at: nat, h: Head, line: string, rest: seq<string>)
    requires HandleLine(h, line).1.Some?
    ensures var (h', r) := HandleLine(h, line); var n := at + |line| + 2;
      Fold(HandleLine, at, h, [line] + rest) == (Cursor(n, n, h'), r)
    ensures rest == [] ==> |Lines([line] + rest)| == |line| + 2
  {
    hide HandleLine;
  }

  lemma ReadLines(lines: seq<string>)
    requires forall i :: 0 <= i < |lines| ==> PlainLine(lines[i])
    ensures ReadAll(Lines(lines)) == Fold(HandleLine, 0, INITIAL.parsed, lines)
  {
    hide HandleLine, Run, Fold, Lines;
    RunOfLines(HandleLine, "", INITIAL.parsed, lines);
    assert "" + Lines(lines) == Lines(lines);
  }

  const AGENT := "User-Agent: WebBench 1.5"
  const CLOSE := "Connection: close"
  const PRAGMA := "Pragma: no-cache"

  /** "Connection: close" and the empty line, after which do_request is called. */
  lemma FoldEnd(at: nat, h: Head)
    requires h.state == CheckHeader && h.contentLength == 0
    ensures var end := [CLOSE] + ([""] + []); var n := at + |Lines(end)|;
      Fold(HandleLine, at, h, end) == (Cursor(n, n, h), Some(GetRequest))
  {
    hide HandleLine, Fold;
    CloseField(h);
    FoldNext(at, h, CLOSE, [""] + []);
    EndOfHead(h);
    FoldLast(at + |CLOSE| + 2, h, "", []);
  }

  lemma ReadDirect(l0: string, page: string, host: string)
    requires PlainLine(l0) && PlainLine(host) && NUL !in host
    requires HandleLine(INITIAL.parsed, l0) == (Asked(page), None)
    ensures var text := Lines([l0] + ([AGENT] + (["Host: " + host] + ([CLOSE] + ([""] + [])))));
      ReadAll(text) == (Cursor(|text|, |text|, Asked(page).(host := Some(" " + host))), Some(GetRequest))
  {
    hide HandleLine, Fold, Lines, ReadAll;
    var h, l2, end := Asked(page), "Host: " + host, [CLOSE] + ([""] + []);
    ReadLines([l0] + ([AGENT] + ([l2] + end)));
    FoldNext(0, INITIAL.parsed, l0, [AGENT] + ([l2] + end));
    OtherField(h, AGENT);
    FoldNext(|l0| + 2, h, AGENT, [l2] + end);
    HostField(h, host);
    FoldNext(|l0| + |AGENT| + 4, h, l2, end);
    FoldEnd(|l0| + |AGENT| + |l2| + 6, h.(host := Some(" " + host)));
  }

  lemma ReadProxied(l0: string, page: string, reload: bool)
    requires PlainLine(l0) && HandleLine(INITIAL.parsed, l0) == (Asked(page), None)
    ensures var text := Lines([l0] + ([AGENT] + ((if reload then [PRAGMA] else []) + ([CLOSE] + ([""] + [])))));
      ReadAll(text) == (Cursor(|text|, |text|, Asked(page)), Some(GetRequest))
  {
    hide HandleLine, Fold, Lines, ReadAll;
    var h, end, pragma := Asked(page), [CLOSE] + ([""] + []), if reload then [PRAGMA] else [];
    assert forall i :: 0 <= i < |pragma + end| ==> PlainLine((pragma + end)[i]);
    ReadLines([l0] + ([AGENT] + (pragma + end)));
    FoldNext(0, INITIAL.parsed, l0, [AGENT] + (pragma + end));
    OtherField(h, AGENT);
    FoldNext(|l0| + 2, h, AGENT, pragma + end);
    FoldPragma(|l0| + |AGENT| + 4, h, reload);
  }

  lemma FoldPragma(at: nat, h: Head, reload: bool)
    requires h.state == CheckHeader && h.contentLength == 0
    ensures var rest := (if reload then [PRAGMA] else []) + ([CLOSE] + ([""] + [])); var n := at + |Lines(rest)|;
      Fold(HandleLine, at, h, rest) == (Cursor(n, n, h), Some(GetRequest))
  {
    hide HandleLine, Fold, Lines;
    var end := [CLOSE] + ([""] + []);
    if reload {
      OtherField(h, PRAGMA);
      FoldNext(at, h, PRAGMA, end);
      FoldEnd(at + |PRAGMA| + 2, h);
    } else {
      assert [] + end == end;
      FoldEnd(at, h);
    }
  }

  lemma ReadBad(l0: string, rest: seq<string>)
    requires PlainLine(l0) && HandleLine(INITIAL.parsed, l0) == (INITIAL.parsed, Some(BadRequest))
    requires forall i :: 0 <= i < |rest| ==> PlainLine(rest[i])
    ensures ReadAll(Lines([l0] + rest)) == (Cursor(|l0| + 2, |l0| + 2, INITIAL.parsed), Some(BadRequest))
  {
    hide HandleLine, Lines, Fold, ReadAll, PlainLine;
    ReadLines([l0] + rest);
    FoldLast(0, INITIAL.parsed, l0, rest);
  }

  // ---------------------------------------------------------------- the round trip

  /** A URL build_request accepts, and which fits on one line. */
  predicate Direct(url: string) { Accepted(url, true) && PlainLine(url) && NUL !in url }

  /** A URL that can be asked of a proxy in absolute form. */
  predicate Proxied(url: string) {
    && Accepted(url, false) && PlainLine(url) && NUL !in url && NoBlanks(url)
    && (EqNoCaseN(url, "http://", 7) || EqNoCaseN(url, "https://", 8))
  }

  function Printed(reload: bool, direct: bool, url: string): string {
    Lines(RequestLines(GET, 2, reload, direct, url))
  }

  /** The host and the path are parts of the URL. */
  lemma PathWithin(url: string)
    ensures forall c :: c in PathOf(url) || c in HostOf(url) ==> c in url
    ensures |PathOf(url)| + |HostOf(url)| <= |url|
  {
    hide FindScheme, FindChar;
  }

  lemma DirectPath(url: string)
    requires Direct(url)
    ensures PathOf(url) != "" && PathOf(url)[0] == '/'
    ensures NUL !in PathOf(url) && PlainLine(PathOf(url)) && NUL !in HostOf(url) && PlainLine(HostOf(url))
  {
    hide FindScheme, FindChar, EqNoCaseN, PathOf, HostOf, AfterScheme;
    PathAfterAuthority(url);
    PathWithin(url);
  }

  lemma RequestLineText(direct: bool, url: string)
    ensures RequestLine(GET, 2, direct, url) == "GET " + (if direct then PathOf(url) else url) + " HTTP/1.1"
  {
    hide PathOf;
    assert "GET" + " " == "GET ";
  }

  lemma DirectLines(reload: bool, url: string)
    ensures RequestLines(GET, 2, reload, true, url) ==
      ["GET " + PathOf(url) + " HTTP/1.1"] + ([AGENT] + (["Host: " + HostOf(url)] + ([CLOSE] + ([""] + []))))
  {
    hide PathOf, HostOf, RequestLine;
    RequestLineText(true, url);
  }

  lemma ProxiedLines(reload: bool, url: string)
    ensures RequestLines(GET, 2, reload, false, url) ==
      ["GET " + url + " HTTP/1.1"] + ([AGENT] + ((if reload then [PRAGMA] else []) + ([CLOSE] + ([""] + []))))
  {
    hide PathOf, HostOf, RequestLine;
    RequestLineText(false, url);
  }

  lemma DirectClean(reload: bool, url: string)
    requires Direct(url) && NoBlanks(PathOf(url))
    ensures var text := Printed(reload, true, url);
      ReadAll(text) == (Cursor(|text|, |text|, Asked(Page(PathOf(url))).(host := Some(" " + HostOf(url)))), Some(GetRequest))
  {
    hide HandleLine, ReadAll, Lines, PathOf, HostOf, Accepted, NoBlanks, ParseTarget, RequestLines;
    var path, host := PathOf(url), HostOf(url);
    DirectLines(reload, url);
    DirectPath(url);
    OriginForm(Get, path);
    FirstLine(path, Page(path));
    ReadDirect("GET " + path + " HTTP/1.1", Page(path), host);
  }

  lemma DirectBlank(reload: bool, url: string)
    requires Direct(url) && !NoBlanks(PathOf(url))
    ensures var n := |PathOf(url)| + 15;
      ReadAll(Printed(reload, true, url)) == (Cursor(n, n, INITIAL.parsed), Some(BadRequest))
  {
    hide HandleLine, ReadAll, Lines, PathOf, HostOf, Accepted, NoBlanks, ParseTarget, RequestLines;
    var path, host := PathOf(url), HostOf(url);
    DirectLines(reload, url);
    DirectPath(url);
    OriginForm(Get, path);
    FirstLine(path, Page(path));
    ReadBad("GET " + path + " HTTP/1.1", [AGENT] + (["Host: " + host] + ([CLOSE] + ([""] + []))));
  }

  /** The direct request: the server calls do_request for the path of the URL, unless the path has a blank in it. */
  lemma DirectRoundTrip(reload: bool, url: string)
    requires Direct(url)
    ensures var text := Printed(reload, true, url); var n := |PathOf(url)| + 15;
      ReadAll(text) ==
        if NoBlanks(PathOf(url)) then
          (Cursor(|text|, |text|, Asked(Page(PathOf(url))).(host := Some(" " + HostOf(url)))), Some(GetRequest))
        else (Cursor(n, n, INITIAL.parsed), Some(BadRequest))
  {
    hide ReadAll, Printed, PathOf, HostOf, NoBlanks;
    if NoBlanks(PathOf(url)) { DirectClean(reload, url); } else { DirectBlank(reload, url); }
  }

  /** The request a proxy is sent: the absolute form. */
  lemma ProxyRoundTrip(reload: bool, url: string)
    requires Proxied(url)
    ensures var text := Printed(reload, false, url);
      ReadAll(text) == (Cursor(|text|, |text|, Asked(Page(PathOf(url)))), Some(GetRequest))
  {
    hide HandleLine, ReadAll, Lines, PathOf, Accepted, EqNoCaseN, ParseTarget;
    ProxiedLines(reload, url);
    AbsoluteForm(url);
    NotEmpty(url);
    FirstLine(url, Page(PathOf(url)));
    ReadProxied("GET " + url + " HTTP/1.1", Page(PathOf(url)), reload);
  }

  lemma NotEmpty(url: string)
    requires Accepted(url, false)
    ensures url != ""
  {}

  /** However the direct request is cut up, do_request is reached exactly when the path has no blank, and then with
      the page the path asks for. */
  lemma DirectInPieces(url: string, reload: bool, chunks: seq<string>)
    requires Direct(url) && Flatten(chunks) == Printed(reload, true, url)
    ensures var (at, result) := ReadChunks(chunks);
      && (result == Some(GetRequest) <==> NoBlanks(PathOf(url)))
      && (NoBlanks(PathOf(url)) ==> at.parsed.url == Some(Page(PathOf(url))) && at.parsed.host == Some(" " + HostOf(url)))
  {
    hide HandleLine, Direct, Printed, PathOf, HostOf, Lines, Flatten, ReadChunks, ReadAll, NoBlanks, Page;
    ReadInPieces(chunks);
    DirectRoundTrip(reload, url);
  }

  /** Origin form and absolute form of one URL ask for the same page, however the two requests are cut up. */
  lemma SamePage(url: string, reload: bool, direct: seq<string>, proxied: seq<string>)
    requires Direct(url) && Proxied(url)
    requires Flatten(direct) == Printed(reload, true, url) && Flatten(proxied) == Printed(reload, false, url)
    ensures var (a, ra) := ReadChunks(direct); var (b, rb) := ReadChunks(proxied);
      ra == rb == Some(GetRequest) && a.parsed.url == b.parsed.url == Some(Page(PathOf(url)))
  {
    hide HandleLine, Direct, Proxied, Printed, PathOf, HostOf, Lines, Flatten, ReadChunks, ReadAll;
    ReadInPieces(direct);
    ReadInPieces(proxied);
    ProxyRoundTrip(reload, url);
    CleanPath(url);
    DirectRoundTrip(reload, url);
  }

  lemma CleanPath(url: string)
    requires Proxied(url)
    ensures NoBlanks(PathOf(url))
  {
    hide PathOf, HostOf, Accepted, EqNoCaseN;
    PathWithin(url);
    var path := PathOf(url);
    forall i | 0 <= i < |path| ensures !Blank(path[i]) {
      assert path[i] in url;
    }
  }

  /** What webbench prints is read by the server exactly if it asks with GET and HTTP/1.1. */
  lemma OnlyGet11(verb: Verb, level: nat, url: string)
    requires Direct(url) && NoBlanks(PathOf(url)) && level <= 2
    ensures var line := RequestLine(verb, level, true, url);
      ParseRequestLine(line) ==
        if verb == GET && level == 2 then Target(Get, Page(PathOf(url))) else BadLine
  {
    hide PathOf, Direct, NoBlanks, Page, ParseRequestLine, ParseTarget, MethodOf, EqNoCase, RequestLine, VerbName;
    DirectPath(url);
    VerbIsGet(verb);
    var path := PathOf(url);
    if level == 0 {
      NoVersion(VerbName(verb), path);
      PrintedAlone(verb, url);
    } else {
      WithVersion(VerbName(verb), path, if level == 1 then "HTTP/1.0" else "HTTP/1.1");
      OriginForm(Get, path);
      PrintedParts(verb, level, url);
      OnlyOneOne();
    }
  }

  lemma PrintedAlone(verb: Verb, url: string)
    ensures RequestLine(verb, 0, true, url) == VerbName(verb) + ([' '] + ("" + PathOf(url)))
  {
    hide PathOf;
  }

  lemma PrintedParts(verb: Verb, level: nat, url: string)
    requires 1 <= level <= 2
    ensures RequestLine(verb, level, true, url) ==
      VerbName(verb) + ([' '] + ("" + (PathOf(url) + ([' '] + ("" + if level == 1 then "HTTP/1.0" else "HTTP/1.1")))))
  {
    hide PathOf;
  }

  lemma OnlyOneOne()
    ensures !EqNoCase("HTTP/1.0", "HTTP/1.1") && EqNoCase("HTTP/1.1", "HTTP/1.1")
  {
    assert Lower("HTTP/1.0"[7]) != Lower("HTTP/1.1"[7]);
  }

  lemma VerbIsGet(verb: Verb)
    ensures NoBlanks(VerbName(verb))
    ensures MethodOf(VerbName(verb)) == if verb == GET then Some(Get) else None
  {
    assert Lower("HEAD"[0]) == 'h' && Lower("POST"[0]) == 'p';
  }

  lemma WithVersion(w: string, path: string, version: string)
    requires NoBlanks(w) && path != "" && path[0] == '/' && NoBlanks(path) && version != "" && version[0] == 'H'
    ensures var t := w + ([' '] + ("" + (path + ([' '] + ("" + version)))));
      ParseRequestLine(t) ==
        if MethodOf(w).Some? && EqNoCase(version, "HTTP/1.1")
        then ParseTarget(MethodOf(w).value, path) else BadLine
  {
    hide ParseRequestLine, ParseTarget, MethodOf, EqNoCase;
    ShapedIsParsed(w + ([' '] + ("" + (path + ([' '] + ("" + version))))), w, ' ', "", path, ' ', "", version);
  }

  lemma NoVersion(w: string, path: string)
    requires NoBlanks(w) && path != "" && path[0] == '/' && NoBlanks(path)
    ensures ParseRequestLine(w + ([' '] + ("" + path))) == BadLine
  {
    hide FindBlank, Tabs, ParseTarget, EqNoCase, MethodOf;
    CutField(w, ' ', "", path);
    FindBlankIs(path, |path|);
  }

  /** The whole request at the older levels: at 0 its one line, at 1 no Connection line. */
  lemma OlderRequests(verb: Verb, reload: bool, url: string)
    ensures RequestLines(verb, 0, reload, true, url) == [RequestLine(verb, 0, true, url)]
    ensures RequestLines(verb, 1, reload, true, url) == [RequestLine(verb, 1, true, url), AGENT, "Host: " + HostOf(url), ""]
    ensures RequestLines(verb, 1, reload, false, url) ==
      [RequestLine(verb, 1, false, url), AGENT] + (if reload then [PRAGMA] else []) + [""]
  {
    hide PathOf, HostOf, RequestLine;
  }

  /** Section 4.1 of RFC 7231. */
  lemma VerbWords()
    ensures VerbName(GET) == "GET" && VerbName(HEAD) == "HEAD" && VerbName(OPTIONS) == "OPTIONS" && VerbName(TRACE) == "TRACE"
  {}

  /** Without a proxy, exactly the URLs that begin with http:// in any case, have a slash behind that, and are not too
      long are accepted. */
  lemma AcceptedDirectIff(url: string)
    ensures Accepted(url, true) <==>
      |url| <= 1500 && |url| >= 7 && EqNoCase(url[..7], "http://") && '/' in url[7..]
  {
    if |url| >= 7 && EqNoCase(url[..7], "http://") {
      assert Take(url, 7) == url[..7] && Take("http://", 7) == "http://";
      HttpScheme(url);
    } else {
      assert |Take("http://", 7)| == 7;
    }
  }

  predicate Delimiter(url: string, i: nat) {
    i + 3 <= |url| && url[i] == ':' && url[i + 1] == '/' && url[i + 2] == '/'
  }

  /** The first "://" is at `i`. */
  predicate SchemeEnds(url: string, i: nat) { Delimiter(url, i) && forall j | 0 <= j < i :: !Delimiter(url, j) }

  lemma SchemeEndsAt(url: string, i: nat)
    requires SchemeEnds(url, i)
    ensures FindScheme(url) == i
  {
    var k := FindScheme(url);
    assert k < i ==> !Delimiter(url, k);
  }

  /** With one, exactly those that have a slash behind the first "://". */
  lemma AcceptedProxyIff(url: string)
    ensures Accepted(url, false) <==>
      |url| <= 1500 && exists i :: 0 <= i && SchemeEnds(url, i) && '/' in url[i + 3..]
  {
    hide FindScheme, EqNoCaseN;
    if Accepted(url, false) {
      assert SchemeEnds(url, FindScheme(url));
    }
    forall i | 0 <= i && SchemeEnds(url, i) ensures FindScheme(url) == i { SchemeEndsAt(url, i); }
  }

  lemma LinesLength(line: string, rest: seq<string>)
    ensures |Lines([line] + rest)| == |line| + 2 + |Lines(rest)|
  {}

  /** Every printed request fits the server's read buffer. */
  lemma RequestFits(reload: bool, direct: bool, url: string)
    requires |url| <= MAX_URL
    ensures |Printed(reload, direct, url)| < REQUEST_SIZE
  {
    hide PathOf, HostOf, Lines, RequestLines;
    PathWithin(url);
    var end := [CLOSE] + ([""] + []);
    LinesLength("", []);
    LinesLength(CLOSE, [""] + []);
    NoLines();
    if direct {
      var l0, l2 := "GET " + PathOf(url) + " HTTP/1.1", "Host: " + HostOf(url);
      DirectLines(reload, url);
      LinesLength(l2, end);
      LinesLength(AGENT, [l2] + end);
      LinesLength(l0, [AGENT] + ([l2] + end));
    } else {
      var l0, pragma := "GET " + url + " HTTP/1.1", if reload then [PRAGMA] else [];
      ProxiedLines(reload, url);
      LinesLength(PRAGMA, end);
      assert [] + end == end;
      LinesLength(AGENT, pragma + end);
      LinesLength(l0, [AGENT] + (pragma + end));
    }
  }
}

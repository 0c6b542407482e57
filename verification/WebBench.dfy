/** The request printer of webbench, and its partner, the request parser of the server. */
module WebBench {
  import opened CStrings
  import opened LineMachine

  datatype Verb = GET | HEAD | OPTIONS | TRACE

  const MAX_URL: nat := 1500
  const REQUEST_SIZE: nat := 2048
  const MAXHOSTNAMELEN: nat := 64
  const PORT_SIZE: nat := 10

  // ---------------------------------------------------------------- what is printed

  /** strstr(s, "://"), as an offset; the length of `s` when it is not there. */
  function FindScheme(s: string): (k: nat)
    ensures k <= |s|
    ensures k < |s| ==> k + 3 <= |s| && s[k] == ':' && s[k + 1] == '/' && s[k + 2] == '/'
    ensures forall j :: 0 <= j < k && j + 2 < |s| ==> !(s[j] == ':' && s[j + 1] == '/' && s[j + 2] == '/')
  {
    if s == "" || (|s| >= 3 && s[0] == ':' && s[1] == '/' && s[2] == '/') then 0
    else 1 + FindScheme(s[1..])
  }

  /** The URL after "://". */
  function AfterScheme(url: string): string {
    if FindScheme(url) < |url| then url[FindScheme(url) + 3..] else ""
  }

  function Authority(url: string): string { AfterScheme(url)[..FindChar(AfterScheme(url), '/')] }

  function PathOf(url: string): string { AfterScheme(url)[FindChar(AfterScheme(url), '/')..] }

  function HostOf(url: string): string { Authority(url)[..FindChar(Authority(url), ':')] }

  /** The digits after the colon of the authority. */
  function PortText(url: string): string {
    var a := Authority(url);
    if FindChar(a, ':') < |a| then a[FindChar(a, ':') + 1..] else ""
  }

  function PortNumber(text: string): int {
    var n := ToInt32(Atol(text));
    if n == 0 then 80 else n
  }

  predicate Accepted(url: string, direct: bool) {
    && FindScheme(url) < |url| && |url| <= MAX_URL
    && (direct ==> EqNoCaseN("http://", url, 7))
    && '/' in AfterScheme(url)
  }

  /** The protocol level after the corrections: 0, 1 or 2 for HTTP/0.9, 1.0 and 1.1. */
  function Level(verb: Verb, http10: int, reload: bool, direct: bool): int {
    var a := if reload && !direct && http10 < 1 then 1 else http10;
    match verb
    case GET => a
    case HEAD => if a < 1 then 1 else a
    case _ => if a < 2 then 2 else a
  }

  /** The protocols in which a verb, or a reload by way of a proxy, can be asked for. */
  predicate Speaks(verb: Verb, reload: bool, direct: bool, level: int) {
    && (reload && !direct ==> level >= 1)
    && (verb == HEAD ==> level >= 1)
    && (verb == OPTIONS || verb == TRACE ==> level >= 2)
  }

  /** The level is corrected no further than that takes. */
  lemma LevelIsLeast(verb: Verb, http10: int, reload: bool, direct: bool)
    ensures var level := Level(verb, http10, reload, direct);
      && level >= http10 && Speaks(verb, reload, direct, level)
      && forall other | other >= http10 && Speaks(verb, reload, direct, other) :: level <= other
  {}

  function VerbName(verb: Verb): string {
    match verb
    case GET => "GET"
    case HEAD => "HEAD"
    case OPTIONS => "OPTIONS"
    case TRACE => "TRACE"
  }

  function RequestLine(verb: Verb, level: int, direct: bool, url: string): string {
    VerbName(verb) + " " + (if direct then PathOf(url) else url)
    + if level == 1 then " HTTP/1.0" else if level == 2 then " HTTP/1.1" else ""
  }

  /** The lines of the request, in order. */
  function RequestLines(verb: Verb, level: int, reload: bool, direct: bool, url: string): seq<string> {
    [RequestLine(verb, level, direct, url)]
    + (if level > 0 then ["User-Agent: WebBench 1.5"] else [])
    + (if direct && level > 0 then ["Host: " + HostOf(url)] else [])
    + (if reload && !direct then ["Pragma: no-cache"] else [])
    + (if level > 1 then ["Connection: close"] else [])
    + (if level > 0 then [""] else [])
  }

  lemma FindCharInPrefix(s: string, c: char, n: nat)
    requires n <= |s|
    ensures FindChar(s[..n], c) == if FindChar(s, c) < n then FindChar(s, c) else n
    ensures FindChar(s, c) < n <==> c in s[..n]
  {}

  lemma Found(s: string, c: char)
    ensures c in s <==> FindChar(s, c) < |s|
  {}

  // ---------------------------------------------------------------- the printer

  class WebBench {
    var verb: Verb
    var http10: int
    var forceReload: bool
    var proxyHost: Option<string>
    var proxyPort: int
    var request: string
    var host: string

    constructor (verb: Verb, http10: int, forceReload: bool, proxyHost: Option<string>, proxyPort: int)
    {
      this.verb, this.http10, this.forceReload := verb, http10, forceReload;
      this.proxyHost, this.proxyPort, request, host := proxyHost, proxyPort, "", "";
    }

    /** strcat(request, line); strcat(request, "\r\n"); `lines` are the lines already there. */
    method AddLine(line: string, ghost lines: seq<string>) returns (ghost lines': seq<string>)
      requires request == Lines(lines)
      modifies this`request
      ensures lines' == lines + [line] && request == Lines(lines')
    {
      LinesAppend(lines, line);
      request := request + (line + "\r\n");
      lines' := lines + [line];
    }

    method AddLineIf(condition: bool, line: string, ghost lines: seq<string>) returns (ghost lines': seq<string>)
      requires request == Lines(lines)
      modifies this`request
      ensures lines' == lines + (if condition then [line] else []) && request == Lines(lines')
    {
      if condition {
        lines' := AddLine(line, lines);
      } else {
        lines' := lines + [];
        assert lines' == lines;
      }
    }

    /** Host and port of a direct request; the target to print. */
    method SplitUrl(rest: string, slash: nat, ghost url: string) returns (target: string)
      requires rest == AfterScheme(url) && slash == FindChar(rest, '/')
      modifies this`host, this`proxyPort
      ensures target == PathOf(url) && host == HostOf(url)
      ensures proxyPort == if ':' in Authority(url) then PortNumber(PortText(url)) else old(proxyPort)
    {
      var colon := FindChar(rest, ':');
      FindCharInPrefix(rest, ':', slash);
      if colon < slash {
        host := rest[..colon];
        var tmp := rest[colon + 1..slash];
        assert tmp == Authority(url)[colon + 1..];
        proxyPort := ToInt32(Atol(tmp));
        if proxyPort == 0 { proxyPort := 80; }
      } else {
        host := rest[..slash];
      }
      target := rest[slash..];
    }

    /** Everything after the target. */
    method AddLines(line: string, ghost url: string)
      requires request == "" && (proxyHost.None? ==> host == HostOf(url))
      requires line == VerbName(verb) + " " + (if proxyHost.None? then PathOf(url) else url)
      modifies this`request
      ensures request == Lines(RequestLines(verb, http10, forceReload, proxyHost.None?, url))
    {
      hide Lines, PathOf, HostOf;
      NoLines();
      var first := line;
      if http10 == 1 {
        first := first + " HTTP/1.0";
      } else if http10 == 2 {
        first := first + " HTTP/1.1";
      }
      assert first == RequestLine(verb, http10, proxyHost.None?, url);
      ghost var lines := AddLine(first, []);
      assert [] + [first] == [first];
      lines := AddLineIf(http10 > 0, "User-Agent: WebBench 1.5", lines);
      lines := AddLineIf(proxyHost.None? && http10 > 0, "Host: " + host, lines);
      lines := AddLineIf(forceReload && proxyHost.Some?, "Pragma: no-cache", lines);
      lines := AddLineIf(http10 > 1, "Connection: close", lines);
      lines := AddLineIf(http10 > 0, "", lines);
    }

    /** build_request; false where it exits. The scratch arrays for the host and the port must be large enough. */
    method BuildRequest(url: string) returns (ok: bool)
      requires NUL !in url && 0 <= http10 <= 2
      requires proxyHost.None? && Accepted(url, true) ==> |HostOf(url)| < MAXHOSTNAMELEN && |PortText(url)| < PORT_SIZE
      modifies this`http10, this`request, this`host, this`proxyPort
      ensures ok <==> Accepted(url, proxyHost.None?)
      ensures ok ==> http10 == Level(verb, old(http10), forceReload, proxyHost.None?)
      ensures ok ==> request == Lines(RequestLines(verb, http10, forceReload, proxyHost.None?, url))
      ensures ok && proxyHost.None? ==>
        host == HostOf(url) && proxyPort == if ':' in Authority(url) then PortNumber(PortText(url)) else old(proxyPort)
    {
      hide FindScheme, FindChar, PortText, HostOf, PathOf, Authority, Lines, RequestLines, VerbName, EqNoCaseN;
      request, host := "", "";
      if forceReload && proxyHost.Some? && http10 < 1 { http10 := 1; }
      if verb == HEAD && http10 < 1 { http10 := 1; }
      if verb == OPTIONS && http10 < 2 { http10 := 2; }
      if verb == TRACE && http10 < 2 { http10 := 2; }
      if FindScheme(url) == |url| { return false; }
      if |url| > MAX_URL { return false; }
      if proxyHost.None? && !EqNoCaseN("http://", url, 7) { return false; }
      var rest := url[FindScheme(url) + 3..];
      var slash := FindChar(rest, '/');
      Found(rest, '/');
      if slash == |rest| { return false; }
      var target := url;
      if proxyHost.None? { target := SplitUrl(rest, slash, url); }
      AddLines(VerbName(verb) + " " + target, url);
      return true;
    }
  }
}

/** The reading half of http_conn: two nested state machines that work in place on one read buffer.
    `received` is the ghost copy of the bytes as they arrived; RequestHead.Read says what they mean. */
module HttpConn {
  import opened CStrings
  import opened LineMachine
  import opened RequestHead

  /** What recv returns: some bytes (none: the peer closed), EAGAIN, or another error. */
  datatype Recv = Bytes(data: string) | Again | Failed

  /** The answers to the recv calls of one read_once, which never exceed the room offered; an edge-triggered
      read goes on until there is nothing more. */
  predicate KernelAllows(kernel: seq<Recv>, room: nat) {
    kernel != [] &&
    (kernel[0].Bytes? ==>
       |kernel[0].data| <= room &&
       (kernel[0].data != "" ==> KernelAllows(kernel[1..], room - |kernel[0].data|)))
  }

  datatype BodyStatus = BodyOpen | BodyRead | OutsideBuffer

  class HttpConn {
    const readBuf: array<char>
    var readIdx: nat
    var checkedIdx: nat
    var startLine: nat
    var checkState: CheckState
    var verb: Method
    var url: Option<nat>      // m_url and m_host as offsets into readBuf; None is the null pointer
    var host: Option<nat>
    var linger: bool
    var contentLength: int
    var content: Option<nat>  // m_string; None is the literal init() points it at
    ghost var received: string

    /** The three cursors; from the current line on, the buffer still holds what arrived. */
    ghost predicate Cursors()
      reads this, readBuf
    {
      && readBuf.Length == READ_BUFFER_SIZE
      && startLine <= checkedIdx <= readIdx == |received| <= READ_BUFFER_SIZE
      && (forall i :: startLine <= i < readIdx ==> readBuf[i] == received[i])
      && (startLine > 0 ==> readBuf[startLine - 1] == NUL)
      && (forall i :: startLine <= i < checkedIdx ==> received[i] != CR && received[i] != LF)
    }

    /** m_url is meaningful once a request line was accepted; both pointers lie in lines already cut. */
    ghost predicate Valid()
      reads this, readBuf
    {
      Cursors() && PointersBelow(startLine)
    }

    ghost predicate PointersBelow(n: nat)
      reads this
    {
      && (checkState != CheckRequestLine ==> url.Some? && url.value < n)
      && (host.Some? ==> host.value < n)
    }

    /** The C string at `p`, in the lines already cut. */
    ghost function Cut(p: nat): string
      requires Cursors() && p < startLine
      reads this, readBuf
    {
      CutNul(readBuf[p..startLine])
    }

    ghost function Parsed(): Head
      requires Valid()
      reads this, readBuf
    {
      Head(checkState,
           if checkState == CheckRequestLine then Get else verb,
           if checkState == CheckRequestLine then None else Some(Cut(url.value)),
           if host.None? then None else Some(Cut(host.value)),
           linger, contentLength)
    }

    ghost function At(): Cursor<Head>
      requires Valid()
      reads this, readBuf
    {
      Cursor(startLine, checkedIdx, Parsed())
    }

    constructor ()
      ensures Valid() && fresh(readBuf) && received == "" && At() == INITIAL && content == None
    {
      readBuf := new char[READ_BUFFER_SIZE](_ => NUL);
      readIdx, checkedIdx, startLine := 0, 0, 0;
      checkState, verb, url, host, linger, contentLength := CheckRequestLine, Get, None, None, false, 0;
      content := None;
      received := "";
    }

    /** init(), between two requests on one connection; nothing is asked of the state it is called in. */
    method Init()
      requires readBuf.Length == READ_BUFFER_SIZE
      modifies this, readBuf
      ensures Valid() && received == "" && At() == INITIAL && content == None
      ensures forall i :: 0 <= i < READ_BUFFER_SIZE ==> readBuf[i] == NUL
    {
      hide CutNul, HttpConn.Cut;
      readIdx, checkedIdx, startLine := 0, 0, 0;
      checkState, verb, url, host, linger, contentLength := CheckRequestLine, Get, None, None, false, 0;
      content := None;
      forall i | 0 <= i < readBuf.Length { readBuf[i] := NUL; }
      received := "";
    }

    // -------------------------------------------------------------- receiving

    /** One recv that returned bytes, stored behind those already there. */
    method Store(data: string)
      requires Valid() && readIdx + |data| <= READ_BUFFER_SIZE
      modifies this`readIdx, this`received, readBuf
      ensures Valid() && received == old(received) + data && At() == old(At())
    {
      ghost var before := readBuf[..startLine];
      forall i | 0 <= i < |data| { readBuf[readIdx + i] := data[i]; }
      readIdx := readIdx + |data|;
      received := received + data;
      assert readBuf[..startLine] == before;
      assert forall p | 0 <= p < startLine :: readBuf[p..startLine] == before[p..];
    }

    /** read_once. A full buffer is refused at once in either mode. An edge-triggered read takes pieces until recv
        has something else to say, and is good exactly if that is EAGAIN. */
    method ReadOnce(edgeTriggered: bool, kernel: seq<Recv>) returns (ok: bool, ghost pieces: seq<string>)
      requires Valid() && KernelAllows(kernel, READ_BUFFER_SIZE - readIdx)
      modifies this`readIdx, this`received, readBuf
      ensures Valid() && At() == old(At()) && received == old(received) + Flatten(pieces)
      ensures old(readIdx) >= READ_BUFFER_SIZE ==> !ok && pieces == []
      ensures old(readIdx) < READ_BUFFER_SIZE && !edgeTriggered ==>
        if kernel[0].Bytes? then ok && pieces == [kernel[0].data] else !ok && pieces == []
      ensures old(readIdx) < READ_BUFFER_SIZE && edgeTriggered ==>
        && |pieces| < |kernel| && (forall i :: 0 <= i < |pieces| ==> pieces[i] != "" && kernel[i] == Bytes(pieces[i]))
        && match kernel[|pieces|] { case Again => ok case Failed => !ok case Bytes(data) => !ok && data == "" }
    {
      hide CutNul, HttpConn.Cut, HttpConn.Parsed, HttpConn.At;
      pieces := [];
      if readIdx >= READ_BUFFER_SIZE { return false, pieces; }
      if !edgeTriggered {
        if kernel[0].Bytes? {
          Store(kernel[0].data);
          pieces := [kernel[0].data];
          FlattenAppend([], kernel[0].data);
          assert [] + [kernel[0].data] == pieces;
        }
        return kernel[0].Bytes?, pieces;
      }
      var i := 0;
      while true
        invariant |pieces| == i < |kernel| && Valid() && At() == old(At())
        invariant KernelAllows(kernel[i..], READ_BUFFER_SIZE - readIdx)
        invariant received == old(received) + Flatten(pieces)
        invariant forall j :: 0 <= j < i ==> pieces[j] != "" && kernel[j] == Bytes(pieces[j])
        decreases |kernel| - i
      {
        match kernel[i] {
          case Again => return true, pieces;
          case Failed => return false, pieces;
          case Bytes(data) =>
            if data == "" { return false, pieces; }
            Store(data);
            FlattenAppend(pieces, data);
            assert kernel[i..][1..] == kernel[i + 1..];
            pieces := pieces + [data];
            i := i + 1;
        }
      }
    }

    // -------------------------------------------------------------- the line state machine

    /** parse_line. Its second way to LINE_OK, a LF whose CR was left behind by an earlier call, is never taken:
        the scan waits in front of a CR that ends the buffer, and a CR LF already cut is two NULs. */
    method ParseLine() returns (status: LineStatus)
      requires Cursors()
      modifies this`checkedIdx, readBuf
      ensures status == ScanLine(received, old(checkedIdx)).0
      ensures var k := ScanLine(received, old(checkedIdx)).1;
        if status != LineOk then checkedIdx == k && unchanged(readBuf)
        else checkedIdx == k + 2 <= readIdx && forall i :: 0 <= i < readBuf.Length ==>
          readBuf[i] == if i == k || i == k + 1 then NUL else old(readBuf[i])
    {
      hide ScanLine;
      while checkedIdx < readIdx
        invariant startLine <= old(checkedIdx) <= checkedIdx <= readIdx && unchanged(readBuf)
        invariant forall i :: startLine <= i < checkedIdx ==> received[i] != CR && received[i] != LF
      {
        var temp := readBuf[checkedIdx];
        if temp == CR {
          ScanLineIs(received, old(checkedIdx), checkedIdx);
          if checkedIdx + 1 == readIdx {
            return LineOpen;
          } else if readBuf[checkedIdx + 1] == LF {
            readBuf[checkedIdx] := NUL;
            checkedIdx := checkedIdx + 1;
            readBuf[checkedIdx] := NUL;
            checkedIdx := checkedIdx + 1;
            return LineOk;
          }
          return LineBad;
        } else if temp == LF {
          ScanLineIs(received, old(checkedIdx), checkedIdx);
          if checkedIdx > 1 && readBuf[checkedIdx - 1] == CR {
            assert false;
          }
          return LineBad;
        }
        checkedIdx := checkedIdx + 1;
      }
      ScanLineIs(received, old(checkedIdx), checkedIdx);
      return LineOpen;
    }

    // -------------------------------------------------------------- C library calls on the buffer

    /** The C string a pointer to offset `p` designates. */
    function Str(p: nat): string
      requires p <= readBuf.Length
      reads readBuf
    {
      CutNul(readBuf[p..])
    }

    /** The buffer holds the characters of `s` and a NUL at `p`. */
    ghost predicate Holds(p: nat, s: string)
      reads readBuf
    {
      && p + |s| < readBuf.Length && NUL !in s
      && (forall i :: 0 <= i < |s| ==> readBuf[p + i] == s[i])
      && readBuf[p + |s|] == NUL
    }

    lemma HeldString(p: nat, s: string)
      requires Holds(p, s)
      ensures Str(p) == s
    {
      hide CutNul;
      assert readBuf[p..][..|s|] == s;
      CutNulIs(readBuf[p..], s);
    }

    lemma HeldSuffix(p: nat, s: string, k: nat)
      requires Holds(p, s) && k <= |s|
      ensures Holds(p + k, s[k..])
    {}

    /** `q = strpbrk(p, " \t"); *q++ = '\0';` None when strpbrk finds nothing. */
    method CutAtBlank(p: nat, ghost s: string) returns (q: Option<nat>)
      requires Holds(p, s)
      modifies readBuf
      ensures q.None? <==> FindBlank(s) == |s|
      ensures q.None? ==> unchanged(readBuf)
      ensures q.Some? ==> var k := FindBlank(s);
        && q.value == p + k + 1
        && Holds(p, s[..k]) && Holds(q.value, s[k + 1..])
        && forall i :: 0 <= i < readBuf.Length && i != p + k ==> readBuf[i] == old(readBuf[i])
    {
      hide CutNul, FindBlank;
      HeldString(p, s);
      var k := FindBlank(Str(p));
      if k == |Str(p)| { return None; }
      HeldSuffix(p, s, k + 1);
      readBuf[p + k] := NUL;
      return Some(p + k + 1);
    }

    /** `p + strspn(p, "\t")`. */
    method AfterTabs(p: nat, ghost s: string) returns (q: nat)
      requires Holds(p, s)
      ensures p <= q && q + |SkipTabs(s)| == p + |s| && Holds(q, SkipTabs(s))
    {
      hide CutNul, Tabs;
      HeldString(p, s);
      HeldSuffix(p, s, Tabs(s));
      q := p + Tabs(Str(p));
    }

    /** `strchr(p, '/')`. */
    method FindSlash(p: nat, ghost s: string) returns (q: Option<nat>)
      requires Holds(p, s)
      ensures q.None? <==> FromSlash(s).None?
      ensures q.Some? ==> var w := FromSlash(s).value; p <= q.value && q.value + |w| == p + |s| && Holds(q.value, w)
    {
      hide CutNul, FindChar;
      HeldString(p, s);
      var k := FindChar(Str(p), '/');
      if k == |Str(p)| { return None; }
      HeldSuffix(p, s, k);
      return Some(p + k);
    }

    /** `strlen(p)`. */
    method Length(p: nat, ghost s: string) returns (n: nat)
      requires Holds(p, s)
      ensures n == |s|
    {
      HeldString(p, s);
      n := |Str(p)|;
    }

    /** `strcasecmp(p, literal) == 0`. */
    method Compare(p: nat, literal: string, ghost s: string) returns (same: bool)
      requires Holds(p, s)
      ensures same == EqNoCase(s, literal)
    {
      HeldString(p, s);
      same := EqNoCase(Str(p), literal);
    }

    /** `strncasecmp(p, literal, n) == 0`. */
    method CompareN(p: nat, literal: string, n: nat, ghost s: string) returns (same: bool)
      requires Holds(p, s)
      ensures same == EqNoCaseN(s, literal, n)
      ensures same && n <= |literal| ==> n <= |s|
    {
      HeldString(p, s);
      same := EqNoCaseN(Str(p), literal, n);
    }

    // -------------------------------------------------------------- the request line

    /** The target at `u0`, after which at least ten more bytes of the line follow. */
    method FindTarget(u0: nat, ghost s: string) returns (r: Option<Final>)
      requires Holds(u0, s) && u0 + |s| + 11 <= checkedIdx <= readBuf.Length && readBuf[checkedIdx - 1] == NUL
      modifies this`url, this`checkState, readBuf
      ensures forall i :: 0 <= i < u0 || checkedIdx - 1 <= i < readBuf.Length ==> readBuf[i] == old(readBuf[i])
      ensures Agrees(ParseTarget(verb, s), u0, old(checkState), r)
    {
      hide CutNul, AfterAuthority;
      var u := SkipAuthority(u0, "http://", s);
      if u.None? {
        url := None;
        return Some(NullTarget);
      }
      ghost var v := AfterAuthority(s, "http://").value;
      u := SkipAuthority(u.value, "https://", v);
      url := u;
      if u.None? {
        return Some(BadRequest);
      }
      ghost var w := AfterAuthority(v, "https://").value;
      if readBuf[u.value] != '/' {
        return Some(BadRequest);
      }
      var length := Length(u.value, w);
      if length == 1 {
        assert w == "/";
        AppendIndexPage(u.value);
      }
      checkState := CheckHeader;
      return None;
    }

    /** `if(strncasecmp(p, scheme, strlen(scheme)) == 0) p = strchr(p + strlen(scheme), '/');` */
    method SkipAuthority(p: nat, scheme: string, ghost s: string) returns (q: Option<nat>)
      requires Holds(p, s)
      ensures q.None? <==> AfterAuthority(s, scheme).None?
      ensures q.Some? ==> var w := AfterAuthority(s, scheme).value; p <= q.value && q.value + |w| <= p + |s| && Holds(q.value, w)
    {
      hide CutNul, EqNoCaseN, FromSlash;
      var has := CompareN(p, scheme, |scheme|, s);
      if !has { return Some(p); }
      HeldSuffix(p, s, |scheme|);
      q := FindSlash(p + |scheme|, s[|scheme|..]);
    }

    /** What the code found agrees with what the line says. */
    ghost predicate Agrees(line: LineResult, from: nat, stateBefore: CheckState, r: Option<Final>)
      reads this, readBuf
    {
      match line
      case BadLine => r == Some(BadRequest) && checkState == stateBefore
      case NullLine => r == Some(NullTarget) && checkState == stateBefore
      case Target(found, target) =>
        && r == None && checkState == CheckHeader && verb == found
        && url.Some? && from <= url.value && url.value + |target| < checkedIdx && Holds(url.value, target)
    }

    /** strcat(m_url, "judge.html") on the string "/". */
    method AppendIndexPage(u: nat)
      requires Holds(u, "/") && u + 11 < readBuf.Length
      modifies readBuf
      ensures Holds(u, "/" + "judge.html")
      ensures forall i :: 0 <= i <= u || u + 11 < i < readBuf.Length ==> readBuf[i] == old(readBuf[i])
      ensures readBuf[u + 11] == NUL
    {
      var page := "judge.html";
      forall i | 0 <= i < |page| { readBuf[u + 1 + i] := page[i]; }
      readBuf[u + 1 + |page|] := NUL;
    }

    method ReadMethod(text: nat, ghost s: string) returns (known: bool)
      requires Holds(text, s)
      modifies this`verb
      ensures known <==> MethodOf(s).Some?
      ensures known ==> verb == MethodOf(s).value
    {
      hide CutNul, EqNoCase;
      var isGet := Compare(text, "GET", s);
      if isGet {
        verb := Get;
        return true;
      }
      known := Compare(text, "POST", s);
      if known { verb := Post; }
    }

    /** parse_request_line on the line at `text`, the last of whose bytes are NULs. Everything written lies in the line. */
    method ParseRequestLine(text: nat, ghost t: string) returns (r: Option<Final>)
      requires Holds(text, t) && text + |t| + 2 <= checkedIdx <= readBuf.Length && readBuf[checkedIdx - 1] == NUL
      modifies this`verb, this`url, this`checkState, readBuf
      ensures forall i :: 0 <= i < text || checkedIdx - 1 <= i < readBuf.Length ==> readBuf[i] == old(readBuf[i])
      ensures Agrees(RequestHead.ParseRequestLine(t), text, old(checkState), r)
    {
      hide CutNul, FindBlank, RequestHead.ParseAfterMethod, MethodOf;
      var q := CutAtBlank(text, t);
      if q.None? {
        url := None;
        return Some(BadRequest);
      }
      ghost var k := FindBlank(t);
      url := q;
      var known := ReadMethod(text, t[..k]);
      if !known { return Some(BadRequest); }
      r := ParseAfterMethod(q.value, t[k + 1..]);
    }

    /** What follows the method: the target and the version. */
    method ParseAfterMethod(p: nat, ghost s: string) returns (r: Option<Final>)
      requires Holds(p, s) && p + |s| + 2 <= checkedIdx <= readBuf.Length && readBuf[checkedIdx - 1] == NUL
      modifies this`url, this`checkState, readBuf
      ensures forall i :: 0 <= i < p || checkedIdx - 1 <= i < readBuf.Length ==> readBuf[i] == old(readBuf[i])
      ensures Agrees(RequestHead.ParseAfterMethod(verb, s), p, old(checkState), r)
    {
      hide CutNul, FindBlank, EqNoCase, SkipTabs, ParseTarget;
      ghost var rest := SkipTabs(s);
      var u := AfterTabs(p, s);
      url := Some(u);
      var v := CutAtBlank(u, rest);
      if v.None? { return Some(BadRequest); }
      ghost var n := FindBlank(rest);
      var version := AfterTabs(v.value, rest[n + 1..]);
      var isHttp11 := Compare(version, "HTTP/1.1", SkipTabs(rest[n + 1..]));
      if !isHttp11 { return Some(BadRequest); }
      SameLength(SkipTabs(rest[n + 1..]), "HTTP/1.1");
      r := FindTarget(u, rest[..n]);
    }

    // -------------------------------------------------------------- header lines

    /** The buffer holds the bytes of `raw`, NULs included, and two NULs at `p`. */
    ghost predicate HoldsLine(p: nat, raw: string)
      reads readBuf
    {
      && p + |raw| + 1 < readBuf.Length
      && (forall i :: 0 <= i < |raw| ==> readBuf[p + i] == raw[i])
      && readBuf[p + |raw|] == NUL && readBuf[p + |raw| + 1] == NUL
    }

    lemma LineString(p: nat, raw: string)
      requires HoldsLine(p, raw)
      ensures Holds(p, CutNul(raw))
    {}

    lemma LineSuffix(p: nat, raw: string, k: nat)
      requires HoldsLine(p, raw) && k <= |raw| + 1
      ensures Holds(p + k, CutNul(if |raw| < k then "" else raw[k..]))
    {}

    /** m_host now points into the line of `n` bytes at `text`. */
    ghost predicate FoundHost(text: nat, n: nat, value: Option<string>)
      reads this, readBuf
    {
      && value.Some? && host.Some?
      && text <= host.value && host.value + |value.value| <= text + n && Holds(host.value, value.value)
    }

    /** parse_headers on the line at `text`; `h` is what was parsed before. */
    method ParseHeaders(text: nat, ghost raw: string, ghost h: Head) returns (r: Option<Final>)
      requires HoldsLine(text, raw)
      requires checkState == h.state && linger == h.linger && contentLength == h.contentLength
      modifies this`checkState, this`linger, this`contentLength, this`host
      ensures var (h', r') := ParseHeader(h, raw);
        && r == r' && checkState == h'.state && linger == h'.linger && contentLength == h'.contentLength
        && ((host == old(host) && h'.host == h.host) || FoundHost(text, |raw|, h'.host))
    {
      hide CutNul, EqNoCase, EqNoCaseN, SkipTabs, Atol, ToInt32;
      ghost var t := CutNul(raw);
      LineString(text, raw);
      assert |t| > 0 ==> readBuf[text + 0] == t[0] && t[0] in t;
      if readBuf[text] == NUL {
        if contentLength != 0 {
          checkState := CheckContent;
          return Some(Body);
        }
        return Some(GetRequest);
      }
      var isConnection := CompareN(text, "Connection:", 11, t);
      var isLength := CompareN(text, "Content-Length", 15, t);
      var isHost := CompareN(text, "Host:", 5, t);
      if isConnection {
        HeldSuffix(text, t, 11);
        var value := AfterTabs(text + 11, t[11..]);
        var keep := Compare(value, "keep-alive", SkipTabs(t[11..]));
        if keep { linger := true; }
      } else if isLength {
        FourteenLetters(t);
        LineSuffix(text, raw, 15);
        ghost var v := CutNul(if |raw| < 15 then "" else raw[15..]);
        var value := AfterTabs(text + 15, v);
        HeldString(value, SkipTabs(v));
        contentLength := ToInt32(Atol(Str(value)));
      } else if isHost {
        HeldSuffix(text, t, 5);
        var value := AfterTabs(text + 5, t[5..]);
        host := Some(value);
      }
      return None;
    }

    /** "Content-Length" has 14 letters, so comparing 15 bytes with it asks for the whole string. */
    static lemma FourteenLetters(t: string)
      requires EqNoCaseN(t, "Content-Length", 15)
      ensures |t| == 14
    {}

    // -------------------------------------------------------------- the main state machine

    /** Cut strings survive whatever happens from `n` on. */
    twostate lemma CutKept(n: nat)
      requires old(Cursors()) && Cursors() && n <= old(startLine) && n <= startLine
      requires forall i :: 0 <= i < n ==> readBuf[i] == old(readBuf[i])
      requires n > 0 ==> readBuf[n - 1] == NUL
      ensures forall p | 0 <= p < n :: Cut(p) == old(Cut(p))
    {
      hide CutNul;
      forall p | 0 <= p < n ensures Cut(p) == old(Cut(p)) {
        var a := readBuf[p..n];
        assert a == old(readBuf[p..n]);
        assert a[n - 1 - p] == NUL;
        CutNulPrefix(a, readBuf[p..startLine]);
        CutNulPrefix(a, old(readBuf[p..startLine]));
      }
    }

    lemma HeldCut(p: nat, s: string)
      requires Cursors() && Holds(p, s) && p + |s| < startLine
      ensures Cut(p) == s
    {
      hide CutNul;
      assert readBuf[p..startLine][..|s|] == s;
      CutNulIs(readBuf[p..startLine], s);
    }

    /** The line `raw` was cut off at `text`, and `startLine` moved behind it. */
    ghost predicate LineCut(text: nat, raw: string)
      reads this, readBuf
    {
      && Cursors() && startLine == checkedIdx == text + |raw| + 2
      && HoldsLine(text, raw) && PointersBelow(text)
      && (text > 0 ==> readBuf[text - 1] == NUL)
    }

    /** The first line: what the fields then mean is what the line says. */
    method TakeRequestLine(text: nat, ghost raw: string, ghost h: Head) returns (r: Option<Final>)
      requires LineCut(text, raw) && checkState == CheckRequestLine && h == Parsed()
      modifies this`verb, this`url, this`checkState, readBuf
      ensures forall i :: checkedIdx <= i < readBuf.Length ==> readBuf[i] == old(readBuf[i])
      ensures Valid() && (Parsed(), r) == RequestHead.HandleLine(h, raw)
    {
      hide CutNul, RequestHead.ParseRequestLine, ParseHeader;
      LineString(text, raw);
      r := ParseRequestLine(text, CutNul(raw));
      CutKept(text);
      if r.None? { HeldCut(url.value, RequestHead.ParseRequestLine(CutNul(raw)).url); }
    }

    method TakeHeaderLine(text: nat, ghost raw: string, ghost h: Head) returns (r: Option<Final>)
      requires LineCut(text, raw) && checkState == CheckHeader && h == Parsed()
      modifies this`checkState, this`linger, this`contentLength, this`host
      ensures Valid() && (Parsed(), r) == RequestHead.HandleLine(h, raw)
    {
      hide CutNul, RequestHead.ParseRequestLine, ParseHeader;
      r := ParseHeaders(text, raw, h);
      SameFields(h, raw);
      ghost var h' := ParseHeader(h, raw).0;
      if !(host == old(host) && h'.host == h.host) { HeldCut(host.value, h'.host.value); }
    }

    static lemma SameFields(h: Head, raw: string)
      ensures ParseHeader(h, raw).0.verb == h.verb && ParseHeader(h, raw).0.url == h.url
      ensures ParseHeader(h, raw).0.state == if ParseHeader(h, raw).1 == Some(Body) then CheckContent else h.state
    {
      hide CutNul, EqNoCase, EqNoCaseN, SkipTabs, ContentLength;
    }

    /** parse_line and get_line: the next line is cut, or the cursor waits. */
    method NextLine() returns (status: LineStatus)
      requires Valid()
      modifies this`checkedIdx, this`startLine, readBuf
      ensures forall i :: checkedIdx <= i < readBuf.Length ==> readBuf[i] == old(readBuf[i])
      ensures status == ScanLine(received, old(checkedIdx)).0
      ensures Valid() && Parsed() == old(Parsed())
      ensures var k := ScanLine(received, old(checkedIdx)).1;
        if status == LineOk then LineCut(old(startLine), received[old(startLine)..k])
        else startLine == old(startLine) && checkedIdx == k
    {
      hide ScanLine, CutNul;
      status := ParseLine();
      if status == LineOk { startLine := checkedIdx; }
      CutKept(old(startLine));
    }

    /** One turn of the loop in process_read. */
    method TakeLine() returns (waiting: bool, r: Option<Final>)
      requires Valid() && checkState != CheckContent
      modifies this, readBuf
      ensures received == old(received) && readIdx == old(readIdx) && checkedIdx >= old(checkedIdx)
      ensures forall i :: checkedIdx <= i < readBuf.Length ==> readBuf[i] == old(readBuf[i])
      ensures Valid() && (r.None? ==> checkState != CheckContent)
      ensures Turn(RequestHead.HandleLine, received, old(At())) ==
        if waiting then Wait(checkedIdx) else if r.Some? then Stop(At(), r.value) else Go(At())
      ensures content == old(content)
      ensures waiting ==> r.None? && At() == old(At()).(checked := checkedIdx)
    {
      hide ScanLine, RequestHead.HandleLine, CutNul;
      ghost var h := Parsed();
      ghost var raw := received[startLine..ScanLine(received, checkedIdx).1];
      var text := startLine;
      var status := NextLine();
      if status != LineOk { return true, None; }
      if checkState == CheckRequestLine {
        r := TakeRequestLine(text, raw, h);
      } else {
        r := TakeHeaderLine(text, raw, h);
      }
      if r.None? { NoContentYet(h, raw); }
      waiting := false;
    }

    /** process_read, up to the end of the head: the lines are those of the bytes received, whatever the earlier
        calls were; everything written lies below checkedIdx. */
    method ProcessRead() returns (r: Option<Final>)
      requires Valid() && checkState != CheckContent
      modifies this, readBuf
      ensures received == old(received) && readIdx == old(readIdx)
      ensures forall i :: checkedIdx <= i < readBuf.Length ==> readBuf[i] == old(readBuf[i])
      ensures Valid() && (At(), r) == Read(received, old(At()))
      ensures r.None? ==> checkState != CheckContent
      ensures content == old(content)
    {
      hide Turn;
      while true
        invariant content == old(content)
        invariant Valid() && checkState != CheckContent
        invariant received == old(received) && readIdx == old(readIdx)
        invariant forall i :: checkedIdx <= i < readBuf.Length ==> readBuf[i] == old(readBuf[i])
        invariant Read(received, At()) == Read(received, old(At()))
        decreases readIdx - checkedIdx
      {
        var waiting;
        waiting, r := TakeLine();
        if waiting || r.Some? { return; }
      }
    }

    /** parse_content, when the body starts where the head ended: it is accepted once all its bytes are there, and
        m_string then designates it. A negative length is accepted at once, and the NUL is put in front of the body, if
        the buffer goes back that far. OutsideBuffer is where the NUL would be put in front of the buffer or behind. */
    method ParseContent() returns (r: BodyStatus)
      requires Valid() && checkState == CheckContent && startLine == checkedIdx
      modifies this`content, readBuf
      ensures r == BodyOpen <==> |received| < ToInt32(contentLength + checkedIdx)
      ensures r == OutsideBuffer <==>
        |received| >= ToInt32(contentLength + checkedIdx) && !(0 <= startLine + contentLength < READ_BUFFER_SIZE)
      ensures r == BodyRead ==> content == Some(startLine)
      ensures r == BodyRead && contentLength >= 0 ==>
        Str(startLine) == CutNul(received[startLine..startLine + contentLength])
      ensures r == BodyRead && contentLength < 0 ==> Str(startLine) == old(Str(startLine))
      ensures r == BodyRead ==> forall i :: 0 <= i < READ_BUFFER_SIZE ==>
        readBuf[i] == if i == startLine + contentLength then NUL else old(readBuf[i])
      ensures r != BodyRead ==> content == old(content) && unchanged(readBuf) && Valid()
    {
      hide CutNul, ToInt32;
      if readIdx < ToInt32(contentLength + checkedIdx) { return BodyOpen; }
      if !(0 <= startLine + contentLength < READ_BUFFER_SIZE) { return OutsideBuffer; }
      ghost var rest := readBuf[startLine..];
      readBuf[startLine + contentLength] := NUL;
      content := Some(startLine);
      if contentLength >= 0 {
        SmallSum(contentLength + checkedIdx);
        ghost var raw := received[startLine..startLine + contentLength];
        assert readBuf[startLine..][..contentLength] == raw;
        CutAtLength(readBuf[startLine..], raw);
      } else {
        assert readBuf[startLine..] == rest;
      }
      return BodyRead;
    }

    static lemma SmallSum(n: int)
      requires 0 <= n < READ_BUFFER_SIZE
      ensures ToInt32(n) == n
    {}

    static lemma CutAtLength(s: string, raw: string)
      requires raw <= s && |raw| < |s| && s[|raw|] == NUL
      ensures CutNul(s) == CutNul(raw)
    {
      hide CutNul;
      CutNulIs(s, CutNul(raw));
    }

    /** Chunk after chunk arrives and is processed, as long as process_read asks for more: the outcome and the
        whole parsed state are those of one run over all the bytes. */
    method ReadRequest(chunks: seq<string>) returns (r: Option<Final>)
      requires Valid() && At() == INITIAL && received == "" && |Flatten(chunks)| <= READ_BUFFER_SIZE
      modifies this, readBuf
      ensures Valid() && (At(), r) == ReadAll(Flatten(chunks))
      ensures content == old(content) && startLine <= |Flatten(chunks)|
    {
      hide Turn;
      r := None;
      var i := 0;
      while i < |chunks| && r.None?
        invariant 0 <= i <= |chunks| && Valid() && readIdx == |received| && content == old(content)
        invariant readIdx + |Flatten(chunks[i..])| == |Flatten(chunks)|
        invariant r.None? ==> checkState != CheckContent && readIdx + |Flatten(chunks[i..])| <= READ_BUFFER_SIZE
        invariant ReadChunks(chunks) ==
          if r.Some? then (At(), r) else Feed(RequestHead.HandleLine, received, At(), chunks[i..])
      {
        assert chunks[i..][1..] == chunks[i + 1..];
        Store(chunks[i]);
        r := ProcessRead();
        i := i + 1;
      }
      ReadInPieces(chunks);
    }
  }
}

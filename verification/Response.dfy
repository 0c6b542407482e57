/** process_write builds the response head in a fixed buffer; a client that reads the head back learns how many
    body bytes follow. */
module Response {
  import opened CStrings
  import opened LineMachine

  // ---------------------------------------------------------------- %d and back

  function Digit(d: nat): char
    requires d < 10
  {
    (d + '0' as int) as char
  }

  function NatText(n: nat): (s: string)
    ensures s != ""
  {
    if n < 10 then [Digit(n)] else NatText(n / 10) + [Digit(n % 10)]
  }

  /** What "%d" prints. */
  function IntText(n: int): string { if n < 0 then "-" + NatText(-n) else NatText(n) }

  predicate AllDigits(s: string) { forall i :: 0 <= i < |s| ==> '0' <= s[i] <= '9' }

  lemma {:induction false} DigitsAppend(s: string, d: nat, acc: nat)
    requires AllDigits(s) && d < 10
    ensures Digits(s + [Digit(d)], acc) == 10 * Digits(s, acc) + d
  {
    if s == "" {
      assert s + [Digit(d)] == [Digit(d)] && [Digit(d)][1..] == "";
    } else {
      assert (s + [Digit(d)])[1..] == s[1..] + [Digit(d)];
      DigitsAppend(s[1..], d, 10 * acc + (s[0] as int - '0' as int));
    }
  }

  lemma {:induction false} NatTextDigits(n: nat)
    ensures AllDigits(NatText(n)) && Digits(NatText(n), 0) == n
  {
    if n >= 10 {
      NatTextDigits(n / 10);
      DigitsAppend(NatText(n / 10), n % 10, 0);
    } else {
      DigitsAppend("", n, 0);
      assert "" + [Digit(n)] == [Digit(n)];
    }
  }

  /** atol reads back what was printed in decimal, as far as a long goes. */
  lemma AtolText(n: int)
    ensures Atol(IntText(n)) ==
      if n < -0x8000_0000_0000_0000 then -0x8000_0000_0000_0000
      else if n > 0x7fff_ffff_ffff_ffff then 0x7fff_ffff_ffff_ffff else n
  {
    hide NatText, Digits;
    var m := if n < 0 then -n else n;
    NatTextDigits(m);
    var t := NatText(m);
    assert '0' <= t[0] <= '9';
    if n < 0 {
      assert ("-" + t)[1..] == t;
    }
  }

  /** A plus sign is read over, and so is white space in front. */
  lemma AtolPlus(n: nat, s: string, c: char)
    requires n <= 0x7fff_ffff_ffff_ffff && (c == ' ' || 9 <= c as int <= 13)
    ensures Atol("+" + NatText(n)) == n && Atol([c] + s) == Atol(s)
  {
    hide NatText, Digits;
    NatTextDigits(n);
    assert ("+" + NatText(n))[1..] == NatText(n);
    assert ([c] + s)[1..] == s;
  }

  lemma AtolIntText(n: int)
    requires -0x8000_0000 <= n < 0x8000_0000
    ensures Atol(IntText(n)) == n
  {
    hide Atol, IntText;
    AtolText(n);
  }

  function Pow10(k: nat): nat { if k == 0 then 1 else 10 * Pow10(k - 1) }

  lemma {:induction false} NatTextLength(n: nat, k: nat)
    requires 0 < k && n < Pow10(k)
    ensures |NatText(n)| <= k
  {
    if n >= 10 {
      assert Pow10(1) == 10;
      assert k > 1;
      NatTextLength(n / 10, k - 1);
    }
  }

  lemma IntTextPlain(n: int)
    requires -0x8000_0000 <= n < 0x8000_0000
    ensures |IntText(n)| <= 11 && PlainLine(IntText(n)) && NUL !in IntText(n)
  {
    hide NatText, Digits;
    var m := if n < 0 then -n else n;
    NatTextDigits(m);
    assert Pow10(10) == 10000000000 by { TenDigits(); }
    NatTextLength(m, 10);
    var t := NatText(m);
    assert forall c | c in t :: '0' <= c <= '9';
  }

  lemma TenDigits()
    ensures Pow10(10) == 10000000000
  {}

  // ---------------------------------------------------------------- the head

  function StatusLine(status: nat, title: string): string { "HTTP/1.1 " + IntText(status) + " " + title }

  function LingerLine(linger: bool): string { "Connection:" + if linger then "keep-alive" else "close" }

  function HeadLines(status: nat, title: string, length: int, linger: bool): seq<string> {
    [StatusLine(status, title)] + (["Content-Length:" + IntText(length)] + ([LingerLine(linger)] + ([""] + [])))
  }

  function HeadText(status: nat, title: string, length: int, linger: bool): string {
    Lines(HeadLines(status, title, length, linger))
  }

  // ---------------------------------------------------------------- the client

  /** What a client gathers from the head. */
  datatype Reply = Reply(status: Option<int>, length: Option<int>, keep: Option<bool>)

  datatype ReplyEnd = EndOfHead | NotHttp

  const NO_REPLY: Cursor<Reply> := Cursor(0, 0, Reply(None, None, None))

  /** The two values of the Connection field in section 6.1 of RFC 7230 and its predecessor. */
  function KeepOf(value: string): Option<bool> {
    if EqNoCase(value, "keep-alive") then Some(true) else if EqNoCase(value, "close") then Some(false) else None
  }

  function ReadReply(r: Reply, line: string): (Reply, Option<ReplyEnd>) {
    if r.status.None? then
      if EqNoCaseN(line, "HTTP/1.1 ", 9) then (r.(status := Some(Atol(line[9..]))), None) else (r, Some(NotHttp))
    else if line == "" then (r, Some(EndOfHead))
    else if EqNoCaseN(line, "Content-Length:", 15) then (r.(length := Some(Atol(line[15..]))), None)
    else if EqNoCaseN(line, "Connection:", 11) then (r.(keep := KeepOf(line[11..])), None)
    else (r, None)
  }

  /** The head of `bytes`, read up to the first empty line; `checked` is where the body begins. */
  function Decode(bytes: string): (Cursor<Reply>, Option<ReplyEnd>) { Run(ReadReply, bytes, NO_REPLY) }

  lemma {:induction false} DigitsStop(s: string, rest: string, acc: nat)
    requires AllDigits(s) && (rest == "" || !('0' <= rest[0] <= '9'))
    ensures Digits(s + rest, acc) == Digits(s, acc)
  {
    if s == "" {
      assert s + rest == rest;
    } else {
      assert (s + rest)[1..] == s[1..] + rest;
      DigitsStop(s[1..], rest, 10 * acc + (s[0] as int - '0' as int));
    }
  }

  lemma ReadsStatus(status: nat, title: string)
    requires status < 1000
    ensures ReadReply(NO_REPLY.parsed, StatusLine(status, title)) == (Reply(Some(status), None, None), None)
  {
    var digits, rest := NatText(status), " " + title;
    hide NatText, Digits;
    var line := StatusLine(status, title);
    assert Take(line, 9) == "HTTP/1.1 " == Take("HTTP/1.1 ", 9);
    assert line[9..] == digits + rest;
    NatTextDigits(status);
    assert '0' <= digits[0] <= '9';
    DigitsStop(digits, rest, 0);
  }

  lemma ReadsLength(status: int, n: int)
    requires -0x8000_0000 <= n < 0x8000_0000
    ensures ReadReply(Reply(Some(status), None, None), "Content-Length:" + IntText(n)) == (Reply(Some(status), Some(n), None), None)
  {
    hide IntText, Atol;
    var line := "Content-Length:" + IntText(n);
    assert Take(line, 15) == "Content-Length:" == Take("Content-Length:", 15);
    assert line[15..] == IntText(n);
    AtolIntText(n);
  }

  lemma ReadsLinger(r: Reply, linger: bool)
    requires r.status.Some?
    ensures ReadReply(r, LingerLine(linger)) == (r.(keep := Some(linger)), None)
  {
    hide Atol;
    var line := LingerLine(linger);
    assert Take(line, 15)[1] == 'o' && Take(line, 15)[2] == 'n' && Take(line, 15)[3] == 'n';
    assert Take("Content-Length:", 15)[3] == 't';
    assert Take(line, 11) == "Connection:" == Take("Connection:", 11);
    if linger { assert line[11..] == "keep-alive"; } else { assert line[11..] == "close"; }
  }

  lemma ReplyNext(at: nat, r: Reply, line: string, rest: seq<string>)
    ensures var (r', end) := ReadReply(r, line); var n := at + |line| + 2;
      Fold(ReadReply, at, r, [line] + rest) == if end.Some? then (Cursor(n, n, r'), end) else Fold(ReadReply, n, r', rest)
    ensures |Lines([line] + rest)| == |line| + 2 + |Lines(rest)|
  {
    hide ReadReply;
    assert ([line] + rest)[1..] == rest;
  }

  lemma HeadAlone(status: nat, title: string, length: int, linger: bool)
    requires status < 1000 && PlainLine(title) && -0x8000_0000 <= length < 0x8000_0000
    ensures var head := HeadText(status, title, length, linger);
      Decode(head) == (Cursor(|head|, |head|, Reply(Some(status), Some(length), Some(linger))), Some(EndOfHead))
  {
    hide ReadReply, StatusLine, IntText, LingerLine, Fold, Lines, PlainLine, Run;
    var head := HeadText(status, title, length, linger);
    var l0, l1, l2 := StatusLine(status, title), "Content-Length:" + IntText(length), LingerLine(linger);
    var r1, r2, r3 := Reply(Some(status), None, None), Reply(Some(status), Some(length), None), Reply(Some(status), Some(length), Some(linger));
    PlainLines(status, title, length, linger);
    RunOfLines(ReadReply, "", NO_REPLY.parsed, HeadLines(status, title, length, linger));
    assert "" + head == head;
    ReadsStatus(status, title);
    ReplyNext(0, NO_REPLY.parsed, l0, [l1] + ([l2] + ([""] + [])));
    ReadsLength(status, length);
    ReplyNext(|l0| + 2, r1, l1, [l2] + ([""] + []));
    ReadsLinger(r2, linger);
    ReplyNext(|l0| + |l1| + 4, r2, l2, [""] + []);
    LastLine(r3);
    ReplyNext(|l0| + |l1| + |l2| + 6, r3, "", []);
    NoLines();
  }

  /** Whatever body follows, the client finds the end of the head and reads back the status, the length and the
      linger flag. */
  lemma HeadDecodes(status: nat, title: string, length: int, linger: bool, body: string)
    requires status < 1000 && PlainLine(title) && -0x8000_0000 <= length < 0x8000_0000
    ensures var head := HeadText(status, title, length, linger);
      Decode(head + body) == (Cursor(|head|, |head|, Reply(Some(status), Some(length), Some(linger))), Some(EndOfHead))
  {
    hide ReadReply, HeadText, PlainLine, Run;
    HeadAlone(status, title, length, linger);
    RunGrows(ReadReply, HeadText(status, title, length, linger), body, NO_REPLY);
  }

  lemma LastLine(r: Reply)
    requires r.status.Some?
    ensures ReadReply(r, "") == (r, Some(EndOfHead))
  {}

  lemma PlainLines(status: nat, title: string, length: int, linger: bool)
    requires status < 1000 && PlainLine(title) && -0x8000_0000 <= length < 0x8000_0000
    ensures forall i :: 0 <= i < |HeadLines(status, title, length, linger)| ==> PlainLine(HeadLines(status, title, length, linger)[i])
    ensures |HeadText(status, title, length, linger)| <= |title| + 100
  {
    hide IntText;
    IntTextPlain(status);
    IntTextPlain(length);
    LineLengths(status, title, length, linger);
  }

  lemma LineLengths(status: nat, title: string, length: int, linger: bool)
    requires |IntText(status)| <= 11 && |IntText(length)| <= 11
    ensures |HeadText(status, title, length, linger)| <= |title| + 100
  {
    hide IntText, ReadReply, Fold;
    var l0, l1, l2 := StatusLine(status, title), "Content-Length:" + IntText(length), LingerLine(linger);
    var r := NO_REPLY.parsed;
    ReplyNext(0, r, l0, [l1] + ([l2] + ([""] + [])));
    ReplyNext(0, r, l1, [l2] + ([""] + []));
    ReplyNext(0, r, l2, [""] + []);
    ReplyNext(0, r, "", []);
    NoLines();
    hide Lines;
  }

  // ---------------------------------------------------------------- the writer

  const WRITE_BUFFER_SIZE: nat := 10240

  datatype HttpCode = NoRequest | GetRequest | BadRequest | NoResource | ForbiddenResource | FileRequest | InternalError | ClosedConnection

  const FORM_403 := "You do not have permission to get file form this server.\n"
  const FORM_404 := "The requested file was not found on this server.\n"
  const FORM_500 := "There was an unusual problem serving the request file.\n"
  const EMPTY_PAGE := "<html><body></body></html>"

  /** The answers that consist of a form: a malformed request is answered with 404. */
  function FormFor(code: HttpCode): Option<(nat, string, string)> {
    match code
    case InternalError => Some((500, "Internal Error", FORM_500))
    case BadRequest => Some((404, "Not Found", FORM_404))
    case ForbiddenResource => Some((403, "Forbidden", FORM_403))
    case _ => None
  }

  class Writer {
    const writeBuf: array<char>
    const linger: bool
    var writeIdx: nat
    var iov0Length: nat   // of the head, and of the mapped file
    var iov1Length: nat
    var ivCount: nat
    var bytesToSend: int

    ghost predicate Valid()
      reads this
    {
      writeBuf.Length == WRITE_BUFFER_SIZE && writeIdx <= WRITE_BUFFER_SIZE - 2
    }

    ghost function Written(): string
      requires Valid()
      reads this, writeBuf
    {
      writeBuf[..writeIdx]
    }

    constructor (linger: bool)
      ensures Valid() && Written() == "" && this.linger == linger && fresh(writeBuf)
    {
      writeBuf := new char[WRITE_BUFFER_SIZE](_ => NUL);
      this.linger := linger;
      writeIdx, iov0Length, iov1Length, ivCount, bytesToSend := 0, 0, 0, 0, 0;
    }

    /** vsnprintf: at most `size` bytes are stored, the last of them a NUL; the full length is returned. */
    method Vsnprintf(at: nat, size: nat, text: string) returns (length: nat)
      requires at + size <= writeBuf.Length
      modifies writeBuf
      ensures length == |text|
      ensures forall i :: 0 <= i < |text| && i + 1 < size ==> writeBuf[at + i] == text[i]
      ensures forall i :: 0 <= i < at || at + size <= i < writeBuf.Length ==> writeBuf[i] == old(writeBuf[i])
    {
      if size > 0 {
        var n := if |text| < size then |text| else size - 1;
        forall i | 0 <= i < n { writeBuf[at + i] := text[i]; }
        writeBuf[at + n] := NUL;
      }
      length := |text|;
    }

    /** add_response, of the text its format produces: all or nothing. */
    method AddResponse(text: string) returns (ok: bool)
      requires Valid()
      modifies this`writeIdx, writeBuf
      ensures Valid() && (ok <==> |text| < WRITE_BUFFER_SIZE - 1 - old(writeIdx))
      ensures Written() == old(Written()) + if ok then text else ""
    {
      if writeIdx >= WRITE_BUFFER_SIZE { return false; }
      var size := WRITE_BUFFER_SIZE - 1 - writeIdx;
      ghost var before := Written();
      var length := Vsnprintf(writeIdx, size, text);
      assert writeBuf[..writeIdx] == before;
      if length >= size { return false; }
      writeIdx := writeIdx + length;
      assert writeBuf[..writeIdx] == before + text;
      return true;
    }

    /** A line of the head and its "\r\n". */
    method AddLine(line: string, ghost lines: seq<string>) returns (ok: bool)
      requires Valid() && Written() == Lines(lines)
      modifies this`writeIdx, writeBuf
      ensures Valid() && (ok <==> |line| + 2 < WRITE_BUFFER_SIZE - 1 - old(writeIdx))
      ensures Written() == Lines(if ok then lines + [line] else lines)
      ensures writeIdx == old(writeIdx) + if ok then |line| + 2 else 0
    {
      LinesAppend(lines, line);
      ok := AddResponse(line + "\r\n");
      assert writeIdx == |Written()|;
    }

    /** add_headers, after the status line. */
    method AddHeaders(contentLength: int, ghost first: string) returns (ok: bool)
      requires Valid() && Written() == Lines([first])
      requires -0x8000_0000 <= contentLength < 0x8000_0000 && |first| <= 100
      modifies this`writeIdx, writeBuf
      ensures Valid() && ok
      ensures Written() == Lines([first] + (["Content-Length:" + IntText(contentLength)] + ([LingerLine(linger)] + ([""] + []))))
    {
      hide Lines, IntText;
      IntTextPlain(contentLength);
      OneLineLength(first);
      assert writeIdx == |Written()|;
      var l1, l2 := "Content-Length:" + IntText(contentLength), LingerLine(linger);
      ok := AddLine(l1, [first]);
      if ok { ok := AddLine(l2, [first] + [l1]); }
      if ok { ok := AddLine("", [first] + [l1] + [l2]); }
      assert [first] + [l1] + [l2] + [""] == [first] + ([l1] + ([l2] + ([""] + [])));
    }

    static lemma OneLineLength(line: string)
      ensures |Lines([line])| == |line| + 2
    {}

    /** process_write, for a file of `fileSize` bytes when there is one. */
    method ProcessWrite(code: HttpCode, fileSize: nat) returns (ok: bool)
      requires Valid() && Written() == ""
      modifies this, writeBuf
      ensures Valid()
      ensures ok <==> FormFor(code).Some? || (code == FileRequest && fileSize > 0)
      ensures ok && code != FileRequest ==>
        var (status, title, form) := FormFor(code).value;
        && Written() == HeadText(status, title, |form|, linger) + form
        && ivCount == 1 && iov0Length == |Written()| && bytesToSend == |Written()|
      ensures ok && code == FileRequest ==>
        && Written() == HeadText(200, "OK", ToInt32(fileSize), linger)
        && ivCount == 2 && iov0Length == |Written()| && iov1Length == fileSize
        && bytesToSend == ToInt32(|Written()| + fileSize)
    {
      hide Lines, IntText, ToInt32;
      match code {
        case InternalError =>
          ok := AddForm(500, "Internal Error", FORM_500);
        case BadRequest =>
          ok := AddForm(404, "Not Found", FORM_404);
        case ForbiddenResource =>
          ok := AddForm(403, "Forbidden", FORM_403);
        case FileRequest =>
          if fileSize != 0 {
            AddHead(200, "OK", ToInt32(fileSize));
            iov0Length, iov1Length, ivCount := writeIdx, fileSize, 2;
            bytesToSend := ToInt32(writeIdx + fileSize);
            return true;
          }
          ok := AddForm(200, "OK", EMPTY_PAGE);
          return false;
        case _ =>
          return false;
      }
      if !ok { return false; }
      iov0Length, ivCount, bytesToSend := writeIdx, 1, writeIdx;
      return true;
    }

    /** add_status_line and add_headers, at the front of the buffer. */
    method AddHead(status: nat, title: string, contentLength: int)
      requires Valid() && Written() == ""
      requires status < 1000 && |title| <= 40 && -0x8000_0000 <= contentLength < 0x8000_0000
      modifies this`writeIdx, writeBuf
      ensures Valid() && Written() == HeadText(status, title, contentLength, linger) && writeIdx <= 200
    {
      hide Lines, IntText;
      NoLines();
      IntTextPlain(status);
      var first := StatusLine(status, title);
      assert writeIdx == |Written()| == 0;
      var ok := AddLine(first, []);
      assert [] + [first] == [first];
      ok := AddHeaders(contentLength, first);
      IntTextPlain(contentLength);
      LineLengths(status, title, contentLength, linger);
      assert writeIdx == |Written()|;
    }

    method AddForm(status: nat, title: string, form: string) returns (ok: bool)
      requires Valid() && Written() == ""
      requires status < 1000 && |title| <= 40 && |form| <= 1000
      modifies this`writeIdx, writeBuf
      ensures Valid() && ok && Written() == HeadText(status, title, |form|, linger) + form
    {
      AddHead(status, title, |form|);
      ok := AddResponse(form);
    }
  }

  // ---------------------------------------------------------------- framing

  /** The status a client reads. */
  function StatusOf(code: HttpCode): nat {
    if code == InternalError then 500 else if code == BadRequest then 404 else if code == ForbiddenResource then 403 else 200
  }

  function ReasonOf(code: HttpCode): string {
    if code == InternalError then "Internal Error" else if code == BadRequest then "Not Found"
    else if code == ForbiddenResource then "Forbidden" else "OK"
  }

  /** Which codes are answered with a form, and the status, reason and text each gets. */
  lemma FormStatus(code: HttpCode)
    ensures FormFor(code).Some? <==> code == InternalError || code == BadRequest || code == ForbiddenResource
    ensures FormFor(code).Some? ==>
      FormFor(code).value == (StatusOf(code), ReasonOf(code),
        if code == InternalError then FORM_500 else if code == BadRequest then FORM_404 else FORM_403)
  {}

  /** A form is framed: the client reads the status of the form and a length that is the length of what follows. */
  lemma FormFramed(code: HttpCode, linger: bool)
    requires FormFor(code).Some?
    ensures var (status, title, form) := FormFor(code).value;
      var text := HeadText(status, title, |form|, linger) + form;
      var (c, end) := Decode(text);
      end == Some(EndOfHead) && text[c.start..] == form &&
      c.parsed == Reply(Some(StatusOf(code)), Some(|text[c.start..]|), Some(linger))
  {
    hide Decode, HeadText;
    FormStatus(code);
    var (status, title, form) := FormFor(code).value;
    HeadDecodes(status, title, |form|, linger, form);
  }

  /** A file is framed exactly when its size is an int; bytes_to_send is right exactly when head and file together
      are. */
  lemma FileFramed(linger: bool, file: string)
    ensures var head := HeadText(200, "OK", ToInt32(|file|), linger);
      var (c, end) := Decode(head + file);
      && end == Some(EndOfHead) && (head + file)[c.start..] == file
      && c.parsed.status == Some(200) && c.parsed.keep == Some(linger)
      && (c.parsed.length == Some(|file|) <==> |file| < 0x8000_0000)
      && (ToInt32(|head| + |file|) == |head| + |file| <==> |head| + |file| < 0x8000_0000)
  {
    hide Decode, HeadText;
    HeadDecodes(200, "OK", ToInt32(|file|), linger, file);
  }
}

/** From process_write through write to the client, and from the URL a client asks for to the file it reads. */
module Exchange {
  import opened CStrings
  import opened LineMachine
  import opened Response
  import opened RoundTrip
  import opened WebBench
  import Accounts
  import opened HttpConn
  import RequestHead
  import Sender

  /** The returns of writev send the whole response, and at most one leaves the cursor strictly inside the head. */
  ghost predicate SentWell(head: nat, file: nat, sizes: seq<nat>) {
    && Sender.Possible(Sender.Start(head, file), head, sizes)
    && Sender.Deliver(Sender.Start(head, file), head, sizes).0.toSend == 0
    && Sender.Insides(0, head, sizes) <= 1
  }

  /** What those returns put on the wire. */
  function OnWire(head: string, file: string, sizes: seq<nat>): string
    requires SentWell(|head|, |file|, sizes)
  {
    Sender.Bytes(head, file, Sender.Deliver(Sender.Start(|head|, |file|), |head|, sizes).1)
  }

  lemma HeadNotEmpty(linger: bool, length: int)
    ensures HeadText(200, "OK", length, linger) != ""
  {
    hide StatusLine, IntText, LingerLine;
  }

  /** A file whose response is an int long, sent well, arrives: the client reads 200, the length of the file, the linger
      flag, and then exactly the file. */
  lemma FileArrives(linger: bool, file: string, sizes: seq<nat>)
    requires var head := HeadText(200, "OK", |file|, linger);
      file != "" && |head| + |file| < 0x8000_0000 && SentWell(|head|, |file|, sizes)
    ensures var wire := OnWire(HeadText(200, "OK", |file|, linger), file, sizes);
      var (c, end) := Decode(wire);
      end == Some(EndOfHead) && c.parsed == Reply(Some(200), Some(|file|), Some(linger)) && wire[c.start..] == file
  {
    hide HeadText, Decode, Sender.Possible, Sender.Deliver, Sender.Insides, Sender.Bytes;
    var head := HeadText(200, "OK", |file|, linger);
    HeadNotEmpty(linger, |file|);
    Sender.WireText(head, file, sizes);
    HeadDecodes(200, "OK", |file|, linger, file);
    assert (head + file)[|head|..] == file;
  }

  // ---------------------------------------------------------------- the whole way

  /** The file do_request names for a target; `queryOk` matters to the account pages only. */
  function FileFor(docRoot: string, users: Accounts.Users, target: string, queryOk: bool): string
    requires '/' in target
  {
    Accounts.DefaultContent();
    Accounts.FileName(docRoot, Accounts.Served(users, target, Accounts.DEFAULT, queryOk))
  }

  lemma PageHasSlash(url: string)
    requires Direct(url)
    ensures '/' in Page(PathOf(url))
  {
    hide PathOf, Direct;
    DirectPath(url);
    assert Page(PathOf(url))[0] == '/';
  }

  /** The file a URL means. */
  function FileOf(docRoot: string, users: Accounts.Users, url: string, queryOk: bool): string
    requires Direct(url)
  {
    PageHasSlash(url);
    FileFor(docRoot, users, Page(PathOf(url)), queryOk)
  }

  /** What the server puts on the wire for a target, with the files on its disk. */
  function Answered(docRoot: string, users: Accounts.Users, disk: map<string, string>, h: RequestHead.Head, queryOk: bool,
                    sizes: seq<nat>): string
    requires h.url.Some? && '/' in h.url.value && FileFor(docRoot, users, h.url.value, queryOk) in disk
    requires var file := disk[FileFor(docRoot, users, h.url.value, queryOk)];
      SentWell(|HeadText(200, "OK", |file|, h.linger)|, |file|, sizes)
  {
    var file := disk[FileFor(docRoot, users, h.url.value, queryOk)];
    OnWire(HeadText(200, "OK", |file|, h.linger), file, sizes)
  }

  lemma ReadsDirect(url: string, reload: bool, chunks: seq<string>)
    requires Direct(url) && NoBlanks(PathOf(url)) && Flatten(chunks) == Printed(reload, true, url)
    ensures var (at, result) := RequestHead.ReadChunks(chunks);
      result == Some(RequestHead.GetRequest) && at.parsed.url == Some(Page(PathOf(url))) && !at.parsed.linger
  {
    hide RequestHead.ReadChunks, RequestHead.ReadAll, Direct, NoBlanks, Printed, PathOf, HostOf, Page, Flatten;
    RequestHead.ReadInPieces(chunks);
    DirectClean(reload, url);
  }

  /** The string m_url designates ends inside the lines already cut. */
  lemma UrlHeld(conn: HttpConn, target: string)
    requires conn.Valid() && conn.checkState != RequestHead.CheckRequestLine && conn.Parsed().url == Some(target)
    ensures Accounts.Holds(conn.readBuf, conn.url.value, target)
  {
    hide CutNul;
    var u := conn.url.value;
    var cut := conn.readBuf[u..conn.startLine];
    assert CutNul(cut) == target;
    assert cut[|cut| - 1] == NUL;
    assert target <= cut;
    assert |target| == |cut| ==> target == cut;
    assert forall i :: 0 <= i < |target| ==> conn.readBuf[u + i] == cut[i] == target[i];
  }

  /** do_request names the file, for a request whose head is read and has no body. */
  method NamePage(conn: HttpConn, server: Accounts.Server, queryOk: bool, ghost target: string) returns (name: string)
    requires conn.Valid() && conn.checkState == RequestHead.CheckHeader && conn.content == None
    requires conn.Parsed().url == Some(target) && target != "" && target[0] == '/'
    requires Accounts.Nameable(server.docRoot, target)
    requires Accounts.IsAccount(Accounts.Command(target)) ==> conn.url.value + Accounts.PAGE_ROOM <= RequestHead.READ_BUFFER_SIZE
    modifies server, conn.readBuf
    ensures name == FileFor(server.docRoot, old(server.users), target, queryOk)
    ensures (Accounts.DefaultContent(); server.users == Accounts.UsersAfter(old(server.users), target, Accounts.DEFAULT))
  {
    hide CutNul, Accounts.Served, Accounts.UsersAfter, Accounts.Command, Accounts.Nameable, Accounts.FileName,
      Accounts.NameOf, Accounts.PasswordOf, Accounts.Extractable, HttpConn.Parsed, HttpConn.Cut;
    UrlHeld(conn, target);
    Accounts.DefaultContent();
    DefaultFits();
    var realFile := new char[Accounts.FILENAME_LEN](_ => NUL);
    server.DoRequest(conn.readBuf, conn.url.value, target, Accounts.DEFAULT, queryOk, realFile);
    name := Accounts.StringAt(realFile, 0, FileFor(server.docRoot, old(server.users), target, queryOk));
  }

  lemma DefaultFits()
    ensures Accounts.Extractable(Accounts.DEFAULT) && Accounts.Fits(Accounts.DEFAULT)
  {
    Accounts.DefaultContent();
  }

  /** process_write for the file of that name; `disk` has the files that can be read. */
  method FileResponse(disk: map<string, string>, name: string, linger: bool)
    returns (ok: bool, writer: Writer, file: string)
    ensures fresh(writer) && writer.Valid() && writer.linger == linger
    ensures ok <==> name in disk && disk[name] != ""
    ensures ok ==> file == disk[name] && ResponseFor(writer, file)
  {
    hide HeadText, ToInt32;
    writer := new Writer(linger);
    file := "";
    if name in disk {
      file := disk[name];
      ok := writer.ProcessWrite(FileRequest, |file|);
    } else {
      ok := writer.ProcessWrite(NoResource, 0);
    }
  }

  /** The head in the buffer, and the two iovecs. */
  ghost predicate ResponseFor(writer: Writer, file: string)
    reads writer, writer.writeBuf
  {
    && writer.Valid() && writer.Written() == HeadText(200, "OK", ToInt32(|file|), writer.linger)
    && writer.ivCount == 2 && writer.iov0Length == |writer.Written()| && writer.iov1Length == |file|
    && writer.bytesToSend == ToInt32(|writer.Written()| + |file|)
  }

  /** The rest of process(): the response for the file the target means, or none. */
  method Respond(conn: HttpConn, server: Accounts.Server, disk: map<string, string>, queryOk: bool, ghost target: string)
    returns (ok: bool, writer: Writer, file: string)
    requires conn.Valid() && conn.checkState == RequestHead.CheckHeader && conn.content == None
    requires conn.Parsed().url == Some(target) && target != "" && target[0] == '/'
    requires Accounts.Nameable(server.docRoot, target)
    requires Accounts.IsAccount(Accounts.Command(target)) ==> conn.url.value + Accounts.PAGE_ROOM <= RequestHead.READ_BUFFER_SIZE
    modifies server, conn.readBuf
    ensures fresh(writer) && writer.linger == conn.linger
    ensures var name := FileFor(server.docRoot, old(server.users), target, queryOk);
      && (ok <==> name in disk && disk[name] != "")
      && (ok ==> file == disk[name] && ResponseFor(writer, file))
    ensures (Accounts.DefaultContent(); server.users == Accounts.UsersAfter(old(server.users), target, Accounts.DEFAULT))
  {
    hide CutNul, Accounts.UsersAfter, Accounts.Command, Accounts.Nameable, FileFor, ResponseFor, HttpConn.Parsed, HttpConn.Cut;
    var name := NamePage(conn, server, queryOk, target);
    ok, writer, file := FileResponse(disk, name, conn.linger);
  }

  /** A whole request: it arrives in any pieces and, when its head is complete, is answered. On account pages, 20 bytes of the buffer must be left. */
  method Serve(conn: HttpConn, server: Accounts.Server, disk: map<string, string>, chunks: seq<string>, queryOk: bool)
    returns (r: Option<RequestHead.Final>, ok: bool, writer: Writer, file: string)
    requires conn.Valid() && conn.At() == RequestHead.INITIAL && conn.received == "" && conn.content == None
    requires |Flatten(chunks)| <= RequestHead.READ_BUFFER_SIZE
    requires var (at, result) := RequestHead.ReadAll(Flatten(chunks));
      result == Some(RequestHead.GetRequest) ==> at.parsed.url.Some? && var target := at.parsed.url.value;
        '/' in target && Accounts.Nameable(server.docRoot, target) &&
        (Accounts.IsAccount(Accounts.Command(target)) ==> |Flatten(chunks)| + Accounts.PAGE_ROOM <= RequestHead.READ_BUFFER_SIZE)
    modifies server, conn, conn.readBuf
    ensures r == RequestHead.ReadAll(Flatten(chunks)).1 && (ok ==> r == Some(RequestHead.GetRequest))
    ensures r == Some(RequestHead.GetRequest) ==>
      var h := RequestHead.ReadAll(Flatten(chunks)).0.parsed;
      var name := FileFor(server.docRoot, old(server.users), h.url.value, queryOk);
      && (ok <==> name in disk && disk[name] != "")
      && (ok ==> file == disk[name] && writer.linger == h.linger && ResponseFor(writer, file))
  {
    hide CutNul, Accounts.UsersAfter, Accounts.Command, Accounts.Nameable, FileFor, ResponseFor, HttpConn.Cut, RequestHead.Read;
    r := conn.ReadRequest(chunks);
    if r == Some(RequestHead.GetRequest) {
      ReadyToAnswer(Flatten(chunks));
      ok, writer, file := Respond(conn, server, disk, queryOk, conn.Parsed().url.value);
    } else {
      ok, file := false, "";
      writer := new Writer(conn.linger);
    }
  }

  /** A head that is complete has a target do_request can take. */
  lemma ReadyToAnswer(text: string)
    requires RequestHead.ReadAll(text).1 == Some(RequestHead.GetRequest)
    ensures var h := RequestHead.ReadAll(text).0.parsed;
      h.state == RequestHead.CheckHeader && h.url.Some? && h.url.value != "" && h.url.value[0] == '/'
  {
    hide RequestHead.Read;
    RequestHead.GetRequestInHeader(text, RequestHead.INITIAL);
    RequestHead.TargetHasSlash(text, RequestHead.INITIAL);
  }

  /** From one end to the other: webbench prints the request for a URL whose path has no blank; it arrives in any
      pieces; do_request names the file; the response is sent well. Then the client reads 200, the right length, that
      the connection will be closed, and exactly the file of the URL. */
  lemma PageArrives(docRoot: string, users: Accounts.Users, disk: map<string, string>, queryOk: bool,
                    url: string, reload: bool, chunks: seq<string>, sizes: seq<nat>)
    requires Direct(url) && NoBlanks(PathOf(url)) && Flatten(chunks) == Printed(reload, true, url)
    requires (PageHasSlash(url); Accounts.Nameable(docRoot, Page(PathOf(url))))
    requires (PageHasSlash(url); Accounts.IsAccount(Accounts.Command(Page(PathOf(url)))) ==>
               |Flatten(chunks)| + Accounts.PAGE_ROOM <= RequestHead.READ_BUFFER_SIZE)
    requires FileOf(docRoot, users, url, queryOk) in disk
    requires var file := disk[FileOf(docRoot, users, url, queryOk)]; var head := HeadText(200, "OK", |file|, false);
      file != "" && |head| + |file| < 0x8000_0000 && SentWell(|head|, |file|, sizes)
    ensures var file := disk[FileOf(docRoot, users, url, queryOk)];
      var (at, result) := RequestHead.ReadChunks(chunks);
      result == Some(RequestHead.GetRequest) && at.parsed.url == Some(Page(PathOf(url))) && '/' in at.parsed.url.value &&
      !at.parsed.linger && FileFor(docRoot, users, at.parsed.url.value, queryOk) == FileOf(docRoot, users, url, queryOk) &&
      var wire := Answered(docRoot, users, disk, at.parsed, queryOk, sizes);
      var (c, end) := Decode(wire);
      end == Some(EndOfHead) && c.parsed == Reply(Some(200), Some(|file|), Some(false)) && wire[c.start..] == file
  {
    hide RequestHead.ReadChunks, Direct, NoBlanks, Printed, PathOf, Page, Flatten, HeadText, Decode, SentWell, OnWire, FileFor;
    ReadsDirect(url, reload, chunks);
    PageHasSlash(url);
    FileArrives(false, disk[FileOf(docRoot, users, url, queryOk)], sizes);
  }

  /** A target behind whose last slash there is no command names its own file: doc_root and the target, as far as
      199 bytes go. */
  lemma OrdinaryFile(docRoot: string, users: Accounts.Users, target: string, queryOk: bool)
    requires '/' in target && Accounts.Command(target) !in "0123567"
    ensures |docRoot + target| <= 199 ==> FileFor(docRoot, users, target, queryOk) == docRoot + target
    ensures |docRoot + target| > 199 ==> FileFor(docRoot, users, target, queryOk) == (docRoot + target)[..199]
  {
    hide Accounts.Command;
    assert forall c | c in "0123567" :: c != Accounts.Command(target);
    assert "0123567"[0] == '0' && "0123567"[1] == '1' && "0123567"[2] == '2' && "0123567"[3] == '3'
      && "0123567"[4] == '5' && "0123567"[5] == '6' && "0123567"[6] == '7';
  }

  /** The five commands that name a page. */
  lemma CommandFile(docRoot: string, users: Accounts.Users, target: string, queryOk: bool)
    requires '/' in target && Accounts.Nameable(docRoot, target)
    ensures var file, c := FileFor(docRoot, users, target, queryOk), Accounts.Command(target);
      && (c == '0' ==> file == docRoot + "/register.html")
      && (c == '1' ==> file == docRoot + "/log.html")
      && (c == '5' ==> file == docRoot + "/picture.html")
      && (c == '6' ==> file == docRoot + "/video.html")
      && (c == '7' ==> file == docRoot + "/fans.html")
  {
    hide Accounts.Command, Accounts.NameOf, Accounts.PasswordOf, Accounts.Extractable;
  }

  /** atoi reads the port that was printed in decimal; none, or 0, is 80. */
  lemma PortRead(n: nat)
    requires n < 0x8000_0000
    ensures PortNumber(NatText(n)) == (if n == 0 then 80 else n) && PortNumber("") == 80
  {
    hide NatText, Atol;
    AtolIntText(n);
    NoPort();
  }

  lemma NoPort()
    ensures Atol("") == 0
  {}
}

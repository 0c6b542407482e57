/** The account branch of do_request: registering, logging in, and which page is then served. */
module Accounts {
  import opened CStrings

  const FILENAME_LEN: nat := 200
  const FIELD_LEN: nat := 100

  /** The longest page an answer is replaced by, with its NUL. */
  const PAGE_ROOM: nat := 20

  // ---------------------------------------------------------------- name and password

  /** There is an '&' behind "user=", and ten bytes from it on. */
  predicate Extractable(s: string) {
    |s| >= 5 && FindChar(s[5..], '&') + 15 <= |s|
  }

  function NameOf(s: string): string
    requires Extractable(s)
  {
    s[5..][..FindChar(s[5..], '&')]
  }

  function PasswordOf(s: string): string
    requires Extractable(s)
  {
    s[FindChar(s[5..], '&') + 15..]
  }

  /** Both fit the arrays they are copied to. */
  predicate Fits(s: string)
    requires Extractable(s)
  {
    |NameOf(s)| < FIELD_LEN && |PasswordOf(s)| < FIELD_LEN
  }

  /** The two loops that copy the name and the password. */
  method Extract(s: string) returns (name: string, password: string)
    requires Extractable(s) && Fits(s)
    ensures name == NameOf(s) && password == PasswordOf(s)
  {
    name, password := "", "";
    ghost var k := FindChar(s[5..], '&');
    var i := 5;
    while s[i] != '&'
      invariant 5 <= i <= k + 5 && name == s[5..i]
      decreases k + 5 - i
    {
      assert s[i] == s[5..][i - 5] && s[k + 5] == s[5..][k];
      name := name + [s[i]];
      i := i + 1;
    }
    FindCharIs(s[5..], '&', i - 5);
    i := i + 10;
    while i < |s|
      invariant k + 15 <= i <= |s| && password == s[k + 15..i]
    {
      password := password + [s[i]];
      i := i + 1;
    }
  }

  /** The body of the form the pages send. */
  function Form(name: string, password: string): string { "user=" + name + "&password=" + password }

  /** It is taken apart as it was put together. */
  lemma FormIsExtracted(name: string, password: string)
    requires '&' !in name
    ensures var s := Form(name, password); Extractable(s) && NameOf(s) == name && PasswordOf(s) == password
  {
    var s := Form(name, password);
    var rest := s[5..];
    assert rest == name + "&password=" + password;
    assert rest[..|name|] == name;
    FindCharIs(rest, '&', |name|);
    assert s[|name| + 15..] == password;
  }

  /** What init() points m_string at, and requests without a parsed body therefore offer. */
  const DEFAULT: string := "user=123&passwd=123"

  lemma DefaultContent()
    ensures Extractable(DEFAULT) && NameOf(DEFAULT) == "123" && PasswordOf(DEFAULT) == "3"
  {
    var s := DEFAULT;
    assert s[5..] == "123&passwd=123";
    FindCharIs(s[5..], '&', 3);
  }

  // ---------------------------------------------------------------- the registered users

  type Users = map<string, string>

  /** A registration whose name is taken changes nothing; otherwise the pair is kept, whatever the insert query says. */
  function Registered(users: Users, name: string, password: string): Users {
    if name in users then users else users[name := password]
  }

  predicate LoginSucceeds(users: Users, name: string, password: string) {
    name in users && users[name] == password
  }

  datatype Registration = Registration(name: string, password: string, queryOk: bool)

  function After(users: Users, run: seq<Registration>): Users
    decreases |run|
  {
    if run == [] then users else After(Registered(users, run[0].name, run[0].password), run[1..])
  }

  /** The password a name was first registered with. */
  function FirstFor(run: seq<Registration>, name: string): Option<string>
    decreases |run|
  {
    if run == [] then None
    else if run[0].name == name then Some(run[0].password)
    else FirstFor(run[1..], name)
  }

  /** After any registrations, a login succeeds exactly with the password loaded at the start or, for other names,
      the first one registered. */
  lemma {:induction false} LoginIff(users: Users, run: seq<Registration>, name: string, password: string)
    ensures LoginSucceeds(After(users, run), name, password) <==>
      if name in users then users[name] == password else FirstFor(run, name) == Some(password)
    decreases |run|
  {
    if run != [] { LoginIff(Registered(users, run[0].name, run[0].password), run[1..], name, password); }
  }

  /** The table of the database takes the pair when the query is made and succeeds. */
  function Stored(users: Users, table: Users, r: Registration): Users {
    if r.name in users || !r.queryOk then table else table[r.name := r.password]
  }

  function TableAfter(users: Users, table: Users, run: seq<Registration>): Users
    decreases |run|
  {
    if run == [] then table
    else TableAfter(Registered(users, run[0].name, run[0].password), Stored(users, table, run[0]), run[1..])
  }

  predicate AgreeOn(users: Users, table: Users, name: string) {
    (name in users <==> name in table) && (name in users ==> users[name] == table[name])
  }

  /** The first registration of a name, if there is one, got its query through. */
  predicate FirstStored(run: seq<Registration>, name: string)
    decreases |run|
  {
    run == [] || if run[0].name == name then run[0].queryOk else FirstStored(run[1..], name)
  }

  /** Nothing more happens to a name in `users`. */
  lemma {:induction false} NameSettled(users: Users, table: Users, run: seq<Registration>, name: string)
    requires name in users
    ensures AgreeOn(After(users, run), TableAfter(users, table, run), name) <==> AgreeOn(users, table, name)
    decreases |run|
  {
    if run != [] {
      NameSettled(Registered(users, run[0].name, run[0].password), Stored(users, table, run[0]), run[1..], name);
    }
  }

  /** After any registrations, `users` and the table agree on a name exactly if it was there at the start or the first
      registration of it, if any, got its query through. */
  lemma {:induction false} TableAgreesIff(users: Users, table: Users, run: seq<Registration>, name: string)
    requires AgreeOn(users, table, name)
    ensures AgreeOn(After(users, run), TableAfter(users, table, run), name) <==> name in users || FirstStored(run, name)
    decreases |run|
  {
    if run != [] {
      var users', table' := Registered(users, run[0].name, run[0].password), Stored(users, table, run[0]);
      if run[0].name == name || name in users {
        NameSettled(users', table', run[1..], name);
      } else {
        TableAgreesIff(users', table', run[1..], name);
      }
    }
  }

  // ---------------------------------------------------------------- the page served

  /** strrchr(url, '/'). */
  function LastSlash(url: string): (p: nat)
    requires '/' in url
    ensures p < |url| && url[p] == '/' && forall i :: p < i < |url| ==> url[i] != '/'
  {
    if url[|url| - 1] == '/' then |url| - 1 else LastSlash(url[..|url| - 1])
  }

  /** The character behind the last slash, or the NUL. */
  function Command(url: string): char
    requires '/' in url
  {
    if LastSlash(url) + 1 < |url| then url[LastSlash(url) + 1] else NUL
  }

  predicate IsAccount(c: char) { c == '2' || c == '3' }

  /** The page a registration or a login is answered with. */
  function Answer(c: char, users: Users, name: string, password: string, queryOk: bool): string {
    if c == '3' then (if name in users || !queryOk then "/registerError.html" else "/log.html")
    else if LoginSucceeds(users, name, password) then "/welcome.html" else "/logError.html"
  }

  function PageFor(c: char): Option<string> {
    if c == '0' then Some("/register.html")
    else if c == '1' then Some("/log.html")
    else if c == '5' then Some("/picture.html")
    else if c == '6' then Some("/video.html")
    else if c == '7' then Some("/fans.html")
    else None
  }

  /** The page for `url`, when m_string is `content`. */
  function Served(users: Users, url: string, content: string, queryOk: bool): string
    requires '/' in url && (IsAccount(Command(url)) ==> Extractable(content))
  {
    var c := Command(url);
    if IsAccount(c) then Answer(c, users, NameOf(content), PasswordOf(content), queryOk)
    else if PageFor(c).Some? then PageFor(c).value
    else url
  }

  /** A form posted to a page, and what the insert query would say. */
  datatype Visit = Visit(url: string, name: string, password: string, queryOk: bool)

  predicate Posted(v: Visit) { '/' in v.url && (Command(v.url) == '2' || Command(v.url) == '3') && '&' !in v.name }

  /** The users after one do_request, as Server.DoRequest leaves them. */
  function UsersAfter(users: Users, url: string, content: string): Users
    requires '/' in url && (IsAccount(Command(url)) ==> Extractable(content))
  {
    if Command(url) == '3' then Registered(users, NameOf(content), PasswordOf(content)) else users
  }

  function ServedFor(users: Users, v: Visit): string
    requires Posted(v)
  {
    FormIsExtracted(v.name, v.password);
    Served(users, v.url, Form(v.name, v.password), v.queryOk)
  }

  function AfterVisits(users: Users, visits: seq<Visit>): Users
    requires forall i :: 0 <= i < |visits| ==> Posted(visits[i])
    decreases |visits|
  {
    if visits == [] then users
    else
      var v := visits[0];
      assert Posted(v);
      FormIsExtracted(v.name, v.password);
      AfterVisits(UsersAfter(users, v.url, Form(v.name, v.password)), visits[1..])
  }

  /** The registrations among the visits. */
  function Registrations(visits: seq<Visit>): seq<Registration>
    requires forall i :: 0 <= i < |visits| ==> Posted(visits[i])
    decreases |visits|
  {
    if visits == [] then []
    else
      var v := visits[0];
      assert Posted(v);
      (if Command(v.url) == '3' then [Registration(v.name, v.password, v.queryOk)] else []) + Registrations(visits[1..])
  }

  lemma {:induction false} VisitsRegister(users: Users, visits: seq<Visit>)
    requires forall i :: 0 <= i < |visits| ==> Posted(visits[i])
    ensures AfterVisits(users, visits) == After(users, Registrations(visits))
    decreases |visits|
  {
    hide LastSlash, NameOf, PasswordOf, Extractable, Form, Registered;
    if visits != [] {
      var v := visits[0];
      assert Posted(v);
      FormIsExtracted(v.name, v.password);
      VisitsRegister(UsersAfter(users, v.url, Form(v.name, v.password)), visits[1..]);
      var r := Registration(v.name, v.password, v.queryOk);
      assert ([r] + Registrations(visits[1..]))[1..] == Registrations(visits[1..]);
      assert [] + Registrations(visits[1..]) == Registrations(visits[1..]);
    }
  }

  /** After any visits, registering and logging in, the welcome page is served exactly for the password that was
      loaded at the start or, for other names, the first one registered. */
  lemma WelcomeIff(users: Users, visits: seq<Visit>, v: Visit)
    requires forall i :: 0 <= i < |visits| ==> Posted(visits[i])
    requires Posted(v) && Command(v.url) == '2'
    ensures ServedFor(AfterVisits(users, visits), v) == "/welcome.html" <==>
      if v.name in users then users[v.name] == v.password else FirstFor(Registrations(visits), v.name) == Some(v.password)
  {
    hide LastSlash, NameOf, PasswordOf, Extractable, Form, After, AfterVisits, Registrations, FirstFor;
    FormIsExtracted(v.name, v.password);
    VisitsRegister(users, visits);
    LoginIff(users, Registrations(visits), v.name, v.password);
    assert "/welcome.html"[1] != "/logError.html"[1];
  }

  /** A name once there keeps its password. */
  lemma {:induction false} Settled(users: Users, run: seq<Registration>, name: string)
    requires name in users
    ensures name in After(users, run) && After(users, run)[name] == users[name]
    decreases |run|
  {
    if run != [] { Settled(Registered(users, run[0].name, run[0].password), run[1..], name); }
  }

  lemma {:induction false} FirstIs(users: Users, run: seq<Registration>, name: string)
    requires name !in users
    ensures name in After(users, run) <==> FirstFor(run, name).Some?
    ensures name in After(users, run) ==> FirstFor(run, name) == Some(After(users, run)[name])
    decreases |run|
  {
    if run != [] {
      var users' := Registered(users, run[0].name, run[0].password);
      if run[0].name == name { Settled(users', run[1..], name); } else { FirstIs(users', run[1..], name); }
    }
  }

  /** After any visits, a registration is answered with the log-in page exactly if the name was not there at the start,
      nobody has registered it, and the insert query succeeds; otherwise with the error page. */
  lemma RegisterIff(users: Users, visits: seq<Visit>, v: Visit)
    requires forall i :: 0 <= i < |visits| ==> Posted(visits[i])
    requires Posted(v) && Command(v.url) == '3'
    ensures ServedFor(AfterVisits(users, visits), v) ==
      if v.name !in users && FirstFor(Registrations(visits), v.name).None? && v.queryOk then "/log.html"
      else "/registerError.html"
  {
    hide LastSlash, NameOf, PasswordOf, Extractable, Form, After, AfterVisits, Registrations, FirstFor;
    FormIsExtracted(v.name, v.password);
    VisitsRegister(users, visits);
    if v.name in users {
      Settled(users, Registrations(visits), v.name);
    } else {
      FirstIs(users, Registrations(visits), v.name);
    }
  }

  /** A login that does not succeed is answered with the error page. */
  lemma LoginAnswer(users: Users, v: Visit)
    requires Posted(v) && Command(v.url) == '2'
    ensures ServedFor(users, v) == if LoginSucceeds(users, v.name, v.password) then "/welcome.html" else "/logError.html"
  {
    hide LastSlash, NameOf, PasswordOf, Extractable, Form;
    FormIsExtracted(v.name, v.password);
  }

  /** What m_real_file has room for. */
  function FileName(docRoot: string, page: string): string { Take(docRoot + page, FILENAME_LEN - 1) }

  /** The room the arrays must have: for the fixed pages behind doc_root and, on account pages, for the URL. */
  predicate Nameable(docRoot: string, url: string)
    requires '/' in url
  {
    && NUL !in docRoot && |docRoot| + PAGE_ROOM < FILENAME_LEN
    && (IsAccount(Command(url)) ==> |url| <= FILENAME_LEN)
  }

  predicate NoDigits(s: string) { forall i :: 0 <= i < |s| ==> !('0' <= s[i] <= '9') }

  lemma LoginPages()
    ensures NoDigits("/welcome.html") && NoDigits("/logError.html")
  {}

  lemma RegisterPages()
    ensures NoDigits("/log.html") && NoDigits("/registerError.html")
  {}

  // ---------------------------------------------------------------- do_request

  /** The array holds `s` and a NUL at `at`. */
  ghost predicate Holds(a: array<char>, at: nat, s: string)
    reads a
  {
    && at + |s| < a.Length && NUL !in s
    && (forall i :: 0 <= i < |s| ==> a[at + i] == s[i]) && a[at + |s|] == NUL
  }

  /** strcpy(a + at, s). */
  method Strcpy(a: array<char>, at: nat, s: string)
    requires at + |s| < a.Length && NUL !in s
    modifies a
    ensures Holds(a, at, s)
    ensures forall i :: 0 <= i < at || at + |s| < i < a.Length ==> a[i] == old(a[i])
  {
    forall i | 0 <= i < |s| { a[at + i] := s[i]; }
    a[at + |s|] := NUL;
  }

  /** strncpy(a + at, s, n): the copy is cut off, or filled up with NULs, at `n` bytes. */
  method Strncpy(a: array<char>, at: nat, s: string, n: nat)
    requires at + n <= a.Length
    modifies a
    ensures forall j :: at <= j < at + n ==> a[j] == if j - at < |s| then s[j - at] else NUL
    ensures forall i :: 0 <= i < at || at + n <= i < a.Length ==> a[i] == old(a[i])
  {
    forall i | 0 <= i < n { a[at + i] := if i < |s| then s[i] else NUL; }
  }

  class Server {
    const docRoot: string
    var users: Users

    constructor (docRoot: string, users: Users)
      ensures this.docRoot == docRoot && this.users == users
    {
      this.docRoot, this.users := docRoot, users;
    }

    /** The account commands: m_url is overwritten with the answer. */
    method Account(urlBuf: array<char>, u: nat, ghost url: string, command: char, content: string, queryOk: bool)
      returns (page: string)
      requires Holds(urlBuf, u, url) && u + PAGE_ROOM <= urlBuf.Length
      requires IsAccount(command) && Extractable(content) && Fits(content)
      modifies this`users, urlBuf
      ensures page == Answer(command, old(users), NameOf(content), PasswordOf(content), queryOk) && NoDigits(page)
      ensures users == if command == '3' then Registered(old(users), NameOf(content), PasswordOf(content)) else old(users)
      ensures Holds(urlBuf, u, page) && |page| < PAGE_ROOM
      ensures forall i :: u + |page| < i < urlBuf.Length ==> urlBuf[i] == old(urlBuf[i])
    {
      var name, password := Extract(content);
      RegisterPages();
      LoginPages();
      if command == '3' {
        if name !in users {
          users := users[name := password];
          page := if queryOk then "/log.html" else "/registerError.html";
        } else {
          page := "/registerError.html";
        }
      } else {
        page := if name in users && users[name] == password then "/welcome.html" else "/logError.html";
      }
      Strcpy(urlBuf, u, page);
    }

    /** do_request, up to the name of the file: m_real_file becomes doc_root and the page. `p` keeps pointing at
        the last slash of the URL as it was, also when the URL is overwritten. */
    method DoRequest(urlBuf: array<char>, u: nat, ghost url: string, content: string, queryOk: bool, realFile: array<char>)
      requires urlBuf != realFile && Holds(urlBuf, u, url) && url != "" && url[0] == '/'
      requires IsAccount(Command(url)) ==>
        Extractable(content) && Fits(content) && u + PAGE_ROOM <= urlBuf.Length
      requires realFile.Length == FILENAME_LEN && forall i :: 0 <= i < FILENAME_LEN ==> realFile[i] == NUL
      requires Nameable(docRoot, url)
      modifies this`users, urlBuf, realFile
      ensures Holds(realFile, 0, FileName(docRoot, Served(old(users), url, content, queryOk)))
      ensures users == UsersAfter(old(users), url, content)
    {
      hide LastSlash, NoDigits, FindChar, CutNul, NameOf, PasswordOf, Extractable, Fits, Answer, Registered;
      var len := |docRoot|;
      Strcpy(realFile, 0, docRoot);
      var p := FindLastSlash(urlBuf, u, url);
      var command := urlBuf[p + 1];
      ghost var current := url;
      if command == '2' || command == '3' {
        var tail := StringAt(urlBuf, u + 2, url[2..]);
        Strncpy(realFile, len, "/" + tail, FILENAME_LEN - len - 1);
        current := Account(urlBuf, u, url, command, content, queryOk);
        StillNoPage(urlBuf, u, p + 1, current, command);
      }
      ServePage(urlBuf, u, current, urlBuf[p + 1], realFile);
    }

    /** The chain of cases that follows the account branch. */
    method ServePage(urlBuf: array<char>, u: nat, ghost current: string, c: char, realFile: array<char>)
      requires urlBuf != realFile && Holds(urlBuf, u, current)
      requires realFile.Length == FILENAME_LEN && NUL !in docRoot && realFile[FILENAME_LEN - 1] == NUL
      requires |docRoot| + PAGE_ROOM < FILENAME_LEN
      requires forall i :: 0 <= i < |docRoot| ==> realFile[i] == docRoot[i]
      requires PageFor(c).Some? ==> forall i :: |docRoot| <= i < FILENAME_LEN ==> realFile[i] == NUL
      modifies realFile
      ensures Holds(realFile, 0, FileName(docRoot, if PageFor(c).Some? then PageFor(c).value else current))
    {
      if c == '0' {
        CopyPage(realFile, "/register.html");
      } else if c == '1' {
        CopyPage(realFile, "/log.html");
      } else if c == '5' {
        CopyPage(realFile, "/picture.html");
      } else if c == '6' {
        CopyPage(realFile, "/video.html");
      } else if c == '7' {
        CopyPage(realFile, "/fans.html");
      } else {
        var page := StringAt(urlBuf, u, current);
        CopyUrl(realFile, page);
      }
    }

    /** A page is copied behind doc_root without a NUL: there only were NULs. */
    method CopyPage(realFile: array<char>, page: string)
      requires realFile.Length == FILENAME_LEN && NUL !in docRoot && NUL !in page && |docRoot| + |page| < FILENAME_LEN
      requires forall i :: 0 <= i < FILENAME_LEN ==> realFile[i] == if i < |docRoot| then docRoot[i] else NUL
      modifies realFile
      ensures Holds(realFile, 0, FileName(docRoot, page))
    {
      Strncpy(realFile, |docRoot|, page, |page|);
      Joined(realFile, docRoot, page);
    }

    /** The URL is copied, cut off where the array ends or filled up with NULs. */
    method CopyUrl(realFile: array<char>, page: string)
      requires realFile.Length == FILENAME_LEN && NUL !in docRoot && NUL !in page && |docRoot| < FILENAME_LEN
      requires realFile[FILENAME_LEN - 1] == NUL && forall i :: 0 <= i < |docRoot| ==> realFile[i] == docRoot[i]
      modifies realFile
      ensures Holds(realFile, 0, FileName(docRoot, page))
    {
      var room := FILENAME_LEN - |docRoot| - 1;
      Strncpy(realFile, |docRoot|, page, room);
      ghost var part := Take(page, room);
      forall i | 0 <= i < |part| ensures realFile[|docRoot| + i] == part[i] {}
      Joined(realFile, docRoot, part);
      assert docRoot + part == FileName(docRoot, page);
    }

    /** strrchr(m_url, '/'). */
    method FindLastSlash(urlBuf: array<char>, u: nat, ghost url: string) returns (p: nat)
      requires Holds(urlBuf, u, url) && url != "" && url[0] == '/'
      ensures p == u + LastSlash(url) && p + 1 < urlBuf.Length && urlBuf[p + 1] == Command(url)
      ensures IsAccount(urlBuf[p + 1]) ==> |url| >= 2
    {
      hide LastSlash;
      var t := StringAt(urlBuf, u, url);
      p := u + LastSlash(t);
    }
  }

  /** The string a pointer into an array designates. */
  method StringAt(a: array<char>, at: nat, ghost s: string) returns (t: string)
    requires Holds(a, at, s)
    ensures t == s
  {
    hide CutNul;
    t := CutNul(a[at..]);
    assert a[at..][..|s|] == s;
    CutNulIs(a[at..], s);
  }

  lemma Joined(a: array<char>, root: string, page: string)
    requires NUL !in root && |root| <= a.Length && (forall i :: 0 <= i < |root| ==> a[i] == root[i])
    requires Holds(a, |root|, page)
    ensures Holds(a, 0, root + page)
  {}

  /** Where the command of the URL was, there is now no digit that names a page: a character of the answer, its NUL,
      or still the command. */
  lemma StillNoPage(a: array<char>, at: nat, p: nat, answer: string, command: char)
    requires Holds(a, at, answer) && NoDigits(answer) && at <= p < a.Length && IsAccount(command)
    requires p > at + |answer| ==> a[p] == command
    ensures PageFor(a[p]) == None
  {
    if p < at + |answer| { assert a[at + (p - at)] == answer[p - at]; }
  }
}

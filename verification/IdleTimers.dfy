/** Idle connections over whole runs of the event loop: connections are accepted, show activity, are closed, and
    the timer ticks. */
module IdleTimers {
  import opened TimerList

  const TIMESLOT: int := 5

  /** When a connection was last active, and the number of that event. */
  datatype Activity = Activity(at: int, serial: nat)

  /** The timer list; the open connections; the clock; when tick last ran; how many events there were. */
  datatype Server = Server(list: seq<Entry>, open: map<nat, Activity>, now: int, lastTick: int, count: nat)

  datatype Event =
    | Accept(conn: nat, at: int)   // WebServer::timer
    | Active(conn: nat, at: int)   // a read or write that succeeded: WebServer::adjust_timer
    | Close(conn: nat, at: int)    // WebServer::deal_timer
    | Tick(at: int)                // Utils::timer_handler

  function Start(at: int): Server { Server([], map[], at, at, 0) }

  /** Where the timer of `conn` is. */
  function Find(s: seq<Entry>, conn: nat): (k: nat)
    ensures k <= |s|
    ensures k < |s| ==> s[k].conn == conn
    ensures forall i :: 0 <= i < k ==> s[i].conn != conn
  {
    if s == [] || s[0].conn == conn then 0 else 1 + Find(s[1..], conn)
  }

  /** The clock does not run backwards, a tick is never overdue, and descriptors are used as the kernel hands
      them out. */
  predicate Legal(s: Server, e: Event) {
    && s.now <= e.at <= s.lastTick + TIMESLOT
    && match e
       case Accept(c, _) => c !in s.open
       case Active(c, _) => c in s.open
       case Close(c, _) => c in s.open
       case Tick(_) => true
  }

  /** The list and the open connections after an event. A connection without a timer would be left alone. */
  function Act(s: Server, e: Event): (seq<Entry>, map<nat, Activity>) {
    match e
    case Accept(c, at) => (Insert(s.list, Entry(c, at + 3 * TIMESLOT)), s.open[c := Activity(at, s.count)])
    case Active(c, at) =>
      var k := Find(s.list, c);
      (if k < |s.list| then Adjust(s.list, k, at + 3 * TIMESLOT) else s.list, s.open[c := Activity(at, s.count)])
    case Close(c, at) =>
      var k := Find(s.list, c);
      (if k < |s.list| then RemoveAt(s.list, k) else s.list, s.open - {c})
    case Tick(at) =>
      (s.list[Position(s.list, at)..], s.open - CalledBack(s, at))
  }

  function Step(s: Server, e: Event): Server {
    var (list, open) := Act(s, e);
    Server(list, open, e.at, if e.Tick? then e.at else s.lastTick, s.count + 1)
  }

  /** The connections a tick closes. */
  function CalledBack(s: Server, at: int): set<nat> { set i | 0 <= i < Position(s.list, at) :: s.list[i].conn }

  /** Each entry is the timer of an open connection, set to its last activity and three slots; no connection has
      two; the entries are in the order of the last activities, and so of their times. */
  ghost predicate Listed(list: seq<Entry>, open: map<nat, Activity>) {
    && (forall i :: 0 <= i < |list| ==> list[i].conn in open && list[i].expire == open[list[i].conn].at + 3 * TIMESLOT)
    && (forall i, j :: 0 <= i < j < |list| ==> open[list[i].conn].serial < open[list[j].conn].serial)
    && Sorted(list)
  }

  /** Every open connection has a timer. */
  ghost predicate Covered(list: seq<Entry>, open: map<nat, Activity>) {
    forall c :: c in open ==> exists i :: 0 <= i < |list| && list[i].conn == c
  }

  /** No activity lies in the future, and nothing that was due at the last tick is left. */
  ghost predicate InTime(s: Server) {
    && s.lastTick <= s.now <= s.lastTick + TIMESLOT
    && forall c :: c in s.open ==> s.lastTick - 3 * TIMESLOT < s.open[c].at <= s.now && s.open[c].serial < s.count
  }

  ghost predicate Inv(s: Server) { Listed(s.list, s.open) && Covered(s.list, s.open) && InTime(s) }

  lemma FindIs(s: seq<Entry>, conn: nat, k: nat)
    requires k < |s| && s[k].conn == conn && forall i :: 0 <= i < k ==> s[i].conn != conn
    ensures Find(s, conn) == k
  {}

  /** A time that is not before any in the list goes to the end. */
  lemma GoesLast(s: seq<Entry>, x: Entry)
    requires forall i :: 0 <= i < |s| ==> s[i].expire <= x.expire
    ensures Insert(s, x) == s + [x]
  {}

  // ---------------------------------------------------------------- every event keeps the invariant

  lemma FindCovered(s: Server, c: nat)
    requires Inv(s) && c in s.open
    ensures Find(s.list, c) < |s.list|
  {}

  lemma ListedWithoutOne(list: seq<Entry>, open: map<nat, Activity>, k: nat)
    requires Listed(list, open) && k < |list|
    ensures Listed(RemoveAt(list, k), open - {list[k].conn})
  {}

  lemma CoveredWithoutOne(list: seq<Entry>, open: map<nat, Activity>, k: nat)
    requires Covered(list, open) && k < |list|
    ensures Covered(RemoveAt(list, k), open - {list[k].conn})
  {
    var rest := RemoveAt(list, k);
    forall d | d in open - {list[k].conn} ensures exists i :: 0 <= i < |rest| && rest[i].conn == d {
      var i :| 0 <= i < |list| && list[i].conn == d;
      assert rest[if i < k then i else i - 1] == list[i];
    }
  }

  lemma ListedWithNewest(list: seq<Entry>, open: map<nat, Activity>, c: nat, a: Activity)
    requires Listed(list, open) && c !in open
    requires forall d :: d in open ==> open[d].at <= a.at && open[d].serial < a.serial
    ensures var x := Entry(c, a.at + 3 * TIMESLOT);
      Insert(list, x) == list + [x] && Listed(list + [x], open[c := a])
  {
    var x := Entry(c, a.at + 3 * TIMESLOT);
    forall i | 0 <= i < |list| ensures list[i].expire <= x.expire && open[list[i].conn].serial < a.serial {
      assert list[i].conn in open;
    }
    GoesLast(list, x);
    hide Insert, Position;
  }

  lemma CoveredWithNewest(list: seq<Entry>, open: map<nat, Activity>, c: nat, a: Activity)
    requires Covered(list, open)
    ensures Covered(list + [Entry(c, a.at + 3 * TIMESLOT)], open[c := a])
  {
    var list', open' := list + [Entry(c, a.at + 3 * TIMESLOT)], open[c := a];
    forall d | d in open' ensures exists i :: 0 <= i < |list'| && list'[i].conn == d {
      if d == c {
        assert list'[|list|].conn == d;
      } else {
        var i :| 0 <= i < |list| && list[i].conn == d;
        assert list'[i] == list[i];
      }
    }
  }

  /** Taking a timer out leaves the others in order, for the other connections. */
  lemma WithoutOne(s: Server, k: nat)
    requires Inv(s) && k < |s.list|
    ensures var rest, open := RemoveAt(s.list, k), s.open - {s.list[k].conn}; Listed(rest, open) && Covered(rest, open)
  {
    hide Listed, Covered;
    ListedWithoutOne(s.list, s.open, k);
    CoveredWithoutOne(s.list, s.open, k);
  }

  /** The newest activity belongs to the end of the list. */
  lemma WithNewest(list: seq<Entry>, open: map<nat, Activity>, c: nat, a: Activity)
    requires Listed(list, open) && Covered(list, open) && c !in open
    requires forall d :: d in open ==> open[d].at <= a.at && open[d].serial < a.serial
    ensures var list' := Insert(list, Entry(c, a.at + 3 * TIMESLOT)); var open' := open[c := a];
      Listed(list', open') && Covered(list', open') && list' == list + [Entry(c, a.at + 3 * TIMESLOT)]
  {
    hide Listed, Covered, Insert;
    ListedWithNewest(list, open, c, a);
    CoveredWithNewest(list, open, c, a);
  }

  lemma AcceptKeeps(s: Server, c: nat, at: int)
    requires Inv(s) && Legal(s, Accept(c, at))
    ensures Inv(Step(s, Accept(c, at)))
  {
    hide Insert, Listed, Covered;
    WithNewest(s.list, s.open, c, Activity(at, s.count));
  }

  lemma ActiveKeeps(s: Server, c: nat, at: int)
    requires Inv(s) && Legal(s, Active(c, at))
    ensures Inv(Step(s, Active(c, at)))
    ensures Step(s, Active(c, at)).list == RemoveAt(s.list, Find(s.list, c)) + [Entry(c, at + 3 * TIMESLOT)]
  {
    hide Insert, Find, Listed, Covered;
    FindCovered(s, c);
    var k := Find(s.list, c);
    WithoutOne(s, k);
    var rest, open := RemoveAt(s.list, k), s.open - {c};
    WithNewest(rest, open, c, Activity(at, s.count));
    assert open[c := Activity(at, s.count)] == s.open[c := Activity(at, s.count)];
  }

  lemma CloseKeeps(s: Server, c: nat, at: int)
    requires Inv(s) && Legal(s, Close(c, at))
    ensures Inv(Step(s, Close(c, at)))
  {
    hide Find, Listed, Covered;
    FindCovered(s, c);
    WithoutOne(s, Find(s.list, c));
  }

  /** A tick drops the front of the list, and exactly the connections that are due. */
  lemma Dropped(list: seq<Entry>, open: map<nat, Activity>, at: int, n: nat)
    requires Listed(list, open) && n == Position(list, at)
    ensures var gone := set i | 0 <= i < n :: list[i].conn;
      && Listed(list[n..], open - gone)
      && forall i :: 0 <= i < |list| ==> (list[i].conn in gone <==> i < n) && (i < n <==> list[i].expire <= at)
  {
    hide Position;
    var gone := set i | 0 <= i < n :: list[i].conn;
    forall i | 0 <= i < |list| ensures (list[i].conn in gone <==> i < n) && (i < n <==> list[i].expire <= at) {
      if n <= i {
        assert list[n].expire <= list[i].expire;
        assert forall j :: 0 <= j < n ==> open[list[j].conn].serial < open[list[i].conn].serial;
      }
    }
  }

  lemma CoveredAfterDrop(list: seq<Entry>, open: map<nat, Activity>, n: nat, gone: set<nat>)
    requires Covered(list, open) && n <= |list| && gone == set i | 0 <= i < n :: list[i].conn
    ensures Covered(list[n..], open - gone)
  {}

  lemma TickKeeps(s: Server, at: int)
    requires Inv(s) && Legal(s, Tick(at))
    ensures Inv(Step(s, Tick(at)))
    ensures forall c :: c in CalledBack(s, at) <==> c in s.open && s.open[c].at + 3 * TIMESLOT <= at
  {
    hide Listed, Covered, Position;
    var n := Position(s.list, at);
    Dropped(s.list, s.open, at, n);
    CoveredAfterDrop(s.list, s.open, n, CalledBack(s, at));
    DueIff(s, at);
  }

  /** The connections called back are those whose last activity is three slots ago. */
  lemma DueIff(s: Server, at: int)
    requires Listed(s.list, s.open) && Covered(s.list, s.open)
    ensures forall c :: c in CalledBack(s, at) <==> c in s.open && s.open[c].at + 3 * TIMESLOT <= at
  {
    hide Listed, Position;
    Dropped(s.list, s.open, at, Position(s.list, at));
    forall c ensures c in CalledBack(s, at) <==> c in s.open && s.open[c].at + 3 * TIMESLOT <= at {
      if c in s.open {
        var i :| 0 <= i < |s.list| && s.list[i].conn == c;
        EntryOf(s.list, s.open, i);
      } else if c in CalledBack(s, at) {
        var i :| 0 <= i < Position(s.list, at) && s.list[i].conn == c;
        EntryOf(s.list, s.open, i);
      }
    }
  }

  lemma EntryOf(list: seq<Entry>, open: map<nat, Activity>, i: nat)
    requires Listed(list, open) && i < |list|
    ensures list[i].conn in open && list[i].expire == open[list[i].conn].at + 3 * TIMESLOT
  {}

  // ---------------------------------------------------------------- whole runs

  /** The events happen one after another from `s`. */
  predicate Happens(s: Server, events: seq<Event>)
    decreases |events|
  {
    events == [] || (Legal(s, events[0]) && Happens(Step(s, events[0]), events[1..]))
  }

  function After(s: Server, events: seq<Event>): Server
    decreases |events|
  {
    if events == [] then s else After(Step(s, events[0]), events[1..])
  }

  lemma StepKeeps(s: Server, e: Event)
    requires Inv(s) && Legal(s, e)
    ensures Inv(Step(s, e))
  {
    hide Inv, Step;
    match e
    case Accept(c, at) => AcceptKeeps(s, c, at);
    case Active(c, at) => ActiveKeeps(s, c, at);
    case Close(c, at) => CloseKeeps(s, c, at);
    case Tick(at) => TickKeeps(s, at);
  }

  lemma {:induction false} RunKeeps(s: Server, events: seq<Event>)
    requires Inv(s) && Happens(s, events)
    ensures Inv(After(s, events))
    decreases |events|
  {
    hide Inv, Step, Legal;
    if events != [] {
      StepKeeps(s, events[0]);
      RunKeeps(Step(s, events[0]), events[1..]);
    }
  }

  lemma StartInv(at: int)
    ensures Inv(Start(at))
  {}

  /** In every run: each open connection has exactly one timer; none has been idle for four slots; and a tick calls
      back exactly the connections that have been idle for three slots or more. */
  lemma IdleBound(start: int, events: seq<Event>)
    requires Happens(Start(start), events)
    ensures var s := After(Start(start), events);
      && (forall c :: c in s.open ==> Find(s.list, c) < |s.list|)
      && (forall i :: 0 <= i < |s.list| ==> s.list[i].conn in s.open && Find(s.list, s.list[i].conn) == i)
      && (forall c :: c in s.open ==> s.now - s.open[c].at < 4 * TIMESLOT)
    ensures var s := After(Start(start), events);
      forall at | Legal(s, Tick(at)) ::
        && (forall c :: c in CalledBack(s, at) <==> c in s.open && at - s.open[c].at >= 3 * TIMESLOT)
        && (forall c :: c in CalledBack(s, at) ==> at - s.open[c].at < 4 * TIMESLOT)
  {
    StartInv(start);
    RunKeeps(Start(start), events);
    var s := After(Start(start), events);
    hide After, Happens;
    forall c | c in s.open ensures Find(s.list, c) < |s.list| { FindCovered(s, c); }
    forall i | 0 <= i < |s.list| ensures s.list[i].conn in s.open && Find(s.list, s.list[i].conn) == i { OneTimer(s, i); }
    forall at | Legal(s, Tick(at))
      ensures forall c :: c in CalledBack(s, at) <==> c in s.open && at - s.open[c].at >= 3 * TIMESLOT
    {
      TickKeeps(s, at);
    }
    hide Listed, Covered, Find;
  }

  lemma OneTimer(s: Server, i: nat)
    requires Inv(s) && i < |s.list|
    ensures s.list[i].conn in s.open && Find(s.list, s.list[i].conn) == i
  {
    hide Covered;
    FindIs(s.list, s.list[i].conn, i);
  }

  // ---------------------------------------------------------------- the server's timers on the heap

  /** users_timer leads to the timer of every connection in the list. */
  ghost predicate Indexed(nodes: seq<UtilTimer>, usersTimer: map<nat, UtilTimer>) {
    forall i :: 0 <= i < |nodes| ==> nodes[i].conn in usersTimer && usersTimer[nodes[i].conn] == nodes[i]
  }

  lemma IndexedInsert(nodes: seq<UtilTimer>, usersTimer: map<nat, UtilTimer>, p: nat, timer: UtilTimer)
    requires Indexed(nodes, usersTimer) && p <= |nodes|
    requires forall i :: 0 <= i < |nodes| ==> nodes[i].conn != timer.conn
    ensures Indexed(InsertAt(nodes, p, timer), usersTimer[timer.conn := timer])
  {}

  lemma IndexedRemove(nodes: seq<UtilTimer>, usersTimer: map<nat, UtilTimer>, k: nat)
    requires Indexed(nodes, usersTimer) && k < |nodes|
    ensures Indexed(RemoveAt(nodes, k), usersTimer)
  {}

  lemma IndexedMove(nodes: seq<UtilTimer>, usersTimer: map<nat, UtilTimer>, k: nat, p: nat)
    requires Indexed(nodes, usersTimer) && k < |nodes| && p < |nodes|
    ensures Indexed(InsertAt(RemoveAt(nodes, k), p, nodes[k]), usersTimer)
  {}

  class WebServer {
    const timers: SortTimerList
    var usersTimer: map<nat, UtilTimer>   // users_timer[fd].timer; stale once the connection is closed
    ghost var open: map<nat, Activity>
    ghost var now: int
    ghost var lastTick: int
    ghost var count: nat

    ghost function State(): Server
      reads this, timers, timers.nodes
    {
      Server(timers.Entries(), open, now, lastTick, count)
    }

    ghost predicate Valid()
      reads this, timers, timers.nodes
    {
      timers.Valid() && Inv(State()) && Indexed(timers.nodes, usersTimer)
    }

    constructor (at: int)
      ensures Valid() && State() == Start(at) && fresh(timers)
    {
      timers := new SortTimerList();
      usersTimer, open, now, lastTick, count := map[], map[], at, at, 0;
    }

    /** timer(), for an accepted connection. */
    method Timer(connfd: nat, cur: int)
      requires Valid() && Legal(State(), Accept(connfd, cur))
      modifies this, timers, timers.nodes
      ensures Valid() && State() == Step(old(State()), Accept(connfd, cur))
    {
      hide Inv, Step, Position, Sorted, Insert, InsertAt, Indexed, SortTimerList.Linked;
      ghost var s := State();
      NotListed(s, connfd, timers.nodes);
      StepKeeps(s, Accept(connfd, cur));
      StepAccept(s, connfd, cur);
      var timer := new UtilTimer(connfd, cur + 3 * TIMESLOT);
      IndexedInsert(timers.nodes, usersTimer, Position(timers.Entries(), timer.expire), timer);
      usersTimer := usersTimer[connfd := timer];
      timers.AddTimer(timer);
      open, now, count := open[connfd := Activity(cur, count)], cur, count + 1;
    }

    /** The timer of an open connection. */
    ghost function Place(sockfd: nat): (k: nat)
      requires Valid() && sockfd in open
      reads this, timers, timers.nodes
      ensures k == Find(timers.Entries(), sockfd) < |timers.nodes|
      ensures sockfd in usersTimer && usersTimer[sockfd] == timers.nodes[k]
    {
      FindCovered(State(), sockfd);
      Find(timers.Entries(), sockfd)
    }

    /** deal_timer: the connection is closed and its timer deleted. */
    method DealTimer(sockfd: nat, cur: int)
      requires Valid() && Legal(State(), Close(sockfd, cur))
      modifies this, timers, timers.nodes
      ensures Valid() && State() == Step(old(State()), Close(sockfd, cur))
    {
      hide Inv, Step, Sorted, RemoveAt, Indexed, Find, SortTimerList.Linked;
      ghost var k := Place(sockfd);
      ghost var s := State();
      StepKeeps(s, Close(sockfd, cur));
      StepClose(s, sockfd, cur);
      IndexedRemove(timers.nodes, usersTimer, k);
      timers.DelTimer(usersTimer[sockfd], k);
      open, now, count := open - {sockfd}, cur, count + 1;
    }

    /** The new time is set, and the timer put in its place. */
    method Postpone(timer: UtilTimer, cur: int, ghost k: nat, ghost later: seq<Entry>)
      requires timers.Valid() && k < |timers.nodes| && timers.nodes[k] == timer
      requires later == timers.Entries()[k := Entry(timer.conn, cur + 3 * TIMESLOT)] && SortedBut(later, k)
      modifies timers, timers.nodes
      ensures timers.Valid() && timers.Entries() == Insert(RemoveAt(later, k), later[k])
      ensures timers.nodes == InsertAt(RemoveAt(old(timers.nodes), k), Position(RemoveAt(later, k), later[k].expire), timer)
    {
      hide Sorted, SortedBut, Position, Insert, InsertAt, RemoveAt;
      timer.expire := cur + 3 * TIMESLOT;
      assert timers.Entries() == later;
      timers.AdjustTimer(timer, k);
    }

    /** adjust_timer: the timer is set three slots ahead and put in its place. */
    method AdjustTimer(sockfd: nat, cur: int)
      requires Valid() && Legal(State(), Active(sockfd, cur))
      modifies this, timers, timers.nodes
      ensures Valid() && State() == Step(old(State()), Active(sockfd, cur))
    {
      hide Inv, Step, Sorted, SortedBut, Indexed, Find, Position, Insert, InsertAt, RemoveAt, Adjust, SortTimerList.Linked;
      ghost var k := Place(sockfd);
      ghost var s := State();
      StepKeeps(s, Active(sockfd, cur));
      StepActive(s, sockfd, cur);
      Postponed(s, k, cur);
      ghost var later := s.list[k := Entry(sockfd, cur + 3 * TIMESLOT)];
      ghost var p := Position(RemoveAt(later, k), later[k].expire);
      IndexedMove(timers.nodes, usersTimer, k, p);
      Postpone(usersTimer[sockfd], cur, k, later);
      open, now, count := open[sockfd := Activity(cur, count)], cur, count + 1;
    }

    /** timer_handler: the due connections are called back and closed, in the order of their last activity. */
    method TimerHandler(cur: int) returns (called: seq<nat>)
      requires Valid() && Legal(State(), Tick(cur))
      modifies this, timers, timers.nodes
      ensures Valid() && State() == Step(old(State()), Tick(cur))
      ensures called == Conns(old(State()).list[..Position(old(State()).list, cur)])
    {
      hide Inv, Step, Sorted, Indexed, Position, SortTimerList.Linked;
      ghost var s := State();
      StepKeeps(s, Tick(cur));
      StepTick(s, cur);
      IndexedDrop(timers.nodes, usersTimer, Position(s.list, cur));
      called := timers.Tick(cur);
      open, now, lastTick, count := open - CalledBack(s, cur), cur, cur, count + 1;
    }
  }

  lemma IndexedDrop(nodes: seq<UtilTimer>, usersTimer: map<nat, UtilTimer>, n: nat)
    requires Indexed(nodes, usersTimer) && n <= |nodes|
    ensures Indexed(nodes[n..], usersTimer)
  {}

  lemma StepTick(s: Server, at: int)
    ensures Step(s, Tick(at)) == Server(s.list[Position(s.list, at)..], s.open - CalledBack(s, at), at, at, s.count + 1)
  {}

  lemma StepAccept(s: Server, c: nat, at: int)
    ensures Step(s, Accept(c, at)) ==
      Server(Insert(s.list, Entry(c, at + 3 * TIMESLOT)), s.open[c := Activity(at, s.count)], at, s.lastTick, s.count + 1)
  {}

  lemma StepClose(s: Server, c: nat, at: int)
    requires Find(s.list, c) < |s.list|
    ensures Step(s, Close(c, at)) ==
      Server(RemoveAt(s.list, Find(s.list, c)), s.open - {c}, at, s.lastTick, s.count + 1)
  {
    hide Find, Insert, RemoveAt;
  }

  lemma StepActive(s: Server, c: nat, at: int)
    requires Find(s.list, c) < |s.list|
    ensures var k := Find(s.list, c);
      Step(s, Active(c, at)) ==
        Server(Adjust(s.list, k, at + 3 * TIMESLOT), s.open[c := Activity(at, s.count)], at, s.lastTick, s.count + 1)
  {
    hide Find, Insert, RemoveAt;
  }

  /** Setting a timer ahead keeps the rest in order, and does not matter once the timer is taken out. */
  lemma Postponed(s: Server, k: nat, at: int)
    requires Inv(s) && k < |s.list| && s.now <= at
    ensures var later := s.list[k := Entry(s.list[k].conn, at + 3 * TIMESLOT)];
      && SortedBut(later, k) && RemoveAt(later, k) == RemoveAt(s.list, k)
      && Insert(RemoveAt(later, k), later[k]) == Adjust(s.list, k, at + 3 * TIMESLOT)
  {
    hide Covered, Position;
    EntryOf(s.list, s.open, k);
  }

  lemma NotListed(s: Server, c: nat, nodes: seq<UtilTimer>)
    requires Inv(s) && c !in s.open && s.list == EntriesOf(nodes)
    ensures forall i :: 0 <= i < |nodes| ==> nodes[i].conn != c
  {
    hide Covered;
    forall i | 0 <= i < |nodes| ensures nodes[i].conn != c {
      assert s.list[i].conn == nodes[i].conn;
    }
  }
}

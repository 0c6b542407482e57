/** The hand-off of connections between the event loop, the worker queue and the database pool, as interleaved
    steps of the main thread and of any number of workers. Lock sections are one step; semaphore operations and the
    unlocked empty() test are steps of their own. Connection identities are not used twice. */
module Pools {
  import opened Counting

  type Conn = nat
  type Db = nat

  /** Where a worker stands in run(), with the request and the database connection it has. */
  datatype Worker =
    | AtWait                            // before m_queuestat.wait()
    | Woken                             // past it, before the queue lock
    | Took(conn: Conn)                  // before connList.empty()
    | Passed(conn: Conn)                // the list was not empty; before reserve.wait()
    | Permitted(conn: Conn)             // past it, before the pool lock
    | Working(conn: Conn, db: Db)       // in process()
    | Done(db: Db)                      // process() has armed the descriptor again; before ReleaseConnection
    | Unposted                          // released, before reserve.post()
    | NoConnection(conn: Conn)          // GetConnection returned null

  /** Where the main thread stands; `rest` are the events of the batch still to be handled. */
  datatype Main =
    | Polling
    | Handling(rest: seq<Conn>)
    | Reading(conn: Conn, rest: seq<Conn>)       // read_once
    | Posting(rest: seq<Conn>)                   // in append, before m_queuestat.post()
    | Writing(conn: Conn, rest: seq<Conn>)       // write, before its modfd
    | Rearming(conn: Conn, rest: seq<Conn>)      // write, after its modfd

  datatype Config = Config(dbs: seq<Db>, maxRequests: nat)

  datatype Hub = Hub(
    main: Main, workers: seq<Worker>,
    queue: seq<Conn>, stat: nat,                              // m_workqueue, m_queuestat
    free: seq<Db>, reserve: nat, freeConn: int, curConn: int, // connList, reserve, m_FreeConn, m_CurConn
    armed: set<Conn>, open: set<Conn>, known: set<Conn>,      // in epoll; not closed; ever accepted
    refused: set<Conn>,                                       // read, but the queue was full
    accepted: seq<Conn>, taken: seq<(Conn, nat)>,             // tasks queued so far; tasks taken, and by which worker
    lent: seq<Db>, returned: seq<Db>)                         // connections handed out and given back so far

  function Start(cfg: Config, workers: nat): Hub {
    Hub(Polling, seq(workers, _ => AtWait), [], 0, cfg.dbs, |cfg.dbs|, |cfg.dbs|, 0, {}, {}, {}, {}, [], [], [], [])
  }

  datatype Action =
    | Accept(c: Conn)
    | Poll(batch: seq<Conn>)
    | Expire(cs: set<Conn>)             // tick closes idle connections
    | EndBatch
    | BeginRead | BeginWrite | HangUp   // what the next event of the batch is
    | ReadFails | Append | Post
    | WriteFails | Rearm | WriteReturns(keep: bool)
    | WaitQueue(i: nat) | TakeTask(i: nat) | TestPool(i: nat) | WaitReserve(i: nat) | GetDb(i: nat)
    | Process(i: nat, close: bool) | ProcessNull(i: nat, close: bool) | Release(i: nat) | PostReserve(i: nat)

  predicate Enabled(h: Hub, a: Action) {
    match a
    case Accept(c) => (h.main.Polling? || h.main.Handling?) && c !in h.known
    case Poll(batch) => h.main.Polling? && (forall c :: c in batch ==> c in h.armed) && NoRepeats(batch)
    case Expire(cs) => h.main.Polling?
    case EndBatch => h.main.Handling? && h.main.rest == []
    case BeginRead => h.main.Handling? && h.main.rest != []
    case BeginWrite => h.main.Handling? && h.main.rest != []
    case HangUp => h.main.Handling? && h.main.rest != []
    case ReadFails => h.main.Reading?
    case Append => h.main.Reading?
    case Post => h.main.Posting?
    case WriteFails => h.main.Writing?
    case Rearm => h.main.Writing?
    case WriteReturns(_) => h.main.Rearming?
    case WaitQueue(i) => i < |h.workers| && h.workers[i].AtWait? && h.stat > 0
    case TakeTask(i) => i < |h.workers| && h.workers[i].Woken?
    case TestPool(i) => i < |h.workers| && h.workers[i].Took?
    case WaitReserve(i) => i < |h.workers| && h.workers[i].Passed? && h.reserve > 0
    case GetDb(i) => i < |h.workers| && h.workers[i].Permitted? && h.free != []
    case Process(i, _) => i < |h.workers| && h.workers[i].Working?
    case ProcessNull(i, _) => i < |h.workers| && h.workers[i].NoConnection?
    case Release(i) => i < |h.workers| && h.workers[i].Done?
    case PostReserve(i) => i < |h.workers| && h.workers[i].Unposted?
  }

  predicate NoRepeats(s: seq<Conn>) { forall i, j :: 0 <= i < j < |s| ==> s[i] != s[j] }

  function ToSet(s: seq<Conn>): set<Conn> { set c | c in s }

  function Closed(h: Hub, cs: set<Conn>): Hub { h.(open := h.open - cs, armed := h.armed - cs) }

  /** epoll_ctl(MOD) has an effect on open descriptors only. */
  function Armed(h: Hub, c: Conn): Hub { if c in h.open then h.(armed := h.armed + {c}) else h }

  function At(h: Hub, i: nat, w: Worker): Hub
    requires i < |h.workers|
  {
    h.(workers := h.workers[i := w])
  }

  function Next(cfg: Config, h: Hub, a: Action): Hub
    requires Enabled(h, a)
  {
    match a
    case Accept(c) => h.(armed := h.armed + {c}, open := h.open + {c}, known := h.known + {c})
    case Poll(batch) => h.(main := Handling(batch), armed := h.armed - ToSet(batch))
    case Expire(cs) => Closed(h, cs)
    case EndBatch => h.(main := Polling)
    case BeginRead => h.(main := Reading(h.main.rest[0], h.main.rest[1..]))
    case BeginWrite => h.(main := Writing(h.main.rest[0], h.main.rest[1..]))
    case HangUp => Closed(h, {h.main.rest[0]}).(main := Handling(h.main.rest[1..]))
    case ReadFails => Closed(h, {h.main.conn}).(main := Handling(h.main.rest))
    case Append =>
      if |h.queue| > cfg.maxRequests then h.(main := Handling(h.main.rest), refused := h.refused + {h.main.conn})
      else h.(main := Posting(h.main.rest), queue := h.queue + [h.main.conn], accepted := h.accepted + [h.main.conn])
    case Post => h.(main := Handling(h.main.rest), stat := h.stat + 1)
    case WriteFails => Closed(h, {h.main.conn}).(main := Handling(h.main.rest))
    case Rearm => Armed(h, h.main.conn).(main := Rearming(h.main.conn, h.main.rest))
    case WriteReturns(keep) => (if keep then h else Closed(h, {h.main.conn})).(main := Handling(h.main.rest))
    case WaitQueue(i) => At(h, i, Woken).(stat := h.stat - 1)
    case TakeTask(i) =>
      if h.queue == [] then At(h, i, AtWait)
      else At(h, i, Took(h.queue[0])).(queue := h.queue[1..], taken := h.taken + [(h.queue[0], i)])
    case TestPool(i) =>
      At(h, i, if h.free == [] then NoConnection(h.workers[i].conn) else Passed(h.workers[i].conn))
    case WaitReserve(i) => At(h, i, Permitted(h.workers[i].conn)).(reserve := h.reserve - 1)
    case GetDb(i) =>
      At(h, i, Working(h.workers[i].conn, h.free[0]))
        .(free := h.free[1..], freeConn := h.freeConn - 1, curConn := h.curConn + 1, lent := h.lent + [h.free[0]])
    case Process(i, close) =>
      var c := h.workers[i].conn;
      At(if close then Closed(h, {c}) else Armed(h, c), i, Done(h.workers[i].db))
    case ProcessNull(i, close) =>
      var c := h.workers[i].conn;
      At(if close then Closed(h, {c}) else Armed(h, c), i, AtWait)
    case Release(i) =>
      At(h, i, Unposted).(free := h.free + [h.workers[i].db], freeConn := h.freeConn + 1, curConn := h.curConn - 1,
                          returned := h.returned + [h.workers[i].db])
    case PostReserve(i) => At(h, i, AtWait).(reserve := h.reserve + 1)
  }

  // ---------------------------------------------------------------- the invariant

  function IsWoken(w: Worker): nat { if w.Woken? then 1 else 0 }
  function HasPermit(w: Worker): nat { if w.Permitted? then 1 else 0 }
  function OwesPost(w: Worker): nat { if w.Unposted? then 1 else 0 }
  function HasDb(w: Worker): nat { if w.Working? || w.Done? then 1 else 0 }
  function HasConn(w: Worker): bool { w.Took? || w.Passed? || w.Permitted? || w.Working? || w.NoConnection? }

  /** Whether a worker has this database connection, or this client connection. */
  function WithDb(d: Db): Worker -> nat { (w: Worker) => if (w.Working? || w.Done?) && w.db == d then 1 else 0 }
  function WithConn(c: Conn): Worker -> nat { (w: Worker) => if HasConn(w) && w.conn == c then 1 else 0 }

  function Firsts(taken: seq<(Conn, nat)>): seq<Conn> { seq(|taken|, k requires 0 <= k < |taken| => taken[k].0) }

  /** Every queued task is backed by the semaphore, by the appender that has not posted yet, or by a worker that was
      woken for it; tasks leave the queue in the order they came. */
  ghost predicate QueueInv(cfg: Config, h: Hub) {
    && |h.queue| == h.stat + (if h.main.Posting? then 1 else 0) + Sum(h.workers, IsWoken)
    && Firsts(h.taken) + h.queue == h.accepted
    && |h.queue| <= cfg.maxRequests + 1
  }

  /** Every free connection is backed by the semaphore, by a worker past it, or by one that has not posted yet; each
      connection is in the list or with exactly one worker; the two counters say how many; and connections are
      handed out in the order they were made or given back. */
  ghost predicate PoolInv(cfg: Config, h: Hub) {
    && |h.free| == h.reserve + Sum(h.workers, HasPermit) + Sum(h.workers, OwesPost)
    && |h.free| + Sum(h.workers, HasDb) == |cfg.dbs|
    && (forall d :: Count(h.free, d) + Sum(h.workers, WithDb(d)) == Count(cfg.dbs, d))
    && h.freeConn == |h.free| && h.curConn == Sum(h.workers, HasDb)
    && h.lent + h.free == cfg.dbs + h.returned
  }

  function One(b: bool): nat { if b then 1 else 0 }

  function MainPlaces(h: Hub, c: Conn): nat {
    match h.main
    case Polling => 0
    case Handling(rest) => Count(rest, c)
    case Reading(c', rest) => One(c == c') + Count(rest, c)
    case Posting(rest) => Count(rest, c)
    case Writing(c', rest) => One(c == c') + Count(rest, c)
    case Rearming(c', rest) => One(c == c' && c !in h.armed) + Count(rest, c)
  }

  /** In how many places a connection is: armed, with the main thread, queued, with a worker. */
  function Places(h: Hub, c: Conn): nat {
    One(c in h.armed) + MainPlaces(h, c) + Count(h.queue, c) + Sum(h.workers, WithConn(c))
  }

  /** A connection is never in two places; an open one is in one, unless the full queue refused its task, and then it
      is in none. */
  predicate Placed(h: Hub, c: Conn) {
    && (c in h.refused ==> c in h.known && Places(h, c) == 0)
    && Places(h, c) <= One(c in h.known)
    && (c in h.open && c !in h.refused ==> Places(h, c) == 1)
    && (h.main.Rearming? && h.main.conn == c && c in h.open ==> c in h.armed)
  }

  ghost predicate OneShotInv(h: Hub) {
    forall c :: Placed(h, c)
  }

  ghost predicate Inv(cfg: Config, h: Hub) { QueueInv(cfg, h) && PoolInv(cfg, h) && OneShotInv(h) }

  // ---------------------------------------------------------------- steps of the main thread

  predicate ByMain(a: Action) {
    a.Accept? || a.Poll? || a.Expire? || a.EndBatch? || a.BeginRead? || a.BeginWrite? || a.HangUp?
    || a.ReadFails? || a.Append? || a.Post? || a.WriteFails? || a.Rearm? || a.WriteReturns?
  }

  lemma MainKeepsCounts(cfg: Config, h: Hub, a: Action)
    requires QueueInv(cfg, h) && PoolInv(cfg, h) && Enabled(h, a) && ByMain(a)
    ensures QueueInv(cfg, Next(cfg, h, a)) && PoolInv(cfg, Next(cfg, h, a))
  {
    hide Sum, Firsts;
    var h' := Next(cfg, h, a);
    assert h'.workers == h.workers;
    if a.Append? && |h.queue| <= cfg.maxRequests {
      assert Firsts(h.taken) + (h.queue + [h.main.conn]) == h.accepted + [h.main.conn];
    }
  }

  /** The main thread between two events of a batch. */
  predicate BetweenEvents(a: Action) {
    a.Accept? || a.Poll? || a.Expire? || a.EndBatch? || a.BeginRead? || a.BeginWrite? || a.HangUp?
  }

  lemma BetweenEventsMoves(cfg: Config, h: Hub, a: Action, c: Conn)
    requires Enabled(h, a) && BetweenEvents(a) && Placed(h, c)
    ensures Placed(Next(cfg, h, a), c)
  {
    hide Sum, WithConn, Count, NoRepeats;
    if h.main.Handling? && h.main.rest != [] { CountFront(h.main.rest, c); }
    if a.EndBatch? { CountNone(c); }
    if a.Poll? { BatchOnce(a.batch, c); }
  }

  lemma EventMoves(cfg: Config, h: Hub, a: Action, c: Conn)
    requires Enabled(h, a) && ByMain(a) && !BetweenEvents(a) && Placed(h, c)
    ensures Placed(Next(cfg, h, a), c)
  {
    hide Sum, WithConn, Count;
    if a.Append? { CountAppend(h.queue, h.main.conn, c); }
  }

  /** A step of the main thread moves a connection from one place to another, closes or refuses it, or brings in a new one. */
  lemma MainMoves(cfg: Config, h: Hub, a: Action, c: Conn)
    requires Enabled(h, a) && ByMain(a) && Placed(h, c)
    ensures Placed(Next(cfg, h, a), c)
  {
    hide Next, Placed, Enabled;
    if BetweenEvents(a) { BetweenEventsMoves(cfg, h, a, c); } else { EventMoves(cfg, h, a, c); }
  }

  lemma {:induction false} BatchOnce(batch: seq<Conn>, c: Conn)
    requires NoRepeats(batch)
    ensures Count(batch, c) == One(c in batch)
  {
    if batch != [] {
      assert batch == [batch[0]] + batch[1..];
      BatchOnce(batch[1..], c);
    }
  }

  // ---------------------------------------------------------------- steps of the workers

  /** What a worker's step does to each of the sums. */
  lemma WorkerSums(h: Hub, i: nat, w: Worker, d: Db, c: Conn)
    requires i < |h.workers|
    ensures var ws, ws', v := h.workers, h.workers[i := w], h.workers[i];
      && Sum(ws', IsWoken) + IsWoken(v) == Sum(ws, IsWoken) + IsWoken(w)
      && Sum(ws', HasPermit) + HasPermit(v) == Sum(ws, HasPermit) + HasPermit(w)
      && Sum(ws', OwesPost) + OwesPost(v) == Sum(ws, OwesPost) + OwesPost(w)
      && Sum(ws', HasDb) + HasDb(v) == Sum(ws, HasDb) + HasDb(w)
      && Sum(ws', WithDb(d)) + WithDb(d)(v) == Sum(ws, WithDb(d)) + WithDb(d)(w)
      && Sum(ws', WithConn(c)) + WithConn(c)(v) == Sum(ws, WithConn(c)) + WithConn(c)(w)
  {
    hide Sum;
    SumUpdate(h.workers, IsWoken, i, w);
    SumUpdate(h.workers, HasPermit, i, w);
    SumUpdate(h.workers, OwesPost, i, w);
    SumUpdate(h.workers, HasDb, i, w);
    SumUpdate(h.workers, WithDb(d), i, w);
    SumUpdate(h.workers, WithConn(c), i, w);
  }

  /** The state a worker is in after its step. */
  function After(h: Hub, a: Action): (r: (nat, Worker))
    requires Enabled(h, a) && !ByMain(a)
    ensures r.0 < |h.workers|
  {
    match a
    case WaitQueue(i) => (i, Woken)
    case TakeTask(i) => (i, if h.queue == [] then AtWait else Took(h.queue[0]))
    case TestPool(i) => (i, if h.free == [] then NoConnection(h.workers[i].conn) else Passed(h.workers[i].conn))
    case WaitReserve(i) => (i, Permitted(h.workers[i].conn))
    case GetDb(i) => (i, Working(h.workers[i].conn, h.free[0]))
    case Process(i, _) => (i, Done(h.workers[i].db))
    case ProcessNull(i, _) => (i, AtWait)
    case Release(i) => (i, Unposted)
    case PostReserve(i) => (i, AtWait)
  }

  lemma NextWorkers(cfg: Config, h: Hub, a: Action)
    requires Enabled(h, a) && !ByMain(a)
    ensures var (i, w) := After(h, a); Next(cfg, h, a).workers == h.workers[i := w] && Next(cfg, h, a).main == h.main
  {}

  lemma WorkerKeepsQueue(cfg: Config, h: Hub, a: Action)
    requires QueueInv(cfg, h) && Enabled(h, a) && !ByMain(a)
    ensures QueueInv(cfg, Next(cfg, h, a))
  {
    hide Sum, WithDb, WithConn;
    var (i, w) := After(h, a);
    NextWorkers(cfg, h, a);
    WorkerSums(h, i, w, 0, 0);
    if a.TakeTask? && h.queue != [] {
      assert Firsts(h.taken + [(h.queue[0], i)]) == Firsts(h.taken) + [h.queue[0]];
      assert h.queue == [h.queue[0]] + h.queue[1..];
    }
  }

  lemma WorkerKeepsPool(cfg: Config, h: Hub, a: Action)
    requires PoolInv(cfg, h) && Enabled(h, a) && !ByMain(a)
    ensures PoolInv(cfg, Next(cfg, h, a))
  {
    hide Sum, WithConn, WithDb, Count;
    var (i, w) := After(h, a);
    var h' := Next(cfg, h, a);
    NextWorkers(cfg, h, a);
    WorkerSums(h, i, w, 0, 0);
    if a.GetDb? { assert h.free == [h.free[0]] + h.free[1..]; }
    if a.Release? { assert h.lent + (h.free + [h.workers[i].db]) == (h.lent + h.free) + [h.workers[i].db]; }
    forall d ensures Count(h'.free, d) + Sum(h'.workers, WithDb(d)) == Count(h.free, d) + Sum(h.workers, WithDb(d)) {
      WorkerMovesDb(cfg, h, a, d);
    }
  }

  lemma WorkerMovesDb(cfg: Config, h: Hub, a: Action, d: Db)
    requires Enabled(h, a) && !ByMain(a)
    ensures var h' := Next(cfg, h, a);
      Count(h'.free, d) + Sum(h'.workers, WithDb(d)) == Count(h.free, d) + Sum(h.workers, WithDb(d))
  {
    hide Sum, Count;
    var (i, w) := After(h, a);
    NextWorkers(cfg, h, a);
    SumUpdate(h.workers, WithDb(d), i, w);
    if a.GetDb? { CountFront(h.free, d); }
    if a.Release? { CountAppend(h.free, h.workers[i].db, d); }
  }

  /** The end of process(): the connection is closed or armed again. */
  lemma ProcessMoves(cfg: Config, h: Hub, a: Action, c: Conn)
    requires Enabled(h, a) && (a.Process? || a.ProcessNull?) && Placed(h, c)
    ensures Placed(Next(cfg, h, a), c)
  {
    hide Sum, Count;
    var (i, w) := After(h, a);
    SumUpdate(h.workers, WithConn(c), i, w);
    SumAtLeast(h.workers, WithConn(c), i);
  }

  lemma OtherWorkerMoves(cfg: Config, h: Hub, a: Action, c: Conn)
    requires Enabled(h, a) && !ByMain(a) && !a.Process? && !a.ProcessNull? && Placed(h, c)
    ensures Placed(Next(cfg, h, a), c)
  {
    hide Sum, Count;
    var (i, w) := After(h, a);
    SumUpdate(h.workers, WithConn(c), i, w);
    if a.TakeTask? && h.queue != [] { CountFront(h.queue, c); }
  }

  lemma WorkerMoves(cfg: Config, h: Hub, a: Action, c: Conn)
    requires Enabled(h, a) && !ByMain(a) && Placed(h, c)
    ensures Placed(Next(cfg, h, a), c)
  {
    hide Next, Placed, Enabled;
    if a.Process? || a.ProcessNull? { ProcessMoves(cfg, h, a, c); } else { OtherWorkerMoves(cfg, h, a, c); }
  }

  // ---------------------------------------------------------------- every step, every run

  lemma NextKeeps(cfg: Config, h: Hub, a: Action)
    requires Inv(cfg, h) && Enabled(h, a)
    ensures Inv(cfg, Next(cfg, h, a))
  {
    hide QueueInv, PoolInv, Next, Enabled, Placed;
    if ByMain(a) {
      MainKeepsCounts(cfg, h, a);
      forall c ensures Placed(Next(cfg, h, a), c) { MainMoves(cfg, h, a, c); }
    } else {
      WorkerKeepsQueue(cfg, h, a);
      WorkerKeepsPool(cfg, h, a);
      forall c ensures Placed(Next(cfg, h, a), c) { WorkerMoves(cfg, h, a, c); }
    }
  }

  predicate Happens(cfg: Config, h: Hub, run: seq<Action>)
    decreases |run|
  {
    run == [] || (Enabled(h, run[0]) && Happens(cfg, Next(cfg, h, run[0]), run[1..]))
  }

  function Run(cfg: Config, h: Hub, run: seq<Action>): Hub
    requires Happens(cfg, h, run)
    decreases |run|
  {
    if run == [] then h else Run(cfg, Next(cfg, h, run[0]), run[1..])
  }

  lemma {:induction false} RunKeeps(cfg: Config, h: Hub, run: seq<Action>)
    requires Inv(cfg, h) && Happens(cfg, h, run)
    ensures Inv(cfg, Run(cfg, h, run)) && |Run(cfg, h, run).workers| == |h.workers|
    decreases |run|
  {
    hide Inv, Next, Enabled;
    if run != [] {
      NextKeeps(cfg, h, run[0]);
      SameWorkers(cfg, h, run[0]);
      RunKeeps(cfg, Next(cfg, h, run[0]), run[1..]);
    }
  }

  lemma SameWorkers(cfg: Config, h: Hub, a: Action)
    requires Enabled(h, a)
    ensures |Next(cfg, h, a).workers| == |h.workers|
  {}

  lemma {:induction false} SumOfStart(n: nat, f: Worker -> nat)
    requires f(AtWait) == 0
    ensures Sum(seq(n, _ => AtWait), f) == 0
  {
    if n > 0 {
      assert seq(n, _ => AtWait)[1..] == seq(n - 1, _ => AtWait);
      SumOfStart(n - 1, f);
    }
  }

  lemma StartInv(cfg: Config, n: nat)
    ensures Inv(cfg, Start(cfg, n))
  {
    hide Sum;
    SumOfStart(n, IsWoken);
    SumOfStart(n, HasPermit);
    SumOfStart(n, OwesPost);
    SumOfStart(n, HasDb);
    forall d ensures Sum(Start(cfg, n).workers, WithDb(d)) == 0 { SumOfStart(n, WithDb(d)); }
    forall c ensures Sum(Start(cfg, n).workers, WithConn(c)) == 0 { SumOfStart(n, WithConn(c)); }
  }
}

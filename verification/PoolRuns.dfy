/** What the invariant of Pools.dfy means for every run of the server. */
module PoolRuns {
  import opened Counting
  import opened Pools

  /** A state reached from the start with `n` workers. */
  function Reached(cfg: Config, n: nat, run: seq<Action>): Hub
    requires Happens(cfg, Start(cfg, n), run)
  {
    Run(cfg, Start(cfg, n), run)
  }

  lemma ReachedInv(cfg: Config, n: nat, run: seq<Action>)
    requires Happens(cfg, Start(cfg, n), run)
    ensures Inv(cfg, Reached(cfg, n, run)) && |Reached(cfg, n, run).workers| == n
  {
    hide Inv, Happens, Run;
    StartInv(cfg, n);
    RunKeeps(cfg, Start(cfg, n), run);
  }

  // ---------------------------------------------------------------- the worker queue

  /** A woken worker always finds a task, so run() never takes its `continue`; and the tasks taken, each by one
      worker, followed by the tasks queued are the tasks accepted, in order. */
  lemma QueueTheorem(cfg: Config, n: nat, run: seq<Action>)
    requires Happens(cfg, Start(cfg, n), run)
    ensures var h := Reached(cfg, n, run);
      && (forall i :: 0 <= i < |h.workers| && h.workers[i].Woken? ==> h.queue != [])
      && |h.queue| == h.stat + (if h.main.Posting? then 1 else 0) + Sum(h.workers, IsWoken)
      && Firsts(h.taken) + h.queue == h.accepted
      && |h.queue| <= cfg.maxRequests + 1
  {
    hide Happens, Run, Sum, Firsts;
    ReachedInv(cfg, n, run);
    var h := Reached(cfg, n, run);
    forall i | 0 <= i < |h.workers| && h.workers[i].Woken? ensures h.queue != [] { SumAtLeast(h.workers, IsWoken, i); }
  }

  // ---------------------------------------------------------------- the database pool

  /** front() never meets an empty list, with any number of workers and despite the unlocked test; and the connection
      unused for longest is handed out first. */
  lemma FrontTheorem(cfg: Config, n: nat, run: seq<Action>)
    requires Happens(cfg, Start(cfg, n), run)
    ensures var h := Reached(cfg, n, run);
      && (forall i :: 0 <= i < |h.workers| && h.workers[i].Permitted? ==> h.free != [])
      && h.freeConn == |h.free| && h.freeConn + h.curConn == |cfg.dbs|
      && Sum(h.workers, HasPermit) <= |h.free|
      && h.lent + h.free == cfg.dbs + h.returned
  {
    hide Happens, Run, Sum;
    ReachedInv(cfg, n, run);
    var h := Reached(cfg, n, run);
    forall i | 0 <= i < |h.workers| && h.workers[i].Permitted? ensures h.free != [] { SumAtLeast(h.workers, HasPermit, i); }
  }

  /** Each database connection is in exactly one place: once in the list and with no worker, or not in the list and
      with one worker only. */
  lemma OnePlaceTheorem(cfg: Config, n: nat, run: seq<Action>, d: Db)
    requires Happens(cfg, Start(cfg, n), run) && Count(cfg.dbs, d) == 1
    ensures var h := Reached(cfg, n, run);
      && (d in h.free ==> Count(h.free, d) == 1 && forall i :: 0 <= i < |h.workers| ==> WithDb(d)(h.workers[i]) == 0)
      && (d !in h.free ==> exists i :: 0 <= i < |h.workers| && WithDb(d)(h.workers[i]) == 1)
      && (forall i, j :: 0 <= i < j < |h.workers| ==> WithDb(d)(h.workers[i]) + WithDb(d)(h.workers[j]) <= 1)
  {
    hide Happens, Run, Sum, WithDb;
    ReachedInv(cfg, n, run);
    var h := Reached(cfg, n, run);
    forall i | 0 <= i < |h.workers| ensures WithDb(d)(h.workers[i]) <= Sum(h.workers, WithDb(d)) {
      SumAtLeast(h.workers, WithDb(d), i);
    }
    forall i, j | 0 <= i < j < |h.workers| ensures WithDb(d)(h.workers[i]) + WithDb(d)(h.workers[j]) <= Sum(h.workers, WithDb(d)) {
      SumAtLeastTwo(h.workers, WithDb(d), i, j);
    }
    if d !in h.free { DbHolder(h.workers, d); }
  }

  lemma {:induction false} DbHolder(ws: seq<Worker>, d: Db)
    requires Sum(ws, WithDb(d)) > 0
    ensures exists i :: 0 <= i < |ws| && WithDb(d)(ws[i]) == 1
  {
    if WithDb(d)(ws[0]) == 0 {
      DbHolder(ws[1..], d);
      var i :| 0 <= i < |ws[1..]| && WithDb(d)(ws[1..][i]) == 1;
      assert ws[i + 1] == ws[1..][i];
    } else {
      assert WithDb(d)(ws[0]) == 1;
    }
  }

  // ---------------------------------------------------------------- both pools together

  /** A worker uses the pool, past the empty() test, for one connection at a time. */
  function Uses(w: Worker): nat { HasDb(w) + HasPermit(w) + OwesPost(w) }

  lemma {:induction false} SumUses(ws: seq<Worker>)
    ensures Sum(ws, Uses) == Sum(ws, HasDb) + Sum(ws, HasPermit) + Sum(ws, OwesPost)
  {
    if ws != [] { SumUses(ws[1..]); }
  }

  /** With no more workers than connections, one that tests the list or waits for the semaphore finds both in
      its favour. */
  lemma EnoughForAll(cfg: Config, h: Hub, i: nat)
    requires PoolInv(cfg, h) && i < |h.workers| <= |cfg.dbs| && Uses(h.workers[i]) == 0
    ensures h.free != [] && h.reserve > 0
  {
    hide Sum;
    SumUses(h.workers);
    SumBelow(h.workers, Uses, i);
  }

  predicate NoNull(h: Hub) { forall i :: 0 <= i < |h.workers| ==> !h.workers[i].NoConnection? }

  lemma NextNoNull(cfg: Config, h: Hub, a: Action)
    requires Inv(cfg, h) && NoNull(h) && |h.workers| <= |cfg.dbs| && Enabled(h, a)
    ensures NoNull(Next(cfg, h, a))
  {
    hide QueueInv, PoolInv, OneShotInv;
    if a.TestPool? { EnoughForAll(cfg, h, a.i); }
  }

  lemma {:induction false} RunNoNull(cfg: Config, h: Hub, run: seq<Action>)
    requires Inv(cfg, h) && NoNull(h) && |h.workers| <= |cfg.dbs| && Happens(cfg, h, run)
    ensures NoNull(Run(cfg, h, run))
    decreases |run|
  {
    hide Inv, NoNull, Enabled, Next;
    if run != [] {
      NextKeeps(cfg, h, run[0]);
      NextNoNull(cfg, h, run[0]);
      SameWorkers(cfg, h, run[0]);
      RunNoNull(cfg, Next(cfg, h, run[0]), run[1..]);
    }
  }

  /** With no more workers than connections, no GetConnection returns null or blocks on the semaphore. */
  lemma CompositionTheorem(cfg: Config, n: nat, run: seq<Action>)
    requires n <= |cfg.dbs| && Happens(cfg, Start(cfg, n), run)
    ensures var h := Reached(cfg, n, run);
      NoNull(h) && forall i :: 0 <= i < |h.workers| && h.workers[i].Passed? ==> h.reserve > 0
  {
    hide Happens, Run;
    StartInv(cfg, n);
    RunNoNull(cfg, Start(cfg, n), run);
    ReachedInv(cfg, n, run);
    var h := Reached(cfg, n, run);
    forall i | 0 <= i < |h.workers| && h.workers[i].Passed? ensures h.reserve > 0 { EnoughForAll(cfg, h, i); }
  }

  // ---------------------------------------------------------------- one-shot ownership

  datatype Thread = MainThread | WorkerThread(i: nat)

  /** The thread works on the buffers of the connection. */
  predicate Owns(h: Hub, t: Thread, c: Conn) {
    match t
    case MainThread => (h.main.Reading? || h.main.Writing? || h.main.Rearming?) && h.main.conn == c
    case WorkerThread(i) => i < |h.workers| && HasConn(h.workers[i]) && h.workers[i].conn == c
  }

  /** No two threads work on one connection; and a worker's connection is neither armed nor queued nor in the batch. */
  lemma OwnershipTheorem(cfg: Config, n: nat, run: seq<Action>, s: Thread, t: Thread, c: Conn)
    requires Happens(cfg, Start(cfg, n), run)
    requires Owns(Reached(cfg, n, run), s, c) && Owns(Reached(cfg, n, run), t, c)
    ensures s == t
    ensures var h := Reached(cfg, n, run);
      s.WorkerThread? ==> c !in h.armed && c !in h.queue && (!h.main.Polling? ==> c !in h.main.rest)
  {
    hide Happens, Run, QueueInv, PoolInv;
    ReachedInv(cfg, n, run);
    OwnerIsUnique(Reached(cfg, n, run), s, t, c);
  }

  /** An open connection is in exactly one place - armed, with the main thread, queued or with a worker - or, if the
      full queue has refused its task, in none: no event will come for it. */
  lemma LostIff(cfg: Config, n: nat, run: seq<Action>, c: Conn)
    requires Happens(cfg, Start(cfg, n), run)
    ensures var h := Reached(cfg, n, run);
      c in h.open ==> if c in h.refused then Places(h, c) == 0 else Places(h, c) == 1
  {
    hide Happens, Run, QueueInv, PoolInv, Places;
    ReachedInv(cfg, n, run);
    assert Placed(Reached(cfg, n, run), c);
  }

  lemma OwnerIsUnique(h: Hub, s: Thread, t: Thread, c: Conn)
    requires OneShotInv(h) && Owns(h, s, c) && Owns(h, t, c)
    ensures s == t
    ensures s.WorkerThread? ==> c !in h.armed && c !in h.queue && (!h.main.Polling? ==> c !in h.main.rest)
  {
    hide Sum;
    assert Placed(h, c);
    if s.WorkerThread? { SumAtLeast(h.workers, WithConn(c), s.i); }
    if t.WorkerThread? { SumAtLeast(h.workers, WithConn(c), t.i); }
    if s.WorkerThread? && t.WorkerThread? && s.i < t.i { SumAtLeastTwo(h.workers, WithConn(c), s.i, t.i); }
    if s.WorkerThread? && t.WorkerThread? && t.i < s.i { SumAtLeastTwo(h.workers, WithConn(c), t.i, s.i); }
  }

  // ---------------------------------------------------------------- and with more workers

  lemma {:induction false} Extend(cfg: Config, h: Hub, run: seq<Action>, a: Action)
    requires Happens(cfg, h, run) && Enabled(Run(cfg, h, run), a)
    ensures Happens(cfg, h, run + [a]) && Run(cfg, h, run + [a]) == Next(cfg, Run(cfg, h, run), a)
    decreases |run|
  {
    hide Next, Enabled;
    if run == [] {
      assert [] + [a] == [a] && [a][1..] == [];
    } else {
      assert (run + [a])[1..] == run[1..] + [a];
      Extend(cfg, Next(cfg, h, run[0]), run[1..], a);
    }
  }

  /** The first `k` workers are in process(), and nothing else is going on. */
  ghost predicate Busy(cfg: Config, n: nat, h: Hub, k: nat) {
    && h.main == Polling && |h.workers| == n && k <= n && k <= |cfg.dbs|
    && (forall i :: 0 <= i < n ==> if i < k then h.workers[i].Working? else h.workers[i] == AtWait)
    && h.queue == [] && h.stat == 0 && h.free == cfg.dbs[k..] && h.reserve == |cfg.dbs| - k
    && (forall c :: k <= c ==> c !in h.known)
  }

  /** The steps `acts` lead from `h` to `h'`. */
  predicate Leads(cfg: Config, h: Hub, acts: seq<Action>, h': Hub) {
    Happens(cfg, h, acts) && Run(cfg, h, acts) == h'
  }

  lemma LeadsOn(cfg: Config, h: Hub, acts: seq<Action>, h1: Hub, a: Action)
    requires Leads(cfg, h, acts, h1) && Enabled(h1, a)
    ensures Leads(cfg, h, acts + [a], Next(cfg, h1, a))
  {
    hide Next, Enabled, Happens;
    Extend(cfg, h, acts, a);
  }

  /** Connection `c` is accepted, is ready, and its request is read and queued. */
  lemma OneRequest(cfg: Config, s: Hub, run: seq<Action>, h: Hub, c: Conn) returns (run': seq<Action>, h': Hub)
    requires Leads(cfg, s, run, h) && h.main == Polling && |h.queue| <= cfg.maxRequests && c !in h.known
    ensures Leads(cfg, s, run', h')
    ensures h' == h.(queue := h.queue + [c], stat := h.stat + 1, known := h.known + {c}, open := h'.open, armed := h'.armed, accepted := h'.accepted)
  {
    hide Leads;
    run', h' := OneEvent(cfg, s, run, h, c);
    LeadsOn(cfg, s, run', h', BeginRead);
    run', h' := run' + [BeginRead], Next(cfg, h', BeginRead);
    LeadsOn(cfg, s, run', h', Append);
    run', h' := run' + [Append], Next(cfg, h', Append);
    LeadsOn(cfg, s, run', h', Post);
    run', h' := run' + [Post], Next(cfg, h', Post);
    LeadsOn(cfg, s, run', h', EndBatch);
    run', h' := run' + [EndBatch], Next(cfg, h', EndBatch);
  }

  lemma OneEvent(cfg: Config, s: Hub, run: seq<Action>, h: Hub, c: Conn) returns (run': seq<Action>, h': Hub)
    requires Leads(cfg, s, run, h) && h.main == Polling && c !in h.known
    ensures Leads(cfg, s, run', h')
    ensures h' == h.(main := Handling([c]), known := h.known + {c}, open := h'.open, armed := h'.armed) && c in h'.open
  {
    hide Leads;
    LeadsOn(cfg, s, run, h, Accept(c));
    run', h' := run + [Accept(c)], Next(cfg, h, Accept(c));
    LeadsOn(cfg, s, run', h', Poll([c]));
    run', h' := run' + [Poll([c])], Next(cfg, h', Poll([c]));
  }

  /** An idle worker takes the one request that is queued as far as the pool. */
  lemma OneWorker(cfg: Config, s: Hub, run: seq<Action>, h: Hub, i: nat) returns (run': seq<Action>, h': Hub)
    requires Leads(cfg, s, run, h) && |h.queue| == 1 && h.stat > 0 && i < |h.workers| && h.workers[i] == AtWait
    ensures Leads(cfg, s, run', h')
    ensures h' == At(h, i, Took(h.queue[0])).(queue := [], stat := h.stat - 1, taken := h'.taken)
  {
    hide Leads;
    LeadsOn(cfg, s, run, h, WaitQueue(i));
    run', h' := run + [WaitQueue(i)], Next(cfg, h, WaitQueue(i));
    LeadsOn(cfg, s, run', h', TakeTask(i));
    run', h' := run' + [TakeTask(i)], Next(cfg, h', TakeTask(i));
    assert h'.workers == h.workers[i := Took(h.queue[0])];
  }

  /** And, when there is a free connection, into process(). */
  lemma IntoProcess(cfg: Config, s: Hub, run: seq<Action>, h: Hub, i: nat) returns (run': seq<Action>, h': Hub)
    requires Leads(cfg, s, run, h) && i < |h.workers| && h.workers[i].Took? && h.free != [] && h.reserve > 0
    ensures Leads(cfg, s, run', h')
    ensures h' == At(h, i, Working(h.workers[i].conn, h.free[0]))
      .(free := h.free[1..], reserve := h.reserve - 1, freeConn := h'.freeConn, curConn := h'.curConn, lent := h'.lent)
  {
    hide Leads;
    LeadsOn(cfg, s, run, h, TestPool(i));
    run', h' := run + [TestPool(i)], Next(cfg, h, TestPool(i));
    LeadsOn(cfg, s, run', h', WaitReserve(i));
    run', h' := run' + [WaitReserve(i)], Next(cfg, h', WaitReserve(i));
    LeadsOn(cfg, s, run', h', GetDb(i));
    run', h' := run' + [GetDb(i)], Next(cfg, h', GetDb(i));
    assert h'.workers == h.workers[i := Working(h.workers[i].conn, h.free[0])];
  }

  /** All connections in use. */
  lemma {:induction false} AllBusy(cfg: Config, n: nat, k: nat) returns (run: seq<Action>, h: Hub)
    requires k <= |cfg.dbs| && k <= n
    ensures Leads(cfg, Start(cfg, n), run, h) && Busy(cfg, n, h, k)
    decreases k
  {
    hide Leads;
    if k == 0 {
      run, h := [], Start(cfg, n);
      Nothing(cfg, h);
    } else {
      run, h := AllBusy(cfg, n, k - 1);
      run, h := OneRequest(cfg, Start(cfg, n), run, h, k - 1);
      run, h := OneWorker(cfg, Start(cfg, n), run, h, k - 1);
      run, h := IntoProcess(cfg, Start(cfg, n), run, h, k - 1);
    }
  }

  lemma Nothing(cfg: Config, h: Hub)
    ensures Leads(cfg, h, [], h)
  {}

  /** With one worker more than connections, a run exists in which GetConnection returns null. */
  lemma NullReached(cfg: Config, n: nat) returns (run: seq<Action>)
    requires n > |cfg.dbs|
    ensures Happens(cfg, Start(cfg, n), run) && !NoNull(Reached(cfg, n, run))
  {
    var h;
    var k := |cfg.dbs|;
    run, h := AllBusy(cfg, n, k);
    run, h := OneRequest(cfg, Start(cfg, n), run, h, k);
    run, h := OneWorker(cfg, Start(cfg, n), run, h, k);
    LeadsOn(cfg, Start(cfg, n), run, h, TestPool(k));
    run, h := run + [TestPool(k)], Next(cfg, h, TestPool(k));
    assert h.workers[k].NoConnection?;
  }

  /** GetConnection never returns null exactly when there are no more workers than connections. */
  lemma NeverNullIff(cfg: Config, n: nat)
    ensures (forall run :: Happens(cfg, Start(cfg, n), run) ==> NoNull(Reached(cfg, n, run))) <==> n <= |cfg.dbs|
  {
    hide Happens, Run, NoNull;
    if n <= |cfg.dbs| {
      forall run | Happens(cfg, Start(cfg, n), run) ensures NoNull(Reached(cfg, n, run)) {
        CompositionTheorem(cfg, n, run);
      }
    } else {
      var run := NullReached(cfg, n);
    }
  }

  // ---------------------------------------------------------------- when the queue refuses a task

  lemma {:induction false} DistinctFit(s: seq<Conn>, within: set<Conn>)
    requires NoRepeats(s) && forall c :: c in s ==> c in within
    ensures |s| <= |within|
  {
    if s != [] {
      var rest := s[1..];
      forall c | c in rest ensures c in within - {s[0]} {
        var i :| 0 <= i < |rest| && rest[i] == c;
        assert s[i + 1] == c;
      }
      DistinctFit(rest, within - {s[0]});
    }
  }

  lemma {:induction false} CountTwice(s: seq<Conn>, i: nat, j: nat)
    requires i < j < |s| && s[i] == s[j]
    ensures Count(s, s[i]) >= 2
  {
    hide Count;
    CountFront(s, s[i]);
    if i > 0 { CountTwice(s[1..], i - 1, j - 1); } else { CountIn(s[1..], j - 1); }
  }

  lemma CountIn(s: seq<Conn>, i: nat)
    requires i < |s|
    ensures Count(s, s[i]) >= 1
  {}

  /** A task and the tasks queued in front of it belong to as many clients. */
  lemma QueueOfClients(h: Hub)
    requires OneShotInv(h) && h.main.Reading?
    ensures |h.queue| < |h.known|
  {
    hide Sum, Count;
    var s := h.queue + [h.main.conn];
    forall i | 0 <= i < |s| ensures s[i] in h.known && Count(s, s[i]) <= 1 {
      assert Placed(h, s[i]);
      CountAppend(h.queue, h.main.conn, s[i]);
      CountIn(s, i);
    }
    forall i, j | 0 <= i < j < |s| ensures s[i] != s[j] {
      if s[i] == s[j] { CountTwice(s, i, j); }
    }
    DistinctFit(s, h.known);
  }

  /** A refusal takes two clients more than max_requests. */
  predicate Crowded(cfg: Config, h: Hub) { h.refused == {} || |h.known| >= cfg.maxRequests + 2 }

  lemma NextCrowded(cfg: Config, h: Hub, a: Action)
    requires OneShotInv(h) && Crowded(cfg, h) && Enabled(h, a)
    ensures Crowded(cfg, Next(cfg, h, a))
  {
    hide OneShotInv;
    if a.Append? { QueueOfClients(h); }
  }

  lemma {:induction false} RunCrowded(cfg: Config, h: Hub, run: seq<Action>)
    requires Inv(cfg, h) && Crowded(cfg, h) && Happens(cfg, h, run)
    ensures Crowded(cfg, Run(cfg, h, run))
    decreases |run|
  {
    hide QueueInv, PoolInv, OneShotInv, Crowded, Enabled, Next;
    if run != [] {
      NextKeeps(cfg, h, run[0]);
      NextCrowded(cfg, h, run[0]);
      RunCrowded(cfg, Next(cfg, h, run[0]), run[1..]);
    }
  }

  function Clients(k: nat): (cs: set<Conn>)
    ensures |cs| == k && forall c: Conn :: c in cs <==> c < k
  {
    if k == 0 then {} else Clients(k - 1) + {k - 1}
  }

  /** `k` clients have sent their requests and no worker has moved yet. */
  lemma {:induction false} Queued(cfg: Config, n: nat, k: nat) returns (run: seq<Action>, h: Hub)
    requires k <= cfg.maxRequests + 1
    ensures Leads(cfg, Start(cfg, n), run, h) && h.main == Polling && |h.queue| == k && h.refused == {}
    ensures h.known == Clients(k)
    decreases k
  {
    hide Leads;
    if k == 0 {
      run, h := [], Start(cfg, n);
      Nothing(cfg, h);
    } else {
      run, h := Queued(cfg, n, k - 1);
      run, h := OneRequest(cfg, Start(cfg, n), run, h, k - 1);
    }
  }

  /** Connection `c` is accepted, is ready, its request is read and the full queue refuses it. */
  lemma OneRefusal(cfg: Config, s: Hub, run: seq<Action>, h: Hub, c: Conn) returns (run': seq<Action>, h': Hub)
    requires Leads(cfg, s, run, h) && h.main == Polling && |h.queue| > cfg.maxRequests && c !in h.known
    ensures Leads(cfg, s, run', h') && c in h'.open && h'.refused == h.refused + {c} && h'.known == h.known + {c}
  {
    hide Leads;
    run', h' := OneEvent(cfg, s, run, h, c);
    LeadsOn(cfg, s, run', h', BeginRead);
    run', h' := run' + [BeginRead], Next(cfg, h', BeginRead);
    LeadsOn(cfg, s, run', h', Append);
    run', h' := run' + [Append], Next(cfg, h', Append);
  }

  /** One client more than the queue holds tasks is refused: it stays open, in no place. */
  lemma RefusalReached(cfg: Config, n: nat) returns (run: seq<Action>)
    ensures Happens(cfg, Start(cfg, n), run)
    ensures var h := Reached(cfg, n, run); var c := cfg.maxRequests + 1;
      h.refused == {c} && c in h.open && Places(h, c) == 0 && |h.known| == cfg.maxRequests + 2
  {
    hide Places, Happens, Run;
    var h;
    var c := cfg.maxRequests + 1;
    run, h := Queued(cfg, n, c);
    run, h := OneRefusal(cfg, Start(cfg, n), run, h, c);
    LostIff(cfg, n, run, c);
    assert h.known == Clients(c + 1);
  }

  /** No run with at most `k` clients has a task refused exactly when `k` is at most one more than max_requests. */
  lemma NeverRefusedIff(cfg: Config, n: nat, k: nat)
    ensures (forall run :: Happens(cfg, Start(cfg, n), run) && |Reached(cfg, n, run).known| <= k ==> Reached(cfg, n, run).refused == {})
      <==> k <= cfg.maxRequests + 1
  {
    hide Happens, Run, Places, Inv;
    if k <= cfg.maxRequests + 1 {
      StartInv(cfg, n);
      forall run | Happens(cfg, Start(cfg, n), run) && |Reached(cfg, n, run).known| <= k ensures Reached(cfg, n, run).refused == {} {
        RunCrowded(cfg, Start(cfg, n), run);
      }
    } else {
      var run := RefusalReached(cfg, n);
    }
  }

  // ---------------------------------------------------------------- progress

  /** A worker waits for the semaphore of the pool only when there are connections at all. */
  predicate PoolExists(cfg: Config, h: Hub) {
    cfg.dbs != [] || forall i :: 0 <= i < |h.workers| ==> !h.workers[i].Passed?
  }

  lemma NextPoolExists(cfg: Config, h: Hub, a: Action)
    requires PoolInv(cfg, h) && PoolExists(cfg, h) && Enabled(h, a)
    ensures PoolExists(cfg, Next(cfg, h, a))
  {
    hide Sum;
  }

  lemma {:induction false} RunPoolExists(cfg: Config, h: Hub, run: seq<Action>)
    requires Inv(cfg, h) && PoolExists(cfg, h) && Happens(cfg, h, run)
    ensures PoolExists(cfg, Run(cfg, h, run))
    decreases |run|
  {
    hide QueueInv, PoolInv, OneShotInv, PoolExists, Enabled, Next;
    if run != [] {
      NextKeeps(cfg, h, run[0]);
      NextPoolExists(cfg, h, run[0]);
      RunPoolExists(cfg, Next(cfg, h, run[0]), run[1..]);
    }
  }

  /** Some worker has been woken. */
  lemma {:induction false} SomeOne(ws: seq<Worker>, f: Worker -> nat) returns (i: nat)
    requires Sum(ws, f) > 0
    ensures i < |ws| && f(ws[i]) > 0
  {
    if f(ws[0]) > 0 {
      i := 0;
    } else {
      i := SomeOne(ws[1..], f);
      i := i + 1;
    }
  }

  lemma {:induction false} SumNone(ws: seq<Worker>, f: Worker -> nat)
    requires forall i :: 0 <= i < |ws| ==> f(ws[i]) == 0
    ensures Sum(ws, f) == 0
  {
    if ws != [] {
      assert forall i :: 0 <= i < |ws[1..]| ==> ws[1..][i] == ws[i + 1];
      SumNone(ws[1..], f);
    }
  }

  /** The step a worker would take next. */
  function StepOf(w: Worker, i: nat): Action {
    match w
    case AtWait => WaitQueue(i)
    case Woken => TakeTask(i)
    case Took(_) => TestPool(i)
    case Passed(_) => WaitReserve(i)
    case Permitted(_) => GetDb(i)
    case Working(_, _) => Process(i, false)
    case Done(_) => Release(i)
    case Unposted => PostReserve(i)
    case NoConnection(_) => ProcessNull(i, false)
  }

  /** Only workers at one of the two semaphores can be held up. */
  lemma HeldUp(cfg: Config, h: Hub, i: nat)
    requires Inv(cfg, h) && i < |h.workers| && !Enabled(h, StepOf(h.workers[i], i))
    ensures (h.workers[i].AtWait? && h.stat == 0) || (h.workers[i].Passed? && h.reserve == 0)
  {
    hide Sum, QueueInv, OneShotInv;
    SumAtLeast(h.workers, HasPermit, i);
  }

  /** When all connections are in the list, or somebody has one, not all workers can be waiting for the pool. */
  lemma NotAllAtPool(cfg: Config, h: Hub)
    requires Inv(cfg, h) && PoolExists(cfg, h) && h.reserve == 0
    requires forall i :: 0 <= i < |h.workers| ==> h.workers[i].AtWait? || h.workers[i].Passed?
    ensures forall i :: 0 <= i < |h.workers| ==> h.workers[i].AtWait?
  {
    hide Sum, QueueInv, OneShotInv;
    SumNone(h.workers, HasPermit);
    SumNone(h.workers, OwesPost);
    SumNone(h.workers, HasDb);
  }

  predicate Stuck(h: Hub) { forall i :: 0 <= i < |h.workers| ==> !Enabled(h, StepOf(h.workers[i], i)) }

  lemma StuckIsIdle(cfg: Config, h: Hub)
    requires Inv(cfg, h) && PoolExists(cfg, h) && Stuck(h)
    ensures forall i :: 0 <= i < |h.workers| ==> h.workers[i].AtWait?
    ensures h.workers != [] ==> h.stat == 0
    ensures h.workers != [] && !h.main.Posting? ==> h.queue == []
  {
    hide Inv, Sum, Enabled, PoolExists;
    forall i | 0 <= i < |h.workers|
      ensures (h.workers[i].AtWait? && h.stat == 0) || (h.workers[i].Passed? && h.reserve == 0)
    {
      HeldUp(cfg, h, i);
    }
    if h.reserve == 0 { NotAllAtPool(cfg, h); }
    assert h.workers != [] ==> h.workers[0].AtWait?;
    SumNone(h.workers, IsWoken);
    QueueSize(cfg, h);
  }

  lemma QueueSize(cfg: Config, h: Hub)
    requires Inv(cfg, h)
    ensures |h.queue| == h.stat + (if h.main.Posting? then 1 else 0) + Sum(h.workers, IsWoken)
  {
    hide Sum, PoolInv, OneShotInv;
  }

  /** No deadlock, also with more workers than connections: no worker can make a step exactly when all are waiting for
      a task and none has been posted, and then none is queued, but for one the main thread is about to post. */
  lemma NoDeadlock(cfg: Config, n: nat, run: seq<Action>)
    requires n > 0 && Happens(cfg, Start(cfg, n), run)
    ensures var h := Reached(cfg, n, run);
      && (Stuck(h) <==> h.stat == 0 && forall i :: 0 <= i < |h.workers| ==> h.workers[i].AtWait?)
      && (Stuck(h) && !h.main.Posting? ==> h.queue == [])
  {
    hide Happens, Run, Inv, PoolExists;
    StartInv(cfg, n);
    ReachedInv(cfg, n, run);
    NoneAtStart(cfg, n);
    RunPoolExists(cfg, Start(cfg, n), run);
    var h := Reached(cfg, n, run);
    if Stuck(h) { StuckIsIdle(cfg, h); }
  }

  lemma NoneAtStart(cfg: Config, n: nat)
    ensures PoolExists(cfg, Start(cfg, n))
  {}

  // ---------------------------------------------------------------- the work ahead

  /** The most steps a worker can make before it waits for a task again. */
  function Left(w: Worker): nat {
    match w
    case AtWait => 0
    case Woken => 8
    case Took(_) => 7
    case Passed(_) => 6
    case Permitted(_) => 5
    case Working(_, _) => 4
    case Done(_) => 3
    case Unposted => 2
    case NoConnection(_) => 1
  }

  /** What is left to all workers, and nine steps for each task posted. */
  function Work(h: Hub): nat { Sum(h.workers, Left) + 9 * h.stat }

  lemma WorkFalls(cfg: Config, h: Hub, a: Action)
    requires Enabled(h, a) && !ByMain(a)
    ensures Work(Next(cfg, h, a)) < Work(h)
  {
    hide Sum;
    var (i, w) := After(h, a);
    NextWorkers(cfg, h, a);
    SumUpdate(h.workers, Left, i, w);
  }

  /** Steps of workers alone, as many as there are. */
  predicate ByWorkers(run: seq<Action>) { forall i :: 0 <= i < |run| ==> !ByMain(run[i]) }

  lemma {:induction false} WorkersStop(cfg: Config, h: Hub, run: seq<Action>)
    requires Happens(cfg, h, run) && ByWorkers(run)
    ensures |run| + Work(Run(cfg, h, run)) <= Work(h) && Run(cfg, h, run).main == h.main
    decreases |run|
  {
    hide Next, Enabled, Work, ByMain;
    if run != [] {
      assert !ByMain(run[0]);
      WorkFalls(cfg, h, run[0]);
      NextWorkers(cfg, h, run[0]);
      assert forall i :: 0 <= i < |run[1..]| ==> run[1..][i] == run[i + 1];
      WorkersStop(cfg, Next(cfg, h, run[0]), run[1..]);
    }
  }

  lemma {:induction false} Joined(cfg: Config, h: Hub, run: seq<Action>, more: seq<Action>)
    requires Happens(cfg, h, run) && Happens(cfg, Run(cfg, h, run), more)
    ensures Happens(cfg, h, run + more) && Run(cfg, h, run + more) == Run(cfg, Run(cfg, h, run), more)
    decreases |run|
  {
    hide Next, Enabled;
    if run == [] {
      assert run + more == more;
    } else {
      assert (run + more)[1..] == run[1..] + more;
      Joined(cfg, Next(cfg, h, run[0]), run[1..], more);
    }
  }

  /** From every reachable state, while the main thread does something else, the workers make no more steps than the
      work ahead; and when none can make another, every task posted has been taken and done. */
  lemma WorkersFinish(cfg: Config, n: nat, run: seq<Action>, more: seq<Action>)
    requires n > 0 && Happens(cfg, Start(cfg, n), run)
    requires Happens(cfg, Reached(cfg, n, run), more) && ByWorkers(more)
    ensures var h := Reached(cfg, n, run); var h' := Run(cfg, h, more);
      && |more| <= Work(h)
      && (Stuck(h') ==> (forall i :: 0 <= i < |h'.workers| ==> h'.workers[i].AtWait?) && h'.stat == 0)
      && (Stuck(h') && !h.main.Posting? ==> h'.queue == [])
  {
    hide Happens, Run, Work, ByWorkers, Stuck;
    WorkersStop(cfg, Reached(cfg, n, run), more);
    Joined(cfg, Start(cfg, n), run, more);
    NoDeadlock(cfg, n, run + more);
  }

  // ---------------------------------------------------------------- closing

  /** The step closes the connection. */
  predicate Closes(h: Hub, a: Action, c: Conn)
    requires Enabled(h, a)
  {
    match a
    case Expire(cs) => c in cs
    case HangUp => c == h.main.rest[0]
    case ReadFails => c == h.main.conn
    case WriteFails => c == h.main.conn
    case WriteReturns(keep) => !keep && c == h.main.conn
    case Process(i, close) => close && c == h.workers[i].conn
    case ProcessNull(i, close) => close && c == h.workers[i].conn
    case _ => false
  }

  /** A connection is open after a step exactly if it was and the step does not close it, or it is the one accepted. */
  lemma OpenIff(cfg: Config, h: Hub, a: Action, c: Conn)
    requires Enabled(h, a)
    ensures c in Next(cfg, h, a).open <==> a == Accept(c) || (c in h.open && !Closes(h, a, c))
    ensures Closes(h, a, c) ==> c !in Next(cfg, h, a).armed
  {
    hide NoRepeats, ToSet;
  }

  predicate Gone(h: Hub, c: Conn) { c in h.known && c !in h.open && c !in h.armed }

  lemma StaysGone(cfg: Config, h: Hub, a: Action, c: Conn)
    requires Enabled(h, a) && Gone(h, c)
    ensures Gone(Next(cfg, h, a), c)
  {
    hide NoRepeats, ToSet;
  }

  lemma {:induction false} GoneForGood(cfg: Config, h: Hub, run: seq<Action>, c: Conn)
    requires Gone(h, c) && Happens(cfg, h, run)
    ensures Gone(Run(cfg, h, run), c)
    decreases |run|
  {
    hide Next, Enabled, Gone;
    if run != [] {
      StaysGone(cfg, h, run[0], c);
      GoneForGood(cfg, Next(cfg, h, run[0]), run[1..], c);
    }
  }

  /** Whoever is handled or processed was accepted once. */
  lemma ClosedWasKnown(h: Hub, a: Action, c: Conn)
    requires OneShotInv(h) && Enabled(h, a) && Closes(h, a, c) && (a.Expire? ==> c in h.known)
    ensures c in h.known
  {
    hide Sum, Count;
    assert Placed(h, c);
    if a.HangUp? { CountFront(h.main.rest, c); }
    if a.Process? || a.ProcessNull? { SumAtLeast(h.workers, WithConn(c), a.i); }
  }

  lemma KnownStays(cfg: Config, h: Hub, a: Action, c: Conn)
    requires Enabled(h, a) && c in h.known
    ensures c in Next(cfg, h, a).known
  {
    hide NoRepeats, ToSet;
  }

  /** In every run, a connection a step closes - when the peer hangs up, a read or write fails, a response ends a
      connection that is not kept, a worker closes it, or its timer expires - is neither open nor armed ever after. */
  lemma ClosedForGood(cfg: Config, n: nat, run: seq<Action>, a: Action, more: seq<Action>, c: Conn)
    requires Happens(cfg, Start(cfg, n), run) && Enabled(Reached(cfg, n, run), a)
    requires Closes(Reached(cfg, n, run), a, c) && (a.Expire? ==> c in Reached(cfg, n, run).known)
    requires Happens(cfg, Next(cfg, Reached(cfg, n, run), a), more)
    ensures var h := Run(cfg, Next(cfg, Reached(cfg, n, run), a), more); c !in h.open && c !in h.armed
  {
    hide Happens, Run, Enabled, Closes, Next, QueueInv, PoolInv, OneShotInv;
    ReachedInv(cfg, n, run);
    var h := Reached(cfg, n, run);
    ClosedWasKnown(h, a, c);
    OpenIff(cfg, h, a, c);
    NotAccepted(h, a, c);
    KnownStays(cfg, h, a, c);
    GoneForGood(cfg, Next(cfg, h, a), more, c);
  }

  lemma NotAccepted(h: Hub, a: Action, c: Conn)
    requires Enabled(h, a) && Closes(h, a, c)
    ensures a != Accept(c)
  {}

  // ---------------------------------------------------------------- who took which task

  /** What a worker works on is a task it has taken itself. */
  predicate OwnTask(h: Hub, i: nat) {
    i < |h.workers| && HasConn(h.workers[i]) ==> (h.workers[i].conn, i) in h.taken
  }

  lemma NextOwnTask(cfg: Config, h: Hub, a: Action, i: nat)
    requires Enabled(h, a) && OwnTask(h, i)
    ensures OwnTask(Next(cfg, h, a), i)
  {
    hide NoRepeats, ToSet;
    if !ByMain(a) { NextWorkers(cfg, h, a); }
  }

  lemma {:induction false} RunOwnTask(cfg: Config, h: Hub, run: seq<Action>, i: nat)
    requires Happens(cfg, h, run) && OwnTask(h, i)
    ensures OwnTask(Run(cfg, h, run), i)
    decreases |run|
  {
    hide Next, Enabled, OwnTask;
    if run != [] {
      NextOwnTask(cfg, h, run[0], i);
      RunOwnTask(cfg, Next(cfg, h, run[0]), run[1..], i);
    }
  }

  /** In every reachable state, the connection a worker has is one the worker took from the queue. */
  lemma TakenByOwner(cfg: Config, n: nat, run: seq<Action>, i: nat)
    requires Happens(cfg, Start(cfg, n), run) && i < |Reached(cfg, n, run).workers|
    requires HasConn(Reached(cfg, n, run).workers[i])
    ensures var h := Reached(cfg, n, run); (h.workers[i].conn, i) in h.taken
  {
    hide Happens, Run;
    RunOwnTask(cfg, Start(cfg, n), run, i);
  }
}

/** The asynchronous log: producers format lines and hand them to the queue or, when it is full, write them
    themselves; one consumer empties the queue into the file. Lock sections are steps, and so is the full() test
    that precedes a push. */
module LogPipeline {
  import opened Counting
  import opened CStrings

  /** The text of a log line, by a number of its own. */
  type Line = nat

  /** Where a thread stands in write_log. */
  datatype Producer =
    | Outside
    | Formatted(line: Line)   // log_str is made, before the test
    | ToQueue(line: Line)     // full() said no; before push
    | ToFile(line: Line)      // before fputs

  datatype Pipe = Pipe(
    isAsync: bool, capacity: nat,
    producers: seq<Producer>,
    queue: seq<Line>, hand: Option<Line>,                 // the queue, and the line the consumer has popped
    file: seq<(Line, bool)>,                              // the file; whether a line came through the queue
    produced: seq<Line>, pushed: seq<Line>, rejected: seq<Line>)  // all lines; push said yes; push said no

  function Start(isAsync: bool, capacity: nat, n: nat): Pipe {
    Pipe(isAsync, capacity, seq(n, _ => Outside), [], None, [], [], [], [])
  }

  datatype Action =
    | Produce(i: nat, line: Line)
    | Choose(i: nat)
    | Push(i: nat)
    | WriteDirect(i: nat)
    | Pop
    | WritePopped

  predicate Enabled(p: Pipe, a: Action) {
    match a
    case Produce(i, _) => i < |p.producers| && p.producers[i].Outside?
    case Choose(i) => i < |p.producers| && p.producers[i].Formatted?
    case Push(i) => i < |p.producers| && p.producers[i].ToQueue?
    case WriteDirect(i) => i < |p.producers| && p.producers[i].ToFile?
    case Pop => p.isAsync && p.hand.None? && p.queue != []
    case WritePopped => p.hand.Some?
  }

  function At(p: Pipe, i: nat, q: Producer): Pipe
    requires i < |p.producers|
  {
    p.(producers := p.producers[i := q])
  }

  function Next(p: Pipe, a: Action): Pipe
    requires Enabled(p, a)
  {
    match a
    case Produce(i, line) => At(p, i, Formatted(line)).(produced := p.produced + [line])
    case Choose(i) =>
      var line := p.producers[i].line;
      At(p, i, if p.isAsync && |p.queue| < p.capacity then ToQueue(line) else ToFile(line))
    case Push(i) =>
      var line := p.producers[i].line;
      if |p.queue| >= p.capacity then At(p, i, Outside).(rejected := p.rejected + [line])
      else At(p, i, Outside).(queue := p.queue + [line], pushed := p.pushed + [line])
    case WriteDirect(i) => At(p, i, Outside).(file := p.file + [(p.producers[i].line, false)])
    case Pop => p.(hand := Some(p.queue[0]), queue := p.queue[1..])
    case WritePopped => p.(hand := None, file := p.file + [(p.hand.value, true)])
  }

  // ---------------------------------------------------------------- conservation

  function Holding(l: Line): Producer -> nat { (q: Producer) => if !q.Outside? && q.line == l then 1 else 0 }

  function AllLines(file: seq<(Line, bool)>): seq<Line> { seq(|file|, k requires 0 <= k < |file| => file[k].0) }

  /** The lines of the file that came through the queue. */
  function Queued(file: seq<(Line, bool)>): seq<Line> {
    if file == [] then []
    else Queued(file[..|file| - 1]) + (if file[|file| - 1].1 then [file[|file| - 1].0] else [])
  }

  function InHand(p: Pipe): seq<Line> { if p.hand.Some? then [p.hand.value] else [] }

  /** How often a line is in the file, in the queue, in the consumer's hand, rejected, or with its producer. */
  function Copies(p: Pipe, l: Line): nat {
    Count(AllLines(p.file), l) + Count(p.queue, l) + (if p.hand == Some(l) then 1 else 0) + Count(p.rejected, l)
    + Sum(p.producers, Holding(l))
  }

  /** No line is lost or doubled; and the lines that take the queue reach the file in the order of their pushes. */
  ghost predicate Inv(p: Pipe) {
    && (forall l :: Copies(p, l) == Count(p.produced, l))
    && Queued(p.file) + InHand(p) + p.queue == p.pushed
    && |p.queue| <= p.capacity
  }

  lemma Written(file: seq<(Line, bool)>, x: (Line, bool))
    ensures AllLines(file + [x]) == AllLines(file) + [x.0]
    ensures Queued(file + [x]) == Queued(file) + if x.1 then [x.0] else []
  {}

  lemma FormatCopies(p: Pipe, a: Action, l: Line)
    requires Enabled(p, a) && (a.Produce? || a.Choose?)
    ensures Copies(Next(p, a), l) == Copies(p, l) + if a.Produce? && a.line == l then 1 else 0
  {
    hide Sum, Queued, AllLines, Count;
    SumUpdate(p.producers, Holding(l), a.i, Next(p, a).producers[a.i]);
  }

  lemma PushCopies(p: Pipe, i: nat, l: Line)
    requires Enabled(p, Push(i))
    ensures Copies(Next(p, Push(i)), l) == Copies(p, l)
  {
    hide Sum, Queued, AllLines, Count;
    SumUpdate(p.producers, Holding(l), i, Outside);
    CountAppend(p.queue, p.producers[i].line, l);
    CountAppend(p.rejected, p.producers[i].line, l);
  }

  lemma DirectCopies(p: Pipe, i: nat, l: Line)
    requires Enabled(p, WriteDirect(i))
    ensures Copies(Next(p, WriteDirect(i)), l) == Copies(p, l)
  {
    hide Sum, Queued, AllLines, Count;
    SumUpdate(p.producers, Holding(l), i, Outside);
    Written(p.file, (p.producers[i].line, false));
    CountAppend(AllLines(p.file), p.producers[i].line, l);
  }

  lemma ConsumerCopies(p: Pipe, a: Action, l: Line)
    requires Enabled(p, a) && (a.WritePopped? || a.Pop?)
    ensures Copies(Next(p, a), l) == Copies(p, l)
  {
    hide Sum, Queued, AllLines, Count;
    if a.Pop? {
      CountFront(p.queue, l);
    } else {
      Written(p.file, (p.hand.value, true));
      CountAppend(AllLines(p.file), p.hand.value, l);
    }
  }

  lemma NextCopies(p: Pipe, a: Action, l: Line)
    requires Enabled(p, a)
    ensures Copies(Next(p, a), l) == Copies(p, l) + if a.Produce? && a.line == l then 1 else 0
  {
    hide Next, Copies, Enabled;
    if a.Produce? || a.Choose? {
      FormatCopies(p, a, l);
    } else if a.Push? {
      PushCopies(p, a.i, l);
    } else if a.WriteDirect? {
      DirectCopies(p, a.i, l);
    } else {
      ConsumerCopies(p, a, l);
    }
  }

  lemma NextOrder(p: Pipe, a: Action)
    requires Enabled(p, a) && Queued(p.file) + InHand(p) + p.queue == p.pushed && |p.queue| <= p.capacity
    ensures var p' := Next(p, a); Queued(p'.file) + InHand(p') + p'.queue == p'.pushed && |p'.queue| <= p'.capacity
  {
    hide Sum, Queued, AllLines;
    match a
    case Produce(i, line) =>
    case Choose(i) =>
    case Push(i) =>
      var line := p.producers[i].line;
      assert Queued(p.file) + InHand(p) + (p.queue + [line]) == p.pushed + [line];
    case WriteDirect(i) => Written(p.file, (p.producers[i].line, false));
    case Pop => assert p.queue == [p.queue[0]] + p.queue[1..];
    case WritePopped => Written(p.file, (p.hand.value, true));
  }

  lemma NextKeeps(p: Pipe, a: Action)
    requires Inv(p) && Enabled(p, a)
    ensures Inv(Next(p, a))
  {
    hide Sum, Queued, AllLines, Copies, Count;
    NextOrder(p, a);
    forall l ensures Copies(Next(p, a), l) == Count(Next(p, a).produced, l) {
      NextCopies(p, a, l);
      if a.Produce? { CountAppend(p.produced, a.line, l); }
    }
  }

  // ---------------------------------------------------------------- runs

  predicate Happens(p: Pipe, run: seq<Action>)
    decreases |run|
  {
    run == [] || (Enabled(p, run[0]) && Happens(Next(p, run[0]), run[1..]))
  }

  function Run(p: Pipe, run: seq<Action>): Pipe
    requires Happens(p, run)
    decreases |run|
  {
    if run == [] then p else Run(Next(p, run[0]), run[1..])
  }

  lemma {:induction false} RunKeeps(p: Pipe, run: seq<Action>)
    requires Inv(p) && Happens(p, run)
    ensures Inv(Run(p, run)) && Run(p, run).capacity == p.capacity && |Run(p, run).producers| == |p.producers|
    decreases |run|
  {
    hide Inv;
    if run != [] {
      NextKeeps(p, run[0]);
      RunKeeps(Next(p, run[0]), run[1..]);
    }
  }

  lemma {:induction false} NobodyHolds(n: nat, l: Line)
    ensures Sum(seq(n, _ => Outside), Holding(l)) == 0
  {
    if n > 0 {
      assert seq(n, _ => Outside)[1..] == seq(n - 1, _ => Outside);
      NobodyHolds(n - 1, l);
    }
  }

  lemma StartInv(isAsync: bool, capacity: nat, n: nat)
    ensures Inv(Start(isAsync, capacity, n))
  {
    hide Sum;
    forall l ensures Sum(Start(isAsync, capacity, n).producers, Holding(l)) == 0 { NobodyHolds(n, l); }
  }

  /** In every run no line is lost or doubled, and queued lines keep their order. */
  lemma Conservation(isAsync: bool, capacity: nat, n: nat, run: seq<Action>)
    requires Happens(Start(isAsync, capacity, n), run)
    ensures var p := Run(Start(isAsync, capacity, n), run);
      && (forall l :: Copies(p, l) == Count(p.produced, l))
      && Queued(p.file) <= p.pushed && Queued(p.file) + InHand(p) + p.queue == p.pushed
  {
    hide Happens, Run, Copies, Queued;
    StartInv(isAsync, capacity, n);
    RunKeeps(Start(isAsync, capacity, n), run);
  }

  // ---------------------------------------------------------------- rejected lines

  /** Nothing is in the queue, and everybody goes to the file. */
  predicate Direct(p: Pipe) {
    && !p.isAsync && p.queue == [] && p.hand == None && p.rejected == []
    && forall i :: 0 <= i < |p.producers| ==> !p.producers[i].ToQueue?
  }

  lemma {:induction false} RunDirect(p: Pipe, run: seq<Action>)
    requires Direct(p) && Happens(p, run)
    ensures Direct(Run(p, run))
    decreases |run|
  {
    if run != [] { RunDirect(Next(p, run[0]), run[1..]); }
  }

  /** A log that is not asynchronous never uses the queue: every line is in the file or still with its producer. */
  lemma SynchronousDirect(capacity: nat, n: nat, run: seq<Action>, l: Line)
    requires Happens(Start(false, capacity, n), run)
    ensures var p := Run(Start(false, capacity, n), run);
      p.queue == [] && p.rejected == [] && Count(AllLines(p.file), l) + Sum(p.producers, Holding(l)) == Count(p.produced, l)
  {
    hide Happens, Run, AllLines, Sum, Queued;
    RunDirect(Start(false, capacity, n), run);
    Conservation(false, capacity, n, run);
    var p := Run(Start(false, capacity, n), run);
    assert Copies(p, l) == Count(p.produced, l);
  }

  /** With one producer, the queue cannot fill up between its test and its push. */
  predicate Roomy(p: Pipe) {
    |p.producers| == 1 && p.rejected == [] && (p.producers[0].ToQueue? ==> |p.queue| < p.capacity)
  }

  lemma {:induction false} OneProducer(p: Pipe, run: seq<Action>)
    requires Roomy(p) && Happens(p, run)
    ensures Roomy(Run(p, run))
    decreases |run|
  {
    if run != [] { OneProducer(Next(p, run[0]), run[1..]); }
  }

  lemma {:induction false} Extend(p: Pipe, run: seq<Action>, a: Action)
    requires Happens(p, run) && Enabled(Run(p, run), a)
    ensures Happens(p, run + [a]) && Run(p, run + [a]) == Next(Run(p, run), a)
    decreases |run|
  {
    hide Next, Enabled;
    if run == [] {
      assert [] + [a] == [a] && [a][1..] == [];
    } else {
      assert (run + [a])[1..] == run[1..] + [a];
      Extend(Next(p, run[0]), run[1..], a);
    }
  }

  predicate Leads(s: Pipe, run: seq<Action>, p: Pipe) { Happens(s, run) && Run(s, run) == p }

  lemma LeadsOn(s: Pipe, run: seq<Action>, p: Pipe, a: Action) returns (run': seq<Action>, p': Pipe)
    requires Leads(s, run, p) && Enabled(p, a)
    ensures p' == Next(p, a) && Leads(s, run', p')
  {
    hide Next, Enabled, Happens;
    Extend(s, run, a);
    run', p' := run + [a], Next(p, a);
  }

  /** Producer `i` formats a line and finds room for it. */
  lemma FindsRoom(s: Pipe, run: seq<Action>, p: Pipe, i: nat, line: Line) returns (run': seq<Action>, p': Pipe)
    requires Leads(s, run, p) && i < |p.producers| && p.producers[i].Outside?
    requires p.isAsync && |p.queue| < p.capacity
    ensures Leads(s, run', p') && p' == At(p, i, ToQueue(line)).(produced := p.produced + [line])
  {
    hide Leads;
    run', p' := LeadsOn(s, run, p, Produce(i, line));
    run', p' := LeadsOn(s, run', p', Choose(i));
    assert p'.producers == p.producers[i := ToQueue(line)];
  }

  /** A queue with one place left, and all producers outside. */
  lemma {:induction false} FillUp(capacity: nat, n: nat, k: nat) returns (run: seq<Action>, p: Pipe)
    requires 0 < n && k < capacity
    ensures Leads(Start(true, capacity, n), run, p)
    ensures p.isAsync && p.capacity == capacity && |p.queue| == k && p.producers == seq(n, _ => Outside)
    decreases k
  {
    var s := Start(true, capacity, n);
    if k == 0 {
      run, p := [], s;
    } else {
      run, p := FillUp(capacity, n, k - 1);
      hide Leads;
      run, p := FindsRoom(s, run, p, 0, 0);
      run, p := LeadsOn(s, run, p, Push(0));
    }
  }

  /** With two, both may see the last place free. */
  lemma TwoProducers(capacity: nat, n: nat) returns (run: seq<Action>, p: Pipe)
    requires n > 1 && capacity > 0
    ensures Leads(Start(true, capacity, n), run, p) && p.rejected != []
  {
    hide Leads;
    var s := Start(true, capacity, n);
    run, p := FillUp(capacity, n, capacity - 1);
    run, p := FindsRoom(s, run, p, 0, 1);
    run, p := FindsRoom(s, run, p, 1, 2);
    run, p := LeadsOn(s, run, p, Push(0));
    run, p := LeadsOn(s, run, p, Push(1));
  }

  /** An asynchronous log never drops a line exactly when there is one producer. */
  lemma NothingRejectedIff(capacity: nat, n: nat)
    requires n > 0 && capacity > 0
    ensures (forall run :: Happens(Start(true, capacity, n), run) ==> Run(Start(true, capacity, n), run).rejected == []) <==> n == 1
  {
    hide Happens, Run;
    var s := Start(true, capacity, n);
    if n == 1 {
      forall run | Happens(s, run) ensures Run(s, run).rejected == [] { OneProducer(s, run); }
    } else {
      var run, p := TwoProducers(capacity, n);
      assert Happens(s, run) && Run(s, run).rejected != [];
    }
  }
}

/** The rotation of the log file when one thread writes it directly: a new file for a new day of the month, and
    one after every `splitLines` lines of a day. */
module LogRotation {
  import opened CStrings

  datatype Date = Date(year: int, month: int, mday: int)

  /** A file the log has opened: the date and the number in its name, and the lines written to it since. */
  datatype Segment = Segment(date: Date, suffix: Option<nat>, lines: nat)

  /** m_count, m_today, and the files opened, of which m_fp is the last. */
  datatype State = State(count: nat, today: int, files: seq<Segment>)

  function Start(date: Date): State { State(0, date.mday, [Segment(date, None, 0)]) }

  /** The number of the file a line with count `c` belongs to; the first has none. */
  function SuffixFor(c: nat, splitLines: nat): Option<nat>
    requires splitLines > 0
  {
    if c / splitLines == 0 then None else Some(c / splitLines)
  }

  /** One more line in the last file. */
  function PutLine(files: seq<Segment>): seq<Segment>
    requires files != []
  {
    var last := |files| - 1;
    files[last := files[last].(lines := files[last].lines + 1)]
  }

  function Step(s: State, splitLines: nat, date: Date): State
    requires splitLines > 0 && s.files != []
  {
    if s.today != date.mday then State(0, date.mday, PutLine(s.files + [Segment(date, None, 0)]))
    else if (s.count + 1) % splitLines == 0 then
      State(s.count + 1, s.today, PutLine(s.files + [Segment(date, Some((s.count + 1) / splitLines), 0)]))
    else State(s.count + 1, s.today, PutLine(s.files))
  }

  /** The last file is the one for the count and the day; it holds the lines since the count was last a multiple of
      `splitLines` - all but the line 0, for the file init opened - and earlier ones no more than they may. A file
      followed by a numbered one is full. */
  ghost predicate Inv(s: State, splitLines: nat) {
    && splitLines > 0 && s.files != []
    && LastFile(s, s.files[|s.files| - 1], splitLines)
    && (forall i :: 0 <= i < |s.files| ==> s.files[i].lines <= splitLines)
    && (forall i :: 0 <= i < |s.files| - 1 && s.files[i + 1].suffix.Some? ==>
          s.files[i].lines == if i == 0 then splitLines - 1 else splitLines)
  }

  ghost predicate LastFile(s: State, file: Segment, splitLines: nat)
    requires splitLines > 0
  {
    && file.suffix == SuffixFor(s.count, splitLines) && file.date.mday == s.today
    && file.lines == s.count % splitLines + (if |s.files| == 1 then 0 else 1)
  }

  lemma Multiple(d: int, n: int)
    requires n > 0
    ensures d >= 1 ==> d * n >= n
    ensures d <= -1 ==> d * n <= -n
  {}

  lemma DivModIs(x: nat, n: nat, q: nat, r: nat)
    requires n > 0 && x == q * n + r && r < n
    ensures x / n == q && x % n == r
  {
    var d := x / n - q;
    assert x == (x / n) * n + x % n;
    assert d * n == r - x % n;
    Multiple(d, n);
  }

  /** Counting one further. */
  lemma NextCount(c: nat, n: nat)
    requires n > 0
    ensures if (c + 1) % n == 0 then c % n == n - 1 && (c + 1) / n == c / n + 1
            else (c + 1) % n == c % n + 1 && (c + 1) / n == c / n
  {
    var q, r := c / n, c % n;
    assert c == q * n + r;
    if r + 1 < n {
      DivModIs(c + 1, n, q, r + 1);
    } else {
      assert c + 1 == (q + 1) * n;
      DivModIs(c + 1, n, q + 1, 0);
    }
  }

  lemma StepKeeps(s: State, splitLines: nat, date: Date)
    requires Inv(s, splitLines)
    ensures Inv(Step(s, splitLines, date), splitLines)
  {
    NextCount(s.count, splitLines);
    DivModIs(0, splitLines, 0, 0);
  }

  function Run(s: State, splitLines: nat, dates: seq<Date>): (r: State)
    requires splitLines > 0 && s.files != []
    ensures r.files != []
    decreases |dates|
  {
    if dates == [] then s else Run(Step(s, splitLines, dates[0]), splitLines, dates[1..])
  }

  lemma {:induction false} RunKeeps(s: State, splitLines: nat, dates: seq<Date>)
    requires Inv(s, splitLines)
    ensures Inv(Run(s, splitLines, dates), splitLines)
    decreases |dates|
  {
    if dates != [] {
      StepKeeps(s, splitLines, dates[0]);
      RunKeeps(Step(s, splitLines, dates[0]), splitLines, dates[1..]);
    }
  }

  /** Over any sequence of days: the line just written went to the file numbered by its count, of a day of the month
      that is its own; no opening of a file got more than `splitLines` lines; and one that a numbered file
      followed is full, but for the file init opened, which lacks the line 0. */
  lemma Rotation(start: Date, splitLines: nat, dates: seq<Date>, date: Date)
    requires splitLines > 0
    ensures var s := Run(Start(start), splitLines, dates);
      var s' := Step(s, splitLines, date);
      && s'.files[|s'.files| - 1].suffix == SuffixFor(s'.count, splitLines)
      && s'.files[|s'.files| - 1].date.mday == date.mday
      && s'.count == (if date.mday == s.today then s.count + 1 else 0)
      && (forall i :: 0 <= i < |s'.files| ==> s'.files[i].lines <= splitLines)
      && (forall i :: 0 <= i < |s'.files| - 1 && s'.files[i + 1].suffix.Some? ==>
            s'.files[i].lines == if i == 0 then splitLines - 1 else splitLines)
  {
    DivModIs(0, splitLines, 0, 0);
    RunKeeps(Start(start), splitLines, dates);
    StepKeeps(Run(Start(start), splitLines, dates), splitLines, date);
  }

  // ---------------------------------------------------------------- file names

  predicate Before(d: Date, e: Date) {
    d.year < e.year || (d.year == e.year && (d.month < e.month || (d.month == e.month && d.mday < e.mday)))
  }

  function Number(file: Segment): nat { if file.suffix.None? then 0 else file.suffix.value }

  /** A later date, or a higher number on the same date: a file of another name. */
  predicate NamedAfter(a: Segment, b: Segment) {
    Before(a.date, b.date) || (a.date == b.date && Number(a) < Number(b))
  }

  /** The files are named one after another, the last no later than `current`, the day of the last line. */
  ghost predicate InNameOrder(s: State, splitLines: nat, current: Date)
    requires splitLines > 0
  {
    && s.files != [] && s.today == current.mday
    && (forall i, j :: 0 <= i < j < |s.files| ==> NamedAfter(s.files[i], s.files[j]))
    && var last := s.files[|s.files| - 1];
      !Before(current, last.date) && Number(last) == s.count / splitLines
  }

  lemma FileAdded(s: State, splitLines: nat, current: Date, file: Segment)
    requires splitLines > 0 && InNameOrder(s, splitLines, current) && NamedAfter(s.files[|s.files| - 1], file)
    ensures var files := PutLine(s.files + [file]);
      forall i, j :: 0 <= i < j < |files| ==> NamedAfter(files[i], files[j])
  {}

  lemma StepInOrder(s: State, splitLines: nat, current: Date, date: Date)
    requires splitLines > 0 && InNameOrder(s, splitLines, current) && !Before(date, current)
    ensures InNameOrder(Step(s, splitLines, date), splitLines, date)
  {
    hide NamedAfter;
    var c := s.count + 1;
    var last := s.files[|s.files| - 1];
    NextCount(s.count, splitLines);
    DivModIs(0, splitLines, 0, 0);
    if s.today != date.mday {
      NewDay(last, current, date);
      FileAdded(s, splitLines, current, Segment(date, None, 0));
    } else if c % splitLines == 0 {
      NextNumber(last, current, date, c / splitLines);
      FileAdded(s, splitLines, current, Segment(date, Some(c / splitLines), 0));
    } else {
      SameNames(s.files);
      NotEarlier(last.date, current, date);
    }
  }

  lemma NotEarlier(d: Date, e: Date, f: Date)
    requires !Before(e, d) && !Before(f, e)
    ensures !Before(f, d)
  {}

  lemma NewDay(last: Segment, current: Date, date: Date)
    requires !Before(current, last.date) && !Before(date, current) && current.mday != date.mday
    ensures NamedAfter(last, Segment(date, None, 0))
  {}

  lemma NextNumber(last: Segment, current: Date, date: Date, number: nat)
    requires !Before(current, last.date) && !Before(date, current) && Number(last) < number
    ensures NamedAfter(last, Segment(date, Some(number), 0))
  {}

  lemma SameNames(files: seq<Segment>)
    requires files != [] && forall i, j :: 0 <= i < j < |files| ==> NamedAfter(files[i], files[j])
    ensures forall i, j :: 0 <= i < j < |files| ==> NamedAfter(PutLine(files)[i], PutLine(files)[j])
  {}

  /** No day is earlier than the one before. */
  predicate Calendar(current: Date, dates: seq<Date>)
    decreases |dates|
  {
    dates == [] || (!Before(dates[0], current) && Calendar(dates[0], dates[1..]))
  }

  lemma {:induction false} RunInOrder(s: State, splitLines: nat, current: Date, dates: seq<Date>) returns (last: Date)
    requires splitLines > 0 && InNameOrder(s, splitLines, current) && Calendar(current, dates)
    ensures InNameOrder(Run(s, splitLines, dates), splitLines, last)
    decreases |dates|
  {
    hide Before, NamedAfter;
    last := current;
    if dates != [] {
      StepInOrder(s, splitLines, current, dates[0]);
      last := RunInOrder(Step(s, splitLines, dates[0]), splitLines, dates[0], dates[1..]);
    }
  }

  /** As the days go by, no file is opened twice: so no file gets more than `splitLines` lines in the run. */
  lemma NoFileTwice(start: Date, splitLines: nat, dates: seq<Date>)
    requires splitLines > 0 && Calendar(start, dates)
    ensures var files := Run(Start(start), splitLines, dates).files;
      && (forall i, j :: 0 <= i < j < |files| ==> files[i].date != files[j].date || files[i].suffix != files[j].suffix)
      && (forall i :: 0 <= i < |files| ==> files[i].lines <= splitLines)
  {
    DivModIs(0, splitLines, 0, 0);
    var last := RunInOrder(Start(start), splitLines, start, dates);
    RunKeeps(Start(start), splitLines, dates);
    hide Run, LastFile;
    var s := Run(Start(start), splitLines, dates);
    forall i, j | 0 <= i < j < |s.files| ensures s.files[i].date != s.files[j].date || s.files[i].suffix != s.files[j].suffix {
      assert NamedAfter(s.files[i], s.files[j]);
    }
  }

  // ---------------------------------------------------------------- lines of another month

  /** The day of the last line. */
  function LastDay(current: Date, dates: seq<Date>): Date
    decreases |dates|
  {
    if dates == [] then current else LastDay(dates[0], dates[1..])
  }

  /** No two lines in a row are of different dates with the same day of the month. */
  predicate DaysDiffer(current: Date, dates: seq<Date>)
    decreases |dates|
  {
    dates == [] || ((dates[0] == current || dates[0].mday != current.mday) && DaysDiffer(dates[0], dates[1..]))
  }

  /** The last file is of the day of the last line. */
  predicate OwnDate(s: State, current: Date) {
    s.files != [] && s.today == current.mday && s.files[|s.files| - 1].date == current
  }

  lemma {:induction false} RunOwnDate(s: State, splitLines: nat, current: Date, dates: seq<Date>)
    requires splitLines > 0 && OwnDate(s, current) && DaysDiffer(current, dates)
    ensures OwnDate(Run(s, splitLines, dates), LastDay(current, dates))
    decreases |dates|
  {
    if dates != [] { RunOwnDate(Step(s, splitLines, dates[0]), splitLines, dates[0], dates[1..]); }
  }

  /** As long as days in a row differ in the day of the month, every line goes to a file of its own date. After such
      days, the next line does exactly if its date is that of the last, or differs in the day of the month, or its
      count opens a new file anyway. */
  lemma OwnDateIff(start: Date, splitLines: nat, dates: seq<Date>, date: Date)
    requires splitLines > 0 && DaysDiffer(start, dates)
    ensures var s := Run(Start(start), splitLines, dates); var last := LastDay(start, dates);
      var files := Step(s, splitLines, date).files;
      && OwnDate(s, last)
      && (files[|files| - 1].date == date <==>
            date == last || date.mday != last.mday || (s.count + 1) % splitLines == 0)
  {
    RunOwnDate(Start(start), splitLines, start, dates);
  }

  /** A line of 5 February in the file of 5 January. */
  lemma MonthLater()
    ensures var s := Step(Start(Date(2026, 1, 5)), 10, Date(2026, 2, 5));
      |s.files| == 1 && s.files[0] == Segment(Date(2026, 1, 5), None, 1)
  {}

  // ---------------------------------------------------------------- write_log

  class Log {
    const splitLines: nat
    var count: nat
    var today: int
    var files: seq<Segment>

    ghost function Contents(): State
      reads this
    {
      State(count, today, files)
    }

    constructor (splitLines: nat, date: Date)
      requires splitLines > 0
      ensures Contents() == Start(date) && this.splitLines == splitLines && Inv(Contents(), splitLines)
    {
      this.splitLines := splitLines;
      count, today := 0, date.mday;
      files := [Segment(date, None, 0)];
      new;
      DivModIs(0, splitLines, 0, 0);
    }

    /** write_log with m_is_async false. */
    method WriteLog(date: Date)
      requires Inv(Contents(), splitLines)
      modifies this
      ensures Inv(Contents(), splitLines) && Contents() == Step(old(Contents()), splitLines, date)
    {
      StepKeeps(Contents(), splitLines, date);
      count := count + 1;
      if today != date.mday || count % splitLines == 0 {
        if today != date.mday {
          files := files + [Segment(date, None, 0)];
          today := date.mday;
          count := 0;
        } else {
          files := files + [Segment(date, Some(count / splitLines), 0)];
        }
      }
      var last := |files| - 1;
      files := files[last := files[last].(lines := files[last].lines + 1)];
    }
  }
}

/** A parser that is resumed whenever bytes arrive: lines are cut at CR LF from a growing stream and handed,
    one by one, to a handler that updates the parsed state or stops with a result. */
module LineMachine {
  import opened CStrings

  const CR: char := '\r'
  const LF: char := '\n'

  datatype LineStatus = LineOk | LineBad | LineOpen

  /** parse_line from offset `i`: the status, and where it stands: at the CR of a complete line,
      at the offending byte, or where more bytes are needed. */
  function ScanLine(s: string, i: nat): (r: (LineStatus, nat))
    requires i <= |s|
    ensures i <= r.1 <= |s|
    ensures forall j :: i <= j < r.1 ==> s[j] != CR && s[j] != LF
    ensures r.1 < |s| ==> s[r.1] == CR || s[r.1] == LF
    ensures r.0 == LineOk <==> r.1 + 1 < |s| && s[r.1] == CR && s[r.1 + 1] == LF
    ensures r.0 == LineOpen <==> r.1 == |s| || (r.1 + 1 == |s| && s[r.1] == CR)
    decreases |s| - i
  {
    if i == |s| then (LineOpen, i)
    else if s[i] == CR then
      if i + 1 == |s| then (LineOpen, i) else if s[i + 1] == LF then (LineOk, i) else (LineBad, i)
    else if s[i] == LF then (LineBad, i)
    else ScanLine(s, i + 1)
  }

  /** The scan stops at the first CR or LF, or at the end. */
  lemma ScanLineIs(s: string, i: nat, k: nat)
    requires i <= k <= |s|
    requires forall j :: i <= j < k ==> s[j] != CR && s[j] != LF
    requires k < |s| ==> s[k] == CR || s[k] == LF
    ensures ScanLine(s, i).1 == k
    decreases k - i
  {}

  /** A scan that is not short of bytes does not look at later ones. */
  lemma {:induction false} ScanLineGrows(s: string, t: string, i: nat)
    requires i <= |s| && ScanLine(s, i).0 != LineOpen
    ensures ScanLine(s + t, i) == ScanLine(s, i)
    decreases |s| - i
  {
    if i < |s| && s[i] != CR && s[i] != LF { ScanLineGrows(s, t, i + 1); }
  }

  /** A scan can be taken up where it stood. */
  lemma ScanLineResumes(s: string, t: string, i: nat)
    requires i <= |s| && ScanLine(s, i).0 != LineOk
    ensures ScanLine(s + t, i) == ScanLine(s + t, ScanLine(s, i).1)
    decreases |s| - i
  {}

  /** The current line starts at `start`; parse_line has looked at it up to `checked`. */
  datatype Cursor<S> = Cursor(start: nat, checked: nat, parsed: S)

  predicate InStream<S>(s: string, c: Cursor<S>) { c.start <= c.checked <= |s| }

  type Handler<!S, !R> = (S, string) -> (S, Option<R>)

  /** One turn: wait with the scan at `checked`, stop with a result, or go on to the next line. */
  datatype Move<S, R> = Wait(checked: nat) | Stop(at: Cursor<S>, result: R) | Go(to: Cursor<S>)

  function Turn<S, R>(handle: Handler<S, R>, s: string, c: Cursor<S>): (m: Move<S, R>)
    requires InStream(s, c)
    ensures m.Wait? ==> c.checked <= m.checked <= |s|
    ensures m.Stop? ==> InStream(s, m.at) && c.checked <= m.at.checked
    ensures m.Go? ==> InStream(s, m.to) && c.checked < m.to.checked
  {
    var (status, k) := ScanLine(s, c.checked);
    if status != LineOk then Wait(k)
    else
      var (parsed, result) := handle(c.parsed, s[c.start..k]);
      var next := Cursor(k + 2, k + 2, parsed);
      if result.Some? then Stop(next, result.value) else Go(next)
  }

  /** All the complete lines of `s` from `c` on, until the handler has a result or bytes are lacking. */
  function Run<S, R>(handle: Handler<S, R>, s: string, c: Cursor<S>): (r: (Cursor<S>, Option<R>))
    requires InStream(s, c)
    ensures InStream(s, r.0) && c.checked <= r.0.checked
    decreases |s| - c.checked
  {
    match Turn(handle, s, c)
    case Wait(k) => (c.(checked := k), None)
    case Stop(c', result) => (c', Some(result))
    case Go(c') => Run(handle, s, c')
  }

  /** A turn that begins at the end of its line. */
  lemma TurnAtEnd<S, R>(handle: Handler<S, R>, s: string, c: Cursor<S>)
    requires InStream(s, c) && c.checked + 1 < |s| && s[c.checked] == CR && s[c.checked + 1] == LF
    ensures var (parsed, result) := handle(c.parsed, s[c.start..c.checked]);
      var next := Cursor(c.checked + 2, c.checked + 2, parsed);
      Turn(handle, s, c) == if result.Some? then Stop(next, result.value) else Go(next)
  {
    hide ScanLine;
    ScanLineIs(s, c.checked, c.checked);
  }

  lemma TurnGrows<S, R>(handle: Handler<S, R>, s: string, t: string, c: Cursor<S>)
    requires InStream(s, c)
    ensures !Turn(handle, s, c).Wait? ==> Turn(handle, s + t, c) == Turn(handle, s, c)
    ensures Turn(handle, s, c).Wait? ==>
      Turn(handle, s + t, c) == Turn(handle, s + t, c.(checked := Turn(handle, s, c).checked))
  {
    var (status, k) := ScanLine(s, c.checked);
    if status == LineOk {
      ScanLineGrows(s, t, c.checked);
      assert (s + t)[c.start..k] == s[c.start..k];
    } else {
      ScanLineResumes(s, t, c.checked);
    }
  }

  /** Later bytes leave a result alone, and a run that wants more bytes can be taken up from where it stopped
      as well as from the start. */
  lemma {:induction false} RunGrows<S, R>(handle: Handler<S, R>, s: string, t: string, c: Cursor<S>)
    requires InStream(s, c)
    ensures Run(handle, s, c).1.Some? ==> Run(handle, s + t, c) == Run(handle, s, c)
    ensures Run(handle, s, c).1.None? ==> Run(handle, s + t, c) == Run(handle, s + t, Run(handle, s, c).0)
    decreases |s| - c.checked
  {
    hide Turn;
    TurnGrows(handle, s, t, c);
    match Turn(handle, s, c)
    case Wait(k) =>
    case Stop(_, _) =>
    case Go(c') => RunGrows(handle, s, t, c');
  }

  /** A run stopped for want of bytes is not moved by another look at the same bytes. */
  lemma RunSettles<S, R>(handle: Handler<S, R>, s: string, c: Cursor<S>)
    requires InStream(s, c) && Run(handle, s, c).1.None?
    ensures var c' := Run(handle, s, c).0; Run(handle, s, c') == (c', None)
  {
    RunGrows(handle, s, "", c);
    assert s + "" == s;
  }

  function Flatten(chunks: seq<string>): string {
    if chunks == [] then "" else chunks[0] + Flatten(chunks[1..])
  }

  lemma {:induction false} FlattenAppend(chunks: seq<string>, chunk: string)
    ensures Flatten(chunks + [chunk]) == Flatten(chunks) + chunk
  {
    if chunks == [] {
      assert chunks + [chunk] == [chunk] && [chunk][1..] == [];
    } else {
      assert (chunks + [chunk])[1..] == chunks[1..] + [chunk];
      FlattenAppend(chunks[1..], chunk);
    }
  }

  /** A run after each arriving chunk, until the first result. */
  function Feed<S, R>(handle: Handler<S, R>, s: string, c: Cursor<S>, chunks: seq<string>): (Cursor<S>, Option<R>)
    requires InStream(s, c)
    decreases |chunks|
  {
    if chunks == [] then (c, None)
    else
      var s' := s + chunks[0];
      var (c', result) := Run(handle, s', c);
      if result.Some? then (c', result) else Feed(handle, s', c', chunks[1..])
  }

  /** However the bytes are split, the first result, the parsed state and the cursors are those of a single
      run over all of them. */
  lemma {:induction false} ChunkIndependence<S, R>(handle: Handler<S, R>, s: string, c: Cursor<S>, chunks: seq<string>)
    requires InStream(s, c) && Run(handle, s, c) == (c, None)
    ensures Feed(handle, s, c, chunks) == Run(handle, s + Flatten(chunks), c)
    decreases |chunks|
  {
    if chunks == [] {
      assert s + Flatten(chunks) == s;
    } else {
      var s', rest := s + chunks[0], Flatten(chunks[1..]);
      assert s + Flatten(chunks) == s' + rest;
      RunGrows(handle, s', rest, c);
      if Run(handle, s', c).1.None? {
        RunSettles(handle, s', c);
        ChunkIndependence(handle, s', Run(handle, s', c).0, chunks[1..]);
      }
    }
  }

  /** A bad line end is never got past: whatever arrives, the parser stays where it is and asks for more. */
  lemma BadLineForever<S, R>(handle: Handler<S, R>, s: string, c: Cursor<S>, chunks: seq<string>)
    requires InStream(s, c) && ScanLine(s, c.checked) == (LineBad, c.checked)
    ensures Feed(handle, s, c, chunks) == (c, None)
  {
    ScanLineGrows(s, Flatten(chunks), c.checked);
    ChunkIndependence(handle, s, c, chunks);
  }

  /** What holds of the parsed state before a run, is kept by every line of the stream, and rules out some
      results there, holds after the run too. */
  lemma {:induction false} RunKeeps<S(!new), R(!new)>(handle: Handler<S, R>, s: string, c: Cursor<S>,
                                                      inv: S -> bool, good: R -> bool)
    requires InStream(s, c) && inv(c.parsed)
    requires forall p, i, j | 0 <= i <= j <= |s| && inv(p) ::
      var (p', result) := handle(p, s[i..j]); inv(p') && (result.Some? ==> good(result.value))
    ensures var (c', result) := Run(handle, s, c); inv(c'.parsed) && (result.Some? ==> good(result.value))
    decreases |s| - c.checked
  {
    match Turn(handle, s, c)
    case Wait(_) =>
    case Stop(_, _) =>
    case Go(c') => RunKeeps(handle, s, c', inv, good);
  }

  // ---------------------------------------------------------------- streams made of lines

  predicate PlainLine(line: string) { CR !in line && LF !in line }

  function Lines(lines: seq<string>): string {
    if lines == [] then "" else lines[0] + "\r\n" + Lines(lines[1..])
  }

  lemma NoLines()
    ensures Lines([]) == ""
  {}

  lemma {:induction false} LinesAppend(lines: seq<string>, line: string)
    ensures Lines(lines + [line]) == Lines(lines) + (line + "\r\n")
  {
    if lines == [] {
      assert lines + [line] == [line];
      assert [line][1..] == [];
    } else {
      assert (lines + [line])[0] == lines[0] && (lines + [line])[1..] == lines[1..] + [line];
      LinesAppend(lines[1..], line);
    }
  }

  /** The handler on one line after another. */
  function Fold<S, R>(handle: Handler<S, R>, at: nat, parsed: S, lines: seq<string>): (Cursor<S>, Option<R>)
    decreases |lines|
  {
    if lines == [] then (Cursor(at, at, parsed), None)
    else
      var (parsed', result) := handle(parsed, lines[0]);
      var at' := at + |lines[0]| + 2;
      if result.Some? then (Cursor(at', at', parsed'), result) else Fold(handle, at', parsed', lines[1..])
  }

  lemma OneLine<S, R>(handle: Handler<S, R>, done: string, line: string, rest: string, parsed: S)
    requires PlainLine(line)
    ensures var at := |done| + |line| + 2; var (parsed', result) := handle(parsed, line);
      Turn(handle, done + (line + "\r\n" + rest), Cursor(|done|, |done|, parsed)) ==
        if result.Some? then Stop(Cursor(at, at, parsed'), result.value) else Go(Cursor(at, at, parsed'))
  {
    hide ScanLine;
    var s, k := done + (line + "\r\n" + rest), |done| + |line|;
    assert s[|done|..k] == line;
    assert forall j :: |done| <= j < k ==> s[j] == line[j - |done|];
    assert s[k] == CR && s[k + 1] == LF;
    ScanLineIs(s, |done|, k);
  }

  /** Reading what a printer of lines wrote is folding the handler over the lines. */
  lemma {:induction false} RunOfLines<S, R>(handle: Handler<S, R>, done: string, parsed: S, lines: seq<string>)
    requires forall i :: 0 <= i < |lines| ==> PlainLine(lines[i])
    ensures Run(handle, done + Lines(lines), Cursor(|done|, |done|, parsed)) == Fold(handle, |done|, parsed, lines)
    decreases |lines|
  {
    hide Turn, ScanLine;
    if lines == [] {
      assert done + Lines(lines) == done;
      NothingLeft(handle, done, parsed);
    } else {
      var line, rest := lines[0], Lines(lines[1..]);
      OneLine(handle, done, line, rest, parsed);
      var (parsed', result) := handle(parsed, line);
      if result.None? {
        var done' := done + (line + "\r\n");
        assert done' + rest == done + (line + "\r\n" + rest);
        RunOfLines(handle, done', parsed', lines[1..]);
      }
    }
  }

  lemma NothingLeft<S, R>(handle: Handler<S, R>, s: string, parsed: S)
    ensures Run(handle, s, Cursor(|s|, |s|, parsed)) == (Cursor(|s|, |s|, parsed), None)
  {}
}

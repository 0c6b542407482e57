/** http_conn::write: a response of two regions, the head in m_write_buf and the mapped file, handed to writev
    through two iovecs that are corrected after each partial send. The kernel decides how much each call takes. */
module Sender {
  /** A byte of memory: of the response head or, at any distance from its start, of the mapped file. */
  datatype Cell = HeadByte(i: int) | FileByte(j: int)

  /** The iovecs (offset into the region, length), m_iv_count, bytes_have_send and bytes_to_send. */
  datatype Out = Out(base0: int, len0: nat, base1: int, len1: nat, count: nat, have: nat, toSend: int)

  /** What process_write sets up for a head of `h` bytes and a file of `f`; without a file there is one iovec. */
  function Start(h: nat, f: nat): (o: Out)
    ensures Within(o)
  {
    Out(0, h, 0, f, if f == 0 then 1 else 2, 0, h + f)
  }

  function Whole(h: nat, f: nat): (s: seq<Cell>)
    ensures |s| == h + f
  {
    seq(h, i => HeadByte(i)) + seq(f, j => FileByte(j))
  }

  /** The bytes the iovecs describe, in the order writev takes them. */
  function Gather(o: Out): (s: seq<Cell>)
    ensures |s| == o.len0 + if o.count == 2 then o.len1 else 0
  {
    seq(o.len0, i => HeadByte(o.base0 + i)) + if o.count == 2 then seq(o.len1, j => FileByte(o.base1 + j)) else []
  }

  /** The iovecs never offer more than bytes_to_send. */
  predicate Within(o: Out) { |Gather(o)| <= o.toSend }

  /** The corrections after a return of `n`, for a head of `h` bytes. */
  function After(o: Out, h: nat, n: nat): (r: Out)
    requires Within(o) && n <= |Gather(o)|
    ensures Within(r) && r.have == o.have + n && r.toSend == o.toSend - n
  {
    var have, toSend := o.have + n, o.toSend - n;
    if have >= o.len0 then o.(len0 := 0, base1 := have - h, len1 := toSend, have := have, toSend := toSend)
    else o.(base0 := have, len0 := o.len0 - have, have := have, toSend := toSend)
  }

  /** `sizes` is what a sequence of writev calls may return, from `o` on. */
  predicate Possible(o: Out, h: nat, sizes: seq<nat>)
    requires Within(o)
    decreases |sizes|
  {
    sizes == [] || (sizes[0] <= |Gather(o)| && Possible(After(o, h, sizes[0]), h, sizes[1..]))
  }

  /** The state after those calls, and the bytes put on the wire. */
  function Deliver(o: Out, h: nat, sizes: seq<nat>): (Out, seq<Cell>)
    requires Within(o) && Possible(o, h, sizes)
    decreases |sizes|
  {
    if sizes == [] then (o, [])
    else
      var (o', rest) := Deliver(After(o, h, sizes[0]), h, sizes[1..]);
      (o', Gather(o)[..sizes[0]] + rest)
  }

  /** How many of the sizes leave bytes_have_send strictly inside the head. */
  function Insides(have: nat, h: nat, sizes: seq<nat>): nat
    decreases |sizes|
  {
    if sizes == [] then 0
    else
      var have' := have + sizes[0];
      (if 0 < have' < h then 1 else 0) + Insides(have', h, sizes[1..])
  }

  // ---------------------------------------------------------------- at most one return inside the head

  /** The states in which the iovecs describe exactly the unsent rest. */
  ghost predicate Exact(o: Out, h: nat, f: nat) {
    && o.count == Start(h, f).count && o.have <= h + f && o.toSend == h + f - o.have
    && if o.have < h then o.base0 == o.have && o.len0 == h - o.have && o.base1 == 0 && o.len1 == f
       else o.len0 == 0 && o.base1 == o.have - h && o.len1 == o.toSend
  }

  lemma ExactGather(o: Out, h: nat, f: nat)
    requires Exact(o, h, f)
    ensures Gather(o) == Whole(h, f)[o.have..]
  {}

  /** Inside the head, an exact state survives a return that takes the rest of the head. */
  lemma ExactAfter(o: Out, h: nat, f: nat, n: nat)
    requires h > 0 && Exact(o, h, f) && Within(o) && n <= |Gather(o)|
    requires o.have == 0 || o.have + n >= h
    ensures Exact(After(o, h, n), h, f)
  {}

  /** As long as at most one return leaves the cursor strictly inside the head, what is on the wire is a prefix
      of head and file, and the iovecs describe the rest. */
  lemma {:induction false} Faithful(o: Out, h: nat, f: nat, sizes: seq<nat>)
    requires h > 0 && Exact(o, h, f) && Within(o) && Possible(o, h, sizes)
    requires (if 0 < o.have < h then 1 else 0) + Insides(o.have, h, sizes) <= 1
    ensures var (o', sent) := Deliver(o, h, sizes);
      Exact(o', h, f) && o'.have == o.have + |sent| && Whole(h, f)[o.have..] == sent + Gather(o')
    decreases |sizes|
  {
    ExactGather(o, h, f);
    if sizes != [] {
      var n, o1 := sizes[0], After(o, h, sizes[0]);
      ExactAfter(o, h, f, n);
      hide Gather, After, Whole, Exact;
      Faithful(o1, h, f, sizes[1..]);
      var (o', rest) := Deliver(o1, h, sizes[1..]);
      Resliced(Whole(h, f), o.have, n, rest, Gather(o'));
    }
  }

  lemma Resliced(whole: seq<Cell>, at: nat, n: nat, rest: seq<Cell>, unsent: seq<Cell>)
    requires at + n <= |whole| && whole[at + n..] == rest + unsent
    ensures whole[at..] == (whole[at..][..n] + rest) + unsent
  {}

  // ---------------------------------------------------------------- more than one

  /** Something wrong has been sent. */
  ghost predicate Wrong(h: nat, f: nat, sent: seq<Cell>) {
    exists i :: 0 <= i < |sent| && i < h + f && sent[i] != Whole(h, f)[i]
  }

  /** Nothing wrong yet, but the rest of the head will not be sent: the head iovec was dropped early and the file
      iovec points in front of the file, or the head iovec is too short. */
  ghost predicate Derailed(o: Out, h: nat, f: nat) {
    && o.have < h && o.toSend == h + f - o.have
    && ((o.len0 == 0 && o.base1 < 0)
        || (o.len0 > 0 && o.base0 == o.have && o.have + o.len0 < h))
  }

  /** The second return inside the head derails the sender. */
  lemma SecondInside(o: Out, h: nat, f: nat, n: nat)
    requires Exact(o, h, f) && Within(o) && n <= |Gather(o)| && 0 < o.have && o.have + n < h
    ensures Derailed(After(o, h, n), h, f)
  {}

  /** From then on every further byte makes it wrong or leaves it derailed. */
  lemma StaysDerailed(o: Out, h: nat, f: nat, sent: seq<Cell>, n: nat)
    requires Derailed(o, h, f) && Within(o) && n <= |Gather(o)| && |sent| == o.have
    ensures Wrong(h, f, sent + Gather(o)[..n]) || Derailed(After(o, h, n), h, f)
  {
    var sent' := sent + Gather(o)[..n];
    if n > o.len0 {
      var i := o.have + o.len0;
      assert sent'[i] == Gather(o)[o.len0] == FileByte(o.base1);
      assert Whole(h, f)[i] == HeadByte(i);
    }
  }

  lemma {:induction false} NeverRecovers(o: Out, h: nat, f: nat, sent: seq<Cell>, sizes: seq<nat>)
    requires Within(o) && Possible(o, h, sizes) && |sent| == o.have && o.toSend == h + f - o.have
    requires Wrong(h, f, sent) || Derailed(o, h, f)
    ensures var (o', more) := Deliver(o, h, sizes);
      |sent + more| == o'.have && o'.toSend == h + f - o'.have &&
      (Wrong(h, f, sent + more) || Derailed(o', h, f))
    decreases |sizes|
  {
    hide Gather, After, Wrong, Derailed;
    if sizes == [] {
      assert sent + [] == sent;
    } else {
      var n, o1 := sizes[0], After(o, h, sizes[0]);
      var sent1 := sent + Gather(o)[..n];
      var (o', rest) := Deliver(o1, h, sizes[1..]);
      if Wrong(h, f, sent) { StaysWrong(h, f, sent, Gather(o)[..n]); } else { StaysDerailed(o, h, f, sent, n); }
      NeverRecovers(o1, h, f, sent1, sizes[1..]);
      assert sent1 + rest == sent + (Gather(o)[..n] + rest);
    }
  }

  lemma StaysWrong(h: nat, f: nat, sent: seq<Cell>, more: seq<Cell>)
    requires Wrong(h, f, sent)
    ensures Wrong(h, f, sent + more)
  {}

  lemma {:induction false} PastHead(have: nat, h: nat, sizes: seq<nat>)
    requires have >= h
    ensures Insides(have, h, sizes) == 0
    decreases |sizes|
  {
    if sizes != [] { PastHead(have + sizes[0], h, sizes[1..]); }
  }

  lemma {:induction false} Unfaithful(o: Out, h: nat, f: nat, sent: seq<Cell>, sizes: seq<nat>)
    requires h > 0 && Exact(o, h, f) && Within(o) && Possible(o, h, sizes) && |sent| == o.have
    requires (if 0 < o.have < h then 1 else 0) + Insides(o.have, h, sizes) > 1
    ensures var (o', more) := Deliver(o, h, sizes);
      |sent + more| == o'.have && o'.toSend == h + f - o'.have &&
      (Wrong(h, f, sent + more) || Derailed(o', h, f))
    decreases |sizes|
  {
    var n, o1 := sizes[0], After(o, h, sizes[0]);
    var sent1 := sent + Gather(o)[..n];
    var (o', rest) := Deliver(o1, h, sizes[1..]);
    assert sent1 + rest == sent + (Gather(o)[..n] + rest);
    if o.have + n >= h { PastHead(o.have + n, h, sizes[1..]); }
    if o.have == 0 {
      ExactAfter(o, h, f, n);
      Unfaithful(o1, h, f, sent1, sizes[1..]);
    } else {
      SecondInside(o, h, f, n);
      NeverRecovers(o1, h, f, sent1, sizes[1..]);
    }
  }

  // ---------------------------------------------------------------- both together

  /** A response that is sent to the end arrives intact exactly when at most one return of writev left the cursor
      strictly inside the head; and until then the iovecs describe exactly what is not yet sent. */
  lemma IntactIff(h: nat, f: nat, sizes: seq<nat>)
    requires h > 0 && Possible(Start(h, f), h, sizes)
    ensures var (o, sent) := Deliver(Start(h, f), h, sizes);
      && (Insides(0, h, sizes) <= 1 ==> sent + Gather(o) == Whole(h, f) && o.toSend == |Gather(o)|)
      && (o.toSend == 0 ==> (sent == Whole(h, f) <==> Insides(0, h, sizes) <= 1))
  {
    var (o, sent) := Deliver(Start(h, f), h, sizes);
    if Insides(0, h, sizes) <= 1 {
      Faithful(Start(h, f), h, f, sizes);
      ExactGather(o, h, f);
      assert Whole(h, f)[0..] == Whole(h, f);
      if o.toSend == 0 { assert sent + Gather(o) == sent; }
    } else {
      Unfaithful(Start(h, f), h, f, [], sizes);
      assert [] + sent == sent;
    }
  }

  lemma {:induction false} DeliverWithin(o: Out, h: nat, sizes: seq<nat>)
    requires Within(o) && Possible(o, h, sizes)
    ensures Within(Deliver(o, h, sizes).0)
    decreases |sizes|
  {
    if sizes != [] { DeliverWithin(After(o, h, sizes[0]), h, sizes[1..]); }
  }

  // ---------------------------------------------------------------- what can still be completed

  /** Some further returns bring bytes_to_send to 0. */
  ghost predicate Completable(o: Out, h: nat)
    requires Within(o)
  {
    exists more :: Possible(o, h, more) && Deliver(o, h, more).0.toSend == 0
  }

  /** With one iovec, a derailed sender stays so: what the iovec describes never makes up bytes_to_send. */
  lemma {:induction false} ShortForever(o: Out, h: nat, more: seq<nat>)
    requires Derailed(o, h, 0) && Within(o) && o.count == 1 && Possible(o, h, more)
    ensures var (o', _) := Deliver(o, h, more); Within(o') && Derailed(o', h, 0) && o'.count == 1 && o'.toSend > 0
    decreases |more|
  {
    if more != [] { ShortForever(After(o, h, more[0]), h, more[1..]); }
  }

  /** Once the iovecs are empty, writev can only return 0, which changes nothing: the loop of write has no end. */
  lemma Spins(o: Out, h: nat, n: nat)
    requires Derailed(o, h, 0) && Within(o) && o.count == 1 && Gather(o) == [] && n <= |Gather(o)|
    ensures n == 0 && Derailed(After(o, h, n), h, 0) && Gather(After(o, h, n)) == [] && After(o, h, n).toSend == o.toSend > 0
  {}

  /** One return takes what the iovecs offer; with a file, two always take the rest. */
  lemma AllAtOnce(o: Out, h: nat)
    requires Within(o) && o.toSend == |Gather(o)|
    ensures Completable(o, h)
  {
    var more := [o.toSend as nat];
    assert more[1..] == [] && Possible(After(o, h, more[0]), h, more[1..]);
    assert Possible(o, h, more) && Deliver(o, h, more).0.toSend == 0;
  }

  lemma AfterOne(o: Out, h: nat, n: nat)
    requires Within(o) && n <= |Gather(o)| && Completable(After(o, h, n), h)
    ensures Completable(o, h)
  {
    hide Gather, After;
    var o1 := After(o, h, n);
    var more :| Possible(o1, h, more) && Deliver(o1, h, more).0.toSend == 0;
    var longer := [n] + more;
    assert longer[1..] == more;
    assert Possible(o, h, longer) && Deliver(o, h, longer).0.toSend == 0;
  }

  /** With two iovecs, the file iovec is as it was, or has been given all that bytes_to_send says. */
  predicate Ready(o: Out, f: nat) { o.count == 2 && if o.len0 == 0 then o.len1 == o.toSend else o.len1 == f }

  lemma ReadyCompletable(o: Out, h: nat, f: nat)
    requires Within(o) && Ready(o, f)
    ensures Completable(o, h)
  {
    if o.len0 == 0 {
      AllAtOnce(o, h);
    } else {
      var n := |Gather(o)|;
      AllAtOnce(After(o, h, n), h);
      AfterOne(o, h, n);
    }
  }

  lemma {:induction false} StaysReady(o: Out, h: nat, f: nat, sizes: seq<nat>)
    requires Within(o) && Ready(o, f) && Possible(o, h, sizes)
    ensures var (o', _) := Deliver(o, h, sizes); Within(o') && Ready(o', f)
    decreases |sizes|
  {
    if sizes != [] { StaysReady(After(o, h, sizes[0]), h, f, sizes[1..]); }
  }

  /** Without a file, the second return inside the head is the end of it. */
  lemma {:induction false} OneIovecShort(o: Out, h: nat, sizes: seq<nat>)
    requires h > 0 && Exact(o, h, 0) && Within(o) && Possible(o, h, sizes)
    requires (if 0 < o.have < h then 1 else 0) + Insides(o.have, h, sizes) > 1
    ensures var (o', _) := Deliver(o, h, sizes); Within(o') && Derailed(o', h, 0) && o'.count == 1
    decreases |sizes|
  {
    var n, o1 := sizes[0], After(o, h, sizes[0]);
    if o.have + n >= h { PastHead(o.have + n, h, sizes[1..]); }
    if o.have == 0 {
      ExactAfter(o, h, 0, n);
      OneIovecShort(o1, h, sizes[1..]);
    } else {
      SecondInside(o, h, 0, n);
      ShortForever(o1, h, sizes[1..]);
    }
  }

  /** At any time, write can still come to its end exactly if there is a file or at most one return has left the cursor
      strictly inside the head. Otherwise - an answer without a file, and two such returns - it never does. */
  lemma CompletableIff(h: nat, f: nat, sizes: seq<nat>)
    requires h > 0 && Possible(Start(h, f), h, sizes)
    ensures var (o, _) := Deliver(Start(h, f), h, sizes);
      Within(o) && (Completable(o, h) <==> f > 0 || Insides(0, h, sizes) <= 1)
  {
    var (o, sent) := Deliver(Start(h, f), h, sizes);
    DeliverWithin(Start(h, f), h, sizes);
    if f > 0 {
      StaysReady(Start(h, f), h, f, sizes);
      ReadyCompletable(o, h, f);
    } else if Insides(0, h, sizes) <= 1 {
      IntactIff(h, f, sizes);
      AllAtOnce(o, h);
    } else {
      OneIovecShort(Start(h, f), h, sizes);
      forall more | Possible(o, h, more) ensures Deliver(o, h, more).0.toSend > 0 { ShortForever(o, h, more); }
    }
  }

  /** Two returns of 40 and 30 inside a head of 100 bytes without a file: 30 bytes are owed and none described. */
  lemma FormStalls()
    ensures Possible(Start(100, 0), 100, [40, 30])
    ensures var (o, _) := Deliver(Start(100, 0), 100, [40, 30]); o.toSend == 30 && Gather(o) == []
  {
    var o1 := After(Start(100, 0), 100, 40);
    var o2 := After(o1, 100, 30);
    assert [40, 30][1..] == [30] && [30][1..] == [];
    assert Possible(o2, 100, []) && Possible(o1, 100, [30]);
    assert Deliver(o1, 100, [30]).0 == o2;
  }

  /** Two returns of 4 and 3 inside a head of 10 bytes with a file of 20: the response is completed, and not intact. */
  lemma FileGarbled()
    ensures Possible(Start(10, 20), 10, [4, 3, 23]) && Insides(0, 10, [4, 3, 23]) == 2
    ensures var (o, sent) := Deliver(Start(10, 20), 10, [4, 3, 23]); o.toSend == 0 && sent != Whole(10, 20)
  {
    var o1 := After(Start(10, 20), 10, 4);
    var o2 := After(o1, 10, 3);
    assert [4, 3, 23][1..] == [3, 23] && [3, 23][1..] == [23] && [23][1..] == [];
    assert Possible(o2, 10, [23]) && Possible(o1, 10, [3, 23]);
    assert Insides(7, 10, [23]) == 0 && Insides(4, 10, [3, 23]) == 1;
    assert Deliver(o2, 10, [23]).0.toSend == 0 && Deliver(o1, 10, [3, 23]).0.toSend == 0;
    IntactIff(10, 20, [4, 3, 23]);
  }

  function Sum(sizes: seq<nat>): nat {
    if sizes == [] then 0 else sizes[0] + Sum(sizes[1..])
  }

  /** bytes_to_send falls by exactly what the kernel takes: with positive sizes it bounds their number. */
  lemma {:induction false} Progress(o: Out, h: nat, sizes: seq<nat>)
    requires Within(o) && Possible(o, h, sizes)
    ensures Deliver(o, h, sizes).0.toSend == o.toSend - Sum(sizes)
    ensures (forall i :: 0 <= i < |sizes| ==> sizes[i] > 0) ==> |sizes| <= o.toSend
    decreases |sizes|
  {
    if sizes != [] { Progress(After(o, h, sizes[0]), h, sizes[1..]); }
  }

  // ---------------------------------------------------------------- the bytes themselves

  /** What a cell holds; cells outside the two regions are not the sender's. */
  function Byte(head: string, file: string, cell: Cell): char {
    match cell
    case HeadByte(i) => if 0 <= i < |head| then head[i] else '\0'
    case FileByte(j) => if 0 <= j < |file| then file[j] else '\0'
  }

  function Bytes(head: string, file: string, cells: seq<Cell>): string {
    seq(|cells|, k requires 0 <= k < |cells| => Byte(head, file, cells[k]))
  }

  /** On completion the client has read the head and then the file. */
  lemma WireText(head: string, file: string, sizes: seq<nat>)
    requires head != "" && Possible(Start(|head|, |file|), |head|, sizes) && Insides(0, |head|, sizes) <= 1
    ensures var (o, sent) := Deliver(Start(|head|, |file|), |head|, sizes);
      Bytes(head, file, sent) <= head + file && (o.toSend == 0 ==> Bytes(head, file, sent) == head + file)
  {
    IntactIff(|head|, |file|, sizes);
    var (o, sent) := Deliver(Start(|head|, |file|), |head|, sizes);
    forall k | 0 <= k < |sent| ensures Byte(head, file, sent[k]) == (head + file)[k] {
      assert sent[k] == (sent + Gather(o))[k] == Whole(|head|, |file|)[k];
    }
  }

  // ---------------------------------------------------------------- the method

  datatype SendResult = Sent(n: nat) | Again | Failed

  /** How a call of write ends. Going: the kernel's answers given are used up inside the loop. */
  datatype Ending = Rearmed | Broken | Finished | Going

  /** What the first `n` answers say was sent. */
  function Sizes(kernel: seq<SendResult>, n: nat): seq<nat>
    requires n <= |kernel| && forall j :: 0 <= j < n ==> kernel[j].Sent?
  {
    seq(n, j requires 0 <= j < n => kernel[j].n)
  }

  /** The kernel's answers to one call of write are possible from `o` on. */
  predicate Offered(o: Out, h: nat, kernel: seq<SendResult>)
    requires Within(o)
    decreases |kernel|
  {
    kernel == [] || !kernel[0].Sent? ||
    (kernel[0].n <= |Gather(o)| && Offered(After(o, h, kernel[0].n), h, kernel[1..]))
  }

  lemma {:induction false} DeliverOneMore(o: Out, h: nat, sizes: seq<nat>, n: nat)
    requires Within(o) && Possible(o, h, sizes) && n <= |Gather(Deliver(o, h, sizes).0)|
    ensures Within(Deliver(o, h, sizes).0) && Possible(o, h, sizes + [n])
    ensures var (o', sent) := Deliver(o, h, sizes);
      Deliver(o, h, sizes + [n]) == (After(o', h, n), sent + Gather(o')[..n])
    decreases |sizes|
  {
    hide Gather, After;
    if sizes == [] {
      assert [] + [n] == [n] && [n][1..] == [];
      var last := Gather(o)[..n];
      assert [] + last == last + [];
    } else {
      assert (sizes + [n])[1..] == sizes[1..] + [n];
      var o1 := After(o, h, sizes[0]);
      DeliverOneMore(o1, h, sizes[1..], n);
      var (o', rest) := Deliver(o1, h, sizes[1..]);
      var first, last := Gather(o)[..sizes[0]], Gather(o')[..n];
      assert first + (rest + last) == first + rest + last;
    }
  }

  class Sender {
    const headLength: nat      // m_write_idx
    const fileLength: nat
    const linger: bool
    var out: Out
    ghost var taken: seq<nat>  // what writev has returned for this response, over all calls of write
    ghost var wire: seq<Cell>

    ghost predicate Valid()
      reads this
    {
      && headLength > 0 && Within(out)
      && Possible(Start(headLength, fileLength), headLength, taken)
      && Deliver(Start(headLength, fileLength), headLength, taken) == (out, wire)
    }

    constructor (headLength: nat, fileLength: nat, linger: bool)
      requires headLength > 0
      ensures Valid() && taken == [] && wire == [] && out == Start(headLength, fileLength)
      ensures this.headLength == headLength && this.fileLength == fileLength && this.linger == linger
    {
      this.headLength, this.fileLength, this.linger := headLength, fileLength, linger;
      out := Start(headLength, fileLength);
      taken, wire := [], [];
    }

    /** What the two theorems say of the response so far. */
    lemma Standing()
      requires Valid()
      ensures Insides(0, headLength, taken) <= 1 ==> wire + Gather(out) == Whole(headLength, fileLength)
      ensures out.toSend == 0 ==> (wire == Whole(headLength, fileLength) <==> Insides(0, headLength, taken) <= 1)
      ensures Completable(out, headLength) <==> fileLength > 0 || Insides(0, headLength, taken) <= 1
      ensures out.toSend == 0 ==> fileLength > 0 || Insides(0, headLength, taken) <= 1
    {
      if out.toSend == 0 { assert Possible(out, headLength, []) && Deliver(out, headLength, []).0 == out; }
      IntactIff(headLength, fileLength, taken);
      CompletableIff(headLength, fileLength, taken);
    }

    /** write. `keep` is its return value: whether the connection stays open. Going may be for ever: see Spins. */
    method Write(kernel: seq<SendResult>) returns (ending: Ending, keep: bool, ghost used: nat)
      requires Valid() && Offered(out, headLength, kernel)
      modifies this
      ensures Valid() && used <= |kernel| && (forall j :: 0 <= j < used ==> kernel[j].Sent?)
      ensures taken == old(taken) + Sizes(kernel, used)
      ensures out.toSend > 0 ==>
        && (ending == Rearmed <==> used < |kernel| && kernel[used].Again?)
        && (ending == Broken <==> used < |kernel| && kernel[used].Failed?)
        && (ending == Going <==> used == |kernel|)
      ensures old(out.toSend) == 0 ==> used == 0
      ensures Completable(out, headLength) <==> fileLength > 0 || Insides(0, headLength, taken) <= 1
      ensures ending == Finished <==> out.toSend == 0
      ensures ending == Finished ==> fileLength > 0 || Insides(0, headLength, taken) <= 1
      ensures keep == (ending == Rearmed || ending == Going || (ending == Finished && (linger || old(out.toSend) == 0)))
      ensures Insides(0, headLength, taken) <= 1 ==> wire + Gather(out) == Whole(headLength, fileLength)
      ensures ending == Finished ==> (wire == Whole(headLength, fileLength) <==> Insides(0, headLength, taken) <= 1)
    {
      hide Gather, Whole, Insides, Completable, Possible, Deliver, After;
      if out.toSend == 0 {
        Standing();
        return Finished, true, 0;
      }
      var i := 0;
      while i < |kernel|
        invariant 0 <= i <= |kernel| && Valid() && out.toSend > 0
        invariant forall j :: 0 <= j < i ==> kernel[j].Sent?
        invariant taken == old(taken) + Sizes(kernel, i)
        invariant Offered(out, headLength, kernel[i..])
      {
        match kernel[i] {
          case Again =>
            Standing();
            return Rearmed, true, i;
          case Failed =>
            Standing();
            return Broken, false, i;
          case Sent(temp) =>
            Account(temp);
            assert Sizes(kernel, i + 1) == Sizes(kernel, i) + [temp];
            if out.toSend <= 0 {
              Standing();
              return Finished, linger, i + 1;
            }
        }
        assert kernel[i..][1..] == kernel[i + 1..];
        i := i + 1;
      }
      Standing();
      return Going, true, i;
    }

    /** One positive return of writev. */
    method Account(temp: nat)
      requires Valid() && temp <= |Gather(out)|
      modifies this
      ensures Valid() && taken == old(taken) + [temp] && out == After(old(out), headLength, temp)
    {
      DeliverOneMore(Start(headLength, fileLength), headLength, taken, temp);
      wire := wire + Gather(out)[..temp];
      taken := taken + [temp];
      out := out.(have := out.have + temp, toSend := out.toSend - temp);
      if out.have >= out.len0 {
        out := out.(len0 := 0);
        out := out.(base1 := out.have - headLength);
        out := out.(len1 := out.toSend);
      } else {
        out := out.(base0 := out.have);
        out := out.(len0 := out.len0 - out.have);
      }
    }
  }
}

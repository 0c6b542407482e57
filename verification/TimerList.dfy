/** The sorted list of timers: what its operations mean on the sequence of entries, and the doubly linked list
    on the heap that computes it. */
module TimerList {
  /** A timer of connection `conn`. */
  datatype Entry = Entry(conn: nat, expire: int)

  predicate Sorted(s: seq<Entry>) { forall i, j :: 0 <= i < j < |s| ==> s[i].expire <= s[j].expire }

  /** How many leading entries do not expire after `e`. */
  function Position(s: seq<Entry>, e: int): (p: nat)
    ensures p <= |s|
    ensures forall i :: 0 <= i < p ==> s[i].expire <= e
    ensures p < |s| ==> e < s[p].expire
  {
    if s == [] || e < s[0].expire then 0 else 1 + Position(s[1..], e)
  }

  function InsertAt<T>(s: seq<T>, p: nat, x: T): (r: seq<T>)
    requires p <= |s|
    ensures |r| == |s| + 1
  {
    s[..p] + [x] + s[p..]
  }

  function RemoveAt<T>(s: seq<T>, k: nat): (r: seq<T>)
    requires k < |s|
    ensures |r| == |s| - 1
  {
    s[..k] + s[k + 1..]
  }

  /** Stable sorted insertion: behind the entries that expire at the same time. */
  function Insert(s: seq<Entry>, x: Entry): seq<Entry> { InsertAt(s, Position(s, x.expire), x) }

  /** The entry at `k` gets a new time and is put in its place again. */
  function Adjust(s: seq<Entry>, k: nat, e: int): seq<Entry>
    requires k < |s|
  {
    Insert(RemoveAt(s, k), s[k].(expire := e))
  }

  lemma PositionIs(s: seq<Entry>, e: int, p: nat)
    requires p <= |s| && (forall i :: 0 <= i < p ==> s[i].expire <= e) && (p < |s| ==> e < s[p].expire)
    ensures Position(s, e) == p
  {}

  lemma InsertSorted(s: seq<Entry>, x: Entry)
    requires Sorted(s)
    ensures Sorted(Insert(s, x))
  {
    hide Position;
    var p := Position(s, x.expire);
    var r := Insert(s, x);
    assert forall i :: 0 <= i < |r| ==> r[i] == if i < p then s[i] else if i == p then x else s[i - 1];
  }

  /** Insertion adds the one entry and moves no other past another. */
  lemma InsertAdds(s: seq<Entry>, x: Entry)
    ensures multiset(Insert(s, x)) == multiset(s) + multiset{x}
    ensures RemoveAt(Insert(s, x), Position(s, x.expire)) == s
  {
    hide Position;
    InsertAtAdds(s, Position(s, x.expire), x);
  }

  lemma InsertAtAdds<T>(s: seq<T>, p: nat, x: T)
    requires p <= |s|
    ensures multiset(InsertAt(s, p, x)) == multiset(s) + multiset{x}
    ensures RemoveAt(InsertAt(s, p, x), p) == s
  {
    var a, b := s[..p], s[p..];
    assert s == a + b;
    assert multiset(a + [x] + b) == multiset(a + [x]) + multiset(b);
    assert (a + [x] + b)[..p] == a;
    assert (a + [x] + b)[p + 1..] == b;
  }

  /** The only place that keeps the order and is behind the entries with the same time. */
  lemma InsertUnique(s: seq<Entry>, x: Entry, p: nat)
    requires p <= |s| && Sorted(InsertAt(s, p, x)) && (p < |s| ==> x.expire != s[p].expire)
    ensures InsertAt(s, p, x) == Insert(s, x)
  {
    hide Position;
    var r := InsertAt(s, p, x);
    assert r[p] == x && (p < |s| ==> r[p + 1] == s[p]);
    assert forall i :: 0 <= i < p ==> r[i] == s[i];
    PositionIs(s, x.expire, p);
  }

  /** Sorted, apart from the entry at `k`, which may belong further back. */
  predicate SortedBut(s: seq<Entry>, k: nat) {
    forall i, j :: 0 <= i < j < |s| && i != k ==> s[i].expire <= s[j].expire
  }

  lemma RemoveSorted(s: seq<Entry>, k: nat)
    requires k < |s| && SortedBut(s, k)
    ensures Sorted(RemoveAt(s, k))
  {}

  /** An entry that still is in front of its successor is in its place. */
  lemma InPlace(s: seq<Entry>, k: nat)
    requires k < |s| && SortedBut(s, k) && (k + 1 < |s| ==> s[k].expire < s[k + 1].expire)
    ensures Position(RemoveAt(s, k), s[k].expire) == k && Insert(RemoveAt(s, k), s[k]) == s
  {
    hide Position;
    PositionIs(RemoveAt(s, k), s[k].expire, k);
  }

  function Conns(s: seq<Entry>): seq<nat> { seq(|s|, i requires 0 <= i < |s| => s[i].conn) }

  // ---------------------------------------------------------------- the heap

  class UtilTimer {
    const conn: nat     // user_data
    var expire: int
    var prev: UtilTimer?
    var next: UtilTimer?

    constructor (conn: nat, expire: int)
      ensures this.conn == conn && this.expire == expire && prev == null && next == null
    {
      this.conn, this.expire := conn, expire;
      prev, next := null, null;
    }
  }

  /** The entries the nodes stand for. */
  ghost function EntriesOf(nodes: seq<UtilTimer>): (s: seq<Entry>)
    reads nodes
    ensures |s| == |nodes|
  {
    seq(|nodes|, i requires 0 <= i < |nodes| reads nodes => Entry(nodes[i].conn, nodes[i].expire))
  }

  lemma EntriesInsert(nodes: seq<UtilTimer>, p: nat, timer: UtilTimer)
    requires p <= |nodes|
    ensures EntriesOf(InsertAt(nodes, p, timer)) == InsertAt(EntriesOf(nodes), p, Entry(timer.conn, timer.expire))
  {}

  lemma EntriesRemove(nodes: seq<UtilTimer>, k: nat)
    requires k < |nodes|
    ensures EntriesOf(RemoveAt(nodes, k)) == RemoveAt(EntriesOf(nodes), k)
  {}

  class SortTimerList {
    var head: UtilTimer?
    var tail: UtilTimer?
    ghost var nodes: seq<UtilTimer>

    /** The links agree with `nodes`. `tail` is left dangling when tick empties the list. */
    ghost predicate Linked()
      reads this, nodes
    {
      && (head == null <==> nodes == [])
      && (nodes != [] ==> head == nodes[0] && tail == nodes[|nodes| - 1] && nodes[0].prev == null && nodes[|nodes| - 1].next == null)
      && (forall i {:trigger nodes[i].next} :: 0 <= i < |nodes| - 1 ==> nodes[i].next == nodes[i + 1])
      && (forall i {:trigger nodes[i].prev} :: 1 <= i < |nodes| ==> nodes[i].prev == nodes[i - 1])
      && (forall i, j :: 0 <= i < j < |nodes| ==> nodes[i] != nodes[j])
    }

    ghost function Entries(): (s: seq<Entry>)
      reads this, nodes
    {
      EntriesOf(nodes)
    }

    ghost predicate Valid()
      reads this, nodes
    {
      Linked() && Sorted(Entries())
    }

    constructor ()
      ensures Valid() && nodes == []
    {
      head, tail := null, null;
      nodes := [];
    }

    /** `timer` is linked in behind the node before `p`; expiry times are not touched. */
    method LinkIn(timer: UtilTimer, prev: UtilTimer, tmp: UtilTimer?, ghost p: nat)
      requires Linked() && timer !in nodes && 0 < p <= |nodes|
      requires prev == nodes[p - 1] && tmp == (if p < |nodes| then nodes[p] else null)
      modifies this, nodes`prev, nodes`next, timer`prev, timer`next
      ensures Linked() && nodes == InsertAt(old(nodes), p, timer)
    {
      if tmp != null {
        prev.next := timer;
        timer.next := tmp;
        tmp.prev := timer;
        timer.prev := prev;
      } else {
        prev.next := timer;
        timer.prev := prev;
        timer.next := null;
        tail := timer;
      }
      nodes := InsertAt(nodes, p, timer);
      assert forall i :: 0 <= i < |nodes| ==> nodes[i] == if i < p then old(nodes)[i] else if i == p then timer else old(nodes)[i - 1];
    }

    /** The private add_timer: behind `first`, which does not expire later than `timer`. */
    method AddBehind(timer: UtilTimer, first: UtilTimer, ghost m: nat)
      requires Valid() && timer !in nodes && m < |nodes| && nodes[m] == first && first.expire <= timer.expire
      modifies this, nodes`prev, nodes`next, timer`prev, timer`next
      ensures Valid() && nodes == InsertAt(old(nodes), Position(old(Entries()), timer.expire), timer)
      ensures Entries() == Insert(old(Entries()), Entry(timer.conn, timer.expire))
    {
      hide Position;
      var prev := first;
      var tmp := prev.next;
      ghost var p := m + 1;
      ghost var s := Entries();
      while tmp != null && !(timer.expire < tmp.expire)
        invariant m < p <= |nodes| && prev == nodes[p - 1] && tmp == (if p < |nodes| then nodes[p] else null)
        invariant prev.expire <= timer.expire
        decreases |nodes| - p
      {
        prev := tmp;
        tmp := tmp.next;
        p := p + 1;
      }
      assert s[p - 1].expire <= timer.expire;
      PositionIs(s, timer.expire, p);
      LinkIn(timer, prev, tmp, p);
      assert EntriesOf(old(nodes)) == s;
      EntriesInsert(old(nodes), p, timer);
      InsertSorted(s, Entry(timer.conn, timer.expire));
    }

    /** add_timer. */
    method AddTimer(timer: UtilTimer)
      requires Valid() && timer !in nodes && timer.prev == null && timer.next == null
      modifies this, nodes`prev, nodes`next, timer`prev, timer`next
      ensures Valid() && nodes == InsertAt(old(nodes), Position(old(Entries()), timer.expire), timer)
      ensures Entries() == Insert(old(Entries()), Entry(timer.conn, timer.expire))
    {
      hide Position;
      ghost var s, x := Entries(), Entry(timer.conn, timer.expire);
      if head == null || timer.expire < head.expire {
        LinkFirst(timer);
        PositionIs(s, timer.expire, 0);
        assert EntriesOf(old(nodes)) == s;
        EntriesInsert(old(nodes), 0, timer);
        InsertSorted(s, x);
        return;
      }
      AddBehind(timer, head, 0);
    }

    /** The two cases in which the timer becomes the head. */
    method LinkFirst(timer: UtilTimer)
      requires Linked() && timer !in nodes && timer.prev == null && timer.next == null
      modifies this, nodes`prev, nodes`next, timer`prev, timer`next
      ensures Linked() && nodes == InsertAt(old(nodes), 0, timer)
    {
      if head == null {
        head, tail := timer, timer;
      } else {
        timer.next := head;
        head.prev := timer;
        head := timer;
      }
      nodes := InsertAt(nodes, 0, timer);
      assert forall i :: 0 <= i < |nodes| ==> nodes[i] == if i == 0 then timer else old(nodes)[i - 1];
    }

    method UnlinkHead()
      requires Linked() && |nodes| > 1
      modifies this, nodes`prev
      ensures Linked() && nodes == RemoveAt(old(nodes), 0) && head == old(nodes)[1]
      ensures Entries() == RemoveAt(old(Entries()), 0)
    {
      head := head.next;
      head.prev := null;
      EntriesRemove(nodes, 0);
      nodes := nodes[1..];
    }

    method UnlinkTail()
      requires Linked() && |nodes| > 1
      modifies this, nodes`next
      ensures Linked() && nodes == RemoveAt(old(nodes), |old(nodes)| - 1)
      ensures Entries() == RemoveAt(old(Entries()), |old(nodes)| - 1)
    {
      tail := tail.prev;
      tail.next := null;
      EntriesRemove(nodes, |nodes| - 1);
      nodes := nodes[..|nodes| - 1];
    }

    method UnlinkInner(timer: UtilTimer, ghost k: nat)
      requires Linked() && 0 < k < |nodes| - 1 && nodes[k] == timer
      modifies this, nodes`prev, nodes`next
      ensures Linked() && nodes == RemoveAt(old(nodes), k) && timer.next == old(nodes)[k + 1]
      ensures Entries() == RemoveAt(old(Entries()), k)
    {
      Bridge(timer, k);
      assert EntriesOf(old(nodes)) == old(Entries());
      EntriesRemove(old(nodes), k);
    }

    /** The two neighbours of `timer` are linked to each other. */
    method Bridge(timer: UtilTimer, ghost k: nat)
      requires Linked() && 0 < k < |nodes| - 1 && nodes[k] == timer
      modifies this, nodes`prev, nodes`next
      ensures Linked() && nodes == RemoveAt(old(nodes), k) && timer.next == old(nodes)[k + 1]
    {
      timer.prev.next := timer.next;
      timer.next.prev := timer.prev;
      nodes := RemoveAt(nodes, k);
      assert forall i :: 0 <= i < |nodes| ==> nodes[i] == if i < k then old(nodes)[i] else old(nodes)[i + 1];
    }

    /** del_timer: exactly this node goes. */
    method DelTimer(timer: UtilTimer, ghost k: nat)
      requires Valid() && k < |nodes| && nodes[k] == timer
      modifies this, nodes`prev, nodes`next
      ensures Valid() && nodes == RemoveAt(old(nodes), k) && Entries() == RemoveAt(old(Entries()), k)
    {
      if timer == head && head == tail {
        head, tail := null, null;
        nodes := [];
        return;
      }
      if timer == head {
        UnlinkHead();
      } else if timer == tail {
        UnlinkTail();
      } else {
        UnlinkInner(timer, k);
      }
      RemoveSorted(old(Entries()), k);
    }

    /** adjust_timer, once the timer has got its new, not earlier, time: it is taken out and put in again. */
    method AdjustTimer(timer: UtilTimer, ghost k: nat)
      requires Linked() && k < |nodes| && nodes[k] == timer && SortedBut(Entries(), k)
      modifies this, nodes`prev, nodes`next
      ensures Valid()
      ensures Entries() == Insert(RemoveAt(old(Entries()), k), old(Entries())[k])
      ensures nodes == InsertAt(RemoveAt(old(nodes), k), Position(RemoveAt(old(Entries()), k), timer.expire), timer)
    {
      hide Position;
      ghost var s := Entries();
      RemoveSorted(s, k);
      var tmp := timer.next;
      if tmp == null || timer.expire < tmp.expire {
        InPlace(s, k);
        assert nodes == InsertAt(RemoveAt(nodes, k), k, timer);
        InsertSorted(RemoveAt(s, k), s[k]);
        return;
      }
      if timer == head {
        MoveHead(timer);
      } else {
        MoveInner(timer, k);
      }
    }

    method MoveHead(timer: UtilTimer)
      requires Linked() && |nodes| > 1 && head == timer && Sorted(RemoveAt(Entries(), 0))
      requires nodes[1].expire <= timer.expire
      modifies this, nodes`prev, nodes`next
      ensures Valid()
      ensures Entries() == Insert(RemoveAt(old(Entries()), 0), old(Entries())[0])
      ensures nodes == InsertAt(RemoveAt(old(nodes), 0), Position(RemoveAt(old(Entries()), 0), timer.expire), timer)
    {
      hide Position, Sorted, Insert;
      UnlinkHead();
      timer.next := null;
      AddBehind(timer, head, 0);
    }

    method MoveInner(timer: UtilTimer, ghost k: nat)
      requires Linked() && 0 < k < |nodes| - 1 && nodes[k] == timer && Sorted(RemoveAt(Entries(), k))
      requires nodes[k + 1].expire <= timer.expire
      modifies this, nodes`prev, nodes`next
      ensures Valid()
      ensures Entries() == Insert(RemoveAt(old(Entries()), k), old(Entries())[k])
      ensures nodes == InsertAt(RemoveAt(old(nodes), k), Position(RemoveAt(old(Entries()), k), timer.expire), timer)
    {
      hide Position, Sorted, Insert;
      UnlinkInner(timer, k);
      AddBehind(timer, timer.next, k);
    }

    /** The first node is dropped, whether or not it is the only one; `tail` is left alone. */
    method DropHead()
      requires Linked() && nodes != []
      modifies this`head, this`nodes, nodes`prev
      ensures Linked() && nodes == old(nodes)[1..] && Entries() == old(Entries())[1..]
    {
      head := head.next;
      if head != null { head.prev := null; }
      nodes := nodes[1..];
    }

    /** tick: the timers that have expired are called back, once each and in order, and dropped. */
    method Tick(cur: int) returns (called: seq<nat>)
      requires Valid()
      modifies this, nodes`prev
      ensures var n := Position(old(Entries()), cur);
        nodes == old(nodes)[n..] && Entries() == old(Entries())[n..] && called == Conns(old(Entries())[..n])
      ensures Valid()
    {
      hide Position;
      called := [];
      ghost var s, n := Entries(), 0;
      var tmp := head;
      while tmp != null
        invariant 0 <= n <= |s| && tmp == head && Linked()
        invariant nodes == old(nodes)[n..] && Entries() == s[n..] && called == Conns(s[..n])
        invariant forall i :: 0 <= i < n ==> s[i].expire <= cur
        decreases |s| - n
      {
        assert s[n] == Entries()[0];
        if cur < tmp.expire { break; }
        called := called + [tmp.conn];
        assert s[..n + 1] == s[..n] + [s[n]];
        DropHead();
        tmp := head;
        n := n + 1;
      }
      PositionIs(s, cur, n);
      assert forall i :: 0 <= i < |s| - n ==> Entries()[i] == s[n + i];
    }
  }
}

/** Sums over the threads of a concurrent system, one of which changes its state. */
module Counting {
  function Sum<T>(ws: seq<T>, f: T -> nat): nat {
    if ws == [] then 0 else f(ws[0]) + Sum(ws[1..], f)
  }

  lemma {:induction false} SumUpdate<T>(ws: seq<T>, f: T -> nat, i: nat, w: T)
    requires i < |ws|
    ensures Sum(ws[i := w], f) + f(ws[i]) == Sum(ws, f) + f(w)
  {
    if i == 0 {
      assert ws[0 := w][1..] == ws[1..];
    } else {
      assert ws[i := w][1..] == ws[1..][i - 1 := w];
      SumUpdate(ws[1..], f, i - 1, w);
    }
  }

  /** At most one each, and none for the one at `i`. */
  lemma {:induction false} SumBelow<T(!new)>(ws: seq<T>, f: T -> nat, i: nat)
    requires i < |ws| && f(ws[i]) == 0 && forall w :: f(w) <= 1
    ensures Sum(ws, f) < |ws|
  {
    if i == 0 {
      SumAtMost(ws[1..], f);
    } else {
      SumBelow(ws[1..], f, i - 1);
    }
  }

  lemma {:induction false} SumAtMost<T(!new)>(ws: seq<T>, f: T -> nat)
    requires forall w :: f(w) <= 1
    ensures Sum(ws, f) <= |ws|
  {
    if ws != [] { SumAtMost(ws[1..], f); }
  }

  lemma {:induction false} SumAtLeast<T>(ws: seq<T>, f: T -> nat, i: nat)
    requires i < |ws|
    ensures f(ws[i]) <= Sum(ws, f)
  {
    if i > 0 { SumAtLeast(ws[1..], f, i - 1); }
  }

  lemma {:induction false} SumAtLeastTwo<T>(ws: seq<T>, f: T -> nat, i: nat, j: nat)
    requires i < j < |ws|
    ensures f(ws[i]) + f(ws[j]) <= Sum(ws, f)
  {
    if i > 0 { SumAtLeastTwo(ws[1..], f, i - 1, j - 1); } else { SumAtLeast(ws[1..], f, j - 1); }
  }

  function Count<T(==)>(s: seq<T>, x: T): nat { multiset(s)[x] }

  lemma CountNone<T>(x: T)
    ensures Count([], x) == 0
  {}

  lemma CountAppend<T>(s: seq<T>, y: T, x: T)
    ensures Count(s + [y], x) == Count(s, x) + if x == y then 1 else 0
  {}

  lemma CountFront<T>(s: seq<T>, x: T)
    requires s != []
    ensures Count(s, x) == Count(s[1..], x) + if x == s[0] then 1 else 0
  {
    assert s == [s[0]] + s[1..];
  }
}

/** Registrations by several workers: the name is looked up first, outside the lock; then, in one lock section, the
    insert query is made and the pair is put in `users`, where a name that is there keeps its password. */
module Registrations {
  import opened CStrings
  import opened Accounts

  datatype Clerk =
    | Idle
    | Asked(name: string, password: string)     // before users.find
    | FoundFree(name: string, password: string) // before m_lock.lock()

  /** `table` is what would be loaded from the rows: of two with one name, the later. `inserted` are the lock sections so
      far; a query that succeeded was answered with the log-in page. */
  datatype Office = Office(users: Users, table: Users, clerks: seq<Clerk>, inserted: seq<Registration>)

  function Start(users: Users, table: Users, n: nat): Office { Office(users, table, seq(n, _ => Idle), []) }

  datatype Action = Ask(i: nat, name: string, password: string) | LookUp(i: nat) | Insert(i: nat, queryOk: bool)

  predicate Enabled(o: Office, a: Action) {
    a.i < |o.clerks| &&
    match a
    case Ask(i, _, _) => o.clerks[i].Idle?
    case LookUp(i) => o.clerks[i].Asked?
    case Insert(i, _) => o.clerks[i].FoundFree?
  }

  function Next(o: Office, a: Action): Office
    requires Enabled(o, a)
  {
    match a
    case Ask(i, name, password) => o.(clerks := o.clerks[i := Asked(name, password)])
    case LookUp(i) =>
      var c := o.clerks[i];
      o.(clerks := o.clerks[i := if c.name in o.users then Idle else FoundFree(c.name, c.password)])
    case Insert(i, queryOk) =>
      var c := o.clerks[i];
      Office(Registered(o.users, c.name, c.password),
             if queryOk then o.table[c.name := c.password] else o.table,
             o.clerks[i := Idle],
             o.inserted + [Registration(c.name, c.password, queryOk)])
  }

  predicate Happens(o: Office, run: seq<Action>)
    decreases |run|
  {
    run == [] || (Enabled(o, run[0]) && Happens(Next(o, run[0]), run[1..]))
  }

  function Run(o: Office, run: seq<Action>): Office
    requires Happens(o, run)
    decreases |run|
  {
    if run == [] then o else Run(Next(o, run[0]), run[1..])
  }

  // ---------------------------------------------------------------- the order of the lock sections

  /** The password of the last query for a name that succeeded. */
  function LastStored(run: seq<Registration>, name: string): Option<string> {
    if run == [] then None
    else
      var r := run[|run| - 1];
      if r.name == name && r.queryOk then Some(r.password) else LastStored(run[..|run| - 1], name)
  }

  lemma {:induction false} AfterOneMore(users: Users, run: seq<Registration>, r: Registration)
    ensures After(users, run + [r]) == Registered(After(users, run), r.name, r.password)
    decreases |run|
  {
    if run == [] {
      assert run + [r] == [r] && [r][1..] == [];
    } else {
      assert (run + [r])[1..] == run[1..] + [r];
      AfterOneMore(Registered(users, run[0].name, run[0].password), run[1..], r);
    }
  }

  /** What the table has for a name, when it had what `users` had. */
  predicate TableIs(users: Users, table: Users, o: Office, name: string) {
    AgreeOn(users, table, name) ==>
      && (name in users ==> name in o.table && o.table[name] == users[name])
      && (name !in users ==> (name in o.table <==> LastStored(o.inserted, name).Some?))
      && (name !in users && name in o.table ==> LastStored(o.inserted, name) == Some(o.table[name]))
  }

  /** `users` is what the registrations leave one after another in the order of their lock sections; only names that
      were free at the start are inserted. */
  ghost predicate Inv(users: Users, table: Users, o: Office) {
    && o.users == After(users, o.inserted)
    && (forall name :: name in users ==> name in o.users)
    && (forall k :: 0 <= k < |o.inserted| ==> o.inserted[k].name !in users)
    && (forall i :: 0 <= i < |o.clerks| && o.clerks[i].FoundFree? ==> o.clerks[i].name !in users)
    && (forall name :: TableIs(users, table, o, name))
  }

  lemma InsertIs(users: Users, table: Users, o: Office, a: Action, name: string)
    requires Inv(users, table, o) && Enabled(o, a) && a.Insert?
    ensures TableIs(users, table, Next(o, a), name)
  {
    hide After, Registered;
    assert TableIs(users, table, o, name);
    var c := o.clerks[a.i];
    var r := Registration(c.name, c.password, a.queryOk);
    assert (o.inserted + [r])[..|o.inserted|] == o.inserted;
  }

  lemma NextKeeps(users: Users, table: Users, o: Office, a: Action)
    requires Inv(users, table, o) && Enabled(o, a)
    ensures Inv(users, table, Next(o, a))
  {
    hide After, TableIs;
    if a.Insert? {
      var c := o.clerks[a.i];
      AfterOneMore(users, o.inserted, Registration(c.name, c.password, a.queryOk));
      forall name ensures TableIs(users, table, Next(o, a), name) { InsertIs(users, table, o, a, name); }
    } else {
      forall name ensures TableIs(users, table, Next(o, a), name) { SameTable(users, table, o, Next(o, a), name); }
    }
  }

  lemma SameTable(users: Users, table: Users, o: Office, o': Office, name: string)
    requires TableIs(users, table, o, name) && o'.table == o.table && o'.inserted == o.inserted
    ensures TableIs(users, table, o', name)
  {}

  lemma {:induction false} RunKeeps(users: Users, table: Users, o: Office, run: seq<Action>)
    requires Inv(users, table, o) && Happens(o, run)
    ensures Inv(users, table, Run(o, run)) && |Run(o, run).clerks| == |o.clerks|
    decreases |run|
  {
    hide Inv;
    if run != [] {
      NextKeeps(users, table, o, run[0]);
      RunKeeps(users, table, Next(o, run[0]), run[1..]);
    }
  }

  lemma StartInv(users: Users, table: Users, n: nat)
    ensures Inv(users, table, Start(users, table, n))
  {}

  /** In every interleaving, `users` is what the same registrations leave one after another, in the order of their lock
      sections; so a login succeeds for the password loaded at the start or, for other names, the first inserted. */
  lemma Serial(users: Users, table: Users, n: nat, run: seq<Action>, name: string, password: string)
    requires Happens(Start(users, table, n), run)
    ensures var o := Run(Start(users, table, n), run);
      && o.users == After(users, o.inserted)
      && (LoginSucceeds(o.users, name, password) <==>
            if name in users then users[name] == password else FirstFor(o.inserted, name) == Some(password))
  {
    hide Happens, Run, After, FirstFor;
    StartInv(users, table, n);
    RunKeeps(users, table, Start(users, table, n), run);
    LoginIff(users, Run(Start(users, table, n), run).inserted, name, password);
  }

  /** In every interleaving, `users` and the table agree on a name exactly if it was there at the start, or the first
      password inserted for it is the last one a successful query stored - or there is neither. */
  lemma TableAgreesIff(users: Users, table: Users, n: nat, run: seq<Action>, name: string)
    requires AgreeOn(users, table, name) && Happens(Start(users, table, n), run)
    ensures var o := Run(Start(users, table, n), run);
      AgreeOn(o.users, o.table, name) <==> name in users || FirstFor(o.inserted, name) == LastStored(o.inserted, name)
  {
    hide Happens, Run, After, FirstFor, LastStored;
    StartInv(users, table, n);
    RunKeeps(users, table, Start(users, table, n), run);
    var o := Run(Start(users, table, n), run);
    assert TableIs(users, table, o, name);
    if name in users { Settled(users, o.inserted, name); } else { FirstIs(users, o.inserted, name); }
  }

  // ---------------------------------------------------------------- nothing is made up

  function PairOf(c: Clerk): (string, string)
    requires !c.Idle?
  {
    (c.name, c.password)
  }

  /** The pairs clerks have and have inserted are of `pairs`. */
  ghost predicate Within(o: Office, pairs: set<(string, string)>) {
    && (forall i :: 0 <= i < |o.clerks| && !o.clerks[i].Idle? ==> PairOf(o.clerks[i]) in pairs)
    && (forall k :: 0 <= k < |o.inserted| ==> (o.inserted[k].name, o.inserted[k].password) in pairs)
  }

  lemma {:induction false} RunWithin(o: Office, run: seq<Action>, pairs: set<(string, string)>)
    requires Happens(o, run) && Within(o, pairs)
    requires forall i :: 0 <= i < |run| && run[i].Ask? ==> (run[i].name, run[i].password) in pairs
    ensures Within(Run(o, run), pairs)
    decreases |run|
  {
    if run != [] {
      assert forall i :: 0 <= i < |run[1..]| ==> run[1..][i] == run[i + 1];
      RunWithin(Next(o, run[0]), run[1..], pairs);
    }
  }

  /** Every pair inserted was asked for in the run. */
  lemma OnlyAsked(users: Users, table: Users, n: nat, run: seq<Action>, k: nat)
    requires Happens(Start(users, table, n), run) && k < |Run(Start(users, table, n), run).inserted|
    ensures var r := Run(Start(users, table, n), run).inserted[k];
      exists i :: 0 <= i < |run| && run[i].Ask? && run[i].name == r.name && run[i].password == r.password
  {
    hide Happens, Run;
    var pairs := set i | 0 <= i < |run| && run[i].Ask? :: (run[i].name, run[i].password);
    RunWithin(Start(users, table, n), run, pairs);
    var r := Run(Start(users, table, n), run).inserted[k];
    assert (r.name, r.password) in pairs;
  }

  // ---------------------------------------------------------------- registrations answered with success

  /** Everybody who was sent to the log-in page can log in. */
  ghost predicate Honest(o: Office) {
    forall k :: 0 <= k < |o.inserted| && o.inserted[k].queryOk ==>
      LoginSucceeds(o.users, o.inserted[k].name, o.inserted[k].password)
  }

  /** One clerk's name is still free when it comes to the lock. */
  ghost predicate StillFree(o: Office) {
    |o.clerks| <= 1 && Honest(o)
    && forall i :: 0 <= i < |o.clerks| && o.clerks[i].FoundFree? ==> o.clerks[i].name !in o.users
  }

  lemma {:induction false} OneClerk(o: Office, run: seq<Action>)
    requires StillFree(o) && Happens(o, run)
    ensures StillFree(Run(o, run))
    decreases |run|
  {
    if run != [] { OneClerk(Next(o, run[0]), run[1..]); }
  }

  /** Two who look a free name up before either inserts it. */
  lemma TwoClerks(users: Users, table: Users, n: nat, name: string) returns (run: seq<Action>)
    requires n > 1 && name !in users
    ensures Happens(Start(users, table, n), run) && !Honest(Run(Start(users, table, n), run))
  {
    var o0 := Start(users, table, n);
    var o1 := Next(o0, Ask(0, name, "x"));
    var o2 := Next(o1, Ask(1, name, "y"));
    var o3 := Next(o2, LookUp(0));
    var o4 := Next(o3, LookUp(1));
    var o5 := Next(o4, Insert(0, true));
    var o6 := Next(o5, Insert(1, true));
    var r6: seq<Action> := [];
    var r5 := [Insert(1, true)] + r6;
    var r4 := [Insert(0, true)] + r5;
    var r3 := [LookUp(1)] + r4;
    var r2 := [LookUp(0)] + r3;
    var r1 := [Ask(1, name, "y")] + r2;
    run := [Ask(0, name, "x")] + r1;
    Prepend(o5, Insert(1, true), r6);
    Prepend(o4, Insert(0, true), r5);
    Prepend(o3, LookUp(1), r4);
    Prepend(o2, LookUp(0), r3);
    Prepend(o1, Ask(1, name, "y"), r2);
    Prepend(o0, Ask(0, name, "x"), r1);
    assert o6.inserted[1] == Registration(name, "y", true) && o6.users[name] == "x";
  }

  lemma Prepend(o: Office, a: Action, run: seq<Action>)
    requires Enabled(o, a) && Happens(Next(o, a), run)
    ensures Happens(o, [a] + run) && Run(o, [a] + run) == Run(Next(o, a), run)
  {
    assert ([a] + run)[1..] == run;
  }

  /** As long as a name is free, everybody sent to the log-in page can log in, in every interleaving, exactly if
      registrations are made by one worker. */
  lemma HonestIff(users: Users, table: Users, n: nat, name: string)
    requires name !in users
    ensures (forall run :: Happens(Start(users, table, n), run) ==> Honest(Run(Start(users, table, n), run))) <==> n <= 1
  {
    hide Happens, Run;
    if n <= 1 {
      forall run | Happens(Start(users, table, n), run) ensures Honest(Run(Start(users, table, n), run)) {
        OneClerk(Start(users, table, n), run);
      }
    } else {
      var run := TwoClerks(users, table, n, name);
    }
  }
}

/**
 Runs over the whole table: handlers of all families, and rows dropped when their time to
 live is over. The index stays exact and every Jupiter ledger stays balanced, because the
 families share the table without sharing a key.
 */
module SessionRuns {
  import opened Wrappers
  import opened SessionTable
  import opened SessionIndex
  import opened JupiterSessions

  datatype TableEvent =
    | OnJupiter(r: Request)
    | OnCreate(f: Family, s: Session)
    | OnRevoke(f: Family, user: string, id: string)
    | OnPolyleverage(user: string, blob: string)
    | OnDrop(key: string)

  function JupiterStep(t: Table, r: Request): Table {
    var put := Decide(JupiterOf(t, r.user), r).put;
    if put.Some? then t[JupiterKey(r.user) := JupiterRow(put.value)] else t
  }

  // Index rows are written without a time to live, so they are never dropped.
  function DropFrom(t: Table, key: string): Table {
    if key in t && !t[key].IndexRow? then t - {key} else t
  }

  function TableStep(t: Table, e: TableEvent): Table {
    match e
    case OnJupiter(r) => JupiterStep(t, r)
    case OnCreate(f, s) => CreateIn(t, f, s)
    case OnRevoke(f, user, id) => RevokeIn(t, f, user, id)
    case OnPolyleverage(user, blob) => t[PolyleverageKey(user) := PolyleverageRow(blob)]
    case OnDrop(key) => DropFrom(t, key)
  }

  function TableAfter(t: Table, es: seq<TableEvent>): Table
    decreases |es|
  {
    if es == [] then t else TableAfter(TableStep(t, es[0]), es[1..])
  }

  // ---------- one step ----------

  lemma JupiterPutFits(t: Table, r: Request)
    requires Typed(t) && Decide(JupiterOf(t, r.user), r).put.Some?
    ensures Decide(JupiterOf(t, r.user), r).put.value.owner == r.user
  {
    if JupiterOf(t, r.user).Some? {
      assert Fits(JupiterKey(r.user), t[JupiterKey(r.user)]);
      KeysInjective(Hl, r.user, JupiterOf(t, r.user).value.owner);
    }
  }

  lemma JupiterStepKeeps(t: Table, r: Request)
    requires Indexed(t)
    ensures Indexed(JupiterStep(t, r))
    ensures forall user :: JupiterOf(JupiterStep(t, r), user)
                        == if user == r.user then After(JupiterOf(t, user), Handled(r)) else JupiterOf(t, user)
  {
    var put := Decide(JupiterOf(t, r.user), r).put;
    if put.Some? {
      JupiterPutFits(t, r);
      OtherReads(t, JupiterKey(r.user), JupiterRow(put.value));
      forall user
        ensures JupiterOf(JupiterStep(t, r), user)
             == if user == r.user then put else JupiterOf(t, user)
      {
        KeysInjective(Hl, user, r.user);
      }
    }
  }

  // Writing a Jupiter or polyleverage row is invisible to sessions and indices.
  lemma OtherReads(t: Table, key: string, row: Row)
    requires Indexed(t) && Fits(key, row) && (row.JupiterRow? || row.PolyleverageRow?)
    ensures Indexed(t[key := row])
    ensures row.PolyleverageRow? ==> forall user :: JupiterOf(t[key := row], user) == JupiterOf(t, user)
  {
    KindOfFitting(key, row);
    var t' := t[key := row];
    forall f, name
      ensures SessionOf(t', f, name) == SessionOf(t, f, name) && IndexOf(t', f, name) == IndexOf(t, f, name)
      ensures row.PolyleverageRow? ==> JupiterOf(t', name) == JupiterOf(t, name)
    {
      KeyKinds(f, name);
    }
  }

  lemma DropKeeps(t: Table, key: string)
    requires Indexed(t)
    ensures Indexed(DropFrom(t, key))
    ensures forall user :: JupiterOf(DropFrom(t, key), user)
                        == if key == JupiterKey(user) then None else JupiterOf(t, user)
  {
    var t' := DropFrom(t, key);
    forall f, name
      ensures IndexOf(t', f, name) == IndexOf(t, f, name)
      ensures SessionOf(t', f, name).Some? ==> SessionOf(t', f, name) == SessionOf(t, f, name)
    {
    }
    forall user ensures key == JupiterKey(user) ==> JupiterOf(t', user) == None {
      TypedReads(t, Hl, user);
    }
  }

  // What a table event does to one user's Jupiter row.
  function JupiterEvents(e: TableEvent, user: string): seq<Event> {
    match e
    case OnJupiter(r) => if r.user == user then [Handled(r)] else []
    case OnDrop(key) => if key == JupiterKey(user) then [Dropped] else []
    case _ => []
  }

  lemma StepKeeps(t: Table, e: TableEvent, user: string)
    requires Indexed(t)
    ensures Indexed(TableStep(t, e))
    ensures JupiterOf(TableStep(t, e), user) == RowAfter(JupiterOf(t, user), JupiterEvents(e, user))
  {
    OneEvent(JupiterOf(t, user), JupiterEvents(e, user));
    match e {
      case OnJupiter(r) => JupiterStepKeeps(t, r);
      case OnCreate(f, s) => CreateKeeps(t, f, s);
      case OnRevoke(f, owner, id) => RevokeKeeps(t, f, owner, id);
      case OnPolyleverage(owner, blob) =>
        KeyKinds(Hl, owner);
        OtherReads(t, PolyleverageKey(owner), PolyleverageRow(blob));
      case OnDrop(key) => DropKeeps(t, key);
    }
  }

  lemma OneEvent(row: Option<JupiterSession>, es: seq<Event>)
    requires |es| <= 1
    ensures RowAfter(row, es) == if es == [] then row else After(row, es[0])
  {
    if es != [] {
      assert es[1..] == [];
    }
  }

  // ---------- what other users can do to a list ----------

  // Who asked for the event. Rows whose time is over are dropped by nobody.
  function Actor(e: TableEvent): string
    requires !e.OnDrop?
  {
    match e
    case OnJupiter(r) => r.user
    case OnCreate(_, s) => s.owner
    case OnRevoke(_, user, _) => user
    case OnPolyleverage(user, _) => user
  }

  function Mine(t: Table, f: Family, user: string, id: string): Option<Session> {
    var row := SessionOf(t, f, id);
    if row.Some? && row.value.owner == user then row else None
  }

  lemma {:induction false} CollectSame(t: Table, u: Table, f: Family, user: string, ids: seq<string>)
    requires forall id :: id in ids ==> Mine(t, f, user, id) == Mine(u, f, user, id)
    ensures Collect(t, f, user, ids) == Collect(u, f, user, ids)
  {
    if ids != [] {
      assert Mine(t, f, user, ids[0]) == Mine(u, f, user, ids[0]);
      assert forall id :: id in ids[1..] ==> id in ids;
      CollectSame(t, u, f, user, ids[1..]);
    }
  }

  lemma SessionsUntouched(t: Table, key: string, row: Row, f: Family, name: string)
    requires Fits(key, row) && (row.JupiterRow? || row.PolyleverageRow?)
    ensures SessionOf(t[key := row], f, name) == SessionOf(t, f, name)
    ensures IndexOf(t[key := row], f, name) == IndexOf(t, f, name)
  {
    KindOfFitting(key, row);
    KeyKinds(f, name);
  }

  // Does the event create a session under an id that names one of the user's?
  predicate TakesOver(t: Table, e: TableEvent, f: Family, user: string) {
    e.OnCreate? && e.f == f && Mine(t, f, user, e.s.id).Some?
  }

  lemma RowsOfOthers(t: Table, e: TableEvent, f: Family, user: string, name: string)
    requires Indexed(t) && !e.OnDrop? && Actor(e) != user && !TakesOver(t, e, f, user)
    ensures Mine(TableStep(t, e), f, user, name) == Mine(t, f, user, name)
    ensures IndexOf(TableStep(t, e), f, user) == IndexOf(t, f, user)
  {
    match e {
      case OnJupiter(r) =>
        var put := Decide(JupiterOf(t, r.user), r).put;
        if put.Some? {
          JupiterPutFits(t, r);
          SessionsUntouched(t, JupiterKey(r.user), JupiterRow(put.value), f, name);
          SessionsUntouched(t, JupiterKey(r.user), JupiterRow(put.value), f, user);
        }
      case OnCreate(g, s) =>
        CreateExactly(t, g, s, f, name);
        CreateExactly(t, g, s, f, user);
      case OnRevoke(g, owner, id) =>
        RevokeExactly(t, g, owner, id, f, name);
        RevokeLeavesIndex(t, g, owner, id, f, user);
      case OnPolyleverage(owner, blob) =>
        KeyKinds(f, owner);
        SessionsUntouched(t, PolyleverageKey(owner), PolyleverageRow(blob), f, name);
        SessionsUntouched(t, PolyleverageKey(owner), PolyleverageRow(blob), f, user);
    }
  }

  lemma RevokeLeavesIndex(t: Table, f: Family, owner: string, id: string, g: Family, user: string)
    requires Indexed(t)
    ensures IndexOf(RevokeIn(t, f, owner, id), g, user) == IndexOf(t, g, user)
  {
    var row := SessionOf(t, f, id);
    if row.Some? && row.value.owner == owner {
      TypedReads(t, f, id);
      PutSession(t, f, row.value.(revoked := true));
    }
  }

  // Another user's event changes a user's list if and only if it creates a session under the id
  // of one of the user's, which it takes out of the list.
  lemma ListIsolated(t: Table, e: TableEvent, f: Family, user: string)
    requires Indexed(t) && !e.OnDrop? && Actor(e) != user
    ensures List(TableStep(t, e), f, user) != List(t, f, user) <==> TakesOver(t, e, f, user)
  {
    if TakesOver(t, e, f, user) {
      var lost := SessionOf(t, f, e.s.id).value;
      TypedReads(t, f, e.s.id);
      CreateKeeps(t, f, e.s);
      ListIsScan(t, f, user);
      ListIsScan(TableStep(t, e), f, user);
      assert lost in List(t, f, user) && lost !in List(TableStep(t, e), f, user);
    } else {
      forall name ensures Mine(TableStep(t, e), f, user, name) == Mine(t, f, user, name) {
        RowsOfOthers(t, e, f, user, name);
      }
      RowsOfOthers(t, e, f, user, "");
      CollectSame(TableStep(t, e), t, f, user, IndexOf(t, f, user));
    }
  }

  // ---------- whole runs ----------

  function AllJupiterEvents(es: seq<TableEvent>, user: string): seq<Event> {
    if es == [] then [] else JupiterEvents(es[0], user) + AllJupiterEvents(es[1..], user)
  }

  lemma {:induction false} RowAfterConcat(row: Option<JupiterSession>, es: seq<Event>, fs: seq<Event>)
    ensures RowAfter(row, es + fs) == RowAfter(RowAfter(row, es), fs)
    decreases |es|
  {
    if es == [] {
      assert es + fs == fs;
    } else {
      assert (es + fs)[1..] == es[1..] + fs;
      RowAfterConcat(After(row, es[0]), es[1..], fs);
    }
  }

  // Every run keeps the index invariant, and moves each user's Jupiter row by that user's own
  // events only.
  lemma {:induction false} RunKeeps(t: Table, es: seq<TableEvent>, user: string)
    requires Indexed(t)
    ensures Indexed(TableAfter(t, es))
    ensures JupiterOf(TableAfter(t, es), user) == RowAfter(JupiterOf(t, user), AllJupiterEvents(es, user))
    decreases |es|
  {
    if es != [] {
      StepKeeps(t, es[0], user);
      RunKeeps(TableStep(t, es[0]), es[1..], user);
      RowAfterConcat(JupiterOf(t, user), JupiterEvents(es[0], user), AllJupiterEvents(es[1..], user));
    }
  }

  lemma EmptyIndexed()
    ensures Indexed(map[])
  {
  }

  // From an empty table on, after any run, every list is exactly the scan of the table.
  lemma ListsStayExact(es: seq<TableEvent>, f: Family, user: string)
    ensures var t := TableAfter(map[], es);
            && (forall s :: s in List(t, f, user) <==> SessionOf(t, f, s.id) == Some(s) && s.owner == user)
            && (forall i, j :: 0 <= i < j < |List(t, f, user)| ==> List(t, f, user)[i].id != List(t, f, user)[j].id)
            && Distinct(IndexOf(t, f, user)) && Typed(t)
  {
    EmptyIndexed();
    RunKeeps(map[], es, user);
    ListIsScan(TableAfter(map[], es), f, user);
  }

  // And every user's counter is the sum of that user's debits since the row was created,
  // whatever the other users and session families do to the table meanwhile.
  lemma LedgersStayBalanced(es: seq<TableEvent>, user: string)
    ensures var mine := AllJupiterEvents(es, user);
            Balanced(BooksAfter(CLOSED, None, mine), JupiterOf(TableAfter(map[], es), user))
  {
    EmptyIndexed();
    RunKeeps(map[], es, user);
    assert JupiterOf(map[], user) == None;
    Conservation(CLOSED, None, AllJupiterEvents(es, user));
  }
}

/**
 The handlers over the stored table, as gets, changes and puts.
 */
module SessionHandlers {
  import opened Wrappers
  import opened Decimals
  import opened SessionTable
  import opened SessionIndex
  import opened JupiterSessions
  import opened SessionRuns

  class SessionStore {
    var rows: Table

    // What every handler keeps: rows fit their keys, and the indices are complete.
    ghost predicate Valid()
      reads this
    {
      Indexed(rows)
    }

    constructor ()
      ensures Valid() && rows == map[]
    {
      rows := map[];
      new;
      EmptyIndexed();
    }

    method Get(key: string) returns (row: Option<Row>)
      ensures row == if key in rows then Some(rows[key]) else None
    {
      row := if key in rows then Some(rows[key]) else None;
    }

    method Put(key: string, row: Row)
      modifies this
      ensures rows == old(rows)[key := row]
    {
      rows := rows[key := row];
    }

    // Typed reads. A row of another type would be a storage error, but no key family
    // collides with another, so there is none.
    method GetJupiter(user: string) returns (r: Option<JupiterSession>)
      requires Typed(rows)
      ensures r == JupiterOf(rows, user)
    {
      TypedReads(rows, Hl, user);
      r := None;
      var row := Get(JupiterKey(user));
      match row {
        case None =>
        case Some(JupiterRow(s)) => r := Some(s);
        case _ => assert false;
      }
    }

    method GetSession(f: Family, id: string) returns (r: Option<Session>)
      requires Typed(rows)
      ensures r == SessionOf(rows, f, id)
    {
      TypedReads(rows, f, id);
      r := None;
      var row := Get(SessionKey(f, id));
      match row {
        case None =>
        case Some(SessionRow(_, s)) => r := Some(s);
        case _ => assert false;
      }
    }

    method GetIndex(f: Family, user: string) returns (r: seq<string>)
      requires Typed(rows)
      ensures r == IndexOf(rows, f, user)
    {
      TypedReads(rows, f, user);
      r := [];
      var row := Get(IndexKey(f, user));
      match row {
        case None =>
        case Some(IndexRow(_, ids)) => r := ids;
        case _ => assert false;
      }
    }

    // ---------- Jupiter ----------

    method SessionUpsert(r: Request) returns (v: Verdict)
      requires Valid() && r.Upsert?
      modifies this
      ensures Valid() && rows == JupiterStep(old(rows), r)
      ensures v == Decide(JupiterOf(old(rows), r.user), r).verdict
    {
      JupiterStepKeeps(rows, r);
      if r.delegate.None? {
        return BadPubkey;
      }
      var prior := GetJupiter(r.user);
      var used := if prior.Some? then prior.value.used else "0";
      var createdAt := if prior.Some? then prior.value.createdAt else r.now;
      var session := JupiterSession(r.user, r.delegate.value, r.perIntentMax, r.cap, used, r.assets,
                                    r.expiresAt, createdAt, false, r.surface);
      Put(JupiterKey(r.user), JupiterRow(session));
      return Stored;
    }

    method SessionRevoke(r: Request) returns (v: Verdict)
      requires Valid() && r.Revoke?
      modifies this
      ensures Valid() && rows == JupiterStep(old(rows), r)
      ensures v == Decide(JupiterOf(old(rows), r.user), r).verdict
    {
      JupiterStepKeeps(rows, r);
      var got := GetJupiter(r.user);
      match got {
        case None => return NoRow;
        case Some(s) =>
          Put(JupiterKey(r.user), JupiterRow(s.(revoked := true)));
          return Stored;
      }
    }

    // The session-bound part of signing: debit first, then let the caller sign.
    method DebitForSign(r: Request) returns (v: Verdict)
      requires Valid() && r.Sign?
      modifies this
      ensures Valid() && rows == JupiterStep(old(rows), r)
      ensures v == Decide(JupiterOf(old(rows), r.user), r).verdict
    {
      JupiterStepKeeps(rows, r);
      var got := GetJupiter(r.user);
      match got {
        case None => return Unbounded;
        case Some(session) =>
          var verdict := CheckBounds(session, r.asset, r.size, r.now);
          if verdict.Debited? {
            Put(JupiterKey(r.user), JupiterRow(session.(used := Numeral(verdict.used))));
          }
          return verdict;
      }
    }

    // ---------- Hyperliquid and generic sessions ----------

    method Create(f: Family, s: Session)
      requires Valid()
      modifies this
      ensures Valid() && rows == CreateIn(old(rows), f, s)
    {
      CreateKeeps(rows, f, s);
      StillTyped(rows, f, s);
      Put(SessionKey(f, s.id), SessionRow(f, s));
      var ids := GetIndex(f, s.owner);
      if s.id !in ids {
        Put(IndexKey(f, s.owner), IndexRow(f, ids + [s.id]));
      }
    }

    lemma StillTyped(t: Table, f: Family, s: Session)
      requires Typed(t)
      ensures Typed(t[SessionKey(f, s.id) := SessionRow(f, s)])
    {
    }

    method RevokeSession(f: Family, user: string, id: string) returns (revoked: bool)
      requires Valid()
      modifies this
      ensures Valid() && rows == RevokeIn(old(rows), f, user, id)
      ensures revoked <==> SessionOf(old(rows), f, id).Some? && SessionOf(old(rows), f, id).value.owner == user
    {
      RevokeKeeps(rows, f, user, id);
      var got := GetSession(f, id);
      match got {
        case None => return false;
        case Some(s) =>
          if s.owner != user {
            return false;
          }
          Put(SessionKey(f, id), SessionRow(f, s.(revoked := true)));
          return true;
      }
    }

    // One row, for its owner only: a session can be fetched exactly if it is listed.
    method GetOwned(f: Family, user: string, id: string) returns (r: Option<Session>)
      requires Valid()
      ensures r.Some? ==> r.value.id == id && r.value in List(rows, f, user)
      ensures r.None? ==> forall s :: s in List(rows, f, user) ==> s.id != id
    {
      ListIsScan(rows, f, user);
      TypedReads(rows, f, id);
      var row := GetSession(f, id);
      return if row.Some? && row.value.owner == user then row else None;
    }

    method ListSessions(f: Family, user: string) returns (sessions: seq<Session>)
      requires Valid()
      ensures sessions == List(rows, f, user)
    {
      var ids := GetIndex(f, user);
      sessions := [];
      assert ids[0..] == ids;
      for i := 0 to |ids|
        invariant sessions + Collect(rows, f, user, ids[i..]) == List(rows, f, user)
      {
        CollectStep(rows, f, user, ids, i, sessions);
        var row := GetSession(f, ids[i]);
        if row.Some? && row.value.owner == user {
          sessions := sessions + [row.value];
        }
      }
      assert ids[|ids|..] == [];
    }

    lemma CollectStep(t: Table, f: Family, user: string, ids: seq<string>, i: nat, done: seq<Session>)
      requires i < |ids|
      ensures var row := SessionOf(t, f, ids[i]);
              var next := if row.Some? && row.value.owner == user then done + [row.value] else done;
              done + Collect(t, f, user, ids[i..]) == next + Collect(t, f, user, ids[i + 1..])
    {
      assert ids[i..][1..] == ids[i + 1..];
    }
  }
}

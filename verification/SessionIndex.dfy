/**
 The per-user index of Hyperliquid and generic sessions (crates/server/src/routes/hl_session.rs
 and generic_session.rs): it must agree with a scan of the whole table, whatever else the
 table holds and whoever reuses an id.
 */
module SessionIndex {
  import opened Wrappers
  import opened SessionTable

  // ---------- the handlers as functions ----------

  function CreateIn(t: Table, f: Family, s: Session): Table {
    var t1 := t[SessionKey(f, s.id) := SessionRow(f, s)];
    var ids := IndexOf(t1, f, s.owner);
    if s.id in ids then t1 else t1[IndexKey(f, s.owner) := IndexRow(f, ids + [s.id])]
  }

  function RevokeIn(t: Table, f: Family, user: string, id: string): Table {
    var row := SessionOf(t, f, id);
    if row.Some? && row.value.owner == user then
      t[SessionKey(f, id) := SessionRow(f, row.value.(revoked := true))]
    else t
  }

  // The rows of the listed ids that exist and are owned by the user.
  function Collect(t: Table, f: Family, user: string, ids: seq<string>): seq<Session> {
    if ids == [] then []
    else
      var row := SessionOf(t, f, ids[0]);
      (if row.Some? && row.value.owner == user then [row.value] else []) + Collect(t, f, user, ids[1..])
  }

  function List(t: Table, f: Family, user: string): seq<Session> {
    Collect(t, f, user, IndexOf(t, f, user))
  }

  // ---------- the invariant ----------

  predicate Distinct(ids: seq<string>) {
    forall i, j :: 0 <= i < j < |ids| ==> ids[i] != ids[j]
  }

  ghost predicate Indexed(t: Table) {
    && Typed(t)
    && (forall f, user :: Distinct(IndexOf(t, f, user)))
    && (forall f, id :: SessionOf(t, f, id).Some? ==> id in IndexOf(t, f, SessionOf(t, f, id).value.owner))
  }

  // ---------- what one put leaves alone ----------

  lemma PutSession(t: Table, f: Family, s: Session)
    requires Typed(t)
    ensures var t' := t[SessionKey(f, s.id) := SessionRow(f, s)];
            && Typed(t')
            && (forall g, id :: SessionOf(t', g, id) == if g == f && id == s.id then Some(s) else SessionOf(t, g, id))
            && (forall g, user :: IndexOf(t', g, user) == IndexOf(t, g, user))
            && (forall user :: JupiterOf(t', user) == JupiterOf(t, user))
  {
    var t' := t[SessionKey(f, s.id) := SessionRow(f, s)];
    forall g, id
      ensures SessionOf(t', g, id) == if g == f && id == s.id then Some(s) else SessionOf(t, g, id)
    {
      KeyKinds(g, id);
      KeyKinds(f, s.id);
      KeysInjective(f, id, s.id);
    }
    forall g, user ensures IndexOf(t', g, user) == IndexOf(t, g, user) {
      KeyKinds(g, user);
      KeyKinds(f, s.id);
    }
    forall user ensures JupiterOf(t', user) == JupiterOf(t, user) {
      KeyKinds(f, user);
      KeyKinds(f, s.id);
    }
  }

  lemma PutIndex(t: Table, f: Family, owner: string, ids: seq<string>)
    requires Typed(t)
    ensures var t' := t[IndexKey(f, owner) := IndexRow(f, ids)];
            && Typed(t')
            && (forall g, id :: SessionOf(t', g, id) == SessionOf(t, g, id))
            && (forall g, user :: IndexOf(t', g, user) == if g == f && user == owner then ids else IndexOf(t, g, user))
            && (forall user :: JupiterOf(t', user) == JupiterOf(t, user))
  {
    var t' := t[IndexKey(f, owner) := IndexRow(f, ids)];
    KeyKinds(f, owner);
    forall g, id ensures SessionOf(t', g, id) == SessionOf(t, g, id) {
      KeyKinds(g, id);
    }
    forall g, user
      ensures IndexOf(t', g, user) == if g == f && user == owner then ids else IndexOf(t, g, user)
    {
      KeyKinds(g, user);
      KeysInjective(f, user, owner);
    }
    forall user ensures JupiterOf(t', user) == JupiterOf(t, user) {
      KeyKinds(f, user);
    }
  }

  // ---------- the invariant is kept ----------

  lemma CreateKeeps(t: Table, f: Family, s: Session)
    requires Indexed(t)
    ensures Indexed(CreateIn(t, f, s))
    ensures SessionOf(CreateIn(t, f, s), f, s.id) == Some(s)
    ensures forall user :: JupiterOf(CreateIn(t, f, s), user) == JupiterOf(t, user)
  {
    var t1 := t[SessionKey(f, s.id) := SessionRow(f, s)];
    PutSession(t, f, s);
    var ids := IndexOf(t1, f, s.owner);
    if s.id !in ids {
      PutIndex(t1, f, s.owner, ids + [s.id]);
    }
  }

  lemma RevokeKeeps(t: Table, f: Family, user: string, id: string)
    requires Indexed(t)
    ensures Indexed(RevokeIn(t, f, user, id))
    ensures forall other :: JupiterOf(RevokeIn(t, f, user, id), other) == JupiterOf(t, other)
  {
    var row := SessionOf(t, f, id);
    if row.Some? && row.value.owner == user {
      TypedReads(t, f, id);
      PutSession(t, f, row.value.(revoked := true));
    }
  }

  // Creating stores exactly that session, adds its id to exactly the owner's index, at the end
  // and only if it is new there, and changes no other session or index.
  lemma CreateExactly(t: Table, f: Family, s: Session, g: Family, name: string)
    requires Indexed(t)
    ensures SessionOf(CreateIn(t, f, s), g, name) == if g == f && name == s.id then Some(s) else SessionOf(t, g, name)
    ensures IndexOf(CreateIn(t, f, s), g, name)
         == if g == f && name == s.owner && s.id !in IndexOf(t, f, s.owner) then IndexOf(t, g, name) + [s.id]
            else IndexOf(t, g, name)
  {
    var t1 := t[SessionKey(f, s.id) := SessionRow(f, s)];
    PutSession(t, f, s);
    PutIndex(t1, f, s.owner, IndexOf(t, f, s.owner) + [s.id]);
  }

  // Revoking marks exactly the caller's own session, and nothing of anyone else.
  lemma RevokeExactly(t: Table, f: Family, user: string, id: string, g: Family, other: string)
    requires Indexed(t)
    ensures var before, after := SessionOf(t, g, other), SessionOf(RevokeIn(t, f, user, id), g, other);
            if g == f && other == id && before.Some? && before.value.owner == user
            then after == Some(before.value.(revoked := true)) else after == before
  {
    var row := SessionOf(t, f, id);
    if row.Some? && row.value.owner == user {
      TypedReads(t, f, id);
      PutSession(t, f, row.value.(revoked := true));
    }
  }

  // ---------- the list is the scan ----------

  lemma {:induction false} CollectExact(t: Table, f: Family, user: string, ids: seq<string>)
    requires Typed(t) && Distinct(ids)
    ensures forall s :: s in Collect(t, f, user, ids) <==> s.id in ids && SessionOf(t, f, s.id) == Some(s) && s.owner == user
    ensures forall i, j :: 0 <= i < j < |Collect(t, f, user, ids)| ==>
              Collect(t, f, user, ids)[i].id != Collect(t, f, user, ids)[j].id
  {
    if ids != [] {
      var rest := Collect(t, f, user, ids[1..]);
      CollectExact(t, f, user, ids[1..]);
      TypedReads(t, f, ids[0]);
      assert ids[0] !in ids[1..];
      forall s
        ensures s in Collect(t, f, user, ids)
           <==> s.id in ids && SessionOf(t, f, s.id) == Some(s) && s.owner == user
      {
        assert s.id in ids <==> s.id == ids[0] || s.id in ids[1..];
      }
      assert forall i :: 0 <= i < |rest| ==> rest[i] in rest;
    }
  }

  // A user's list holds exactly the sessions of the table that the user owns, each once.
  lemma ListIsScan(t: Table, f: Family, user: string)
    requires Indexed(t)
    ensures forall s :: s in List(t, f, user) <==> SessionOf(t, f, s.id) == Some(s) && s.owner == user
    ensures forall i, j :: 0 <= i < j < |List(t, f, user)| ==> List(t, f, user)[i].id != List(t, f, user)[j].id
  {
    CollectExact(t, f, user, IndexOf(t, f, user));
  }
}

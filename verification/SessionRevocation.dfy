/**
 Revoking a session while signatures are in flight. A handler that has read the row before
 the revoke was stored writes its copy back, and the copy is not revoked.
 */
module SessionRevocation {
  import opened JupiterSessions
  import opened SessionInterleaving

  predicate IsRevoked(rows: Rows, user: string) { user in rows && rows[user].revoked }

  // Does this step write a row that is not revoked? It does if it finishes an upsert, or a
  // signature, which is debited only from a row that it has read as not revoked.
  predicate Revives(w: World, a: Action, user: string)
    requires Enabled(w, a)
  {
    a.Write? && w.pending[a.pid].r.user == user && !w.pending[a.pid].r.Revoke?
  }

  // A signature that waits to write has seen the row before it was revoked; and if the row is
  // revoked by now, it has been overtaken.
  lemma SignersAreStale(w: World, pid: nat)
    requires Coherent(w) && pid in w.pending && w.pending[pid].r.Sign?
    ensures var p := w.pending[pid];
            && p.seen.Some? && !p.seen.value.revoked
            && (IsRevoked(w.rows, p.r.user) ==> p.overtaken)
  {
  }

  // One step, in any interleaving: a revoked row stays revoked exactly unless the step writes
  // for an upsert or a signature.
  lemma RevivedExactly(w: World, a: Action, user: string)
    requires Coherent(w) && Enabled(w, a) && IsRevoked(w.rows, user)
    ensures IsRevoked(Act(w, a).rows, user) <==> !Revives(w, a, user)
  {
    if a.Write? {
      match w.pending[a.pid].r {
        case Sign(_, _, _, _) => SignersAreStale(w, a.pid);
        case _ =>
      }
    }
  }

  // ---------- whole runs ----------

  predicate AlwaysRevoked(w: World, actions: seq<Action>, user: string)
    requires Runnable(w, actions)
    decreases |actions|
  {
    IsRevoked(w.rows, user) && (actions == [] || AlwaysRevoked(Act(w, actions[0]), actions[1..], user))
  }

  predicate NeverRevived(w: World, actions: seq<Action>, user: string)
    requires Runnable(w, actions)
    decreases |actions|
  {
    actions == [] || (!Revives(w, actions[0], user) && NeverRevived(Act(w, actions[0]), actions[1..], user))
  }

  lemma {:induction false} RunRevivedExactly(w: World, actions: seq<Action>, user: string)
    requires Coherent(w) && Runnable(w, actions) && IsRevoked(w.rows, user)
    ensures AlwaysRevoked(w, actions, user) <==> NeverRevived(w, actions, user)
    decreases |actions|
  {
    if actions != [] {
      CoherentStep(w, actions[0]);
      RevivedExactly(w, actions[0], user);
      if IsRevoked(Act(w, actions[0]).rows, user) {
        RunRevivedExactly(Act(w, actions[0]), actions[1..], user);
      }
    }
  }

  // A signature of the user that is in flight.
  predicate InFlight(w: World, pid: nat, user: string) {
    pid in w.pending && w.pending[pid].r.user == user && w.pending[pid].r.Sign?
  }

  // No upsert of the user is in flight, nor starts during the run.
  predicate NoUpsert(w: World, actions: seq<Action>, user: string) {
    && (forall pid :: pid in w.pending && w.pending[pid].r.user == user ==> !w.pending[pid].r.Upsert?)
    && (forall a :: a in actions && a.Read? && a.r.user == user ==> !a.r.Upsert?)
  }

  predicate NoSignatureFinishes(w: World, actions: seq<Action>, user: string) {
    forall pid :: pid in w.pending && InFlight(w, pid, user) ==> Write(pid) !in actions
  }

  // While the row is revoked, no signature gets into flight.
  lemma FlightsOnlyEnd(w: World, a: Action, user: string)
    requires Coherent(w) && Enabled(w, a) && IsRevoked(w.rows, user) && !Revives(w, a, user)
    ensures forall pid :: InFlight(Act(w, a), pid, user) <==> InFlight(w, pid, user)
  {
    if a.Read? && a.r.Sign? && a.r.user == user {
      assert Act(w, a).pending == w.pending;
    }
  }

  lemma NoUpsertStays(w: World, a: Action, actions: seq<Action>, user: string)
    requires Enabled(w, a) && NoUpsert(w, [a] + actions, user)
    ensures NoUpsert(Act(w, a), actions, user)
  {
    assert a in [a] + actions;
    assert forall b :: b in actions ==> b in [a] + actions;
  }

  // Once a revoke is stored, and until the next upsert, the row stays revoked in every
  // interleaving if and only if none of the signatures then in flight gets to write.
  lemma {:induction false} FrozenExactly(w: World, actions: seq<Action>, user: string)
    requires Coherent(w) && Runnable(w, actions) && IsRevoked(w.rows, user) && NoUpsert(w, actions, user)
    ensures AlwaysRevoked(w, actions, user) <==> NoSignatureFinishes(w, actions, user)
    decreases |actions|
  {
    if actions != [] {
      var a, rest := actions[0], actions[1..];
      assert [a] + rest == actions;
      CoherentStep(w, a);
      RevivedExactly(w, a, user);
      if Revives(w, a, user) {
        assert InFlight(w, a.pid, user) && a == Write(a.pid);
      } else {
        FlightsOnlyEnd(w, a, user);
        NoUpsertStays(w, a, rest, user);
        FrozenExactly(Act(w, a), rest, user);
        assert forall pid :: InFlight(w, pid, user) ==> (Write(pid) in actions <==> Write(pid) in rest);
      }
    }
  }

  // ---------- a revoke that is undone ----------

  function Crossing(r: Request): seq<Action> { [Read(0, r), Read(1, Revoke(r.user)), Write(1), Write(0)] }

  lemma CrossingWrites(rows: Rows, r: Request)
    requires Debits(rows, r)
    ensures var row := RowOf(rows, r.user);
            var q := Revoke(r.user);
            var p, o := Pending(r, row, false, 0, 0), Pending(q, row, false, 0, 0);
            var w2 := World(rows, rows, map[0 := p, 1 := o], {0, 1}, [], map[]);
            var w3 := World(rows, rows[r.user := row.value.(revoked := true)], map[0 := p.(overtaken := true)],
                            {0, 1}, [Done(q, Stored, false)], map[r.user := o]);
            && row.Some? && Act(w2, Write(1)) == w3
            && Act(w3, Write(0)).log == [Done(q, Stored, false), Done(r, Decide(row, r).verdict, true)]
            && Act(w3, Write(0)).rows == rows[r.user := Decide(row, r).put.value]
  {
    var row := RowOf(rows, r.user);
    var p := Pending(r, row, false, 0, 0);
    var pending := map[0 := p, 1 := Pending(Revoke(r.user), row, false, 0, 0)];
    assert Overtake(pending - {1}, r.user, 0) == map[0 := p.(overtaken := true)];
  }

  // The signature reads, the revoke is stored and reported so, and the signature writes: the
  // trade is debited, and the session is live again.
  lemma RevokeUndone(rows: Rows, r: Request)
    requires Debits(rows, r)
    ensures Runnable(Start(rows), Crossing(r))
    ensures var w := Run(Start(rows), Crossing(r));
            && w.log == [Done(Revoke(r.user), Stored, false), Done(r, Decide(RowOf(rows, r.user), r).verdict, true)]
            && r.user in w.rows && !IsRevoked(w.rows, r.user)
  {
    BothRead(rows, r, Revoke(r.user));
    CrossingWrites(rows, r);
    DebitWithinBounds(RowOf(rows, r.user), r);
    var w1 := Act(Start(rows), Read(0, r));
    var w2 := Act(w1, Read(1, Revoke(r.user)));
    FourSteps(Start(rows), Read(0, r), Read(1, Revoke(r.user)), Write(1), Write(0), w1, w2, Act(w2, Write(1)));
  }
}

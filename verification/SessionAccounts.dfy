/**
 The spend counter in every interleaving: by how much it falls short of what was debited, when
 it does not, and how much can be debited at most.
 */
module SessionAccounts {
  import opened Wrappers
  import opened SessionTable
  import opened JupiterSessions
  import opened SessionInterleaving

  // A put carries on the counter it has seen, plus its own debit.
  lemma PutCounter(row: Option<JupiterSession>, r: Request, late: bool)
    requires Decide(row, r).put.Some?
    ensures CounterOf(Decide(row, r).put)
         == CounterOf(row) + SessionInterleaving.DebitOf(Done(r, Decide(row, r).verdict, late), r.user)
  {
    match r {
      case Sign(_, _, _, _) => DebitWithinBounds(row, r);
      case Upsert(_, _, _, _, _, _, _, _) =>
        CounterRoundTrip(0);
        assert Decimals.Numeral(0) == "0";
      case Revoke(_) =>
    }
  }

  lemma DebitedSnoc(log: seq<Done>, d: Done, user: string)
    ensures DebitedIn(log + [d], user) == DebitedIn(log, user) + SessionInterleaving.DebitOf(d, user)
  {
    assert (log + [d])[..|log|] == log;
  }

  // ---------- the gap ----------

  // The user's debits so far, less the counter that a handler has seen.
  function Shortfall(w: World, p: Pending): int {
    CounterOf(RowOf(w.start, p.r.user)) + DebitedIn(w.log, p.r.user) - CounterOf(p.seen)
  }

  // What every handler has noted adds up to its shortfall, and the gap of a ledger is the sum
  // noted by the handler that wrote it last.
  predicate Tracked(w: World) {
    && (forall pid :: pid in w.pending ==>
          w.pending[pid].gap >= 0 && w.pending[pid].gap + w.pending[pid].since == Shortfall(w, w.pending[pid]))
    && (forall user :: user in w.writer ==>
          w.writer[user].gap >= 0 && Gap(w, user) == w.writer[user].gap + w.writer[user].since)
  }

  ghost predicate UntouchedEven(w: World) {
    forall user :: user !in w.writer ==> Gap(w, user) == 0
  }

  // The recurrence: after a put the gap is what it was when the handler read, plus the sizes
  // debited from the user in between.
  lemma GapAfterWrite(w: World, pid: nat)
    requires Coherent(w) && Tracked(w) && pid in w.pending
    ensures Gap(Act(w, Write(pid)), w.pending[pid].r.user) == w.pending[pid].gap + w.pending[pid].since
  {
    var p := w.pending[pid];
    var d := Decide(p.seen, p.r);
    PutCounter(p.seen, p.r, p.overtaken);
    DebitedSnoc(w.log, Done(p.r, d.verdict, p.overtaken), p.r.user);
  }

  // A read stores nothing, and logs at most a refusal.
  lemma ReadStoresNothing(w: World, a: Action)
    requires Enabled(w, a) && a.Read?
    ensures var w' := Act(w, a);
            w'.start == w.start && w'.rows == w.rows && w'.writer == w.writer
            && (w'.log == w.log || exists d: Done :: w'.log == w.log + [d] && d.r == a.r && !d.verdict.Debited? && !d.late)
  {
    var d := Decide(RowOf(w.rows, a.r.user), a.r);
    if d.put.None? {
      NoPutNoDebit(RowOf(w.rows, a.r.user), a.r);
      assert Act(w, a).log == w.log + [Done(a.r, d.verdict, false)];
    }
  }

  lemma NoPutNoDebit(row: Option<JupiterSession>, r: Request)
    requires Decide(row, r).put.None?
    ensures !Decide(row, r).verdict.Debited?
  {
  }

  lemma ReadKeepsGap(w: World, a: Action, user: string)
    requires Enabled(w, a) && a.Read?
    ensures Gap(Act(w, a), user) == Gap(w, user) && DebitedIn(Act(w, a).log, user) == DebitedIn(w.log, user)
  {
    var w' := Act(w, a);
    ReadStoresNothing(w, a);
    LogKeepsGap(w, w', user);
  }

  lemma LogKeepsGap(w: World, w': World, user: string)
    requires w'.start == w.start && w'.rows == w.rows
    requires w'.log == w.log || exists d: Done :: w'.log == w.log + [d] && !d.verdict.Debited?
    ensures Gap(w', user) == Gap(w, user) && DebitedIn(w'.log, user) == DebitedIn(w.log, user)
  {
    if w'.log != w.log {
      var d: Done :| w'.log == w.log + [d] && !d.verdict.Debited?;
      DebitedSnoc(w.log, d, user);
    }
  }

  lemma OtherGaps(w: World, pid: nat, user: string)
    requires Coherent(w) && pid in w.pending && w.pending[pid].r.user != user
    ensures Gap(Act(w, Write(pid)), user) == Gap(w, user)
    ensures DebitedIn(Act(w, Write(pid)).log, user) == DebitedIn(w.log, user)
  {
    var p := w.pending[pid];
    var w' := Act(w, Write(pid));
    var done := Done(p.r, Decide(p.seen, p.r).verdict, p.overtaken);
    assert w'.start == w.start && w'.log == w.log + [done] && RowOf(w'.rows, user) == RowOf(w.rows, user);
    DebitedSnoc(w.log, done, user);
  }

  lemma TrackedRead(w: World, a: Action)
    requires Coherent(w) && Tracked(w) && UntouchedEven(w) && Enabled(w, a) && a.Read?
    ensures Tracked(Act(w, a)) && UntouchedEven(Act(w, a))
  {
    var w' := Act(w, a);
    forall user ensures Gap(w', user) == Gap(w, user) && DebitedIn(w'.log, user) == DebitedIn(w.log, user) {
      ReadKeepsGap(w, a, user);
    }
    forall pid | pid in w'.pending
      ensures var p := w'.pending[pid]; p.gap >= 0 && p.gap + p.since == Shortfall(w', p)
    {
      if pid !in w.pending {
        assert w'.pending[pid].gap == Gap(w, a.r.user) && w'.pending[pid].since == 0;
      } else {
        assert w'.pending[pid] == w.pending[pid];
      }
    }
  }

  lemma Overtaken(w: World, pid: nat, other: nat)
    requires Coherent(w) && pid in w.pending && other in w.pending && other != pid
    ensures var w' := Act(w, Write(pid));
            var p, o := w.pending[pid], w.pending[other];
            var done := Done(p.r, Decide(p.seen, p.r).verdict, p.overtaken);
            && w'.start == w.start && w'.log == w.log + [done] && other in w'.pending
            && w'.pending[other].r == o.r && w'.pending[other].seen == o.seen && w'.pending[other].gap == o.gap
            && w'.pending[other].since == o.since + SessionInterleaving.DebitOf(done, o.r.user)
  {
  }

  lemma PendingTracked(w: World, pid: nat, other: nat)
    requires Coherent(w) && Tracked(w) && pid in w.pending && other in w.pending && other != pid
    ensures var w' := Act(w, Write(pid));
            && other in w'.pending && w'.pending[other].gap >= 0
            && w'.pending[other].gap + w'.pending[other].since == Shortfall(w', w'.pending[other])
  {
    var p, o := w.pending[pid], w.pending[other];
    Overtaken(w, pid, other);
    DebitedSnoc(w.log, Done(p.r, Decide(p.seen, p.r).verdict, p.overtaken), o.r.user);
  }

  lemma TrackedWrite(w: World, pid: nat)
    requires Coherent(w) && Tracked(w) && UntouchedEven(w) && pid in w.pending
    ensures Tracked(Act(w, Write(pid))) && UntouchedEven(Act(w, Write(pid)))
  {
    var w' := Act(w, Write(pid));
    GapAfterWrite(w, pid);
    forall user | user != w.pending[pid].r.user ensures Gap(w', user) == Gap(w, user) {
      OtherGaps(w, pid, user);
    }
    forall other | other in w'.pending
      ensures w'.pending[other].gap >= 0
      ensures w'.pending[other].gap + w'.pending[other].since == Shortfall(w', w'.pending[other])
    {
      PendingTracked(w, pid, other);
    }
  }

  lemma {:induction false} AlwaysTracked(w: World, actions: seq<Action>)
    requires Coherent(w) && Tracked(w) && UntouchedEven(w) && Runnable(w, actions)
    ensures var v := Run(w, actions); Coherent(v) && Tracked(v) && UntouchedEven(v)
    decreases |actions|
  {
    if actions != [] {
      CoherentStep(w, actions[0]);
      if actions[0].Read? {
        TrackedRead(w, actions[0]);
      } else {
        TrackedWrite(w, actions[0].pid);
      }
      AlwaysTracked(Act(w, actions[0]), actions[1..]);
    }
  }

  // Conservation, exactly, in every interleaving of any number of handlers: a counter ends at
  // its start plus all debits if and only if the handler that wrote it last had read it without
  // a gap, and nothing was debited between its read and its write.
  lemma ConservedExactly(rows: Rows, actions: seq<Action>, user: string)
    requires Runnable(Start(rows), actions)
    ensures var w := Run(Start(rows), actions);
            CounterOf(RowOf(w.rows, user)) == CounterOf(RowOf(rows, user)) + DebitedIn(w.log, user)
            <==> user !in w.writer || (w.writer[user].gap == 0 && w.writer[user].since == 0)
  {
    AlwaysTracked(Start(rows), actions);
    StartKept(Start(rows), actions);
  }

  lemma {:induction false} StartKept(w: World, actions: seq<Action>)
    requires Runnable(w, actions)
    ensures Run(w, actions).start == w.start
    decreases |actions|
  {
    if actions != [] {
      StartKept(Act(w, actions[0]), actions[1..]);
    }
  }

  // ---------- the bound ----------

  // How many of a user's requests wrote after being overtaken.
  function LateWrites(log: seq<Done>, user: string): nat {
    if log == [] then 0
    else LateWrites(log[..|log| - 1], user) + (if log[|log| - 1].r.user == user && log[|log| - 1].late then 1 else 0)
  }

  function CapIn(row: Option<JupiterSession>): nat {
    if row.Some? then AmountOf(row.value.cap) else 0
  }

  // The largest cap registered for a user, the initial row included.
  function LargestCap(row: Option<JupiterSession>, log: seq<Done>, user: string): nat {
    if log == [] then Max(CounterOf(row), CapIn(row))
    else
      var d := log[|log| - 1];
      var before := LargestCap(row, log[..|log| - 1], user);
      if d.r.user == user && d.r.Upsert? && d.verdict.Stored? then Max(before, AmountOf(d.r.cap)) else before
  }

  function Limit(w: World, user: string): nat { LargestCap(RowOf(w.start, user), w.log, user) }

  lemma LogSnoc(row: Option<JupiterSession>, log: seq<Done>, d: Done, user: string)
    ensures LateWrites(log + [d], user) == LateWrites(log, user) + (if d.r.user == user && d.late then 1 else 0)
    ensures LargestCap(row, log + [d], user)
         == (var before := LargestCap(row, log, user);
             if d.r.user == user && d.r.Upsert? && d.verdict.Stored? then Max(before, AmountOf(d.r.cap)) else before)
  {
    assert (log + [d])[..|log|] == log;
  }

  predicate WithinLimit(row: Option<JupiterSession>, limit: nat) { CounterOf(row) <= limit && CapIn(row) <= limit }

  // Rows, those stored and those seen, are within the largest cap, and every late write widens
  // the gap by that much at most.
  ghost predicate Limited(w: World) {
    && (forall user :: WithinLimit(RowOf(w.rows, user), Limit(w, user)))
    && (forall pid :: pid in w.pending ==> WithinLimit(w.pending[pid].seen, Limit(w, w.pending[pid].r.user)))
    && (forall user :: Gap(w, user) <= LateWrites(w.log, user) * Limit(w, user))
  }

  lemma PutWithinLimit(row: Option<JupiterSession>, r: Request, limit: nat)
    requires WithinLimit(row, limit) && Decide(row, r).put.Some?
    ensures WithinLimit(Decide(row, r).put, if r.Upsert? then Max(limit, AmountOf(r.cap)) else limit)
  {
    PutCounter(row, r, false);
    if r.Sign? {
      DebitWithinBounds(row, r);
    }
  }

  lemma WiderGap(gap: int, counter: nat, late: nat, limit: nat, gapAfter: int, lateAfter: nat, limitAfter: nat)
    requires gap <= late * limit && counter <= limit <= limitAfter
    requires (lateAfter == late && gapAfter == gap) || (lateAfter == late + 1 && gapAfter <= gap + counter)
    ensures gapAfter <= lateAfter * limitAfter
  {
    assert late * limit <= late * limitAfter;
  }

  // A put that was not overtaken leaves the gap as it is; another widens it by the counter it
  // replaces at most.
  lemma GapMoves(w: World, pid: nat)
    requires Coherent(w) && Tracked(w) && pid in w.pending
    ensures var p := w.pending[pid];
            var after := Gap(Act(w, Write(pid)), p.r.user);
            if p.overtaken then after <= Gap(w, p.r.user) + CounterOf(RowOf(w.rows, p.r.user)) else after == Gap(w, p.r.user)
  {
    GapAfterWrite(w, pid);
  }

  lemma ReadKeepsLimit(w: World, a: Action, user: string)
    requires Coherent(w) && Enabled(w, a) && a.Read?
    ensures var w' := Act(w, a);
            && Gap(w', user) == Gap(w, user) && Limit(w', user) == Limit(w, user)
            && LateWrites(w'.log, user) == LateWrites(w.log, user)
  {
    ReadKeepsGap(w, a, user);
    var d := Decide(RowOf(w.rows, a.r.user), a.r);
    LogSnoc(RowOf(w.start, user), w.log, Done(a.r, d.verdict, false), user);
    if d.put.None? && a.r.Upsert? {
      assert a.r.delegate.None?;
    }
  }

  lemma LimitedRead(w: World, a: Action)
    requires Coherent(w) && Limited(w) && Enabled(w, a) && a.Read?
    ensures Limited(Act(w, a))
  {
    forall user
      ensures var w' := Act(w, a);
              && Gap(w', user) == Gap(w, user) && Limit(w', user) == Limit(w, user)
              && LateWrites(w'.log, user) == LateWrites(w.log, user)
    {
      ReadKeepsLimit(w, a, user);
    }
  }

  lemma LimitedOther(w: World, pid: nat, user: string)
    requires Coherent(w) && pid in w.pending && user != w.pending[pid].r.user
    ensures var w' := Act(w, Write(pid));
            && Gap(w', user) == Gap(w, user) && Limit(w', user) == Limit(w, user)
            && LateWrites(w'.log, user) == LateWrites(w.log, user)
  {
    var p := w.pending[pid];
    OtherGaps(w, pid, user);
    LogSnoc(RowOf(w.start, user), w.log, Done(p.r, Decide(p.seen, p.r).verdict, p.overtaken), user);
  }

  lemma LimitGrows(w: World, pid: nat)
    requires Coherent(w) && pid in w.pending
    ensures var p := w.pending[pid];
            var w' := Act(w, Write(pid));
            && Limit(w', p.r.user) == (if p.r.Upsert? then Max(Limit(w, p.r.user), AmountOf(p.r.cap)) else Limit(w, p.r.user))
            && LateWrites(w'.log, p.r.user) == LateWrites(w.log, p.r.user) + (if p.overtaken then 1 else 0)
  {
    var p := w.pending[pid];
    LogSnoc(RowOf(w.start, p.r.user), w.log, Done(p.r, Decide(p.seen, p.r).verdict, p.overtaken), p.r.user);
  }

  lemma LimitedWriter(w: World, pid: nat)
    requires Coherent(w) && Tracked(w) && Limited(w) && pid in w.pending
    ensures var user := w.pending[pid].r.user;
            var w' := Act(w, Write(pid));
            && Limit(w, user) <= Limit(w', user) && WithinLimit(RowOf(w'.rows, user), Limit(w', user))
            && Gap(w', user) <= LateWrites(w'.log, user) * Limit(w', user)
  {
    var p := w.pending[pid];
    var user := p.r.user;
    var limit := Limit(w, user);
    var w' := Act(w, Write(pid));
    LimitGrows(w, pid);
    PutWithinLimit(p.seen, p.r, limit);
    GapMoves(w, pid);
    WiderGap(Gap(w, user), CounterOf(RowOf(w.rows, user)), LateWrites(w.log, user), limit,
             Gap(w', user), LateWrites(w'.log, user), Limit(w', user));
  }

  lemma PendingWithin(w: World, pid: nat, other: nat)
    requires Coherent(w) && Tracked(w) && Limited(w) && pid in w.pending && other in w.pending && other != pid
    ensures var w' := Act(w, Write(pid));
            other in w'.pending && WithinLimit(w'.pending[other].seen, Limit(w', w'.pending[other].r.user))
  {
    assert WithinLimit(w.pending[other].seen, Limit(w, w.pending[other].r.user));
    Overtaken(w, pid, other);
    if w.pending[other].r.user == w.pending[pid].r.user {
      LimitGrows(w, pid);
    } else {
      LimitedOther(w, pid, w.pending[other].r.user);
    }
  }

  lemma UserWithin(w: World, pid: nat, user: string)
    requires Coherent(w) && Tracked(w) && Limited(w) && pid in w.pending
    ensures var w' := Act(w, Write(pid));
            WithinLimit(RowOf(w'.rows, user), Limit(w', user)) && Gap(w', user) <= LateWrites(w'.log, user) * Limit(w', user)
  {
    if user == w.pending[pid].r.user {
      LimitedWriter(w, pid);
    } else {
      LimitedOther(w, pid, user);
    }
  }

  lemma LimitedWrite(w: World, pid: nat)
    requires Coherent(w) && Tracked(w) && Limited(w) && pid in w.pending
    ensures Limited(Act(w, Write(pid)))
  {
    var w' := Act(w, Write(pid));
    forall user
      ensures WithinLimit(RowOf(w'.rows, user), Limit(w', user))
      ensures Gap(w', user) <= LateWrites(w'.log, user) * Limit(w', user)
    {
      UserWithin(w, pid, user);
    }
    forall other | other in w'.pending
      ensures WithinLimit(w'.pending[other].seen, Limit(w', w'.pending[other].r.user))
    {
      PendingWithin(w, pid, other);
    }
  }

  lemma {:induction false} AlwaysLimited(w: World, actions: seq<Action>)
    requires Coherent(w) && Tracked(w) && UntouchedEven(w) && Limited(w) && Runnable(w, actions)
    ensures Limited(Run(w, actions))
    decreases |actions|
  {
    if actions != [] {
      CoherentStep(w, actions[0]);
      if actions[0].Read? {
        TrackedRead(w, actions[0]);
        LimitedRead(w, actions[0]);
      } else {
        TrackedWrite(w, actions[0].pid);
        LimitedWrite(w, actions[0].pid);
      }
      AlwaysLimited(Act(w, actions[0]), actions[1..]);
    }
  }

  lemma StartSound(rows: Rows)
    ensures var w := Start(rows); Coherent(w) && Tracked(w) && UntouchedEven(w) && Limited(w)
  {
    var w := Start(rows);
    forall user ensures Gap(w, user) == 0 <= LateWrites(w.log, user) * Limit(w, user) {
      assert LateWrites(w.log, user) == 0;
    }
  }

  // What a limited world says of one user.
  lemma LimitedUser(w: World, user: string)
    requires Limited(w)
    ensures CounterOf(RowOf(w.start, user)) + DebitedIn(w.log, user) <= (1 + LateWrites(w.log, user)) * Limit(w, user)
  {
    assert WithinLimit(RowOf(w.rows, user), Limit(w, user));
    BoundFromGap(CounterOf(RowOf(w.start, user)) + DebitedIn(w.log, user), CounterOf(RowOf(w.rows, user)),
                 LateWrites(w.log, user), Limit(w, user));
  }

  lemma BoundFromGap(total: nat, counter: nat, late: nat, limit: nat)
    requires total - counter <= late * limit && counter <= limit
    ensures total <= (1 + late) * limit
  {
  }

  // However handlers overlap, a user is debited at most the largest cap registered, once and
  // once more for every write that was overtaken.
  lemma DebitsBounded(rows: Rows, actions: seq<Action>, user: string)
    requires Runnable(Start(rows), actions)
    ensures var w := Run(Start(rows), actions);
            CounterOf(RowOf(rows, user)) + DebitedIn(w.log, user)
            <= (1 + LateWrites(w.log, user)) * LargestCap(RowOf(rows, user), w.log, user)
  {
    StartSound(rows);
    AlwaysLimited(Start(rows), actions);
    StartKept(Start(rows), actions);
    LimitedUser(Run(Start(rows), actions), user);
  }
}

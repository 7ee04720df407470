/**
 The handlers as they run: the read and the write of one request are separate steps, and
 steps of other requests fall between them. No conditional write protects the row, so runs
 without overlap are exactly serial ones and overlapping ones are not.
 */
module SessionInterleaving {
  import opened Wrappers
  import opened SessionTable
  import opened JupiterSessions

  type Rows = map<string, JupiterSession>

  // A handler between its read and its write: the row it saw, and whether another handler
  // has written the same key since. For the accounts it also notes the gap of the user's
  // ledger when it read, and the sizes debited from the user since.
  datatype Pending = Pending(r: Request, seen: Option<JupiterSession>, overtaken: bool, gap: int, since: nat)

  // A request that is over, in the order of completion, and whether it was overtaken.
  datatype Done = Done(r: Request, verdict: Verdict, late: bool)

  datatype World = World(
    start: Rows,
    rows: Rows,
    pending: map<nat, Pending>,
    used: set<nat>,
    log: seq<Done>,
    writer: map<string, Pending>)

  // Handler pid reads the row, and finishes if it has nothing to write; or writes.
  datatype Action = Read(pid: nat, r: Request) | Write(pid: nat)

  function RowOf(rows: Rows, user: string): Option<JupiterSession> {
    if user in rows then Some(rows[user]) else None
  }

  predicate Enabled(w: World, a: Action) {
    match a
    case Read(pid, _) => pid !in w.used
    case Write(pid) => pid in w.pending
  }

  // ---------- the ledger of a user ----------

  function CounterOf(row: Option<JupiterSession>): nat {
    if row.Some? then AmountOf(row.value.used) else 0
  }

  function DebitOf(d: Done, user: string): nat {
    if d.r.user == user && d.r.Sign? && d.verdict.Debited? then d.r.size else 0
  }

  // The sizes of a user's debited trades.
  function DebitedIn(log: seq<Done>, user: string): nat {
    if log == [] then 0 else DebitedIn(log[..|log| - 1], user) + DebitOf(log[|log| - 1], user)
  }

  // What the stored counter falls short of the debits.
  function Gap(w: World, user: string): int {
    CounterOf(RowOf(w.start, user)) + DebitedIn(w.log, user) - CounterOf(RowOf(w.rows, user))
  }

  // ---------- steps ----------

  // Every other handler that has read this user's row is now overtaken.
  function Overtake(pending: map<nat, Pending>, user: string, debit: nat): (p: map<nat, Pending>)
    ensures p.Keys == pending.Keys
  {
    map pid | pid in pending ::
      if pending[pid].r.user == user then pending[pid].(overtaken := true, since := pending[pid].since + debit)
      else pending[pid]
  }

  function Act(w: World, a: Action): World
    requires Enabled(w, a)
  {
    match a
    case Read(pid, r) =>
      var d := Decide(RowOf(w.rows, r.user), r);
      if d.put.None? then w.(used := w.used + {pid}, log := w.log + [Done(r, d.verdict, false)])
      else w.(used := w.used + {pid},
              pending := w.pending[pid := Pending(r, RowOf(w.rows, r.user), false, Gap(w, r.user), 0)])
    case Write(pid) =>
      var p := w.pending[pid];
      var d := Decide(p.seen, p.r);
      var done := Done(p.r, d.verdict, p.overtaken);
      if d.put.None? then w
      else w.(rows := w.rows[p.r.user := d.put.value],
              pending := Overtake(w.pending - {pid}, p.r.user, DebitOf(done, p.r.user)),
              log := w.log + [done],
              writer := w.writer[p.r.user := p])
  }

  predicate Runnable(w: World, actions: seq<Action>)
    decreases |actions|
  {
    actions == [] || (Enabled(w, actions[0]) && Runnable(Act(w, actions[0]), actions[1..]))
  }

  function Run(w: World, actions: seq<Action>): World
    requires Runnable(w, actions)
    decreases |actions|
  {
    if actions == [] then w else Run(Act(w, actions[0]), actions[1..])
  }

  // Four steps, one after another.
  lemma FourSteps(w0: World, a: Action, b: Action, c: Action, d: Action, w1: World, w2: World, w3: World)
    requires Enabled(w0, a) && Act(w0, a) == w1 && Enabled(w1, b) && Act(w1, b) == w2
    requires Enabled(w2, c) && Act(w2, c) == w3 && Enabled(w3, d)
    ensures Runnable(w0, [a, b, c, d]) && Run(w0, [a, b, c, d]) == Act(w3, d)
  {
    OneStep(w3, d, []);
    OneStep(w2, c, [d]);
    OneStep(w1, b, [c, d]);
    OneStep(w0, a, [b, c, d]);
    assert [a] + [b, c, d] == [a, b, c, d] && [b] + [c, d] == [b, c, d] && [c] + [d] == [c, d] && [d] + [] == [d];
  }

  lemma OneStep(w: World, a: Action, rest: seq<Action>)
    requires Enabled(w, a) && Runnable(Act(w, a), rest)
    ensures Runnable(w, [a] + rest) && Run(w, [a] + rest) == Run(Act(w, a), rest)
  {
    assert ([a] + rest)[1..] == rest;
  }

  // ---------- serial execution ----------

  function SerialStep(rows: Rows, r: Request): Rows {
    var put := Decide(RowOf(rows, r.user), r).put;
    if put.Some? then rows[r.user := put.value] else rows
  }

  // The requests of the log handled one after another, each reading what the last one wrote:
  // do the verdicts agree, and which rows are left?
  predicate SerialVerdicts(rows: Rows, log: seq<Done>)
    decreases |log|
  {
    log == [] ||
    (Decide(RowOf(rows, log[0].r.user), log[0].r).verdict == log[0].verdict
     && SerialVerdicts(SerialStep(rows, log[0].r), log[1..]))
  }

  function SerialRows(rows: Rows, log: seq<Done>): Rows
    decreases |log|
  {
    if log == [] then rows else SerialRows(SerialStep(rows, log[0].r), log[1..])
  }

  lemma {:induction false} SerialSnoc(rows: Rows, log: seq<Done>, d: Done)
    ensures SerialRows(rows, log + [d]) == SerialStep(SerialRows(rows, log), d.r)
    ensures SerialVerdicts(rows, log + [d]) <==>
              SerialVerdicts(rows, log)
              && Decide(RowOf(SerialRows(rows, log), d.r.user), d.r).verdict == d.verdict
    decreases |log|
  {
    if log == [] {
      assert [d][1..] == [];
      assert log + [d] == [d];
    } else {
      assert (log + [d])[1..] == log[1..] + [d];
      SerialSnoc(SerialStep(rows, log[0].r), log[1..], d);
    }
  }

  // ---------- serialisability ----------

  // No handler writes after another one has written the same key since its read.
  predicate Undisturbed(w: World, actions: seq<Action>)
    requires Runnable(w, actions)
    decreases |actions|
  {
    actions == [] ||
    ((actions[0].Write? ==> !w.pending[actions[0].pid].overtaken)
     && Undisturbed(Act(w, actions[0]), actions[1..]))
  }

  // A handler that has not been overtaken has seen the current row, and every handler that
  // waits has something to write.
  predicate Coherent(w: World) {
    forall pid :: pid in w.pending ==>
      var p := w.pending[pid];
      && pid in w.used && Decide(p.seen, p.r).put.Some?
      && (!p.overtaken ==> p.seen == RowOf(w.rows, p.r.user))
  }

  lemma CoherentStep(w: World, a: Action)
    requires Coherent(w) && Enabled(w, a)
    ensures Coherent(Act(w, a))
  {
    if a.Write? {
      var p := w.pending[a.pid];
      var w' := Act(w, a);
      forall pid | pid in w'.pending
        ensures var q := w'.pending[pid];
                pid in w'.used && Decide(q.seen, q.r).put.Some? && (!q.overtaken ==> q.seen == RowOf(w'.rows, q.r.user))
      {
        assert pid in w.pending;
      }
    }
  }

  // The log read serially from `start` gives its own verdicts and the present rows.
  predicate Serial(start: Rows, w: World) {
    SerialVerdicts(start, w.log) && SerialRows(start, w.log) == w.rows
  }

  lemma SerialStepHolds(start: Rows, w: World, a: Action)
    requires Coherent(w) && Serial(start, w) && Enabled(w, a)
    requires a.Write? ==> !w.pending[a.pid].overtaken
    ensures Serial(start, Act(w, a))
  {
    match a {
      case Read(pid, r) =>
        SerialSnoc(start, w.log, Done(r, Decide(RowOf(w.rows, r.user), r).verdict, false));
      case Write(pid) =>
        var p := w.pending[pid];
        SerialSnoc(start, w.log, Done(p.r, Decide(p.seen, p.r).verdict, p.overtaken));
    }
  }

  // In a run where no other write to a key falls between a handler's read and its write, all
  // verdicts and all rows are those of the serial run in order of writing (of reading, for
  // handlers that do not write).
  lemma {:induction false} Serialisable(start: Rows, w: World, actions: seq<Action>)
    requires Coherent(w) && Serial(start, w) && Runnable(w, actions) && Undisturbed(w, actions)
    ensures Serial(start, Run(w, actions))
    decreases |actions|
  {
    if actions != [] {
      CoherentStep(w, actions[0]);
      SerialStepHolds(start, w, actions[0]);
      Serialisable(start, Act(w, actions[0]), actions[1..]);
    }
  }

  function Start(rows: Rows): World { World(rows, rows, map[], {}, [], map[]) }

  lemma RunsAreSerialisable(rows: Rows, actions: seq<Action>)
    requires Runnable(Start(rows), actions) && Undisturbed(Start(rows), actions)
    ensures Serial(rows, Run(Start(rows), actions))
  {
    Serialisable(rows, Start(rows), actions);
  }

  // ---------- conservation, for runs without overlap ----------

  // The requests of one user, in the order of the log.
  function EventsOf(log: seq<Done>, user: string): seq<Event>
    decreases |log|
  {
    if log == [] then []
    else (if log[0].r.user == user then [Handled(log[0].r)] else []) + EventsOf(log[1..], user)
  }

  lemma {:induction false} SerialProjection(rows: Rows, log: seq<Done>, user: string)
    ensures RowOf(SerialRows(rows, log), user) == RowAfter(RowOf(rows, user), EventsOf(log, user))
    decreases |log|
  {
    if log != [] {
      var rest := EventsOf(log[1..], user);
      SerialProjection(SerialStep(rows, log[0].r), log[1..], user);
      if log[0].r.user == user {
        assert EventsOf(log, user)[1..] == rest;
      } else {
        assert EventsOf(log, user) == rest;
      }
    }
  }

  // When no two handlers overlap on a key, every user's counter is the sum of the sizes
  // debited, in whatever order requests of all users complete.
  lemma ConservationWithoutOverlap(rows: Rows, actions: seq<Action>, user: string, b: Books)
    requires Runnable(Start(rows), actions) && Undisturbed(Start(rows), actions)
    requires Balanced(b, RowOf(rows, user))
    ensures var w := Run(Start(rows), actions);
            Balanced(BooksAfter(b, RowOf(rows, user), EventsOf(w.log, user)), RowOf(w.rows, user))
  {
    var w := Run(Start(rows), actions);
    RunsAreSerialisable(rows, actions);
    SerialProjection(rows, w.log, user);
    Conservation(b, RowOf(rows, user), EventsOf(w.log, user));
  }

  // ---------- what overlapping runs keep ----------

  predicate Readable(s: JupiterSession) {
    ParseU128(s.used).Some?
  }

  predicate WithinCap(s: JupiterSession) {
    Readable(s) && ParseU128(s.cap).Some? && ParseU128(s.used).value <= ParseU128(s.cap).value
  }

  // Every counter can be read, and a row last written by a signature is within its own cap.
  predicate Sane(w: World) {
    && (forall user :: user in w.rows ==> Readable(w.rows[user]))
    && (forall pid :: pid in w.pending && w.pending[pid].seen.Some? ==> Readable(w.pending[pid].seen.value))
    && (forall user :: user in w.writer && w.writer[user].r.Sign? ==> user in w.rows && WithinCap(w.rows[user]))
  }

  lemma PutIsReadable(row: Option<JupiterSession>, r: Request)
    requires row.Some? ==> Readable(row.value)
    requires Decide(row, r).put.Some?
    ensures Readable(Decide(row, r).put.value)
    ensures r.Sign? ==> WithinCap(Decide(row, r).put.value)
  {
    match r {
      case Sign(_, _, _, _) => DebitWithinBounds(row, r);
      case Upsert(_, _, _, _, _, _, _, _) =>
        CounterRoundTrip(0);
        assert Decimals.Numeral(0) == "0";
      case Revoke(_) =>
    }
  }

  lemma SaneStep(w: World, a: Action)
    requires Sane(w) && Enabled(w, a)
    ensures Sane(Act(w, a))
  {
    if a.Write? && Decide(w.pending[a.pid].seen, w.pending[a.pid].r).put.Some? {
      SaneWrite(w, a.pid);
    }
  }

  lemma SaneWrite(w: World, pid: nat)
    requires Sane(w) && pid in w.pending && Decide(w.pending[pid].seen, w.pending[pid].r).put.Some?
    ensures Sane(Act(w, Write(pid)))
  {
    var p := w.pending[pid];
    var put := Decide(p.seen, p.r).put.value;
    var w' := Act(w, Write(pid));
    PutIsReadable(p.seen, p.r);
    assert w'.rows == w.rows[p.r.user := put] && w'.writer == w.writer[p.r.user := p];
    forall other | other in w'.pending && w'.pending[other].seen.Some? ensures Readable(w'.pending[other].seen.value) {
      assert other in w.pending && w'.pending[other].seen == w.pending[other].seen;
    }
  }

  // However the steps overlap.
  lemma {:induction false} AlwaysSane(w: World, actions: seq<Action>)
    requires Sane(w) && Runnable(w, actions)
    ensures Sane(Run(w, actions))
    decreases |actions|
  {
    if actions != [] {
      SaneStep(w, actions[0]);
      AlwaysSane(Act(w, actions[0]), actions[1..]);
    }
  }

  // ---------- and what they do not ----------

  // Two signatures of one user that overlap: the second handler is overtaken by the first.
  function Overlap(r: Request, q: Request): seq<Action> { [Read(0, r), Read(1, q), Write(0), Write(1)] }

  predicate Debits(rows: Rows, r: Request) {
    r.Sign? && Decide(RowOf(rows, r.user), r).verdict.Debited?
  }

  // Two handlers read before either writes.
  lemma BothRead(rows: Rows, r: Request, q: Request)
    requires Decide(RowOf(rows, r.user), r).put.Some? && Decide(RowOf(rows, q.user), q).put.Some?
    ensures var p, o := Pending(r, RowOf(rows, r.user), false, 0, 0), Pending(q, RowOf(rows, q.user), false, 0, 0);
            var w1 := World(rows, rows, map[0 := p], {0}, [], map[]);
            && Act(Start(rows), Read(0, r)) == w1
            && Act(w1, Read(1, q)) == World(rows, rows, map[0 := p, 1 := o], {0, 1}, [], map[])
  {
    var p := Pending(r, RowOf(rows, r.user), false, 0, 0);
    ReadWaits(Start(rows), 0, r);
    assert Start(rows).used + {0} == {0} && Start(rows).pending[0 := p] == map[0 := p];
    var w1 := World(rows, rows, map[0 := p], {0}, [], map[]);
    ReadWaits(w1, 1, q);
    assert w1.used + {1} == {0, 1};
  }

  lemma ReadWaits(w: World, pid: nat, r: Request)
    requires pid !in w.used && Decide(RowOf(w.rows, r.user), r).put.Some?
    requires w.start == w.rows && w.log == []
    ensures Act(w, Read(pid, r))
         == w.(used := w.used + {pid}, pending := w.pending[pid := Pending(r, RowOf(w.rows, r.user), false, 0, 0)])
  {
    assert Gap(w, r.user) == 0;
  }

  lemma OverlapWrites(rows: Rows, r: Request, q: Request)
    requires Debits(rows, r) && Debits(rows, q) && r.user == q.user
    ensures var row := RowOf(rows, r.user);
            var d, e := Decide(row, r), Decide(row, q);
            var p, o := Pending(r, row, false, 0, 0), Pending(q, row, false, 0, 0);
            var w2 := World(rows, rows, map[0 := p, 1 := o], {0, 1}, [], map[]);
            var w3 := World(rows, rows[r.user := d.put.value], map[1 := o.(overtaken := true, since := r.size)],
                            {0, 1}, [Done(r, d.verdict, false)], map[r.user := p]);
            && Act(w2, Write(0)) == w3
            && Act(w3, Write(1)).log == [Done(r, d.verdict, false), Done(q, e.verdict, true)]
            && Act(w3, Write(1)).rows == rows[r.user := e.put.value]
  {
    var row := RowOf(rows, r.user);
    var o := Pending(q, row, false, 0, 0);
    var pending := map[0 := Pending(r, row, false, 0, 0), 1 := o];
    assert Overtake(pending - {0}, r.user, r.size) == map[1 := o.(overtaken := true, since := r.size)];
  }

  // Both are debited from the same counter value, and the first debit is lost: whenever two
  // trades fit one by one, both can be signed while the counter moves by the second size only.
  lemma LostDebit(rows: Rows, r: Request, q: Request)
    requires Debits(rows, r) && Debits(rows, q) && r.user == q.user
    ensures var row := RowOf(rows, r.user);
            && Runnable(Start(rows), Overlap(r, q))
            && !Undisturbed(Start(rows), Overlap(r, q))
            && var w := Run(Start(rows), Overlap(r, q));
               && w.log == [Done(r, Decide(row, r).verdict, false), Done(q, Decide(row, q).verdict, true)]
               && row.Some? && ParseU128(row.value.used).Some? && RowOf(w.rows, r.user).Some?
               && ParseU128(RowOf(w.rows, r.user).value.used) == Some(ParseU128(row.value.used).value + q.size)
  {
    DebitWithinBounds(RowOf(rows, r.user), q);
    OverlapRun(rows, r, q);
    LateIsDisturbed(Start(rows), Overlap(r, q));
  }

  lemma OverlapRun(rows: Rows, r: Request, q: Request)
    requires Debits(rows, r) && Debits(rows, q) && r.user == q.user
    ensures var row := RowOf(rows, r.user);
            && Runnable(Start(rows), Overlap(r, q))
            && var w := Run(Start(rows), Overlap(r, q));
               && w.log == [Done(r, Decide(row, r).verdict, false), Done(q, Decide(row, q).verdict, true)]
               && Decide(row, q).put.Some? && w.rows == rows[r.user := Decide(row, q).put.value]
  {
    BothRead(rows, r, q);
    OverlapWrites(rows, r, q);
    var w1 := Act(Start(rows), Read(0, r));
    var w2 := Act(w1, Read(1, q));
    FourSteps(Start(rows), Read(0, r), Read(1, q), Write(0), Write(1), w1, w2, Act(w2, Write(0)));
  }

  // A run without disturbance logs no late write.
  lemma {:induction false} LateIsDisturbed(w: World, actions: seq<Action>)
    requires Runnable(w, actions)
    ensures Undisturbed(w, actions) && (forall d :: d in w.log ==> !d.late) ==>
              forall d :: d in Run(w, actions).log ==> !d.late
    decreases |actions|
  {
    if actions != [] {
      LateIsDisturbed(Act(w, actions[0]), actions[1..]);
    }
  }
}

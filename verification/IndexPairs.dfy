/**
 Two creates of one family over all schedules of their steps: exactly which schedules lose an
 entry of the index.
 */
module IndexPairs {
  import opened Wrappers
  import opened SessionTable
  import opened SessionIndex
  import opened IndexSteps

  // The sessions that handlers 0 and 1 create.
  datatype Pair = Pair(f: Family, a: Session, b: Session)

  function Of(c: Pair, pid: nat): Session { if pid == 0 then c.a else c.b }

  function Other(pid: nat): nat { if pid == 0 then 1 else 0 }

  predicate OfPair(c: Pair, x: Action) {
    match x
    case PutRow(pid, f, s) => pid < 2 && f == c.f && s == Of(c, pid)
    case GetIndex(pid) => pid < 2
    case WriteIndex(pid) => pid < 2
    case _ => false
  }

  predicate AllOfPair(c: Pair, actions: seq<Action>) {
    forall i :: 0 <= i < |actions| ==> OfPair(c, actions[i])
  }

  // The index that handler pid writes.
  function Ids(t: Table, c: Pair, pid: nat): seq<string> { IndexOf(t, c.f, Of(c, pid).owner) }

  // One user creates two sessions that are both new to the index.
  predicate Clash(t: Table, c: Pair) {
    c.a.owner == c.b.owner && c.a.id != c.b.id && c.a.id !in Ids(t, c, 0) && c.b.id !in Ids(t, c, 1)
  }

  // Each create reads the index before the other writes it.
  predicate Crossing(w: World) {
    && 0 in w.got && 1 in w.wrote && w.got[0] < w.wrote[1]
    && 1 in w.got && 0 in w.wrote && w.got[1] < w.wrote[0]
  }

  // ---------- what holds after any steps of the two ----------

  predicate Before(w: World, p: nat, q: nat) { q in w.wrote && p in w.got && w.got[p] < w.wrote[q] }

  predicate Timed(w: World, c: Pair, p: nat) {
    var q := Other(p);
    && (p in w.pending ==> p in w.used && !w.pending[p].Revoking? && w.pending[p].f == c.f && w.pending[p].s == Of(c, p))
    && (p in w.got ==> p in w.used && w.got[p] < w.clock)
    && (p in w.wrote ==> p in w.got && w.got[p] < w.wrote[p] < w.clock && p !in w.pending)
    && (p in w.pending ==> (p in w.got <==> w.pending[p].Listed?))
    && (p in w.got && q in w.wrote ==> w.got[p] != w.wrote[q])
    && (p in w.wrote && q in w.wrote ==> w.wrote[p] != w.wrote[q])
  }

  // The index of handler p: nothing of the start is missing, and nothing is new but the ids of
  // the two creates that have written.
  predicate Grown(w: World, t: Table, c: Pair, p: nat) {
    && (forall id :: id in Ids(t, c, p) ==> id in Ids(w.table, c, p))
    && (forall id :: id in Ids(w.table, c, p) ==>
          id in Ids(t, c, p) || (0 in w.wrote && c.a.owner == Of(c, p).owner && id == c.a.id)
          || (1 in w.wrote && c.b.owner == Of(c, p).owner && id == c.b.id))
    && (p in w.wrote ==> Of(c, p).id !in Ids(t, c, p))
  }

  predicate Waiting(w: World, t: Table, c: Pair, p: nat) {
    p in w.pending && w.pending[p].Listed? ==>
      && w.pending[p].s.id !in w.pending[p].ids
      && (forall id :: id in Ids(t, c, p) ==> id in w.pending[p].ids)
      && (forall id :: id in w.pending[p].ids ==>
            id in Ids(t, c, p) || (Other(p) in w.wrote && c.a.owner == c.b.owner && id == Of(c, Other(p)).id))
      && w.pending[p].since <= {Of(c, Other(p)).id}
      && (w.pending[p].since != {} ==> Before(w, p, Other(p)) && c.a.owner == c.b.owner)
  }

  predicate Two(w: World, t: Table, c: Pair) {
    && Typed(w.table) && w.pending.Keys <= {0, 1}
    && Timed(w, c, 0) && Timed(w, c, 1) && Grown(w, t, c, 0) && Grown(w, t, c, 1)
    && Waiting(w, t, c, 0) && Waiting(w, t, c, 1)
  }

  lemma PutRowKeeps(w: World, t: Table, c: Pair, x: Action, p: nat)
    requires Two(w, t, c) && Enabled(w, x) && OfPair(c, x) && x.PutRow? && p < 2
    ensures Timed(Act(w, x), c, p) && Grown(Act(w, x), t, c, p) && Waiting(Act(w, x), t, c, p)
  {
    PutSession(w.table, x.f, x.s);
    assert Ids(Act(w, x).table, c, p) == Ids(w.table, c, p);
  }

  lemma TwoPutRow(w: World, t: Table, c: Pair, x: Action)
    requires Two(w, t, c) && Enabled(w, x) && OfPair(c, x) && x.PutRow?
    ensures Two(Act(w, x), t, c)
  {
    PutSession(w.table, x.f, x.s);
    PutRowKeeps(w, t, c, x, 0);
    PutRowKeeps(w, t, c, x, 1);
  }

  lemma TimedStep(w: World, c: Pair, x: Action, p: nat)
    requires Timed(w, c, p) && Timed(w, c, Other(p)) && Enabled(w, x) && OfPair(c, x) && !x.PutRow? && p < 2
    ensures Timed(Act(w, x), c, p)
  {
    var w' := Act(w, x);
    if x.pid == p {
      assert p in w.pending && (Other(p) in w'.wrote <==> Other(p) in w.wrote);
    } else {
      assert x.pid == Other(p) && (p in w'.got <==> p in w.got) && (p in w'.wrote <==> p in w.wrote);
      assert p in w'.pending <==> p in w.pending;
    }
  }

  lemma GrownWriteOther(w: World, t: Table, c: Pair, pid: nat, p: nat)
    requires Typed(w.table) && pid < 2 && Timed(w, c, pid) && p < 2 && Grown(w, t, c, p)
    requires Enabled(w, WriteIndex(pid)) && Of(c, p).owner != Of(c, pid).owner
    ensures Grown(Act(w, WriteIndex(pid)), t, c, p)
  {
    var w' := Act(w, WriteIndex(pid));
    WrittenIds(w, c, pid, p);
    assert Ids(w'.table, c, p) == Ids(w.table, c, p);
    assert p != pid && (p in w'.wrote <==> p in w.wrote);
  }

  lemma GrownWriteOwn(w: World, t: Table, c: Pair, pid: nat, p: nat)
    requires Typed(w.table) && pid < 2 && Timed(w, c, pid) && p < 2 && Grown(w, t, c, p)
    requires Enabled(w, WriteIndex(pid)) && Waiting(w, t, c, pid) && Of(c, p).owner == Of(c, pid).owner
    ensures Grown(Act(w, WriteIndex(pid)), t, c, p)
  {
    var w' := Act(w, WriteIndex(pid));
    var h := w.pending[pid];
    WrittenIds(w, c, pid, p);
    assert Waiting(w, t, c, pid) && Ids(w'.table, c, p) == h.ids + [h.s.id] && Ids(t, c, p) == Ids(t, c, pid);
    assert pid in w'.wrote && (Other(pid) in w'.wrote <==> Other(pid) in w.wrote);
  }

  lemma GrownWrite(w: World, t: Table, c: Pair, x: Action, p: nat)
    requires Two(w, t, c) && Enabled(w, x) && OfPair(c, x) && x.WriteIndex? && p < 2
    ensures Grown(Act(w, x), t, c, p)
  {
    if Of(c, p).owner == Of(c, x.pid).owner {
      GrownWriteOwn(w, t, c, x.pid, p);
    } else {
      GrownWriteOther(w, t, c, x.pid, p);
    }
  }

  // What a write makes of the index of handler p.
  lemma WrittenIds(w: World, c: Pair, pid: nat, p: nat)
    requires Typed(w.table) && Enabled(w, WriteIndex(pid)) && w.pending[pid].f == c.f
    ensures var h := w.pending[pid];
            var written := if Of(c, p).owner == h.s.owner then h.ids + [h.s.id] else Ids(w.table, c, p);
            Ids(Act(w, WriteIndex(pid)).table, c, p) == written
  {
    var h := w.pending[pid];
    PutIndex(w.table, h.f, h.s.owner, h.ids + [h.s.id]);
  }

  lemma WaitingGet(w: World, t: Table, c: Pair, x: Action, p: nat)
    requires Timed(w, c, p) && Grown(w, t, c, p) && Waiting(w, t, c, p)
    requires Enabled(w, x) && OfPair(c, x) && x.GetIndex? && p < 2
    ensures Waiting(Act(w, x), t, c, p)
  {
    var w' := Act(w, x);
    if x.pid == p {
      if p in w'.pending {
        assert w'.pending[p].ids == Ids(w.table, c, p) && w'.pending[p].since == {} && w'.wrote == w.wrote;
      }
    } else {
      assert p in w'.pending <==> p in w.pending;
      assert w'.wrote == w.wrote && (p in w.got ==> w'.got[p] == w.got[p]);
    }
  }

  lemma WaitingWrite(w: World, t: Table, c: Pair, x: Action, p: nat)
    requires Timed(w, c, p) && Timed(w, c, Other(p)) && Waiting(w, t, c, p)
    requires Enabled(w, x) && OfPair(c, x) && x.WriteIndex? && p < 2
    ensures Waiting(Act(w, x), t, c, p)
  {
    var w' := Act(w, x);
    if x.pid == Other(p) && p in w'.pending && w'.pending[p].Listed? {
      assert w'.pending[p] in {w.pending[p], w.pending[p].(since := w.pending[p].since + {Of(c, Other(p)).id})};
      assert p in w.got && w'.got == w.got && w'.wrote[Other(p)] == w.clock;
    }
  }

  lemma TwoGetIndex(w: World, t: Table, c: Pair, x: Action)
    requires Two(w, t, c) && Enabled(w, x) && OfPair(c, x) && x.GetIndex?
    ensures Two(Act(w, x), t, c)
  {
    TimedStep(w, c, x, 0);
    TimedStep(w, c, x, 1);
    WaitingGet(w, t, c, x, 0);
    WaitingGet(w, t, c, x, 1);
  }

  lemma TwoWriteIndex(w: World, t: Table, c: Pair, x: Action)
    requires Two(w, t, c) && Enabled(w, x) && OfPair(c, x) && x.WriteIndex?
    ensures Two(Act(w, x), t, c)
  {
    var Listed(f, s, ids, _, _) := w.pending[x.pid];
    PutIndex(w.table, f, s.owner, ids + [s.id]);
    GrownWrite(w, t, c, x, 0);
    GrownWrite(w, t, c, x, 1);
    TimedStep(w, c, x, 0);
    TimedStep(w, c, x, 1);
    WaitingWrite(w, t, c, x, 0);
    WaitingWrite(w, t, c, x, 1);
  }

  lemma TwoStep(w: World, t: Table, c: Pair, x: Action)
    requires Two(w, t, c) && Enabled(w, x) && OfPair(c, x)
    ensures Two(Act(w, x), t, c)
  {
    match x {
      case PutRow(_, _, _) => TwoPutRow(w, t, c, x);
      case GetIndex(_) => TwoGetIndex(w, t, c, x);
      case WriteIndex(_) => TwoWriteIndex(w, t, c, x);
    }
  }

  // ---------- schedules that lose nothing ----------

  // Once they have crossed, neither has a step left.
  lemma CrossedIsDone(w: World, c: Pair, x: Action)
    requires Timed(w, c, 0) && Timed(w, c, 1) && OfPair(c, x) && Crossing(w)
    ensures !Enabled(w, x)
  {
  }

  lemma {:induction false} CrossingRun(w: World, t: Table, c: Pair, actions: seq<Action>)
    requires Two(w, t, c) && Runnable(w, actions) && AllOfPair(c, actions)
    ensures Two(Run(w, actions), t, c) && (Crossing(w) ==> Crossing(Run(w, actions)))
    decreases |actions|
  {
    if actions != [] {
      assert OfPair(c, actions[0]) && forall i :: 0 <= i < |actions| - 1 ==> actions[1..][i] == actions[i + 1];
      TwoStep(w, t, c, actions[0]);
      if Crossing(w) {
        CrossedIsDone(w, c, actions[0]);
      }
      CrossingRun(Act(w, actions[0]), t, c, actions[1..]);
    }
  }

  // Nothing is missing from any index, nor was when it was read by a create that waits.
  ghost predicate NoLoss(w: World) {
    && (forall o :: Lost(w, o) == {})
    && (forall pid :: pid in w.pending && w.pending[pid].Listed? ==> w.pending[pid].missing == {})
  }

  lemma NoLossWrite(w: World, pid: nat)
    requires Sound(w) && NoLoss(w) && Enabled(w, WriteIndex(pid)) && w.pending[pid].since <= {w.pending[pid].s.id}
    ensures NoLoss(Act(w, WriteIndex(pid)))
  {
    var h := w.pending[pid];
    LostAfterWrite(w, pid);
    PutIndex(w.table, h.f, h.s.owner, h.ids + [h.s.id]);
    forall o ensures Lost(Act(w, WriteIndex(pid)), o) == {} {
      RegisteredWrite(w, pid, o);
      assert Lost(w, o) == {};
    }
  }

  lemma NoLossGet(w: World, pid: nat)
    requires NoLoss(w) && Enabled(w, GetIndex(pid))
    ensures NoLoss(Act(w, GetIndex(pid)))
  {
    forall o ensures Lost(Act(w, GetIndex(pid)), o) == {} {
      assert Lost(w, o) == {};
    }
  }

  lemma NoLossPut(w: World, x: Action)
    requires Sound(w) && NoLoss(w) && Enabled(w, x) && x.PutRow?
    ensures NoLoss(Act(w, x))
  {
    PutSession(w.table, x.f, x.s);
    forall o ensures Lost(Act(w, x), o) == {} {
      assert Lost(w, o) == {};
    }
  }

  lemma NoLossStep(w: World, c: Pair, x: Action)
    requires Sound(w) && NoLoss(w) && Enabled(w, x) && OfPair(c, x)
    requires x.WriteIndex? ==> w.pending[x.pid].since <= {w.pending[x.pid].s.id}
    ensures NoLoss(Act(w, x))
  {
    match x {
      case PutRow(_, _, _) => NoLossPut(w, x);
      case GetIndex(pid) => NoLossGet(w, pid);
      case WriteIndex(pid) => NoLossWrite(w, pid);
    }
  }

  // A write loses an entry only if the two clash and have crossed by then.
  lemma HarmlessWrite(w: World, t: Table, c: Pair, pid: nat)
    requires Sound(w) && Two(w, t, c) && pid < 2 && Enabled(w, WriteIndex(pid))
    requires !(Clash(t, c) && Crossing(Act(w, WriteIndex(pid))))
    ensures w.pending[pid].since <= {w.pending[pid].s.id}
  {
    if w.pending[pid].since != {} {
      assert Crossing(Act(w, WriteIndex(pid)));
    }
  }

  lemma {:induction false} NoLossUnlessCrossed(w: World, t: Table, c: Pair, actions: seq<Action>)
    requires Sound(w) && NoLoss(w) && Two(w, t, c) && Runnable(w, actions) && AllOfPair(c, actions)
    requires !(Clash(t, c) && Crossing(Run(w, actions)))
    ensures Sound(Run(w, actions)) && NoLoss(Run(w, actions))
    decreases |actions|
  {
    if actions != [] {
      var x, rest := actions[0], actions[1..];
      assert OfPair(c, x) && forall i :: 0 <= i < |rest| ==> rest[i] == actions[i + 1];
      TwoStep(w, t, c, x);
      CrossingRun(Act(w, x), t, c, rest);
      if x.WriteIndex? {
        HarmlessWrite(w, t, c, x.pid);
      }
      SoundStep(w, x);
      NoLossStep(w, c, x);
      NoLossUnlessCrossed(Act(w, x), t, c, rest);
    }
  }

  // ---------- schedules that do ----------

  // In a clash: the rows stay, and each index, read or stored, has the other's id exactly if it
  // was read after the other's write.
  predicate Clashing(w: World, c: Pair, p: nat) {
    var q := Other(p);
    && (p in w.used ==> SessionOf(w.table, c.f, Of(c, p).id) == Some(Of(c, p)))
    && (p in w.used && p !in w.pending ==> p in w.wrote)
    && (p in w.pending && w.pending[p].Listed? ==>
          (Of(c, q).id in w.pending[p].ids <==> p in w.got && q in w.wrote && w.wrote[q] < w.got[p]))
    && (Of(c, p).id in Ids(w.table, c, p) <==>
          p in w.wrote && (q in w.wrote && w.wrote[p] < w.wrote[q] ==> q in w.got && w.wrote[p] < w.got[q]))
  }

  lemma ClashPutRow(w: World, t: Table, c: Pair, x: Action)
    requires Two(w, t, c) && Clash(t, c) && Clashing(w, c, 0) && Clashing(w, c, 1)
    requires Enabled(w, x) && OfPair(c, x) && x.PutRow?
    ensures Clashing(Act(w, x), c, 0) && Clashing(Act(w, x), c, 1)
  {
    PutSession(w.table, x.f, x.s);
  }

  lemma ClashGetIndex(w: World, t: Table, c: Pair, x: Action)
    requires Two(w, t, c) && Clash(t, c) && Clashing(w, c, 0) && Clashing(w, c, 1)
    requires Enabled(w, x) && OfPair(c, x) && x.GetIndex?
    ensures Clashing(Act(w, x), c, 0) && Clashing(Act(w, x), c, 1)
  {
  }

  lemma ClashWriteOwn(w: World, c: Pair, p: nat)
    requires Typed(w.table) && p < 2 && Timed(w, c, p) && Timed(w, c, Other(p)) && Clashing(w, c, p)
    requires c.a.owner == c.b.owner && Enabled(w, WriteIndex(p))
    ensures Clashing(Act(w, WriteIndex(p)), c, p)
  {
    var h, w' := w.pending[p], Act(w, WriteIndex(p));
    WrittenIds(w, c, p, p);
    PutIndex(w.table, h.f, h.s.owner, h.ids + [h.s.id]);
    assert Of(c, p).id in Ids(w'.table, c, p) && w'.wrote[p] == w.clock && p !in w'.pending;
  }

  lemma ClashWriteOther(w: World, c: Pair, p: nat)
    requires Typed(w.table) && p < 2 && Timed(w, c, p) && Timed(w, c, Other(p))
    requires Clashing(w, c, p) && Clashing(w, c, Other(p))
    requires c.a.owner == c.b.owner && c.a.id != c.b.id && Enabled(w, WriteIndex(Other(p)))
    ensures Clashing(Act(w, WriteIndex(Other(p))), c, p)
  {
    var q := Other(p);
    var h, w' := w.pending[q], Act(w, WriteIndex(q));
    WrittenIds(w, c, q, p);
    PutIndex(w.table, h.f, h.s.owner, h.ids + [h.s.id]);
    assert Of(c, p).id in Ids(w'.table, c, p) <==> Of(c, p).id in h.ids;
    assert (p in w'.pending <==> p in w.pending) && (p in w'.wrote <==> p in w.wrote) && w'.wrote[q] == w.clock;
    assert p in w.pending ==> w'.pending[p].Listed? == w.pending[p].Listed?;
    assert p in w.pending && w.pending[p].Listed? ==> w'.pending[p].ids == w.pending[p].ids;
  }

  lemma ClashWriteIndex(w: World, t: Table, c: Pair, x: Action)
    requires Two(w, t, c) && Clash(t, c) && Clashing(w, c, 0) && Clashing(w, c, 1)
    requires Enabled(w, x) && OfPair(c, x) && x.WriteIndex?
    ensures Clashing(Act(w, x), c, 0) && Clashing(Act(w, x), c, 1)
  {
    ClashWriteOwn(w, c, x.pid);
    ClashWriteOther(w, c, Other(x.pid));
  }

  lemma {:induction false} ClashRun(w: World, t: Table, c: Pair, actions: seq<Action>)
    requires Two(w, t, c) && Clash(t, c) && Clashing(w, c, 0) && Clashing(w, c, 1)
    requires Runnable(w, actions) && AllOfPair(c, actions)
    ensures Clashing(Run(w, actions), c, 0) && Clashing(Run(w, actions), c, 1)
    decreases |actions|
  {
    if actions != [] {
      var x, rest := actions[0], actions[1..];
      assert OfPair(c, x) && forall i :: 0 <= i < |rest| ==> rest[i] == actions[i + 1];
      TwoStep(w, t, c, x);
      match x {
        case PutRow(_, _, _) => ClashPutRow(w, t, c, x);
        case GetIndex(_) => ClashGetIndex(w, t, c, x);
        case WriteIndex(_) => ClashWriteIndex(w, t, c, x);
      }
      ClashRun(Act(w, x), t, c, rest);
    }
  }

  lemma CrossedLoses(w: World, t: Table, c: Pair)
    requires Two(w, t, c) && Clash(t, c) && Clashing(w, c, 0) && Clashing(w, c, 1) && Crossing(w)
    ensures !Indexed(w.table)
  {
    var p := if w.wrote[0] < w.wrote[1] then 0 else 1;
    assert Of(c, p).id !in Ids(w.table, c, p);
    assert SessionOf(w.table, c.f, Of(c, p).id) == Some(Of(c, p));
  }

  lemma NoLossAtStart(t: Table)
    requires Indexed(t)
    ensures NoLoss(Start(t))
  {
    forall o ensures Lost(Start(t), o) == {} {
    }
  }

  // Over all schedules of the steps of two creates: the index is broken at the end if and only
  // if they clash and each has read it before the other wrote it.
  lemma PairsExactly(t: Table, c: Pair, actions: seq<Action>)
    requires Indexed(t) && Runnable(Start(t), actions) && AllOfPair(c, actions)
    requires Run(Start(t), actions).pending == map[]
    ensures var w := Run(Start(t), actions);
            Indexed(w.table) <==> !(Clash(t, c) && Crossing(w))
  {
    StartSound(t);
    CrossingRun(Start(t), t, c, actions);
    if Clash(t, c) && Crossing(Run(Start(t), actions)) {
      ClashRun(Start(t), t, c, actions);
      CrossedLoses(Run(Start(t), actions), t, c);
    } else {
      NoLossAtStart(t);
      NoLossUnlessCrossed(Start(t), t, c, actions);
      IndexedAtRest(Run(Start(t), actions));
    }
  }

  // ---------- a schedule ----------

  lemma {:induction false} RunConcat(w: World, xs: seq<Action>, ys: seq<Action>)
    requires Runnable(w, xs) && Runnable(Run(w, xs), ys)
    ensures Runnable(w, xs + ys) && Run(w, xs + ys) == Run(Run(w, xs), ys)
    decreases |xs|
  {
    if xs == [] {
      assert xs + ys == ys;
    } else {
      assert (xs + ys)[1..] == xs[1..] + ys;
      RunConcat(Act(w, xs[0]), xs[1..], ys);
    }
  }

  lemma TwoActions(w: World, x: Action, y: Action)
    requires Enabled(w, x) && Enabled(Act(w, x), y)
    ensures Runnable(w, [x, y]) && Run(w, [x, y]) == Act(Act(w, x), y)
  {
    assert [x, y][1..] == [y] && [y][1..] == [];
    assert Runnable(Act(w, x), [y]) && Run(Act(w, x), [y]) == Act(Act(w, x), y);
  }

  function Puts(c: Pair): seq<Action> { [PutRow(0, c.f, c.a), PutRow(1, c.f, c.b)] }

  const GETS: seq<Action> := [GetIndex(0), GetIndex(1)]

  const WRITES: seq<Action> := [WriteIndex(0), WriteIndex(1)]

  lemma PutsRun(t: Table, c: Pair)
    requires Typed(t)
    ensures var w := Start(t);
            && Runnable(w, Puts(c)) && Run(w, Puts(c)).pending == map[0 := Stored(c.f, c.a), 1 := Stored(c.f, c.b)]
            && Run(w, Puts(c)).clock == 2 && Run(w, Puts(c)).got == map[]
            && forall user :: IndexOf(Run(w, Puts(c)).table, c.f, user) == IndexOf(t, c.f, user)
  {
    var w := Start(t);
    TwoActions(w, PutRow(0, c.f, c.a), PutRow(1, c.f, c.b));
    PutSession(t, c.f, c.a);
    PutSession(Act(w, PutRow(0, c.f, c.a)).table, c.f, c.b);
  }

  lemma GetsRun(w: World, c: Pair)
    requires w.pending == map[0 := Stored(c.f, c.a), 1 := Stored(c.f, c.b)] && w.got == map[] && Clash(w.table, c)
    ensures Runnable(w, GETS)
    ensures var w' := Run(w, GETS);
            && w'.pending.Keys == {0, 1} && w'.pending[0].Listed? && w'.pending[1].Listed?
            && w'.got == map[0 := w.clock, 1 := w.clock + 1] && w'.clock == w.clock + 2
  {
    var w1 := Act(w, GetIndex(0));
    assert w1.pending.Keys == {0, 1};
    TwoActions(w, GetIndex(0), GetIndex(1));
  }

  lemma WritesRun(w: World)
    requires w.pending.Keys == {0, 1} && w.pending[0].Listed? && w.pending[1].Listed?
    ensures Runnable(w, WRITES)
    ensures var w' := Run(w, WRITES);
            && w'.pending == map[] && w'.got == w.got
            && 0 in w'.wrote && w'.wrote[0] == w.clock && 1 in w'.wrote && w'.wrote[1] == w.clock + 1
  {
    var w1 := Act(w, WriteIndex(0));
    assert w1.pending.Keys == {1} && w1.pending[1].Listed?;
    TwoActions(w, WriteIndex(0), WriteIndex(1));
    assert Act(w1, WriteIndex(1)).pending.Keys == {};
  }

  lemma CrossedRun(t: Table, c: Pair)
    requires Indexed(t) && Clash(t, c)
    ensures var actions := Puts(c) + (GETS + WRITES);
            Runnable(Start(t), actions) && Run(Start(t), actions).pending == map[] && Crossing(Run(Start(t), actions))
  {
    PutsRun(t, c);
    var w := Run(Start(t), Puts(c));
    assert Clash(w.table, c);
    GetsRun(w, c);
    WritesRun(Run(w, GETS));
    RunConcat(w, GETS, WRITES);
    RunConcat(Start(t), Puts(c), GETS + WRITES);
  }

  lemma ScheduleOfPair(c: Pair)
    ensures AllOfPair(c, Puts(c) + (GETS + WRITES))
  {
  }

  // Wherever one user creates two sessions new to the index, this schedule runs to its end and
  // loses one of them.
  lemma CrossingLosesOne(t: Table, c: Pair)
    requires Indexed(t) && Clash(t, c)
    ensures var actions := Puts(c) + (GETS + WRITES);
            && AllOfPair(c, actions) && Runnable(Start(t), actions)
            && Run(Start(t), actions).pending == map[] && Crossing(Run(Start(t), actions))
            && !Indexed(Run(Start(t), actions).table)
  {
    CrossedRun(t, c);
    ScheduleOfPair(c);
    PairsExactly(t, c, Puts(c) + (GETS + WRITES));
  }
}

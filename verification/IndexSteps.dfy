/**
 Creates and revokes as they run: a create puts its row, reads the index and writes it back
 with its id, a revoke reads its row and writes it back, and steps of other handlers fall in
 between. Exactly when the index is right again once all of them are done.
 */
module IndexSteps {
  import opened SessionTable
  import opened SessionIndex

  // A handler that is not done: a create that has put its row, one that has read the index
  // without finding its id, or a revoke that has read its row. For the accounts, a create notes
  // the ids that were missing from the index when it read it, and those entered since.
  datatype Handler =
    | Stored(f: Family, s: Session)
    | Listed(f: Family, s: Session, ids: seq<string>, missing: set<string>, since: set<string>)
    | Revoking(f: Family, s: Session)

  datatype Owner = Owner(f: Family, user: string)

  // Which ids have been entered for whom, whose create wrote each index last, and which create
  // read its index when, and wrote it when.
  datatype World = World(
    start: Table,
    table: Table,
    pending: map<nat, Handler>,
    used: set<nat>,
    entered: map<Owner, set<string>>,
    writer: map<Owner, Handler>,
    clock: nat,
    got: map<nat, nat>,
    wrote: map<nat, nat>)

  datatype Action =
    | PutRow(pid: nat, f: Family, s: Session)
    | GetIndex(pid: nat)
    | WriteIndex(pid: nat)
    | GetRow(pid: nat, f: Family, user: string, id: string)
    | PutRevoked(pid: nat)

  predicate Enabled(w: World, a: Action) {
    match a
    case PutRow(pid, _, _) => pid !in w.used
    case GetRow(pid, _, _, _) => pid !in w.used
    case GetIndex(pid) => pid in w.pending && w.pending[pid].Stored?
    case WriteIndex(pid) => pid in w.pending && w.pending[pid].Listed?
    case PutRevoked(pid) => pid in w.pending && w.pending[pid].Revoking?
  }

  // Every id that an owner's index has held, or should hold.
  function Registered(w: World, o: Owner): set<string> {
    (set id | id in IndexOf(w.start, o.f, o.user)) + if o in w.entered then w.entered[o] else {}
  }

  // Those it does not hold.
  function Lost(w: World, o: Owner): set<string> {
    set id | id in Registered(w, o) && id !in IndexOf(w.table, o.f, o.user)
  }

  function OwnerOf(h: Handler): Owner { Owner(h.f, h.s.owner) }

  // Every create that has read this index without the id notes it.
  function Overtake(pending: map<nat, Handler>, o: Owner, id: string): (p: map<nat, Handler>)
    ensures p.Keys == pending.Keys
  {
    map pid | pid in pending ::
      var h := pending[pid];
      if h.Listed? && OwnerOf(h) == o && id !in h.ids then h.(since := h.since + {id}) else h
  }

  function Act(w: World, a: Action): World
    requires Enabled(w, a)
  {
    var next := w.(clock := w.clock + 1);
    match a
    case PutRow(pid, f, s) =>
      next.(table := w.table[SessionKey(f, s.id) := SessionRow(f, s)],
            pending := w.pending[pid := Stored(f, s)], used := w.used + {pid})
    case GetIndex(pid) =>
      var Stored(f, s) := w.pending[pid];
      var ids := IndexOf(w.table, f, s.owner);
      next.(pending := if s.id in ids then w.pending - {pid}
                       else w.pending[pid := Listed(f, s, ids, Lost(w, Owner(f, s.owner)), {})],
            got := w.got[pid := w.clock])
    case WriteIndex(pid) =>
      var Listed(f, s, ids, _, _) := w.pending[pid];
      var o := Owner(f, s.owner);
      next.(table := w.table[IndexKey(f, s.owner) := IndexRow(f, ids + [s.id])],
            pending := Overtake(w.pending - {pid}, o, s.id),
            entered := w.entered[o := Registered(w, o) + {s.id}],
            writer := w.writer[o := w.pending[pid]],
            wrote := w.wrote[pid := w.clock])
    case GetRow(pid, f, user, id) =>
      var row := SessionOf(w.table, f, id);
      next.(pending := if row.Some? && row.value.owner == user then w.pending[pid := Revoking(f, row.value)] else w.pending,
            used := w.used + {pid})
    case PutRevoked(pid) =>
      var Revoking(f, s) := w.pending[pid];
      next.(table := w.table[SessionKey(f, s.id) := SessionRow(f, s.(revoked := true))],
            pending := w.pending - {pid})
  }

  predicate Runnable(w: World, actions: seq<Action>)
    decreases |actions|
  {
    actions == [] || (Enabled(w, actions[0]) && Runnable(Act(w, actions[0]), actions[1..]))
  }

  function Run(w: World, actions: seq<Action>): World
    requires Runnable(w, actions)
    decreases |actions|
  {
    if actions == [] then w else Run(Act(w, actions[0]), actions[1..])
  }

  function Start(t: Table): World { World(t, t, map[], {}, map[], map[], 0, map[], map[]) }

  // ---------- without interruption ----------

  // The steps of a create, one right after the other, are the create of the whole handler.
  lemma UninterruptedCreate(w: World, pid: nat, f: Family, s: Session)
    requires Enabled(w, PutRow(pid, f, s))
    ensures var w1 := Act(w, PutRow(pid, f, s));
            && Enabled(w1, GetIndex(pid))
            && var w2 := Act(w1, GetIndex(pid));
               if pid in w2.pending then
                 Enabled(w2, WriteIndex(pid)) && Act(w2, WriteIndex(pid)).table == CreateIn(w.table, f, s)
               else w2.table == CreateIn(w.table, f, s)
  {
  }

  // So are those of a revoke.
  lemma UninterruptedRevoke(w: World, pid: nat, f: Family, user: string, id: string)
    requires Typed(w.table) && Enabled(w, GetRow(pid, f, user, id)) && pid !in w.pending
    ensures var w1 := Act(w, GetRow(pid, f, user, id));
            if pid in w1.pending then
              Enabled(w1, PutRevoked(pid)) && Act(w1, PutRevoked(pid)).table == RevokeIn(w.table, f, user, id)
            else w1.table == RevokeIn(w.table, f, user, id)
  {
    TypedReads(w.table, f, id);
  }

  // ---------- the accounts ----------

  predicate Creates(h: Handler, o: Owner, id: string) {
    !h.Revoking? && OwnerOf(h) == o && h.s.id == id
  }

  // The id is registered with the owner, or will be.
  predicate Promised(w: World, o: Owner, id: string) {
    id in Registered(w, o) || exists pid :: pid in w.pending && Creates(w.pending[pid], o, id)
  }

  ghost predicate HandlerSound(w: World, h: Handler) {
    match h
    case Stored(_, _) => true
    case Revoking(f, s) => Promised(w, OwnerOf(h), s.id)
    case Listed(f, s, ids, missing, since) =>
      && s.id !in ids && Distinct(ids)
      && (forall id :: id in Registered(w, OwnerOf(h)) <==> id in ids || id in missing + since)
      && (forall id :: id in ids ==> id !in missing + since)
  }

  // What is lost from an index: what its last writer had missed, or what was entered behind its
  // back, but for its own id.
  predicate Accounted(w: World, o: Owner) {
    && (forall id :: id in IndexOf(w.table, o.f, o.user) ==> id in Registered(w, o))
    && if o in w.writer then
         w.writer[o].Listed? && Lost(w, o) == w.writer[o].missing + w.writer[o].since - {w.writer[o].s.id}
       else Lost(w, o) == {}
  }

  ghost predicate Sound(w: World) {
    && Typed(w.table) && w.pending.Keys <= w.used
    && (forall f, user :: Distinct(IndexOf(w.table, f, user)))
    && (forall o :: Accounted(w, o))
    && (forall f, id :: SessionOf(w.table, f, id).Some? ==> Promised(w, Owner(f, SessionOf(w.table, f, id).value.owner), id))
    && (forall pid :: pid in w.pending ==> HandlerSound(w, w.pending[pid]))
  }

  // A promise outlives a step that keeps what is registered and the creates.
  lemma PromiseKept(w: World, w': World, o: Owner, id: string)
    requires Promised(w, o, id) && Registered(w, o) <= Registered(w', o)
    requires forall pid :: pid in w.pending && Creates(w.pending[pid], o, id) ==>
               (pid in w'.pending && Creates(w'.pending[pid], o, id)) || id in Registered(w', o)
    ensures Promised(w', o, id)
  {
    if id !in Registered(w, o) {
      var pid :| pid in w.pending && Creates(w.pending[pid], o, id);
    }
  }

  lemma SoundPutRow(w: World, a: Action)
    requires Sound(w) && Enabled(w, a) && a.PutRow?
    ensures Sound(Act(w, a))
  {
    var w' := Act(w, a);
    PutSession(w.table, a.f, a.s);
    assert Creates(w'.pending[a.pid], Owner(a.f, a.s.owner), a.s.id);
    forall o ensures Registered(w', o) == Registered(w, o) && Accounted(w', o) {
      assert Accounted(w, o);
    }
    forall o, id | Promised(w, o, id) ensures Promised(w', o, id) {
      PromiseKept(w, w', o, id);
    }
  }

  lemma SoundGetIndex(w: World, a: Action)
    requires Sound(w) && Enabled(w, a) && a.GetIndex?
    ensures Sound(Act(w, a))
  {
    var w' := Act(w, a);
    assert Accounted(w, OwnerOf(w.pending[a.pid]));
    forall o ensures Registered(w', o) == Registered(w, o) && Accounted(w', o) {
      assert Accounted(w, o);
    }
    forall o, id | Promised(w, o, id) ensures Promised(w', o, id) {
      PromiseKept(w, w', o, id);
    }
  }

  // The recurrence: what is lost once a create has written the index.
  lemma LostAfterWrite(w: World, pid: nat)
    requires Sound(w) && Enabled(w, WriteIndex(pid))
    ensures var h := w.pending[pid];
            Lost(Act(w, WriteIndex(pid)), OwnerOf(h)) == h.missing + h.since - {h.s.id}
  {
    var Listed(f, s, ids, _, _) := w.pending[pid];
    assert HandlerSound(w, w.pending[pid]);
    PutIndex(w.table, f, s.owner, ids + [s.id]);
  }

  lemma RegisteredWrite(w: World, pid: nat, o: Owner)
    requires Enabled(w, WriteIndex(pid))
    ensures var h := w.pending[pid];
            Registered(Act(w, WriteIndex(pid)), o) == Registered(w, o) + if o == OwnerOf(h) then {h.s.id} else {}
  {
  }

  lemma AccountedWrite(w: World, pid: nat, o: Owner)
    requires Sound(w) && Enabled(w, WriteIndex(pid))
    ensures Accounted(Act(w, WriteIndex(pid)), o)
  {
    var Listed(f, s, ids, _, _) := w.pending[pid];
    assert Accounted(w, o) && HandlerSound(w, w.pending[pid]);
    LostAfterWrite(w, pid);
    RegisteredWrite(w, pid, o);
    PutIndex(w.table, f, s.owner, ids + [s.id]);
  }

  lemma ListedAfterWrite(w: World, pid: nat, other: nat)
    requires Enabled(w, WriteIndex(pid)) && other in w.pending && other != pid && w.pending[other].Listed?
    requires HandlerSound(w, w.pending[other])
    ensures HandlerSound(Act(w, WriteIndex(pid)), Act(w, WriteIndex(pid)).pending[other])
  {
    var h, id := w.pending[other], w.pending[pid].s.id;
    RegisteredWrite(w, pid, OwnerOf(h));
    var noted := if OwnerOf(h) == OwnerOf(w.pending[pid]) && id !in h.ids then {id} else {};
    assert Act(w, WriteIndex(pid)).pending[other] == h.(since := h.since + noted);
  }

  lemma PromiseAfterWrite(w: World, pid: nat, o: Owner, id: string)
    requires Enabled(w, WriteIndex(pid)) && Promised(w, o, id)
    ensures Promised(Act(w, WriteIndex(pid)), o, id)
  {
    RegisteredWrite(w, pid, o);
    PromiseKept(w, Act(w, WriteIndex(pid)), o, id);
  }

  lemma HandlersAfterWrite(w: World, pid: nat)
    requires Sound(w) && Enabled(w, WriteIndex(pid))
    ensures var w' := Act(w, WriteIndex(pid));
            forall other :: other in w'.pending ==> HandlerSound(w', w'.pending[other])
  {
    var w' := Act(w, WriteIndex(pid));
    forall other | other in w'.pending ensures HandlerSound(w', w'.pending[other]) {
      var h := w.pending[other];
      assert HandlerSound(w, h);
      match h {
        case Stored(_, _) =>
        case Listed(_, _, _, _, _) => ListedAfterWrite(w, pid, other);
        case Revoking(_, s) => PromiseAfterWrite(w, pid, OwnerOf(h), s.id);
      }
    }
  }

  lemma SoundWriteIndex(w: World, a: Action)
    requires Sound(w) && Enabled(w, a) && a.WriteIndex?
    ensures Sound(Act(w, a))
  {
    var w' := Act(w, a);
    var h := w.pending[a.pid];
    assert HandlerSound(w, h);
    PutIndex(w.table, h.f, h.s.owner, h.ids + [h.s.id]);
    forall o ensures Accounted(w', o) {
      AccountedWrite(w, a.pid, o);
    }
    forall f, id | SessionOf(w'.table, f, id).Some?
      ensures Promised(w', Owner(f, SessionOf(w'.table, f, id).value.owner), id)
    {
      PromiseAfterWrite(w, a.pid, Owner(f, SessionOf(w.table, f, id).value.owner), id);
    }
    HandlersAfterWrite(w, a.pid);
  }

  lemma SoundGetRow(w: World, a: Action)
    requires Sound(w) && Enabled(w, a) && a.GetRow?
    ensures Sound(Act(w, a))
  {
    var w' := Act(w, a);
    TypedReads(w.table, a.f, a.id);
    forall o ensures Registered(w', o) == Registered(w, o) && Accounted(w', o) {
      assert Accounted(w, o);
    }
    forall o, id | Promised(w, o, id) ensures Promised(w', o, id) {
      PromiseKept(w, w', o, id);
    }
  }

  lemma SoundPutRevoked(w: World, a: Action)
    requires Sound(w) && Enabled(w, a) && a.PutRevoked?
    ensures Sound(Act(w, a))
  {
    var w' := Act(w, a);
    var Revoking(f, s) := w.pending[a.pid];
    PutSession(w.table, f, s.(revoked := true));
    forall o ensures Registered(w', o) == Registered(w, o) && Accounted(w', o) {
      assert Accounted(w, o);
    }
    forall o, id | Promised(w, o, id) ensures Promised(w', o, id) {
      PromiseKept(w, w', o, id);
    }
  }

  lemma SoundStep(w: World, a: Action)
    requires Sound(w) && Enabled(w, a)
    ensures Sound(Act(w, a))
  {
    match a {
      case PutRow(_, _, _) => SoundPutRow(w, a);
      case GetIndex(_) => SoundGetIndex(w, a);
      case WriteIndex(_) => SoundWriteIndex(w, a);
      case GetRow(_, _, _, _) => SoundGetRow(w, a);
      case PutRevoked(_) => SoundPutRevoked(w, a);
    }
  }

  lemma {:induction false} SoundRun(w: World, actions: seq<Action>)
    requires Sound(w) && Runnable(w, actions)
    ensures Sound(Run(w, actions))
    decreases |actions|
  {
    if actions != [] {
      SoundStep(w, actions[0]);
      SoundRun(Act(w, actions[0]), actions[1..]);
    }
  }

  lemma StartSound(t: Table)
    requires Indexed(t)
    ensures Sound(Start(t))
  {
    var w := Start(t);
    forall o ensures Accounted(w, o) {
      assert Lost(w, o) == {};
    }
    forall f, id | SessionOf(t, f, id).Some? ensures Promised(w, Owner(f, SessionOf(t, f, id).value.owner), id) {
      assert id in IndexOf(t, f, SessionOf(t, f, id).value.owner);
    }
  }

  // ---------- any number of handlers ----------

  predicate Owns(t: Table, o: Owner, id: string) {
    SessionOf(t, o.f, id).Some? && SessionOf(t, o.f, id).value.owner == o.user
  }

  // What the last writer had missed, and what was entered behind its back, is not in the table
  // any more, but for its own id.
  ghost predicate NothingDropped(w: World, o: Owner) {
    o in w.writer && w.writer[o].Listed? ==>
      forall id :: id in w.writer[o].missing + w.writer[o].since && id != w.writer[o].s.id ==> !Owns(w.table, o, id)
  }

  lemma IndexedAtRest(w: World)
    requires Sound(w) && w.pending == map[]
    ensures Indexed(w.table) <==> forall o, id :: id in Lost(w, o) ==> !Owns(w.table, o, id)
  {
    forall f, id | SessionOf(w.table, f, id).Some?
      ensures var o := Owner(f, SessionOf(w.table, f, id).value.owner);
              Owns(w.table, o, id) && (id in IndexOf(w.table, f, o.user) || id in Lost(w, o))
    {
      assert Promised(w, Owner(f, SessionOf(w.table, f, id).value.owner), id);
    }
  }

  // Whatever handlers have run in whatever interleaving: once none is pending, the index is
  // exact if and only if no owner's last writer has dropped the id of a stored session.
  lemma ExactAtRest(t: Table, actions: seq<Action>)
    requires Indexed(t) && Runnable(Start(t), actions) && Run(Start(t), actions).pending == map[]
    ensures var w := Run(Start(t), actions);
            Indexed(w.table) <==> forall o :: NothingDropped(w, o)
  {
    var w := Run(Start(t), actions);
    StartSound(t);
    SoundRun(Start(t), actions);
    IndexedAtRest(w);
    forall o ensures NothingDropped(w, o) <==> forall id :: id in Lost(w, o) ==> !Owns(w.table, o, id) {
      assert Accounted(w, o);
    }
  }
}

/**
 The one key-value table that holds every session (crates/storage/src/session_store.rs), its
 key families, and the rows that belong to each.
 */
module SessionTable {
  import opened Wrappers

  datatype JupiterSession = JupiterSession(
    owner: string,
    delegate: string,
    perIntentMax: string,
    cap: string,
    used: string,
    allowedAssets: seq<string>,
    expiresAt: nat,
    createdAt: nat,
    revoked: bool,
    surface: string)

  // Hyperliquid and generic (Polymarket) sessions are stored in the same way, under keys of
  // their own, with terms of their own.
  datatype Family = Hl | Generic

  datatype Terms =
    | HlTerms(surface: string, allowedCoins: seq<string>, maxTotal: string, maxOrderSize: string,
              maxLeverage: nat, delegate: Option<string>, totalFilled: string)
    | GenericTerms(surface: string, whitelistMode: string, whitelistIds: seq<string>, maxTotal: string,
                   maxOrderSize: string, maxPrice: string, minPrice: string, delegate: Option<string>,
                   totalFilled: string, createdAt: nat)

  datatype Session = Session(id: string, owner: string, expiry: nat, revoked: bool, terms: Terms)

  datatype Row =
    | JupiterRow(jupiter: JupiterSession)
    | SessionRow(family: Family, session: Session)
    | IndexRow(family: Family, ids: seq<string>)
    | PolyleverageRow(blob: string)

  type Table = map<string, Row>

  // ---------- keys ----------

  function JupiterKey(user: string): string { "jup-v1#" + user }

  function PolyleverageKey(user: string): string { "plv-v1#" + user }

  function SessionKey(f: Family, id: string): string {
    if f.Hl? then "hl-sess-v1#" + id else "gen-v1#" + id
  }

  function IndexKey(f: Family, user: string): string {
    if f.Hl? then "hl-idx-v1#" + user else "gen-idx-v1#" + user
  }

  // The family a key belongs to, as told by its first four characters.
  datatype KeyKind = JupiterKind | PolyleverageKind | SessionKind(f: Family) | IndexKind(f: Family) | NoKind

  function KindOf(key: string): KeyKind {
    if |key| < 5 then NoKind
    else if key[0] == 'j' then JupiterKind
    else if key[0] == 'p' then PolyleverageKind
    else if key[0] == 'h' then if key[3] == 's' then SessionKind(Hl) else IndexKind(Hl)
    else if key[4] == 'v' then SessionKind(Generic)
    else IndexKind(Generic)
  }

  // Keys of different families never collide, whatever the user or session is called.
  lemma KeyKinds(f: Family, name: string)
    ensures KindOf(JupiterKey(name)) == JupiterKind
    ensures KindOf(PolyleverageKey(name)) == PolyleverageKind
    ensures KindOf(SessionKey(f, name)) == SessionKind(f)
    ensures KindOf(IndexKey(f, name)) == IndexKind(f)
  {
  }

  lemma SuffixInjective(prefix: string, a: string, b: string)
    requires prefix + a == prefix + b
    ensures a == b
  {
    assert (prefix + a)[|prefix|..] == a && (prefix + b)[|prefix|..] == b;
  }

  // Within a family, different names have different keys.
  lemma KeysInjective(f: Family, a: string, b: string)
    ensures JupiterKey(a) == JupiterKey(b) ==> a == b
    ensures SessionKey(f, a) == SessionKey(f, b) ==> a == b
    ensures IndexKey(f, a) == IndexKey(f, b) ==> a == b
  {
    if JupiterKey(a) == JupiterKey(b) {
      SuffixInjective("jup-v1#", a, b);
    }
    if SessionKey(f, a) == SessionKey(f, b) {
      SuffixInjective(if f.Hl? then "hl-sess-v1#" else "gen-v1#", a, b);
    }
    if IndexKey(f, a) == IndexKey(f, b) {
      SuffixInjective(if f.Hl? then "hl-idx-v1#" else "gen-idx-v1#", a, b);
    }
  }

  // ---------- every key holds its own family's rows ----------

  predicate Fits(key: string, row: Row) {
    match row
    case JupiterRow(s) => key == JupiterKey(s.owner)
    case SessionRow(f, s) => key == SessionKey(f, s.id)
    case IndexRow(f, _) => KindOf(key) == IndexKind(f)
    case PolyleverageRow(_) => KindOf(key) == PolyleverageKind
  }

  predicate Typed(t: Table) {
    forall key :: key in t ==> Fits(key, t[key])
  }

  // A typed read of another family's row would fail to deserialize; it cannot happen.
  lemma TypedReads(t: Table, f: Family, name: string)
    requires Typed(t)
    ensures JupiterKey(name) in t ==> t[JupiterKey(name)].JupiterRow?
    ensures SessionKey(f, name) in t ==>
              t[SessionKey(f, name)].SessionRow? && t[SessionKey(f, name)].family == f
              && t[SessionKey(f, name)].session.id == name
    ensures IndexKey(f, name) in t ==> t[IndexKey(f, name)].IndexRow? && t[IndexKey(f, name)].family == f
  {
    KeyKinds(f, name);
    forall key | key in t ensures KindOf(key) == KindOfRow(t[key]) {
      KindOfFitting(key, t[key]);
    }
    if SessionKey(f, name) in t {
      KeysInjective(f, name, t[SessionKey(f, name)].session.id);
    }
  }

  function KindOfRow(row: Row): KeyKind {
    match row
    case JupiterRow(_) => JupiterKind
    case SessionRow(f, _) => SessionKind(f)
    case IndexRow(f, _) => IndexKind(f)
    case PolyleverageRow(_) => PolyleverageKind
  }

  lemma KindOfFitting(key: string, row: Row)
    requires Fits(key, row)
    ensures KindOf(key) == KindOfRow(row)
  {
    match row {
      case JupiterRow(s) => KeyKinds(Hl, s.owner);
      case SessionRow(f, s) => KeyKinds(f, s.id);
      case _ =>
    }
  }

  // ---------- reading ----------

  function JupiterOf(t: Table, user: string): Option<JupiterSession> {
    if JupiterKey(user) in t && t[JupiterKey(user)].JupiterRow? then Some(t[JupiterKey(user)].jupiter) else None
  }

  function SessionOf(t: Table, f: Family, id: string): Option<Session> {
    if SessionKey(f, id) in t && t[SessionKey(f, id)].SessionRow? then Some(t[SessionKey(f, id)].session) else None
  }

  function IndexOf(t: Table, f: Family, user: string): seq<string> {
    if IndexKey(f, user) in t && t[IndexKey(f, user)].IndexRow? then t[IndexKey(f, user)].ids else []
  }
}

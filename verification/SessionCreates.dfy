/**
 Creating and revoking Hyperliquid and generic sessions, from the signed intent to the table
 (crates/server/src/routes/hl_session.rs and generic_session.rs).
 */
module SessionCreates {
  import opened Wrappers
  import opened Seqs
  import opened CanonicalJson
  import opened JsonEquality
  import opened Intents
  import opened SessionTable
  import opened SessionIndex
  import opened SessionRuns
  import opened SessionHandlers

  datatype RequestError = IntentVerify(intent: IntentError) | IntentMissing(field: string)

  // ---------- reading the intent ----------

  function ReqStr(intent: Json, field: string): Result<string, RequestError> {
    match StrField(intent, field) case Some(s) => Success(s) case None => Failure(IntentMissing(field))
  }

  function ReqU64(intent: Json, field: string): Result<nat, RequestError> {
    match U64Field(intent, field) case Some(n) => Success(n) case None => Failure(IntentMissing(field))
  }

  // The strings among the items.
  function Strings(items: seq<Json>): seq<string> {
    if items == [] then []
    else (if items[0].String? then [items[0].s] else []) + Strings(items[1..])
  }

  function StrList(intent: Json, field: string): Option<seq<string>> {
    match Get(intent, field)
    case Some(Array(items)) => Some(Strings(items))
    case _ => None
  }

  function HlSession(intent: Json): Result<Session, RequestError> {
    var owner :- ReqStr(intent, "solana_pubkey");
    var id :- ReqStr(intent, "session_id");
    var coins :- match StrList(intent, "allowed_coins")
                 case Some(list) => Success(list) case None => Failure(IntentMissing("allowed_coins"));
    var surface :- ReqStr(intent, "surface");
    var maxTotal :- ReqStr(intent, "max_total_usd");
    var maxOrderSize :- ReqStr(intent, "max_order_size_usd");
    var maxLeverage :- ReqU64(intent, "max_leverage");
    var expiry :- ReqU64(intent, "expiry");
    Success(Session(id, owner, expiry, false,
                    HlTerms(surface, coins, maxTotal, maxOrderSize, maxLeverage, StrField(intent, "delegate_pubkey"), "0")))
  }

  function GenericSession(intent: Json, now: nat): Result<Session, RequestError> {
    var owner :- ReqStr(intent, "solana_pubkey");
    var id :- ReqStr(intent, "session_id");
    var list := StrList(intent, "whitelist_ids");
    var surface :- ReqStr(intent, "surface");
    var mode :- ReqStr(intent, "whitelist_mode");
    var maxTotal :- ReqStr(intent, "max_total_usdc");
    var maxOrderSize :- ReqStr(intent, "max_order_size_usdc");
    var maxPrice :- ReqStr(intent, "max_price");
    var minPrice := StrField(intent, "min_price");
    var expiry :- ReqU64(intent, "expiry");
    Success(Session(id, owner, expiry, false,
                    GenericTerms(surface, mode, if list.Some? then list.value else [], maxTotal, maxOrderSize, maxPrice,
                                 if minPrice.Some? then minPrice.value else "0",
                                 StrField(intent, "delegate_pubkey"), "0", now)))
  }

  function Requested(f: Family, intent: Json, now: nat): Result<Session, RequestError> {
    if f.Hl? then HlSession(intent) else GenericSession(intent, now)
  }

  // The session that a request creates, if it is accepted. Expiry of the intent is not enforced.
  function ToCreate(p: Primitives, f: Family, intent: Json, signature: string, now: nat): Result<Session, RequestError> {
    var _ :- MapError(Verify(p, intent, signature, None, false, now), e => IntentVerify(e));
    Requested(f, intent, now)
  }

  datatype Target = Target(user: string, id: string)

  // The session that a request revokes.
  function ToRevoke(p: Primitives, intent: Json, signature: string, now: nat): Result<Target, RequestError> {
    var _ :- MapError(Verify(p, intent, signature, None, false, now), e => IntentVerify(e));
    var user :- ReqStr(intent, "solana_pubkey");
    var id :- ReqStr(intent, "session_id");
    Success(Target(user, id))
  }

  // ---------- the handlers ----------

  method HandleCreate(p: Primitives, store: SessionStore, f: Family, intent: Json, signature: string, now: nat)
      returns (r: Result<Session, RequestError>)
    requires store.Valid()
    modifies store
    ensures store.Valid() && r == ToCreate(p, f, intent, signature, now)
    ensures store.rows == if r.Success? then CreateIn(old(store.rows), f, r.value) else old(store.rows)
  {
    var verified := Verify(p, intent, signature, None, false, now);
    if verified.Failure? {
      return Failure(IntentVerify(verified.error));
    }
    r := Requested(f, intent, now);
    if r.Success? {
      store.Create(f, r.value);
    }
  }

  // The Hyperliquid handler reports whether a session was revoked, the generic one that it was.
  method HandleRevoke(p: Primitives, store: SessionStore, f: Family, intent: Json, signature: string, now: nat)
      returns (r: Result<bool, RequestError>)
    requires store.Valid()
    modifies store
    ensures store.Valid()
    ensures var target := ToRevoke(p, intent, signature, now);
            if target.Failure? then r == Failure(target.error) && store.rows == old(store.rows)
            else
              && store.rows == RevokeIn(old(store.rows), f, target.value.user, target.value.id)
              && r.Success?
              && (r.value <==> f.Generic? || Mine(old(store.rows), f, target.value.user, target.value.id).Some?)
  {
    var target := ToRevoke(p, intent, signature, now);
    if target.Failure? {
      return Failure(target.error);
    }
    var revoked := store.RevokeSession(f, target.value.user, target.value.id);
    return Success(revoked || f.Generic?);
  }

  // ---------- what is stored, field by field ----------

  // What a Hyperliquid session takes from its intent, each field under its own name.
  lemma HlFields(intent: Json, now: nat)
    requires Requested(Hl, intent, now).Success?
    ensures var s := Requested(Hl, intent, now).value;
            && s.terms.HlTerms? && !s.revoked && s.terms.totalFilled == "0"
            && StrField(intent, "session_id") == Some(s.id) && StrField(intent, "solana_pubkey") == Some(s.owner)
            && U64Field(intent, "expiry") == Some(s.expiry) && StrField(intent, "surface") == Some(s.terms.surface)
            && StrList(intent, "allowed_coins") == Some(s.terms.allowedCoins)
            && StrField(intent, "max_total_usd") == Some(s.terms.maxTotal)
            && StrField(intent, "max_order_size_usd") == Some(s.terms.maxOrderSize)
            && U64Field(intent, "max_leverage") == Some(s.terms.maxLeverage)
            && StrField(intent, "delegate_pubkey") == s.terms.delegate
  {
  }

  // And a generic one, with its defaults for an absent whitelist and an absent lowest price.
  lemma GenericFields(intent: Json, now: nat)
    requires Requested(Generic, intent, now).Success?
    ensures var s := Requested(Generic, intent, now).value;
            && s.terms.GenericTerms? && !s.revoked && s.terms.totalFilled == "0" && s.terms.createdAt == now
            && StrField(intent, "session_id") == Some(s.id) && StrField(intent, "solana_pubkey") == Some(s.owner)
            && U64Field(intent, "expiry") == Some(s.expiry) && StrField(intent, "surface") == Some(s.terms.surface)
            && StrField(intent, "whitelist_mode") == Some(s.terms.whitelistMode)
            && StrList(intent, "whitelist_ids") in {Some(s.terms.whitelistIds), None}
            && (StrList(intent, "whitelist_ids").None? ==> s.terms.whitelistIds == [])
            && StrField(intent, "max_total_usdc") == Some(s.terms.maxTotal)
            && StrField(intent, "max_order_size_usdc") == Some(s.terms.maxOrderSize)
            && StrField(intent, "max_price") == Some(s.terms.maxPrice)
            && StrField(intent, "min_price") in {Some(s.terms.minPrice), None}
            && (StrField(intent, "min_price").None? ==> s.terms.minPrice == "0")
            && StrField(intent, "delegate_pubkey") == s.terms.delegate
  {
  }

  // The fields without which an intent creates nothing.
  predicate HasStr(intent: Json, field: string) { StrField(intent, field).Some? }

  lemma RequestedExactly(f: Family, intent: Json, now: nat)
    ensures Requested(f, intent, now).Success? <==>
              && HasStr(intent, "solana_pubkey") && HasStr(intent, "session_id") && HasStr(intent, "surface")
              && U64Field(intent, "expiry").Some?
              && match f
                 case Hl =>
                   HasStr(intent, "max_total_usd") && HasStr(intent, "max_order_size_usd")
                   && StrList(intent, "allowed_coins").Some? && U64Field(intent, "max_leverage").Some?
                 case Generic =>
                   HasStr(intent, "max_total_usdc") && HasStr(intent, "max_order_size_usdc")
                   && HasStr(intent, "whitelist_mode") && HasStr(intent, "max_price")
  {
  }

  // An intent that creates nothing is refused for the first field it lacks, in this order.
  lemma HlFirstMissing(intent: Json, now: nat)
    requires Requested(Hl, intent, now).Failure?
    ensures Requested(Hl, intent, now).error.IntentMissing?
    ensures var field := Requested(Hl, intent, now).error.field;
            if StrField(intent, "solana_pubkey").None? then field == "solana_pubkey"
            else if StrField(intent, "session_id").None? then field == "session_id"
            else if StrList(intent, "allowed_coins").None? then field == "allowed_coins"
            else if StrField(intent, "surface").None? then field == "surface"
            else if StrField(intent, "max_total_usd").None? then field == "max_total_usd"
            else if StrField(intent, "max_order_size_usd").None? then field == "max_order_size_usd"
            else if U64Field(intent, "max_leverage").None? then field == "max_leverage"
            else if U64Field(intent, "expiry").None? then field == "expiry"
            else false
  {
  }

  lemma GenericFirstMissing(intent: Json, now: nat)
    requires Requested(Generic, intent, now).Failure?
    ensures Requested(Generic, intent, now).error.IntentMissing?
    ensures var field := Requested(Generic, intent, now).error.field;
            if StrField(intent, "solana_pubkey").None? then field == "solana_pubkey"
            else if StrField(intent, "session_id").None? then field == "session_id"
            else if StrField(intent, "surface").None? then field == "surface"
            else if StrField(intent, "whitelist_mode").None? then field == "whitelist_mode"
            else if StrField(intent, "max_total_usdc").None? then field == "max_total_usdc"
            else if StrField(intent, "max_order_size_usdc").None? then field == "max_order_size_usdc"
            else if StrField(intent, "max_price").None? then field == "max_price"
            else if U64Field(intent, "expiry").None? then field == "expiry"
            else false
  {
  }

  // A list of strings is read item by item, in order; items of other kinds are passed over.
  lemma {:induction false} StringsItem(before: seq<Json>, item: Json, rest: seq<Json>)
    ensures Strings(before + ([item] + rest))
         == Strings(before) + ((if item.String? then [item.s] else []) + Strings(rest))
    ensures Strings([]) == []
  {
    var found := (if item.String? then [item.s] else []) + Strings(rest);
    FirstOfStrings(item, rest);
    if before == [] {
      assert before + ([item] + rest) == [item] + rest;
      assert [] + found == found;
    } else {
      var more := before[1..];
      StringsItem(more, item, rest);
      FirstOfStrings(before[0], more + ([item] + rest));
      Assoc([before[0]], more, [item] + rest);
      assert before == [before[0]] + more;
      Assoc(if before[0].String? then [before[0].s] else [], Strings(more), found);
    }
  }

  lemma FirstOfStrings(item: Json, rest: seq<Json>)
    ensures Strings([item] + rest) == (if item.String? then [item.s] else []) + Strings(rest)
  {
    assert ([item] + rest)[1..] == rest;
  }

  // The list is that of the member with this name, if it is an array; there is no other.
  lemma ListIsMember(v: Json, field: string, items: seq<Json>)
    requires Valid(v)
    ensures v.Object? && Entry(field, Array(items)) in v.entries ==> StrList(v, field) == Some(Strings(items))
    ensures StrList(v, field).Some? ==> v.Object? && Get(v, field).Some? && Entry(field, Get(v, field).value) in v.entries
    ensures StrList(v, field).Some? ==> Get(v, field).value.Array?
  {
    if v.Object? && HasKey(v.entries, field) {
      var i :| 0 <= i < |v.entries| && v.entries[i] == Entry(field, Lookup(v.entries, field));
      if Entry(field, Array(items)) in v.entries {
        var j :| 0 <= j < |v.entries| && v.entries[j] == Entry(field, Array(items));
        assert i == j;
      }
    } else if v.Object? {
      assert forall e :: e in v.entries ==> e.key != field;
    }
  }

  // A revoke names its session and its user by the same two fields.
  lemma TargetFields(p: Primitives, intent: Json, signature: string, now: nat)
    requires ToRevoke(p, intent, signature, now).Success?
    ensures var target := ToRevoke(p, intent, signature, now).value;
            StrField(intent, "solana_pubkey") == Some(target.user) && StrField(intent, "session_id") == Some(target.id)
  {
  }

  // ---------- what a created session means ----------

  // Only the owner of a session creates it: the owner's key signed the intent.
  lemma CreatorSigned(p: Primitives, f: Family, intent: Json, signature: string, now: nat)
    requires ToCreate(p, f, intent, signature, now).Success?
    ensures SignedBy(p, intent, signature, ToCreate(p, f, intent, signature, now).value.owner)
  {
    VerifyIsSignedBy(p, intent, signature, false, now);
    var user :| SignedBy(p, intent, signature, user);
    assert Requested(f, intent, now).value.owner == user;
  }

  // And only its owner revokes it.
  lemma RevokerSigned(p: Primitives, intent: Json, signature: string, now: nat)
    requires ToRevoke(p, intent, signature, now).Success?
    ensures SignedBy(p, intent, signature, ToRevoke(p, intent, signature, now).value.user)
  {
    VerifyIsSignedBy(p, intent, signature, false, now);
  }

  lemma {:induction false} SameStrings(vs: seq<Json>, ws: seq<Json>)
    requires |vs| == |ws| && forall i :: 0 <= i < |vs| ==> Same(vs[i], ws[i])
    ensures Strings(vs) == Strings(ws)
  {
    if vs != [] {
      assert Same(vs[0], ws[0]);
      assert forall i :: 0 <= i < |vs| - 1 ==> Same(vs[1..][i], ws[1..][i]);
      SameStrings(vs[1..], ws[1..]);
    }
  }

  lemma SameStrList(v: Json, w: Json, field: string)
    requires Valid(v) && Valid(w) && Same(v, w)
    ensures StrList(v, field) == StrList(w, field)
  {
    SameField(v, w, field);
    if StrList(v, field).Some? {
      SameStrings(Get(v, field).value.items, Get(w, field).value.items);
    }
  }

  lemma SameReqs(v: Json, w: Json, field: string)
    requires Valid(v) && Valid(w) && Same(v, w)
    ensures ReqStr(v, field) == ReqStr(w, field) && ReqU64(v, field) == ReqU64(w, field)
    ensures StrField(v, field) == StrField(w, field)
  {
    SameReads(v, w, field);
  }

  lemma SameHl(v: Json, w: Json)
    requires Valid(v) && Valid(w) && Same(v, w)
    ensures HlSession(v) == HlSession(w)
  {
    SameReqs(v, w, "solana_pubkey");
    SameReqs(v, w, "session_id");
    SameStrList(v, w, "allowed_coins");
    SameReqs(v, w, "surface");
    SameReqs(v, w, "max_total_usd");
    SameReqs(v, w, "max_order_size_usd");
    SameReqs(v, w, "max_leverage");
    SameReqs(v, w, "expiry");
    SameReqs(v, w, "delegate_pubkey");
  }

  lemma SameGeneric(v: Json, w: Json, now: nat)
    requires Valid(v) && Valid(w) && Same(v, w)
    ensures GenericSession(v, now) == GenericSession(w, now)
  {
    SameReqs(v, w, "solana_pubkey");
    SameReqs(v, w, "session_id");
    SameStrList(v, w, "whitelist_ids");
    SameReqs(v, w, "surface");
    SameReqs(v, w, "whitelist_mode");
    SameReqs(v, w, "max_total_usdc");
    SameReqs(v, w, "max_order_size_usdc");
    SameReqs(v, w, "max_price");
    SameReqs(v, w, "min_price");
    SameReqs(v, w, "expiry");
    SameReqs(v, w, "delegate_pubkey");
  }

  // Reordering members of the intent, at any depth, changes neither what is created nor the error.
  lemma MemberOrderIrrelevant(p: Primitives, f: Family, v: Json, w: Json, signature: string, now: nat)
    requires Valid(v) && Valid(w) && Same(v, w)
    ensures ToCreate(p, f, v, signature, now) == ToCreate(p, f, w, signature, now)
  {
    OrderIrrelevant(p, v, w, signature, None, false, now);
    SameHl(v, w);
    SameGeneric(v, w, now);
  }
}

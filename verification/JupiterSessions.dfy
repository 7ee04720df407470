/**
 The Jupiter session row: its three handlers, each of which reads the row, decides, and may
 write it back (crates/server/src/routes/jupiter_session.rs and sign_jupiter_tx.rs), and
 what any run of them does to the spend counter.
 */
module JupiterSessions {
  import Bytes
  import opened Wrappers
  import opened Decimals
  import opened SessionTable

  const U128_RANGE: nat := 0x1_0000_0000_0000_0000_0000_0000_0000_0000

  // A decimal string read as a u128: an optional plus sign, then digits.
  function ParseU128(s: string): Option<nat> {
    var digits := if |s| > 1 && s[0] == '+' then s[1..] else s;
    if digits != "" && AllDigits(digits) && NumberOf(digits) < U128_RANGE then Some(NumberOf(digits)) else None
  }

  function AmountOf(amount: string): nat {
    match ParseU128(amount) case Some(n) => n case None => 0
  }

  predicate IsNumeral(s: string, n: nat) {
    s != "" && AllDigits(s) && NumberOf(s) == n
  }

  // A text is read as a number exactly if it is the digits of it, with at most a plus sign in
  // front, and the number fits in 16 bytes.
  lemma ParseU128Exactly(s: string, n: nat)
    ensures ParseU128(s) == Some(n) <==>
              n < Bytes.Pow(256, 16) && (IsNumeral(s, n) || (s != "" && s[0] == '+' && IsNumeral(s[1..], n)))
  {
    U128InSixteenBytes();
    ParseCases(s);
  }

  lemma U128InSixteenBytes()
    ensures Bytes.Pow(256, 16) == U128_RANGE
  {
    assert Bytes.Pow(256, 4) == 0x1_0000_0000;
    Bytes.PowAdd(256, 4, 4);
    Bytes.PowAdd(256, 8, 8);
  }

  lemma ParseCases(s: string)
    ensures s != "" && AllDigits(s) ==>
              ParseU128(s) == if NumberOf(s) < U128_RANGE then Some(NumberOf(s)) else None
    ensures |s| > 1 && s[0] == '+' && AllDigits(s[1..]) ==>
              !AllDigits(s) && ParseU128(s) == if NumberOf(s[1..]) < U128_RANGE then Some(NumberOf(s[1..])) else None
    ensures ParseU128(s).Some? ==> s != "" && (AllDigits(s) || (|s| > 1 && s[0] == '+' && AllDigits(s[1..])))
  {
    if s != "" {
      assert !IsDigit('+');
      assert AllDigits(s) ==> IsDigit(s[0]);
    }
  }

  // Writing a counter and reading it back.
  lemma CounterRoundTrip(n: nat)
    requires n < U128_RANGE
    ensures ParseU128(Numeral(n)) == Some(n)
  {
    NumeralRoundTrip(n);
    assert IsDigit(Numeral(n)[0]);
  }

  // ---------- the bounds check ----------

  datatype Verdict =
    | Stored                 // upsert, or revoke of an existing row
    | NoRow                  // revoke of a missing row
    | Unbounded              // sign without a session: the signature alone authorises it
    | Debited(used: nat)     // sign within the session, the counter moved to `used`
    | Revoked
    | Expired
    | AssetNotAllowed
    | PerIntentExceeded
    | CumulativeExceeded
    | Unparsable(field: string)
    | Aborted                // u128 addition overflows and the process aborts
    | BadPubkey

  // The session bounds in the order they are checked.
  function CheckBounds(s: JupiterSession, asset: string, size: nat, now: nat): (v: Verdict)
    ensures v.Debited? ==> v.used < U128_RANGE
  {
    if s.revoked then Revoked
    else if s.expiresAt < now then Expired
    else if asset !in s.allowedAssets then AssetNotAllowed
    else
      match ParseU128(s.perIntentMax)
      case None => Unparsable("per_intent_max_size_usdc_atoms")
      case Some(perIntent) =>
        if size > perIntent then PerIntentExceeded
        else
          match ParseU128(s.cap)
          case None => Unparsable("cumulative_size_usdc_cap")
          case Some(cap) =>
            match ParseU128(s.used)
            case None => Unparsable("cumulative_size_usdc_used")
            case Some(used) =>
              if used + size >= U128_RANGE then Aborted
              else if used + size > cap then CumulativeExceeded
              else Debited(used + size)
  }

  // ---------- the handlers ----------

  // What a caller asks. An upsert names the delegate derived from the pubkey, if it decodes.
  // A signature request has been verified and its trade decoded.
  datatype Request =
    | Upsert(user: string, delegate: Option<string>, perIntentMax: string, cap: string,
             assets: seq<string>, expiresAt: nat, surface: string, now: nat)
    | Revoke(user: string)
    | Sign(user: string, asset: string, size: nat, now: nat)

  datatype Decision = Decision(verdict: Verdict, put: Option<JupiterSession>)

  // What a handler does once it has read the row.
  function Decide(row: Option<JupiterSession>, r: Request): Decision {
    match r
    case Upsert(user, delegate, perIntentMax, cap, assets, expiresAt, surface, now) =>
      if delegate.None? then Decision(BadPubkey, None)
      else
        var used := if row.Some? then row.value.used else "0";
        var createdAt := if row.Some? then row.value.createdAt else now;
        Decision(Stored, Some(JupiterSession(user, delegate.value, perIntentMax, cap, used, assets,
                                             expiresAt, createdAt, false, surface)))
    case Revoke(_) =>
      if row.None? then Decision(NoRow, None)
      else Decision(Stored, Some(row.value.(revoked := true)))
    case Sign(_, asset, size, now) =>
      if row.None? then Decision(Unbounded, None)
      else
        var v := CheckBounds(row.value, asset, size, now);
        Decision(v, if v.Debited? then Some(row.value.(used := Numeral(v.used))) else None)
  }

  // ---------- the ledger of one user ----------

  // What happens to one user's row: a request is handled, or the table drops the row when
  // its time to live is over.
  datatype Event = Handled(r: Request) | Dropped

  function After(row: Option<JupiterSession>, e: Event): Option<JupiterSession> {
    match e
    case Dropped => None
    case Handled(r) => var put := Decide(row, r).put; if put.Some? then put else row
  }

  // The books an auditor would keep from requests and verdicts alone, without reading the
  // counter: the sizes debited, and the largest cap registered, since the row was created.
  datatype Books = Books(open: bool, debited: nat, maxCap: nat)

  const CLOSED: Books := Books(false, 0, 0)

  function Max(a: nat, b: nat): nat { if a < b then b else a }

  function Record(b: Books, row: Option<JupiterSession>, e: Event): Books {
    match e
    case Dropped => CLOSED
    case Handled(r) =>
      var v := Decide(row, r).verdict;
      match r
      case Upsert(_, _, _, cap, _, _, _, _) =>
        if !v.Stored? then b
        else if b.open then b.(maxCap := Max(b.maxCap, AmountOf(cap)))
        else Books(true, 0, AmountOf(cap))
      case Revoke(_) => b
      case Sign(_, _, size, _) => if v.Debited? then b.(debited := b.debited + size) else b
  }

  function RowAfter(row: Option<JupiterSession>, es: seq<Event>): Option<JupiterSession>
    decreases |es|
  {
    if es == [] then row else RowAfter(After(row, es[0]), es[1..])
  }

  function BooksAfter(b: Books, row: Option<JupiterSession>, es: seq<Event>): Books
    decreases |es|
  {
    if es == [] then b else BooksAfter(Record(b, row, es[0]), After(row, es[0]), es[1..])
  }

  // The row agrees with the books.
  predicate Balanced(b: Books, row: Option<JupiterSession>) {
    && b.open == row.Some?
    && (row.Some? ==>
          && ParseU128(row.value.used) == Some(b.debited)
          && AmountOf(row.value.cap) <= b.maxCap
          && b.debited <= b.maxCap)
  }

  lemma BalancedSign(b: Books, row: Option<JupiterSession>, r: Request)
    requires Balanced(b, row) && r.Sign?
    ensures Balanced(Record(b, row, Handled(r)), After(row, Handled(r)))
  {
    if row.Some? {
      var v := CheckBounds(row.value, r.asset, r.size, r.now);
      if v.Debited? {
        CounterRoundTrip(v.used);
      }
    }
  }

  lemma BalancedUpsert(b: Books, row: Option<JupiterSession>, r: Request)
    requires Balanced(b, row) && r.Upsert?
    ensures Balanced(Record(b, row, Handled(r)), After(row, Handled(r)))
  {
    assert ParseU128("0") == Some(0) by {
      CounterRoundTrip(0);
      assert Numeral(0) == "0";
    }
  }

  lemma BalancedStep(b: Books, row: Option<JupiterSession>, e: Event)
    requires Balanced(b, row)
    ensures Balanced(Record(b, row, e), After(row, e))
  {
    if e.Handled? {
      match e.r {
        case Sign(_, _, _, _) => BalancedSign(b, row, e.r);
        case Upsert(_, _, _, _, _, _, _, _) => BalancedUpsert(b, row, e.r);
        case Revoke(_) =>
      }
    }
  }

  // Conservation: over any run of upserts, revokes, signatures and expiries, the stored
  // counter is the sum of the sizes debited since the row was created, and it never exceeds
  // the largest cap registered since then.
  lemma {:induction false} Conservation(b: Books, row: Option<JupiterSession>, es: seq<Event>)
    requires Balanced(b, row)
    ensures Balanced(BooksAfter(b, row, es), RowAfter(row, es))
    decreases |es|
  {
    if es != [] {
      BalancedStep(b, row, es[0]);
      Conservation(Record(b, row, es[0]), After(row, es[0]), es[1..]);
    }
  }

  // While the row persists the counter never decreases.
  lemma CounterMonotone(b: Books, row: Option<JupiterSession>, e: Event)
    requires Balanced(b, row) && row.Some? && e.Handled?
    ensures After(row, e).Some?
    ensures ParseU128(row.value.used).Some? && ParseU128(After(row, e).value.used).Some?
    ensures ParseU128(row.value.used).value <= ParseU128(After(row, e).value.used).value
  {
    BalancedStep(b, row, e);
  }

  // A debit moves the counter by exactly the trade size, within the cap then in force and the
  // per-intent limit, for an allowed asset of a live session; nothing else in the row changes.
  lemma DebitWithinBounds(row: Option<JupiterSession>, r: Request)
    requires r.Sign? && Decide(row, r).verdict.Debited?
    ensures row.Some? && Decide(row, r).put.Some?
    ensures var before, after := row.value, Decide(row, r).put.value;
            && !before.revoked && r.now <= before.expiresAt && r.asset in before.allowedAssets
            && ParseU128(before.used).Some? && ParseU128(after.used).Some?
            && ParseU128(after.used).value == ParseU128(before.used).value + r.size
            && r.size <= AmountOf(before.perIntentMax) && ParseU128(after.used).value <= AmountOf(before.cap)
            && after == before.(used := after.used)
  {
    CounterRoundTrip(Decide(row, r).verdict.used);
  }

  // A session refuses a trade exactly when a bound is broken; a trade is never refused for
  // the counter being unreadable while the books balance.
  lemma AdmitsExactly(b: Books, row: Option<JupiterSession>, r: Request)
    requires Balanced(b, row) && row.Some? && r.Sign?
    ensures var s := row.value;
            Decide(row, r).verdict.Debited? <==>
              && !s.revoked && r.now <= s.expiresAt && r.asset in s.allowedAssets
              && ParseU128(s.perIntentMax).Some? && r.size <= AmountOf(s.perIntentMax)
              && ParseU128(s.cap).Some? && b.debited + r.size <= AmountOf(s.cap)
  {
  }

  // An upsert replaces the terms and keeps the spend: afterwards a trade is admitted exactly
  // within the requested bounds, measured against everything debited before, which is nothing
  // if the session is new.
  lemma AdmittedAfterUpsert(b: Books, row: Option<JupiterSession>, u: Request, r: Request)
    requires Balanced(b, row) && u.Upsert? && u.delegate.Some? && r.Sign?
    ensures Decide(After(row, Handled(u)), r).verdict.Debited? <==>
              && r.now <= u.expiresAt && r.asset in u.assets
              && ParseU128(u.perIntentMax).Some? && r.size <= AmountOf(u.perIntentMax)
              && ParseU128(u.cap).Some? && (if row.Some? then b.debited else 0) + r.size <= AmountOf(u.cap)
  {
    BalancedUpsert(b, row, u);
    AdmitsExactly(Record(b, row, Handled(u)), After(row, Handled(u)), r);
  }

  // What an upsert stores, field by field: the requested terms, and of an earlier session only
  // the spend and the creation time. Without a valid key nothing is stored.
  lemma UpsertStores(row: Option<JupiterSession>, u: Request)
    requires u.Upsert?
    ensures u.delegate.None? ==> After(row, Handled(u)) == row
    ensures u.delegate.Some? ==>
              var after := After(row, Handled(u));
              && after.Some? && after.value.owner == u.user && after.value.delegate == u.delegate.value
              && after.value.perIntentMax == u.perIntentMax && after.value.cap == u.cap
              && after.value.allowedAssets == u.assets && after.value.expiresAt == u.expiresAt
              && after.value.surface == u.surface && !after.value.revoked
              && (row.Some? ==> after.value.used == row.value.used && after.value.createdAt == row.value.createdAt)
              && (row.None? ==> ParseU128(after.value.used) == Some(0) && after.value.createdAt == u.now)
  {
    assert ParseU128("0") == Some(0) by {
      CounterRoundTrip(0);
      assert Numeral(0) == "0";
    }
  }

  // A revoke marks the row and changes nothing else in it; there is nothing to revoke without one.
  lemma RevokeStores(row: Option<JupiterSession>, r: Request)
    requires r.Revoke?
    ensures Decide(row, r).verdict == if row.Some? then Stored else NoRow
    ensures var after := After(row, Handled(r));
            && after.Some? == row.Some?
            && (row.Some? ==> after.value.revoked && after.value.(revoked := row.value.revoked) == row.value)
  {
  }

  // Without a session, and only then, the intent's own signature is enough, and nothing is stored.
  lemma UnboundedExactly(row: Option<JupiterSession>, r: Request)
    requires r.Sign?
    ensures Decide(row, r).verdict.Unbounded? <==> row.None?
    ensures row.None? ==> After(row, Handled(r)).None?
  {
    if row.Some? {
      var v := CheckBounds(row.value, r.asset, r.size, r.now);
      assert Decide(row, r).verdict == v;
    }
  }

  // The bounds, one after another.
  predicate Live(s: JupiterSession, now: nat) { !s.revoked && now <= s.expiresAt }

  predicate Allowed(s: JupiterSession, r: Request)
    requires r.Sign?
  {
    Live(s, r.now) && r.asset in s.allowedAssets
  }

  predicate SmallEnough(s: JupiterSession, r: Request)
    requires r.Sign?
  {
    Allowed(s, r) && ParseU128(s.perIntentMax).Some? && r.size <= AmountOf(s.perIntentMax)
  }

  // A refusal changes nothing, and names a bound that the trade breaks while it keeps those that
  // are checked before.
  lemma RefusalsAreTrue(row: Option<JupiterSession>, r: Request)
    requires row.Some? && r.Sign? && !Decide(row, r).verdict.Debited?
    ensures After(row, Handled(r)) == row
    ensures var s := row.value;
            match Decide(row, r).verdict
            case Revoked => s.revoked
            case Expired => s.expiresAt < r.now && !s.revoked
            case AssetNotAllowed => r.asset !in s.allowedAssets && Live(s, r.now)
            case PerIntentExceeded => r.size > AmountOf(s.perIntentMax) && ParseU128(s.perIntentMax).Some? && Allowed(s, r)
            case CumulativeExceeded => AmountOf(s.cap) < AmountOf(s.used) + r.size < U128_RANGE && SmallEnough(s, r)
            case Aborted => AmountOf(s.used) + r.size >= U128_RANGE && SmallEnough(s, r)
            case Unparsable(field) =>
              if field == "per_intent_max_size_usdc_atoms" then ParseU128(s.perIntentMax).None? && Allowed(s, r)
              else if field == "cumulative_size_usdc_cap" then ParseU128(s.cap).None? && SmallEnough(s, r)
              else
                && field == "cumulative_size_usdc_used" && ParseU128(s.used).None?
                && ParseU128(s.cap).Some? && SmallEnough(s, r)
            case _ => false
  {
  }

  // While the row persists it keeps its creation time.
  lemma {:induction false} CreationTimeKept(row: Option<JupiterSession>, es: seq<Event>)
    requires row.Some? && forall i :: 0 <= i < |es| ==> es[i].Handled?
    ensures RowAfter(row, es).Some? && RowAfter(row, es).value.createdAt == row.value.createdAt
    decreases |es|
  {
    if es != [] {
      assert forall i :: 0 <= i < |es| - 1 ==> es[1..][i] == es[i + 1];
      CreationTimeKept(After(row, es[0]), es[1..]);
    }
  }

  // When requests are handled one after another, a revoked session is frozen: until the next
  // upsert no request changes the row in any way, and every trade is refused as revoked.
  lemma {:induction false} RevokedIsFrozen(row: Option<JupiterSession>, es: seq<Event>)
    requires row.Some? && row.value.revoked
    requires forall i :: 0 <= i < |es| ==> es[i].Handled? && !es[i].r.Upsert?
    ensures RowAfter(row, es) == row
    ensures forall i :: 0 <= i < |es| && es[i].r.Sign? ==> Decide(RowAfter(row, es[..i]), es[i].r).verdict.Revoked?
  {
    FrozenRow(row, es);
    forall i | 0 <= i < |es| && es[i].r.Sign?
      ensures Decide(RowAfter(row, es[..i]), es[i].r).verdict.Revoked?
    {
      FrozenRow(row, es[..i]);
    }
  }

  lemma {:induction false} FrozenRow(row: Option<JupiterSession>, es: seq<Event>)
    requires row.Some? && row.value.revoked
    requires forall i :: 0 <= i < |es| ==> es[i].Handled? && !es[i].r.Upsert?
    ensures RowAfter(row, es) == row
    decreases |es|
  {
    if es != [] {
      assert After(row, es[0]) == row;
      assert forall i :: 0 <= i < |es| - 1 ==> es[1..][i] == es[i + 1];
      FrozenRow(row, es[1..]);
    }
  }

  function DebitOf(row: Option<JupiterSession>, e: Event): nat {
    if e.Handled? && e.r.Sign? && Decide(row, e.r).verdict.Debited? then e.r.size else 0
  }

  lemma RecordsDebit(b: Books, row: Option<JupiterSession>, e: Event)
    requires b.open && e.Handled?
    ensures Record(b, row, e).open && Record(b, row, e).debited == b.debited + DebitOf(row, e)
  {
  }

  // A signature may still fail to be produced after its debit. Whatever subset of the debited
  // trades is signed, their sizes sum to at most the largest cap registered.
  function SignedSum(row: Option<JupiterSession>, es: seq<Event>, signed: seq<bool>): nat
    requires |signed| == |es|
    decreases |es|
  {
    if es == [] then 0
    else
      (if signed[0] then DebitOf(row, es[0]) else 0) + SignedSum(After(row, es[0]), es[1..], signed[1..])
  }

  lemma {:induction false} SignedWithinDebited(b: Books, row: Option<JupiterSession>, es: seq<Event>, signed: seq<bool>)
    requires Balanced(b, row) && b.open && |signed| == |es| && forall i :: 0 <= i < |es| ==> es[i].Handled?
    ensures b.debited + SignedSum(row, es, signed) <= BooksAfter(b, row, es).debited
    ensures BooksAfter(b, row, es).open
    decreases |es|
  {
    if es != [] {
      BalancedStep(b, row, es[0]);
      RecordsDebit(b, row, es[0]);
      var b' := Record(b, row, es[0]);
      assert forall i :: 0 <= i < |es| - 1 ==> es[1..][i] == es[i + 1];
      SignedWithinDebited(b', After(row, es[0]), es[1..], signed[1..]);
    }
  }

  // The cap is a bound on signatures: from the creation of the row on, however it is upserted
  // and revoked, the signed sizes sum to at most the largest cap ever registered.
  lemma SignedWithinLargestCap(creation: Request, es: seq<Event>, signed: seq<bool>)
    requires creation.Upsert? && creation.delegate.Some?
    requires |signed| == |es| && forall i :: 0 <= i < |es| ==> es[i].Handled?
    ensures var row := After(None, Handled(creation));
            SignedSum(row, es, signed) <= BooksAfter(CLOSED, None, [Handled(creation)] + es).maxCap
  {
    var first := Handled(creation);
    var row := After(None, first);
    var b := Record(CLOSED, None, first);
    BalancedStep(CLOSED, None, first);
    SignedWithinDebited(b, row, es, signed);
    Conservation(b, row, es);
    assert ([first] + es)[1..] == es;
  }

  // The largest cap is the largest cap of an upsert in the run, or of the creation.
  lemma {:induction false} MaxCapIsRegistered(b: Books, row: Option<JupiterSession>, es: seq<Event>)
    requires b.open && row.Some? && forall i :: 0 <= i < |es| ==> es[i].Handled?
    ensures var m := BooksAfter(b, row, es).maxCap;
            m == b.maxCap || exists i :: 0 <= i < |es| && es[i].r.Upsert? && AmountOf(es[i].r.cap) == m
    decreases |es|
  {
    if es != [] {
      var b', rest := Record(b, row, es[0]), es[1..];
      assert forall i :: 0 <= i < |rest| ==> rest[i] == es[i + 1];
      MaxCapIsRegistered(b', After(row, es[0]), rest);
      var m := BooksAfter(b, row, es).maxCap;
      if m != b'.maxCap {
        var i :| 0 <= i < |rest| && rest[i].r.Upsert? && AmountOf(rest[i].r.cap) == m;
        assert es[i + 1].r.Upsert? && AmountOf(es[i + 1].r.cap) == m;
      } else if m != b.maxCap {
        assert es[0].r.Upsert? && AmountOf(es[0].r.cap) == m;
      }
    }
  }
}

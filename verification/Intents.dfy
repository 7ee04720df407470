/**
 Verification of a signed intent (crates/core/src/intents.rs): which fields are read, which
 text is checked against the signature, and in which order the checks fail.
 */
module Intents {
  import opened Bytes
  import opened Wrappers
  import opened CanonicalJson
  import opened JsonEquality

  datatype SolanaError =
    | Bs58Pubkey(message: string)
    | PubkeyLength(got: nat)
    | EmptySignature
    | HexSignatureLength(got: nat)
    | SignatureDecode(message: string)
    | Bs58SignatureLength(got: nat)
    | InvalidVerifyingKey

  datatype IntentError =
    | MissingPubkey
    | Expired(expiry: nat, now: nat)
    | BadBs58(message: string)
    | WrongPubkeyLength(got: nat)
    | WrongSignatureLength(got: nat)
    | InvalidSignature
    | Solana(error: SolanaError)

  // The base58 and Ed25519 primitives, about which nothing is assumed. A message is given
  // as the text whose UTF-8 octets are signed.
  datatype Primitives = Primitives(
    decodePubkey: string -> Result<seq<byte>, SolanaError>,
    decodeSignature: string -> Result<seq<byte>, SolanaError>,
    verify: (string, seq<byte>, seq<byte>) -> Result<bool, SolanaError>)

  // ---------- reading fields ----------

  function Get(v: Json, field: string): Option<Json> {
    if v.Object? && HasKey(v.entries, field) then Some(Lookup(v.entries, field)) else None
  }

  function StrField(v: Json, field: string): Option<string> {
    match Get(v, field)
    case Some(String(s)) => Some(s)
    case _ => None
  }

  function U64Field(v: Json, field: string): Option<nat> {
    match Get(v, field)
    case Some(Number(n)) => if 0 <= n < U64_RANGE then Some(n) else None
    case _ => None
  }

  // ---------- the check ----------

  function PubkeyError(e: SolanaError): IntentError {
    match e
    case Bs58Pubkey(message) => BadBs58(message)
    case PubkeyLength(got) => WrongPubkeyLength(got)
    case other => Solana(other)
  }

  function SignatureError(e: SolanaError): IntentError {
    match e
    case SignatureDecode(message) => BadBs58(message)
    case Bs58SignatureLength(got) => WrongSignatureLength(got)
    case HexSignatureLength(got) => WrongSignatureLength(got)
    case other => Solana(other)
  }

  function MapError<T, E, F>(r: Result<T, E>, f: E -> F): Result<T, F> {
    match r case Success(v) => Success(v) case Failure(e) => Failure(f(e))
  }

  function Signer(intent: Json, expected: Option<string>): Result<string, IntentError> {
    if expected.Some? && expected.value != "" then Success(expected.value)
    else
      match StrField(intent, "solana_pubkey")
      case Some(s) => if s != "" then Success(s) else Failure(MissingPubkey)
      case None => Failure(MissingPubkey)
  }

  // The checks once the signer is known, in order: expiry, key, signature, and the text.
  function Judge(p: Primitives, signer: string, expiry: Option<nat>, text: string, signature: string,
                 enforceExpiry: bool, now: nat): Result<(), IntentError>
  {
    if enforceExpiry && expiry.Some? && expiry.value < now then Failure(Expired(expiry.value, now))
    else
      var pubkey :- MapError(p.decodePubkey(signer), e => PubkeyError(e));
      var sig :- MapError(p.decodeSignature(signature), e => SignatureError(e));
      var ok :- MapError(p.verify(text, sig, pubkey), e => Solana(e));
      if ok then Success(()) else Failure(InvalidSignature)
  }

  function Verify(p: Primitives, intent: Json, signature: string, expected: Option<string>,
                  enforceExpiry: bool, now: nat): Result<(), IntentError>
  {
    var signer :- Signer(intent, expected);
    Judge(p, signer, U64Field(intent, "expiry"), Canonical(intent), signature, enforceExpiry, now)
  }

  // A field is read exactly if the object has such a member: a string, or a number of 64 bits.
  lemma FieldsAreMembers(v: Json, field: string)
    requires Valid(v)
    ensures forall s :: StrField(v, field) == Some(s) <==> v.Object? && Entry(field, String(s)) in v.entries
    ensures forall n: nat :: U64Field(v, field) == Some(n) <==>
                          n < U64_RANGE && v.Object? && Entry(field, Number(n)) in v.entries
  {
    if v.Object? && HasKey(v.entries, field) {
      var found := Lookup(v.entries, field);
      var i :| 0 <= i < |v.entries| && v.entries[i] == Entry(field, found);
      forall e | e in v.entries && e.key == field ensures e.value == found {
        var j :| 0 <= j < |v.entries| && v.entries[j] == e;
      }
    } else if v.Object? {
      assert forall e :: e in v.entries ==> e.key != field;
    }
  }

  // ---------- what a verified intent means ----------

  // The key that the intent names verifies its canonical text.
  predicate SignedBy(p: Primitives, intent: Json, signature: string, user: string) {
    && user != "" && StrField(intent, "solana_pubkey") == Some(user)
    && p.decodePubkey(user).Success? && p.decodeSignature(signature).Success?
    && p.verify(Canonical(intent), p.decodeSignature(signature).value, p.decodePubkey(user).value) == Result.Success(true)
  }

  predicate IsExpired(intent: Json, now: nat) {
    U64Field(intent, "expiry").Some? && U64Field(intent, "expiry").value < now
  }

  // Without an expected key, an intent is accepted exactly if the key it names signed it, and,
  // where expiry is enforced, it has not expired.
  lemma VerifyIsSignedBy(p: Primitives, intent: Json, signature: string, enforceExpiry: bool, now: nat)
    ensures Verify(p, intent, signature, None, enforceExpiry, now).Success? <==>
              (exists user :: SignedBy(p, intent, signature, user)) && (enforceExpiry ==> !IsExpired(intent, now))
  {
    if Verify(p, intent, signature, None, enforceExpiry, now).Success? {
      assert SignedBy(p, intent, signature, StrField(intent, "solana_pubkey").value);
    }
  }

  // With an expected key, that key must have signed, whatever key the intent names; an empty one
  // counts as none.
  lemma VerifyExpected(p: Primitives, intent: Json, signature: string, expected: string, enforceExpiry: bool, now: nat)
    requires expected != ""
    ensures Verify(p, intent, signature, Some(expected), enforceExpiry, now).Success? <==>
              && p.decodePubkey(expected).Success? && p.decodeSignature(signature).Success?
              && p.verify(Canonical(intent), p.decodeSignature(signature).value, p.decodePubkey(expected).value)
                 == Result.Success(true)
              && (enforceExpiry ==> !IsExpired(intent, now))
    ensures Verify(p, intent, signature, Some(""), enforceExpiry, now) == Verify(p, intent, signature, None, enforceExpiry, now)
  {
  }

  // An intent is refused as expired exactly if expiry is enforced, it names a key, and its time
  // is over; the signature is not looked at.
  lemma ExpiredExactly(p: Primitives, intent: Json, signature: string, enforceExpiry: bool, now: nat)
    ensures Verify(p, intent, signature, None, enforceExpiry, now).Failure?
            && Verify(p, intent, signature, None, enforceExpiry, now).error.Expired?
       <==> enforceExpiry && IsExpired(intent, now) && Signer(intent, None).Success?
  {
    if Signer(intent, None).Success? {
      JudgedExpired(p, Signer(intent, None).value, U64Field(intent, "expiry"), Canonical(intent), signature, enforceExpiry, now);
    }
  }

  lemma JudgedExpired(p: Primitives, signer: string, expiry: Option<nat>, text: string, signature: string,
                      enforceExpiry: bool, now: nat)
    ensures var r := Judge(p, signer, expiry, text, signature, enforceExpiry, now);
            r.Failure? && r.error.Expired? <==> enforceExpiry && expiry.Some? && expiry.value < now
  {
  }

  // Of an intent that is not expired, the key is decoded before the signature, and both before
  // the text is checked: the first that fails names the error.
  lemma FirstFailure(p: Primitives, intent: Json, signature: string, user: string, enforceExpiry: bool, now: nat)
    requires StrField(intent, "solana_pubkey") == Some(user) && user != "" && !(enforceExpiry && IsExpired(intent, now))
    ensures var r := Verify(p, intent, signature, None, enforceExpiry, now);
            var key, sig := p.decodePubkey(user), p.decodeSignature(signature);
            if key.Failure? then r == Failure(PubkeyError(key.error))
            else if sig.Failure? then r == Failure(SignatureError(sig.error))
            else match p.verify(Canonical(intent), sig.value, key.value)
                 case Failure(e) => r == Failure(Solana(e))
                 case Success(ok) => r == if ok then Result.Success(()) else Failure(InvalidSignature)
  {
  }

  // Without a key to check against nothing else is looked at.
  lemma MissingExactly(p: Primitives, intent: Json, signature: string, enforceExpiry: bool, now: nat)
    ensures Verify(p, intent, signature, None, enforceExpiry, now) == Failure(MissingPubkey)
       <==> StrField(intent, "solana_pubkey") in {None, Some("")}
  {
  }

  // ---------- member order is irrelevant ----------

  lemma SameField(v: Json, w: Json, field: string)
    requires Valid(v) && Valid(w) && Same(v, w)
    ensures Get(v, field).Some? <==> Get(w, field).Some?
    ensures Get(v, field).Some? ==> Same(Get(v, field).value, Get(w, field).value)
  {
    if v.Object? {
      MapOf(v.entries);
      MapOf(w.entries);
      if HasKey(v.entries, field) {
        var i :| 0 <= i < |v.entries| && v.entries[i] == Entry(field, Lookup(v.entries, field));
        assert field in ToMap(w.entries);
        var j :| 0 <= j < |w.entries| && w.entries[j] == Entry(field, Lookup(w.entries, field));
      }
    }
  }

  lemma SameReads(v: Json, w: Json, field: string)
    requires Valid(v) && Valid(w) && Same(v, w)
    ensures StrField(v, field) == StrField(w, field) && U64Field(v, field) == U64Field(w, field)
  {
    SameField(v, w, field);
  }

  // Two intents that differ in member order only, at any depth, get the same verdict,
  // whichever error it is.
  lemma OrderIrrelevant(p: Primitives, v: Json, w: Json, signature: string, expected: Option<string>,
                        enforceExpiry: bool, now: nat)
    requires Valid(v) && Valid(w) && Same(v, w)
    ensures Verify(p, v, signature, expected, enforceExpiry, now)
         == Verify(p, w, signature, expected, enforceExpiry, now)
  {
    SameReads(v, w, "solana_pubkey");
    SameReads(v, w, "expiry");
    CanonicalDecides(v, w);
  }

  // The signed text fixes every field a handler reads from the intent.
  lemma SignedTextFixesFields(v: Json, w: Json, field: string)
    requires Valid(v) && Valid(w) && Canonical(v) == Canonical(w)
    ensures StrField(v, field) == StrField(w, field) && U64Field(v, field) == U64Field(w, field)
  {
    CanonicalDecides(v, w);
    SameReads(v, w, field);
  }
}

/**
 Signing a Jupiter transaction (crates/server/src/routes/sign_jupiter_tx.rs), end to end: the
 signed intent, the one trade of the message, the session debit, and what a signature means.
 */
module SignJupiter {
  import opened Bytes
  import opened Wrappers
  import opened CanonicalJson
  import opened JsonEquality
  import opened Intents
  import opened JupiterDecode
  import opened SessionTable
  import opened JupiterSessions
  import opened SessionRuns
  import opened SessionHandlers

  // What the enclave is configured with, and the two external decoders of the transaction,
  // about which nothing is assumed.
  datatype Setup = Setup(
    primitives: Primitives,
    decodeBase64: string -> Result<seq<byte>, string>,
    deserialise: seq<byte> -> Result<Message, string>,
    discriminators: Discriminators,
    perps: Pubkey,
    custodySol: Pubkey,
    custodyBtc: Pubkey,
    custodyEth: Pubkey)

  // An instruction names its program and accounts by position.
  datatype Compiled = Compiled(program: nat, data: seq<byte>, accounts: seq<nat>)

  datatype Message = Message(keys: seq<Pubkey>, instructions: seq<Compiled>)

  datatype TxRequest = TxRequest(intent: Json, signature: string, unsignedTx: string)

  datatype SignError =
    | IntentVerify(intent: IntentError)
    | IntentMissing(field: string)
    | Base64(message: string)
    | TxDeserialize(message: string)
    | BadTrade(trade: TradeError)
    | UnknownCustody(custody: Pubkey)
    | AssetMismatch(tx: string, asked: string)
    | InvalidPubkey(pubkey: SolanaError)
    | SessionRefused(verdict: Verdict)

  const DEFAULT_KEY: Pubkey := Repeat(0, 32)

  // Positions past the static keys, those of lookup tables included, read as the default key.
  function KeyAt(keys: seq<Pubkey>, i: nat): Pubkey {
    if i < |keys| then keys[i] else DEFAULT_KEY
  }

  function Resolve(keys: seq<Pubkey>, c: Compiled): Instruction {
    Instruction(KeyAt(keys, c.program), c.data, seq(|c.accounts|, i requires 0 <= i < |c.accounts| => KeyAt(keys, c.accounts[i])))
  }

  function Resolved(m: Message): seq<Instruction> {
    seq(|m.instructions|, i requires 0 <= i < |m.instructions| => Resolve(m.keys, m.instructions[i]))
  }

  function CustodyToAsset(c: Setup, custody: Pubkey): Option<string> {
    if custody == c.custodySol then Some("SOL")
    else if custody == c.custodyBtc then Some("BTC")
    else if custody == c.custodyEth then Some("ETH")
    else None
  }

  function DecodeMessage(c: Setup, unsignedTx: string): Result<Message, SignError> {
    var raw :- MapError(c.decodeBase64(unsignedTx), e => Base64(e));
    MapError(c.deserialise(raw), e => TxDeserialize(e))
  }

  // Who trades what, and how much, by the two fields of the intent and the transaction.
  function Cleared(c: Setup, asset: Option<string>, user: Option<string>, unsignedTx: string, now: nat): Result<Request, SignError> {
    match asset
    case None => Failure(IntentMissing("asset"))
    case Some(named) =>
      var message :- DecodeMessage(c, unsignedTx);
      var trade :- MapError(TheTrade(c.discriminators, c.perps, Resolved(message)), e => BadTrade(e));
      match CustodyToAsset(c, trade.accounts.custody)
      case None => Failure(UnknownCustody(trade.accounts.custody))
      case Some(assetLabel) =>
        if assetLabel != named then Failure(AssetMismatch(assetLabel, named))
        else
          match user
          case None => Failure(IntentMissing("solana_pubkey"))
          case Some(pubkey) =>
            var _ :- MapError(c.primitives.decodePubkey(pubkey), e => InvalidPubkey(e));
            Success(Sign(pubkey, assetLabel, SizeOf(trade), now))
  }

  // Everything before the session is read.
  function Authorise(c: Setup, req: TxRequest, now: nat): Result<Request, SignError> {
    var _ :- MapError(Verify(c.primitives, req.intent, req.signature, None, true, now), e => IntentVerify(e));
    Cleared(c, StrField(req.intent, "asset"), StrField(req.intent, "solana_pubkey"), req.unsignedTx, now)
  }

  // The handler: it signs after a debit, or without one if the user has no session.
  method Handle(c: Setup, store: SessionStore, req: TxRequest, now: nat) returns (signed: Result<Request, SignError>)
    requires store.Valid()
    modifies store
    ensures store.Valid()
    ensures var a := Authorise(c, req, now);
            if a.Failure? then signed == a && store.rows == old(store.rows)
            else
              && store.rows == JupiterStep(old(store.rows), a.value)
              && var v := Decide(JupiterOf(old(store.rows), a.value.user), a.value).verdict;
                 if v.Unbounded? || v.Debited? then signed == a
                 else signed == Failure(SessionRefused(v)) && store.rows == old(store.rows)
  {
    var verified := Verify(c.primitives, req.intent, req.signature, None, true, now);
    if verified.Failure? {
      return Failure(IntentVerify(verified.error));
    }
    var asset := StrField(req.intent, "asset");
    if asset.None? {
      return Failure(IntentMissing("asset"));
    }
    var raw := c.decodeBase64(req.unsignedTx);
    if raw.Failure? {
      return Failure(Base64(raw.error));
    }
    var message := c.deserialise(raw.value);
    if message.Failure? {
      return Failure(TxDeserialize(message.error));
    }
    var trade := FindTrade(c.discriminators, c.perps, Resolved(message.value));
    if trade.Failure? {
      return Failure(BadTrade(trade.error));
    }
    var assetLabel := CustodyToAsset(c, trade.value.accounts.custody);
    if assetLabel.None? {
      return Failure(UnknownCustody(trade.value.accounts.custody));
    }
    if assetLabel.value != asset.value {
      return Failure(AssetMismatch(assetLabel.value, asset.value));
    }
    var user := StrField(req.intent, "solana_pubkey");
    if user.None? {
      return Failure(IntentMissing("solana_pubkey"));
    }
    var pubkey := c.primitives.decodePubkey(user.value);
    if pubkey.Failure? {
      return Failure(InvalidPubkey(pubkey.error));
    }
    var request := Sign(user.value, assetLabel.value, SizeOf(trade.value), now);
    var verdict := store.DebitForSign(request);
    if verdict.Unbounded? || verdict.Debited? {
      return Success(request);
    }
    return Failure(SessionRefused(verdict));
  }

  // ---------- what a signature means ----------

  // The user's own key verifies the canonical text of an unexpired intent.
  predicate UserSigned(p: Primitives, intent: Json, signature: string, user: string, now: nat) {
    SignedBy(p, intent, signature, user) && !IsExpired(intent, now)
  }

  // The instructions of the transaction, if it decodes.
  function MessageInstructions(c: Setup, req: TxRequest): seq<Instruction> {
    var message := DecodeMessage(c, req.unsignedTx);
    if message.Success? then Resolved(message.value) else []
  }

  // A request is authorised exactly when its user signed the intent, and the message holds one
  // trade, of the intent's asset; what is authorised is that trade's size for that user.
  lemma AuthorisedExactly(c: Setup, req: TxRequest, now: nat, user: string, asset: string, size: nat)
    ensures Authorise(c, req, now) == Success(Sign(user, asset, size, now)) <==>
              && UserSigned(c.primitives, req.intent, req.signature, user, now)
              && StrField(req.intent, "asset") == Some(asset)
              && DecodeMessage(c, req.unsignedTx).Success?
              && exists trade :: OnlyTrade(c.discriminators, c.perps, MessageInstructions(c, req), trade)
                                 && CustodyToAsset(c, trade.accounts.custody) == Some(asset) && SizeOf(trade) == size
  {
    var ixs := MessageInstructions(c, req);
    VerifyIsSignedBy(c.primitives, req.intent, req.signature, true, now);
    var found := TheTrade(c.discriminators, c.perps, ixs);
    if found.Success? {
      ExactlyOneTrade(c.discriminators, c.perps, ixs, found.value);
    }
    if trade :| OnlyTrade(c.discriminators, c.perps, ixs, trade)
                && CustodyToAsset(c, trade.accounts.custody) == Some(asset) && SizeOf(trade) == size {
      ExactlyOneTrade(c.discriminators, c.perps, ixs, trade);
    }
  }

  // ---------- the octets of the one trade ----------

  // The static key at a position, or the default key past them.
  predicate KeyIs(m: Message, i: nat, key: Pubkey) {
    if i < |m.keys| then m.keys[i] == key else key == Repeat(0, 32)
  }

  // Is this custody the one of the asset? Should two be configured alike, the first counts.
  predicate CustodyIs(c: Setup, m: Message, i: nat, asset: string) {
    || (asset == "SOL" && KeyIs(m, i, c.custodySol))
    || (asset == "BTC" && KeyIs(m, i, c.custodyBtc) && !KeyIs(m, i, c.custodySol))
    || (asset == "ETH" && KeyIs(m, i, c.custodyEth) && !KeyIs(m, i, c.custodySol) && !KeyIs(m, i, c.custodyBtc))
  }

  // An instruction to the perpetuals program that starts with one of the two discriminators.
  predicate IsPerps(c: Setup, m: Message, ix: Compiled) {
    KeyIs(m, ix.program, c.perps) && |ix.data| >= 8
    && (ix.data[..8] == c.discriminators.increase || ix.data[..8] == c.discriminators.decrease)
  }

  // A trade of this asset and size: the size is the first word of an increase and the second of
  // a decrease, and the custody is the eighth account.
  predicate IsTrade(c: Setup, m: Message, ix: Compiled, asset: string, size: nat) {
    && IsPerps(c, m, ix) && |ix.accounts| >= 9 && CustodyIs(c, m, ix.accounts[7], asset) && |ix.data| >= 24
    && size == FromLe(if ix.data[..8] == c.discriminators.increase then ix.data[8..16] else ix.data[16..24])
  }

  lemma KeyIsAt(m: Message, i: nat, key: Pubkey)
    ensures KeyIs(m, i, key) <==> KeyAt(m.keys, i) == key
  {
  }

  lemma CustodyIsLabel(c: Setup, m: Message, i: nat, asset: string)
    requires CustodyToAsset(c, KeyAt(m.keys, i)) == Some(asset)
    ensures CustodyIs(c, m, i, asset)
  {
    KeyIsAt(m, i, c.custodySol);
    KeyIsAt(m, i, c.custodyBtc);
    KeyIsAt(m, i, c.custodyEth);
  }

  lemma TradeIs(c: Setup, m: Message, i: nat, trade: Ix, asset: string)
    requires i < |m.instructions|
    requires TradeOf(c.discriminators, c.perps, Resolved(m)[i]) == Success(Some(trade))
    requires CustodyToAsset(c, trade.accounts.custody) == Some(asset)
    ensures IsTrade(c, m, m.instructions[i], asset, SizeOf(trade))
  {
    var ix, r := m.instructions[i], Resolved(m)[i];
    KeyIsAt(m, ix.program, c.perps);
    TradeOctets(c.discriminators, r.data, r.keys, trade);
    assert |ix.accounts| == |r.keys| && trade.accounts.custody == KeyAt(m.keys, ix.accounts[7]);
    CustodyIsLabel(c, m, ix.accounts[7], asset);
  }

  lemma NoTradeIsNotPerps(c: Setup, m: Message, i: nat)
    requires i < |m.instructions|
    requires TradeOf(c.discriminators, c.perps, Resolved(m)[i]) == Success(None)
    ensures !IsPerps(c, m, m.instructions[i])
  {
    KeyIsAt(m, m.instructions[i].program, c.perps);
  }

  // The only instruction that decodes to a trade is the only one that looks like one.
  lemma OnlyTradeAt(c: Setup, m: Message, i: nat, trade: Ix, asset: string)
    requires i < |m.instructions|
    requires TradeOf(c.discriminators, c.perps, Resolved(m)[i]) == Success(Some(trade))
    requires forall j :: 0 <= j < |m.instructions| && j != i ==>
               TradeOf(c.discriminators, c.perps, Resolved(m)[j]) == Success(None)
    requires CustodyToAsset(c, trade.accounts.custody) == Some(asset)
    ensures OneTrade(c, m, asset, SizeOf(trade))
  {
    TradeIs(c, m, i, trade, asset);
    forall j | 0 <= j < |m.instructions| && j != i ensures !IsPerps(c, m, m.instructions[j]) {
      NoTradeIsNotPerps(c, m, j);
    }
  }

  // What is authorised is the size that stands in the octets of the one perpetuals instruction
  // of the message, and its asset is that of the custody it names.
  lemma AuthorisedOctets(c: Setup, req: TxRequest, now: nat, user: string, asset: string, size: nat)
    requires Authorise(c, req, now) == Success(Sign(user, asset, size, now))
    ensures c.decodeBase64(req.unsignedTx).Success?
    ensures var decoded := c.deserialise(c.decodeBase64(req.unsignedTx).value);
            decoded.Success? && OneTrade(c, decoded.value, asset, size)
  {
    AuthorisedExactly(c, req, now, user, asset, size);
    var m := DecodeMessage(c, req.unsignedTx).value;
    var ixs := Resolved(m);
    var trade :| OnlyTrade(c.discriminators, c.perps, ixs, trade)
                 && CustodyToAsset(c, trade.accounts.custody) == Some(asset) && SizeOf(trade) == size;
    var i :| 0 <= i < |ixs| && TradeOf(c.discriminators, c.perps, ixs[i]).value == Some(trade)
             && forall j :: 0 <= j < |ixs| && j != i ==> TradeOf(c.discriminators, c.perps, ixs[j]).value.None?;
    OnlyTradeAt(c, m, i, trade, asset);
  }

  predicate OneTrade(c: Setup, m: Message, asset: string, size: nat) {
    exists i :: 0 <= i < |m.instructions| && IsTrade(c, m, m.instructions[i], asset, size)
                && forall j :: 0 <= j < |m.instructions| && j != i ==> !IsPerps(c, m, m.instructions[j])
  }

  // What a refusal says is so, and what is checked before it holds. Once the intent is verified
  // its key is there and decodes, so no request is refused for it.
  lemma RefusedInOrder(c: Setup, req: TxRequest, now: nat)
    requires Authorise(c, req, now).Failure?
    ensures var verified, e := Verify(c.primitives, req.intent, req.signature, None, true, now), Authorise(c, req, now).error;
            if verified.Failure? then e == IntentVerify(verified.error)
            else RefusesTransaction(c, StrField(req.intent, "asset"), req.unsignedTx, e)
  {
    if Verify(c.primitives, req.intent, req.signature, None, true, now).Success? {
      VerifyIsSignedBy(c.primitives, req.intent, req.signature, true, now);
      var user := StrField(req.intent, "solana_pubkey").value;
      ClearedRefusals(c, StrField(req.intent, "asset"), user, req.unsignedTx, now);
    }
  }

  predicate RefusesTransaction(c: Setup, asset: Option<string>, unsignedTx: string, e: SignError) {
    match e
    case IntentMissing(field) => field == "asset" && asset.None?
    case Base64(message) => asset.Some? && Fails(c.decodeBase64(unsignedTx), message)
    case TxDeserialize(message) =>
      asset.Some? && c.decodeBase64(unsignedTx).Success? && Fails(c.deserialise(c.decodeBase64(unsignedTx).value), message)
    case BadTrade(_) => DecodeMessage(c, unsignedTx).Success?
    case UnknownCustody(custody) => custody != c.custodySol && custody != c.custodyBtc && custody != c.custodyEth
    case AssetMismatch(traded, named) => asset == Some(named) && traded != named && traded in {"SOL", "BTC", "ETH"}
    case _ => false
  }

  predicate Fails<T>(r: Result<T, string>, message: string) {
    r.Failure? && r.error == message
  }

  lemma ClearedRefusals(c: Setup, asset: Option<string>, user: string, unsignedTx: string, now: nat)
    requires c.primitives.decodePubkey(user).Success? && Cleared(c, asset, Some(user), unsignedTx, now).Failure?
    ensures RefusesTransaction(c, asset, unsignedTx, Cleared(c, asset, Some(user), unsignedTx, now).error)
  {
  }

  // Reordering the members of the intent, at any depth, changes nothing.
  lemma MemberOrderIrrelevant(c: Setup, req: TxRequest, intent: Json, now: nat)
    requires Valid(req.intent) && Valid(intent) && Same(req.intent, intent)
    ensures Authorise(c, req, now) == Authorise(c, req.(intent := intent), now)
  {
    OrderIrrelevant(c.primitives, req.intent, intent, req.signature, None, true, now);
    SameReads(req.intent, intent, "asset");
    SameReads(req.intent, intent, "solana_pubkey");
  }
}

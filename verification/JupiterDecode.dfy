/**
 Decoding Jupiter perpetuals instructions (crates/core/src/jupiter/decode.rs) and picking the
 one trade of a transaction that the session is debited for
 (crates/server/src/routes/sign_jupiter_tx.rs).
 */
module JupiterDecode {
  import opened Bytes
  import opened Wrappers
  import opened Seqs

  type Pubkey = seq<byte>

  datatype IncreaseArgs = IncreaseArgs(size: nat, collateral: nat, side: nat, slippage: nat,
                                       minimumOut: Option<nat>, counter: nat)

  datatype DecreaseArgs = DecreaseArgs(collateral: nat, size: nat, slippage: nat, minimumOut: Option<nat>,
                                       entirePosition: Option<bool>, counter: nat)

  datatype Accounts = Accounts(owner: Pubkey, custody: Pubkey, collateralCustody: Pubkey)

  datatype Ix =
    | Increase(increase: IncreaseArgs, accounts: Accounts)
    | Decrease(decrease: DecreaseArgs, accounts: Accounts)

  datatype DecodeError =
    | TooShort(length: nat)
    | BadSide(tag: byte)
    | BadBool(value: byte)
    | BadOptionTag(tag: byte)
    | OutOfBounds(offset: nat, need: nat, have: nat)
    | MissingAccount(index: nat, length: nat)

  // The two instruction discriminators, hashes of the instruction names.
  datatype Discriminators = Discriminators(increase: seq<byte>, decrease: seq<byte>)

  predicate ValidDiscriminators(d: Discriminators) {
    |d.increase| == 8 && |d.decrease| == 8 && d.increase != d.decrease
  }

  const OWNER_INDEX: nat := 0
  const CUSTODY_INDEX: nat := 7
  const COLLATERAL_CUSTODY_INDEX: nat := 8

  // ---------- little-endian words ----------

  function FromLe(s: seq<byte>): nat {
    if s == [] then 0 else s[0] + 256 * FromLe(s[1..])
  }

  function Le(n: nat, k: nat): (s: seq<byte>)
    ensures |s| == k
  {
    if k == 0 then [] else [n % 256] + Le(n / 256, k - 1)
  }

  lemma {:induction false} LeRoundTrip(n: nat, k: nat)
    requires n < Pow(256, k)
    ensures FromLe(Le(n, k)) == n
  {
    if k > 0 {
      LeRoundTrip(n / 256, k - 1);
    }
  }

  lemma U64RoundTrip(n: nat)
    requires n < U64_RANGE
    ensures FromLe(Le(n, 8)) == n
  {
    U64InEightBytes(n);
    BeLength(n, 8);
    LeRoundTrip(n, 8);
  }

  // ---------- the reader ----------

  // A value read, and the position after it.
  datatype Read<+T> = Read(value: T, next: nat)

  type Reading<+T> = Result<Read<T>, DecodeError>

  function ReadU8(buf: seq<byte>, at: nat): (r: Reading<byte>)
    ensures r.Success? ==> r.value.next <= |buf|
  {
    if at + 1 > |buf| then Failure(OutOfBounds(at, 1, |buf|)) else Success(Read(buf[at], at + 1))
  }

  function ReadU64(buf: seq<byte>, at: nat): (r: Reading<nat>)
    ensures r.Success? ==> r.value.next <= |buf|
  {
    if at + 8 > |buf| then Failure(OutOfBounds(at, 8, |buf|)) else Success(Read(FromLe(buf[at..at + 8]), at + 8))
  }

  function ReadOptU64(buf: seq<byte>, at: nat): (r: Reading<Option<nat>>)
    ensures r.Success? ==> r.value.next <= |buf|
  {
    var Read(tag, next) :- ReadU8(buf, at);
    if tag == 0 then Success(Read(None, next))
    else if tag == 1 then
      var Read(v, end) :- ReadU64(buf, next);
      Success(Read(Some(v), end))
    else Failure(BadOptionTag(tag))
  }

  function ReadOptBool(buf: seq<byte>, at: nat): (r: Reading<Option<bool>>)
    ensures r.Success? ==> r.value.next <= |buf|
  {
    var Read(tag, next) :- ReadU8(buf, at);
    if tag == 0 then Success(Read(None, next))
    else if tag == 1 then
      var Read(b, end) :- ReadU8(buf, next);
      if b == 0 then Success(Read(Some(false), end))
      else if b == 1 then Success(Read(Some(true), end))
      else Failure(BadBool(b))
    else Failure(BadOptionTag(tag))
  }

  // The reader object: its methods move the offset past what they return.
  class Reader {
    const buf: seq<byte>
    var offset: nat

    constructor (buf: seq<byte>)
      ensures this.buf == buf && offset == 0
    {
      this.buf := buf;
      offset := 0;
    }

    method U8() returns (r: Result<byte, DecodeError>)
      modifies this
      ensures Moved(ReadU8(buf, old(offset)), r, old(offset), offset)
    {
      if offset + 1 > |buf| {
        return Failure(OutOfBounds(offset, 1, |buf|));
      }
      offset := offset + 1;
      return Success(buf[offset - 1]);
    }

    method U64() returns (r: Result<nat, DecodeError>)
      modifies this
      ensures Moved(ReadU64(buf, old(offset)), r, old(offset), offset)
    {
      if offset + 8 > |buf| {
        return Failure(OutOfBounds(offset, 8, |buf|));
      }
      offset := offset + 8;
      return Success(FromLe(buf[offset - 8..offset]));
    }

    method OptU64() returns (r: Result<Option<nat>, DecodeError>)
      modifies this
      ensures r.Success? ==> Moved(ReadOptU64(buf, old(offset)), r, old(offset), offset)
      ensures r.Failure? ==> ReadOptU64(buf, old(offset)) == Failure(r.error)
    {
      var tag := U8();
      if tag.Failure? {
        return Failure(tag.error);
      }
      if tag.value == 0 {
        return Success(None);
      }
      if tag.value != 1 {
        return Failure(BadOptionTag(tag.value));
      }
      var v := U64();
      if v.Failure? {
        return Failure(v.error);
      }
      return Success(Some(v.value));
    }

    method OptBool() returns (r: Result<Option<bool>, DecodeError>)
      modifies this
      ensures r.Success? ==> Moved(ReadOptBool(buf, old(offset)), r, old(offset), offset)
      ensures r.Failure? ==> ReadOptBool(buf, old(offset)) == Failure(r.error)
    {
      var tag := U8();
      if tag.Failure? {
        return Failure(tag.error);
      }
      if tag.value == 0 {
        return Success(None);
      }
      if tag.value != 1 {
        return Failure(BadOptionTag(tag.value));
      }
      var b := U8();
      if b.Failure? {
        return Failure(b.error);
      }
      if b.value == 0 {
        return Success(Some(false));
      }
      if b.value == 1 {
        return Success(Some(true));
      }
      return Failure(BadBool(b.value));
    }
  }

  // A reader's answer and new offset, against the reading they should be.
  predicate Moved<T(==)>(reading: Reading<T>, r: Result<T, DecodeError>, before: nat, after: nat) {
    match reading
    case Success(Read(v, next)) => r == Success(v) && after == next
    case Failure(e) => r == Failure(e) && after == before
  }

  // ---------- instructions ----------

  function Account(keys: seq<Pubkey>, i: nat): Result<Pubkey, DecodeError> {
    if i < |keys| then Success(keys[i]) else Failure(MissingAccount(i, |keys|))
  }

  function CollectAccounts(keys: seq<Pubkey>): Result<Accounts, DecodeError> {
    var owner :- Account(keys, OWNER_INDEX);
    var custody :- Account(keys, CUSTODY_INDEX);
    var collateralCustody :- Account(keys, COLLATERAL_CUSTODY_INDEX);
    Success(Accounts(owner, custody, collateralCustody))
  }

  function ReadIncrease(buf: seq<byte>): Result<IncreaseArgs, DecodeError> {
    var Read(size, a) :- ReadU64(buf, 0);
    var Read(collateral, b) :- ReadU64(buf, a);
    var Read(side, c) :- ReadU8(buf, b);
    if side > 2 then Failure(BadSide(side))
    else
      var Read(slippage, d) :- ReadU64(buf, c);
      var Read(minimumOut, e) :- ReadOptU64(buf, d);
      var Read(counter, _) :- ReadU64(buf, e);
      Success(IncreaseArgs(size, collateral, side, slippage, minimumOut, counter))
  }

  function ReadDecrease(buf: seq<byte>): Result<DecreaseArgs, DecodeError> {
    var Read(collateral, a) :- ReadU64(buf, 0);
    var Read(size, b) :- ReadU64(buf, a);
    var Read(slippage, c) :- ReadU64(buf, b);
    var Read(minimumOut, d) :- ReadOptU64(buf, c);
    var Read(entirePosition, e) :- ReadOptBool(buf, d);
    var Read(counter, _) :- ReadU64(buf, e);
    Success(DecreaseArgs(collateral, size, slippage, minimumOut, entirePosition, counter))
  }

  // No instruction if the discriminator is neither of the two.
  function DecodeIx(d: Discriminators, data: seq<byte>, keys: seq<Pubkey>): Result<Option<Ix>, DecodeError> {
    if |data| < 8 then Failure(TooShort(|data|))
    else if data[..8] == d.increase then
      var args :- ReadIncrease(data[8..]);
      var accounts :- CollectAccounts(keys);
      Success(Some(Increase(args, accounts)))
    else if data[..8] == d.decrease then
      var args :- ReadDecrease(data[8..]);
      var accounts :- CollectAccounts(keys);
      Success(Some(Decrease(args, accounts)))
    else Success(None)
  }

  method DecodeIncrease(buf: seq<byte>) returns (r: Result<IncreaseArgs, DecodeError>)
    ensures r == ReadIncrease(buf)
  {
    var reader := new Reader(buf);
    var size := reader.U64();
    if size.Failure? {
      return Failure(size.error);
    }
    var collateral := reader.U64();
    if collateral.Failure? {
      return Failure(collateral.error);
    }
    var side := reader.U8();
    if side.Failure? {
      return Failure(side.error);
    }
    if side.value > 2 {
      return Failure(BadSide(side.value));
    }
    var slippage := reader.U64();
    if slippage.Failure? {
      return Failure(slippage.error);
    }
    var minimumOut := reader.OptU64();
    if minimumOut.Failure? {
      return Failure(minimumOut.error);
    }
    var counter := reader.U64();
    if counter.Failure? {
      return Failure(counter.error);
    }
    return Success(IncreaseArgs(size.value, collateral.value, side.value, slippage.value, minimumOut.value, counter.value));
  }

  method DecodeDecrease(buf: seq<byte>) returns (r: Result<DecreaseArgs, DecodeError>)
    ensures r == ReadDecrease(buf)
  {
    var reader := new Reader(buf);
    var collateral := reader.U64();
    if collateral.Failure? {
      return Failure(collateral.error);
    }
    var size := reader.U64();
    if size.Failure? {
      return Failure(size.error);
    }
    var slippage := reader.U64();
    if slippage.Failure? {
      return Failure(slippage.error);
    }
    var minimumOut := reader.OptU64();
    if minimumOut.Failure? {
      return Failure(minimumOut.error);
    }
    var entirePosition := reader.OptBool();
    if entirePosition.Failure? {
      return Failure(entirePosition.error);
    }
    var counter := reader.U64();
    if counter.Failure? {
      return Failure(counter.error);
    }
    return Success(DecreaseArgs(collateral.value, size.value, slippage.value, minimumOut.value, entirePosition.value, counter.value));
  }

  method DecodeInstruction(d: Discriminators, data: seq<byte>, keys: seq<Pubkey>)
      returns (r: Result<Option<Ix>, DecodeError>)
    ensures r == DecodeIx(d, data, keys)
  {
    if |data| < 8 {
      return Failure(TooShort(|data|));
    }
    if data[..8] == d.increase {
      var args := DecodeIncrease(data[8..]);
      if args.Failure? {
        return Failure(args.error);
      }
      var accounts := CollectAccounts(keys);
      if accounts.Failure? {
        return Failure(accounts.error);
      }
      return Success(Some(Increase(args.value, accounts.value)));
    }
    if data[..8] == d.decrease {
      var args := DecodeDecrease(data[8..]);
      if args.Failure? {
        return Failure(args.error);
      }
      var accounts := CollectAccounts(keys);
      if accounts.Failure? {
        return Failure(accounts.error);
      }
      return Success(Some(Decrease(args.value, accounts.value)));
    }
    return Success(None);
  }

  // ---------- the borsh layout ----------

  function EncOptU64(v: Option<nat>): seq<byte> {
    match v case None => [0] case Some(n) => [1] + Le(n, 8)
  }

  function EncOptBool(v: Option<bool>): seq<byte> {
    match v case None => [0] case Some(b) => [1, if b then 1 else 0]
  }

  function EncIncrease(a: IncreaseArgs): seq<byte>
    requires a.side <= 2
  {
    Le(a.size, 8) + (Le(a.collateral, 8) + ([a.side] + (Le(a.slippage, 8) + (EncOptU64(a.minimumOut) + Le(a.counter, 8)))))
  }

  function EncDecrease(a: DecreaseArgs): seq<byte> {
    Le(a.collateral, 8) + (Le(a.size, 8) + (Le(a.slippage, 8) +
    (EncOptU64(a.minimumOut) + (EncOptBool(a.entirePosition) + Le(a.counter, 8)))))
  }

  predicate ValidOpt(v: Option<nat>) { v.Some? ==> v.value < U64_RANGE }

  predicate ValidIncrease(a: IncreaseArgs) {
    a.size < U64_RANGE && a.collateral < U64_RANGE && a.side <= 2 && a.slippage < U64_RANGE && ValidOpt(a.minimumOut)
    && a.counter < U64_RANGE
  }

  predicate ValidDecrease(a: DecreaseArgs) {
    a.collateral < U64_RANGE && a.size < U64_RANGE && a.slippage < U64_RANGE && ValidOpt(a.minimumOut)
    && a.counter < U64_RANGE
  }

  // The octets of buf from position `at` on start with `part`, and `rest` follows.
  predicate Continues(buf: seq<byte>, at: nat, part: seq<byte>, rest: seq<byte>) {
    at <= |buf| && buf[at..] == part + rest
  }

  lemma ContinuesAfter(buf: seq<byte>, at: nat, part: seq<byte>, rest: seq<byte>)
    requires Continues(buf, at, part, rest)
    ensures at + |part| <= |buf| && buf[at + |part|..] == rest && buf[at..at + |part|] == part
  {
    assert buf[at + |part|..] == buf[at..][|part|..];
    assert buf[at..at + |part|] == buf[at..][..|part|];
    Split(part, rest);
  }

  lemma ReadsU64(buf: seq<byte>, at: nat, n: nat, rest: seq<byte>)
    requires n < U64_RANGE && Continues(buf, at, Le(n, 8), rest)
    ensures var r := ReadU64(buf, at); r.Success? && r.value == Read(n, at + 8)
    ensures at + 8 <= |buf| && buf[at + 8..] == rest
  {
    ContinuesAfter(buf, at, Le(n, 8), rest);
    U64RoundTrip(n);
  }

  lemma ReadsU8(buf: seq<byte>, at: nat, b: byte, rest: seq<byte>)
    requires Continues(buf, at, [b], rest)
    ensures var r := ReadU8(buf, at); r.Success? && r.value == Read(b, at + 1)
    ensures at + 1 <= |buf| && buf[at + 1..] == rest
  {
    ContinuesAfter(buf, at, [b], rest);
    assert buf[at] == buf[at..at + 1][0];
  }

  lemma ReadsOptU64(buf: seq<byte>, at: nat, v: Option<nat>, rest: seq<byte>)
    requires ValidOpt(v) && Continues(buf, at, EncOptU64(v), rest)
    ensures var r := ReadOptU64(buf, at); r.Success? && r.value == Read(v, at + |EncOptU64(v)|)
    ensures at + |EncOptU64(v)| <= |buf| && buf[at + |EncOptU64(v)|..] == rest
  {
    ContinuesAfter(buf, at, EncOptU64(v), rest);
    match v {
      case None => ReadsU8(buf, at, 0, rest);
      case Some(n) =>
        Assoc([1], Le(n, 8), rest);
        ReadsU8(buf, at, 1, Le(n, 8) + rest);
        ReadsU64(buf, at + 1, n, rest);
    }
  }

  lemma ReadsOptBool(buf: seq<byte>, at: nat, v: Option<bool>, rest: seq<byte>)
    requires Continues(buf, at, EncOptBool(v), rest)
    ensures var r := ReadOptBool(buf, at); r.Success? && r.value == Read(v, at + |EncOptBool(v)|)
    ensures at + |EncOptBool(v)| <= |buf| && buf[at + |EncOptBool(v)|..] == rest
  {
    ContinuesAfter(buf, at, EncOptBool(v), rest);
    match v {
      case None => ReadsU8(buf, at, 0, rest);
      case Some(b) =>
        var value := if b then 1 else 0;
        assert [1, value] + rest == [1] + ([value] + rest);
        ReadsU8(buf, at, 1, [value] + rest);
        ReadsU8(buf, at + 1, value, rest);
    }
  }

  // Decoding inverts the layout, for every shape of the optional fields and whatever follows.
  lemma IncreaseRoundTrip(a: IncreaseArgs, trailing: seq<byte>)
    requires ValidIncrease(a)
    ensures ReadIncrease(EncIncrease(a) + trailing) == Success(a)
  {
    var buf := EncIncrease(a) + trailing;
    var p5 := Le(a.counter, 8) + trailing;
    var p4 := EncOptU64(a.minimumOut) + p5;
    var p3 := Le(a.slippage, 8) + p4;
    var p2 := [a.side] + p3;
    var p1 := Le(a.collateral, 8) + p2;
    IncreaseLayout(a, trailing);
    assert buf[0..] == buf;
    ReadsU64(buf, 0, a.size, p1);
    ReadsU64(buf, 8, a.collateral, p2);
    ReadsU8(buf, 16, a.side, p3);
    ReadsU64(buf, 17, a.slippage, p4);
    ReadsOptU64(buf, 25, a.minimumOut, p5);
    ReadsU64(buf, 25 + |EncOptU64(a.minimumOut)|, a.counter, trailing);
  }

  lemma IncreaseLayout(a: IncreaseArgs, t: seq<byte>)
    requires ValidIncrease(a)
    ensures EncIncrease(a) + t == Le(a.size, 8) + (Le(a.collateral, 8) + ([a.side] + (Le(a.slippage, 8)
                                  + (EncOptU64(a.minimumOut) + (Le(a.counter, 8) + t)))))
  {
    SixParts(Le(a.size, 8), Le(a.collateral, 8), [a.side], Le(a.slippage, 8), EncOptU64(a.minimumOut), Le(a.counter, 8), t);
  }

  lemma SixParts<T>(a: seq<T>, b: seq<T>, c: seq<T>, d: seq<T>, e: seq<T>, f: seq<T>, t: seq<T>)
    ensures (a + (b + (c + (d + (e + f))))) + t == a + (b + (c + (d + (e + (f + t)))))
  {
    Assoc(e, f, t);
    Assoc(d, e + f, t);
    Assoc(c, d + (e + f), t);
    Assoc(b, c + (d + (e + f)), t);
    Assoc(a, b + (c + (d + (e + f))), t);
  }

  lemma DecreaseRoundTrip(a: DecreaseArgs, trailing: seq<byte>)
    requires ValidDecrease(a)
    ensures ReadDecrease(EncDecrease(a) + trailing) == Success(a)
  {
    var buf := EncDecrease(a) + trailing;
    var p5 := Le(a.counter, 8) + trailing;
    var p4 := EncOptBool(a.entirePosition) + p5;
    var p3 := EncOptU64(a.minimumOut) + p4;
    var p2 := Le(a.slippage, 8) + p3;
    var p1 := Le(a.size, 8) + p2;
    SixParts(Le(a.collateral, 8), Le(a.size, 8), Le(a.slippage, 8), EncOptU64(a.minimumOut),
             EncOptBool(a.entirePosition), Le(a.counter, 8), trailing);
    assert buf[0..] == buf;
    ReadsU64(buf, 0, a.collateral, p1);
    ReadsU64(buf, 8, a.size, p2);
    ReadsU64(buf, 16, a.slippage, p3);
    ReadsOptU64(buf, 24, a.minimumOut, p4);
    var q := 24 + |EncOptU64(a.minimumOut)|;
    ReadsOptBool(buf, q, a.entirePosition, p5);
    ReadsU64(buf, q + |EncOptBool(a.entirePosition)|, a.counter, trailing);
  }

  predicate HasAccounts(keys: seq<Pubkey>, a: Accounts) {
    |keys| > COLLATERAL_CUSTODY_INDEX && keys[OWNER_INDEX] == a.owner && keys[CUSTODY_INDEX] == a.custody
    && keys[COLLATERAL_CUSTODY_INDEX] == a.collateralCustody
  }

  // A whole instruction: discriminator, arguments, anything after them, and the account list.
  lemma InstructionRoundTrip(d: Discriminators, ix: Ix, keys: seq<Pubkey>, trailing: seq<byte>)
    requires ValidDiscriminators(d) && HasAccounts(keys, ix.accounts) && ValidIx(ix)
    ensures var r := DecodeIx(d, EncIx(d, ix) + trailing, keys);
            r.Success? && r.value.Some? && r.value.value == ix
  {
    match ix {
      case Increase(args, _) =>
        Assoc(d.increase, EncIncrease(args), trailing);
        Split(d.increase, EncIncrease(args) + trailing);
        IncreaseRoundTrip(args, trailing);
      case Decrease(args, _) =>
        Assoc(d.decrease, EncDecrease(args), trailing);
        Split(d.decrease, EncDecrease(args) + trailing);
        DecreaseRoundTrip(args, trailing);
    }
  }

  predicate ValidIx(ix: Ix) {
    match ix case Increase(args, _) => ValidIncrease(args) case Decrease(args, _) => ValidDecrease(args)
  }

  function EncIx(d: Discriminators, ix: Ix): seq<byte>
    requires ValidIx(ix)
  {
    match ix
    case Increase(args, _) => d.increase + EncIncrease(args)
    case Decrease(args, _) => d.decrease + EncDecrease(args)
  }

  // ---------- only the layout is accepted ----------

  lemma LowOctet(b: byte, q: nat)
    ensures (b + 256 * q) % 256 == b && (b + 256 * q) / 256 == q
  {
  }

  lemma {:induction false} LeOfFromLe(s: seq<byte>)
    ensures Le(FromLe(s), |s|) == s && FromLe(s) < Pow(256, |s|)
  {
    if s != [] {
      LeOfFromLe(s[1..]);
      LowOctet(s[0], FromLe(s[1..]));
      HeadTail(s);
    }
  }

  lemma U64Read(buf: seq<byte>, at: nat)
    requires ReadU64(buf, at).Success?
    ensures var Read(v, next) := ReadU64(buf, at).value;
            v < U64_RANGE && at <= next && buf[at..next] == Le(v, 8)
  {
    var v := ReadU64(buf, at).value.value;
    LeOfFromLe(buf[at..at + 8]);
    BeLength(v, 8);
    U64InEightBytes(v);
  }

  lemma U8Read(buf: seq<byte>, at: nat)
    requires ReadU8(buf, at).Success?
    ensures var Read(v, next) := ReadU8(buf, at).value;
            at <= next && buf[at..next] == [v]
  {
  }

  lemma OptU64Read(buf: seq<byte>, at: nat)
    requires ReadOptU64(buf, at).Success?
    ensures var Read(v, next) := ReadOptU64(buf, at).value;
            ValidOpt(v) && at <= next && buf[at..next] == EncOptU64(v)
  {
    if buf[at] == 1 {
      U64Read(buf, at + 1);
      Adjacent(buf, at, at + 1, at + 9);
      assert buf[at..at + 1] == [1];
    } else {
      assert buf[at..at + 1] == [0];
    }
  }

  lemma OptBoolRead(buf: seq<byte>, at: nat)
    requires ReadOptBool(buf, at).Success?
    ensures var Read(v, next) := ReadOptBool(buf, at).value;
            at <= next && buf[at..next] == EncOptBool(v)
  {
  }

  lemma SixSlices<T>(s: seq<T>, a: nat, b: nat, c: nat, d: nat, e: nat, f: nat)
    requires a <= b <= c <= d <= e <= f <= |s|
    ensures s[..a] + (s[a..b] + (s[b..c] + (s[c..d] + (s[d..e] + s[e..f])))) == s[..f]
  {
    Adjacent(s, d, e, f);
    Adjacent(s, c, d, f);
    Adjacent(s, b, c, f);
    Adjacent(s, a, b, f);
    assert s[..a] + s[a..f] == s[..f];
  }

  lemma SixStart<T>(s: seq<T>, a: nat, b: nat, c: nat, d: nat, e: nat, f: nat,
                    u: seq<T>, v: seq<T>, w: seq<T>, x: seq<T>, y: seq<T>, z: seq<T>)
    requires a <= b <= c <= d <= e <= f <= |s|
    requires s[..a] == u && s[a..b] == v && s[b..c] == w && s[c..d] == x && s[d..e] == y && s[e..f] == z
    ensures u + (v + (w + (x + (y + z)))) <= s
  {
    SixSlices(s, a, b, c, d, e, f);
  }

  lemma TakeStarts<T>(text: seq<T>, s: seq<T>, n: nat)
    requires n <= |s| && text == s[..n]
    ensures text <= s
  {
  }

  lemma IncreaseParts(buf: seq<byte>) returns (e: nat)
    requires ReadIncrease(buf).Success?
    ensures 25 <= e <= e + 8 <= |buf|
    ensures var a := ReadIncrease(buf).value;
            && ValidIncrease(a)
            && buf[..8] == Le(a.size, 8) && buf[8..16] == Le(a.collateral, 8) && buf[16..17] == [a.side]
            && buf[17..25] == Le(a.slippage, 8) && buf[25..e] == EncOptU64(a.minimumOut)
            && buf[e..e + 8] == Le(a.counter, 8)
  {
    e := ReadOptU64(buf, 25).value.next;
    assert buf[..8] == buf[0..8];
    U64Read(buf, 0);
    U64Read(buf, 8);
    U8Read(buf, 16);
    U64Read(buf, 17);
    OptU64Read(buf, 25);
    U64Read(buf, e);
  }

  lemma DecreaseReads(buf: seq<byte>)
    requires ReadDecrease(buf).Success?
    ensures ReadU64(buf, 0).Success? && ReadU64(buf, 8).Success? && ReadU64(buf, 16).Success?
    ensures ReadOptU64(buf, 24).Success? && ReadOptBool(buf, ReadOptU64(buf, 24).value.next).Success?
    ensures var Read(minimumOut, d) := ReadOptU64(buf, 24).value;
            var Read(entirePosition, e) := ReadOptBool(buf, d).value;
            ReadU64(buf, e).Success?
            && ReadDecrease(buf).value
            == DecreaseArgs(ReadU64(buf, 0).value.value, ReadU64(buf, 8).value.value, ReadU64(buf, 16).value.value,
                            minimumOut, entirePosition, ReadU64(buf, e).value.value)
  {
  }

  lemma DecreaseParts(buf: seq<byte>) returns (d: nat, e: nat)
    requires ReadDecrease(buf).Success?
    ensures 24 <= d <= e <= e + 8 <= |buf|
    ensures var a := ReadDecrease(buf).value;
            && ValidDecrease(a)
            && buf[..8] == Le(a.collateral, 8) && buf[8..16] == Le(a.size, 8) && buf[16..24] == Le(a.slippage, 8)
            && buf[24..d] == EncOptU64(a.minimumOut) && buf[d..e] == EncOptBool(a.entirePosition)
            && buf[e..e + 8] == Le(a.counter, 8)
  {
    DecreaseReads(buf);
    d := ReadOptU64(buf, 24).value.next;
    e := ReadOptBool(buf, d).value.next;
    assert buf[..8] == buf[0..8];
    U64Read(buf, 0);
    U64Read(buf, 8);
    U64Read(buf, 16);
    OptU64Read(buf, 24);
    OptBoolRead(buf, d);
    U64Read(buf, e);
  }

  lemma IncreaseText(a: IncreaseArgs)
    requires a.side <= 2
    ensures EncIncrease(a) == Le(a.size, 8) + (Le(a.collateral, 8) + ([a.side] + (Le(a.slippage, 8)
                              + (EncOptU64(a.minimumOut) + Le(a.counter, 8)))))
  {
  }

  lemma DecreaseFrom(a: DecreaseArgs, u: seq<byte>, v: seq<byte>, w: seq<byte>, x: seq<byte>, y: seq<byte>, z: seq<byte>)
    requires u == Le(a.collateral, 8) && v == Le(a.size, 8) && w == Le(a.slippage, 8)
    requires x == EncOptU64(a.minimumOut) && y == EncOptBool(a.entirePosition) && z == Le(a.counter, 8)
    ensures EncDecrease(a) == u + (v + (w + (x + (y + z))))
  {
  }

  // Whatever decodes as arguments starts with the layout of what was decoded.
  lemma IncreaseIsLayout(buf: seq<byte>)
    requires ReadIncrease(buf).Success?
    ensures ValidIncrease(ReadIncrease(buf).value) && EncIncrease(ReadIncrease(buf).value) <= buf
  {
    var e := IncreaseParts(buf);
    var a := ReadIncrease(buf).value;
    IncreaseText(a);
    SixStart(buf, 8, 16, 17, 25, e, e + 8, Le(a.size, 8), Le(a.collateral, 8), [a.side], Le(a.slippage, 8),
             EncOptU64(a.minimumOut), Le(a.counter, 8));
  }

  lemma DecreaseStarts(buf: seq<byte>, a: DecreaseArgs, d: nat, e: nat)
    requires 24 <= d <= e <= e + 8 <= |buf|
    requires buf[..8] == Le(a.collateral, 8) && buf[8..16] == Le(a.size, 8) && buf[16..24] == Le(a.slippage, 8)
    requires buf[24..d] == EncOptU64(a.minimumOut) && buf[d..e] == EncOptBool(a.entirePosition)
    requires buf[e..e + 8] == Le(a.counter, 8)
    ensures EncDecrease(a) <= buf
  {
    DecreaseFrom(a, buf[..8], buf[8..16], buf[16..24], buf[24..d], buf[d..e], buf[e..e + 8]);
    SixSlices(buf, 8, 16, 24, d, e, e + 8);
    TakeStarts(EncDecrease(a), buf, e + 8);
  }

  lemma DecreaseIsLayout(buf: seq<byte>)
    requires ReadDecrease(buf).Success?
    ensures ValidDecrease(ReadDecrease(buf).value) && EncDecrease(ReadDecrease(buf).value) <= buf
  {
    var d, e := DecreaseParts(buf);
    DecreaseStarts(buf, ReadDecrease(buf).value, d, e);
  }

  lemma PrefixRest<T>(p: seq<T>, s: seq<T>)
    requires p <= s
    ensures s == p + s[|p|..]
  {
  }

  lemma PrefixAfter<T>(p: seq<T>, q: seq<T>, s: seq<T>)
    requires |p| <= |s| && s[..|p|] == p && q <= s[|p|..]
    ensures p + q <= s
  {
  }

  // An instruction decodes to a trade exactly when it starts with that trade's layout and its
  // account list has the trade's accounts in their places.
  lemma DecodesExactly(d: Discriminators, data: seq<byte>, keys: seq<Pubkey>, ix: Ix)
    requires ValidDiscriminators(d)
    ensures DecodeIx(d, data, keys) == Success(Some(ix)) <==>
              ValidIx(ix) && HasAccounts(keys, ix.accounts) && EncIx(d, ix) <= data
  {
    if DecodeIx(d, data, keys) == Success(Some(ix)) {
      if ix.Increase? {
        IncreaseIsLayout(data[8..]);
        PrefixAfter(d.increase, EncIncrease(ix.increase), data);
      } else {
        DecreaseIsLayout(data[8..]);
        PrefixAfter(d.decrease, EncDecrease(ix.decrease), data);
      }
    }
    if ValidIx(ix) && HasAccounts(keys, ix.accounts) && EncIx(d, ix) <= data {
      PrefixRest(EncIx(d, ix), data);
      InstructionRoundTrip(d, ix, keys, data[|EncIx(d, ix)|..]);
    }
  }

  lemma LeRead(part: seq<byte>, n: nat)
    requires n < U64_RANGE && part == Le(n, 8)
    ensures FromLe(part) == n
  {
    U64RoundTrip(n);
  }

  lemma IncreaseOctets(buf: seq<byte>)
    requires ReadIncrease(buf).Success?
    ensures var a := ReadIncrease(buf).value;
            && |buf| >= 25 && a.size == FromLe(buf[..8]) && a.collateral == FromLe(buf[8..16])
            && a.side == buf[16] <= 2 && a.slippage == FromLe(buf[17..25])
  {
    var e := IncreaseParts(buf);
    var a := ReadIncrease(buf).value;
    LeRead(buf[..8], a.size);
    LeRead(buf[8..16], a.collateral);
    LeRead(buf[17..25], a.slippage);
    assert buf[16] == buf[16..17][0];
  }

  lemma DecreaseOctets(buf: seq<byte>)
    requires ReadDecrease(buf).Success?
    ensures var a := ReadDecrease(buf).value;
            && |buf| >= 24 && a.collateral == FromLe(buf[..8]) && a.size == FromLe(buf[8..16])
            && a.slippage == FromLe(buf[16..24])
  {
    var d, e := DecreaseParts(buf);
    var a := ReadDecrease(buf).value;
    LeRead(buf[..8], a.collateral);
    LeRead(buf[8..16], a.size);
    LeRead(buf[16..24], a.slippage);
  }

  lemma AccountsAt(keys: seq<Pubkey>)
    requires CollectAccounts(keys).Success?
    ensures |keys| >= 9 && CollectAccounts(keys).value == Accounts(keys[0], keys[7], keys[8])
  {
  }

  lemma DecodedParts(d: Discriminators, data: seq<byte>, keys: seq<Pubkey>, ix: Ix)
    requires DecodeIx(d, data, keys) == Success(Some(ix))
    ensures |data| >= 8 && CollectAccounts(keys).Success? && ix.accounts == CollectAccounts(keys).value
    ensures ix.Increase? == (data[..8] == d.increase) && (ix.Decrease? ==> data[..8] == d.decrease)
    ensures match ix
            case Increase(args, _) => ReadIncrease(data[8..]).Success? && args == ReadIncrease(data[8..]).value
            case Decrease(args, _) => ReadDecrease(data[8..]).Success? && args == ReadDecrease(data[8..]).value
  {
  }

  lemma Deeper<T>(s: seq<T>, k: nat, a: nat, b: nat)
    requires a <= b && k + b <= |s|
    ensures s[k..][a..b] == s[k + a..k + b]
  {
  }

  // Where the amounts and the accounts of a trade stand in the instruction.
  lemma TradeOctets(d: Discriminators, data: seq<byte>, keys: seq<Pubkey>, ix: Ix)
    requires DecodeIx(d, data, keys) == Success(Some(ix))
    ensures |keys| >= 9 && ix.accounts == Accounts(keys[0], keys[7], keys[8])
    ensures |data| >= 32 && ix.Increase? == (data[..8] == d.increase)
    ensures match ix
            case Increase(args, _) =>
              && |data| >= 33 && args.size == FromLe(data[8..16]) && args.collateral == FromLe(data[16..24])
              && args.side == data[24] <= 2 && args.slippage == FromLe(data[25..33])
            case Decrease(args, _) =>
              && data[..8] == d.decrease && args.collateral == FromLe(data[8..16])
              && args.size == FromLe(data[16..24]) && args.slippage == FromLe(data[24..32])
  {
    DecodedParts(d, data, keys, ix);
    AccountsAt(keys);
    match ix {
      case Increase(_, _) =>
        IncreaseOctets(data[8..]);
        Deeper(data, 8, 0, 8);
        Deeper(data, 8, 8, 16);
        Deeper(data, 8, 17, 25);
      case Decrease(_, _) =>
        DecreaseOctets(data[8..]);
        Deeper(data, 8, 0, 8);
        Deeper(data, 8, 8, 16);
        Deeper(data, 8, 16, 24);
    }
  }

  // What a refusal of the arguments says is so.
  predicate TrueRefusal(e: DecodeError, buf: seq<byte>) {
    match e
    case OutOfBounds(offset, need, have) => have == |buf| < offset + need
    case BadSide(tag) => tag > 2 && |buf| > 16 && buf[16] == tag
    case BadBool(value) => value > 1 && value in buf
    case BadOptionTag(tag) => tag > 1 && tag in buf
    case _ => false
  }

  lemma ReadRefusals(buf: seq<byte>, at: nat)
    ensures ReadU8(buf, at).Failure? ==> TrueRefusal(ReadU8(buf, at).error, buf)
    ensures ReadU64(buf, at).Failure? ==> TrueRefusal(ReadU64(buf, at).error, buf)
    ensures ReadOptU64(buf, at).Failure? ==> TrueRefusal(ReadOptU64(buf, at).error, buf)
    ensures ReadOptBool(buf, at).Failure? ==> TrueRefusal(ReadOptBool(buf, at).error, buf)
  {
  }

  lemma IncreaseRefused(buf: seq<byte>)
    requires ReadIncrease(buf).Failure?
    ensures TrueRefusal(ReadIncrease(buf).error, buf)
  {
    ReadRefusals(buf, 0);
    ReadRefusals(buf, 8);
    ReadRefusals(buf, 16);
    ReadRefusals(buf, 17);
    ReadRefusals(buf, 25);
    if ReadOptU64(buf, 25).Success? {
      ReadRefusals(buf, ReadOptU64(buf, 25).value.next);
    }
  }

  lemma DecreaseRefused(buf: seq<byte>)
    requires ReadDecrease(buf).Failure?
    ensures TrueRefusal(ReadDecrease(buf).error, buf)
  {
    ReadRefusals(buf, 0);
    ReadRefusals(buf, 8);
    ReadRefusals(buf, 16);
    ReadRefusals(buf, 24);
    if ReadOptU64(buf, 24).Success? {
      var next := ReadOptU64(buf, 24).value.next;
      ReadRefusals(buf, next);
      if ReadOptBool(buf, next).Success? {
        ReadRefusals(buf, ReadOptBool(buf, next).value.next);
      }
    }
  }

  // And of an instruction: accounts are looked for once the arguments have been read.
  lemma RefusalsAreTrue(d: Discriminators, data: seq<byte>, keys: seq<Pubkey>)
    requires DecodeIx(d, data, keys).Failure?
    ensures match DecodeIx(d, data, keys).error
            case TooShort(length) => length == |data| < 8
            case MissingAccount(index, length) =>
              && length == |keys| <= index && index in {0, 7, 8} && |data| >= 32
              && (if data[..8] == d.increase then ReadIncrease(data[8..]).Success? else ReadDecrease(data[8..]).Success?)
            case e => |data| >= 8 && TrueRefusal(e, data[8..])
  {
    if |data| >= 8 {
      if ReadIncrease(data[8..]).Failure? {
        IncreaseRefused(data[8..]);
      } else {
        IncreaseOctets(data[8..]);
      }
      if ReadDecrease(data[8..]).Failure? {
        DecreaseRefused(data[8..]);
      } else {
        DecreaseOctets(data[8..]);
      }
    }
  }

  // ---------- the one trade of a transaction ----------

  datatype Instruction = Instruction(program: Pubkey, data: seq<byte>, keys: seq<Pubkey>)

  datatype TradeError = Decode(error: DecodeError) | PerpsIxCount(found: nat)

  // Is this a perpetuals instruction, and what does it decode to?
  function TradeOf(d: Discriminators, perps: Pubkey, ix: Instruction): Result<Option<Ix>, DecodeError> {
    if ix.program != perps then Success(None) else DecodeIx(d, ix.data, ix.keys)
  }

  predicate AllDecode(d: Discriminators, perps: Pubkey, ixs: seq<Instruction>) {
    forall i :: 0 <= i < |ixs| ==> TradeOf(d, perps, ixs[i]).Success?
  }

  // The trades of a message, in order.
  function Trades(d: Discriminators, perps: Pubkey, ixs: seq<Instruction>): seq<Ix>
    requires AllDecode(d, perps, ixs)
  {
    if ixs == [] then []
    else
      var t := TradeOf(d, perps, ixs[|ixs| - 1]).value;
      Trades(d, perps, ixs[..|ixs| - 1]) + (if t.Some? then [t.value] else [])
  }

  // The first instruction that fails to decode, if any does.
  function FirstError(d: Discriminators, perps: Pubkey, ixs: seq<Instruction>): (e: Option<DecodeError>)
    ensures e.None? <==> AllDecode(d, perps, ixs)
  {
    if ixs == [] then None
    else
      var init := ixs[..|ixs| - 1];
      assert AllDecode(d, perps, ixs) <==> AllDecode(d, perps, init) && TradeOf(d, perps, ixs[|ixs| - 1]).Success? by {
        assert forall i :: 0 <= i < |init| ==> init[i] == ixs[i];
      }
      var e := FirstError(d, perps, init);
      if e.Some? then e
      else
        var t := TradeOf(d, perps, ixs[|ixs| - 1]);
        if t.Failure? then Some(t.error) else None
  }

  lemma {:induction false} FirstErrorStays(d: Discriminators, perps: Pubkey, ixs: seq<Instruction>, i: nat)
    requires i <= |ixs| && FirstError(d, perps, ixs[..i]).Some?
    ensures FirstError(d, perps, ixs) == FirstError(d, perps, ixs[..i])
    decreases |ixs|
  {
    if i == |ixs| {
      assert ixs[..i] == ixs;
    } else {
      var init := ixs[..|ixs| - 1];
      assert init[..i] == ixs[..i];
      FirstErrorStays(d, perps, init, i);
    }
  }

  // What the loop and the count check after it yield.
  function TheTrade(d: Discriminators, perps: Pubkey, ixs: seq<Instruction>): Result<Ix, TradeError> {
    var e := FirstError(d, perps, ixs);
    if e.Some? then Failure(Decode(e.value))
    else
      var trades := Trades(d, perps, ixs);
      if |trades| == 1 then Success(trades[0]) else Failure(PerpsIxCount(|trades|))
  }

  // One more instruction, when all before it decoded.
  lemma OneMore(d: Discriminators, perps: Pubkey, ixs: seq<Instruction>, i: nat)
    requires i < |ixs| && FirstError(d, perps, ixs[..i]).None?
    ensures var t := TradeOf(d, perps, ixs[i]);
            if t.Failure? then FirstError(d, perps, ixs) == Some(t.error)
            else
              FirstError(d, perps, ixs[..i + 1]).None?
              && Trades(d, perps, ixs[..i + 1])
              == Trades(d, perps, ixs[..i]) + (if t.value.Some? then [t.value.value] else [])
  {
    assert ixs[..i + 1][..i] == ixs[..i] && ixs[..i + 1][i] == ixs[i];
    if TradeOf(d, perps, ixs[i]).Failure? {
      FirstErrorStays(d, perps, ixs, i + 1);
    }
  }

  method FindTrade(d: Discriminators, perps: Pubkey, ixs: seq<Instruction>) returns (r: Result<Ix, TradeError>)
    ensures r == TheTrade(d, perps, ixs)
  {
    var found := 0;
    var trade: Option<Ix> := None;
    for i := 0 to |ixs|
      invariant FirstError(d, perps, ixs[..i]).None?
      invariant found == |Trades(d, perps, ixs[..i])|
      invariant trade == if found == 0 then None else Some(Trades(d, perps, ixs[..i])[found - 1])
    {
      OneMore(d, perps, ixs, i);
      if ixs[i].program == perps {
        var decoded := DecodeInstruction(d, ixs[i].data, ixs[i].keys);
        if decoded.Failure? {
          return Failure(Decode(decoded.error));
        }
        if decoded.value.Some? {
          found := found + 1;
          trade := decoded.value;
        }
      }
    }
    assert ixs[..|ixs|] == ixs;
    if found != 1 {
      return Failure(PerpsIxCount(found));
    }
    return Success(trade.value);
  }

  lemma {:induction false} TradeAt(d: Discriminators, perps: Pubkey, ixs: seq<Instruction>, i: nat)
    requires AllDecode(d, perps, ixs) && i < |ixs| && TradeOf(d, perps, ixs[i]).value.Some?
    ensures TradeOf(d, perps, ixs[i]).value.value in Trades(d, perps, ixs)
    decreases |ixs|
  {
    if i < |ixs| - 1 {
      TradeAt(d, perps, ixs[..|ixs| - 1], i);
    }
  }

  lemma TradesGrow(d: Discriminators, perps: Pubkey, ixs: seq<Instruction>)
    requires AllDecode(d, perps, ixs) && ixs != []
    ensures var init, last := ixs[..|ixs| - 1], TradeOf(d, perps, ixs[|ixs| - 1]).value;
            AllDecode(d, perps, init)
            && |Trades(d, perps, ixs)| == |Trades(d, perps, init)| + (if last.Some? then 1 else 0)
  {
  }

  lemma LastIsNone(d: Discriminators, perps: Pubkey, ixs: seq<Instruction>, i: nat)
    requires AllDecode(d, perps, ixs) && i < |ixs| - 1
    requires TradeOf(d, perps, ixs[i]).value.Some? && |Trades(d, perps, ixs)| == 1
    ensures AllDecode(d, perps, ixs[..|ixs| - 1]) && |Trades(d, perps, ixs[..|ixs| - 1])| == 1
    ensures TradeOf(d, perps, ixs[|ixs| - 1]).value.None?
  {
    var init := ixs[..|ixs| - 1];
    TradesGrow(d, perps, ixs);
    assert init[i] == ixs[i];
    TradeAt(d, perps, init, i);
    assert |Trades(d, perps, init)| > 0;
  }

  lemma {:induction false} OthersAreNone(d: Discriminators, perps: Pubkey, ixs: seq<Instruction>, i: nat, j: nat)
    requires AllDecode(d, perps, ixs) && i < |ixs| && j < |ixs| && i != j
    requires TradeOf(d, perps, ixs[i]).value.Some? && |Trades(d, perps, ixs)| == 1
    ensures TradeOf(d, perps, ixs[j]).value.None?
    decreases |ixs|
  {
    var n := |ixs| - 1;
    var init := ixs[..n];
    if i == n {
      EarlierAreNone(d, perps, ixs, j);
    } else {
      LastIsNone(d, perps, ixs, i);
      if j < n {
        assert init[i] == ixs[i];
        assert init[j] == ixs[j];
        assert TradeOf(d, perps, init[i]).value.Some?;
        OthersAreNone(d, perps, init, i, j);
      } else {
        assert ixs[j] == ixs[n];
      }
    }
  }

  lemma EarlierAreNone(d: Discriminators, perps: Pubkey, ixs: seq<Instruction>, j: nat)
    requires AllDecode(d, perps, ixs) && j < |ixs| - 1
    requires TradeOf(d, perps, ixs[|ixs| - 1]).value.Some? && |Trades(d, perps, ixs)| == 1
    ensures TradeOf(d, perps, ixs[j]).value.None?
  {
    var init := ixs[..|ixs| - 1];
    TradesGrow(d, perps, ixs);
    assert Trades(d, perps, init) == [];
    NoTrades(d, perps, init);
    assert init[j] == ixs[j];
  }

  lemma {:induction false} NoTrades(d: Discriminators, perps: Pubkey, ixs: seq<Instruction>)
    requires AllDecode(d, perps, ixs)
    ensures Trades(d, perps, ixs) == [] <==> forall j :: 0 <= j < |ixs| ==> TradeOf(d, perps, ixs[j]).value.None?
    decreases |ixs|
  {
    if ixs != [] {
      NoTrades(d, perps, ixs[..|ixs| - 1]);
    }
  }

  // What a signature is debited for: the size of the trade, whichever kind it is.
  function SizeOf(ix: Ix): nat {
    match ix case Increase(args, _) => args.size case Decrease(args, _) => args.size
  }

  // Is this trade the only one of the message, every perpetuals instruction of which decodes?
  predicate OnlyTrade(d: Discriminators, perps: Pubkey, ixs: seq<Instruction>, trade: Ix) {
    AllDecode(d, perps, ixs)
    && exists i :: 0 <= i < |ixs| && TradeOf(d, perps, ixs[i]).value == Some(trade)
                   && forall j :: 0 <= j < |ixs| && j != i ==> TradeOf(d, perps, ixs[j]).value.None?
  }

  // The handler gets past its count check with a trade exactly when it is the only one.
  lemma ExactlyOneTrade(d: Discriminators, perps: Pubkey, ixs: seq<Instruction>, trade: Ix)
    ensures TheTrade(d, perps, ixs).Success? && TheTrade(d, perps, ixs).value == trade
       <==> OnlyTrade(d, perps, ixs, trade)
  {
    if AllDecode(d, perps, ixs) {
      TradesExactlyOne(d, perps, ixs, trade);
      var trades := Trades(d, perps, ixs);
      assert trades == [trade] <==> |trades| == 1 && trades[0] == trade;
    }
  }

  lemma TradesExactlyOne(d: Discriminators, perps: Pubkey, ixs: seq<Instruction>, trade: Ix)
    requires AllDecode(d, perps, ixs)
    ensures Trades(d, perps, ixs) == [trade] <==> OnlyTrade(d, perps, ixs, trade)
  {
    var trades := Trades(d, perps, ixs);
    if trades == [trade] {
      NoTrades(d, perps, ixs);
      var i :| 0 <= i < |ixs| && TradeOf(d, perps, ixs[i]).value.Some?;
      TradeAt(d, perps, ixs, i);
      forall j | 0 <= j < |ixs| && j != i
        ensures TradeOf(d, perps, ixs[j]).value.None?
      {
        OthersAreNone(d, perps, ixs, i, j);
      }
      assert TradeOf(d, perps, ixs[i]).value == Some(trade);
    }
    if OnlyTrade(d, perps, ixs, trade) {
      var i :| 0 <= i < |ixs| && TradeOf(d, perps, ixs[i]).value == Some(trade)
               && forall j :: 0 <= j < |ixs| && j != i ==> TradeOf(d, perps, ixs[j]).value.None?;
      OneTrade(d, perps, ixs, i);
    }
  }

  lemma {:induction false} OneTrade(d: Discriminators, perps: Pubkey, ixs: seq<Instruction>, i: nat)
    requires AllDecode(d, perps, ixs) && i < |ixs| && TradeOf(d, perps, ixs[i]).value.Some?
    requires forall j :: 0 <= j < |ixs| && j != i ==> TradeOf(d, perps, ixs[j]).value.None?
    ensures Trades(d, perps, ixs) == [TradeOf(d, perps, ixs[i]).value.value]
    decreases |ixs|
  {
    var n := |ixs| - 1;
    if i < n {
      OneTrade(d, perps, ixs[..n], i);
    } else {
      NoTrades(d, perps, ixs[..n]);
    }
  }
}

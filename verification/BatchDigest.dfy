/**
 The EIP-712 digest of a deposit-wallet batch (crates/core/src/polymarket/batch.rs). The hash
 is a parameter about which nothing is assumed but its length: what is proved is that two
 batches with one digest are equal, or yield two octet strings with one hash.
 */
module BatchDigest {
  import opened Bytes
  import opened Wrappers
  import opened Seqs

  type Word = s: seq<byte> | |s| == 32 witness Repeat(0, 32)

  type Hash = seq<byte> -> Word

  type Address = s: seq<byte> | |s| == 20 witness Repeat(0, 20)

  type U256 = n: nat | n < U256_RANGE

  datatype Call = Call(target: Address, value: U256, data: seq<byte>)

  datatype Batch = Batch(wallet: Address, nonce: U256, deadline: U256, calls: seq<Call>)

  // ---------- what is hashed ----------

  const CALL_TYPE: string := "Call(address target,uint256 value,bytes data)"
  const BATCH_TYPE: string :=
    "Batch(address wallet,uint256 nonce,uint256 deadline,Call[] calls)Call(address target,uint256 value,bytes data)"
  const DOMAIN_TYPE: string := "EIP712Domain(string name,string version,uint256 chainId,address verifyingContract)"
  const DOMAIN_NAME: string := "DepositWallet"
  const DOMAIN_VERSION: string := "1"
  const POLYGON_CHAIN_ID: nat := 137

  // The octets of an ASCII string.
  function Ascii(s: string): seq<byte> {
    seq(|s|, i requires 0 <= i < |s| => s[i] as int % 256)
  }

  // An address right-aligned in a word.
  function AddressWord(a: Address): Word
  {
    Repeat(0, 12) + a
  }

  function UintWord(n: nat): Word { FixedBe(n, 32) }

  function CallOctets(h: Hash, c: Call): seq<byte>
  {
    h(Ascii(CALL_TYPE)) + (AddressWord(c.target) + (UintWord(c.value) + h(c.data)))
  }

  // The hashes of the calls, one after another.
  function CallHashes(h: Hash, calls: seq<Call>): (r: seq<byte>)
    ensures |r| == 32 * |calls|
  {
    if calls == [] then [] else CallHashes(h, calls[..|calls| - 1]) + h(CallOctets(h, calls[|calls| - 1]))
  }

  function BatchOctets(h: Hash, b: Batch): seq<byte>
  {
    h(Ascii(BATCH_TYPE)) +
    (AddressWord(b.wallet) + (UintWord(b.nonce) + (UintWord(b.deadline) + h(CallHashes(h, b.calls)))))
  }

  function DomainOctets(h: Hash, wallet: Address): seq<byte>
  {
    h(Ascii(DOMAIN_TYPE)) +
    (h(Ascii(DOMAIN_NAME)) + (h(Ascii(DOMAIN_VERSION)) + (UintWord(POLYGON_CHAIN_ID) + AddressWord(wallet))))
  }

  function DigestOctets(h: Hash, b: Batch): seq<byte>
  {
    [0x19, 0x01] + (h(DomainOctets(h, b.wallet)) + h(BatchOctets(h, b)))
  }

  function Digest(h: Hash, b: Batch): Word
  {
    h(DigestOctets(h, b))
  }

  // ---------- the buffers ----------

  // Copies src into buf from position `at` on.
  method CopyInto(buf: array<byte>, at: nat, src: seq<byte>)
    requires at + |src| <= buf.Length
    modifies buf
    ensures buf[..] == old(buf[..at]) + src + old(buf[at + |src|..])
  {
    for i := 0 to |src|
      invariant forall k :: 0 <= k < buf.Length ==> buf[k] == if at <= k < at + i then src[k - at] else old(buf[k])
    {
      buf[at + i] := src[i];
    }
  }

  // A buffer filled word by word.
  method FillWords(words: seq<Word>) returns (octets: seq<byte>)
    ensures octets == Flat(words)
  {
    var buf := new byte[32 * |words|](_ => 0);
    for i := 0 to |words|
      invariant buf[..32 * i] == Flat(words[..i])
    {
      CopyInto(buf, 32 * i, words[i]);
      assert buf[..32 * (i + 1)] == buf[..32 * i] + words[i];
      assert words[..i + 1][..i] == words[..i];
    }
    assert words[..|words|] == words && buf[..32 * |words|] == buf[..];
    octets := buf[..];
  }

  function Flat(words: seq<Word>): (r: seq<byte>)
    ensures |r| == 32 * |words|
  {
    if words == [] then [] else Flat(words[..|words| - 1]) + words[|words| - 1]
  }

  lemma FlatFour(a: Word, b: Word, c: Word, d: Word)
    ensures Flat([a, b, c, d]) == a + (b + (c + d))
  {
    assert [a, b, c, d][..3] == [a, b, c] && [a, b, c][..2] == [a, b] && [a, b][..1] == [a] && [a][..0] == [];
    assert Flat([a]) == a;
    assert Flat([a, b]) == a + b;
  }

  lemma FlatFive(a: Word, b: Word, c: Word, d: Word, e: Word)
    ensures Flat([a, b, c, d, e]) == a + (b + (c + (d + e)))
  {
    assert [a, b, c, d, e][..4] == [a, b, c, d];
    FlatFour(a, b, c, d);
  }

  method HashStructCall(h: Hash, c: Call) returns (r: Word)
    ensures r == h(CallOctets(h, c))
  {
    var buf := FillWords([h(Ascii(CALL_TYPE)), AddressWord(c.target), UintWord(c.value), h(c.data)]);
    FlatFour(h(Ascii(CALL_TYPE)), AddressWord(c.target), UintWord(c.value), h(c.data));
    r := h(buf);
  }

  method HashStructBatch(h: Hash, b: Batch) returns (r: Word)
    ensures r == h(BatchOctets(h, b))
  {
    var calls := b.calls;
    var concat: seq<byte> := [];
    for i := 0 to |calls|
      invariant concat == CallHashes(h, calls[..i])
    {
      var callHash := HashStructCall(h, calls[i]);
      assert calls[..i + 1][..i] == calls[..i];
      concat := concat + callHash;
    }
    assert calls[..|calls|] == calls;
    var callsHash := h(concat);
    var buf := FillWords([h(Ascii(BATCH_TYPE)), AddressWord(b.wallet), UintWord(b.nonce), UintWord(b.deadline), callsHash]);
    FlatFive(h(Ascii(BATCH_TYPE)), AddressWord(b.wallet), UintWord(b.nonce), UintWord(b.deadline), callsHash);
    r := h(buf);
  }

  method DomainSeparator(h: Hash, wallet: Address) returns (r: Word)
    ensures r == h(DomainOctets(h, wallet))
  {
    var words := [h(Ascii(DOMAIN_TYPE)), h(Ascii(DOMAIN_NAME)), h(Ascii(DOMAIN_VERSION)),
                  UintWord(POLYGON_CHAIN_ID), AddressWord(wallet)];
    var buf := FillWords(words);
    FlatFive(words[0], words[1], words[2], words[3], words[4]);
    r := h(buf);
  }

  datatype BatchError = EmptyBatch | BatchTooLong(length: nat)

  // The digest that is signed; only batches of 1 to 24 calls are.
  method DigestToSign(h: Hash, b: Batch) returns (r: Result<Word, BatchError>)
    ensures r == if b.calls == [] then Failure(EmptyBatch)
                 else if |b.calls| > 24 then Failure(BatchTooLong(|b.calls|))
                 else Success(Digest(h, b))
  {
    if |b.calls| == 0 {
      return Failure(EmptyBatch);
    }
    if |b.calls| > 24 {
      return Failure(BatchTooLong(|b.calls|));
    }
    var domain: seq<byte> := DomainSeparator(h, b.wallet);
    var structHash: seq<byte> := HashStructBatch(h, b);
    var digest := h([0x19, 0x01] + (domain + structHash));
    return Success(digest);
  }

  // ---------- what the words mean ----------

  lemma {:induction false} ZerosInFront(k: nat, s: seq<byte>)
    ensures FromBe(Repeat(0, k) + s) == FromBe(s)
    decreases |s| + k
  {
    var t := Repeat(0, k) + s;
    if s == [] {
      assert t == Repeat(0, k);
      if k > 0 {
        assert t[..k - 1] == Repeat(0, k - 1) + s;
        ZerosInFront(k - 1, s);
        assert t[k - 1] == 0;
      }
    } else {
      assert t[..|t| - 1] == Repeat(0, k) + s[..|s| - 1];
      ZerosInFront(k, s[..|s| - 1]);
    }
  }

  // A word denotes the number that the address or the integer does.
  lemma WordsDenote(a: Address, n: U256)
    ensures FromBe(AddressWord(a)) == FromBe(a) && FromBe(UintWord(n)) == n
  {
    ZerosInFront(12, a);
    U256InWord(n);
    FixedBeRoundTrip(n, 32);
  }

  // ---------- the digest binds the batch ----------

  datatype Pair = Pair(x: seq<byte>, y: seq<byte>)

  predicate Collides(h: Hash, p: Pair) { p.x != p.y && h(p.x) == h(p.y) }

  lemma UintWordInjective(m: nat, n: nat)
    requires m < U256_RANGE && n < U256_RANGE && UintWord(m) == UintWord(n)
    ensures m == n
  {
    U256InWord(m);
    U256InWord(n);
    FixedBeRoundTrip(m, 32);
    FixedBeRoundTrip(n, 32);
  }

  lemma AddressWordInjective(a: Address, b: Address)
    requires AddressWord(a) == AddressWord(b)
    ensures a == b
  {
    var zeros: seq<byte> := Repeat(0, 12);
    Cancel(zeros, a, zeros, b);
  }

  // Equal octets of one length in front: what is in front agrees, and what follows.
  lemma Cancel(a: seq<byte>, x: seq<byte>, b: seq<byte>, y: seq<byte>)
    requires |a| == |b| && a + x == b + y
    ensures a == b && x == y
  {
    Split(a, x);
    Split(b, y);
  }

  // The data of two calls with the same hashed octets, if they differ.
  lemma CallBound(h: Hash, c: Call, d: Call)
    requires CallOctets(h, c) == CallOctets(h, d)
    ensures c.target == d.target && c.value == d.value && h(c.data) == h(d.data)
  {
    var t := h(Ascii(CALL_TYPE));
    Cancel(t, AddressWord(c.target) + (UintWord(c.value) + h(c.data)), t, AddressWord(d.target) + (UintWord(d.value) + h(d.data)));
    Cancel(AddressWord(c.target), UintWord(c.value) + h(c.data), AddressWord(d.target), UintWord(d.value) + h(d.data));
    Cancel(UintWord(c.value), h(c.data), UintWord(d.value), h(d.data));
    AddressWordInjective(c.target, d.target);
    UintWordInjective(c.value, d.value);
  }

  // Two octet strings to compare for one pair of calls: their data if all else agrees.
  function CallPair(h: Hash, c: Call, d: Call): Pair
  {
    if CallOctets(h, c) != CallOctets(h, d) then Pair(CallOctets(h, c), CallOctets(h, d)) else Pair(c.data, d.data)
  }

  // The last place at which two lists of calls differ.
  function CallsPair(h: Hash, cs: seq<Call>, ds: seq<Call>): Pair
    requires |cs| == |ds|
  {
    if cs == [] then Pair([], [])
    else
      var k := |cs| - 1;
      if cs[k] != ds[k] then CallPair(h, cs[k], ds[k]) else CallsPair(h, cs[..k], ds[..k])
  }

  // From two different batches with one digest: where their hash trees part.
  function CollisionOf(h: Hash, a: Batch, b: Batch): Pair
  {
    if DigestOctets(h, a) != DigestOctets(h, b) then Pair(DigestOctets(h, a), DigestOctets(h, b))
    else if BatchOctets(h, a) != BatchOctets(h, b) then Pair(BatchOctets(h, a), BatchOctets(h, b))
    else if CallHashes(h, a.calls) != CallHashes(h, b.calls) then Pair(CallHashes(h, a.calls), CallHashes(h, b.calls))
    else if |a.calls| != |b.calls| then Pair([], [])
    else CallsPair(h, a.calls, b.calls)
  }

  lemma {:induction false} CallsBound(h: Hash, cs: seq<Call>, ds: seq<Call>)
    requires |cs| == |ds|
    requires CallHashes(h, cs) == CallHashes(h, ds) && cs != ds
    ensures Collides(h, CallsPair(h, cs, ds))
  {
    var k := |cs| - 1;
    assert cs == cs[..k] + [cs[k]] && ds == ds[..k] + [ds[k]];
    Cancel(CallHashes(h, cs[..k]), h(CallOctets(h, cs[k])), CallHashes(h, ds[..k]), h(CallOctets(h, ds[k])));
    if cs[k] != ds[k] {
      if CallOctets(h, cs[k]) == CallOctets(h, ds[k]) {
        CallBound(h, cs[k], ds[k]);
      }
    } else {
      CallsBound(h, cs[..k], ds[..k]);
    }
  }

  lemma BatchBound(h: Hash, a: Batch, b: Batch)
    requires BatchOctets(h, a) == BatchOctets(h, b)
    ensures a.wallet == b.wallet && a.nonce == b.nonce && a.deadline == b.deadline
    ensures h(CallHashes(h, a.calls)) == h(CallHashes(h, b.calls))
  {
    var t := h(Ascii(BATCH_TYPE));
    var ca, cb := h(CallHashes(h, a.calls)), h(CallHashes(h, b.calls));
    Cancel(t, AddressWord(a.wallet) + (UintWord(a.nonce) + (UintWord(a.deadline) + ca)),
           t, AddressWord(b.wallet) + (UintWord(b.nonce) + (UintWord(b.deadline) + cb)));
    Cancel(AddressWord(a.wallet), UintWord(a.nonce) + (UintWord(a.deadline) + ca),
           AddressWord(b.wallet), UintWord(b.nonce) + (UintWord(b.deadline) + cb));
    Cancel(UintWord(a.nonce), UintWord(a.deadline) + ca, UintWord(b.nonce), UintWord(b.deadline) + cb);
    Cancel(UintWord(a.deadline), ca, UintWord(b.deadline), cb);
    AddressWordInjective(a.wallet, b.wallet);
    UintWordInjective(a.nonce, b.nonce);
    UintWordInjective(a.deadline, b.deadline);
  }

  // Different batches, of whatever lengths, with one digest exhibit a collision of the hash.
  lemma DigestBindsBatch(h: Hash, a: Batch, b: Batch)
    ensures Digest(h, a) == Digest(h, b) ==> a == b || Collides(h, CollisionOf(h, a, b))
  {
    if Digest(h, a) == Digest(h, b) && a != b && DigestOctets(h, a) == DigestOctets(h, b) {
      Cancel([0x19, 0x01], h(DomainOctets(h, a.wallet)) + h(BatchOctets(h, a)),
             [0x19, 0x01], h(DomainOctets(h, b.wallet)) + h(BatchOctets(h, b)));
      Cancel(h(DomainOctets(h, a.wallet)), h(BatchOctets(h, a)), h(DomainOctets(h, b.wallet)), h(BatchOctets(h, b)));
      if BatchOctets(h, a) == BatchOctets(h, b) {
        BatchBound(h, a, b);
        if CallHashes(h, a.calls) == CallHashes(h, b.calls) {
          CallsBound(h, a.calls, b.calls);
        }
      }
    }
  }
}

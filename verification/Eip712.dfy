/**
 Structured data as EIP-712 defines its hashing ("Definition of hashStruct" and "Definition
 of encodeData"), and the proof that the batch digest is the digest of that standard.
 */
module Eip712 {
  import opened Bytes
  import opened BatchDigest

  // A value of a structured type: a struct names its type by the encoded type string.
  datatype Value =
    | Uint(n: U256)
    | Addr(address: Address)
    | Octets(octets: seq<byte>)
    | Struct(typeString: string, fields: seq<Value>)
    | List(items: seq<Value>)

  // encodeData of one member, 32 octets: atomic values as 256-bit big-endian numbers, addresses
  // among them, dynamic values and structs hashed.
  function Encode(h: Hash, v: Value): Word
    decreases v, 1
  {
    match v
    case Uint(n) => FixedBe(n, 32)
    case Addr(a) => FixedBe(FromBe(a), 32)
    case Octets(octets) => h(octets)
    case Struct(typeString, fields) => h(h(Ascii(typeString)) + EncodeAll(h, fields))
    case List(items) => h(EncodeAll(h, items))
  }

  function EncodeAll(h: Hash, vs: seq<Value>): (r: seq<byte>)
    ensures |r| == 32 * |vs|
    decreases vs, 0
  {
    if vs == [] then [] else Encode(h, vs[0]) + EncodeAll(h, vs[1..])
  }

  // The digest that is signed for a message of a domain.
  function TypedDigest(h: Hash, domain: Value, message: Value): Word {
    h([0x19, 0x01] + (Encode(h, domain) + Encode(h, message)))
  }

  // ---------- the batch as structured data ----------

  function CallValue(c: Call): Value {
    Struct("Call(address target,uint256 value,bytes data)", [Addr(c.target), Uint(c.value), Octets(c.data)])
  }

  function CallValues(calls: seq<Call>): (r: seq<Value>)
    ensures |r| == |calls|
  {
    if calls == [] then [] else [CallValue(calls[0])] + CallValues(calls[1..])
  }

  function BatchValue(b: Batch): Value {
    Struct("Batch(address wallet,uint256 nonce,uint256 deadline,Call[] calls)Call(address target,uint256 value,bytes data)",
           [Addr(b.wallet), Uint(b.nonce), Uint(b.deadline), List(CallValues(b.calls))])
  }

  function DomainValue(wallet: Address): Value {
    Struct("EIP712Domain(string name,string version,uint256 chainId,address verifyingContract)",
           [Octets(Ascii("DepositWallet")), Octets(Ascii("1")), Uint(137), Addr(wallet)])
  }

  // ---------- the hashes are those of the standard ----------

  lemma EncodeThree(h: Hash, a: Value, b: Value, c: Value)
    ensures EncodeAll(h, [a, b, c]) == Encode(h, a) + (Encode(h, b) + Encode(h, c))
  {
    assert [a, b, c][1..] == [b, c] && [b, c][1..] == [c] && [c][1..] == [];
    assert EncodeAll(h, [c]) == Encode(h, c) + EncodeAll(h, []);
  }

  lemma EncodeFour(h: Hash, a: Value, b: Value, c: Value, d: Value)
    ensures EncodeAll(h, [a, b, c, d]) == Encode(h, a) + (Encode(h, b) + (Encode(h, c) + Encode(h, d)))
  {
    assert [a, b, c, d][1..] == [b, c, d];
    EncodeThree(h, b, c, d);
  }

  lemma AddressIsNumber(a: Address)
    ensures AddressWord(a) == FixedBe(FromBe(a), 32)
  {
    WordsDenote(a, 0);
    FixedBeOfFromBe(AddressWord(a));
  }

  lemma CallIsStruct(h: Hash, c: Call)
    ensures h(CallOctets(h, c)) == Encode(h, CallValue(c))
  {
    AddressIsNumber(c.target);
    EncodeThree(h, Addr(c.target), Uint(c.value), Octets(c.data));
  }

  lemma {:induction false} CallValuesSnoc(h: Hash, calls: seq<Call>)
    requires calls != []
    ensures EncodeAll(h, CallValues(calls))
         == EncodeAll(h, CallValues(calls[..|calls| - 1])) + Encode(h, CallValue(calls[|calls| - 1]))
  {
    var n := |calls| - 1;
    var values := CallValues(calls);
    assert values[1..] == CallValues(calls[1..]);
    if n > 0 {
      var rest := calls[1..];
      CallValuesSnoc(h, rest);
      assert rest[..n - 1] == calls[..n][1..] && rest[n - 1] == calls[n];
      assert CallValues(calls[..n])[1..] == CallValues(calls[..n][1..]);
    } else {
      assert CallValues(calls[1..]) == [] && CallValues(calls[..0]) == [];
    }
  }

  lemma {:induction false} CallsAreList(h: Hash, calls: seq<Call>)
    ensures CallHashes(h, calls) == EncodeAll(h, CallValues(calls))
  {
    if calls != [] {
      CallsAreList(h, calls[..|calls| - 1]);
      CallIsStruct(h, calls[|calls| - 1]);
      CallValuesSnoc(h, calls);
    }
  }

  lemma BatchIsStruct(h: Hash, b: Batch)
    ensures h(BatchOctets(h, b)) == Encode(h, BatchValue(b))
  {
    var calls := List(CallValues(b.calls));
    AddressIsNumber(b.wallet);
    CallsAreList(h, b.calls);
    EncodeFour(h, Addr(b.wallet), Uint(b.nonce), Uint(b.deadline), calls);
    assert Encode(h, calls) == h(CallHashes(h, b.calls));
  }

  lemma DomainIsStruct(h: Hash, wallet: Address)
    ensures h(DomainOctets(h, wallet)) == Encode(h, DomainValue(wallet))
  {
    AddressIsNumber(wallet);
    EncodeFour(h, Octets(Ascii(DOMAIN_NAME)), Octets(Ascii(DOMAIN_VERSION)), Uint(137), Addr(wallet));
  }

  // The digest of a batch is the EIP-712 digest of the batch as structured data, in the domain
  // of its own wallet.
  lemma DigestFollowsStandard(h: Hash, b: Batch)
    ensures Digest(h, b) == TypedDigest(h, DomainValue(b.wallet), BatchValue(b))
  {
    BatchIsStruct(h, b);
    DomainIsStruct(h, b.wallet);
  }
}

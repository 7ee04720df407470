/**
 EIP-1559 transactions (crates/core/src/evm/tx.rs): the payload that is signed, the payload
 that is broadcast, and the proof that each determines every field.
 */
module EvmTx {
  import opened Bytes
  import opened Wrappers
  import opened Seqs
  import opened Rlp
  import opened RlpStreams

  datatype AccessListItem = AccessListItem(address: seq<byte>, storageKeys: seq<seq<byte>>)

  datatype Eip1559Tx = Eip1559Tx(
    chainId: nat,
    nonce: nat,
    maxPriorityFee: nat,
    maxFee: nat,
    gasLimit: nat,
    to: seq<byte>,
    value: nat,
    data: seq<byte>,
    accessList: seq<AccessListItem>)

  predicate ValidItem(item: AccessListItem) {
    |item.address| == 20 && forall i :: 0 <= i < |item.storageKeys| ==> |item.storageKeys[i]| == 32
  }

  // The ranges of the field types.
  predicate ValidTx(tx: Eip1559Tx) {
    && tx.chainId < U64_RANGE && tx.nonce < U64_RANGE && tx.gasLimit < U64_RANGE
    && tx.maxPriorityFee < U256_RANGE && tx.maxFee < U256_RANGE && tx.value < U256_RANGE
    && |tx.to| == 20
    && forall i :: 0 <= i < |tx.accessList| ==> ValidItem(tx.accessList[i])
  }

  // ---------- the items of a transaction ----------

  function UintItem(n: nat): Item { Str(Be(n)) }

  function KeyItems(keys: seq<seq<byte>>): (r: seq<Item>)
    ensures |r| == |keys|
  {
    if keys == [] then [] else [Str(keys[0])] + KeyItems(keys[1..])
  }

  function AccessItem(item: AccessListItem): Item {
    List([Str(item.address), List(KeyItems(item.storageKeys))])
  }

  function AccessItems(list: seq<AccessListItem>): (r: seq<Item>)
    ensures |r| == |list|
  {
    if list == [] then [] else [AccessItem(list[0])] + AccessItems(list[1..])
  }

  function FeeFields(tx: Eip1559Tx): seq<Item> {
    [UintItem(tx.chainId), UintItem(tx.nonce), UintItem(tx.maxPriorityFee), UintItem(tx.maxFee), UintItem(tx.gasLimit)]
  }

  function CallFields(tx: Eip1559Tx): seq<Item> {
    [Str(tx.to), UintItem(tx.value), Str(tx.data), List(AccessItems(tx.accessList))]
  }

  // The nine fields, in order.
  function Fields(tx: Eip1559Tx): seq<Item> { FeeFields(tx) + CallFields(tx) }

  function SignatureFields(yParity: byte, r: seq<byte>, s: seq<byte>): seq<Item> {
    [Str(Strip([yParity])), Str(Strip(r)), Str(Strip(s))]
  }

  // The transaction type 2 and the list of fields.
  function Unsigned(tx: Eip1559Tx): seq<byte> { [2] + Enc(List(Fields(tx))) }

  function Signed(tx: Eip1559Tx, yParity: byte, r: seq<byte>, s: seq<byte>): seq<byte> {
    [2] + Enc(List(Fields(tx) + SignatureFields(yParity, r, s)))
  }

  // ---------- leading zeros ----------

  function Strip(s: seq<byte>): (r: seq<byte>)
    ensures r != [] ==> r[0] != 0
  {
    if s != [] && s[0] == 0 then Strip(s[1..]) else s
  }

  lemma {:induction false} FromBeZero(s: seq<byte>)
    ensures FromBe([0] + s) == FromBe(s)
  {
    var t := [0] + s;
    if s == [] {
      assert t[..|t| - 1] == [];
    } else {
      assert t[..|t| - 1] == [0] + s[..|s| - 1];
      FromBeZero(s[..|s| - 1]);
    }
  }

  lemma {:induction false} StripKeepsNumber(s: seq<byte>)
    ensures FromBe(Strip(s)) == FromBe(s) && |Strip(s)| <= |s|
  {
    if s != [] && s[0] == 0 {
      StripKeepsNumber(s[1..]);
      FromBeZero(s[1..]);
      HeadTail(s);
    }
  }

  // A string without leading zeros is the shortest form of its number.
  lemma {:induction false} NoZeroIsBe(s: seq<byte>)
    requires s != [] ==> s[0] != 0
    ensures Be(FromBe(s)) == s
  {
    if s != [] {
      var init, last := s[..|s| - 1], s[|s| - 1];
      assert s == init + [last];
      if init == [] {
        SnocIsBe([], last);
      } else {
        NoZeroIsBe(init);
        NonZero(init);
        SnocIsBe(init, last);
      }
    }
  }

  lemma SnocIsBe(init: seq<byte>, last: byte)
    requires Be(FromBe(init)) == init && (FromBe(init) > 0 || last > 0)
    ensures Be(FromBe(init + [last])) == init + [last]
  {
    assert (init + [last])[..|init|] == init;
    BeSnoc(FromBe(init), last);
  }

  lemma BeSnoc(q: nat, r: byte)
    requires q > 0 || r > 0
    ensures Be(256 * q + r) == Be(q) + [r]
  {
    DivMod256(q, r);
  }

  lemma DivMod256(q: nat, r: nat)
    requires r < 256
    ensures (256 * q + r) / 256 == q && (256 * q + r) % 256 == r
  {
  }

  lemma {:induction false} NonZero(s: seq<byte>)
    requires s != [] && s[0] != 0
    ensures FromBe(s) > 0
  {
    if |s| > 1 {
      NonZero(s[..|s| - 1]);
    }
  }

  // Stripping the 32-octet form of a number leaves its shortest form.
  lemma StripFixed(n: nat, k: nat)
    requires n < Pow(256, k)
    ensures Strip(FixedBe(n, k)) == Be(n)
  {
    FixedBeRoundTrip(n, k);
    StripKeepsNumber(FixedBe(n, k));
    NoZeroIsBe(Strip(FixedBe(n, k)));
  }

  // ---------- the encoders ----------

  method AppendUintFromBytes(s: RlpStream, bytes: seq<byte>)
    requires s.Valid()
    modifies s
    ensures s.Valid() && s.progress == Add(old(s.progress), Str(Strip(bytes)))
  {
    var start := 0;
    while start < |bytes| && bytes[start] == 0
      invariant 0 <= start <= |bytes|
      invariant Strip(bytes) == Strip(bytes[start..])
      invariant s.Valid() && s.progress == old(s.progress)
    {
      assert bytes[start..][1..] == bytes[start + 1..];
      start := start + 1;
    }
    s.Append(bytes[start..]);
  }

  method AppendUint(s: RlpStream, n: nat)
    requires s.Valid() && n < U256_RANGE
    modifies s
    ensures s.Valid() && s.progress == Add(old(s.progress), UintItem(n))
    ensures exists octets :: FromBe(octets) == n && NoLeadingZero(octets) && s.progress == Add(old(s.progress), Str(octets))
  {
    UintRecovered(n);
    U256InWord(n);
    StripFixed(n, 32);
    AppendUintFromBytes(s, FixedBe(n, 32));
  }

  lemma {:induction false} KeyItemAt(keys: seq<seq<byte>>, i: nat)
    requires i < |keys|
    ensures KeyItems(keys)[i] == Str(keys[i])
  {
    if i > 0 {
      KeyItemAt(keys[1..], i - 1);
    }
  }

  lemma {:induction false} AccessItemAt(list: seq<AccessListItem>, i: nat)
    requires i < |list|
    ensures AccessItems(list)[i] == AccessItem(list[i])
  {
    if i > 0 {
      AccessItemAt(list[1..], i - 1);
    }
  }

  lemma TakeOneMore<T>(xs: seq<T>, i: nat)
    requires i < |xs|
    ensures xs[..i + 1] == xs[..i] + [xs[i]]
  {
  }

  method AppendKeys(s: RlpStream, keys: seq<seq<byte>>)
    requires s.Valid()
    modifies s
    ensures s.Valid() && s.progress == Add(old(s.progress), List(KeyItems(keys)))
  {
    ghost var items := KeyItems(keys);
    ghost var start := Begin(s.progress, |keys|);
    s.BeginList(|keys|);
    for i := 0 to |keys|
      invariant s.Valid() && s.progress == AddAll(start, items[..i])
    {
      KeyItemAt(keys, i);
      TakeOneMore(items, i);
      AddAllSnoc(start, items[..i], items[i]);
      s.Append(keys[i]);
    }
    assert items[..|keys|] == items;
    ListCloses(old(s.progress), items);
  }

  method AppendAccessList(s: RlpStream, list: seq<AccessListItem>)
    requires s.Valid()
    modifies s
    ensures s.Valid() && s.progress == Add(old(s.progress), List(AccessItems(list)))
  {
    ghost var items := AccessItems(list);
    ghost var start := Begin(s.progress, |list|);
    s.BeginList(|list|);
    for i := 0 to |list|
      invariant s.Valid() && s.progress == AddAll(start, items[..i])
    {
      AccessItemAt(list, i);
      TakeOneMore(items, i);
      AddAllSnoc(start, items[..i], items[i]);
      ghost var before := s.progress;
      s.BeginList(2);
      s.Append(list[i].address);
      AppendKeys(s, list[i].storageKeys);
      PairCloses(before, Str(list[i].address), List(KeyItems(list[i].storageKeys)));
    }
    assert items[..|list|] == items;
    ListCloses(old(s.progress), items);
  }

  lemma PairCloses(p: Progress, x: Item, y: Item)
    ensures Add(Add(Begin(p, 2), x), y) == Add(p, List([x, y]))
  {
    ListCloses(p, [x, y]);
    AddAllSnoc(Begin(p, 2), [x], y);
    AddAllSnoc(Begin(p, 2), [], x);
    assert [x] + [y] == [x, y] && [] + [x] == [x];
  }

  // Appending the next field to those appended since p.
  method NextUint(s: RlpStream, n: nat, ghost p: Progress, ghost done: seq<Item>) returns (ghost r: seq<Item>)
    requires s.Valid() && n < U256_RANGE && s.progress == AddAll(p, done)
    modifies s
    ensures r == done + [UintItem(n)] && s.Valid() && s.progress == AddAll(p, r)
  {
    r := done + [UintItem(n)];
    AddAllSnoc(p, done, UintItem(n));
    AppendUint(s, n);
  }

  method NextStripped(s: RlpStream, bytes: seq<byte>, ghost p: Progress, ghost done: seq<Item>)
      returns (ghost r: seq<Item>)
    requires s.Valid() && s.progress == AddAll(p, done)
    modifies s
    ensures r == done + [Str(Strip(bytes))] && s.Valid() && s.progress == AddAll(p, r)
  {
    r := done + [Str(Strip(bytes))];
    AddAllSnoc(p, done, Str(Strip(bytes)));
    AppendUintFromBytes(s, bytes);
  }

  method NextStr(s: RlpStream, bytes: seq<byte>, ghost p: Progress, ghost done: seq<Item>) returns (ghost r: seq<Item>)
    requires s.Valid() && s.progress == AddAll(p, done)
    modifies s
    ensures r == done + [Str(bytes)] && s.Valid() && s.progress == AddAll(p, r)
  {
    r := done + [Str(bytes)];
    AddAllSnoc(p, done, Str(bytes));
    s.Append(bytes);
  }

  method AppendFeeFields(s: RlpStream, tx: Eip1559Tx)
    requires s.Valid() && ValidTx(tx)
    modifies s
    ensures s.Valid() && s.progress == AddAll(old(s.progress), FeeFields(tx))
  {
    ghost var p, done: seq<Item> := s.progress, [];
    done := NextUint(s, tx.chainId, p, done);
    done := NextUint(s, tx.nonce, p, done);
    done := NextUint(s, tx.maxPriorityFee, p, done);
    done := NextUint(s, tx.maxFee, p, done);
    done := NextUint(s, tx.gasLimit, p, done);
    FiveInARow(UintItem(tx.chainId), UintItem(tx.nonce), UintItem(tx.maxPriorityFee), UintItem(tx.maxFee),
               UintItem(tx.gasLimit));
  }

  method AppendCallFields(s: RlpStream, tx: Eip1559Tx)
    requires s.Valid() && ValidTx(tx)
    modifies s
    ensures s.Valid() && s.progress == AddAll(old(s.progress), CallFields(tx))
  {
    ghost var p, done: seq<Item> := s.progress, [];
    done := NextStr(s, tx.to, p, done);
    done := NextUint(s, tx.value, p, done);
    done := NextStr(s, tx.data, p, done);
    AppendAccessList(s, tx.accessList);
    AddAllSnoc(p, done, List(AccessItems(tx.accessList)));
    FourInARow(Str(tx.to), UintItem(tx.value), Str(tx.data), List(AccessItems(tx.accessList)));
  }

  lemma FourInARow<T>(a: T, b: T, c: T, d: T)
    ensures [] + [a] + [b] + [c] + [d] == [a, b, c, d]
  {
  }

  lemma FiveInARow<T>(a: T, b: T, c: T, d: T, e: T)
    ensures [] + [a] + [b] + [c] + [d] + [e] == [a, b, c, d, e]
  {
  }

  method AppendFields(s: RlpStream, tx: Eip1559Tx)
    requires s.Valid() && ValidTx(tx)
    modifies s
    ensures s.Valid() && s.progress == AddAll(old(s.progress), Fields(tx))
  {
    ghost var p := s.progress;
    AppendFeeFields(s, tx);
    AppendCallFields(s, tx);
    AddAllConcat(p, FeeFields(tx), CallFields(tx));
  }

  lemma {:induction false} AddAllConcat(p: Progress, xs: seq<Item>, ys: seq<Item>)
    ensures AddAll(AddAll(p, xs), ys) == AddAll(p, xs + ys)
  {
    if ys == [] {
      assert xs + ys == xs;
    } else {
      var k := |ys| - 1;
      AddAllConcat(p, xs, ys[..k]);
      assert (xs + ys)[..|xs + ys| - 1] == xs + ys[..k];
    }
  }

  // A stream holding one complete list holds its encoding.
  lemma OneList(s: RlpStream, fields: seq<Item>)
    requires s.Valid() && s.progress == AddAll(Begin(EMPTY, |fields|), fields)
    ensures s.raw == Enc(List(fields))
  {
    ListCloses(EMPTY, fields);
    assert [] + [List(fields)] == [List(fields)];
    EncAllOne(List(fields));
  }

  method EncodeUnsigned(tx: Eip1559Tx) returns (out: seq<byte>)
    requires ValidTx(tx)
    ensures out == Unsigned(tx)
  {
    var s := new RlpStream();
    s.BeginList(9);
    AppendFields(s, tx);
    OneList(s, Fields(tx));
    out := [0x02] + s.raw;
  }

  lemma ThreeMore<T>(xs: seq<T>, a: T, b: T, c: T)
    ensures xs + [a] + [b] + [c] == xs + [a, b, c]
  {
  }

  method EncodeSigned(tx: Eip1559Tx, yParity: byte, r: seq<byte>, sigS: seq<byte>) returns (out: seq<byte>)
    requires ValidTx(tx)
    ensures out == Signed(tx, yParity, r, sigS)
  {
    var s := new RlpStream();
    s.BeginList(12);
    ghost var p := s.progress;
    AppendFields(s, tx);
    ghost var done := Fields(tx);
    done := NextStripped(s, [yParity], p, done);
    done := NextStripped(s, r, p, done);
    done := NextStripped(s, sigS, p, done);
    ThreeMore(Fields(tx), Str(Strip([yParity])), Str(Strip(r)), Str(Strip(sigS)));
    OneList(s, done);
    out := [0x02] + s.raw;
  }

  // ---------- decoding ----------

  function KeysOf(items: seq<Item>): Option<seq<seq<byte>>> {
    if items == [] then Some([])
    else if items[0].List? then None
    else
      var more :- KeysOf(items[1..]);
      Some([items[0].bytes] + more)
  }

  function AccessListOf(items: seq<Item>): Option<seq<AccessListItem>> {
    if items == [] then Some([])
    else if !items[0].List? || |items[0].items| != 2 || items[0].items[0].List? || items[0].items[1].Str? then None
    else
      var keys :- KeysOf(items[0].items[1].items);
      var more :- AccessListOf(items[1..]);
      Some([AccessListItem(items[0].items[0].bytes, keys)] + more)
  }

  predicate NoLeadingZero(octets: seq<byte>) { octets != [] ==> octets[0] != 0 }

  predicate IsInteger(item: Item) { item.Str? && NoLeadingZero(item.bytes) }

  // An item for every field, of the right kind.
  predicate FieldKinds(items: seq<Item>) {
    && |items| == 9 && IsInteger(items[0]) && IsInteger(items[1]) && IsInteger(items[2]) && IsInteger(items[3])
    && IsInteger(items[4]) && items[5].Str? && IsInteger(items[6]) && items[7].Str? && items[8].List?
  }

  // The transaction whose fields these are; integers with leading zeros are refused.
  function TxOf(items: seq<Item>): Option<Eip1559Tx> {
    if !FieldKinds(items) then None
    else
      var accessList :- AccessListOf(items[8].items);
      Some(Eip1559Tx(FromBe(items[0].bytes), FromBe(items[1].bytes), FromBe(items[2].bytes), FromBe(items[3].bytes),
                     FromBe(items[4].bytes), items[5].bytes, FromBe(items[6].bytes), items[7].bytes, accessList))
  }

  // The items of a payload of transaction type 2.
  function PayloadItems(payload: seq<byte>): Option<seq<Item>> {
    if payload == [] || payload[0] != 2 then None
    else
      match DecAll(payload[1..])
      case Good(items) => if |items| == 1 && items[0].List? then Some(items[0].items) else None
      case Bad => None
  }

  function DecodeUnsigned(payload: seq<byte>): Option<Eip1559Tx> {
    var items :- PayloadItems(payload);
    TxOf(items)
  }

  datatype Signature = Signature(yParity: nat, r: nat, s: nat)

  function SignatureOf(items: seq<Item>): Option<Signature> {
    if |items| != 3 || !IsInteger(items[0]) || !IsInteger(items[1]) || !IsInteger(items[2]) then None
    else Some(Signature(FromBe(items[0].bytes), FromBe(items[1].bytes), FromBe(items[2].bytes)))
  }

  datatype SignedTx = SignedTx(tx: Eip1559Tx, signature: Signature)

  function SignedOf(items: seq<Item>): Option<SignedTx> {
    if |items| != 12 then None
    else
      var tx :- TxOf(items[..9]);
      var signature :- SignatureOf(items[9..]);
      Some(SignedTx(tx, signature))
  }

  function DecodeSigned(payload: seq<byte>): Option<SignedTx> {
    var items :- PayloadItems(payload);
    SignedOf(items)
  }

  // ---------- the payload determines the transaction ----------

  lemma {:induction false} KeysRecovered(keys: seq<seq<byte>>)
    ensures KeysOf(KeyItems(keys)) == Some(keys)
  {
    if keys != [] {
      KeysRecovered(keys[1..]);
      HeadTail(keys);
    }
  }

  lemma {:induction false} AccessListRecovered(list: seq<AccessListItem>)
    ensures AccessListOf(AccessItems(list)) == Some(list)
  {
    if list != [] {
      KeysRecovered(list[0].storageKeys);
      AccessListRecovered(list[1..]);
      HeadTail(list);
    }
  }

  lemma FieldList(tx: Eip1559Tx)
    ensures var f := Fields(tx);
            && |f| == 9 && f[0] == UintItem(tx.chainId) && f[1] == UintItem(tx.nonce)
            && f[2] == UintItem(tx.maxPriorityFee) && f[3] == UintItem(tx.maxFee) && f[4] == UintItem(tx.gasLimit)
            && f[5] == Str(tx.to) && f[6] == UintItem(tx.value) && f[7] == Str(tx.data)
            && f[8] == List(AccessItems(tx.accessList))
  {
  }

  lemma TxOfFields(items: seq<Item>, tx: Eip1559Tx)
    requires FieldKinds(items)
    requires FromBe(items[0].bytes) == tx.chainId && FromBe(items[1].bytes) == tx.nonce
    requires FromBe(items[2].bytes) == tx.maxPriorityFee && FromBe(items[3].bytes) == tx.maxFee
    requires FromBe(items[4].bytes) == tx.gasLimit && items[5].bytes == tx.to
    requires FromBe(items[6].bytes) == tx.value && items[7].bytes == tx.data
    requires AccessListOf(items[8].items) == Some(tx.accessList)
    ensures TxOf(items) == Some(tx)
  {
  }

  // An integer is written as the shortest octets that denote it: none for 0.
  lemma UintRecovered(n: nat)
    ensures IsInteger(UintItem(n)) && FromBe(UintItem(n).bytes) == n
  {
    BeRoundTrip(n);
  }

  lemma FieldsDenote(tx: Eip1559Tx)
    ensures var f := Fields(tx);
            && FieldKinds(f)
            && FromBe(f[0].bytes) == tx.chainId && FromBe(f[1].bytes) == tx.nonce
            && FromBe(f[2].bytes) == tx.maxPriorityFee && FromBe(f[3].bytes) == tx.maxFee
            && FromBe(f[4].bytes) == tx.gasLimit && FromBe(f[6].bytes) == tx.value
  {
    FieldList(tx);
    UintRecovered(tx.chainId);
    UintRecovered(tx.nonce);
    UintRecovered(tx.maxPriorityFee);
    UintRecovered(tx.maxFee);
    UintRecovered(tx.gasLimit);
    UintRecovered(tx.value);
  }

  lemma FieldsRecovered(tx: Eip1559Tx)
    ensures TxOf(Fields(tx)) == Some(tx)
  {
    FieldsDenote(tx);
    FieldList(tx);
    AccessListRecovered(tx.accessList);
    TxOfFields(Fields(tx), tx);
  }

  lemma PayloadRecovered(items: seq<Item>)
    requires |Enc(List(items))| < U64_RANGE
    ensures PayloadItems([2] + Enc(List(items))) == Some(items)
  {
    EncAllOne(List(items));
    DecodesAll([List(items)]);
    Split([2], Enc(List(items)));
  }

  // A decoder recovers every field from the octets that are signed.
  lemma UnsignedRecovered(tx: Eip1559Tx)
    requires |Unsigned(tx)| <= U64_RANGE
    ensures DecodeUnsigned(Unsigned(tx)) == Some(tx)
  {
    PayloadRecovered(Fields(tx));
    FieldsRecovered(tx);
  }

  // Distinct transactions never share signing octets.
  lemma UnsignedInjective(tx: Eip1559Tx, other: Eip1559Tx)
    requires |Unsigned(tx)| <= U64_RANGE && |Unsigned(other)| <= U64_RANGE
    ensures Unsigned(tx) == Unsigned(other) <==> tx == other
  {
    UnsignedRecovered(tx);
    UnsignedRecovered(other);
  }

  // The broadcast payload yields every field and the three signature numbers.
  lemma SignedRecovered(tx: Eip1559Tx, yParity: byte, r: seq<byte>, s: seq<byte>)
    requires |Signed(tx, yParity, r, s)| <= U64_RANGE
    ensures DecodeSigned(Signed(tx, yParity, r, s)) == Some(SignedTx(tx, Signature(yParity, FromBe(r), FromBe(s))))
  {
    PayloadRecovered(Fields(tx) + SignatureFields(yParity, r, s));
    FieldsRecovered(tx);
    FieldList(tx);
    StripKeepsNumber([yParity]);
    assert FromBe([yParity]) == yParity by { assert [yParity][..0] == []; }
    StripKeepsNumber(r);
    StripKeepsNumber(s);
    SignatureRecovered(Strip([yParity]), Strip(r), Strip(s));
    SignedOfParts(Fields(tx), SignatureFields(yParity, r, s));
  }

  lemma SignatureRecovered(y: seq<byte>, r: seq<byte>, s: seq<byte>)
    requires NoLeadingZero(y) && NoLeadingZero(r) && NoLeadingZero(s)
    ensures SignatureOf([Str(y), Str(r), Str(s)]) == Some(Signature(FromBe(y), FromBe(r), FromBe(s)))
  {
  }

  lemma SignedOfParts(fields: seq<Item>, more: seq<Item>)
    requires |fields| == 9 && |more| == 3 && TxOf(fields).Some? && SignatureOf(more).Some?
    ensures SignedOf(fields + more) == Some(SignedTx(TxOf(fields).value, SignatureOf(more).value))
  {
    Split(fields, more);
  }

  // So, for signature halves of fixed length, the broadcast payload determines all of them.
  lemma SignedInjective(tx: Eip1559Tx, y: byte, r: seq<byte>, s: seq<byte>,
                        tx': Eip1559Tx, y': byte, r': seq<byte>, s': seq<byte>)
    requires |Signed(tx, y, r, s)| <= U64_RANGE && |Signed(tx', y', r', s')| <= U64_RANGE
    requires |r| == |r'| && |s| == |s'|
    requires Signed(tx, y, r, s) == Signed(tx', y', r', s')
    ensures tx == tx' && y == y' && r == r' && s == s'
  {
    SignedRecovered(tx, y, r, s);
    SignedRecovered(tx', y', r', s');
    FromBeInjective(r, r');
    FromBeInjective(s, s');
  }

  // The octets inside the list of a payload of transaction type 2, if that is all there is.
  function ListPayload(payload: seq<byte>): Option<seq<byte>> {
    if payload == [] || payload[0] != 2 then None
    else
      match SplitItem(payload[1..])
      case Payload(isList, inside, rest) => if isList && rest == [] then Some(inside) else None
      case NoSplit => None
  }

  lemma ListPayloadOf(items: seq<Item>)
    requires |Enc(List(items))| < U64_RANGE
    ensures ListPayload([2] + Enc(List(items))) == Some(EncAll(items))
  {
    var e := Enc(List(items));
    Split([2], e);
    assert e + [] == e;
    DecodesItem(List(items), []);
  }

  // What is broadcast is, inside its list, what is signed followed by the three items of the
  // signature.
  lemma SignedExtendsUnsigned(tx: Eip1559Tx, yParity: byte, r: seq<byte>, s: seq<byte>)
    requires |Unsigned(tx)| <= U64_RANGE && |Signed(tx, yParity, r, s)| <= U64_RANGE
    ensures var before, after := ListPayload(Unsigned(tx)), ListPayload(Signed(tx, yParity, r, s));
            && before.Some? && after.Some?
            && after.value == before.value + EncAll(SignatureFields(yParity, r, s))
  {
    ListPayloadOf(Fields(tx));
    ListPayloadOf(Fields(tx) + SignatureFields(yParity, r, s));
    EncAllConcat(Fields(tx), SignatureFields(yParity, r, s));
  }
}

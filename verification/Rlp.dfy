/**
 Recursive Length Prefix (Ethereum Yellow Paper, appendix B): the encoding, a decoder, and
 the proof that the decoder recovers every item.
 */
module Rlp {
  import opened Bytes
  import opened Seqs

  datatype Item = Str(bytes: seq<byte>) | List(items: seq<Item>)

  // ---------- encoding ----------

  // The header of a string (base 128) or a list (base 192) of n octets.
  function Header(base: nat, n: nat): seq<byte> {
    if n <= 55 then [(base + n) % 256] else [(base + 55 + |Be(n)|) % 256] + Be(n)
  }

  function EncStr(bytes: seq<byte>): seq<byte> {
    if |bytes| == 1 && bytes[0] < 128 then bytes else Header(128, |bytes|) + bytes
  }

  function Enc(x: Item): seq<byte>
    decreases x, 1
  {
    match x
    case Str(bytes) => EncStr(bytes)
    case List(items) => Header(192, |EncAll(items)|) + EncAll(items)
  }

  function EncAll(xs: seq<Item>): seq<byte>
    decreases xs, 0
  {
    if xs == [] then [] else Enc(xs[0]) + EncAll(xs[1..])
  }

  lemma {:induction false} EncAllConcat(xs: seq<Item>, ys: seq<Item>)
    ensures EncAll(xs + ys) == EncAll(xs) + EncAll(ys)
  {
    if xs == [] {
      assert xs + ys == ys;
    } else {
      assert (xs + ys)[1..] == xs[1..] + ys;
      EncAllConcat(xs[1..], ys);
      Assoc(Enc(xs[0]), EncAll(xs[1..]), EncAll(ys));
    }
  }

  lemma EncAllOne(x: Item)
    ensures EncAll([x]) == Enc(x)
  {
    assert [x][1..] == [];
    assert EncAll([x]) == Enc(x) + EncAll([]);
  }

  // ---------- decoding ----------

  // A payload and what follows it.
  datatype Splitting = NoSplit | Payload(isList: bool, payload: seq<byte>, rest: seq<byte>)

  function TakePayload(isList: bool, s: seq<byte>, n: nat): Splitting {
    if n <= |s| then Payload(isList, s[..n], s[n..]) else NoSplit
  }

  // Reads a length of k octets, then as many octets.
  function TakeLong(isList: bool, s: seq<byte>, k: nat): Splitting {
    if k <= |s| then TakePayload(isList, s[k..], FromBe(s[..k])) else NoSplit
  }

  function SplitItem(s: seq<byte>): (r: Splitting)
    ensures r.Payload? ==> |r.rest| < |s| && |r.payload| <= |s|
    ensures r.Payload? && r.isList ==> |r.payload| < |s|
  {
    if s == [] then NoSplit
    else if s[0] < 128 then Payload(false, s[..1], s[1..])
    else if s[0] <= 183 then TakePayload(false, s[1..], s[0] - 128)
    else if s[0] <= 191 then TakeLong(false, s[1..], s[0] - 183)
    else if s[0] <= 247 then TakePayload(true, s[1..], s[0] - 192)
    else TakeLong(true, s[1..], s[0] - 247)
  }

  datatype Decoded = Bad | Good(items: seq<Item>)

  // Decodes a whole run of items.
  function DecAll(s: seq<byte>): Decoded
    decreases |s|
  {
    if s == [] then Good([])
    else
      match SplitItem(s)
      case NoSplit => Bad
      case Payload(isList, payload, rest) =>
        var inner := if isList then DecAll(payload) else Good([]);
        var more := DecAll(rest);
        if inner.Bad? || more.Bad? then Bad
        else Good([if isList then List(inner.items) else Str(payload)] + more.items)
  }

  // ---------- the decoder recovers what was encoded ----------

  lemma SplitShort(isList: bool, payload: seq<byte>, rest: seq<byte>)
    requires |payload| <= 55
    ensures var r := SplitItem([(if isList then 192 else 128) + |payload|] + (payload + rest));
            r.Payload? && r.isList == isList && r.payload == payload && r.rest == rest
  {
    var lead := (if isList then 192 else 128) + |payload|;
    Split([lead], payload + rest);
    Split(payload, rest);
  }

  lemma SplitLong(isList: bool, digits: seq<byte>, payload: seq<byte>, rest: seq<byte>)
    requires 1 <= |digits| <= 8 && FromBe(digits) == |payload|
    ensures var r := SplitItem([(if isList then 247 else 183) + |digits|] + (digits + (payload + rest)));
            r.Payload? && r.isList == isList && r.payload == payload && r.rest == rest
  {
    var lead := (if isList then 247 else 183) + |digits|;
    Split([lead], digits + (payload + rest));
    Split(digits, payload + rest);
    Split(payload, rest);
    var s := [lead] + (digits + (payload + rest));
    assert s[0] == lead && s[1..] == digits + (payload + rest);
    assert TakeLong(isList, s[1..], |digits|) == TakePayload(isList, payload + rest, |payload|);
    if isList {
      assert SplitItem(s) == TakeLong(true, s[1..], |digits|);
    } else {
      assert SplitItem(s) == TakeLong(false, s[1..], |digits|);
    }
  }

  lemma NoWrap(b: nat)
    requires b < 256
    ensures b % 256 == b
  {
  }

  // The lead octet never overflows for lengths that fit in 64 bits.
  lemma HeaderForm(isList: bool, n: nat)
    requires n < U64_RANGE
    ensures n <= 55 ==> Header(if isList then 192 else 128, n) == [(if isList then 192 else 128) + n]
    ensures n > 55 ==> 1 <= |Be(n)| <= 8 && FromBe(Be(n)) == n
    ensures n > 55 ==> Header(if isList then 192 else 128, n) == [(if isList then 247 else 183) + |Be(n)|] + Be(n)
  {
    var base := if isList then 192 else 128;
    if n <= 55 {
      NoWrap(base + n);
    } else {
      var k := |Be(n)|;
      U64InEightBytes(n);
      BeRoundTrip(n);
      NoWrap(base + 55 + k);
    }
  }

  lemma SplitHeader(isList: bool, payload: seq<byte>, rest: seq<byte>)
    requires |payload| < U64_RANGE
    ensures var r := SplitItem(Header(if isList then 192 else 128, |payload|) + (payload + rest));
            r.Payload? && r.isList == isList && r.payload == payload && r.rest == rest
  {
    HeaderForm(isList, |payload|);
    if |payload| <= 55 {
      SplitShort(isList, payload, rest);
    } else {
      var digits := Be(|payload|);
      Assoc([(if isList then 247 else 183) + |digits|], digits, payload + rest);
      SplitLong(isList, digits, payload, rest);
    }
  }

  lemma {:induction false} DecodesItem(x: Item, rest: seq<byte>)
    requires |Enc(x)| < U64_RANGE
    ensures var r := SplitItem(Enc(x) + rest);
            && r.Payload? && r.rest == rest && r.isList == x.List?
            && (x.Str? ==> r.payload == x.bytes)
            && (x.List? ==> r.payload == EncAll(x.items))
  {
    match x {
      case Str(bytes) =>
        if |bytes| == 1 && bytes[0] < 128 {
          Split(bytes, rest);
        } else {
          Assoc(Header(128, |bytes|), bytes, rest);
          SplitHeader(false, bytes, rest);
        }
      case List(items) =>
        Assoc(Header(192, |EncAll(items)|), EncAll(items), rest);
        SplitHeader(true, EncAll(items), rest);
    }
  }

  lemma {:induction false} DecodesAll(xs: seq<Item>)
    requires |EncAll(xs)| < U64_RANGE
    ensures DecAll(EncAll(xs)) == Good(xs)
    decreases xs, 0
  {
    if xs != [] {
      DecodesItem(xs[0], EncAll(xs[1..]));
      DecodesAll(xs[1..]);
      if xs[0].List? {
        DecodesList(xs[0]);
      }
      HeadTail(xs);
    }
  }

  lemma {:induction false} DecodesList(x: Item)
    requires x.List? && |Enc(x)| < U64_RANGE
    ensures DecAll(EncAll(x.items)) == Good(x.items)
    decreases x, 1
  {
    DecodesAll(x.items);
  }

  // Distinct items have distinct encodings.
  lemma EncInjective(x: Item, y: Item)
    requires |Enc(x)| < U64_RANGE && |Enc(y)| < U64_RANGE
    ensures Enc(x) == Enc(y) <==> x == y
  {
    EncAllOne(x);
    EncAllOne(y);
    DecodesAll([x]);
    DecodesAll([y]);
    if Enc(x) == Enc(y) {
      assert [x] == [y];
    }
  }

  // The examples of the Ethereum documentation: "dog", the list of "cat" and "dog", the empty
  // string, the empty list, the octets 0 and 15.
  lemma KnownEncodings()
    ensures Enc(Str([0x64, 0x6F, 0x67])) == [0x83, 0x64, 0x6F, 0x67]
    ensures Enc(List([Str([0x63, 0x61, 0x74]), Str([0x64, 0x6F, 0x67])]))
         == [0xC8, 0x83, 0x63, 0x61, 0x74, 0x83, 0x64, 0x6F, 0x67]
    ensures Enc(Str([])) == [0x80] && Enc(List([])) == [0xC0] && Enc(Str([0])) == [0] && Enc(Str([15])) == [15]
  {
    var cat, dog := Str([0x63, 0x61, 0x74]), Str([0x64, 0x6F, 0x67]);
    assert [cat, dog][1..] == [dog];
    EncAllOne(dog);
    assert EncAll([cat, dog]) == Enc(cat) + Enc(dog);
  }
}

/**
 Values, their BER encodings in every choice of length forms, their DER encoding, and the
 canonical value that the rewriter is meant to produce.
 */
module BerTheory {
  import opened Bytes
  import opened Seqs
  import opened BerToDer

  // ---------- values ----------

  type Tag = t: seq<byte> | t != [] witness [1]

  // A decoded value: primitive octets, or a list of values.
  datatype Tlv = Leaf(tag: Tag, content: seq<byte>) | Node(tag: Tag, kids: seq<Tlv>)

  // How the length of one value is written (ITU-T X.690, section 8.1.3): in the
  // identifier-like short form, in so many octets, or not at all.
  datatype Form = Short | Long(octets: nat) | Open

  // A value together with the encoder's choice of form at each of its nodes.
  datatype Ber = Prim(tag: Tag, content: seq<byte>, form: Form) | Cons(tag: Tag, kids: seq<Ber>, form: Form)

  function Erase(b: Ber): Tlv
    decreases b, 1
  {
    match b
    case Prim(tag, content, _) => Leaf(tag, content)
    case Cons(tag, kids, _) => Node(tag, EraseAll(kids))
  }

  function EraseAll(bs: seq<Ber>): (r: seq<Tlv>)
    ensures |r| == |bs|
    decreases bs, 0
  {
    if bs == [] then [] else [Erase(bs[0])] + EraseAll(bs[1..])
  }

  // ---------- encodings ----------

  function LengthOctets(form: Form, n: nat): seq<byte> {
    match form
    case Short => [n % 128]
    case Long(k) => [128 + k % 128] + FixedBe(n, k)
    case Open => [128]
  }

  function EndMarker(form: Form): seq<byte> {
    if form.Open? then [0, 0] else []
  }

  function EncBer(b: Ber): seq<byte>
    decreases b, 1
  {
    b.tag + (LengthOctets(b.form, |Body(b)|) + (Body(b) + EndMarker(b.form)))
  }

  function Body(b: Ber): seq<byte>
    decreases b, 0
  {
    match b
    case Prim(_, content, _) => content
    case Cons(_, kids, _) => EncBerAll(kids)
  }

  function EncBerAll(bs: seq<Ber>): seq<byte>
    decreases bs, 0
  {
    if bs == [] then [] else EncBer(bs[0]) + EncBerAll(bs[1..])
  }

  function EncDer(t: Tlv): seq<byte>
    decreases t, 1
  {
    Value(t.tag, DerBody(t))
  }

  function DerBody(t: Tlv): seq<byte>
    decreases t, 0
  {
    match t
    case Leaf(_, content) => content
    case Node(_, kids) => EncDerAll(kids)
  }

  function EncDerAll(ts: seq<Tlv>): seq<byte>
    decreases ts, 0
  {
    if ts == [] then [] else EncDer(ts[0]) + EncDerAll(ts[1..])
  }

  // ---------- well-formed values and choices ----------

  // Identifier octets: one octet, or 31 in the low bits and a continued number. The
  // identifier 0 is reserved for the end-of-contents marker.
  predicate TagShape(tag: Tag) {
    if TagNumber(tag[0]) != 31 then |tag| == 1
    else |tag| >= 2 && tag[|tag| - 1] < 128 && forall i :: 1 <= i < |tag| - 1 ==> tag[i] >= 128
  }

  predicate ValidTag(tag: Tag, constructed: bool) {
    tag[0] != 0 && Constructed(tag[0]) == constructed && TagShape(tag)
  }

  // Can a length n be written in this form?
  predicate FormFits(form: Form, n: nat) {
    match form
    case Short => n < 128
    case Long(k) => 1 <= k <= 8 && n < Pow(256, k)
    case Open => true
  }

  // A constructed OCTET STRING or BIT STRING, whose children must be segments of the same type.
  predicate StringNode(tag: Tag) { tag[0] == 0x24 || tag[0] == 0x23 }

  predicate SegmentTag(tag: Tag, number: byte) { tag[0] == number || tag[0] == number + 32 }

  // Every identifier is well-formed and every length fits its form.
  predicate WellTagged(b: Ber)
    decreases b, 1
  {
    && FormFits(b.form, |Body(b)|)
    && match b
       case Prim(tag, _, form) => ValidTag(tag, false) && !form.Open?
       case Cons(tag, kids, _) => ValidTag(tag, true) && WellTaggedAll(kids)
  }

  predicate WellTaggedAll(bs: seq<Ber>)
    decreases bs, 0
  {
    bs == [] || (WellTagged(bs[0]) && WellTaggedAll(bs[1..]))
  }

  predicate SegmentTags(bs: seq<Ber>, number: byte) {
    forall i :: 0 <= i < |bs| ==> SegmentTag(bs[i].tag, number)
  }

  // Every constructed string holds segments of its own type only.
  predicate Typed(b: Ber)
    decreases b, 1
  {
    match b
    case Prim(_, _, _) => true
    case Cons(tag, kids, _) => TypedAll(kids) && (StringNode(tag) ==> SegmentTags(kids, tag[0] - 32))
  }

  predicate TypedAll(bs: seq<Ber>)
    decreases bs, 0
  {
    bs == [] || (Typed(bs[0]) && TypedAll(bs[1..]))
  }

  predicate Valid(b: Ber) { WellTagged(b) && Typed(b) }

  predicate ValidAll(bs: seq<Ber>) { WellTaggedAll(bs) && TypedAll(bs) }

  // ---------- the canonical value ----------

  predicate OctetStringLeaf(t: Tlv) { t.Leaf? && t.tag[0] == 4 }

  predicate AllOctetStringLeaves(ts: seq<Tlv>) {
    forall i :: 0 <= i < |ts| ==> OctetStringLeaf(ts[i])
  }

  // Will the rewriter take this constructed value for a segmented string?
  predicate Flattens(tag: Tag, kids: seq<Tlv>) {
    StringNode(tag) || (Class(tag[0]) == 2 && kids != [] && AllOctetStringLeaves(kids))
  }

  function Canon(t: Tlv): Tlv
    decreases t, 1
  {
    match t
    case Leaf(_, _) => t
    case Node(tag, kids) =>
      if Flattens(tag, kids) then Leaf([ClearConstructed(tag[0])], Contents(kids))
      else Node(tag, CanonAll(kids))
  }

  function CanonAll(ts: seq<Tlv>): seq<Tlv>
    decreases ts, 0
  {
    if ts == [] then [] else [Canon(ts[0])] + CanonAll(ts[1..])
  }

  // The octets of a segmented string, segment after segment.
  function Contents(ts: seq<Tlv>): seq<byte>
    decreases ts, 0
  {
    if ts == [] then [] else ContentOf(ts[0]) + Contents(ts[1..])
  }

  function ContentOf(t: Tlv): seq<byte>
    decreases t, 1
  {
    match t
    case Leaf(_, content) => content
    case Node(_, kids) => Contents(kids)
  }

  // ---------- reading back what an encoder wrote ----------

  lemma {:induction false} TagEndOf(s: seq<byte>, i: nat, end: nat)
    requires i <= end < |s| && s[end] < 128
    requires forall j :: i <= j < end ==> s[j] >= 128
    ensures TagEnd(s, i) == end
    decreases end - i
  {
    if i < end {
      TagEndOf(s, i + 1, end);
    }
  }

  lemma ReadsTag(tag: Tag, rest: seq<byte>)
    requires TagShape(tag)
    ensures TagOf(tag + rest).Ok?
    ensures TagOf(tag + rest).value.tag == tag
    ensures TagOf(tag + rest).value.rest == rest
  {
    if TagNumber(tag[0]) == 31 {
      TagEndOf(tag + rest, 1, |tag| - 1);
    }
    Split(tag, rest);
  }

  lemma ReadsLength(form: Form, n: nat, rest: seq<byte>)
    requires FormFits(form, n)
    ensures var r := LengthOf(LengthOctets(form, n) + rest);
            r.Ok? && r.value.rest == rest && r.value.info == (if form.Open? then Indefinite else Definite(n))
  {
    Split(LengthOctets(form, n), rest);
    match form {
      case Short =>
      case Long(k) =>
        FixedBeRoundTrip(n, k);
        Split([128 + k], FixedBe(n, k) + rest);
        Split(FixedBe(n, k), rest);
        var s := LengthOctets(form, n) + rest;
        assert s[0] == 128 + k;
        assert s[1..1 + k] == FixedBe(n, k);
      case Open =>
    }
  }

  lemma StringBits(lead: byte)
    ensures Constructed(lead) && Class(lead) == 0 && TagNumber(lead) in {3, 4} <==> lead in {0x23, 0x24}
    ensures lead in {0x23, 0x24} ==> TagNumber(lead) == lead - 32
  {
  }

  lemma SegmentTagBits(tag: Tag, number: byte)
    requires number in {3, 4} && SegmentTag(tag, number)
    ensures Class(tag[0]) == 0 && TagNumber(tag[0]) == number
    ensures Constructed(tag[0]) <==> tag[0] == number + 32
    ensures tag[0] == number + 32 ==> StringNode(tag)
  {
  }

  lemma {:induction false} EraseIndex(bs: seq<Ber>, i: nat)
    requires i < |bs|
    ensures EraseAll(bs)[i] == Erase(bs[i])
  {
    if i > 0 {
      EraseIndex(bs[1..], i - 1);
    }
  }
}

/**
 What the rewriter is for: every BER encoding of a value, whatever length forms it uses,
 becomes the one DER encoding of the canonical value. BER is the grammar of BerGrammar
 without its laxities.
 */
module BerEncodings {
  import opened Bytes
  import opened Wrappers
  import opened BerToDer
  import opened BerTheory
  import opened BerGrammar

  function AsLoose(b: Ber): (v: Loose)
    ensures !v.Marker? && v.tag == b.tag && FormOf(v) == b.form && v.Compound? == b.Cons?
    decreases b, 1
  {
    match b
    case Prim(tag, content, form) => Simple(tag, content, form)
    case Cons(tag, kids, form) => Compound(tag, AsLooseAll(kids), form)
  }

  function AsLooseAll(bs: seq<Ber>): (vs: seq<Loose>)
    ensures |vs| == |bs| && NoMarker(vs)
    decreases bs, 0
  {
    if bs == [] then [] else [AsLoose(bs[0])] + AsLooseAll(bs[1..])
  }

  lemma {:induction false} LooseIndex(bs: seq<Ber>, i: nat)
    requires i < |bs|
    ensures AsLooseAll(bs)[i] == AsLoose(bs[i])
  {
    if i > 0 {
      LooseIndex(bs[1..], i - 1);
    }
  }

  // ---------- the same octets ----------

  lemma {:induction false} SameOctets(b: Ber)
    ensures EncLoose(AsLoose(b)) == EncBer(b) && Inner(AsLoose(b)) == Body(b)
    decreases b, 1
  {
    if b.Cons? {
      SameOctetsAll(b.kids);
    }
  }

  lemma {:induction false} SameOctetsAll(bs: seq<Ber>)
    ensures EncLooseAll(AsLooseAll(bs)) == EncBerAll(bs)
    decreases bs, 0
  {
    if bs != [] {
      SameOctets(bs[0]);
      SameOctetsAll(bs[1..]);
      assert AsLooseAll(bs)[1..] == AsLooseAll(bs[1..]);
    }
  }

  // ---------- read in the same way ----------

  lemma LooseSegments(bs: seq<Ber>, number: byte)
    requires SegmentTags(bs, number)
    ensures AllSegments(AsLooseAll(bs), number)
  {
    forall i | 0 <= i < |bs| ensures IsSegment(AsLooseAll(bs)[i], number) {
      LooseIndex(bs, i);
    }
  }

  lemma {:induction false} ValidReadable(b: Ber)
    requires Valid(b)
    ensures Readable(AsLoose(b))
    decreases b, 1
  {
    SameOctets(b);
    if b.Cons? {
      ValidReadableAll(b.kids);
      if StringNode(b.tag) {
        LooseSegments(b.kids, b.tag[0] - 32);
      }
    }
  }

  lemma {:induction false} ValidReadableAll(bs: seq<Ber>)
    requires ValidAll(bs)
    ensures ReadableAll(AsLooseAll(bs))
    decreases bs, 0
  {
    if bs != [] {
      ValidReadable(bs[0]);
      ValidReadableAll(bs[1..]);
      assert AsLooseAll(bs)[1..] == AsLooseAll(bs[1..]);
    }
  }

  lemma WellTaggedHeads(b: Ber)
    requires WellTagged(b)
    ensures Headed(AsLoose(b)) && Constructed(b.tag[0]) == b.Cons?
  {
    SameOctets(b);
  }

  lemma {:induction false} WellTaggedScans(bs: seq<Ber>)
    requires WellTaggedAll(bs)
    ensures Scannable(AsLooseAll(bs))
  {
    if bs != [] {
      WellTaggedHeads(bs[0]);
      WellTaggedScans(bs[1..]);
      var vs, rest := AsLooseAll(bs), AsLooseAll(bs[1..]);
      assert vs[0] == AsLoose(bs[0]) && forall i :: 0 < i < |vs| ==> vs[i] == rest[i - 1];
    }
  }

  // ---------- the same values ----------

  lemma {:induction false} SameLeaves(bs: seq<Ber>)
    ensures AllOctetStringSimple(AsLooseAll(bs)) <==> AllOctetStringLeaves(EraseAll(bs))
  {
    forall i | 0 <= i < |bs| ensures OctetStringSimple(AsLooseAll(bs)[i]) == OctetStringLeaf(EraseAll(bs)[i]) {
      LooseIndex(bs, i);
      EraseIndex(bs, i);
    }
  }

  lemma {:induction false} SameCanon(b: Ber)
    ensures CanonLoose(AsLoose(b)) == Canon(Erase(b)) && LooseContent(AsLoose(b)) == ContentOf(Erase(b))
    decreases b, 1
  {
    if b.Cons? {
      SameLeaves(b.kids);
      SameCanonAll(b.kids);
    }
  }

  lemma {:induction false} SameCanonAll(bs: seq<Ber>)
    ensures CanonLooseAll(AsLooseAll(bs)) == CanonAll(EraseAll(bs))
    ensures LooseContents(AsLooseAll(bs)) == Contents(EraseAll(bs))
    decreases bs, 0
  {
    if bs != [] {
      SameCanon(bs[0]);
      SameCanonAll(bs[1..]);
      assert AsLooseAll(bs)[1..] == AsLooseAll(bs[1..]) && EraseAll(bs)[1..] == EraseAll(bs[1..]);
    }
  }

  // ---------- what the rewriter does with an encoding ----------

  lemma RewriteEnc(b: Ber, rest: seq<byte>)
    requires Valid(b)
    ensures var r := Rewrite(EncBer(b) + rest);
            r.Ok? && r.value == Piece(|EncBer(b)|, EncDer(Canon(Erase(b))))
  {
    SameOctets(b);
    ValidReadable(b);
    SameCanon(b);
    RewriteLoose(AsLoose(b), rest);
  }

  lemma WalkEnc(bs: seq<Ber>, rest: seq<byte>)
    requires ValidAll(bs)
    ensures var r := Walk(EncBerAll(bs) + ([0, 0] + rest));
            r.Ok? && r.value == |EncBerAll(bs)| + 2
  {
    SameOctetsAll(bs);
    ValidReadableAll(bs);
    WalkLoose(AsLooseAll(bs), rest);
  }

  lemma DissectEnc(b: Ber, rest: seq<byte>)
    requires WellTagged(b) && (b.form.Open? ==> TypedAll(b.kids))
    ensures var r := Dissect(EncBer(b) + rest);
            r.Ok? && r.value == Parsed(b.tag, Body(b), |EncBer(b)|)
  {
    SameOctets(b);
    WellTaggedHeads(b);
    if b.form.Open? {
      ValidReadableAll(b.kids);
    }
    DissectLoose(AsLoose(b), rest);
  }

  function SegmentNumberOf(t: Tlv): Option<byte> {
    if t.Node? && Flattens(t.tag, t.kids) then Some(if StringNode(t.tag) then t.tag[0] - 32 else 4) else None
  }

  lemma SegmentNumberEnc(b: Ber)
    requires WellTagged(b)
    ensures SegmentNumber(b.tag[0], Body(b)) == SegmentNumberOf(Erase(b))
  {
    SameOctets(b);
    if b.Cons? {
      WellTaggedScans(b.kids);
      SameLeaves(b.kids);
    }
    NumberLoose(AsLoose(b));
  }

  lemma SegmentEnc(b: Ber, number: byte, rest: seq<byte>)
    requires Valid(b) && number in {3, 4} && SegmentTag(b.tag, number)
    ensures var r := Segment(EncBer(b) + rest, number);
            r.Ok? && r.value == Piece(|EncBer(b)|, ContentOf(Erase(b)))
  {
    SameOctets(b);
    ValidReadable(b);
    SameCanon(b);
    SegmentLoose(AsLoose(b), number, rest);
  }

  // A run of values in any BER encoding becomes the DER encoding of their canonical forms.
  lemma NormalEnc(bs: seq<Ber>)
    requires ValidAll(bs)
    ensures var r := Normal(EncBerAll(bs));
            r.Ok? && r.value == EncDerAll(CanonAll(EraseAll(bs)))
  {
    SameOctetsAll(bs);
    ValidReadableAll(bs);
    SameCanonAll(bs);
    NormalLoose(AsLooseAll(bs));
  }
}

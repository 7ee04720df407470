/**
 Exactly when the rewriter succeeds on an encoding: when every constructed OCTET STRING or
 BIT STRING holds segments of its own type. Otherwise it reports an error, and in neither
 case does it slice out of range.
 */
module BerExactness {
  import opened Bytes
  import opened Seqs
  import opened BerToDer
  import opened BerTheory
  import opened BerGrammar
  import opened BerEncodings

  lemma EncIsNoMarker(b: Ber, rest: seq<byte>)
    requires WellTagged(b)
    ensures !AtEndOfContents(EncBer(b) + rest) && EncBer(b) != []
  {
    assert (EncBer(b) + rest)[0] == b.tag[0];
  }

  // The head of an encoding, and where its contents start.
  lemma EncHead(b: Ber, rest: seq<byte>)
    requires WellTagged(b)
    ensures var s := EncBer(b) + rest;
            && TagOf(s).Ok? && TagOf(s).value.tag == b.tag && LengthOf(TagOf(s).value.rest).Ok?
            && var LengthSplit(info, after) := LengthOf(TagOf(s).value.rest).value;
               && info == (if b.form.Open? then Indefinite else Definite(|Body(b)|))
               && after == Body(b) + (EndMarker(b.form) + rest)
               && after[..|Body(b)|] == Body(b)
  {
    SameOctets(b);
    WellTaggedHeads(b);
    ReadsHead(AsLoose(b), rest);
  }

  lemma {:induction false} WalkFails(bs: seq<Ber>, rest: seq<byte>)
    requires WellTaggedAll(bs) && !TypedAll(bs)
    ensures Walk(EncBerAll(bs) + ([0, 0] + rest)).Err?
    decreases bs, 0
  {
    var more := EncBerAll(bs[1..]) + ([0, 0] + rest);
    Assoc(EncBer(bs[0]), EncBerAll(bs[1..]), [0, 0] + rest);
    EncIsNoMarker(bs[0], more);
    if Typed(bs[0]) {
      RewriteEnc(bs[0], more);
      WalkFails(bs[1..], rest);
      Split(EncBer(bs[0]), more);
    } else {
      RewriteFails(bs[0], more);
    }
  }

  lemma {:induction false} RewriteFails(b: Ber, rest: seq<byte>)
    requires WellTagged(b) && !Typed(b)
    ensures Rewrite(EncBer(b) + rest).Err?
    decreases b, 3
  {
    EncIsNoMarker(b, rest);
    if b.form.Open? && !TypedAll(b.kids) {
      OpenFails(b, rest);
    } else {
      DissectEnc(b, rest);
      PartsFail(b);
    }
  }

  lemma {:induction false} OpenFails(b: Ber, rest: seq<byte>)
    requires WellTagged(b) && b.form.Open? && !TypedAll(b.kids)
    ensures Dissect(EncBer(b) + rest).Err?
    decreases b, 2
  {
    EncHead(b, rest);
    WalkFails(b.kids, rest);
  }

  lemma {:induction false} LeavesTyped(bs: seq<Ber>)
    requires AllOctetStringLeaves(EraseAll(bs))
    ensures TypedAll(bs)
  {
    if bs != [] {
      var ts := EraseAll(bs);
      assert ts[0] == Erase(bs[0]) && OctetStringLeaf(ts[0]);
      assert ts[1..] == EraseAll(bs[1..]);
      forall i | 0 <= i < |ts| - 1 ensures OctetStringLeaf(ts[1..][i]) {
        assert ts[1..][i] == ts[i + 1];
      }
      LeavesTyped(bs[1..]);
    }
  }

  lemma {:induction false} PartsFail(b: Ber)
    requires WellTagged(b) && !Typed(b)
    ensures DerParts(b.tag, Body(b)).Err?
    decreases b, 2
  {
    SegmentNumberEnc(b);
    if StringNode(b.tag) {
      FlattenFails(b.kids, b.tag[0] - 32);
    } else {
      if Flattens(b.tag, EraseAll(b.kids)) {
        LeavesTyped(b.kids);
      }
      NormalFails(b.kids);
    }
  }

  lemma ForeignTag(tag: Tag, constructed: bool, number: byte)
    requires ValidTag(tag, constructed) && number in {3, 4} && !SegmentTag(tag, number)
    ensures Class(tag[0]) != 0 || TagNumber(tag[0]) != number
  {
  }

  lemma {:induction false} SegmentFails(b: Ber, number: byte, rest: seq<byte>)
    requires WellTagged(b) && number in {3, 4} && !(SegmentTag(b.tag, number) && Typed(b))
    ensures Segment(EncBer(b) + rest, number).Err?
    decreases b, 2
  {
    EncHead(b, rest);
    if !SegmentTag(b.tag, number) {
      ForeignTag(b.tag, b.Cons?, number);
    } else {
      SegmentTagBits(b.tag, number);
      if b.form.Open? && !TypedAll(b.kids) {
        WalkFails(b.kids, rest);
      } else {
        if b.form.Open? {
          WalkEnc(b.kids, rest);
        }
        FlattenFails(b.kids, number);
      }
    }
  }

  lemma OthersTagged(bs: seq<Ber>, number: byte)
    requires bs != [] && SegmentTag(bs[0].tag, number)
    ensures SegmentTags(bs[1..], number) ==> SegmentTags(bs, number)
  {
    if SegmentTags(bs[1..], number) {
      forall i | 0 <= i < |bs| ensures SegmentTag(bs[i].tag, number) {
        if i > 0 {
          assert bs[1..][i - 1] == bs[i];
        }
      }
    }
  }

  lemma FirstSegmentFails(s: seq<byte>, number: byte)
    requires s != [] && Segment(s, number).Err?
    ensures Flatten(s, number).Err?
  {
  }

  lemma LaterSegmentFails(s: seq<byte>, number: byte)
    requires s != [] && Segment(s, number).Ok? && Flatten(s[Segment(s, number).value.octets..], number).Err?
    ensures Flatten(s, number).Err?
  {
  }

  lemma {:induction false} FlattenFails(bs: seq<Ber>, number: byte)
    requires WellTaggedAll(bs) && number in {3, 4} && !(TypedAll(bs) && SegmentTags(bs, number))
    ensures Flatten(EncBerAll(bs), number).Err?
    decreases bs, 0
  {
    var b, more := bs[0], EncBerAll(bs[1..]);
    EncIsNoMarker(b, more);
    if SegmentTag(b.tag, number) && Typed(b) {
      SegmentEnc(b, number, more);
      Split(EncBer(b), more);
      OthersTagged(bs, number);
      FlattenFails(bs[1..], number);
      LaterSegmentFails(EncBer(b) + more, number);
    } else {
      SegmentFails(b, number, more);
      FirstSegmentFails(EncBer(b) + more, number);
    }
  }

  lemma {:induction false} NormalFails(bs: seq<Ber>)
    requires WellTaggedAll(bs) && !TypedAll(bs)
    ensures Normal(EncBerAll(bs)).Err?
    decreases bs, 0
  {
    EncIsNoMarker(bs[0], EncBerAll(bs[1..]));
    if Typed(bs[0]) {
      RewriteEnc(bs[0], EncBerAll(bs[1..]));
      NormalFails(bs[1..]);
      Split(EncBer(bs[0]), EncBerAll(bs[1..]));
    } else {
      RewriteFails(bs[0], EncBerAll(bs[1..]));
    }
  }

  // Every encoding of a forest is rewritten to the DER encoding of the canonical forest if its
  // strings hold their own segments only, and is refused if they do not.
  lemma NormalExactly(bs: seq<Ber>)
    requires WellTaggedAll(bs)
    ensures var r := Normal(EncBerAll(bs));
            if TypedAll(bs) then r.Ok? && r.value == EncDerAll(CanonAll(EraseAll(bs))) else r.Err?
  {
    if TypedAll(bs) {
      NormalEnc(bs);
    } else {
      NormalFails(bs);
    }
  }

  // ---------- the choices an encoder makes leave no trace ----------

  // Typing is a matter of the value, not of its encoding.
  lemma {:induction false} TypedByValue(b: Ber, c: Ber)
    requires Erase(b) == Erase(c)
    ensures Typed(b) == Typed(c) && b.tag == c.tag
    decreases b, 1
  {
    if b.Cons? {
      TypedAllByValue(b.kids, c.kids);
    }
  }

  lemma {:induction false} TypedAllByValue(bs: seq<Ber>, cs: seq<Ber>)
    requires EraseAll(bs) == EraseAll(cs)
    ensures TypedAll(bs) == TypedAll(cs) && |bs| == |cs| && forall i :: 0 <= i < |bs| ==> bs[i].tag == cs[i].tag
    decreases bs, 0
  {
    if bs != [] {
      var ts := EraseAll(bs);
      assert ts[0] == Erase(bs[0]) == Erase(cs[0]);
      assert ts[1..] == EraseAll(bs[1..]) == EraseAll(cs[1..]);
      TypedByValue(bs[0], cs[0]);
      TypedAllByValue(bs[1..], cs[1..]);
      forall i | 0 <= i < |bs| ensures bs[i].tag == cs[i].tag {
        if i > 0 {
          assert bs[1..][i - 1] == bs[i] && cs[1..][i - 1] == cs[i];
        }
      }
    }
  }

  // Two encodings of one forest give the same octets, or are both refused.
  lemma EncodingChoicesErased(bs: seq<Ber>, cs: seq<Ber>)
    requires WellTaggedAll(bs) && WellTaggedAll(cs) && EraseAll(bs) == EraseAll(cs)
    ensures Normal(EncBerAll(bs)) == Normal(EncBerAll(cs))
  {
    NormalExactly(bs);
    NormalExactly(cs);
    TypedAllByValue(bs, cs);
  }
}

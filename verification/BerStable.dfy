/**
 The octets that the rewriter leaves alone, among all inputs: exactly the encodings, in the
 shortest lengths, of forests in which nothing looks like a segmented string or an end marker.
 */
module BerStable {
  import opened Bytes
  import opened Seqs
  import opened Wrappers
  import opened BerToDer
  import opened BerTheory
  import opened BerFixedPoint
  import opened BerGrammar

  // A value with well-formed identifiers, 0 among them unless the value would be an end marker.
  predicate Plain(t: Tlv)
    decreases t, 1
  {
    && TagShape(t.tag)
    && match t
       case Leaf(tag, content) => !Constructed(tag[0]) && (tag[0] == 0 ==> content != [])
       case Node(tag, kids) => Constructed(tag[0]) && PlainAll(kids)
  }

  predicate PlainAll(ts: seq<Tlv>)
    decreases ts, 0
  {
    ts == [] || (Plain(ts[0]) && PlainAll(ts[1..]))
  }

  // Nothing in the value looks like a segmented string.
  predicate Settled(t: Tlv)
    decreases t, 1
  {
    t.Node? ==> !Flattens(t.tag, t.kids) && SettledAll(t.kids)
  }

  predicate SettledAll(ts: seq<Tlv>)
    decreases ts, 0
  {
    ts == [] || (Settled(ts[0]) && SettledAll(ts[1..]))
  }

  // ---------- the raw test for segmented strings, on DER ----------

  lemma DerOpens(t: Tlv, rest: seq<byte>)
    ensures EncDer(t) + rest == t.tag + (DerLength(|DerBody(t)|) + (DerBody(t) + rest))
  {
    var l, c := DerLength(|DerBody(t)|), DerBody(t);
    Assoc(t.tag + l, c, rest);
    Assoc(t.tag, l, c + rest);
  }

  lemma OctetStringDer(t: Tlv, rest: seq<byte>)
    requires Plain(t) && |DerBody(t)| < U64_RANGE
    ensures OctetStringSpan(EncDer(t) + rest) == if OctetStringLeaf(t) then Some(|EncDer(t)|) else None
  {
    DerOpens(t, rest);
    ReadsTag(t.tag, DerLength(|DerBody(t)|) + (DerBody(t) + rest));
    DerLengthRoundTrip(|DerBody(t)|, DerBody(t) + rest);
  }

  lemma {:induction false} OctetStringsDer(ts: seq<Tlv>)
    requires PlainAll(ts) && |EncDerAll(ts)| < U64_RANGE
    ensures OnlyOctetStrings(EncDerAll(ts)) <==> AllOctetStringLeaves(ts)
    ensures EncDerAll(ts) == [] <==> ts == []
  {
    if ts != [] {
      OctetStringsDer(ts[1..]);
      OctetStringDer(ts[0], EncDerAll(ts[1..]));
      Split(EncDer(ts[0]), EncDerAll(ts[1..]));
      if AllOctetStringLeaves(ts) {
        assert OctetStringLeaf(ts[0]);
        assert forall i :: 0 <= i < |ts| - 1 ==> ts[1..][i] == ts[i + 1];
      } else if OctetStringLeaf(ts[0]) {
        var i :| 0 <= i < |ts| && !OctetStringLeaf(ts[i]);
        assert ts[1..][i - 1] == ts[i];
      }
    }
  }

  // A constructed value is kept by the rewriter exactly if it is not taken for a segmented string.
  lemma KeptDer(tag: Tag, kids: seq<Tlv>)
    requires Constructed(tag[0]) && TagShape(tag) && PlainAll(kids) && |EncDerAll(kids)| < U64_RANGE
    ensures SegmentNumber(tag[0], EncDerAll(kids)).None? <==> !Flattens(tag, kids)
  {
    StringBits(tag[0]);
    OctetStringsDer(kids);
  }

  // ---------- settled DER is left alone ----------

  lemma DissectDer(t: Tlv, rest: seq<byte>)
    requires TagShape(t.tag) && |DerBody(t)| < U64_RANGE
    ensures var r := Dissect(EncDer(t) + rest);
            r.Ok? && r.value == Parsed(t.tag, DerBody(t), |EncDer(t)|)
  {
    DerOpens(t, rest);
    ReadsTag(t.tag, DerLength(|DerBody(t)|) + (DerBody(t) + rest));
    DerLengthRoundTrip(|DerBody(t)|, DerBody(t) + rest);
    Split(DerBody(t), rest);
  }

  lemma DerIsNoMarker(t: Tlv, rest: seq<byte>)
    requires Plain(t)
    ensures !AtEndOfContents(EncDer(t) + rest)
  {
    DerOpens(t, rest);
    StartsOtherwise(t.tag, DerLength(|DerBody(t)|), DerBody(t) + rest);
  }

  lemma {:induction false} RewriteSettled(t: Tlv, rest: seq<byte>)
    requires Plain(t) && Settled(t) && |EncDer(t)| < U64_RANGE
    ensures var r := Rewrite(EncDer(t) + rest);
            r.Ok? && r.value == Piece(|EncDer(t)|, EncDer(t))
    decreases t, 1
  {
    DerIsNoMarker(t, rest);
    DissectDer(t, rest);
    PartsSettled(t);
  }

  lemma {:induction false} PartsSettled(t: Tlv)
    requires Plain(t) && Settled(t) && |EncDer(t)| < U64_RANGE
    ensures var r := DerParts(t.tag, DerBody(t));
            r.Ok? && r.value == Parts(t.tag, DerBody(t))
    decreases t, 0
  {
    match t {
      case Leaf(tag, content) => assert SegmentNumber(tag[0], content).None?;
      case Node(tag, kids) =>
        KeptDer(tag, kids);
        NormalSettled(kids);
    }
  }

  lemma {:induction false} NormalSettled(ts: seq<Tlv>)
    requires PlainAll(ts) && SettledAll(ts) && |EncDerAll(ts)| < U64_RANGE
    ensures var r := Normal(EncDerAll(ts));
            r.Ok? && r.value == EncDerAll(ts)
    decreases ts, 0
  {
    if ts != [] {
      RewriteSettled(ts[0], EncDerAll(ts[1..]));
      NormalSettled(ts[1..]);
      Split(EncDer(ts[0]), EncDerAll(ts[1..]));
    }
  }

  // ---------- an end marker is never left alone ----------

  // Any number of pairs of zero octets.
  predicate Pairs(z: seq<byte>)
    decreases |z|
  {
    z == [] || (AtEndOfContents(z) && Pairs(z[2..]))
  }

  // Octets that are read as identifier 0 with nothing in it, but are no end marker.
  predicate LongZero(r: seq<byte>) {
    r != [] && r[0] == 0 && LengthOf(r[1..]).Ok? && !AtEndOfContents(r)
    && (LengthOf(r[1..]).value.info.Indefinite? || LengthOf(r[1..]).value.info == Definite(0))
  }

  lemma ValueReads(tag: Tag, content: seq<byte>, x: seq<byte>, w: seq<byte>)
    requires |content| < U64_RANGE && Value(tag, content) + x == tag + w
    ensures LengthOf(w).Ok? && LengthOf(w).value == LengthSplit(Definite(|content|), content + x)
  {
    var l := DerLength(|content|);
    Assoc(tag + l, content, x);
    Assoc(tag, l, content + x);
    Split(tag, l + (content + x));
    Split(tag, w);
    DerLengthRoundTrip(|content|, content + x);
  }

  // What the first value of an accepted input adds to the output.
  lemma FirstOutput(y: seq<byte>) returns (tag: Tag, content: seq<byte>)
    requires Normal(y).Ok? && y != [] && !AtEndOfContents(y) && |Normal(y).value| < U64_RANGE
    ensures Rewrite(y).Ok? && Normal(y[Rewrite(y).value.octets..]).Ok?
    ensures TagShape(tag) || |tag| == 1
    ensures |content| < U64_RANGE && Rewrite(y).value.out == Value(tag, content)
    ensures Dissect(y).Ok? && DerParts(Dissect(y).value.tag, Dissect(y).value.content).Ok?
    ensures DerParts(Dissect(y).value.tag, Dissect(y).value.content).value == Parts(tag, content)
    ensures Normal(y).value == Value(tag, content) + Normal(y[Rewrite(y).value.octets..]).value
  {
    RewriteStep(y);
    var TagSplit(t, afterTag) := TagOf(y).value;
    TagFound(y);
    var LengthSplit(info, after) := LengthOf(afterTag).value;
    var length := Extent(info, after).value.length;
    var parts := DerParts(t, after[..length]).value;
    tag, content := parts.tag, parts.content;
  }

  lemma TwoZeros(tag: Tag, content: seq<byte>, x: seq<byte>)
    requires (TagShape(tag) || |tag| == 1) && |content| < U64_RANGE
    requires AtEndOfContents(Value(tag, content) + x)
    ensures tag == [0] && content == []
  {
    var s := Value(tag, content) + x;
    assert s[0] == tag[0] == 0;
    assert |tag| == 1;
    assert s[1] == DerLength(|content|)[0];
  }

  // No output consists of pairs of zeros followed by such a long zero.
  lemma {:induction false} NeverLongZero(y: seq<byte>, z: seq<byte>, r: seq<byte>)
    requires Normal(y).Ok? && |Normal(y).value| < U64_RANGE
    requires Pairs(z) && LongZero(r)
    ensures Normal(y).value != z + r
    decreases |y|
  {
    if y != [] && Normal(y).value == z + r {
      if AtEndOfContents(y) {
        MarkerSkipped(y);
        NeverLongZero(y[2..], z, r);
      } else {
        var tag, content := FirstOutput(y);
        var rest := y[Rewrite(y).value.octets..];
        var x := Normal(rest).value;
        if z == [] {
          assert z + r == r;
          LongZeroIsNoValue(tag, content, x, r);
        } else {
          assert AtEndOfContents(z + r);
          TwoZeros(tag, content, x);
          assert x == z[2..] + r by { Drop2(Value(tag, content), x, z, r); }
          NeverLongZero(rest, z[2..], r);
        }
      }
    }
  }

  lemma Drop2(a: seq<byte>, x: seq<byte>, z: seq<byte>, r: seq<byte>)
    requires |a| == 2 <= |z| && a + x == z + r
    ensures x == z[2..] + r
  {
    assert x == (a + x)[2..] == (z + r)[2..];
  }

  lemma LongZeroIsNoValue(tag: Tag, content: seq<byte>, x: seq<byte>, r: seq<byte>)
    requires (TagShape(tag) || |tag| == 1) && |content| < U64_RANGE && LongZero(r)
    ensures Value(tag, content) + x != r
  {
    if Value(tag, content) + x == r {
      assert r[0] == tag[0];
      assert |tag| == 1 && tag == [0];
      assert r == tag + r[1..];
      ValueReads(tag, content, x, r[1..]);
    }
  }

  lemma MarkerSkipped(s: seq<byte>)
    requires AtEndOfContents(s)
    ensures Normal(s).Ok? ==> Normal(s[2..]).Ok? && Normal(s).value == Normal(s[2..]).value
  {
    if Normal(s).Ok? {
      assert Rewrite(s).value.octets == 2 && Normal(s[2..]).Ok?;
      assert [] + Normal(s[2..]).value == Normal(s[2..]).value;
    }
  }

  lemma {:induction false} StripPairs(s: seq<byte>) returns (z: seq<byte>, r: seq<byte>)
    ensures s == z + r && Pairs(z) && !AtEndOfContents(r)
    ensures AtEndOfContents(s) ==> z != []
    ensures Normal(s).Ok? ==> Normal(r).Ok? && Normal(r).value == Normal(s).value
    decreases |s|
  {
    if AtEndOfContents(s) {
      z, r := StripPairs(s[2..]);
      MarkerSkipped(s);
      var front: seq<byte> := [0, 0];
      assert s == front + s[2..];
      Assoc(front, z, r);
      assert (front + z)[2..] == z;
      z := front + z;
    } else {
      z, r := [], s;
    }
  }

  lemma MarkerMoves(s: seq<byte>)
    requires AtEndOfContents(s) && Normal(s).Ok? && |s| < U64_RANGE
    ensures Normal(s).value != s
  {
    var z, r := StripPairs(s);
    if Normal(s).value == s {
      if r != [] {
        var tag, content := FirstOutput(r);
        var x := Normal(r[Rewrite(r).value.octets..]).value;
        assert AtEndOfContents(Value(tag, content) + x);
        TwoZeros(tag, content, x);
        ZeroOutput(r);
        NeverLongZero(r, z, r);
      }
    }
  }

  // A value that is written as identifier 0 with nothing in it was read as that.
  lemma ZeroOutput(r: seq<byte>)
    requires r != [] && !AtEndOfContents(r) && Rewrite(r).Ok? && Rewrite(r).value.out == Value([0], [])
    ensures LongZero(r)
  {
    RewriteStep(r);
    var TagSplit(tag, afterTag) := TagOf(r).value;
    var LengthSplit(info, after) := LengthOf(afterTag).value;
    var content := after[..Extent(info, after).value.length];
    var parts := DerParts(tag, content).value;
    StringBits(tag[0]);
    assert Rewrite(r).value.out[0] == parts.tag[0] == 0;
    assert !Constructed(tag[0]) && parts == Parts(tag, content);
    assert Value(tag, content) == Value([0], []);
    assert |tag| == 1 && afterTag == r[1..];
    ValueReads([0], content, [], [0]);
  }

  // ---------- whatever is left alone is settled DER ----------

  lemma {:induction false} FixedIsSettled(s: seq<byte>) returns (ts: seq<Tlv>)
    requires Normal(s).Ok? && Normal(s).value == s && |s| < U64_RANGE
    ensures PlainAll(ts) && SettledAll(ts) && EncDerAll(ts) == s
    decreases |s|, 1
  {
    if s == [] {
      ts := [];
    } else {
      if AtEndOfContents(s) {
        MarkerMoves(s);
      }
      var t := FirstIsSettled(s);
      var n := Rewrite(s).value.octets;
      var more := FixedIsSettled(s[n..]);
      ts := [t] + more;
      assert ts[1..] == more;
    }
  }

  // The first value of what is left alone keeps its identifier, so it was not flattened.
  lemma FixedLead(s: seq<byte>) returns (content: seq<byte>, outContent: seq<byte>, x: seq<byte>)
    requires s != [] && !AtEndOfContents(s) && Normal(s).Ok? && Normal(s).value == s && |s| < U64_RANGE
    ensures Rewrite(s).Ok? && TagOf(s).Ok? && Dissect(s).Ok? && |outContent| < U64_RANGE
    ensures Normal(s[Rewrite(s).value.octets..]).Ok? && x == Normal(s[Rewrite(s).value.octets..]).value
    ensures var tag := TagOf(s).value.tag;
            && Dissect(s).value.tag == tag && Dissect(s).value.content == content
            && TagShape(tag) && SegmentNumber(tag[0], content).None? && Value(tag, outContent) + x == s
            && DerParts(tag, content).Ok? && DerParts(tag, content).value == Parts(tag, outContent)
  {
    var outTag: Tag;
    outTag, outContent := FirstOutput(s);
    x := Normal(s[Rewrite(s).value.octets..]).value;
    content := Dissect(s).value.content;
    TagFound(s);
    var tag := TagOf(s).value.tag;
    assert (Value(outTag, outContent) + x)[0] == outTag[0] == s[0] == tag[0];
    assert outTag[..1] == tag[..1];
    KeptLead(tag, content);
  }

  // And its length, so it was written in the shortest form.
  lemma FixedLength(s: seq<byte>, outContent: seq<byte>, x: seq<byte>)
    requires TagOf(s).Ok? && Dissect(s).Ok? && |outContent| < U64_RANGE && Value(TagOf(s).value.tag, outContent) + x == s
    ensures Dissect(s).value.content == outContent && s[Dissect(s).value.octets..] == x
  {
    var TagSplit(tag, afterTag) := TagOf(s).value;
    TagFound(s);
    ValueReads(tag, outContent, x, afterTag);
    DissectDefinite(s, |outContent|);
    Split(outContent, x);
    Assoc(tag, DerLength(|outContent|), outContent);
    Split(Value(tag, outContent), x);
  }

  // A value with a length, taken apart.
  lemma DissectDefinite(s: seq<byte>, n: nat)
    requires TagOf(s).Ok? && LengthOf(TagOf(s).value.rest).Ok? && Dissect(s).Ok?
    requires LengthOf(TagOf(s).value.rest).value.info == Definite(n)
    ensures var after := LengthOf(TagOf(s).value.rest).value.rest;
            n <= |after| && Dissect(s).value.content == after[..n] && Dissect(s).value.octets == |s| - |after| + n
  {
  }

  // The first value of what is left alone, and what follows it, left alone in turn.
  lemma FixedFirst(s: seq<byte>) returns (tag: Tag, content: seq<byte>)
    requires s != [] && !AtEndOfContents(s) && Normal(s).Ok? && Normal(s).value == s && |s| < U64_RANGE
    ensures Rewrite(s).Ok? && |content| < |s|
    ensures var rest := s[Rewrite(s).value.octets..];
            Value(tag, content) + rest == s && Normal(rest).Ok? && Normal(rest).value == rest
    ensures TagShape(tag) && SegmentNumber(tag[0], content).None?
    ensures Constructed(tag[0]) ==> Normal(content).Ok? && Normal(content).value == content
  {
    var outContent, x;
    content, outContent, x := FixedLead(s);
    FixedLength(s, outContent, x);
    tag := TagOf(s).value.tag;
  }

  // A value whose first octet is unchanged was not flattened.
  lemma KeptLead(tag: Tag, content: seq<byte>)
    requires DerParts(tag, content).Ok? && DerParts(tag, content).value.tag[..1] == tag[..1]
    ensures SegmentNumber(tag[0], content).None? && DerParts(tag, content).value.tag == tag
  {
    var lead := DerParts(tag, content).value.tag;
    assert lead != [] && lead[0] == lead[..1][0] == tag[..1][0] == tag[0];
  }

  lemma {:induction false} FirstIsSettled(s: seq<byte>) returns (t: Tlv)
    requires s != [] && !AtEndOfContents(s) && Normal(s).Ok? && Normal(s).value == s && |s| < U64_RANGE
    ensures Rewrite(s).Ok? && Plain(t) && Settled(t) && EncDer(t) + s[Rewrite(s).value.octets..] == s
    ensures Normal(s[Rewrite(s).value.octets..]).Ok?
    ensures Normal(s[Rewrite(s).value.octets..]).value == s[Rewrite(s).value.octets..]
    decreases |s|, 0
  {
    var tag, content := FixedFirst(s);
    if Constructed(tag[0]) {
      var kids := FixedIsSettled(content);
      t := Node(tag, kids);
      KeptDer(tag, kids);
    } else {
      t := Leaf(tag, content);
    }
  }

  // The fixed points of the rewriter, among all octets.
  lemma FixedExactly(s: seq<byte>)
    requires |s| < U64_RANGE
    ensures (Normal(s).Ok? && Normal(s).value == s) <==> exists ts :: PlainAll(ts) && SettledAll(ts) && EncDerAll(ts) == s
  {
    if Normal(s).Ok? && Normal(s).value == s {
      var ts := FixedIsSettled(s);
    }
    if ts :| PlainAll(ts) && SettledAll(ts) && EncDerAll(ts) == s {
      NormalSettled(ts);
    }
  }

  // ---------- and they are read in one way only ----------

  // A value with well-formed identifiers.
  predicate Shaped(t: Tlv)
    decreases t, 1
  {
    TagShape(t.tag) && Constructed(t.tag[0]) == t.Node? && (t.Node? ==> ShapedAll(t.kids))
  }

  predicate ShapedAll(ts: seq<Tlv>)
    decreases ts, 0
  {
    ts == [] || (Shaped(ts[0]) && ShapedAll(ts[1..]))
  }

  lemma {:induction false} PlainShaped(t: Tlv)
    requires Plain(t)
    ensures Shaped(t)
    decreases t, 1
  {
    if t.Node? {
      PlainAllShaped(t.kids);
    }
  }

  lemma {:induction false} PlainAllShaped(ts: seq<Tlv>)
    requires PlainAll(ts)
    ensures ShapedAll(ts)
    decreases ts, 0
  {
    if ts != [] {
      PlainShaped(ts[0]);
      PlainAllShaped(ts[1..]);
    }
  }

  lemma {:induction false} SameValue(t: Tlv, u: Tlv, x: seq<byte>, y: seq<byte>)
    requires Shaped(t) && Shaped(u) && |EncDer(t)| < U64_RANGE && |EncDer(u)| < U64_RANGE
    requires EncDer(t) + x == EncDer(u) + y
    ensures t == u
    decreases t, 1
  {
    DerOpens(t, x);
    DerOpens(u, y);
    ReadsTag(t.tag, DerLength(|DerBody(t)|) + (DerBody(t) + x));
    ReadsTag(u.tag, DerLength(|DerBody(u)|) + (DerBody(u) + y));
    SameContents(t.tag, DerBody(t), DerBody(u), x, y);
    if t.Node? {
      SameForest(t.kids, u.kids);
    }
  }

  // Two forests have one DER encoding only if they are equal.
  lemma {:induction false} SameForest(ts: seq<Tlv>, us: seq<Tlv>)
    requires ShapedAll(ts) && ShapedAll(us) && |EncDerAll(ts)| < U64_RANGE
    requires EncDerAll(ts) == EncDerAll(us)
    ensures ts == us
    decreases ts, 0
  {
    if ts != [] && us != [] {
      var x, y := EncDerAll(ts[1..]), EncDerAll(us[1..]);
      SameValue(ts[0], us[0], x, y);
      Split(EncDer(ts[0]), x);
      Split(EncDer(us[0]), y);
      SameForest(ts[1..], us[1..]);
      HeadTail(ts);
      HeadTail(us);
    }
  }

  // So the DER of a forest is left alone exactly if nothing in it looks like a segmented string,
  // nor like an end marker.
  lemma FixedForest(ts: seq<Tlv>)
    requires ShapedAll(ts) && |EncDerAll(ts)| < U64_RANGE
    ensures (Normal(EncDerAll(ts)).Ok? && Normal(EncDerAll(ts)).value == EncDerAll(ts)) <==> PlainAll(ts) && SettledAll(ts)
  {
    var s := EncDerAll(ts);
    FixedExactly(s);
    if us :| PlainAll(us) && SettledAll(us) && EncDerAll(us) == s {
      PlainAllShaped(us);
      SameForest(ts, us);
    }
  }

  // A tag number below 31 in the long form, and one with a leading zero digit, are accepted and
  // kept, though section 8.1.2 of ITU-T X.690 allows neither.
  lemma PaddedTagsStay()
    ensures Normal([0x1F, 0x01, 0x00]).Ok? && Normal([0x1F, 0x01, 0x00]).value == [0x1F, 0x01, 0x00]
    ensures Normal([0x1F, 0x80, 0x01, 0x00]).Ok? && Normal([0x1F, 0x80, 0x01, 0x00]).value == [0x1F, 0x80, 0x01, 0x00]
  {
    assert TagNumber(0x1F) == 31 && !Constructed(0x1F);
    EmptyStays([0x1F, 0x01]);
    EmptyStays([0x1F, 0x80, 0x01]);
    assert [0x1F, 0x01] + [0x00] == [0x1F, 0x01, 0x00];
    assert [0x1F, 0x80, 0x01] + [0x00] == [0x1F, 0x80, 0x01, 0x00];
  }

  lemma EmptyStays(tag: Tag)
    requires TagShape(tag) && !Constructed(tag[0]) && tag[0] != 0 && |tag| < 8
    ensures Normal(tag + [0]).Ok? && Normal(tag + [0]).value == tag + [0]
  {
    var t := Leaf(tag, []);
    assert [t][1..] == [];
    assert EncDer(t) == tag + [0];
    assert EncDerAll([t]) == EncDer(t) + [] == tag + [0];
    assert Plain(t) && Settled(t);
    assert PlainAll([t]) && SettledAll([t]);
    NormalSettled([t]);
  }
}

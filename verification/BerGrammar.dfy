/**
 Exactly which octets the rewriter accepts, and what it writes for them: the encodings of
 forests, in the forms of BER and in four more that the code lets through. An end marker may
 stand where a value is expected, an identifier may be 0, a primitive value may have the
 indefinite length, and a tag number may be written in more octets than it needs.
 */
module BerGrammar {
  import opened Bytes
  import opened Seqs
  import opened Wrappers
  import opened BerToDer
  import opened BerTheory

  datatype Loose =
    | Marker
    | Simple(tag: Tag, content: seq<byte>, form: Form)
    | SimpleOpen(tag: Tag, kids: seq<Loose>)
    | Compound(tag: Tag, kids: seq<Loose>, form: Form)

  function FormOf(v: Loose): Form
    requires !v.Marker?
  {
    if v.SimpleOpen? then Open else v.form
  }

  function Inner(v: Loose): seq<byte>
    requires !v.Marker?
    decreases v, 0
  {
    if v.Simple? then v.content else EncLooseAll(v.kids)
  }

  function EncLoose(v: Loose): seq<byte>
    decreases v, 1
  {
    if v.Marker? then [0, 0]
    else v.tag + (LengthOctets(FormOf(v), |Inner(v)|) + (Inner(v) + EndMarker(FormOf(v))))
  }

  function EncLooseAll(vs: seq<Loose>): seq<byte>
    decreases vs, 0
  {
    if vs == [] then [] else EncLoose(vs[0]) + EncLooseAll(vs[1..])
  }

  predicate NoMarker(vs: seq<Loose>) {
    forall i :: 0 <= i < |vs| ==> !vs[i].Marker?
  }

  predicate IsSegment(v: Loose, number: byte) { !v.Marker? && SegmentTag(v.tag, number) }

  predicate AllSegments(vs: seq<Loose>, number: byte) {
    forall i :: 0 <= i < |vs| ==> IsSegment(vs[i], number)
  }

  // Could the value be an end marker? Only as identifier 0 with length 0.
  predicate LooksLikeMarker(v: Loose) {
    v.Simple? && v.tag[0] == 0 && v.form.Short? && v.content == []
  }

  predicate Readable(v: Loose)
    decreases v, 1
  {
    v.Marker? ||
    (TagShape(v.tag) && FormFits(FormOf(v), |Inner(v)|) && Constructed(v.tag[0]) == v.Compound?
     && !LooksLikeMarker(v)
     && match v
        case Simple(_, _, form) => !form.Open?
        case SimpleOpen(_, kids) => ReadableAll(kids) && NoMarker(kids)
        case Compound(tag, kids, form) =>
          ReadableAll(kids) && (form.Open? ==> NoMarker(kids))
          && (StringNode(tag) ==> AllSegments(kids, tag[0] - 32)))
  }

  predicate ReadableAll(vs: seq<Loose>)
    decreases vs, 0
  {
    vs == [] || (Readable(vs[0]) && ReadableAll(vs[1..]))
  }

  // ---------- what is written for them ----------

  predicate OctetStringSimple(v: Loose) { v.Simple? && v.tag[0] == 4 }

  predicate AllOctetStringSimple(vs: seq<Loose>) {
    forall i :: 0 <= i < |vs| ==> OctetStringSimple(vs[i])
  }

  // Will the rewriter take this constructed value for a segmented string?
  predicate LooseFlattens(tag: Tag, kids: seq<Loose>) {
    StringNode(tag) || (Class(tag[0]) == 2 && kids != [] && AllOctetStringSimple(kids))
  }

  function CanonLoose(v: Loose): Tlv
    requires !v.Marker?
    decreases v, 1
  {
    match v
    case Simple(tag, content, _) => Leaf(tag, content)
    case SimpleOpen(tag, kids) => Leaf(tag, EncLooseAll(kids))
    case Compound(tag, kids, _) =>
      if LooseFlattens(tag, kids) then Leaf([ClearConstructed(tag[0])], LooseContents(kids))
      else Node(tag, CanonLooseAll(kids))
  }

  // End markers leave no trace.
  function CanonLooseAll(vs: seq<Loose>): seq<Tlv>
    decreases vs, 0
  {
    if vs == [] then []
    else if vs[0].Marker? then CanonLooseAll(vs[1..])
    else [CanonLoose(vs[0])] + CanonLooseAll(vs[1..])
  }

  // The octets of a segmented string, segment after segment.
  function LooseContents(vs: seq<Loose>): seq<byte>
    decreases vs, 0
  {
    if vs == [] then [] else LooseContent(vs[0]) + LooseContents(vs[1..])
  }

  function LooseContent(v: Loose): seq<byte>
    decreases v, 1
  {
    match v
    case Marker => []
    case Simple(_, content, _) => content
    case SimpleOpen(_, kids) => EncLooseAll(kids)
    case Compound(_, kids, _) => LooseContents(kids)
  }

  // ---------- encodings are accepted ----------

  lemma LooseOpens(v: Loose, rest: seq<byte>)
    requires !v.Marker?
    ensures EncLoose(v) + rest
         == v.tag + (LengthOctets(FormOf(v), |Inner(v)|) + (Inner(v) + (EndMarker(FormOf(v)) + rest)))
  {
    var lengthOctets := LengthOctets(FormOf(v), |Inner(v)|);
    Assoc(v.tag, lengthOctets + (Inner(v) + EndMarker(FormOf(v))), rest);
    Assoc(lengthOctets, Inner(v) + EndMarker(FormOf(v)), rest);
    Assoc(Inner(v), EndMarker(FormOf(v)), rest);
  }

  lemma LooseIsLong(v: Loose)
    ensures |EncLoose(v)| >= 2
  {
  }

  lemma LengthStart(form: Form, n: nat)
    requires FormFits(form, n)
    ensures LengthOctets(form, n) != []
    ensures LengthOctets(form, n)[0] == 0 <==> form.Short? && n == 0
  {
  }

  lemma StartsOtherwise(tag: Tag, l: seq<byte>, rest: seq<byte>)
    requires l != [] && (tag[0] == 0 ==> |tag| == 1 && l[0] != 0)
    ensures !AtEndOfContents(tag + (l + rest))
  {
    var s := tag + (l + rest);
    assert s[0] == tag[0];
    assert |tag| == 1 ==> s[1] == l[0];
  }

  // Identifier and length octets that can be read, whatever the contents are.
  predicate Headed(v: Loose) {
    !v.Marker? && TagShape(v.tag) && FormFits(FormOf(v), |Inner(v)|)
  }

  // The head of a value is read back.
  lemma ReadsHead(v: Loose, rest: seq<byte>)
    requires Headed(v)
    ensures var s := EncLoose(v) + rest;
            && TagOf(s).Ok? && TagOf(s).value.tag == v.tag && LengthOf(TagOf(s).value.rest).Ok?
            && var LengthSplit(info, after) := LengthOf(TagOf(s).value.rest).value;
               && info == (if FormOf(v).Open? then Indefinite else Definite(|Inner(v)|))
               && after == Inner(v) + (EndMarker(FormOf(v)) + rest)
               && |s| - |after| + |Inner(v)| + |EndMarker(FormOf(v))| == |EncLoose(v)|
               && after[..|Inner(v)|] == Inner(v)
  {
    var form := FormOf(v);
    var after := Inner(v) + (EndMarker(form) + rest);
    LooseOpens(v, rest);
    ReadsTag(v.tag, LengthOctets(form, |Inner(v)|) + after);
    ReadsLength(form, |Inner(v)|, after);
    Split(Inner(v), EndMarker(form) + rest);
  }

  lemma NotAMarker(v: Loose, rest: seq<byte>)
    requires Readable(v) && !v.Marker?
    ensures !AtEndOfContents(EncLoose(v) + rest)
  {
    LooseOpens(v, rest);
    LengthStart(FormOf(v), |Inner(v)|);
    StartsOtherwise(v.tag, LengthOctets(FormOf(v), |Inner(v)|), Inner(v) + (EndMarker(FormOf(v)) + rest));
  }

  // The test for segmented implicit strings sees the children as they are.
  lemma OctetStringLoose(v: Loose, rest: seq<byte>)
    requires v.Marker? || (Headed(v) && Constructed(v.tag[0]) == v.Compound? && (v.Simple? ==> !v.form.Open?))
    ensures OctetStringSpan(EncLoose(v) + rest) == if OctetStringSimple(v) then Some(|EncLoose(v)|) else None
  {
    if v.Marker? {
      assert (EncLoose(v) + rest)[0] == 0;
    } else {
      ReadsHead(v, rest);
      if v.tag[0] == 4 {
        assert !Constructed(4) && !v.Compound?;
        assert v.Simple? <==> !FormOf(v).Open?;
      }
    }
  }

  predicate Scannable(vs: seq<Loose>) {
    forall i :: 0 <= i < |vs| ==>
      vs[i].Marker? ||
      (Headed(vs[i]) && Constructed(vs[i].tag[0]) == vs[i].Compound? && (vs[i].Simple? ==> !vs[i].form.Open?))
  }

  lemma {:induction false} OctetStringsLoose(vs: seq<Loose>)
    requires Scannable(vs)
    ensures OnlyOctetStrings(EncLooseAll(vs)) <==> AllOctetStringSimple(vs)
    ensures EncLooseAll(vs) == [] <==> vs == []
  {
    if vs != [] {
      var v, rest := vs[0], vs[1..];
      assert vs == [v] + rest && forall i :: 0 <= i < |rest| ==> rest[i] == vs[i + 1];
      OctetStringsLoose(rest);
      OctetStringLoose(v, EncLooseAll(rest));
      LooseIsLong(v);
      Split(EncLoose(v), EncLooseAll(rest));
      assert AllOctetStringSimple(vs) <==> OctetStringSimple(v) && AllOctetStringSimple(rest);
    }
  }

  lemma {:induction false} ReadableScans(vs: seq<Loose>)
    requires ReadableAll(vs)
    ensures Scannable(vs)
  {
    if vs != [] {
      ReadableScans(vs[1..]);
      assert forall i :: 0 < i < |vs| ==> vs[i] == vs[1..][i - 1];
    }
  }

  // Which segments a value holds, if it is taken for a segmented string.
  function LooseNumber(v: Loose): Option<byte> {
    if v.Compound? && LooseFlattens(v.tag, v.kids) then Some(if StringNode(v.tag) then v.tag[0] - 32 else 4) else None
  }

  lemma NumberLoose(v: Loose)
    requires !v.Marker? && Constructed(v.tag[0]) == v.Compound?
    requires v.Compound? ==> Scannable(v.kids)
    ensures SegmentNumber(v.tag[0], Inner(v)) == LooseNumber(v)
  {
    StringBits(v.tag[0]);
    if v.Compound? {
      OctetStringsLoose(v.kids);
    }
  }

  // The boundary walk finds the end of the children.
  lemma {:induction false} WalkLoose(vs: seq<Loose>, rest: seq<byte>)
    requires ReadableAll(vs) && NoMarker(vs)
    ensures var r := Walk(EncLooseAll(vs) + ([0, 0] + rest));
            r.Ok? && r.value == |EncLooseAll(vs)| + 2
    decreases vs, 0
  {
    var s := EncLooseAll(vs) + ([0, 0] + rest);
    if vs == [] {
      assert s == [0, 0] + rest;
    } else {
      var more := EncLooseAll(vs[1..]) + ([0, 0] + rest);
      Assoc(EncLoose(vs[0]), EncLooseAll(vs[1..]), [0, 0] + rest);
      RewriteLoose(vs[0], more);
      NotAMarker(vs[0], more);
      assert forall i :: 0 <= i < |vs| - 1 ==> vs[1..][i] == vs[i + 1];
      WalkLoose(vs[1..], rest);
      Split(EncLoose(vs[0]), more);
    }
  }

  // A value is taken apart into its identifier and contents octets.
  lemma {:induction false} DissectLoose(v: Loose, rest: seq<byte>)
    requires Headed(v) && (FormOf(v).Open? ==> !v.Simple? && ReadableAll(v.kids) && NoMarker(v.kids))
    ensures var r := Dissect(EncLoose(v) + rest);
            r.Ok? && r.value == Parsed(v.tag, Inner(v), |EncLoose(v)|)
    decreases v, 2
  {
    ReadsHead(v, rest);
    if FormOf(v).Open? {
      WalkLoose(v.kids, rest);
    }
  }

  // The parts of the DER form: those of the canonical value.
  lemma {:induction false} PartsLoose(v: Loose)
    requires Readable(v) && !v.Marker?
    ensures var r := DerParts(v.tag, Inner(v));
            var canon := CanonLoose(v);
            r.Ok? && r.value == Parts(canon.tag, DerBody(canon))
    decreases v, 2
  {
    if v.Compound? {
      ReadableScans(v.kids);
      NumberLoose(v);
      if StringNode(v.tag) {
        FlattenLoose(v.kids, v.tag[0] - 32);
      } else if LooseFlattens(v.tag, v.kids) {
        FlattenLoose(v.kids, 4);
      } else {
        NormalLoose(v.kids);
      }
    }
  }

  lemma {:induction false} RewriteLoose(v: Loose, rest: seq<byte>)
    requires Readable(v)
    ensures var r := Rewrite(EncLoose(v) + rest);
            r.Ok? && r.value == Piece(|EncLoose(v)|, if v.Marker? then [] else EncDer(CanonLoose(v)))
    decreases v, 3
  {
    if !v.Marker? {
      NotAMarker(v, rest);
      DissectLoose(v, rest);
      PartsLoose(v);
    }
  }

  // Every readable forest is accepted, and what is written is the DER of its canonical values.
  lemma {:induction false} NormalLoose(vs: seq<Loose>)
    requires ReadableAll(vs)
    ensures var r := Normal(EncLooseAll(vs));
            r.Ok? && r.value == EncDerAll(CanonLooseAll(vs))
    decreases vs, 0
  {
    if vs != [] {
      RewriteLoose(vs[0], EncLooseAll(vs[1..]));
      NormalLoose(vs[1..]);
      Split(EncLoose(vs[0]), EncLooseAll(vs[1..]));
      LooseIsLong(vs[0]);
      CanonFirst(vs);
    }
  }

  lemma CanonFirst(vs: seq<Loose>)
    requires vs != []
    ensures EncDerAll(CanonLooseAll(vs))
         == (if vs[0].Marker? then [] else EncDer(CanonLoose(vs[0]))) + EncDerAll(CanonLooseAll(vs[1..]))
  {
    var rest := CanonLooseAll(vs[1..]);
    if vs[0].Marker? {
      assert [] + EncDerAll(rest) == EncDerAll(rest);
    } else {
      assert ([CanonLoose(vs[0])] + rest)[1..] == rest;
    }
  }

  lemma {:induction false} SegmentLoose(v: Loose, number: byte, rest: seq<byte>)
    requires Readable(v) && IsSegment(v, number) && number in {3, 4}
    ensures var r := Segment(EncLoose(v) + rest, number);
            r.Ok? && r.value == Piece(|EncLoose(v)|, LooseContent(v))
    decreases v, 2
  {
    ReadsHead(v, rest);
    if FormOf(v).Open? {
      WalkLoose(v.kids, rest);
    }
    SegmentTagBits(v.tag, number);
    if v.Compound? {
      FlattenLoose(v.kids, number);
    }
  }

  // Segments are found at every depth and concatenated in order.
  lemma {:induction false} FlattenLoose(vs: seq<Loose>, number: byte)
    requires ReadableAll(vs) && AllSegments(vs, number) && number in {3, 4}
    ensures var r := Flatten(EncLooseAll(vs), number);
            r.Ok? && r.value == LooseContents(vs)
    decreases vs, 0
  {
    if vs != [] {
      assert IsSegment(vs[0], number);
      assert forall i :: 0 <= i < |vs| - 1 ==> vs[1..][i] == vs[i + 1];
      SegmentLoose(vs[0], number, EncLooseAll(vs[1..]));
      FlattenLoose(vs[1..], number);
      Split(EncLoose(vs[0]), EncLooseAll(vs[1..]));
      LooseIsLong(vs[0]);
    }
  }

  // ---------- nothing else is accepted ----------

  lemma {:induction false} TagEndShape(s: seq<byte>, i: nat)
    requires i <= |s|
    ensures forall j :: i <= j < TagEnd(s, i) ==> s[j] >= 128
    ensures TagEnd(s, i) < |s| ==> s[TagEnd(s, i)] < 128
    decreases |s| - i
  {
    if i < |s| && s[i] >= 128 {
      TagEndShape(s, i + 1);
    }
  }

  lemma TagFound(s: seq<byte>)
    requires TagOf(s).Ok?
    ensures TagShape(TagOf(s).value.tag) && s == TagOf(s).value.tag + TagOf(s).value.rest
  {
    if TagNumber(s[0]) == 31 {
      TagEndShape(s, 1);
    }
  }

  // The form a length was written in.
  lemma FormFound(s: seq<byte>) returns (form: Form)
    requires LengthOf(s).Ok?
    ensures var LengthSplit(info, rest) := LengthOf(s).value;
            && form.Open? == info.Indefinite?
            && (info.Indefinite? ==> s == [128] + rest)
            && (info.Definite? ==> FormFits(form, info.length) && s == LengthOctets(form, info.length) + rest)
  {
    var LengthSplit(info, rest) := LengthOf(s).value;
    if s[0] == 128 {
      form := Open;
    } else if s[0] < 128 {
      form := Short;
    } else {
      var octets := s[1..|s| - |rest|];
      form := Long(|octets|);
      FromBeBound(octets);
      FixedBeOfFromBe(octets);
      LongFound(s, octets, rest);
    }
  }

  lemma LongFound(s: seq<byte>, octets: seq<byte>, rest: seq<byte>)
    requires |s| == 1 + |octets| + |rest| && s[0] == 128 + |octets| && |octets| < 128
    requires s[1..1 + |octets|] == octets && s[1 + |octets|..] == rest
    ensures s == ([128 + |octets| % 128] + octets) + rest
  {
  }

  lemma {:induction false} WalkEnds(s: seq<byte>)
    requires Walk(s).Ok?
    ensures s[..Walk(s).value] == s[..Walk(s).value - 2] + [0, 0]
  {
    if !AtEndOfContents(s) {
      var n := Rewrite(s).value.octets;
      WalkEnds(s[n..]);
      var m := Walk(s).value;
      assert s[m - 2..m] == s[n..][m - n - 2..m - n];
      assert s[n..][..m - n] == s[n..][..m - n - 2] + s[n..][m - n - 2..m - n];
    }
  }

  // A value put together from what it was taken apart into.
  lemma Assembled(s: seq<byte>, v: Loose, after: seq<byte>, total: nat)
    requires !v.Marker? && s == v.tag + (LengthOctets(FormOf(v), |Inner(v)|) + after)
    requires total <= |after| && after[..total] == Inner(v) + EndMarker(FormOf(v))
    ensures |s| - |after| + total <= |s| && EncLoose(v) == s[..|s| - |after| + total]
  {
    var l := LengthOctets(FormOf(v), |Inner(v)|);
    Assoc(v.tag, l, after);
    assert s[..|v.tag + l| + total] == (v.tag + l) + after[..total];
    Assoc(v.tag, l, after[..total]);
  }

  lemma ShortIsMarker(s: seq<byte>, v: Loose, after: seq<byte>)
    requires v.Simple? && TagShape(v.tag) && s == v.tag + (LengthOctets(v.form, |v.content|) + after)
    requires !AtEndOfContents(s)
    ensures !LooksLikeMarker(v)
  {
  }

  lemma OneMore(v: Loose, vs: seq<Loose>)
    requires Readable(v) && ReadableAll(vs)
    ensures ReadableAll([v] + vs) && EncLooseAll([v] + vs) == EncLoose(v) + EncLooseAll(vs)
  {
    assert ([v] + vs)[1..] == vs;
  }

  lemma OneMoreValue(v: Loose, vs: seq<Loose>)
    requires !v.Marker? && NoMarker(vs)
    ensures NoMarker([v] + vs)
  {
  }

  lemma CompoundReadable(tag: Tag, kids: seq<Loose>, form: Form, content: seq<byte>)
    requires TagShape(tag) && FormFits(form, |content|) && Constructed(tag[0])
    requires ReadableAll(kids) && EncLooseAll(kids) == content && (form.Open? ==> NoMarker(kids))
    requires StringNode(tag) ==> AllSegments(kids, tag[0] - 32)
    ensures var v := Compound(tag, kids, form);
            Readable(v) && FormOf(v) == form && Inner(v) == content
  {
  }

  lemma {:induction false} FindWalk(s: seq<byte>) returns (vs: seq<Loose>)
    requires Walk(s).Ok?
    ensures ReadableAll(vs) && NoMarker(vs) && EncLooseAll(vs) + [0, 0] == s[..Walk(s).value]
    decreases |s|, 2
  {
    if AtEndOfContents(s) {
      vs := [];
    } else {
      var n := Rewrite(s).value.octets;
      var m := Walk(s).value;
      var v := FindLoose(s);
      var more := FindWalk(s[n..]);
      vs := [v] + more;
      OneMore(v, more);
      OneMoreValue(v, more);
      Assoc(EncLoose(v), EncLooseAll(more), [0, 0]);
      Adjacent(s, 0, n, m);
      assert s[n..][..m - n] == s[n..m];
    }
  }

  lemma {:induction false} FindRun(s: seq<byte>) returns (vs: seq<Loose>)
    requires Normal(s).Ok?
    ensures ReadableAll(vs) && EncLooseAll(vs) == s
    decreases |s|, 2
  {
    if s == [] {
      vs := [];
    } else {
      var n := Rewrite(s).value.octets;
      var v := FindLoose(s);
      var more := FindRun(s[n..]);
      vs := [v] + more;
      OneMore(v, more);
      Halves(s, n);
    }
  }

  lemma OneMoreSegment(v: Loose, vs: seq<Loose>, number: byte)
    requires IsSegment(v, number) && AllSegments(vs, number)
    ensures AllSegments([v] + vs, number)
  {
  }

  // Where the octets of one value lie, whichever of the two loops reads it.
  predicate Framed(s: seq<byte>, tag: Tag, form: Form, after: seq<byte>, content: seq<byte>, total: nat) {
    && TagShape(tag) && FormFits(form, |content|) && total <= |after|
    && s == tag + (LengthOctets(form, |content|) + after)
    && after[..total] == content + EndMarker(form)
  }

  lemma AssembledFrame(s: seq<byte>, v: Loose, after: seq<byte>, total: nat)
    requires !v.Marker? && Framed(s, v.tag, FormOf(v), after, Inner(v), total)
    ensures |after| <= |s| && EncLoose(v) == s[..|s| - |after| + total]
  {
    Assembled(s, v, after, total);
  }

  lemma FramedLead(s: seq<byte>, tag: Tag, form: Form, after: seq<byte>, content: seq<byte>, total: nat)
    requires Framed(s, tag, form, after, content, total) && tag[0] != 0
    ensures !AtEndOfContents(s)
  {
    assert s[0] == tag[0];
  }

  lemma Frame(s: seq<byte>, total: nat) returns (form: Form, content: seq<byte>)
    requires TagOf(s).Ok? && LengthOf(TagOf(s).value.rest).Ok?
    requires var LengthSplit(info, after) := LengthOf(TagOf(s).value.rest).value;
             match info
             case Definite(n) => n == total <= |after|
             case Indefinite => Walk(after).Ok? && Walk(after).value == total
    ensures var LengthSplit(info, after) := LengthOf(TagOf(s).value.rest).value;
            && form.Open? == info.Indefinite?
            && content == (if form.Open? then after[..total - 2] else after[..total])
            && Framed(s, TagOf(s).value.tag, form, after, content, total)
  {
    var TagSplit(tag, afterTag) := TagOf(s).value;
    var LengthSplit(info, after) := LengthOf(afterTag).value;
    TagFound(s);
    form := FormFound(afterTag);
    if form.Open? {
      content := after[..total - 2];
      WalkEnds(after);
    } else {
      content := after[..total];
      assert content + [] == content;
    }
  }

  lemma FlattenStep(s: seq<byte>, number: byte)
    requires s != [] && Flatten(s, number).Ok?
    ensures Segment(s, number).Ok? && Flatten(s[Segment(s, number).value.octets..], number).Ok?
  {
  }

  lemma SegmentStep(s: seq<byte>, number: byte)
    requires Segment(s, number).Ok?
    ensures TagOf(s).Ok? && LengthOf(TagOf(s).value.rest).Ok?
    ensures var TagSplit(tag, afterTag) := TagOf(s).value;
            var LengthSplit(info, after) := LengthOf(afterTag).value;
            && Class(tag[0]) == 0 && TagNumber(tag[0]) == number && SegmentExtent(info, after).Ok?
            && var Span(length, total) := SegmentExtent(info, after).value;
               && Segment(s, number).value.octets == |s| - |after| + total
               && (Constructed(tag[0]) ==> Flatten(after[..length], number).Ok?)
  {
  }

  lemma {:induction false} FindSegments(s: seq<byte>, number: byte) returns (vs: seq<Loose>)
    requires Flatten(s, number).Ok? && number in {3, 4}
    ensures ReadableAll(vs) && AllSegments(vs, number) && EncLooseAll(vs) == s
    decreases |s|, 2
  {
    if s == [] {
      vs := [];
    } else {
      FlattenStep(s, number);
      var n := Segment(s, number).value.octets;
      var v := FindSegment(s, number);
      var more := FindSegments(s[n..], number);
      vs := [v] + more;
      OneMore(v, more);
      OneMoreSegment(v, more, number);
      Halves(s, n);
    }
  }

  lemma SegmentLead(tag: Tag, number: byte)
    requires TagShape(tag) && number in {3, 4} && Class(tag[0]) == 0 && TagNumber(tag[0]) == number
    ensures SegmentTag(tag, number)
    ensures if Constructed(tag[0]) then tag[0] == number + 32 && StringNode(tag) else tag[0] == number
  {
  }

  // Where a segment that is read lies.
  lemma SegmentFrame(s: seq<byte>, number: byte)
      returns (tag: Tag, form: Form, after: seq<byte>, content: seq<byte>, total: nat)
    requires Segment(s, number).Ok? && number in {3, 4}
    ensures Framed(s, tag, form, after, content, total) && |content| <= |after| < |s| && SegmentTag(tag, number)
    ensures Segment(s, number).value.octets == |s| - |after| + total
    ensures form.Open? ==> Walk(after).Ok? && Walk(after).value == total && content == after[..total - 2]
    ensures if Constructed(tag[0]) then StringNode(tag) && tag[0] == number + 32 && Flatten(content, number).Ok?
            else tag[0] == number
  {
    SegmentStep(s, number);
    var TagSplit(t, afterTag) := TagOf(s).value;
    var LengthSplit(info, a) := LengthOf(afterTag).value;
    tag, after := t, a;
    var Span(length, m) := SegmentExtent(info, after).value;
    total := m;
    form, content := Frame(s, total);
    assert content == after[..length];
    SegmentLead(tag, number);
  }

  lemma {:induction false} FindSegment(s: seq<byte>, number: byte) returns (v: Loose)
    requires Segment(s, number).Ok? && number in {3, 4}
    ensures Readable(v) && IsSegment(v, number) && EncLoose(v) == s[..Segment(s, number).value.octets]
    decreases |s|, 1
  {
    var tag, form, after, content, total := SegmentFrame(s, number);
    if Constructed(tag[0]) {
      var kids := FindSegments(content, number);
      SegmentsNoMarker(kids, number);
      v := Compound(tag, kids, form);
      CompoundReadable(tag, kids, form, content);
    } else {
      FramedLead(s, tag, form, after, content, total);
      v := FindPrimitive(s, tag, form, after, content, total);
    }
    AssembledFrame(s, v, after, total);
  }

  lemma SegmentsNoMarker(vs: seq<Loose>, number: byte)
    requires AllSegments(vs, number)
    ensures NoMarker(vs)
  {
  }

  // A primitive value, in whichever form.
  lemma {:induction false} FindPrimitive(s: seq<byte>, tag: Tag, form: Form, after: seq<byte>, content: seq<byte>, total: nat)
      returns (v: Loose)
    requires Framed(s, tag, form, after, content, total) && !Constructed(tag[0]) && !AtEndOfContents(s)
    requires form.Open? ==> Walk(after).Ok? && Walk(after).value == total
    ensures Readable(v) && !v.Marker? && v.tag == tag && FormOf(v) == form && Inner(v) == content
    decreases |after|, 4
  {
    if form.Open? {
      var kids := FindWalk(after);
      Split(EncLooseAll(kids), [0, 0]);
      Split(content, [0, 0]);
      v := SimpleOpen(tag, kids);
    } else {
      v := Simple(tag, content, form);
      ShortIsMarker(s, v, after);
    }
  }

  // The children of a constructed value that is accepted.
  lemma {:induction false} FindKids(tag: Tag, form: Form, after: seq<byte>, content: seq<byte>) returns (kids: seq<Loose>)
    requires Constructed(tag[0]) && DerParts(tag, content).Ok?
    requires |content| <= |after|
    requires form.Open? ==> Walk(after).Ok? && content == after[..Walk(after).value - 2]
    ensures ReadableAll(kids) && EncLooseAll(kids) == content
    ensures form.Open? ==> NoMarker(kids)
    ensures StringNode(tag) ==> AllSegments(kids, tag[0] - 32)
    decreases |after|, 4
  {
    StringBits(tag[0]);
    if StringNode(tag) {
      kids := FindSegments(content, tag[0] - 32);
    } else if form.Open? {
      kids := FindWalk(after);
      WalkEnds(after);
      Split(EncLooseAll(kids), [0, 0]);
      Split(content, [0, 0]);
    } else if SegmentNumber(tag[0], content).Some? {
      kids := FindSegments(content, 4);
    } else {
      kids := FindRun(content);
    }
  }

  lemma RewriteOk(s: seq<byte>)
    requires Rewrite(s).Ok? && !AtEndOfContents(s)
    ensures Dissect(s).Ok? && Dissect(s).value.octets == Rewrite(s).value.octets
    ensures DerParts(Dissect(s).value.tag, Dissect(s).value.content).Ok?
  {
  }

  lemma DissectOk(s: seq<byte>)
    requires Dissect(s).Ok?
    ensures TagOf(s).Ok? && LengthOf(TagOf(s).value.rest).Ok?
    ensures var TagSplit(tag, afterTag) := TagOf(s).value;
            var LengthSplit(info, after) := LengthOf(afterTag).value;
            && Extent(info, after).Ok?
            && Dissect(s).value.tag == tag && Dissect(s).value.octets == |s| - |after| + Extent(info, after).value.total
            && Dissect(s).value.content == after[..Extent(info, after).value.length]
  {
    assert TagOf(s).Ok? && LengthOf(TagOf(s).value.rest).Ok?;
  }

  lemma RewriteStep(s: seq<byte>)
    requires Rewrite(s).Ok? && !AtEndOfContents(s)
    ensures TagOf(s).Ok? && LengthOf(TagOf(s).value.rest).Ok?
    ensures var TagSplit(tag, afterTag) := TagOf(s).value;
            var LengthSplit(info, after) := LengthOf(afterTag).value;
            && Extent(info, after).Ok?
            && var Span(length, total) := Extent(info, after).value;
               Rewrite(s).value.octets == |s| - |after| + total && DerParts(tag, after[..length]).Ok?
  {
    RewriteOk(s);
    DissectOk(s);
  }

  // Where an accepted value lies.
  lemma RewriteFrame(s: seq<byte>)
      returns (tag: Tag, form: Form, after: seq<byte>, content: seq<byte>, total: nat)
    requires Rewrite(s).Ok? && !AtEndOfContents(s)
    ensures Framed(s, tag, form, after, content, total) && |content| <= |after| < |s|
    ensures Rewrite(s).value.octets == |s| - |after| + total && DerParts(tag, content).Ok?
    ensures form.Open? ==> Walk(after).Ok? && Walk(after).value == total && content == after[..total - 2]
  {
    RewriteStep(s);
    var TagSplit(t, afterTag) := TagOf(s).value;
    var LengthSplit(info, a) := LengthOf(afterTag).value;
    tag, after := t, a;
    var Span(length, m) := Extent(info, after).value;
    total := m;
    form, content := Frame(s, total);
    assert content == after[..length];
  }

  lemma {:induction false} FindFramed(s: seq<byte>, tag: Tag, form: Form, after: seq<byte>, content: seq<byte>, total: nat)
      returns (v: Loose)
    requires Framed(s, tag, form, after, content, total) && !AtEndOfContents(s) && DerParts(tag, content).Ok?
    requires |content| <= |after|
    requires form.Open? ==> Walk(after).Ok? && Walk(after).value == total && content == after[..total - 2]
    ensures Readable(v) && !v.Marker? && v.tag == tag && FormOf(v) == form && Inner(v) == content
    decreases |after|, 5
  {
    if Constructed(tag[0]) {
      var kids := FindKids(tag, form, after, content);
      v := Compound(tag, kids, form);
      CompoundReadable(tag, kids, form, content);
    } else {
      v := FindPrimitive(s, tag, form, after, content, total);
    }
  }

  lemma {:induction false} FindLoose(s: seq<byte>) returns (v: Loose)
    requires Rewrite(s).Ok?
    ensures Readable(v) && EncLoose(v) == s[..Rewrite(s).value.octets]
    ensures v.Marker? == AtEndOfContents(s)
    decreases |s|, 1
  {
    if AtEndOfContents(s) {
      return Marker;
    }
    var tag, form, after, content, total := RewriteFrame(s);
    v := FindFramed(s, tag, form, after, content, total);
    AssembledFrame(s, v, after, total);
  }

  // The rewriter accepts exactly the encodings of readable forests, and whichever forest the
  // octets are read as, it writes the DER of the canonical one.
  lemma AcceptsExactly(s: seq<byte>)
    ensures Normal(s).Ok? <==> exists vs :: ReadableAll(vs) && EncLooseAll(vs) == s
    ensures forall vs :: ReadableAll(vs) && EncLooseAll(vs) == s ==> Normal(s).value == EncDerAll(CanonLooseAll(vs))
  {
    if Normal(s).Ok? {
      var vs := FindRun(s);
    }
    forall vs | ReadableAll(vs) && EncLooseAll(vs) == s
      ensures Normal(s).Ok? && Normal(s).value == EncDerAll(CanonLooseAll(vs))
    {
      NormalLoose(vs);
    }
  }
}

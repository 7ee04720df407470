/**
 Exactly which octets make the rewriter slice out of range, with BerGrammar the full
 classification of its three outcomes. The crash lies where a segment of a constructed string
 announces more octets than its string has left. What the rewriter reads on its way there
 must be readable; what follows it may be anything.
 */
module BerCrashes {
  import opened Bytes
  import opened Seqs
  import opened Wrappers
  import opened BerToDer
  import opened BerLocality
  import opened BerTheory
  import opened BerGrammar

  // The way to a crash: the overlong segment, or an enclosing value with what comes before the
  // crash inside it. A value with a length is followed by `rest`. In a value without one the
  // crash is met while its end is looked for.
  datatype Crash =
    | Overlong(tag: Tag, form: Form, announced: nat, left: seq<byte>)
    | Closed(tag: Tag, form: Form, before: seq<Loose>, inner: Crash, rest: seq<byte>)
    | Opened(tag: Tag, before: seq<Loose>, inner: Crash)

  function CrashBody(c: Crash): seq<byte>
    requires !c.Overlong?
    decreases c, 0
  {
    EncLooseAll(c.before) + EncCrash(c.inner)
  }

  function EncCrash(c: Crash): seq<byte>
    decreases c, 1
  {
    match c
    case Overlong(tag, form, announced, left) => tag + (LengthOctets(form, announced) + left)
    case Closed(tag, form, _, _, rest) => tag + (LengthOctets(form, |CrashBody(c)|) + (CrashBody(c) + rest))
    case Opened(tag, _, _) => tag + ([128] + CrashBody(c))
  }

  // Is this the way to a crash, when values are rewritten, or inside a string of the given type
  // when segments are flattened?
  predicate Crashing(c: Crash, within: Option<byte>)
    decreases c
  {
    && TagShape(c.tag) && (within.Some? ==> SegmentTag(c.tag, within.value))
    && match c
       case Overlong(_, form, announced, left) =>
         within.Some? && !form.Open? && FormFits(form, announced) && |left| < announced
       case Closed(tag, form, before, inner, _) =>
         Constructed(tag[0]) && !form.Open? && FormFits(form, |CrashBody(c)|) && ReadableAll(before)
         && if StringNode(tag) then AllSegments(before, tag[0] - 32) && Crashing(inner, Some(tag[0] - 32))
            else Crashing(inner, None)
       case Opened(_, before, inner) =>
         ReadableAll(before) && NoMarker(before) && Crashing(inner, None)
  }

  // ---------- these octets crash ----------

  lemma CrashIsNoMarker(c: Crash)
    requires Crashing(c, None)
    ensures !AtEndOfContents(EncCrash(c))
  {
    if c.Closed? {
      LengthStart(c.form, |CrashBody(c)|);
      StartsOtherwise(c.tag, LengthOctets(c.form, |CrashBody(c)|), CrashBody(c) + c.rest);
    } else {
      StartsOtherwise(c.tag, [128], CrashBody(c));
    }
  }

  lemma {:induction false} RewriteCrashes(c: Crash)
    requires Crashing(c, None)
    ensures Rewrite(EncCrash(c)).Panic?
    decreases c, 3
  {
    CrashIsNoMarker(c);
    if c.Closed? {
      ClosedDissects(c);
      PartsCrash(c);
    } else {
      WalkCrashes(c.before, c.inner);
      OpenedDissects(c);
    }
  }

  lemma OpenedDissects(c: Crash)
    requires c.Opened? && TagShape(c.tag) && Walk(CrashBody(c)).Panic?
    ensures Dissect(EncCrash(c)).Panic?
  {
    ReadsTag(c.tag, [128] + CrashBody(c));
    ReadsLength(Open, |CrashBody(c)|, CrashBody(c));
    assert Extent(Indefinite, CrashBody(c)).Panic?;
  }

  lemma ClosedDissects(c: Crash)
    requires c.Closed? && TagShape(c.tag) && !c.form.Open? && FormFits(c.form, |CrashBody(c)|)
    ensures var r := Dissect(EncCrash(c));
            r.Ok? && r.value.tag == c.tag && r.value.content == CrashBody(c)
  {
    var l := LengthOctets(c.form, |CrashBody(c)|);
    ReadsTag(c.tag, l + (CrashBody(c) + c.rest));
    ReadsLength(c.form, |CrashBody(c)|, CrashBody(c) + c.rest);
    Split(CrashBody(c), c.rest);
  }

  lemma {:induction false} PartsCrash(c: Crash)
    requires Crashing(c, None) && c.Closed?
    ensures DerParts(c.tag, CrashBody(c)).Panic?
    decreases c, 2
  {
    StringBits(c.tag[0]);
    if StringNode(c.tag) {
      FlattenCrashes(c.before, c.inner, c.tag[0] - 32);
    } else {
      NormalCrashes(c.before, c.inner);
      if OnlyOctetStrings(CrashBody(c)) {
        OctetStringsPass(CrashBody(c));
      }
    }
  }

  lemma {:induction false} OctetStringsPass(s: seq<byte>)
    requires OnlyOctetStrings(s)
    ensures Normal(s).Ok?
    decreases |s|
  {
    if s != [] {
      OctetStringRewrites(s);
      OctetStringsPass(s[OctetStringSpan(s).value..]);
    }
  }

  lemma OctetStringRewrites(s: seq<byte>)
    requires OctetStringSpan(s).Some?
    ensures Rewrite(s).Ok? && Rewrite(s).value.octets == OctetStringSpan(s).value
  {
    var TagSplit(tag, afterTag) := TagOf(s).value;
    var LengthSplit(info, after) := LengthOf(afterTag).value;
    assert tag[0] == s[0] == 4 && !Constructed(tag[0]);
    assert Extent(info, after).Ok?;
    assert DerParts(tag, after[..info.length]).Ok?;
  }

  lemma NormalLater(s: seq<byte>)
    requires s != [] && Rewrite(s).Ok? && Normal(s[Rewrite(s).value.octets..]).Panic?
    ensures Normal(s).Panic?
  {
  }

  lemma WalkLater(s: seq<byte>)
    requires !AtEndOfContents(s) && Rewrite(s).Ok? && Walk(s[Rewrite(s).value.octets..]).Panic?
    ensures Walk(s).Panic?
  {
  }

  lemma FlattenLater(s: seq<byte>, number: byte)
    requires s != [] && Segment(s, number).Ok? && Flatten(s[Segment(s, number).value.octets..], number).Panic?
    ensures Flatten(s, number).Panic?
  {
  }

  lemma {:induction false} NormalCrashes(before: seq<Loose>, c: Crash)
    requires ReadableAll(before) && Crashing(c, None)
    ensures Normal(EncLooseAll(before) + EncCrash(c)).Panic?
    decreases c, 5, |before|
  {
    if before == [] {
      assert EncLooseAll(before) + EncCrash(c) == EncCrash(c);
      RewriteCrashes(c);
    } else {
      var more := EncLooseAll(before[1..]) + EncCrash(c);
      Assoc(EncLoose(before[0]), EncLooseAll(before[1..]), EncCrash(c));
      RewriteLoose(before[0], more);
      NormalCrashes(before[1..], c);
      Split(EncLoose(before[0]), more);
      LooseIsLong(before[0]);
      NormalLater(EncLoose(before[0]) + more);
    }
  }

  lemma {:induction false} WalkCrashes(before: seq<Loose>, c: Crash)
    requires ReadableAll(before) && NoMarker(before) && Crashing(c, None)
    ensures Walk(EncLooseAll(before) + EncCrash(c)).Panic?
    decreases c, 5, |before|
  {
    if before == [] {
      assert EncLooseAll(before) + EncCrash(c) == EncCrash(c);
      RewriteCrashes(c);
      CrashIsNoMarker(c);
    } else {
      var more := EncLooseAll(before[1..]) + EncCrash(c);
      Assoc(EncLoose(before[0]), EncLooseAll(before[1..]), EncCrash(c));
      RewriteLoose(before[0], more);
      NotAMarker(before[0], more);
      assert forall i :: 0 <= i < |before| - 1 ==> before[1..][i] == before[i + 1];
      WalkCrashes(before[1..], c);
      Split(EncLoose(before[0]), more);
      WalkLater(EncLoose(before[0]) + more);
    }
  }

  lemma {:induction false} FlattenCrashes(before: seq<Loose>, c: Crash, number: byte)
    requires number in {3, 4} && ReadableAll(before) && AllSegments(before, number) && Crashing(c, Some(number))
    ensures Flatten(EncLooseAll(before) + EncCrash(c), number).Panic?
    decreases c, 5, |before|
  {
    if before == [] {
      assert EncLooseAll(before) + EncCrash(c) == EncCrash(c);
      SegmentCrashes(c, number);
    } else {
      var more := EncLooseAll(before[1..]) + EncCrash(c);
      Assoc(EncLoose(before[0]), EncLooseAll(before[1..]), EncCrash(c));
      assert IsSegment(before[0], number);
      SegmentLoose(before[0], number, more);
      assert forall i :: 0 <= i < |before| - 1 ==> before[1..][i] == before[i + 1];
      FlattenCrashes(before[1..], c, number);
      Split(EncLoose(before[0]), more);
      LooseIsLong(before[0]);
      FlattenLater(EncLoose(before[0]) + more, number);
    }
  }

  lemma SegmentFollows(s: seq<byte>, number: byte)
    requires TagOf(s).Ok? && LengthOf(TagOf(s).value.rest).Ok?
    requires Class(TagOf(s).value.tag[0]) == 0 && TagNumber(TagOf(s).value.tag[0]) == number
    requires var LengthSplit(info, after) := LengthOf(TagOf(s).value.rest).value;
             var extent := SegmentExtent(info, after);
             extent.Panic? ||
             (extent.Ok? && Constructed(TagOf(s).value.tag[0]) && Flatten(after[..extent.value.length], number).Panic?)
    ensures Segment(s, number).Panic?
  {
  }

  lemma {:induction false} SegmentCrashes(c: Crash, number: byte)
    requires number in {3, 4} && Crashing(c, Some(number))
    ensures Segment(EncCrash(c), number).Panic?
    decreases c, 3
  {
    SegmentTagBits(c.tag, number);
    match c {
      case Overlong(tag, form, announced, left) =>
        ReadsTag(tag, LengthOctets(form, announced) + left);
        ReadsLength(form, announced, left);
      case Closed(tag, form, before, inner, rest) =>
        ReadsTag(tag, LengthOctets(form, |CrashBody(c)|) + (CrashBody(c) + rest));
        ReadsLength(form, |CrashBody(c)|, CrashBody(c) + rest);
        Split(CrashBody(c), rest);
        FlattenCrashes(before, inner, number);
      case Opened(tag, before, inner) =>
        ReadsTag(tag, [128] + CrashBody(c));
        ReadsLength(Open, |CrashBody(c)|, CrashBody(c));
        WalkCrashes(before, inner);
    }
    SegmentFollows(EncCrash(c), number);
  }

  // ---------- and no others do ----------

  // The test for segmented implicit strings has measured every segment, so flattening them
  // neither fails nor slices out of range.
  lemma {:induction false} ImplicitStringsSafe(s: seq<byte>)
    requires OnlyOctetStrings(s)
    ensures Flatten(s, 4).Ok?
    decreases |s|
  {
    if s != [] {
      SpanIsSegment(s);
      ImplicitStringsSafe(s[OctetStringSpan(s).value..]);
    }
  }

  lemma SpanIsSegment(s: seq<byte>)
    requires OctetStringSpan(s).Some?
    ensures Segment(s, 4).Ok? && Segment(s, 4).value.octets == OctetStringSpan(s).value
  {
    var TagSplit(tag, afterTag) := TagOf(s).value;
    assert Class(tag[0]) == 0 && TagNumber(tag[0]) == 4 && !Constructed(tag[0]);
  }

  // Once the end of a value without a length is found, its contents hold no crash.
  lemma {:induction false} LooseFlattens(vs: seq<Loose>, number: byte)
    requires ReadableAll(vs) && number in {3, 4}
    ensures !Flatten(EncLooseAll(vs), number).Panic?
    decreases |vs|
  {
    if vs != [] {
      var more := EncLooseAll(vs[1..]);
      if IsSegment(vs[0], number) {
        SegmentLoose(vs[0], number, more);
        LooseFlattens(vs[1..], number);
        Split(EncLoose(vs[0]), more);
      } else {
        ForeignSegment(vs[0], number, more);
      }
    }
  }

  lemma ForeignLead(tag: Tag, number: byte)
    requires TagShape(tag) && number in {3, 4} && !SegmentTag(tag, number)
    ensures Class(tag[0]) != 0 || TagNumber(tag[0]) != number
  {
  }

  lemma ForeignSegment(v: Loose, number: byte, rest: seq<byte>)
    requires Readable(v) && !IsSegment(v, number) && number in {3, 4}
    ensures Segment(EncLoose(v) + rest, number).Err?
  {
    if v.Marker? {
      assert (EncLoose(v) + rest)[0] == 0;
    } else {
      LooseOpens(v, rest);
      ReadsTag(v.tag, LengthOctets(FormOf(v), |Inner(v)|) + (Inner(v) + (EndMarker(FormOf(v)) + rest)));
      ForeignLead(v.tag, number);
    }
  }

  lemma WalkedFlattens(s: seq<byte>, number: byte)
    requires Walk(s).Ok? && number in {3, 4}
    ensures !Flatten(s[..Walk(s).value - 2], number).Panic?
  {
    var vs := FindWalk(s);
    WalkEnds(s);
    Split(EncLooseAll(vs), [0, 0]);
    Split(s[..Walk(s).value - 2], [0, 0]);
    LooseFlattens(vs, number);
  }

  lemma WalkedParts(tag: Tag, s: seq<byte>)
    requires Walk(s).Ok?
    ensures !DerParts(tag, s[..Walk(s).value - 2]).Panic?
  {
    var content := s[..Walk(s).value - 2];
    TwoPassesAgree(s, content);
    StringBits(tag[0]);
    WalkedFlattens(s, 3);
    WalkedFlattens(s, 4);
  }

  // How a rewrite comes to crash: while the end of a value without a length is looked for, or
  // in the contents of one with a length.
  lemma RewritePanics(s: seq<byte>)
    requires Rewrite(s).Panic?
    ensures !AtEndOfContents(s)
    ensures Dissect(s).Panic? || (Dissect(s).Ok? && DerParts(Dissect(s).value.tag, Dissect(s).value.content).Panic?)
  {
  }

  lemma DissectCases(s: seq<byte>)
    requires Dissect(s).Panic? || Dissect(s).Ok?
    ensures TagOf(s).Ok? && LengthOf(TagOf(s).value.rest).Ok?
    ensures var TagSplit(tag, afterTag) := TagOf(s).value;
            var LengthSplit(info, after) := LengthOf(afterTag).value;
            if Dissect(s).Panic? then info.Indefinite? && Walk(after).Panic?
            else
              && Extent(info, after).Ok? && Dissect(s).value.tag == tag
              && Dissect(s).value.content == after[..Extent(info, after).value.length]
  {
  }

  lemma RewriteCrashStep(s: seq<byte>) returns (form: Form, content: seq<byte>)
    requires Rewrite(s).Panic?
    ensures !AtEndOfContents(s) && TagOf(s).Ok? && LengthOf(TagOf(s).value.rest).Ok?
    ensures var TagSplit(tag, afterTag) := TagOf(s).value;
            var LengthSplit(info, after) := LengthOf(afterTag).value;
            && TagShape(tag)
            && (form.Open? ==> Walk(after).Panic? && s == tag + ([128] + after))
            && (!form.Open? ==>
                  DerParts(tag, content).Panic? && |content| <= |after| && Framed(s, tag, form, after, content, |content|))
  {
    RewritePanics(s);
    DissectCases(s);
    var TagSplit(tag, afterTag) := TagOf(s).value;
    var LengthSplit(info, after) := LengthOf(afterTag).value;
    TagFound(s);
    if Dissect(s).Panic? {
      content := [];
      form := FormFound(afterTag);
    } else {
      if info.Indefinite? {
        WalkedParts(tag, after);
      }
      form, content := Frame(s, Extent(info, after).value.total);
    }
  }

  // The contents in which a value with a length crashes.
  lemma {:induction false} FindContentCrash(tag: Tag, content: seq<byte>) returns (before: seq<Loose>, c: Crash)
    requires DerParts(tag, content).Panic?
    ensures Constructed(tag[0]) && ReadableAll(before) && EncLooseAll(before) + EncCrash(c) == content
    ensures if StringNode(tag) then AllSegments(before, tag[0] - 32) && Crashing(c, Some(tag[0] - 32))
            else Crashing(c, None)
    decreases |content|, 3
  {
    StringBits(tag[0]);
    if StringNode(tag) {
      before, c := FindFlattenCrash(content, tag[0] - 32);
    } else {
      if AllOctetStrings(content) {
        ImplicitStringsSafe(content);
      }
      before, c := FindNormalCrash(content);
    }
  }

  lemma {:induction false} FindCrash(s: seq<byte>) returns (c: Crash)
    requires Rewrite(s).Panic?
    ensures Crashing(c, None) && EncCrash(c) == s
    decreases |s|, 1
  {
    var form, content := RewriteCrashStep(s);
    var TagSplit(tag, afterTag) := TagOf(s).value;
    var after := LengthOf(afterTag).value.rest;
    if form.Open? {
      var before, inner := FindWalkCrash(after);
      c := Opened(tag, before, inner);
    } else {
      var before, inner := FindContentCrash(tag, content);
      c := Closed(tag, form, before, inner, after[|content|..]);
      assert content + [] == content;
      AssembledClosed(s, c, after, |content|);
    }
  }

  lemma WalkPanics(s: seq<byte>)
    requires Walk(s).Panic?
    ensures !AtEndOfContents(s)
    ensures Rewrite(s).Panic? || (Rewrite(s).Ok? && Walk(s[Rewrite(s).value.octets..]).Panic?)
  {
  }

  lemma NormalPanics(s: seq<byte>)
    requires Normal(s).Panic?
    ensures s != []
    ensures Rewrite(s).Panic? || (Rewrite(s).Ok? && Normal(s[Rewrite(s).value.octets..]).Panic?)
  {
  }

  lemma FlattenPanics(s: seq<byte>, number: byte)
    requires Flatten(s, number).Panic?
    ensures s != []
    ensures Segment(s, number).Panic? ||
            (Segment(s, number).Ok? && Flatten(s[Segment(s, number).value.octets..], number).Panic?)
  {
  }

  // An accepted value in front of the way to a crash.
  lemma OneBefore(s: seq<byte>, n: nat, v: Loose, before: seq<Loose>, c: Crash)
    requires n <= |s| && Readable(v) && ReadableAll(before)
    requires EncLoose(v) == s[..n] && EncLooseAll(before) + EncCrash(c) == s[n..]
    ensures ReadableAll([v] + before) && EncLooseAll([v] + before) + EncCrash(c) == s
  {
    Halves(s, n);
    Assoc(EncLoose(v), EncLooseAll(before), EncCrash(c));
    OneMore(v, before);
  }

  lemma {:induction false} FindWalkCrash(s: seq<byte>) returns (before: seq<Loose>, c: Crash)
    requires Walk(s).Panic?
    ensures ReadableAll(before) && NoMarker(before) && Crashing(c, None)
    ensures EncLooseAll(before) + EncCrash(c) == s
    decreases |s|, 2
  {
    WalkPanics(s);
    if Rewrite(s).Panic? {
      before := [];
      c := FindCrash(s);
      assert EncLooseAll(before) + s == s;
    } else {
      var n := Rewrite(s).value.octets;
      var v := FindLoose(s);
      before, c := FindWalkCrash(s[n..]);
      OneBefore(s, n, v, before, c);
      OneMoreValue(v, before);
      before := [v] + before;
    }
  }

  lemma {:induction false} FindNormalCrash(s: seq<byte>) returns (before: seq<Loose>, c: Crash)
    requires Normal(s).Panic?
    ensures ReadableAll(before) && Crashing(c, None)
    ensures EncLooseAll(before) + EncCrash(c) == s
    decreases |s|, 2
  {
    NormalPanics(s);
    if Rewrite(s).Panic? {
      before := [];
      c := FindCrash(s);
      assert EncLooseAll(before) + s == s;
    } else {
      var n := Rewrite(s).value.octets;
      var v := FindLoose(s);
      before, c := FindNormalCrash(s[n..]);
      OneBefore(s, n, v, before, c);
      before := [v] + before;
    }
  }

  lemma {:induction false} FindFlattenCrash(s: seq<byte>, number: byte) returns (before: seq<Loose>, c: Crash)
    requires Flatten(s, number).Panic? && number in {3, 4}
    ensures ReadableAll(before) && AllSegments(before, number) && Crashing(c, Some(number))
    ensures EncLooseAll(before) + EncCrash(c) == s
    decreases |s|, 2
  {
    FlattenPanics(s, number);
    if Segment(s, number).Panic? {
      before := [];
      c := FindSegmentCrash(s, number);
      assert EncLooseAll(before) + s == s;
    } else {
      var n := Segment(s, number).value.octets;
      var v := FindSegment(s, number);
      before, c := FindFlattenCrash(s[n..], number);
      OneBefore(s, n, v, before, c);
      OneMoreSegment(v, before, number);
      before := [v] + before;
    }
  }

  lemma SegmentPanics(s: seq<byte>, number: byte)
    requires Segment(s, number).Panic?
    ensures TagOf(s).Ok? && LengthOf(TagOf(s).value.rest).Ok?
    ensures var TagSplit(tag, afterTag) := TagOf(s).value;
            var LengthSplit(info, after) := LengthOf(afterTag).value;
            var extent := SegmentExtent(info, after);
            && Class(tag[0]) == 0 && TagNumber(tag[0]) == number
            && (extent.Panic? ||
                (extent.Ok? && Constructed(tag[0]) && Flatten(after[..extent.value.length], number).Panic?))
  {
  }

  lemma SegmentCrashStep(s: seq<byte>, number: byte) returns (form: Form, n: nat)
    requires Segment(s, number).Panic? && number in {3, 4}
    ensures TagOf(s).Ok? && LengthOf(TagOf(s).value.rest).Ok?
    ensures var TagSplit(tag, afterTag) := TagOf(s).value;
            var LengthSplit(info, after) := LengthOf(afterTag).value;
            && TagShape(tag) && SegmentTag(tag, number) && form.Open? == info.Indefinite?
            && (form.Open? ==> Walk(after).Panic? && s == tag + ([128] + after))
            && (!form.Open? ==> FormFits(form, n) && s == tag + (LengthOctets(form, n) + after))
            && (!form.Open? && n <= |after| ==>
                  Constructed(tag[0]) && StringNode(tag) && tag[0] == number + 32 && Flatten(after[..n], number).Panic?)
  {
    SegmentPanics(s, number);
    var TagSplit(tag, afterTag) := TagOf(s).value;
    var LengthSplit(info, after) := LengthOf(afterTag).value;
    TagFound(s);
    SegmentLead(tag, number);
    form := FormFound(afterTag);
    n := 0;
    match info {
      case Indefinite =>
        if Walk(after).Ok? {
          WalkedFlattens(after, number);
          assert false;
        }
      case Definite(m) =>
        n := m;
    }
  }

  // A value with a length and a crash in its contents, put together.
  lemma AssembledClosed(s: seq<byte>, c: Crash, after: seq<byte>, n: nat)
    requires c.Closed? && n <= |after| && CrashBody(c) == after[..n] && c.rest == after[n..]
    requires s == c.tag + (LengthOctets(c.form, n) + after)
    ensures EncCrash(c) == s
  {
    Halves(after, n);
  }

  lemma {:induction false} FindSegmentCrash(s: seq<byte>, number: byte) returns (c: Crash)
    requires Segment(s, number).Panic? && number in {3, 4}
    ensures Crashing(c, Some(number)) && EncCrash(c) == s
    decreases |s|, 1
  {
    var form, n := SegmentCrashStep(s, number);
    var TagSplit(tag, afterTag) := TagOf(s).value;
    var after := LengthOf(afterTag).value.rest;
    if form.Open? {
      var before, inner := FindWalkCrash(after);
      c := Opened(tag, before, inner);
    } else if |after| < n {
      c := Overlong(tag, form, n, after);
    } else {
      var before, inner := FindFlattenCrash(after[..n], number);
      c := Closed(tag, form, before, inner, after[n..]);
      assert CrashBody(c) == after[..n];
      AssembledClosed(s, c, after, n);
    }
  }

  // ---------- the theorems ----------

  predicate IsCrash(s: seq<byte>, before: seq<Loose>, c: Crash) {
    ReadableAll(before) && Crashing(c, None) && EncLooseAll(before) + EncCrash(c) == s
  }

  // The rewriter slices out of range exactly on readable values followed by a way to a crash.
  lemma CrashesExactly(s: seq<byte>)
    ensures Normal(s).Panic? <==> exists before, c :: IsCrash(s, before, c)
  {
    if Normal(s).Panic? {
      var before, c := FindNormalCrash(s);
      assert IsCrash(s, before, c);
    }
    if before, c :| IsCrash(s, before, c) {
      NormalCrashes(before, c);
    }
  }

  // A crash lies in a constructed string.
  lemma {:induction false} CrashInString(c: Crash)
    requires Crashing(c, None)
    ensures 0x23 in EncCrash(c) || 0x24 in EncCrash(c)
    decreases c
  {
    if c.Closed? && StringNode(c.tag) {
      assert EncCrash(c)[0] == c.tag[0];
    } else {
      CrashInString(c.inner);
      assert forall b :: b in EncCrash(c.inner) ==> b in CrashBody(c);
    }
  }

  // Without a constructed OCTET STRING or BIT STRING identifier no input, however malformed,
  // makes the rewriter slice out of range.
  lemma NormalSafe(s: seq<byte>)
    ensures Normal(s).Panic? ==> 0x23 in s || 0x24 in s
  {
    CrashesExactly(s);
    if before, c :| IsCrash(s, before, c) {
      CrashInString(c);
      assert forall b :: b in EncCrash(c) ==> b in EncLooseAll(before) + EncCrash(c);
    }
  }

  predicate IsStringCrash(s: seq<byte>, number: byte, before: seq<Loose>, c: Crash) {
    ReadableAll(before) && AllSegments(before, number) && Crashing(c, Some(number))
    && EncLooseAll(before) + EncCrash(c) == s
  }

  // And in the contents of a constructed string, exactly on readable segments followed by one.
  lemma StringCrashesExactly(s: seq<byte>, number: byte)
    requires number in {3, 4}
    ensures Flatten(s, number).Panic? <==> exists before, c :: IsStringCrash(s, number, before, c)
  {
    if Flatten(s, number).Panic? {
      var before, c := FindFlattenCrash(s, number);
      assert IsStringCrash(s, number, before, c);
    }
    if before, c :| IsStringCrash(s, number, before, c) {
      FlattenCrashes(before, c, number);
    }
  }

  // A value with a length, taken apart: whatever its contents are.
  lemma DissectsAsWritten(tag: Tag, form: Form, content: seq<byte>, rest: seq<byte>)
    requires TagShape(tag) && !form.Open? && FormFits(form, |content|)
    ensures var r := Dissect(tag + (LengthOctets(form, |content|) + (content + rest)));
            r.Ok? && r.value.tag == tag && r.value.content == content
  {
    ReadsTag(tag, LengthOctets(form, |content|) + (content + rest));
    ReadsLength(form, |content|, content + rest);
    Split(content, rest);
  }

  lemma FollowsParts(s: seq<byte>)
    requires !AtEndOfContents(s) && Dissect(s).Ok?
    ensures var parts := DerParts(Dissect(s).value.tag, Dissect(s).value.content);
            Rewrite(s).Err? == parts.Err? && Rewrite(s).Panic? == parts.Panic?
  {
  }

  // A constructed string with a length crashes exactly if its contents do, in any length form.
  lemma StringValueCrashesExactly(number: byte, form: Form, content: seq<byte>, rest: seq<byte>)
    requires number in {3, 4} && !form.Open? && FormFits(form, |content|)
    ensures Rewrite([number + 32] + (LengthOctets(form, |content|) + (content + rest))).Panic?
       <==> exists before, c :: IsStringCrash(content, number, before, c)
  {
    var s := [number + 32] + (LengthOctets(form, |content|) + (content + rest));
    StringBits(number + 32);
    DissectsAsWritten([number + 32], form, content, rest);
    assert s[0] == number + 32;
    FollowsParts(s);
    assert SegmentNumber(number + 32, content) == Some(number);
    StringCrashesExactly(content, number);
  }

  // ---------- the same mistake elsewhere ----------

  lemma NormalLaterFails(s: seq<byte>)
    requires s != [] && Rewrite(s).Ok? && Normal(s[Rewrite(s).value.octets..]).Err?
    ensures Normal(s).Err?
  {
  }

  lemma {:induction false} NormalThen(before: seq<Loose>, s: seq<byte>)
    requires ReadableAll(before) && Normal(s).Err?
    ensures Normal(EncLooseAll(before) + s).Err?
    decreases |before|
  {
    if before == [] {
      assert EncLooseAll(before) + s == s;
    } else {
      var more := EncLooseAll(before[1..]) + s;
      Assoc(EncLoose(before[0]), EncLooseAll(before[1..]), s);
      RewriteLoose(before[0], more);
      NormalThen(before[1..], s);
      Split(EncLoose(before[0]), more);
      LooseIsLong(before[0]);
      NormalLaterFails(EncLoose(before[0]) + more);
    }
  }

  lemma OverlongFails(c: Crash, number: byte)
    requires c.Overlong? && Crashing(c, Some(number)) && number in {3, 4}
    ensures Normal(EncCrash(c)).Err?
  {
    ReadsTag(c.tag, LengthOctets(c.form, c.announced) + c.left);
    ReadsLength(c.form, c.announced, c.left);
    StartsOtherwise(c.tag, LengthOctets(c.form, c.announced) + c.left, []);
    assert c.tag + ((LengthOctets(c.form, c.announced) + c.left) + []) == EncCrash(c);
    assert Dissect(EncCrash(c)).Err?;
    assert Rewrite(EncCrash(c)).Err?;
  }

  lemma SequenceBits()
    ensures Constructed(0x30) && Class(0x30) == 0 && TagNumber(0x30) == 16
  {
  }

  lemma SequenceParts(content: seq<byte>)
    requires Normal(content).Err?
    ensures DerParts([0x30], content).Err?
  {
    SequenceBits();
    assert SegmentNumber(0x30, content).None?;
  }

  lemma SequenceFails(form: Form, content: seq<byte>)
    requires !form.Open? && FormFits(form, |content|) && Normal(content).Err?
    ensures Normal([0x30] + (LengthOctets(form, |content|) + content)).Err?
  {
    SequenceBits();
    SequenceParts(content);
    assert content + [] == content;
    DissectsAsWritten([0x30], form, content, []);
    FirstFails([0x30] + (LengthOctets(form, |content|) + content));
  }

  lemma FirstFails(s: seq<byte>)
    requires s != [] && s[0] != 0 && Dissect(s).Ok?
    requires DerParts(Dissect(s).value.tag, Dissect(s).value.content).Err?
    ensures Normal(s).Err?
  {
    FollowsParts(s);
  }

  // The string around an overlong segment, as a way to a crash.
  lemma OverlongOuter(before: seq<Loose>, c: Crash, number: byte, form: Form)
    requires number in {3, 4} && Crashing(c, Some(number)) && ReadableAll(before) && AllSegments(before, number)
    requires !form.Open? && FormFits(form, |EncLooseAll(before) + EncCrash(c)|)
    ensures var content := EncLooseAll(before) + EncCrash(c);
            var outer := Closed([number + 32], form, before, c, []);
            Crashing(outer, None) && EncCrash(outer) == [number + 32] + (LengthOctets(form, |content|) + content)
  {
    var content := EncLooseAll(before) + EncCrash(c);
    var outer := Closed([number + 32], form, before, c, []);
    StringBits(number + 32);
    assert TagShape([number + 32]) && StringNode([number + 32]);
    assert CrashBody(outer) == content;
    assert content + [] == content;
  }

  // An overlong segment, after any readable segments and with any length form, aborts the
  // process inside a string. The same octets inside a SEQUENCE are reported to the caller.
  lemma OverlongSegmentPanics(before: seq<Loose>, c: Crash, number: byte, form: Form)
    requires number in {3, 4} && c.Overlong? && Crashing(c, Some(number))
    requires ReadableAll(before) && AllSegments(before, number)
    requires !form.Open? && FormFits(form, |EncLooseAll(before) + EncCrash(c)|)
    ensures var content := EncLooseAll(before) + EncCrash(c);
            var written := LengthOctets(form, |content|) + content;
            Normal([number + 32] + written).Panic? && Normal([0x30] + written).Err?
  {
    var outer := Closed([number + 32], form, before, c, []);
    OverlongOuter(before, c, number, form);
    NormalCrashes([], outer);
    assert EncLooseAll([]) + EncCrash(outer) == EncCrash(outer);
    OverlongFails(c, number);
    NormalThen(before, EncCrash(c));
    SequenceFails(form, EncLooseAll(before) + EncCrash(c));
  }

  // One such segment: 5 octets announced, 1 left.
  lemma FiveOfOne()
    ensures Normal([0x24, 0x03, 0x04, 0x05, 0xAA]).Panic? && Normal([0x30, 0x03, 0x04, 0x05, 0xAA]).Err?
  {
    var c := Overlong([0x04], Short, 5, [0xAA]);
    assert EncCrash(c) == [0x04, 0x05, 0xAA];
    assert EncLooseAll([]) + EncCrash(c) == EncCrash(c);
    OverlongSegmentPanics([], c, 4, Short);
    assert [0x24] + (LengthOctets(Short, 3) + EncCrash(c)) == [0x24, 0x03, 0x04, 0x05, 0xAA];
    assert [0x30] + (LengthOctets(Short, 3) + EncCrash(c)) == [0x30, 0x03, 0x04, 0x05, 0xAA];
  }
}

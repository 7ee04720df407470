/**
 The rewriter looks at no octet beyond the value it rewrites. This is what makes the
 two passes over an indefinite-length value (find the end, then normalise) agree.
 */
module BerLocality {
  import opened Bytes
  import opened BerToDer
  import opened Seqs

  // Two inputs that begin with the same n octets.
  predicate Agree(s: seq<byte>, t: seq<byte>, n: nat) {
    n <= |s| && n <= |t| && s[..n] == t[..n]
  }

  lemma AgreeDrop(s: seq<byte>, t: seq<byte>, n: nat, k: nat)
    requires Agree(s, t, n) && k <= n
    ensures Agree(s[k..], t[k..], n - k) && Agree(s, t, k)
  {
    Shorten(s, t, n, k);
  }

  lemma {:induction false} TagEndLocal(s: seq<byte>, t: seq<byte>, i: nat)
    requires i <= |s| && i <= |t| && TagEnd(s, i) < |s|
    requires TagEnd(s, i) < |t| && forall j :: i <= j <= TagEnd(s, i) ==> s[j] == t[j]
    ensures TagEnd(t, i) == TagEnd(s, i)
    decreases |s| - i
  {
    if s[i] >= 128 {
      TagEndLocal(s, t, i + 1);
    }
  }

  lemma TagLocal(s: seq<byte>, t: seq<byte>, n: nat)
    requires TagOf(s).Ok? && |TagOf(s).value.tag| <= n && Agree(s, t, n)
    ensures TagOf(t).Ok? && TagOf(t).value.tag == TagOf(s).value.tag
    ensures Agree(TagOf(s).value.rest, TagOf(t).value.rest, n - |TagOf(s).value.tag|)
  {
    var k := |TagOf(s).value.tag|;
    AgreeDrop(s, t, n, k);
    assert forall j :: 0 <= j < k ==> s[..k][j] == t[..k][j];
    if TagNumber(s[0]) == 31 {
      TagEndLocal(s, t, 1);
    }
  }

  lemma LengthLocal(s: seq<byte>, t: seq<byte>, n: nat)
    requires LengthOf(s).Ok? && |s| - |LengthOf(s).value.rest| <= n && Agree(s, t, n)
    ensures LengthOf(t).Ok? && LengthOf(t).value.info == LengthOf(s).value.info
    ensures |t| - |LengthOf(t).value.rest| == |s| - |LengthOf(s).value.rest|
    ensures Agree(LengthOf(s).value.rest, LengthOf(t).value.rest, n - (|s| - |LengthOf(s).value.rest|))
  {
    var k := |s| - |LengthOf(s).value.rest|;
    AgreeDrop(s, t, n, k);
    assert s[..k][0] == t[..k][0];
    if s[0] > 128 {
      assert s[1..k] == s[..k][1..] == t[..k][1..] == t[1..k];
    }
  }

  // If the first value of s spans n octets, an input that agrees with s on them has the
  // same first value.
  lemma {:induction false} RewriteAgrees(s: seq<byte>, t: seq<byte>)
    requires Rewrite(s).Ok? && Agree(s, t, Rewrite(s).value.octets)
    ensures Rewrite(t).Ok? && Rewrite(t).value == Rewrite(s).value
    decreases |s|, 1
  {
    SameStart(s, t, Rewrite(s).value.octets);
    if !AtEndOfContents(s) {
      DissectAgrees(s, t);
    }
  }

  lemma SameStart(s: seq<byte>, t: seq<byte>, n: nat)
    requires n >= 2 && Agree(s, t, n)
    ensures AtEndOfContents(s) == AtEndOfContents(t)
  {
    assert s[..n][0] == t[..n][0] && s[..n][1] == t[..n][1];
  }

  lemma {:induction false} DissectAgrees(s: seq<byte>, t: seq<byte>)
    requires Dissect(s).Ok? && Agree(s, t, Dissect(s).value.octets)
    ensures Dissect(t).Ok? && Dissect(t).value == Dissect(s).value
    decreases |s|, 0
  {
    var n := Dissect(s).value.octets;
    var TagSplit(tag, afterTag) := TagOf(s).value;
    TagLocal(s, t, n);
    var afterTag' := TagOf(t).value.rest;
    LengthLocal(afterTag, afterTag', n - |tag|);
    var LengthSplit(info, after) := LengthOf(afterTag).value;
    ExtentAgrees(info, after, LengthOf(afterTag').value.rest);
    DissectIs(s, tag, info, after);
    DissectIs(t, tag, info, LengthOf(afterTag').value.rest);
  }

  lemma {:induction false} ExtentAgrees(info: LengthInfo, s: seq<byte>, t: seq<byte>)
    requires Extent(info, s).Ok? && Agree(s, t, Extent(info, s).value.total)
    ensures Extent(info, t).Ok? && Extent(info, t).value == Extent(info, s).value
    ensures s[..Extent(info, s).value.length] == t[..Extent(info, s).value.length]
    decreases |s|, 3
  {
    AgreeDrop(s, t, Extent(info, s).value.total, Extent(info, s).value.length);
    if info.Indefinite? {
      WalkAgrees(s, t);
    }
  }

  lemma {:induction false} WalkAgrees(s: seq<byte>, t: seq<byte>)
    requires Walk(s).Ok? && Agree(s, t, Walk(s).value)
    ensures Walk(t).Ok? && Walk(t).value == Walk(s).value
    decreases |s|, 2
  {
    var m := Walk(s).value;
    SameStart(s, t, m);
    if !AtEndOfContents(s) {
      var n := Rewrite(s).value.octets;
      AgreeDrop(s, t, m, n);
      RewriteAgrees(s, t);
      WalkAgrees(s[n..], t[n..]);
    }
  }

  // If a value spans n octets, replacing everything after them changes nothing.
  lemma RewriteLocal(s: seq<byte>, t: seq<byte>)
    requires Rewrite(s).Ok?
    ensures var r := Rewrite(s[..Rewrite(s).value.octets] + t);
            r.Ok? && r.value == Rewrite(s).value
  {
    Split(s[..Rewrite(s).value.octets], t);
    RewriteAgrees(s, s[..Rewrite(s).value.octets] + t);
  }

  // What the first pass pushed into its throw-away buffers, in order.
  function Discarded(s: seq<byte>): seq<byte>
    requires Walk(s).Ok?
    decreases |s|
  {
    if AtEndOfContents(s) then []
    else
      var Piece(n, out) := Rewrite(s).value;
      out + Discarded(s[n..])
  }

  lemma DiscardedStep(s: seq<byte>)
    requires !AtEndOfContents(s) && Walk(s).Ok?
    ensures Rewrite(s).Ok?
    ensures var Piece(n, out) := Rewrite(s).value;
            && Walk(s[n..]).Ok? && Walk(s).value == n + Walk(s[n..]).value
            && Discarded(s) == out + Discarded(s[n..])
  {
  }

  lemma NormalStep(s: seq<byte>)
    requires s != [] && Rewrite(s).Ok? && Normal(s[Rewrite(s).value.octets..]).Ok?
    ensures Normal(s).Ok?
    ensures Normal(s).value == Rewrite(s).value.out + Normal(s[Rewrite(s).value.octets..]).value
  {
  }

  // After the first child, the two passes are where they were before it.
  lemma AfterFirst(s: seq<byte>, content: seq<byte>)
    requires !AtEndOfContents(s) && Walk(s).Ok? && Walk(s).value == |content| + 2 && Agree(s, content, |content|)
    ensures Rewrite(s).Ok? && Rewrite(content).Ok? && Rewrite(content).value == Rewrite(s).value
    ensures var n := Rewrite(s).value.octets;
            && n <= |content| && Walk(s[n..]).Ok? && Walk(s[n..]).value == |content[n..]| + 2
            && Agree(s[n..], content[n..], |content[n..]|)
  {
    DiscardedStep(s);
    var n := Rewrite(s).value.octets;
    AgreeDrop(s, content, |content|, n);
    RewriteAgrees(s, content);
  }

  lemma WithFirst(s: seq<byte>, content: seq<byte>)
    requires !AtEndOfContents(s) && Walk(s).Ok? && content != []
    requires Rewrite(content).Ok? && Rewrite(content) == Rewrite(s)
    requires Normal(content[Rewrite(s).value.octets..]).Ok?
    requires Walk(s[Rewrite(s).value.octets..]).Ok?
    requires Normal(content[Rewrite(s).value.octets..]).value == Discarded(s[Rewrite(s).value.octets..])
    ensures Normal(content).Ok? && Normal(content).value == Discarded(s)
  {
    DiscardedStep(s);
    NormalStep(content);
  }

  // The second pass splits the contents into the same children as the first, cannot
  // fail, and produces exactly what the first pass threw away.
  lemma {:induction false} TwoPassesAgree(s: seq<byte>, content: seq<byte>)
    requires Walk(s).Ok? && Walk(s).value == |content| + 2 && Agree(s, content, |content|)
    ensures Normal(content).Ok? && Normal(content).value == Discarded(s)
    decreases |s|
  {
    if AtEndOfContents(s) {
      assert content == [];
    } else {
      AfterFirst(s, content);
      var n := Rewrite(s).value.octets;
      TwoPassesAgree(s[n..], content[n..]);
      WithFirst(s, content);
    }
  }

  // Once the end of an indefinite-length value is found, normalising its contents succeeds,
  // and emits exactly what the search for the end threw away.
  lemma SecondPassSucceeds(tag: seq<byte>, after: seq<byte>)
    requires tag != [] && Constructed(tag[0]) && Walk(after).Ok?
    requires SegmentNumber(tag[0], after[..Walk(after).value - 2]).None?
    ensures var r := Emit(tag, after[..Walk(after).value - 2]);
            r.Ok? && r.value == Value(tag, Discarded(after))
  {
    var content := after[..Walk(after).value - 2];
    TwoPassesAgree(after, content);
    var parts := DerParts(tag, content);
    assert parts.Ok? && parts.value == Parts(tag, Discarded(after));
  }
}

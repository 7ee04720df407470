/**
 DER as one of the BER encodings: its lengths are the shortest, and the rewriter computes the
 canonical value of what it encodes, which is never longer.
 */
module BerFixedPoint {
  import opened Bytes
  import opened Seqs
  import opened BerToDer
  import opened BerTheory
  import opened BerEncodings

  // ---------- length octets ----------

  function DerForm(n: nat): Form {
    if n < 128 then Short else Long(|Be(n)|)
  }

  lemma {:induction false} FixedBeIsBe(n: nat)
    ensures FixedBe(n, |Be(n)|) == Be(n)
  {
    if n > 0 {
      FixedBeIsBe(n / 256);
    }
  }

  lemma DerFormFits(n: nat)
    requires n < U64_RANGE
    ensures FormFits(DerForm(n), n) && LengthOctets(DerForm(n), n) == DerLength(n)
  {
    U64InEightBytes(n);
    BeLength(n, |Be(n)|);
    FixedBeIsBe(n);
  }

  // The length octets written for n are read back as n.
  lemma DerLengthRoundTrip(n: nat, rest: seq<byte>)
    requires n < U64_RANGE
    ensures var r := LengthOf(DerLength(n) + rest);
            r.Ok? && r.value == LengthSplit(Definite(n), rest)
  {
    DerFormFits(n);
    ReadsLength(DerForm(n), n, rest);
  }

  // No accepted definite encoding of n is shorter.
  lemma DerLengthShortest(s: seq<byte>)
    requires LengthOf(s).Ok? && LengthOf(s).value.info.Definite?
    ensures var LengthSplit(info, rest) := LengthOf(s).value;
            info.length < U64_RANGE && |DerLength(info.length)| <= |s| - |rest|
  {
    var LengthSplit(info, rest) := LengthOf(s).value;
    if s[0] >= 128 {
      var octets := s[1..|s| - |rest|];
      FromBeBound(octets);
      BeLength(info.length, |octets|);
    }
    U64InEightBytes(info.length);
  }

  lemma {:induction false} DerLengthMonotone(m: nat, n: nat)
    requires m <= n
    ensures |DerLength(m)| <= |DerLength(n)|
  {
    BeLength(n, |Be(n)|);
    BeLength(m, |Be(n)|);
  }

  // ---------- DER as one of the BER encodings ----------

  function AsDer(t: Tlv): Ber
    decreases t, 1
  {
    match t
    case Leaf(tag, content) => Prim(tag, content, DerForm(|content|))
    case Node(tag, kids) => Cons(tag, AsDerAll(kids), DerForm(|EncDerAll(kids)|))
  }

  function AsDerAll(ts: seq<Tlv>): (r: seq<Ber>)
    ensures |r| == |ts|
    decreases ts, 0
  {
    if ts == [] then [] else [AsDer(ts[0])] + AsDerAll(ts[1..])
  }

  predicate ValidTlv(t: Tlv)
    decreases t, 1
  {
    match t
    case Leaf(tag, _) => ValidTag(tag, false)
    case Node(tag, kids) =>
      ValidTag(tag, true) && ValidTlvAll(kids) &&
      (StringNode(tag) ==> forall i :: 0 <= i < |kids| ==> SegmentTag(kids[i].tag, tag[0] - 32))
  }

  predicate ValidTlvAll(ts: seq<Tlv>)
    decreases ts, 0
  {
    ts == [] || (ValidTlv(ts[0]) && ValidTlvAll(ts[1..]))
  }

  lemma {:induction false} AsDerTags(ts: seq<Tlv>)
    ensures forall i :: 0 <= i < |ts| ==> AsDerAll(ts)[i].tag == ts[i].tag
  {
    if ts != [] {
      AsDerTags(ts[1..]);
      forall i | 0 <= i < |ts| ensures AsDerAll(ts)[i].tag == ts[i].tag {
        if i > 0 {
          assert AsDerAll(ts)[i] == AsDerAll(ts[1..])[i - 1];
        }
      }
    }
  }

  lemma {:induction false} AsDerIsDer(t: Tlv)
    requires ValidTlv(t) && |EncDer(t)| < U64_RANGE
    ensures Valid(AsDer(t)) && Erase(AsDer(t)) == t && EncBer(AsDer(t)) == EncDer(t)
    decreases t, 1
  {
    var b := AsDer(t);
    DerFormFits(|DerBody(t)|);
    match t {
      case Leaf(_, _) =>
      case Node(tag, kids) =>
        AsDerAllIsDer(kids);
        AsDerTags(kids);
    }
    assert Body(b) == DerBody(t) && b.form == DerForm(|DerBody(t)|) && !b.form.Open?;
    assert Body(b) + EndMarker(b.form) == Body(b);
    Assoc(t.tag, DerLength(|DerBody(t)|), DerBody(t));
  }

  lemma {:induction false} AsDerAllIsDer(ts: seq<Tlv>)
    requires ValidTlvAll(ts) && |EncDerAll(ts)| < U64_RANGE
    ensures ValidAll(AsDerAll(ts)) && EraseAll(AsDerAll(ts)) == ts && EncBerAll(AsDerAll(ts)) == EncDerAll(ts)
    decreases ts, 0
  {
    if ts != [] {
      AsDerIsDer(ts[0]);
      AsDerAllIsDer(ts[1..]);
      assert AsDerAll(ts)[1..] == AsDerAll(ts[1..]);
    }
  }

  // On DER input the rewriter computes the canonical value.
  lemma NormalDer(ts: seq<Tlv>)
    requires ValidTlvAll(ts) && |EncDerAll(ts)| < U64_RANGE
    ensures Normal(EncDerAll(ts)).Ok?
    ensures Normal(EncDerAll(ts)).value == EncDerAll(CanonAll(ts))
  {
    AsDerAllIsDer(ts);
    NormalEnc(AsDerAll(ts));
  }

  // ---------- sizes ----------

  // Canonical values are no longer than the values they come from.
  lemma {:induction false} ContentsShrink(ts: seq<Tlv>)
    ensures |Contents(ts)| <= |EncDerAll(ts)|
    decreases ts, 0
  {
    if ts != [] {
      ContentShrinks(ts[0]);
      ContentsShrink(ts[1..]);
    }
  }

  lemma {:induction false} ContentShrinks(t: Tlv)
    ensures |ContentOf(t)| <= |DerBody(t)|
    decreases t, 1
  {
    if t.Node? {
      ContentsShrink(t.kids);
    }
  }

  lemma {:induction false} CanonShrinks(t: Tlv)
    ensures |EncDer(Canon(t))| <= |EncDer(t)|
    decreases t, 1
  {
    if t.Node? {
      if Flattens(t.tag, t.kids) {
        ContentsShrink(t.kids);
      } else {
        CanonAllShrinks(t.kids);
      }
      DerLengthMonotone(|DerBody(Canon(t))|, |DerBody(t)|);
    }
  }

  lemma {:induction false} CanonAllShrinks(ts: seq<Tlv>)
    ensures |EncDerAll(CanonAll(ts))| <= |EncDerAll(ts)|
    decreases ts, 0
  {
    if ts != [] {
      CanonShrinks(ts[0]);
      CanonAllShrinks(ts[1..]);
      assert CanonAll(ts)[1..] == CanonAll(ts[1..]);
    }
  }

  // Two values with one identifier agree on a prefix only if their contents agree.
  lemma SameContents(tag: seq<byte>, a: seq<byte>, b: seq<byte>, x: seq<byte>, y: seq<byte>)
    requires |a| < U64_RANGE && |b| < U64_RANGE
    requires Value(tag, a) + x == Value(tag, b) + y
    ensures a == b
  {
    Assoc(tag + DerLength(|a|), a, x);
    Assoc(tag + DerLength(|b|), b, y);
    Assoc(tag, DerLength(|a|), a + x);
    Assoc(tag, DerLength(|b|), b + y);
    Split(tag, DerLength(|a|) + (a + x));
    Split(tag, DerLength(|b|) + (b + y));
    DerLengthRoundTrip(|a|, a + x);
    DerLengthRoundTrip(|b|, b + y);
    Split(a, x);
    Split(b, y);
  }
}

/**
 BIT STRINGs. ITU-T X.690, section 8.6.4, joins the bits of the segments, whose first octets
 count unused bits, and section 11.2.1 has the unused bits set to zero in DER. The rewriter
 joins the octets, those counts included, and clears no bit.
 */
module BerBitStrings {
  import opened Bytes
  import opened Seqs
  import opened Wrappers
  import opened BerToDer
  import opened BerTheory
  import opened BerEncodings
  import opened BerFixedPoint
  import opened BerIdempotence

  // ---------- segments ----------

  // The primitive segments of a string, in order, however they are nested.
  function Segments(ts: seq<Tlv>): seq<seq<byte>>
    decreases ts, 0
  {
    if ts == [] then [] else SegmentsOf(ts[0]) + Segments(ts[1..])
  }

  function SegmentsOf(t: Tlv): seq<seq<byte>>
    decreases t, 1
  {
    match t
    case Leaf(_, content) => [content]
    case Node(_, kids) => Segments(kids)
  }

  function Joined(ss: seq<seq<byte>>): seq<byte> {
    if ss == [] then [] else ss[0] + Joined(ss[1..])
  }

  // A segment: the number of unused bits in its last octet, and its octets (section 8.6.2).
  predicate BitSegment(s: seq<byte>) { s != [] && s[0] <= 7 && (|s| == 1 ==> s[0] == 0) }

  // The segments of one string: only the last may have unused bits (section 8.6.4).
  predicate BitSegments(ss: seq<seq<byte>>) {
    forall i :: 0 <= i < |ss| ==> BitSegment(ss[i]) && (i < |ss| - 1 ==> ss[i][0] == 0)
  }

  function JoinedBits(ss: seq<seq<byte>>): seq<byte>
    requires BitSegments(ss)
  {
    if ss == [] then [] else ss[0][1..] + JoinedBits(ss[1..])
  }

  // The value of the last bit in use, by the number of unused bits.
  const UNITS: seq<nat> := [1, 2, 4, 8, 16, 32, 64, 128]

  // The last octet with its unused bits set to zero (section 11.2.1).
  function Cleared(bits: seq<byte>, unused: byte): (r: seq<byte>)
    requires unused <= 7
    ensures |r| == |bits|
  {
    if bits == [] then []
    else bits[..|bits| - 1] + [bits[|bits| - 1] - bits[|bits| - 1] % UNITS[unused]]
  }

  // The standard's contents in DER: the unused bits of the last segment, then the bits of all.
  function StandardBits(ss: seq<seq<byte>>): seq<byte>
    requires BitSegments(ss)
  {
    if ss == [] then [0]
    else
      var unused := ss[|ss| - 1][0];
      [unused] + Cleared(JoinedBits(ss), unused)
  }

  // One segment whose unused bits are zero.
  predicate PlainBits(ss: seq<seq<byte>>)
    requires BitSegments(ss)
  {
    |ss| == 1 && (|ss[0]| > 1 ==> ss[0][|ss[0]| - 1] % UNITS[ss[0][0]] == 0)
  }

  lemma {:induction false} JoinedConcat(ss: seq<seq<byte>>, rs: seq<seq<byte>>)
    ensures Joined(ss + rs) == Joined(ss) + Joined(rs)
  {
    if ss == [] {
      assert ss + rs == rs;
    } else {
      assert (ss + rs)[1..] == ss[1..] + rs;
      JoinedConcat(ss[1..], rs);
      Assoc(ss[0], Joined(ss[1..]), Joined(rs));
    }
  }

  // What the rewriter writes is the segments joined.
  lemma {:induction false} ContentsAreJoined(ts: seq<Tlv>)
    ensures Contents(ts) == Joined(Segments(ts))
    decreases ts, 0
  {
    if ts != [] {
      ContentIsJoined(ts[0]);
      ContentsAreJoined(ts[1..]);
      JoinedConcat(SegmentsOf(ts[0]), Segments(ts[1..]));
    }
  }

  lemma {:induction false} ContentIsJoined(t: Tlv)
    ensures ContentOf(t) == Joined(SegmentsOf(t))
    decreases t, 1
  {
    match t {
      case Leaf(_, content) =>
        assert [content][1..] == [];
        assert content + [] == content;
      case Node(_, kids) => ContentsAreJoined(kids);
    }
  }

  lemma {:induction false} CountsAreExtra(ss: seq<seq<byte>>)
    requires BitSegments(ss)
    ensures |Joined(ss)| == |JoinedBits(ss)| + |ss|
  {
    if ss != [] {
      CountsAreExtra(ss[1..]);
    }
  }

  lemma ClearedStays(bits: seq<byte>, unused: byte)
    requires unused <= 7
    ensures Cleared(bits, unused) == bits <==> (bits != [] ==> bits[|bits| - 1] % UNITS[unused] == 0)
  {
    if bits != [] {
      var n := |bits| - 1;
      assert bits == bits[..n] + [bits[n]];
      assert Cleared(bits, unused)[n] == bits[n] - bits[n] % UNITS[unused];
    }
  }

  lemma JoinedOne(s: seq<byte>)
    ensures Joined([s]) == s
    ensures BitSegment(s) ==> JoinedBits([s]) == s[1..]
  {
    assert [s][1..] == [];
    assert Joined([s]) == s + [] == s;
    if BitSegment(s) {
      assert JoinedBits([s]) == s[1..] + [] == s[1..];
    }
  }

  lemma OneAsStandard(s: seq<byte>)
    requires BitSegment(s)
    ensures s == [s[0]] + Cleared(s[1..], s[0]) <==> PlainBits([s])
  {
    HeadTail(s);
    ClearedStays(s[1..], s[0]);
    Split([s[0]], s[1..]);
    Split([s[0]], Cleared(s[1..], s[0]));
  }

  // The two agree exactly on a single segment whose unused bits are zero.
  lemma JoinedAsStandard(ss: seq<seq<byte>>)
    requires BitSegments(ss)
    ensures Joined(ss) == StandardBits(ss) <==> PlainBits(ss)
  {
    if |ss| == 1 {
      assert ss == [ss[0]];
      JoinedOne(ss[0]);
      OneAsStandard(ss[0]);
    } else {
      CountsAreExtra(ss);
    }
  }

  // ---------- whole values ----------

  // The segments of a BIT STRING, primitive or constructed.
  function BitString(t: Tlv): Option<seq<seq<byte>>> {
    if t.tag[0] == (if t.Leaf? then 0x03 else 0x23) then Some(SegmentsOf(t)) else None
  }

  // Every BIT STRING that is rewritten has a value in the standard.
  predicate BitsDefined(t: Tlv)
    decreases t, 1
  {
    if BitString(t).Some? then BitSegments(BitString(t).value)
    else t.Node? && !Flattens(t.tag, t.kids) ==> BitsDefinedAll(t.kids)
  }

  predicate BitsDefinedAll(ts: seq<Tlv>)
    decreases ts, 0
  {
    ts == [] || (BitsDefined(ts[0]) && BitsDefinedAll(ts[1..]))
  }

  // Every BIT STRING that is rewritten has one segment, whose unused bits are zero.
  predicate BitsPlain(t: Tlv)
    requires BitsDefined(t)
    decreases t, 1
  {
    if BitString(t).Some? then PlainBits(BitString(t).value)
    else t.Node? && !Flattens(t.tag, t.kids) ==> BitsPlainAll(t.kids)
  }

  predicate BitsPlainAll(ts: seq<Tlv>)
    requires BitsDefinedAll(ts)
    decreases ts, 0
  {
    ts == [] || (BitsPlain(ts[0]) && BitsPlainAll(ts[1..]))
  }

  // The canonical value with BIT STRINGs as the standard has them.
  function Standard(t: Tlv): Tlv
    requires BitsDefined(t)
    decreases t, 1
  {
    if BitString(t).Some? then Leaf(Canon(t).tag, StandardBits(BitString(t).value))
    else if t.Node? && !Flattens(t.tag, t.kids) then Node(t.tag, StandardAll(t.kids))
    else Canon(t)
  }

  function StandardAll(ts: seq<Tlv>): seq<Tlv>
    requires BitsDefinedAll(ts)
    decreases ts, 0
  {
    if ts == [] then [] else [Standard(ts[0])] + StandardAll(ts[1..])
  }

  lemma BitStringCanon(t: Tlv)
    requires BitString(t).Some?
    ensures Canon(t) == Leaf(Canon(t).tag, Joined(BitString(t).value))
  {
    if t.Node? {
      ContentsAreJoined(t.kids);
    } else {
      JoinedOne(t.content);
    }
  }

  lemma {:induction false} PlainIsStandard(t: Tlv)
    requires BitsDefined(t) && BitsPlain(t)
    ensures Standard(t) == Canon(t)
    decreases t, 1
  {
    if BitString(t).Some? {
      BitStringCanon(t);
      JoinedAsStandard(BitString(t).value);
    } else if t.Node? && !Flattens(t.tag, t.kids) {
      AllPlainIsStandard(t.kids);
    }
  }

  lemma {:induction false} AllPlainIsStandard(ts: seq<Tlv>)
    requires BitsDefinedAll(ts) && BitsPlainAll(ts)
    ensures StandardAll(ts) == CanonAll(ts)
    decreases ts, 0
  {
    if ts != [] {
      PlainIsStandard(ts[0]);
      AllPlainIsStandard(ts[1..]);
    }
  }

  // Anything else shows in the octets, wherever the string is.
  lemma {:induction false} OthersDiffer(t: Tlv, x: seq<byte>, y: seq<byte>)
    requires BitsDefined(t) && !BitsPlain(t)
    requires |EncDer(Canon(t))| < U64_RANGE && |EncDer(Standard(t))| < U64_RANGE
    ensures EncDer(Canon(t)) + x != EncDer(Standard(t)) + y
    decreases t, 1
  {
    if BitString(t).Some? {
      BitStringCanon(t);
      JoinedAsStandard(BitString(t).value);
    } else {
      OthersDifferIn(t.kids);
    }
    if EncDer(Canon(t)) + x == EncDer(Standard(t)) + y {
      SameContents(Canon(t).tag, DerBody(Canon(t)), DerBody(Standard(t)), x, y);
    }
  }

  lemma {:induction false} OthersDifferIn(ts: seq<Tlv>)
    requires BitsDefinedAll(ts) && !BitsPlainAll(ts)
    requires |EncDerAll(CanonAll(ts))| < U64_RANGE && |EncDerAll(StandardAll(ts))| < U64_RANGE
    ensures EncDerAll(CanonAll(ts)) != EncDerAll(StandardAll(ts))
    decreases ts, 0
  {
    var x, y := EncDerAll(CanonAll(ts[1..])), EncDerAll(StandardAll(ts[1..]));
    assert CanonAll(ts)[1..] == CanonAll(ts[1..]);
    assert StandardAll(ts)[1..] == StandardAll(ts[1..]);
    if !BitsPlain(ts[0]) {
      OthersDiffer(ts[0], x, y);
    } else {
      PlainIsStandard(ts[0]);
      OthersDifferIn(ts[1..]);
      Split(EncDer(Canon(ts[0])), x);
      Split(EncDer(Canon(ts[0])), y);
    }
  }

  // The rewriter writes BIT STRINGs as DER has them exactly when each, primitive or constructed
  // and nested or not, has one segment whose unused bits are zero.
  lemma StandardExactly(bs: seq<Ber>)
    requires ValidAll(bs) && BitsDefinedAll(EraseAll(bs))
    requires |EncDerAll(CanonAll(EraseAll(bs)))| < U64_RANGE && |EncDerAll(StandardAll(EraseAll(bs)))| < U64_RANGE
    ensures Normal(EncBerAll(bs)).Ok?
    ensures Normal(EncBerAll(bs)).value == EncDerAll(StandardAll(EraseAll(bs))) <==> BitsPlainAll(EraseAll(bs))
  {
    NormalEnc(bs);
    if BitsPlainAll(EraseAll(bs)) {
      AllPlainIsStandard(EraseAll(bs));
    } else {
      OthersDifferIn(EraseAll(bs));
    }
  }

  // ---------- two inputs ----------

  const FIRST: Ber := Prim([0x03], [0x00, 0xAA], Short)
  const SECOND: Ber := Prim([0x03], [0x04, 0xB0], Short)
  const WHOLE: Ber := Cons([0x23], [FIRST, SECOND], Short)

  lemma TwoSegments()
    ensures EncBer(FIRST) == [0x03, 0x02, 0x00, 0xAA] && EncBer(SECOND) == [0x03, 0x02, 0x04, 0xB0]
    ensures EncBerAll([FIRST, SECOND]) == [0x03, 0x02, 0x00, 0xAA, 0x03, 0x02, 0x04, 0xB0]
    ensures ValidAll([FIRST, SECOND])
  {
    assert [FIRST, SECOND][1..] == [SECOND];
    OnlyKid(SECOND);
    assert EncBerAll([FIRST, SECOND]) == EncBer(FIRST) + EncBerAll([SECOND]);
  }

  lemma TwoErased()
    ensures Canon(Erase(WHOLE)) == Leaf([3], [0x00, 0xAA, 0x04, 0xB0])
  {
    assert [FIRST, SECOND][1..] == [SECOND];
    OnlyKid(SECOND);
    var kids := [Erase(FIRST), Erase(SECOND)];
    assert EraseAll([FIRST, SECOND]) == kids && kids[1..] == [Erase(SECOND)];
    OnlyValue(Erase(SECOND));
    assert Contents(kids) == ContentOf(kids[0]) + Contents(kids[1..]);
  }

  lemma WholeString()
    ensures Valid(WHOLE) && EncBer(WHOLE) == [0x23, 0x08, 0x03, 0x02, 0x00, 0xAA, 0x03, 0x02, 0x04, 0xB0]
  {
    TwoSegments();
    assert ValidTag([0x23], true);
  }

  // Two segments of 8 and 4 bits: the standard's 12 bits are 0xAA and 0xB with 4 unused. The
  // rewriter yields 24, with the second count among them.
  lemma BitStringsMisjoined()
    ensures var r := Normal([0x23, 0x08, 0x03, 0x02, 0x00, 0xAA, 0x03, 0x02, 0x04, 0xB0]);
            r.Ok? && r.value == [0x03, 0x04, 0x00, 0xAA, 0x04, 0xB0]
    ensures var ss := [[0x00, 0xAA], [0x04, 0xB0]];
            BitSegments(ss) && Value([3], StandardBits(ss)) == [0x03, 0x03, 0x04, 0xAA, 0xB0]
  {
    WholeString();
    TwoErased();
    NormalOne(WHOLE);
    TwoStandard();
  }

  lemma TwoStandard()
    ensures var ss := [[0x00, 0xAA], [0x04, 0xB0]];
            BitSegments(ss) && Value([3], StandardBits(ss)) == [0x03, 0x03, 0x04, 0xAA, 0xB0]
  {
    var ss: seq<seq<byte>> := [[0x00, 0xAA], [0x04, 0xB0]];
    assert ss[1..] == [[0x04, 0xB0]];
    JoinedOne([0x04, 0xB0]);
    assert JoinedBits(ss) == [0xAA, 0xB0];
    assert Cleared([0xAA, 0xB0], 4) == [0xAA, 0xB0];
  }

  const UNCLEARED: Ber := Prim([0x03], [0x04, 0xBF], Short)

  lemma UnclearedFacts()
    ensures Valid(UNCLEARED) && EncBer(UNCLEARED) == [0x03, 0x02, 0x04, 0xBF]
    ensures Canon(Erase(Around(0x23, UNCLEARED))) == Leaf([0x03], [0x04, 0xBF])
  {
    assert EncBer(UNCLEARED) == [0x03] + ([0x02] + ([0x04, 0xBF] + []));
    AroundFacts(0x23, UNCLEARED);
    OnlyValue(Erase(UNCLEARED));
  }

  // One segment of 4 bits whose unused bits are set: the standard clears them.
  lemma UnusedBitsStay()
    ensures var r := Normal([0x23, 0x04, 0x03, 0x02, 0x04, 0xBF]);
            r.Ok? && r.value == [0x03, 0x02, 0x04, 0xBF]
    ensures BitSegments([[0x04, 0xBF]]) && Value([3], StandardBits([[0x04, 0xBF]])) == [0x03, 0x02, 0x04, 0xB0]
  {
    UnclearedFacts();
    AroundFacts(0x23, UNCLEARED);
    assert EncBer(Around(0x23, UNCLEARED)) == [0x23, 0x04, 0x03, 0x02, 0x04, 0xBF];
    NormalOne(Around(0x23, UNCLEARED));
    assert EncDer(Leaf([0x03], [0x04, 0xBF])) == [0x03, 0x02, 0x04, 0xBF];
    OneStandard();
  }

  lemma OneStandard()
    ensures BitSegments([[0x04, 0xBF]]) && Value([3], StandardBits([[0x04, 0xBF]])) == [0x03, 0x02, 0x04, 0xB0]
  {
    JoinedOne([0x04, 0xBF]);
    assert Cleared([0xBF], 4) == [0xB0];
  }
}

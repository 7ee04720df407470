/**
 Running the rewriter on its own output, and the limits of what it promises: each lemma
 named after a failure gives an input, and the lemma beside it says exactly when it fails.
 */
module BerIdempotence {
  import opened Bytes
  import opened Seqs
  import opened BerToDer
  import opened BerTheory
  import opened BerGrammar
  import opened BerEncodings
  import opened BerFixedPoint
  import opened BerStable

  // ---------- are the rewritten values well-formed? ----------

  // Every value taken for a segmented string has a one-octet identifier.
  predicate LowTags(v: Loose)
    decreases v, 1
  {
    v.Compound? ==> if LooseFlattens(v.tag, v.kids) then |v.tag| == 1 else LowTagsAll(v.kids)
  }

  predicate LowTagsAll(vs: seq<Loose>)
    decreases vs, 0
  {
    vs == [] || (LowTags(vs[0]) && LowTagsAll(vs[1..]))
  }

  lemma ClearedLead(tag: Tag, kids: seq<Loose>)
    requires TagShape(tag) && Constructed(tag[0]) && LooseFlattens(tag, kids)
    ensures TagShape([ClearConstructed(tag[0])]) <==> |tag| == 1
    ensures !Constructed(ClearConstructed(tag[0])) && ClearConstructed(tag[0]) != 0
  {
  }

  // A flattened value keeps only the first identifier octet, so what is written for an accepted
  // input is well-formed exactly when no flattened value has more of them.
  lemma {:induction false} CanonWellFormed(v: Loose)
    requires Readable(v) && !v.Marker?
    ensures Shaped(CanonLoose(v)) <==> LowTags(v)
    decreases v, 1
  {
    if v.Compound? {
      if LooseFlattens(v.tag, v.kids) {
        ClearedLead(v.tag, v.kids);
      } else {
        CanonAllWellFormed(v.kids);
      }
    }
  }

  lemma {:induction false} CanonAllWellFormed(vs: seq<Loose>)
    requires ReadableAll(vs)
    ensures ShapedAll(CanonLooseAll(vs)) <==> LowTagsAll(vs)
    decreases vs, 0
  {
    if vs != [] {
      CanonAllWellFormed(vs[1..]);
      if !vs[0].Marker? {
        CanonWellFormed(vs[0]);
        assert CanonLooseAll(vs)[1..] == CanonLooseAll(vs[1..]);
      }
    }
  }

  // ---------- idempotence ----------

  // Will this be a primitive OCTET STRING after one run, or leave no trace?
  predicate Emerges(v: Loose) {
    v.Marker? || v.tag[0] == (if v.Compound? then 0x24 else 4)
  }

  predicate AllMarkers(vs: seq<Loose>) {
    forall i :: 0 <= i < |vs| ==> vs[i].Marker?
  }

  predicate AllEmerge(vs: seq<Loose>) {
    forall i :: 0 <= i < |vs| ==> Emerges(vs[i])
  }

  // A context-specific value that is kept, but holds nothing but OCTET STRINGs after one run:
  // only the second run will see them as segments.
  predicate TakenLater(tag: Tag, kids: seq<Loose>) {
    Class(tag[0]) == 2 && !AllMarkers(kids) && AllEmerge(kids)
  }

  // Nothing is taken for a string only later, and nothing will look like an end marker.
  predicate Quiet(v: Loose)
    decreases v, 1
  {
    match v
    case Marker => true
    case Simple(tag, content, _) => tag[0] == 0 ==> content != []
    case SimpleOpen(tag, kids) => tag[0] == 0 ==> kids != []
    case Compound(tag, kids, _) => LooseFlattens(tag, kids) || (!TakenLater(tag, kids) && QuietAll(kids))
  }

  predicate QuietAll(vs: seq<Loose>)
    decreases vs, 0
  {
    vs == [] || (Quiet(vs[0]) && QuietAll(vs[1..]))
  }

  lemma EmergesAsLeaf(v: Loose)
    requires Readable(v) && !v.Marker?
    ensures OctetStringLeaf(CanonLoose(v)) <==> Emerges(v)
  {
  }

  lemma {:induction false} AllEmergeAsLeaves(vs: seq<Loose>)
    requires ReadableAll(vs)
    ensures AllOctetStringLeaves(CanonLooseAll(vs)) <==> AllEmerge(vs)
    ensures CanonLooseAll(vs) == [] <==> AllMarkers(vs)
  {
    if vs != [] {
      var v, rest := vs[0], vs[1..];
      AllEmergeAsLeaves(rest);
      assert vs == [v] + rest && forall i :: 0 <= i < |rest| ==> rest[i] == vs[i + 1];
      assert AllEmerge(vs) <==> Emerges(v) && AllEmerge(rest);
      if !v.Marker? {
        EmergesAsLeaf(v);
        var ts, us := CanonLooseAll(vs), CanonLooseAll(rest);
        assert ts[0] == CanonLoose(v) && forall i :: 0 <= i < |us| ==> us[i] == ts[i + 1];
        assert AllOctetStringLeaves(ts) <==> OctetStringLeaf(ts[0]) && AllOctetStringLeaves(us);
      }
    }
  }

  lemma FlattensLater(tag: Tag, kids: seq<Loose>)
    requires ReadableAll(kids) && !LooseFlattens(tag, kids)
    ensures Flattens(tag, CanonLooseAll(kids)) <==> TakenLater(tag, kids)
  {
    AllEmergeAsLeaves(kids);
  }

  lemma {:induction false} CanonSettles(v: Loose)
    requires Readable(v) && !v.Marker? && LowTags(v)
    ensures Plain(CanonLoose(v)) && Settled(CanonLoose(v)) <==> Quiet(v)
    decreases v, 1
  {
    match v {
      case Simple(_, _, _) =>
      case SimpleOpen(_, kids) => NotEmpty(kids);
      case Compound(tag, kids, _) =>
        if LooseFlattens(tag, kids) {
          ClearedLead(tag, kids);
        } else {
          FlattensLater(tag, kids);
          CanonAllSettles(kids);
        }
    }
  }

  lemma NotEmpty(vs: seq<Loose>)
    ensures EncLooseAll(vs) == [] <==> vs == []
  {
    if vs != [] {
      LooseIsLong(vs[0]);
    }
  }

  lemma {:induction false} CanonAllSettles(vs: seq<Loose>)
    requires ReadableAll(vs) && LowTagsAll(vs)
    ensures PlainAll(CanonLooseAll(vs)) && SettledAll(CanonLooseAll(vs)) <==> QuietAll(vs)
    decreases vs, 0
  {
    if vs != [] {
      CanonAllSettles(vs[1..]);
      if !vs[0].Marker? {
        CanonSettles(vs[0]);
        assert CanonLooseAll(vs)[1..] == CanonLooseAll(vs[1..]);
      }
    }
  }

  // ---------- the second run succeeds ----------

  // What is written, as it will be read: an empty value with identifier 0 is an end marker.
  function Reread(t: Tlv): Loose
    decreases t, 1
  {
    match t
    case Leaf(tag, content) => if tag == [0] && content == [] then Marker else Simple(tag, content, DerForm(|content|))
    case Node(tag, kids) => Compound(tag, RereadAll(kids), DerForm(|EncDerAll(kids)|))
  }

  function RereadAll(ts: seq<Tlv>): seq<Loose>
    decreases ts, 0
  {
    if ts == [] then [] else [Reread(ts[0])] + RereadAll(ts[1..])
  }

  // Constructed strings are flattened wherever they are.
  predicate NoStrings(t: Tlv)
    decreases t, 1
  {
    t.Node? ==> !StringNode(t.tag) && NoStringsIn(t.kids)
  }

  predicate NoStringsIn(ts: seq<Tlv>)
    decreases ts, 0
  {
    ts == [] || (NoStrings(ts[0]) && NoStringsIn(ts[1..]))
  }

  lemma {:induction false} CanonHasNone(v: Loose)
    requires !v.Marker?
    ensures NoStrings(CanonLoose(v))
    decreases v, 1
  {
    if v.Compound? && !LooseFlattens(v.tag, v.kids) {
      CanonAllHaveNone(v.kids);
    }
  }

  lemma {:induction false} CanonAllHaveNone(vs: seq<Loose>)
    ensures NoStringsIn(CanonLooseAll(vs))
    decreases vs, 0
  {
    if vs != [] {
      CanonAllHaveNone(vs[1..]);
      if !vs[0].Marker? {
        CanonHasNone(vs[0]);
        assert CanonLooseAll(vs)[1..] == CanonLooseAll(vs[1..]);
      }
    }
  }

  lemma {:induction false} RereadReads(t: Tlv)
    requires Shaped(t) && NoStrings(t) && |EncDer(t)| < U64_RANGE
    ensures Readable(Reread(t)) && EncLoose(Reread(t)) == EncDer(t)
    decreases t, 1
  {
    DerFormFits(|DerBody(t)|);
    if t.Node? {
      RereadAllReads(t.kids);
    }
    Assoc(t.tag, DerLength(|DerBody(t)|), DerBody(t));
    assert DerBody(t) + [] == DerBody(t);
  }

  lemma {:induction false} RereadAllReads(ts: seq<Tlv>)
    requires ShapedAll(ts) && NoStringsIn(ts) && |EncDerAll(ts)| < U64_RANGE
    ensures ReadableAll(RereadAll(ts)) && EncLooseAll(RereadAll(ts)) == EncDerAll(ts)
    decreases ts, 0
  {
    if ts != [] {
      RereadReads(ts[0]);
      RereadAllReads(ts[1..]);
      assert RereadAll(ts)[1..] == RereadAll(ts[1..]);
    }
  }

  // A second run succeeds, and changes nothing exactly if the forest was quiet.
  lemma Idempotent(vs: seq<Loose>)
    requires ReadableAll(vs) && LowTagsAll(vs) && |EncDerAll(CanonLooseAll(vs))| < U64_RANGE
    ensures Normal(EncLooseAll(vs)).Ok? && Normal(Normal(EncLooseAll(vs)).value).Ok?
    ensures Normal(Normal(EncLooseAll(vs)).value).value == Normal(EncLooseAll(vs)).value <==> QuietAll(vs)
  {
    var ts := CanonLooseAll(vs);
    NormalLoose(vs);
    CanonAllWellFormed(vs);
    CanonAllSettles(vs);
    CanonAllHaveNone(vs);
    RereadAllReads(ts);
    NormalLoose(RereadAll(ts));
    FixedForest(ts);
  }

  // ---------- a third run changes nothing ----------

  // Every context-specific constructed value has a one-octet identifier.
  predicate ShortTags(v: Loose)
    decreases v, 1
  {
    v.Compound? ==> (Class(v.tag[0]) == 2 ==> |v.tag| == 1) && ShortTagsAll(v.kids)
  }

  predicate ShortTagsAll(vs: seq<Loose>)
    decreases vs, 0
  {
    vs == [] || (ShortTags(vs[0]) && ShortTagsAll(vs[1..]))
  }

  lemma {:induction false} ShortIsLow(v: Loose)
    requires ShortTags(v) && Readable(v)
    ensures LowTags(v)
    decreases v, 1
  {
    if v.Compound? {
      ShortAllIsLow(v.kids);
    }
  }

  lemma {:induction false} ShortAllIsLow(vs: seq<Loose>)
    requires ShortTagsAll(vs) && ReadableAll(vs)
    ensures LowTagsAll(vs)
    decreases vs, 0
  {
    if vs != [] {
      ShortIsLow(vs[0]);
      ShortAllIsLow(vs[1..]);
    }
  }

  lemma {:induction false} RereadShort(v: Loose)
    requires !v.Marker? && ShortTags(v)
    ensures ShortTags(Reread(CanonLoose(v)))
    decreases v, 1
  {
    if v.Compound? {
      RereadAllShort(v.kids);
    }
  }

  lemma {:induction false} RereadAllShort(vs: seq<Loose>)
    requires ShortTagsAll(vs)
    ensures ShortTagsAll(RereadAll(CanonLooseAll(vs)))
    decreases vs, 0
  {
    if vs != [] {
      RereadAllShort(vs[1..]);
      if !vs[0].Marker? {
        RereadShort(vs[0]);
        assert CanonLooseAll(vs)[1..] == CanonLooseAll(vs[1..]);
        assert RereadAll(CanonLooseAll(vs))[1..] == RereadAll(CanonLooseAll(vs[1..]));
      }
    }
  }

  // What would be taken for a string later is taken for one at once.
  lemma {:induction false} RereadQuiet(t: Tlv)
    requires Plain(t) && NoStrings(t)
    ensures Quiet(Reread(t)) && !Reread(t).Marker? && (Emerges(Reread(t)) ==> OctetStringSimple(Reread(t)))
    decreases t, 1
  {
    if t.Node? {
      RereadAllQuiet(t.kids);
    }
  }

  lemma {:induction false} RereadAllQuiet(ts: seq<Tlv>)
    requires PlainAll(ts) && NoStringsIn(ts)
    ensures QuietAll(RereadAll(ts))
    ensures AllEmerge(RereadAll(ts)) ==> AllOctetStringSimple(RereadAll(ts))
    decreases ts, 0
  {
    if ts != [] {
      RereadQuiet(ts[0]);
      RereadAllQuiet(ts[1..]);
      var vs, rest := RereadAll(ts), RereadAll(ts[1..]);
      assert vs[0] == Reread(ts[0]) && vs[1..] == rest;
      if AllEmerge(vs) {
        assert Emerges(vs[0]) && forall i :: 0 <= i < |rest| ==> rest[i] == vs[i + 1];
        assert AllEmerge(rest) && forall i :: 0 < i < |vs| ==> vs[i] == rest[i - 1];
      }
    }
  }

  // Two runs reach a fixed point, if no context-specific constructed value has a long
  // identifier and no value is read as empty with identifier 0.
  lemma TwoRunsSuffice(vs: seq<Loose>)
    requires ReadableAll(vs) && ShortTagsAll(vs) && PlainAll(CanonLooseAll(vs))
    requires |EncDerAll(CanonLooseAll(vs))| < U64_RANGE
    requires |EncDerAll(CanonLooseAll(RereadAll(CanonLooseAll(vs))))| < U64_RANGE
    ensures Normal(EncLooseAll(vs)).Ok? && Normal(Normal(EncLooseAll(vs)).value).Ok?
    ensures var twice := Normal(Normal(EncLooseAll(vs)).value).value;
            Normal(twice).Ok? && Normal(twice).value == twice
  {
    var ts := CanonLooseAll(vs);
    var us := RereadAll(ts);
    ShortAllIsLow(vs);
    Idempotent(vs);
    NormalLoose(vs);
    CanonAllWellFormed(vs);
    CanonAllHaveNone(vs);
    RereadAllReads(ts);
    RereadAllShort(vs);
    ShortAllIsLow(us);
    RereadAllQuiet(ts);
    Idempotent(us);
  }

  // ---------- concrete failures ----------

  lemma OnlyKid(b: Ber)
    ensures ValidAll([b]) == Valid(b) && EncBerAll([b]) == EncBer(b) && EraseAll([b]) == [Erase(b)]
  {
    var bs := [b];
    assert bs[0] == b && bs[1..] == [];
    assert WellTaggedAll(bs[1..]) && TypedAll(bs[1..]);
    assert EncBerAll(bs) == EncBer(b) + EncBerAll([]);
  }

  lemma OnlyValue(t: Tlv)
    ensures CanonAll([t]) == [Canon(t)] && EncDerAll([t]) == EncDer(t) && Contents([t]) == ContentOf(t)
  {
    assert [t][1..] == [];
    assert EncDerAll([t]) == EncDer(t) + EncDerAll([]);
    assert Contents([t]) == ContentOf(t) + Contents([]);
  }

  lemma NormalOne(b: Ber)
    requires Valid(b)
    ensures Normal(EncBer(b)).Ok? && Normal(EncBer(b)).value == EncDer(Canon(Erase(b)))
  {
    OnlyKid(b);
    NormalEnc([b]);
    OnlyValue(Erase(b));
    OnlyValue(Canon(Erase(b)));
  }

  // A constructed value with one child and a short length.
  function Around(lead: byte, b: Ber): Ber { Cons([lead], [b], Short) }

  lemma AroundFacts(lead: byte, b: Ber)
    requires Valid(b) && ValidTag([lead], true) && |EncBer(b)| < 128
    requires StringNode([lead]) ==> SegmentTag(b.tag, lead - 32)
    ensures Valid(Around(lead, b)) && Erase(Around(lead, b)) == Node([lead], [Erase(b)])
    ensures EncBer(Around(lead, b)) == [lead, |EncBer(b)|] + EncBer(b)
  {
    OnlyKid(b);
    assert Body(Around(lead, b)) == EncBer(b);
    assert LengthOctets(Short, |EncBer(b)|) == [|EncBer(b)|];
    assert EncBer(Around(lead, b)) == [lead, |EncBer(b)|] + EncBer(b) by {
      assert EncBer(b) + [] == EncBer(b);
      Assoc([lead], [|EncBer(b)|], EncBer(b));
    }
  }

  lemma DerAroundFacts(lead: byte, t: Tlv)
    requires |EncDer(t)| < 128
    ensures EncDer(Node([lead], [t])) == [lead, |EncDer(t)|] + EncDer(t)
  {
    OnlyValue(t);
    assert DerBody(Node([lead], [t])) == EncDer(t) && DerLength(|EncDer(t)|) == [|EncDer(t)|];
    assert [lead] + [|EncDer(t)|] == [lead, |EncDer(t)|];
  }

  const SEGMENT: Ber := Prim([0x04], [0xAA], Short)

  lemma SegmentFacts()
    ensures Valid(SEGMENT) && Erase(SEGMENT) == Leaf([0x04], [0xAA])
    ensures EncBer(SEGMENT) == [0x04, 0x01, 0xAA] == EncDer(Leaf([0x04], [0xAA]))
  {
  }

  // The first run flattens the inner string, the second takes the outer value for one.
  lemma NotIdempotent()
    ensures var once := Normal([0xA0, 0x05, 0x24, 0x03, 0x04, 0x01, 0xAA]);
            once.Ok? && once.value == [0xA0, 0x03, 0x04, 0x01, 0xAA]
    ensures var twice := Normal([0xA0, 0x03, 0x04, 0x01, 0xAA]);
            twice.Ok? && twice.value == [0x80, 0x01, 0xAA]
  {
    FirstRun();
    SecondRun();
  }

  const OUTER: Ber := Around(0xA0, Around(0x24, SEGMENT))

  lemma FirstRun()
    ensures var once := Normal([0xA0, 0x05, 0x24, 0x03, 0x04, 0x01, 0xAA]);
            once.Ok? && once.value == [0xA0, 0x03, 0x04, 0x01, 0xAA]
  {
    OuterInput();
    NormalOne(OUTER);
    OuterOutput();
  }

  lemma OuterInput()
    ensures Valid(OUTER) && EncBer(OUTER) == [0xA0, 0x05, 0x24, 0x03, 0x04, 0x01, 0xAA]
    ensures Erase(OUTER) == Node([0xA0], [Node([0x24], [Leaf([0x04], [0xAA])])])
  {
    SegmentFacts();
    AroundFacts(0x24, SEGMENT);
    AroundFacts(0xA0, Around(0x24, SEGMENT));
  }

  lemma OuterOutput()
    ensures EncDer(Canon(Erase(OUTER))) == [0xA0, 0x03, 0x04, 0x01, 0xAA]
  {
    var leaf := Leaf([0x04], [0xAA]);
    OuterInput();
    SegmentFacts();
    OnlyValue(leaf);
    OnlyValue(Node([0x24], [leaf]));
    assert !OctetStringLeaf([Node([0x24], [leaf])][0]);
    assert Canon(Erase(OUTER)) == Node([0xA0], [leaf]);
    DerAroundFacts(0xA0, leaf);
  }

  lemma SecondRun()
    ensures var twice := Normal([0xA0, 0x03, 0x04, 0x01, 0xAA]);
            twice.Ok? && twice.value == [0x80, 0x01, 0xAA]
  {
    SegmentFacts();
    AroundFacts(0xA0, SEGMENT);
    assert EncBer(Around(0xA0, SEGMENT)) == [0xA0, 0x03, 0x04, 0x01, 0xAA];
    NormalOne(Around(0xA0, SEGMENT));
    OnlyValue(Erase(SEGMENT));
    assert Canon(Node([0xA0], [Erase(SEGMENT)])) == Leaf([0x80], [0xAA]);
    assert EncDer(Leaf([0x80], [0xAA])) == [0x80, 0x01, 0xAA];
  }

  // Two values that differ in the rest of a long identifier become the same octets.
  lemma LongTagsCollapse(tag: Tag, other: Tag, kids: seq<Ber>, form: Form)
    requires tag[0] == other[0] && Class(tag[0]) == 2 && kids != [] && AllOctetStringLeaves(EraseAll(kids))
    requires Valid(Cons(tag, kids, form)) && Valid(Cons(other, kids, form))
    ensures var one, two := Normal(EncBer(Cons(tag, kids, form))), Normal(EncBer(Cons(other, kids, form)));
            one.Ok? && two.Ok? && one.value == two.value
  {
    NormalOne(Cons(tag, kids, form));
    NormalOne(Cons(other, kids, form));
    assert Flattens(tag, EraseAll(kids)) && Flattens(other, EraseAll(kids));
  }

  // A flattened value with a long identifier is cut to an output that cannot be read again.
  lemma LongTagUnreadable()
    ensures var once := Normal([0xBF, 0x01, 0x03, 0x04, 0x01, 0xAA]);
            once.Ok? && once.value == [0x9F, 0x01, 0xAA]
    ensures Normal([0x9F, 0x01, 0xAA]).Err?
  {
    LongTagInput();
    NormalOne(Cons([0xBF, 0x01], [SEGMENT], Short));
    LongTagOutput();
  }

  lemma LongTagInput()
    ensures var b := Cons([0xBF, 0x01], [SEGMENT], Short);
            Valid(b) && EncBer(b) == [0xBF, 0x01, 0x03, 0x04, 0x01, 0xAA] && EncDer(Canon(Erase(b))) == [0x9F, 0x01, 0xAA]
  {
    SegmentFacts();
    OnlyKid(SEGMENT);
    OnlyValue(Erase(SEGMENT));
    assert EraseAll([SEGMENT]) == [Leaf([0x04], [0xAA])];
    assert Canon(Node([0xBF, 0x01], [Leaf([0x04], [0xAA])])) == Leaf([0x9F], [0xAA]);
  }

  lemma LongTagOutput()
    ensures Normal([0x9F, 0x01, 0xAA]).Err?
  {
    var s: seq<byte> := [0x9F, 0x01, 0xAA];
    assert TagEnd(s, 1) == 1;
    assert TagOf(s).Ok? && TagOf(s).value.rest == [0xAA];
    assert LengthOf([0xAA]).Err?;
    assert Rewrite(s).Err?;
  }
}

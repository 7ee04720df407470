/**
 How often the rewriter calls rewrite_one. The children of a value of indefinite length are
 rewritten once to find its end and once more to write it, so the calls double with every
 such level around a value.
 */
module BerCalls {
  import opened Bytes
  import opened Seqs
  import opened BerToDer
  import opened BerTheory
  import opened BerGrammar

  // ---------- calls, for any input ----------

  // Calls made to rewrite the first value of s, this one included.
  function RewriteCalls(s: seq<byte>): nat
    decreases |s|, 1
  {
    if AtEndOfContents(s) then 1
    else
      1 + DissectCalls(s) +
      match Dissect(s) case Ok(p) => PartsCalls(p.tag, p.content) case _ => 0
  }

  function DissectCalls(s: seq<byte>): nat
    decreases |s|, 0
  {
    match TagOf(s)
    case Ok(split) =>
      (match LengthOf(split.rest)
       case Ok(r) => if r.info.Indefinite? then WalkCalls(r.rest) else 0
       case _ => 0)
    case _ => 0
  }

  function WalkCalls(s: seq<byte>): nat
    decreases |s|, 2
  {
    if AtEndOfContents(s) then 0
    else RewriteCalls(s) + match Rewrite(s) case Ok(p) => WalkCalls(s[p.octets..]) case _ => 0
  }

  function PartsCalls(tag: seq<byte>, content: seq<byte>): nat
    requires tag != []
    decreases |content|, 3
  {
    match SegmentNumber(tag[0], content)
    case Some(expected) => FlattenCalls(content, expected)
    case None => if Constructed(tag[0]) then NormalCalls(content) else 0
  }

  function NormalCalls(s: seq<byte>): nat
    decreases |s|, 2
  {
    if s == [] then 0
    else RewriteCalls(s) + match Rewrite(s) case Ok(p) => NormalCalls(s[p.octets..]) case _ => 0
  }

  function FlattenCalls(s: seq<byte>, expected: byte): nat
    decreases |s|, 2
  {
    if s == [] then 0
    else
      SegmentCalls(s, expected) +
      match Segment(s, expected) case Ok(p) => FlattenCalls(s[p.octets..], expected) case _ => 0
  }

  function SegmentCalls(s: seq<byte>, expected: byte): nat
    decreases |s|, 1
  {
    match TagOf(s)
    case Ok(split) =>
      if Class(split.tag[0]) != 0 || TagNumber(split.tag[0]) != expected then 0
      else
        (match LengthOf(split.rest)
         case Ok(r) =>
           (if r.info.Indefinite? then WalkCalls(r.rest) else 0) +
           (match SegmentExtent(r.info, r.rest)
            case Ok(span) => if Constructed(split.tag[0]) then FlattenCalls(r.rest[..span.length], expected) else 0
            case _ => 0)
         case _ => 0)
    case _ => 0
  }

  // ---------- calls, for a readable forest ----------

  function Cost(v: Loose): nat
    decreases v, 1
  {
    match v
    case Marker => 1
    case Simple(_, _, _) => 1
    case SimpleOpen(_, kids) => 1 + CostAll(kids)
    case Compound(tag, kids, form) =>
      1 + (if form.Open? then CostAll(kids) else 0)
        + (if LooseFlattens(tag, kids) then SegmentCostAll(kids) else CostAll(kids))
  }

  function CostAll(vs: seq<Loose>): nat
    decreases vs, 0
  {
    if vs == [] then 0 else Cost(vs[0]) + CostAll(vs[1..])
  }

  // Segments are not rewritten, but the end of one without a length is looked for.
  function SegmentCost(v: Loose): nat
    decreases v, 1
  {
    match v
    case Marker => 0
    case Simple(_, _, _) => 0
    case SimpleOpen(_, kids) => CostAll(kids)
    case Compound(_, kids, form) => (if form.Open? then CostAll(kids) else 0) + SegmentCostAll(kids)
  }

  function SegmentCostAll(vs: seq<Loose>): nat
    decreases vs, 0
  {
    if vs == [] then 0 else SegmentCost(vs[0]) + SegmentCostAll(vs[1..])
  }

  lemma {:induction false} WalkCallsLoose(vs: seq<Loose>, rest: seq<byte>)
    requires ReadableAll(vs) && NoMarker(vs)
    ensures WalkCalls(EncLooseAll(vs) + ([0, 0] + rest)) == CostAll(vs)
    decreases vs, 0
  {
    if vs == [] {
      assert EncLooseAll(vs) + ([0, 0] + rest) == [0, 0] + rest;
    } else {
      var more := EncLooseAll(vs[1..]) + ([0, 0] + rest);
      Assoc(EncLoose(vs[0]), EncLooseAll(vs[1..]), [0, 0] + rest);
      RewriteLoose(vs[0], more);
      RewriteCallsLoose(vs[0], more);
      NotAMarker(vs[0], more);
      assert forall i :: 0 <= i < |vs| - 1 ==> vs[1..][i] == vs[i + 1];
      WalkCallsLoose(vs[1..], rest);
      Split(EncLoose(vs[0]), more);
    }
  }

  lemma {:induction false} DissectCallsLoose(v: Loose, rest: seq<byte>)
    requires Readable(v) && !v.Marker?
    ensures DissectCalls(EncLoose(v) + rest) == if FormOf(v).Open? then CostAll(v.kids) else 0
    decreases v, 2
  {
    ReadsHead(v, rest);
    if FormOf(v).Open? {
      WalkCallsLoose(v.kids, rest);
    }
  }

  lemma {:induction false} PartsCallsLoose(v: Loose)
    requires Readable(v) && !v.Marker?
    ensures PartsCalls(v.tag, Inner(v))
         == if !v.Compound? then 0 else if LooseFlattens(v.tag, v.kids) then SegmentCostAll(v.kids) else CostAll(v.kids)
    decreases v, 2
  {
    if v.Compound? {
      ReadableScans(v.kids);
      NumberLoose(v);
      if StringNode(v.tag) {
        FlattenCallsLoose(v.kids, v.tag[0] - 32);
      } else if LooseFlattens(v.tag, v.kids) {
        FlattenCallsLoose(v.kids, 4);
      } else {
        NormalCallsLoose(v.kids);
      }
    }
  }

  lemma {:induction false} RewriteCallsLoose(v: Loose, rest: seq<byte>)
    requires Readable(v)
    ensures RewriteCalls(EncLoose(v) + rest) == Cost(v)
    decreases v, 3
  {
    if !v.Marker? {
      NotAMarker(v, rest);
      DissectLoose(v, rest);
      DissectCallsLoose(v, rest);
      PartsCallsLoose(v);
    }
  }

  lemma {:induction false} NormalCallsLoose(vs: seq<Loose>)
    requires ReadableAll(vs)
    ensures NormalCalls(EncLooseAll(vs)) == CostAll(vs)
    decreases vs, 0
  {
    if vs != [] {
      var more := EncLooseAll(vs[1..]);
      RewriteLoose(vs[0], more);
      RewriteCallsLoose(vs[0], more);
      NormalCallsLoose(vs[1..]);
      Split(EncLoose(vs[0]), more);
      LooseIsLong(vs[0]);
    }
  }

  lemma SegmentCallsParts(s: seq<byte>, number: byte)
    requires TagOf(s).Ok? && LengthOf(TagOf(s).value.rest).Ok?
    requires Class(TagOf(s).value.tag[0]) == 0 && TagNumber(TagOf(s).value.tag[0]) == number
    requires var LengthSplit(info, after) := LengthOf(TagOf(s).value.rest).value; SegmentExtent(info, after).Ok?
    ensures var LengthSplit(info, after) := LengthOf(TagOf(s).value.rest).value;
            var content := after[..SegmentExtent(info, after).value.length];
            SegmentCalls(s, number) == (if info.Indefinite? then WalkCalls(after) else 0)
                                     + (if Constructed(TagOf(s).value.tag[0]) then FlattenCalls(content, number) else 0)
  {
  }

  lemma {:induction false} SegmentCallsLoose(v: Loose, number: byte, rest: seq<byte>)
    requires Readable(v) && IsSegment(v, number) && number in {3, 4}
    ensures SegmentCalls(EncLoose(v) + rest, number) == SegmentCost(v)
    decreases v, 2
  {
    ReadsHead(v, rest);
    SegmentTagBits(v.tag, number);
    if FormOf(v).Open? {
      WalkLoose(v.kids, rest);
      WalkCallsLoose(v.kids, rest);
    }
    SegmentCallsParts(EncLoose(v) + rest, number);
    if v.Compound? {
      FlattenCallsLoose(v.kids, number);
    }
  }

  lemma {:induction false} FlattenCallsLoose(vs: seq<Loose>, number: byte)
    requires ReadableAll(vs) && AllSegments(vs, number) && number in {3, 4}
    ensures FlattenCalls(EncLooseAll(vs), number) == SegmentCostAll(vs)
    decreases vs, 0
  {
    if vs != [] {
      var more := EncLooseAll(vs[1..]);
      assert IsSegment(vs[0], number);
      assert forall i :: 0 <= i < |vs| - 1 ==> vs[1..][i] == vs[i + 1];
      SegmentLoose(vs[0], number, more);
      SegmentCallsLoose(vs[0], number, more);
      FlattenCallsLoose(vs[1..], number);
      Split(EncLoose(vs[0]), more);
      LooseIsLong(vs[0]);
    }
  }

  // ---------- doubling ----------

  // n nested SEQUENCEs of indefinite length.
  function Nest(n: nat): seq<Loose> {
    if n == 0 then [] else [Compound([0x30], Nest(n - 1), Open)]
  }

  lemma OnlyLoose(v: Loose)
    ensures EncLooseAll([v]) == EncLoose(v) && CostAll([v]) == Cost(v) && ReadableAll([v]) == Readable(v)
  {
    assert [v][1..] == [];
    assert EncLooseAll([v]) == EncLoose(v) + [];
  }

  lemma {:induction false} NestReadable(n: nat)
    ensures ReadableAll(Nest(n)) && NoMarker(Nest(n)) && |EncLooseAll(Nest(n))| == 4 * n
  {
    if n > 0 {
      NestReadable(n - 1);
      var v := Compound([0x30], Nest(n - 1), Open);
      assert Constructed(0x30) && TagNumber(0x30) == 16;
      assert Readable(v) && |EncLoose(v)| == 4 * n;
      OnlyLoose(v);
    }
  }

  lemma {:induction false} NestCosts(n: nat)
    ensures CostAll(Nest(n)) == Pow(2, n) - 1
  {
    if n > 0 {
      NestCosts(n - 1);
      var v := Compound([0x30], Nest(n - 1), Open);
      assert Class(0x30) == 0 && !LooseFlattens([0x30], Nest(n - 1));
      OnlyLoose(v);
    }
  }

  // n nested values, in 4n octets, take 2^n - 1 calls.
  lemma NestedDoubles(n: nat)
    ensures var s := EncLooseAll(Nest(n));
            |s| == 4 * n && Normal(s).Ok? && NormalCalls(s) == Pow(2, n) - 1
  {
    NestReadable(n);
    NestCosts(n);
    NormalLoose(Nest(n));
    NormalCallsLoose(Nest(n));
  }

  // ---------- and no more than that ----------

  function Max(a: nat, b: nat): nat { if a < b then b else a }

  // How many values there are at all depths, and how many without a length enclose the deepest.
  function Size(v: Loose): nat
    decreases v, 1
  {
    1 + if v.Compound? || v.SimpleOpen? then SizeAll(v.kids) else 0
  }

  function SizeAll(vs: seq<Loose>): nat
    decreases vs, 0
  {
    if vs == [] then 0 else Size(vs[0]) + SizeAll(vs[1..])
  }

  function OpenDepth(v: Loose): nat
    decreases v, 1
  {
    if v.Compound? || v.SimpleOpen? then (if FormOf(v).Open? then 1 else 0) + OpenDepthAll(v.kids) else 0
  }

  function OpenDepthAll(vs: seq<Loose>): nat
    decreases vs, 0
  {
    if vs == [] then 0 else Max(OpenDepth(vs[0]), OpenDepthAll(vs[1..]))
  }

  lemma Scale(cost: nat, depth: nat, size: nat, deeper: nat)
    requires cost <= Pow(2, depth) * size && depth <= deeper
    ensures cost <= Pow(2, deeper) * size
  {
    PowMonotone(2, depth, deeper);
    MulMonotone(Pow(2, depth), Pow(2, deeper), size);
  }

  lemma MulMonotone(a: nat, b: nat, c: nat)
    requires a <= b
    ensures a * c <= b * c
  {
  }

  lemma Summed(p: nat, cost: nat, size: nat, more: nat, rest: nat)
    requires cost <= p * size && more <= p * rest
    ensures cost + more <= p * (size + rest)
  {
  }

  // What a value costs beyond the passes over its children.
  lemma Passes(cost: nat, passes: nat, kids: nat, depth: nat, size: nat)
    requires cost <= 1 + passes * kids && kids <= Pow(2, depth) * size
    requires passes <= 2
    ensures cost <= Pow(2, depth + if passes == 2 then 1 else 0) * (1 + size)
  {
    PowPositive(2, depth);
  }

  lemma {:induction false} CostBounded(v: Loose)
    ensures Cost(v) <= Pow(2, OpenDepth(v)) * Size(v) && SegmentCost(v) <= Pow(2, OpenDepth(v)) * Size(v)
    decreases v, 1
  {
    PowPositive(2, 0);
    if v.Compound? || v.SimpleOpen? {
      CostAllBounded(v.kids);
      var kids := Max(CostAll(v.kids), SegmentCostAll(v.kids));
      var passes := if v.Compound? && v.form.Open? then 2 else 1;
      var depth := OpenDepthAll(v.kids);
      Passes(Cost(v), passes, kids, depth, SizeAll(v.kids));
      Passes(SegmentCost(v), passes, kids, depth, SizeAll(v.kids));
      Scale(Cost(v), depth + passes - 1, Size(v), OpenDepth(v));
      Scale(SegmentCost(v), depth + passes - 1, Size(v), OpenDepth(v));
    }
  }

  lemma {:induction false} CostAllBounded(vs: seq<Loose>)
    ensures CostAll(vs) <= Pow(2, OpenDepthAll(vs)) * SizeAll(vs)
    ensures SegmentCostAll(vs) <= Pow(2, OpenDepthAll(vs)) * SizeAll(vs)
    decreases vs, 0
  {
    if vs != [] {
      CostBounded(vs[0]);
      CostAllBounded(vs[1..]);
      var d := OpenDepthAll(vs);
      Scale(Cost(vs[0]), OpenDepth(vs[0]), Size(vs[0]), d);
      Scale(SegmentCost(vs[0]), OpenDepth(vs[0]), Size(vs[0]), d);
      Scale(CostAll(vs[1..]), OpenDepthAll(vs[1..]), SizeAll(vs[1..]), d);
      Scale(SegmentCostAll(vs[1..]), OpenDepthAll(vs[1..]), SizeAll(vs[1..]), d);
      Summed(Pow(2, d), Cost(vs[0]), Size(vs[0]), CostAll(vs[1..]), SizeAll(vs[1..]));
      Summed(Pow(2, d), SegmentCost(vs[0]), Size(vs[0]), SegmentCostAll(vs[1..]), SizeAll(vs[1..]));
    }
  }

  // However a forest is encoded, the calls are at most its number of values, doubled for every
  // level of indefinite length.
  lemma CallsBounded(vs: seq<Loose>)
    requires ReadableAll(vs)
    ensures NormalCalls(EncLooseAll(vs)) <= Pow(2, OpenDepthAll(vs)) * SizeAll(vs)
  {
    NormalCallsLoose(vs);
    CostAllBounded(vs);
  }
}

/**
 The BER to DER rewriter of crates/storage/src/cms_envelope/ber_to_der.rs: first its
 mathematical function, then the byte-pushing loops, proved to compute that function.
 */
module BerToDer {
  import opened Bytes
  import opened Wrappers
  import opened Seqs

  // Err is the single CmsError the rewriter raises; Panic is a slice taken out of range.
  datatype Outcome<+T> = Ok(value: T) | Err | Panic {
    predicate IsFailure() { !Ok? }

    function PropagateFailure<U>(): Outcome<U>
      requires IsFailure()
    {
      if Err? then Err else Panic
    }

    function Extract(): T
      requires Ok?
    {
      value
    }
  }

  // A prefix of the input and what follows it.
  datatype TagSplit = TagSplit(tag: seq<byte>, rest: seq<byte>)
  datatype LengthSplit = LengthSplit(info: LengthInfo, rest: seq<byte>)

  // How many octets the contents take, without and with their end marker.
  datatype Span = Span(length: nat, total: nat)

  // One value taken apart, and how many octets it spans.
  datatype Parsed = Parsed(tag: seq<byte>, content: seq<byte>, octets: nat)

  // One value consumed: how many octets it spans, and what it adds to the output.
  datatype Piece = Piece(octets: nat, out: seq<byte>)

  // Identifier and contents octets of a DER value.
  datatype Parts = Parts(tag: seq<byte>, content: seq<byte>)

  datatype LengthInfo = Definite(length: nat) | Indefinite

  // ---------- identifier and length octets ----------

  predicate Constructed(b: byte) { b / 32 % 2 == 1 }

  // b with the constructed bit 0x20 switched off.
  function ClearConstructed(b: byte): byte { if Constructed(b) then b - 32 else b }

  function Class(b: byte): nat { b / 64 }

  function TagNumber(b: byte): byte { b % 32 }

  predicate AtEndOfContents(s: seq<byte>) { |s| >= 2 && s[0] == 0 && s[1] == 0 }

  // Index of the first octet from i on whose top bit is clear, or |s|.
  function TagEnd(s: seq<byte>, i: nat): (end: nat)
    requires i <= |s|
    ensures i <= end <= |s|
    decreases |s| - i
  {
    if i < |s| && s[i] >= 128 then TagEnd(s, i + 1) else i
  }

  // Splits off the identifier octets.
  function TagOf(s: seq<byte>): (r: Outcome<TagSplit>)
    ensures !r.Panic?
    ensures r.Ok? ==> r.value.tag != [] && |s| == |r.value.tag| + |r.value.rest|
  {
    if s == [] then Err
    else if TagNumber(s[0]) != 31 then Ok(TagSplit(s[..1], s[1..]))
    else
      var end := TagEnd(s, 1);
      if end >= |s| then Err else Ok(TagSplit(s[..end + 1], s[end + 1..]))
  }

  // Splits off the length octets.
  function LengthOf(s: seq<byte>): (r: Outcome<LengthSplit>)
    ensures !r.Panic?
    ensures r.Ok? ==> |r.value.rest| < |s|
  {
    if s == [] then Err
    else if s[0] == 128 then Ok(LengthSplit(Indefinite, s[1..]))
    else if s[0] < 128 then Ok(LengthSplit(Definite(s[0]), s[1..]))
    else
      var count := s[0] - 128;
      if |s| < 1 + count || count > 8 then Err
      else Ok(LengthSplit(Definite(FromBe(s[1..1 + count])), s[1 + count..]))
  }

  // The DER length octets; the first octet is 0x80 OR-ed with the count as a u8.
  function DerLength(n: nat): seq<byte> {
    if n < 128 then [n] else [128 + |Be(n)| % 128] + Be(n)
  }

  // ---------- the rewriter ----------

  // Rewrites the first value of s: how many octets it spans, and its DER form.
  function Rewrite(s: seq<byte>): (r: Outcome<Piece>)
    ensures r.Ok? ==> 2 <= r.value.octets <= |s|
    decreases |s|, 1
  {
    if AtEndOfContents(s) then Ok(Piece(2, []))
    else
      var Parsed(tag, content, n) :- Dissect(s);
      var out :- Emit(tag, content);
      Ok(Piece(n, out))
  }

  // Identifier and contents octets of the first value of s, and how many octets it spans.
  function Dissect(s: seq<byte>): (r: Outcome<Parsed>)
    ensures r.Ok? ==> r.value.tag != [] && |r.value.content| + 2 <= r.value.octets <= |s|
    decreases |s|, 0
  {
    var TagSplit(tag, afterTag) :- TagOf(s);
    var LengthSplit(info, after) :- LengthOf(afterTag);
    var Span(length, total) :- Extent(info, after);
    Ok(Parsed(tag, after[..length], |s| - |after| + total))
  }

  // Length of the contents that `info` announces, and with their end marker if there is one.
  function Extent(info: LengthInfo, after: seq<byte>): (r: Outcome<Span>)
    ensures r.Ok? ==> r.value.length <= r.value.total <= |after|
    decreases |after|, 3
  {
    match info
    case Definite(n) => if |after| < n then Err else Ok(Span(n, n))
    case Indefinite =>
      var total :- Walk(after);
      Ok(Span(total - 2, total))
  }

  // First pass over an indefinite-length value: rewrites children into a throw-away
  // buffer until the end-of-contents marker, and counts the octets up to its end.
  function Walk(s: seq<byte>): (r: Outcome<nat>)
    ensures r.Ok? ==> 2 <= r.value <= |s|
    decreases |s|, 2
  {
    if AtEndOfContents(s) then Ok(2)
    else
      var Piece(n, _) :- Rewrite(s);
      var rest :- Walk(s[n..]);
      Ok(n + rest)
  }

  // Does the value carry a segmented string, and if so with which segment tag number?
  // Either a constructed OCTET STRING or BIT STRING, or a context-specific value whose
  // children, as they stand, are all primitive OCTET STRINGs.
  function SegmentNumber(lead: byte, content: seq<byte>): Option<byte> {
    if Constructed(lead) && Class(lead) == 0 && TagNumber(lead) in {3, 4} then Some(TagNumber(lead))
    else if Constructed(lead) && Class(lead) == 2 && AllOctetStrings(content) then Some(4)
    else None
  }

  // The DER form of a value with this tag and these contents.
  function Emit(tag: seq<byte>, content: seq<byte>): Outcome<seq<byte>>
    requires tag != []
    decreases |content|, 4
  {
    var Parts(derTag, derContent) :- DerParts(tag, content);
    Ok(Value(derTag, derContent))
  }

  // Identifier and contents octets of the DER form.
  function DerParts(tag: seq<byte>, content: seq<byte>): Outcome<Parts>
    requires tag != []
    decreases |content|, 3
  {
    match SegmentNumber(tag[0], content)
    case Some(expected) =>
      var flat :- Flatten(content, expected);
      Ok(Parts([ClearConstructed(tag[0])], flat))
    case None =>
      if Constructed(tag[0]) then
        var inner :- Normal(content);
        Ok(Parts(tag, inner))
      else
        Ok(Parts(tag, content))
  }

  // Identifier, shortest definite length, contents.
  function Value(tag: seq<byte>, content: seq<byte>): seq<byte> {
    tag + DerLength(|content|) + content
  }

  // Rewrites a whole run of values.
  function Normal(s: seq<byte>): Outcome<seq<byte>>
    decreases |s|, 2
  {
    if s == [] then Ok([])
    else
      var Piece(n, first) :- Rewrite(s);
      var rest :- Normal(s[n..]);
      Ok(first + rest)
  }

  // Concatenates the contents of string segments.
  function Flatten(s: seq<byte>, expected: byte): Outcome<seq<byte>>
    decreases |s|, 2
  {
    if s == [] then Ok([])
    else
      var Piece(n, first) :- Segment(s, expected);
      var rest :- Flatten(s[n..], expected);
      Ok(first + rest)
  }

  // The contents of the first segment of s; a constructed one is flattened in turn.
  function Segment(s: seq<byte>, expected: byte): (r: Outcome<Piece>)
    ensures r.Ok? ==> 2 <= r.value.octets <= |s|
    decreases |s|, 1
  {
    var TagSplit(tag, afterTag) :- TagOf(s);
    if Class(tag[0]) != 0 || TagNumber(tag[0]) != expected then Err
    else
      var LengthSplit(info, after) :- LengthOf(afterTag);
      var Span(length, total) :- SegmentExtent(info, after);
      var content :- if Constructed(tag[0]) then Flatten(after[..length], expected) else Ok(after[..length]);
      Ok(Piece(|s| - |after| + total, content))
  }

  // Like Extent, but a definite length is sliced without a bounds check.
  function SegmentExtent(info: LengthInfo, after: seq<byte>): (r: Outcome<Span>)
    ensures r.Ok? ==> r.value.length <= r.value.total <= |after|
    decreases |after|, 3
  {
    match info
    case Definite(n) => if |after| < n then Panic else Ok(Span(n, n))
    case Indefinite =>
      var total :- Walk(after);
      Ok(Span(total - 2, total))
  }

  // Is s a non-empty run of primitive OCTET STRINGs of definite length?
  predicate AllOctetStrings(s: seq<byte>) {
    s != [] && OnlyOctetStrings(s)
  }

  predicate OnlyOctetStrings(s: seq<byte>)
    decreases |s|
  {
    s == [] || (OctetStringSpan(s).Some? && OnlyOctetStrings(s[OctetStringSpan(s).value..]))
  }

  // How many octets the OCTET STRING at the start of s spans, if there is one.
  function OctetStringSpan(s: seq<byte>): (r: Option<nat>)
    ensures r.Some? ==> 2 <= r.value <= |s|
  {
    if TagOf(s).Ok? && TagOf(s).value.tag[0] == 4 && LengthOf(TagOf(s).value.rest).Ok? then
      var LengthSplit(info, after) := LengthOf(TagOf(s).value.rest).value;
      if info.Definite? && info.length <= |after| then Some(|s| - |after| + info.length) else None
    else None
  }

  // ---------- output size: the length of every rewritten value fits in a usize ----------

  // Inputs are shorter than this, so that every length computed on the way is a 64-bit usize.
  const MAX_INPUT: nat := 0x4000_0000_0000_0000

  lemma DerLengthSize(n: nat)
    requires n < U64_RANGE
    ensures |DerLength(n)| <= 9
    ensures n < 512 ==> |DerLength(n)| <= 3
  {
    U64InEightBytes(n);
    BeLength(n, 2);
  }

  // A DER header for up to four times the contents fits in the room a BER header leaves.
  lemma HeaderSize(s: seq<byte>, info: LengthInfo, after: seq<byte>, span: Span, m: nat)
    requires LengthOf(s) == Ok(LengthSplit(info, after)) && Extent(info, after) == Ok(span)
    requires m <= 4 * span.length && |s| < MAX_INPUT
    ensures |DerLength(m)| + m <= 3 + 4 * (|s| - |after|) + 4 * span.total
  {
    DerLengthSize(m);
  }

  lemma {:induction false} FlattenShrinks(s: seq<byte>, expected: byte)
    requires Flatten(s, expected).Ok?
    ensures |Flatten(s, expected).value| <= |s|
    decreases |s|, 2
  {
    if s != [] {
      SegmentShrinks(s, expected);
      FlattenShrinks(s[Segment(s, expected).value.octets..], expected);
    }
  }

  lemma {:induction false} SegmentShrinks(s: seq<byte>, expected: byte)
    requires Segment(s, expected).Ok?
    ensures |Segment(s, expected).value.out| <= Segment(s, expected).value.octets
    decreases |s|, 1
  {
    var TagSplit(tag, afterTag) := TagOf(s).value;
    var LengthSplit(info, after) := LengthOf(afterTag).value;
    var Span(length, total) := SegmentExtent(info, after).value;
    if Constructed(tag[0]) {
      FlattenShrinks(after[..length], expected);
    }
  }

  lemma {:induction false} EmitSize(tag: seq<byte>, content: seq<byte>) returns (m: nat)
    requires tag != [] && |content| < MAX_INPUT && Emit(tag, content).Ok?
    ensures m <= 4 * |content| && |Emit(tag, content).value| <= |tag| + |DerLength(m)| + m
    decreases |content|, 3
  {
    match SegmentNumber(tag[0], content) {
      case Some(expected) =>
        FlattenShrinks(content, expected);
        m := |Flatten(content, expected).value|;
      case None =>
        if Constructed(tag[0]) {
          NormalSize(content);
          m := |Normal(content).value|;
        } else {
          m := |content|;
        }
    }
  }

  lemma {:induction false} RewriteSize(s: seq<byte>)
    requires |s| < MAX_INPUT && Rewrite(s).Ok?
    ensures |Rewrite(s).value.out| <= 4 * Rewrite(s).value.octets
    decreases |s|, 0
  {
    if !AtEndOfContents(s) {
      var Parsed(tag, content, _) := Dissect(s).value;
      var afterTag := TagOf(s).value.rest;
      var LengthSplit(info, after) := LengthOf(afterTag).value;
      var span := Extent(info, after).value;
      var m := EmitSize(tag, content);
      HeaderSize(afterTag, info, after, span, m);
    }
  }

  lemma {:induction false} NormalSize(s: seq<byte>)
    requires |s| < MAX_INPUT && Normal(s).Ok?
    ensures |Normal(s).value| <= 4 * |s|
    decreases |s|, 1
  {
    if s != [] {
      RewriteSize(s);
      NormalSize(s[Rewrite(s).value.octets..]);
    }
  }

  // ---------- the loops ----------

  method ReadTag(input: seq<byte>) returns (r: Outcome<TagSplit>)
    ensures r == TagOf(input)
  {
    if input == [] {
      return Err;
    }
    if TagNumber(input[0]) != 31 {
      return Ok(TagSplit(input[..1], input[1..]));
    }
    var end := 1;
    while end < |input| && input[end] >= 128
      invariant 1 <= end <= |input|
      invariant TagEnd(input, end) == TagEnd(input, 1)
    {
      end := end + 1;
    }
    if end >= |input| {
      return Err;
    }
    end := end + 1;
    return Ok(TagSplit(input[..end], input[end..]));
  }

  method ReadLength(input: seq<byte>) returns (r: Outcome<LengthSplit>)
    ensures r == LengthOf(input)
    ensures r.Ok? && r.value.info.Definite? ==> r.value.info.length < U64_RANGE
  {
    if input == [] {
      return Err;
    }
    var b := input[0];
    if b == 0x80 {
      return Ok(LengthSplit(Indefinite, input[1..]));
    }
    if b < 0x80 {
      return Ok(LengthSplit(Definite(b), input[1..]));
    }
    var count := b - 0x80;
    if |input| < 1 + count || count == 0 || count > 8 {
      return Err;
    }
    var octets := input[1..1 + count];
    var len: nat := 0;
    for i := 0 to count
      invariant len == FromBe(octets[..i])
    {
      assert octets[..i + 1][..i] == octets[..i];
      len := len * 256 + octets[i];
    }
    assert octets[..count] == octets;
    FromBeBound(octets);
    PowMonotone(256, count, 8);
    U64InEightBytes(len);
    BeLength(len, 8);
    return Ok(LengthSplit(Definite(len), input[1 + count..]));
  }

  function Reversed(s: seq<byte>): seq<byte> {
    if s == [] then [] else Reversed(s[1..]) + [s[0]]
  }

  lemma {:induction false} ReversedSnoc(s: seq<byte>, b: byte)
    ensures Reversed(s + [b]) == [b] + Reversed(s)
  {
    if s != [] {
      assert (s + [b])[1..] == s[1..] + [b];
      ReversedSnoc(s[1..], b);
    }
  }

  lemma {:induction false} ReversedLength(s: seq<byte>)
    ensures |Reversed(s)| == |s|
  {
    if s != [] {
      ReversedLength(s[1..]);
    }
  }

  method PushBackwards(out: ByteBuffer, buf: array<byte>, count: nat)
    requires count <= buf.Length
    modifies out
    ensures out.bytes == old(out.bytes) + Reversed(buf[..count])
  {
    var j := count;
    while j > 0
      invariant 0 <= j <= count
      invariant out.bytes + Reversed(buf[..j]) == old(out.bytes) + Reversed(buf[..count])
    {
      j := j - 1;
      out.Push(buf[j]);
      assert buf[..j + 1] == buf[..j] + [buf[j]];
      ReversedSnoc(buf[..j], buf[j]);
    }
  }

  // The base-256 digits of n, least significant first.
  method DigitsOf(n: nat) returns (buf: array<byte>, count: nat)
    requires n < U64_RANGE
    ensures fresh(buf) && count <= buf.Length == 8
    ensures Reversed(buf[..count]) == Be(n)
  {
    U64InEightBytes(n);
    buf := new byte[8](_ => 0);
    count := 0;
    var x := n;
    while x > 0
      invariant count <= 8 && count + |Be(x)| == |Be(n)|
      invariant Be(n) == Be(x) + Reversed(buf[..count])
      decreases x
    {
      ghost var low := buf[..count];
      buf[count] := x % 256;
      x := x / 256;
      count := count + 1;
      assert buf[..count] == low + [buf[count - 1]];
      ReversedSnoc(low, buf[count - 1]);
    }
  }

  method WriteDefiniteLength(out: ByteBuffer, len: nat)
    requires len < U64_RANGE
    modifies out
    ensures out.bytes == old(out.bytes) + DerLength(len)
  {
    if len < 0x80 {
      out.Push(len);
      return;
    }
    var buf, count := DigitsOf(len);
    ReversedLength(buf[..count]);
    out.Push(0x80 + count);
    PushBackwards(out, buf, count);
    Assoc(old(out.bytes), [0x80 + count], Be(len));
  }

  // One turn of the scan: how many octets the OCTET STRING at the start spans.
  method ReadOctetString(input: seq<byte>) returns (span: Option<nat>)
    ensures span == OctetStringSpan(input)
  {
    var tagRead := ReadTag(input);
    if !tagRead.Ok? {
      return None;
    }
    var TagSplit(tag, afterTag) := tagRead.value;
    if tag[0] != 0x04 {
      return None;
    }
    var lengthRead := ReadLength(afterTag);
    if !lengthRead.Ok? || lengthRead.value.info.Indefinite? {
      return None;
    }
    var LengthSplit(info, after) := lengthRead.value;
    if |after| < info.length {
      return None;
    }
    return Some(|input| - |after| + info.length);
  }

  method AllChildrenAreOctetStrings(input: seq<byte>) returns (yes: bool)
    ensures yes == AllOctetStrings(input)
  {
    var cur := input;
    var count := 0;
    while cur != []
      invariant OnlyOctetStrings(input) == OnlyOctetStrings(cur)
      invariant count >= 0 && |cur| <= |input| && (count == 0 <==> |cur| == |input|)
      decreases |cur|
    {
      var span := ReadOctetString(cur);
      if span.None? {
        return false;
      }
      cur := cur[span.value..];
      count := count + 1;
    }
    return count > 0;
  }

  // What a loop has appended so far, followed by what is still to come.
  function After(done: seq<byte>, rest: Outcome<seq<byte>>): Outcome<seq<byte>> {
    match rest case Ok(more) => Ok(done + more) case Err => Err case Panic => Panic
  }

  function Further(done: nat, rest: Outcome<nat>): Outcome<nat> {
    match rest case Ok(more) => Ok(done + more) case Err => Err case Panic => Panic
  }

  lemma AfterAfter(done: seq<byte>, more: seq<byte>, rest: Outcome<seq<byte>>)
    ensures After(done + more, rest) == After(done, After(more, rest))
    ensures After([], rest) == rest
  {
    if rest.Ok? {
      assert (done + more) + rest.value == done + (more + rest.value);
      assert [] + rest.value == rest.value;
    }
  }

  function Count(r: Outcome<Piece>): Outcome<nat> {
    match r case Ok(Piece(n, _)) => Ok(n) case Err => Err case Panic => Panic
  }

  lemma WalkStep(s: seq<byte>)
    requires !AtEndOfContents(s)
    ensures Walk(s) == match Count(Rewrite(s))
                       case Ok(n) => Further(n, Walk(s[n..]))
                       case Err => Err
                       case Panic => Panic
  {
    match Rewrite(s) {
      case Ok(p) => assert Walk(s) == Further(p.octets, Walk(s[p.octets..]));
      case Err => assert Walk(s).Err?;
      case Panic => assert Walk(s).Panic?;
    }
  }

  lemma FurtherFurther(done: nat, more: nat, rest: Outcome<nat>)
    ensures Further(done + more, rest) == Further(done, Further(more, rest))
  {
  }

  // Rewrites a value into a buffer that is thrown away.
  method SkipOne(input: seq<byte>) returns (r: Outcome<nat>)
    requires |input| < MAX_INPUT
    ensures r == Count(Rewrite(input))
    decreases |input|, 2
  {
    var scratch := new ByteBuffer();
    r := RewriteOne(input, scratch);
  }

  // The boundary walk of RewriteOne and FlattenPrimitive, which the source spells out twice.
  method FindEndOfContents(after: seq<byte>) returns (r: Outcome<nat>)
    requires |after| < MAX_INPUT
    ensures r == Walk(after)
    decreases |after|, 3
  {
    var cur := after;
    var total: nat := 0;
    while !AtEndOfContents(cur)
      invariant |cur| <= |after|
      invariant Walk(after) == Further(total, Walk(cur))
      decreases |cur|
    {
      WalkStep(cur);
      var n := SkipOne(cur);
      if !n.Ok? {
        return n;
      }
      FurtherFurther(total, n.value, Walk(cur[n.value..]));
      cur := cur[n.value..];
      total := total + n.value;
    }
    assert Walk(cur) == Ok(2);
    return Ok(total + 2);
  }

  method RewriteOne(input: seq<byte>, out: ByteBuffer) returns (r: Outcome<nat>)
    requires |input| < MAX_INPUT
    modifies out
    ensures r == Count(Rewrite(input))
    ensures if r.Ok? then out.bytes == old(out.bytes) + Rewrite(input).value.out else out.bytes == old(out.bytes)
    decreases |input|, 1
  {
    if AtEndOfContents(input) {
      return Ok(2);
    }
    var dissected := DissectOne(input);
    if !dissected.Ok? {
      return if dissected.Err? then Err else Panic;
    }
    var Parsed(tag, content, n) := dissected.value;
    var parts := ToDerParts(tag, content);
    if !parts.Ok? {
      return if parts.Err? then Err else Panic;
    }
    WriteValue(out, parts.value.tag, parts.value.content);
    return Ok(n);
  }

  // Taking a value apart, by how far it succeeds.
  lemma DissectFails(s: seq<byte>)
    requires TagOf(s).Err? || LengthOf(TagOf(s).value.rest).Err?
    ensures Dissect(s) == Err
  {
  }

  lemma DissectIs(s: seq<byte>, tag: seq<byte>, info: LengthInfo, after: seq<byte>)
    requires TagOf(s).Ok? && TagOf(s).value.tag == tag
    requires LengthOf(TagOf(s).value.rest).Ok? && LengthOf(TagOf(s).value.rest).value == LengthSplit(info, after)
    ensures Extent(info, after).Ok? ==>
              Dissect(s).Ok? && Dissect(s).value.tag == tag
              && Dissect(s).value.content == after[..Extent(info, after).value.length]
              && Dissect(s).value.octets == |s| - |after| + Extent(info, after).value.total
    ensures Extent(info, after).Err? ==> Dissect(s).Err?
    ensures Extent(info, after).Panic? ==> Dissect(s).Panic?
  {
  }

  // How RewriteOne starts: identifier, length and the extent of the contents.
  method DissectOne(input: seq<byte>) returns (r: Outcome<Parsed>)
    requires |input| < MAX_INPUT
    ensures r == Dissect(input)
    decreases |input|, 0
  {
    var tagRead := ReadTag(input);
    if !tagRead.Ok? {
      return Err;
    }
    var TagSplit(tag, afterTag) := tagRead.value;
    var lengthRead := ReadLength(afterTag);
    if !lengthRead.Ok? {
      DissectFails(input);
      return Err;
    }
    var LengthSplit(info, after) := lengthRead.value;
    DissectIs(input, tag, info, after);
    match info {
      case Definite(n) =>
        if |after| < n {
          return Err;
        }
        return Ok(Parsed(tag, after[..n], |input| - |after| + n));
      case Indefinite =>
        var total := FindEndOfContents(after);
        if !total.Ok? {
          return if total.Err? then Err else Panic;
        }
        return Ok(Parsed(tag, after[..total.value - 2], |input| - |after| + total.value));
    }
  }

  // Appends identifier, length and contents octets.
  method WriteValue(out: ByteBuffer, tag: seq<byte>, content: seq<byte>)
    requires |content| < U64_RANGE
    modifies out
    ensures out.bytes == old(out.bytes) + Value(tag, content)
  {
    out.Extend(tag);
    WriteDefiniteLength(out, |content|);
    out.Extend(content);
    Assoc(old(out.bytes), tag, DerLength(|content|));
    Assoc(old(out.bytes), tag + DerLength(|content|), content);
  }

  // The middle of RewriteOne: which tag and contents to write.
  method ToDerParts(tag: seq<byte>, content: seq<byte>) returns (r: Outcome<Parts>)
    requires tag != [] && |content| < MAX_INPUT
    ensures r == DerParts(tag, content)
    ensures r.Ok? ==> |r.value.content| < U64_RANGE
    decreases |content|, 4
  {
    var expected := FindSegmentNumber(tag[0], content);
    if expected.Some? {
      var flat := FlattenPrimitive(content, expected.value);
      if !flat.Ok? {
        return if flat.Err? then Err else Panic;
      }
      FlattenShrinks(content, expected.value);
      return Ok(Parts([ClearConstructed(tag[0])], flat.value));
    }
    if !Constructed(tag[0]) {
      return Ok(Parts(tag, content));
    }
    var inner := Normalize(content);
    if !inner.Ok? {
      return if inner.Err? then Err else Panic;
    }
    NormalSize(content);
    return Ok(Parts(tag, inner.value));
  }

  method FindSegmentNumber(lead: byte, content: seq<byte>) returns (expected: Option<byte>)
    ensures expected == SegmentNumber(lead, content)
  {
    if Constructed(lead) && Class(lead) == 0 && TagNumber(lead) in {3, 4} {
      return Some(TagNumber(lead));
    }
    if Constructed(lead) && Class(lead) == 2 {
      var allOctetStrings := AllChildrenAreOctetStrings(content);
      if allOctetStrings {
        return Some(4);
      }
    }
    return None;
  }

  method Normalize(input: seq<byte>) returns (r: Outcome<seq<byte>>)
    requires |input| < MAX_INPUT
    ensures r == Normal(input)
    decreases |input|, 2
  {
    var out := new ByteBuffer();
    var cur := input;
    AfterAfter([], [], Normal(input));
    while cur != []
      invariant |cur| <= |input|
      invariant fresh(out)
      invariant Normal(input) == After(out.bytes, Normal(cur))
      decreases |cur|
    {
      ghost var done := out.bytes;
      var n := RewriteOne(cur, out);
      if !n.Ok? {
        return if n.Err? then Err else Panic;
      }
      AfterAfter(done, Rewrite(cur).value.out, Normal(cur[n.value..]));
      cur := cur[n.value..];
    }
    assert out.bytes + [] == out.bytes;
    return Ok(out.bytes);
  }

  method FindSegmentEnd(info: LengthInfo, after: seq<byte>) returns (r: Outcome<Span>)
    requires |after| < MAX_INPUT
    ensures r == SegmentExtent(info, after)
    decreases |after|, 4
  {
    match info {
      case Definite(n) =>
        if |after| < n {
          return Panic;  // the slice after_len[..n] is out of range
        }
        return Ok(Span(n, n));
      case Indefinite =>
        var total := FindEndOfContents(after);
        if !total.Ok? {
          return if total.Err? then Err else Panic;
        }
        return Ok(Span(total.value - 2, total.value));
    }
  }

  method FlattenPrimitive(input: seq<byte>, expected: byte) returns (r: Outcome<seq<byte>>)
    requires |input| < MAX_INPUT
    ensures r == Flatten(input, expected)
    decreases |input|, 3
  {
    var out := new ByteBuffer();
    var cur := input;
    AfterAfter([], [], Flatten(input, expected));
    while cur != []
      invariant |cur| <= |input|
      invariant fresh(out)
      invariant Flatten(input, expected) == After(out.bytes, Flatten(cur, expected))
      decreases |cur|
    {
      ghost var done := out.bytes;
      var segment := ReadSegment(cur, expected);
      if !segment.Ok? {
        return if segment.Err? then Err else Panic;
      }
      var Piece(consumed, content) := segment.value;
      out.Extend(content);
      AfterAfter(done, content, Flatten(cur[consumed..], expected));
      cur := cur[consumed..];
    }
    assert out.bytes + [] == out.bytes;
    return Ok(out.bytes);
  }

  // One turn of FlattenPrimitive's loop.
  method ReadSegment(input: seq<byte>, expected: byte) returns (r: Outcome<Piece>)
    requires |input| < MAX_INPUT
    ensures r == Segment(input, expected)
    decreases |input|, 2
  {
    var tagRead := ReadTag(input);
    if !tagRead.Ok? {
      return Err;
    }
    var TagSplit(tag, afterTag) := tagRead.value;
    if Class(tag[0]) != 0 || TagNumber(tag[0]) != expected {
      return Err;
    }
    var lengthRead := ReadLength(afterTag);
    if !lengthRead.Ok? {
      return Err;
    }
    var LengthSplit(info, after) := lengthRead.value;
    var extent := FindSegmentEnd(info, after);
    if !extent.Ok? {
      return if extent.Err? then Err else Panic;
    }
    var Span(length, total) := extent.value;
    if !Constructed(tag[0]) {
      return Ok(Piece(|input| - |after| + total, after[..length]));
    }
    var inner := FlattenPrimitive(after[..length], expected);
    if !inner.Ok? {
      return if inner.Err? then Err else Panic;
    }
    return Ok(Piece(|input| - |after| + total, inner.value));
  }
}

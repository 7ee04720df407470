/**
 Reading calldata words and `uint256[]` arguments (crates/core/src/evm/abi.rs).
 */
module AbiArrays {
  import opened Bytes
  import opened Wrappers
  import opened Seqs

  datatype AbiError =
    | TooShort(have: nat, need: nat)
    | BadDynamicOffset(offset: nat)
    | ArrayTooLong(length: nat, cap: nat)
    | WrongSelector(actual: seq<byte>)
    | Overflowed  // an address computation exceeds a 64-bit usize and the process aborts

  const ARRAY_CAP: nat := 256

  // ---------- words ----------

  function RequireSelector(calldata: seq<byte>, expected: seq<byte>): Result<seq<byte>, AbiError> {
    if |calldata| < 4 then Failure(TooShort(|calldata|, 4))
    else if calldata[..4] != expected then Failure(WrongSelector(calldata[..4]))
    else Success(calldata[4..])
  }

  function Word(args: seq<byte>, i: nat): (r: Result<seq<byte>, AbiError>)
    ensures r.Success? ==> |r.value| == 32
  {
    if |args| < i * 32 + 32 then Failure(TooShort(|args|, i * 32 + 32))
    else Success(args[i * 32..i * 32 + 32])
  }

  function WordU256(args: seq<byte>, i: nat): Result<nat, AbiError> {
    var w :- Word(args, i);
    Success(FromBe(w))
  }

  function WordAddress(args: seq<byte>, i: nat): Result<seq<byte>, AbiError> {
    var w :- Word(args, i);
    Success(w[12..])
  }

  // ---------- dynamic arrays ----------

  // Element k of the array whose first element starts at `start`.
  function Element(args: seq<byte>, start: nat, k: nat): nat
    requires start + k * 32 + 32 <= |args|
  {
    FromBe(args[start + k * 32..start + k * 32 + 32])
  }

  function Elements(args: seq<byte>, start: nat, count: nat): (r: seq<nat>)
    requires start + count * 32 <= |args|
    ensures |r| == count && forall k :: 0 <= k < count ==> r[k] == Element(args, start, k)
  {
    if count == 0 then [] else Elements(args, start, count - 1) + [Element(args, start, count - 1)]
  }

  // Where the array's length word is, if the offset word is acceptable.
  function ArrayOffset(args: seq<byte>, staticWords: nat, i: nat): Result<nat, AbiError> {
    var off :- WordU256(args, i);
    if off >= U64_RANGE then Failure(BadDynamicOffset(U64_RANGE - 1))
    else if off < staticWords * 32 then Failure(BadDynamicOffset(off))
    else if off + 32 >= U64_RANGE then Failure(Overflowed)
    else if |args| < off + 32 then Failure(TooShort(|args|, off + 32))
    else Success(off)
  }

  function DynamicU256Array(args: seq<byte>, staticWords: nat, i: nat): Result<seq<nat>, AbiError> {
    var off :- ArrayOffset(args, staticWords, i);
    var count := FromBe(args[off..off + 32]);
    if count >= U64_RANGE then Failure(ArrayTooLong(U64_RANGE - 1, ARRAY_CAP))
    else if count > ARRAY_CAP then Failure(ArrayTooLong(count, ARRAY_CAP))
    else if off + 32 + count * 32 >= U64_RANGE then Failure(Overflowed)
    else if |args| < off + 32 + count * 32 then Failure(TooShort(|args|, off + 32 + count * 32))
    else Success(Elements(args, off + 32, count))
  }

  method ReadU256Array(args: seq<byte>, staticWords: nat, i: nat) returns (r: Result<seq<nat>, AbiError>)
    ensures r == DynamicU256Array(args, staticWords, i)
  {
    var offset := ArrayOffset(args, staticWords, i);
    if offset.Failure? {
      return Failure(offset.error);
    }
    var off := offset.value;
    var length := FromBe(args[off..off + 32]);
    if length >= U64_RANGE {
      return Failure(ArrayTooLong(U64_RANGE - 1, ARRAY_CAP));
    }
    if length > ARRAY_CAP {
      return Failure(ArrayTooLong(length, ARRAY_CAP));
    }
    var start := off + 32;
    if start + length * 32 >= U64_RANGE {
      return Failure(Overflowed);
    }
    if |args| < start + length * 32 {
      return Failure(TooShort(|args|, start + length * 32));
    }
    var out: seq<nat> := [];
    for k := 0 to length
      invariant out == Elements(args, start, k)
    {
      var s := start + k * 32;
      out := out + [FromBe(args[s..s + 32])];
    }
    return Success(out);
  }

  // ---------- the Solidity encoding ----------

  function Words(values: seq<nat>): (r: seq<byte>)
    ensures |r| == 32 * |values|
  {
    if values == [] then [] else FixedBe(values[0], 32) + Words(values[1..])
  }

  // An array argument: its length and its values, a word each.
  function EncArray(values: seq<nat>): seq<byte> { FixedBe(|values|, 32) + Words(values) }

  predicate AllU256(values: seq<nat>) {
    forall i :: 0 <= i < |values| ==> values[i] < U256_RANGE
  }

  lemma {:induction false} WordsAt(values: seq<nat>, k: nat)
    requires k < |values|
    ensures Words(values)[32 * k..32 * k + 32] == FixedBe(values[k], 32)
  {
    var first := FixedBe(values[0], 32);
    if k == 0 {
      Split(first, Words(values[1..]));
    } else {
      WordsAt(values[1..], k - 1);
      Shift(first, Words(values[1..]), 32 * (k - 1), 32 * k);
    }
  }

  lemma Shift<T>(a: seq<T>, b: seq<T>, i: nat, j: nat)
    requires i <= j <= |b|
    ensures (a + b)[|a| + i..|a| + j] == b[i..j]
  {
  }

  lemma SliceSlice<T>(s: seq<T>, a: nat, b: nat, i: nat, j: nat)
    requires a <= b <= |s| && i <= j <= b - a
    ensures s[a..b][i..j] == s[a + i..a + j]
  {
    var left, right := s[a..b][i..j], s[a + i..a + j];
    assert forall k :: 0 <= k < j - i ==> left[k] == right[k];
  }

  lemma WordRoundTrip(n: nat)
    requires n < U256_RANGE
    ensures FromBe(FixedBe(n, 32)) == n
  {
    U256InWord(n);
    FixedBeRoundTrip(n, 32);
  }

  // The array is stored at offset off.
  predicate StoredAt(args: seq<byte>, off: nat, values: seq<nat>) {
    off + 32 + 32 * |values| <= |args| && args[off..off + 32 + 32 * |values|] == EncArray(values)
  }

  lemma StoredLength(args: seq<byte>, off: nat, values: seq<nat>)
    requires StoredAt(args, off, values) && |values| < U256_RANGE
    ensures FromBe(args[off..off + 32]) == |values|
  {
    SliceSlice(args, off, off + 32 + 32 * |values|, 0, 32);
    Split(FixedBe(|values|, 32), Words(values));
    WordRoundTrip(|values|);
  }

  lemma StoredElement(args: seq<byte>, off: nat, values: seq<nat>, k: nat)
    requires StoredAt(args, off, values) && AllU256(values) && k < |values|
    ensures Element(args, off + 32, k) == values[k]
  {
    var from := 32 * k;
    var whole := EncArray(values);
    SliceSlice(args, off, off + |whole|, 32 + from, 32 + from + 32);
    Shift(FixedBe(|values|, 32), Words(values), from, from + 32);
    WordsAt(values, k);
    WordRoundTrip(values[k]);
    assert args[off + 32 + from..off + 32 + from + 32] == FixedBe(values[k], 32);
  }

  // Reading inverts the encoding: whatever else the arguments hold, an array of at most 256
  // values stored at the offset its word names, behind the static words, is returned exactly.
  lemma ReadsStored(args: seq<byte>, staticWords: nat, i: nat, off: nat, values: seq<nat>)
    requires |args| < U64_RANGE && WordU256(args, i) == Success(off) && off >= staticWords * 32
    requires StoredAt(args, off, values) && AllU256(values) && |values| <= ARRAY_CAP
    ensures DynamicU256Array(args, staticWords, i) == Success(values)
  {
    StoredLength(args, off, values);
    var read := Elements(args, off + 32, |values|);
    forall k | 0 <= k < |values| ensures read[k] == values[k] {
      StoredElement(args, off, values, k);
    }
    assert read == values;
  }

  lemma {:induction false} WordsOf(values: seq<nat>, octets: seq<byte>)
    requires |octets| == 32 * |values|
    requires forall k :: 0 <= k < |values| ==> FixedBe(values[k], 32) == octets[32 * k..32 * k + 32]
    ensures Words(values) == octets
  {
    if values != [] {
      var rest := octets[32..];
      forall k | 0 <= k < |values| - 1 ensures FixedBe(values[1..][k], 32) == rest[32 * k..32 * k + 32] {
        assert FixedBe(values[k + 1], 32) == octets[32 * (k + 1)..32 * (k + 1) + 32];
        SliceSlice(octets, 32, |octets|, 32 * k, 32 * k + 32);
      }
      WordsOf(values[1..], rest);
      assert FixedBe(values[0], 32) == octets[0..32];
    }
  }

  // The elements read are the octets they were read from.
  lemma ElementsOctets(args: seq<byte>, start: nat, count: nat)
    requires start + count * 32 <= |args|
    ensures Words(Elements(args, start, count)) == args[start..start + 32 * count]
  {
    var values := Elements(args, start, count);
    var octets := args[start..start + 32 * count];
    forall k | 0 <= k < count ensures FixedBe(values[k], 32) == octets[32 * k..32 * k + 32] {
      SliceSlice(args, start, start + 32 * count, 32 * k, 32 * k + 32);
      FixedBeOfFromBe(args[start + k * 32..start + k * 32 + 32]);
    }
    WordsOf(values, octets);
  }

  lemma WordFits(w: seq<byte>)
    requires |w| == 32
    ensures FromBe(w) < U256_RANGE
  {
    FromBeBound(w);
    U256InWord(FromBe(w));
  }

  lemma ElementsFit(args: seq<byte>, start: nat, count: nat)
    requires start + count * 32 <= |args|
    ensures AllU256(Elements(args, start, count))
  {
    forall k | 0 <= k < count ensures Elements(args, start, count)[k] < U256_RANGE {
      WordFits(args[start + k * 32..start + k * 32 + 32]);
    }
  }

  // The array whose offset is word i of the arguments, behind the static words.
  predicate HasArray(args: seq<byte>, staticWords: nat, i: nat, values: seq<nat>) {
    && i * 32 + 32 <= |args| && |values| <= 256 && AllU256(values)
    && var off := FromBe(args[i * 32..i * 32 + 32]);
       off >= staticWords * 32 && StoredAt(args, off, values)
  }

  // A length word and as many elements behind it are the encoding of an array.
  lemma ElementsAreStored(args: seq<byte>, off: nat, count: nat)
    requires off + 32 + count * 32 <= |args| && FromBe(args[off..off + 32]) == count
    ensures StoredAt(args, off, Elements(args, off + 32, count)) && AllU256(Elements(args, off + 32, count))
  {
    FixedBeOfFromBe(args[off..off + 32]);
    ElementsFit(args, off + 32, count);
    ElementsOctets(args, off + 32, count);
    Adjacent(args, off, off + 32, off + 32 + 32 * count);
  }

  lemma ArrayParts(args: seq<byte>, staticWords: nat, i: nat) returns (off: nat, count: nat)
    requires DynamicU256Array(args, staticWords, i).Success?
    ensures WordU256(args, i).Success? && WordU256(args, i).value == off >= staticWords * 32
    ensures count <= ARRAY_CAP && off + 32 + count * 32 <= |args| && FromBe(args[off..off + 32]) == count
    ensures DynamicU256Array(args, staticWords, i).value == Elements(args, off + 32, count)
  {
    off := ArrayOffset(args, staticWords, i).value;
    count := FromBe(args[off..off + 32]);
  }

  // And only such arrays are returned.
  lemma ReadIsStored(args: seq<byte>, staticWords: nat, i: nat)
    requires DynamicU256Array(args, staticWords, i).Success?
    ensures WordU256(args, i).Success?
    ensures var off, values := WordU256(args, i).value, DynamicU256Array(args, staticWords, i).value;
            off >= staticWords * 32 && |values| <= ARRAY_CAP && AllU256(values) && StoredAt(args, off, values)
  {
    var off, count := ArrayParts(args, staticWords, i);
    ElementsAreStored(args, off, count);
  }

  // What a refusal says is so.
  lemma RefusalsAreTrue(args: seq<byte>, staticWords: nat, i: nat)
    requires DynamicU256Array(args, staticWords, i).Failure?
    ensures match DynamicU256Array(args, staticWords, i).error
            case TooShort(have, need) => have == |args| < need
            case BadDynamicOffset(offset) =>
              && i * 32 + 32 <= |args|
              && var word := FromBe(args[i * 32..i * 32 + 32]);
                 if word < U64_RANGE then offset == word < staticWords * 32 else offset == U64_RANGE - 1
            case ArrayTooLong(length, cap) => cap == 256 < length < U64_RANGE
            case Overflowed =>
              && i * 32 + 32 <= |args|
              && U64_RANGE <= FromBe(args[i * 32..i * 32 + 32]) + 32 + 256 * 32
            case WrongSelector(_) => false
  {
  }

  // So reading returns a list exactly when the arguments hold its encoding.
  lemma ReadsExactly(args: seq<byte>, staticWords: nat, i: nat, values: seq<nat>)
    requires |args| < U64_RANGE
    ensures DynamicU256Array(args, staticWords, i) == Success(values) <==> HasArray(args, staticWords, i, values)
  {
    if DynamicU256Array(args, staticWords, i) == Success(values) {
      ReadIsStored(args, staticWords, i);
    }
    if HasArray(args, staticWords, i, values) {
      ReadsStored(args, staticWords, i, WordU256(args, i).value, values);
    }
  }
}

/**
 Byte strings and big-endian numbers, the vocabulary of the BER, RLP and ABI encodings.
 */
module Bytes {
  type byte = b: int | 0 <= b < 256

  // One more than the largest value of a 64-bit usize or u64.
  const U64_RANGE: nat := 0x1_0000_0000_0000_0000

  // One more than the largest 256-bit value.
  const U256_RANGE: nat :=
    0x1_0000_0000_0000_0000_0000_0000_0000_0000_0000_0000_0000_0000_0000_0000_0000_0000

  // A growable byte vector that callees append to in place.
  class ByteBuffer {
    var bytes: seq<byte>

    constructor ()
      ensures bytes == []
    {
      bytes := [];
    }

    method Push(b: byte)
      modifies this
      ensures bytes == old(bytes) + [b]
    {
      bytes := bytes + [b];
    }

    method Extend(s: seq<byte>)
      modifies this
      ensures bytes == old(bytes) + s
    {
      bytes := bytes + s;
    }
  }

  function Pow(b: nat, e: nat): nat {
    if e == 0 then 1 else b * Pow(b, e - 1)
  }

  lemma {:induction false} PowPositive(b: nat, e: nat)
    requires b > 0
    ensures Pow(b, e) > 0
  {
    if e > 0 {
      PowPositive(b, e - 1);
    }
  }

  lemma {:induction false} PowMonotone(b: nat, e: nat, f: nat)
    requires b > 0 && e <= f
    ensures Pow(b, e) <= Pow(b, f)
    decreases f
  {
    if e < f {
      PowMonotone(b, e, f - 1);
      PowPositive(b, f - 1);
      GrowByFactor(b, Pow(b, f - 1));
    }
  }

  lemma {:induction false} PowAdd(b: nat, x: nat, y: nat)
    ensures Pow(b, x + y) == Pow(b, x) * Pow(b, y)
  {
    if x > 0 {
      PowAdd(b, x - 1, y);
      MulAssoc(b, Pow(b, x - 1), Pow(b, y));
    }
  }

  lemma MulAssoc(a: nat, b: nat, c: nat)
    ensures a * (b * c) == (a * b) * c
  {
  }

  lemma GrowByFactor(b: nat, x: nat)
    requires b > 0
    ensures x <= b * x
  {
  }

  // The number a byte string denotes, most significant byte first.
  function FromBe(s: seq<byte>): nat {
    if s == [] then 0 else 256 * FromBe(s[..|s| - 1]) + s[|s| - 1]
  }

  // The shortest big-endian form: no leading zero byte, and nothing at all for 0.
  function Be(n: nat): seq<byte> {
    if n == 0 then [] else Be(n / 256) + [n % 256]
  }

  // The big-endian form in exactly k bytes, truncated modulo 256^k.
  function FixedBe(n: nat, k: nat): (s: seq<byte>)
    ensures |s| == k
  {
    if k == 0 then [] else FixedBe(n / 256, k - 1) + [n % 256]
  }

  lemma {:induction false} BeRoundTrip(n: nat)
    ensures FromBe(Be(n)) == n
    ensures n > 0 ==> Be(n) != [] && Be(n)[0] != 0
  {
    if n > 0 {
      BeRoundTrip(n / 256);
      assert Be(n)[..|Be(n)| - 1] == Be(n / 256);
    }
  }

  lemma {:induction false} FixedBeRoundTrip(n: nat, k: nat)
    requires n < Pow(256, k)
    ensures FromBe(FixedBe(n, k)) == n
  {
    if k > 0 {
      assert n / 256 < Pow(256, k - 1);
      FixedBeRoundTrip(n / 256, k - 1);
      assert FixedBe(n, k)[..k - 1] == FixedBe(n / 256, k - 1);
    }
  }

  lemma {:induction false} FromBeBound(s: seq<byte>)
    ensures FromBe(s) < Pow(256, |s|)
  {
    if s != [] {
      FromBeBound(s[..|s| - 1]);
    }
  }

  // k bytes are enough for the shortest form exactly when the number is below 256^k.
  lemma {:induction false} BeLength(n: nat, k: nat)
    ensures |Be(n)| <= k <==> n < Pow(256, k)
    decreases k
  {
    if n == 0 {
      PowPositive(256, k);
    } else if k > 0 {
      BeLength(n / 256, k - 1);
      assert n < 256 * Pow(256, k - 1) <==> n / 256 < Pow(256, k - 1);
    }
  }

  lemma U64InEightBytes(n: nat)
    ensures n < U64_RANGE <==> |Be(n)| <= 8
  {
    BeLength(n, 8);
    assert Pow(256, 2) == 0x1_0000;
    assert Pow(256, 4) == 0x1_0000_0000;
    assert Pow(256, 8) == U64_RANGE;
  }

  // Two byte strings of one length that denote the same number are the same string.
  lemma {:induction false} FromBeInjective(s: seq<byte>, t: seq<byte>)
    requires |s| == |t| && FromBe(s) == FromBe(t)
    ensures s == t
  {
    if s != [] {
      var n := |s| - 1;
      FromBeInjective(s[..n], t[..n]);
      assert s == s[..n] + [s[n]] && t == t[..n] + [t[n]];
    }
  }

  // Writing the number of a byte string in as many bytes gives the string back.
  lemma FixedBeOfFromBe(s: seq<byte>)
    ensures FixedBe(FromBe(s), |s|) == s
  {
    FromBeBound(s);
    FixedBeRoundTrip(FromBe(s), |s|);
    FromBeInjective(FixedBe(FromBe(s), |s|), s);
  }

  lemma U256InWord(n: nat)
    ensures n < U256_RANGE <==> n < Pow(256, 32)
  {
    assert Pow(256, 4) == 0x1_0000_0000;
    PowAdd(256, 4, 4);
    PowAdd(256, 8, 8);
    PowAdd(256, 16, 16);
  }

  function Repeat<T>(x: T, n: nat): (s: seq<T>)
    ensures |s| == n
  {
    seq(n, _ => x)
  }
}

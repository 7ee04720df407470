/**
 Decimal strings scaled to integers: `parse_decimal_to_scaled` (crates/core/src/intents.rs)
 and `decimal_usdc_to_base_units` (crates/server/src/routes/sign_evm_tx.rs), with 256-bit
 overflow checks.
 */
module DecimalScaling {
  import opened Bytes
  import opened Wrappers
  import opened Decimals

  datatype DecimalError = InvalidDecimalString | TooManyDigits | Overflow

  type Scaled = Result<nat, DecimalError>

  // ---------- the parsers as functions ----------

  // The pieces of s between dots; at least one.
  function SplitDots(s: string): (r: seq<string>)
    ensures r != []
  {
    if s == "" then [""]
    else
      var rest := SplitDots(s[1..]);
      if s[0] == '.' then [""] + rest else [[s[0]] + rest[0]] + rest[1..]
  }

  // A number that must fit in 256 bits.
  function Checked(n: nat): Scaled {
    if n < U256_RANGE then Success(n) else Failure(Overflow)
  }

  function Zeros(n: nat): (s: string)
    ensures |s| == n && AllDigits(s)
  {
    if n == 0 then "" else Zeros(n - 1) + "0"
  }

  // Padded with zeros to `decimals` digits, and cut to as many.
  function Padded(frac: string, decimals: nat): (s: string)
    requires AllDigits(frac)
    ensures |s| == decimals && AllDigits(s)
  {
    if |frac| < decimals then frac + Zeros(decimals - |frac|) else frac[..decimals]
  }

  function ParseScaled(value: string, decimals: nat): Scaled {
    var parts := SplitDots(value);
    if |parts| > 2 then Failure(InvalidDecimalString)
    else if parts[0] == "" || !AllDigits(parts[0]) then Failure(InvalidDecimalString)
    else if |parts| == 2 && (parts[1] == "" || !AllDigits(parts[1])) then Failure(InvalidDecimalString)
    else Scale(parts[0], if |parts| == 2 then parts[1] else "", decimals)
  }

  function Scale(whole: string, frac: string, decimals: nat): Scaled
    requires AllDigits(whole) && AllDigits(frac)
  {
    Combine(whole, Padded(frac, decimals), decimals)
  }

  // Two digit strings read and combined with 256-bit checked arithmetic.
  function Combine(whole: string, padded: string, decimals: nat): Scaled
    requires AllDigits(whole) && AllDigits(padded)
  {
    CheckedSum(NumberOf(whole), if padded == "" then 0 else NumberOf(padded), Pow(10, decimals))
  }

  function CheckedSum(whole: nat, frac: nat, scale: nat): Scaled {
    var wholeU :- Checked(whole);
    var fracU :- Checked(frac);
    var scaleU :- Checked(scale);
    var scaled :- Checked(wholeU * scaleU);
    Checked(scaled + fracU)
  }

  // ---------- the loops ----------

  method ParseDecimalToScaled(value: string, decimals: nat) returns (r: Scaled)
    ensures r == ParseScaled(value, decimals)
  {
    var parts := SplitDots(value);
    if |parts| > 2 {
      return Failure(InvalidDecimalString);
    }
    var intPart := parts[0];
    var fracPart := if |parts| == 2 then parts[1] else "";
    if intPart == "" || !AllDigits(intPart) {
      return Failure(InvalidDecimalString);
    }
    if |parts| == 2 && (fracPart == "" || !AllDigits(fracPart)) {
      return Failure(InvalidDecimalString);
    }
    var padded := fracPart;
    assert fracPart + Zeros(0) == fracPart;
    while |padded| < decimals
      invariant |fracPart| <= |padded| <= if |fracPart| < decimals then decimals else |fracPart|
      invariant padded == fracPart + Zeros(|padded| - |fracPart|)
      decreases decimals - |padded|
    {
      padded := padded + "0";
    }
    padded := padded[..decimals];
    assert padded == Padded(fracPart, decimals);
    return Combine(intPart, padded, decimals);
  }

  // Splits at the first dot, if there is one.
  function SplitOnce(s: string): (r: (string, string)) {
    if s == "" then ("", "")
    else if s[0] == '.' then ("", s[1..])
    else
      var (before, after) := SplitOnce(s[1..]);
      ([s[0]] + before, after)
  }

  // Only digit strings are read here; what the 256-bit parser does with others is not modelled.
  function BaseUnits(value: string): Scaled {
    var (whole, frac) := SplitOnce(value);
    if |frac| > 6 then Failure(TooManyDigits)
    else if !AllDigits(whole) || !AllDigits(frac) then Failure(InvalidDecimalString)
    else Checked(NumberOf(whole + frac + Zeros(6 - |frac|)))
  }

  method DecimalUsdcToBaseUnits(value: string) returns (r: Scaled)
    ensures r == BaseUnits(value)
  {
    var (whole, frac) := SplitOnce(value);
    if |frac| > 6 {
      return Failure(TooManyDigits);
    }
    var buf := whole;
    buf := buf + frac;
    ghost var text := buf;
    for i := |frac| to 6
      invariant buf == text + Zeros(i - |frac|)
    {
      buf := buf + "0";
    }
    if !AllDigits(whole) || !AllDigits(frac) {
      return Failure(InvalidDecimalString);
    }
    return Checked(NumberOf(buf));
  }

  // ---------- what they compute ----------

  // digits, or digits.digits
  function Text(whole: string, frac: Option<string>): string {
    if frac.Some? then whole + "." + frac.value else whole
  }

  predicate Numeric(whole: string, frac: Option<string>) {
    whole != "" && AllDigits(whole) && (frac.Some? ==> frac.value != "" && AllDigits(frac.value))
  }

  function FracDigits(frac: Option<string>): string {
    if frac.Some? then frac.value else ""
  }

  // The number written with a point before the last |frac| digits, times 10^decimals,
  // rounded down.
  function FloorScaled(whole: string, frac: string, decimals: nat): nat
    requires AllDigits(whole) && AllDigits(frac)
  {
    PowPositive(10, |frac|);
    FloorDiv(NumberOf(whole + frac) * Pow(10, decimals), Pow(10, |frac|))
  }

  function FloorDiv(a: nat, d: nat): nat
    requires d > 0
  {
    a / d
  }

  function FloorOrOverflow(whole: string, frac: string, decimals: nat): Scaled
    requires AllDigits(whole) && AllDigits(frac)
  {
    var n := FloorScaled(whole, frac, decimals);
    if Pow(10, decimals) >= U256_RANGE || n >= U256_RANGE then Failure(Overflow) else Success(n)
  }

  lemma {:induction false} NumberOfConcat(a: string, b: string)
    requires AllDigits(a) && AllDigits(b)
    ensures AllDigits(a + b) && NumberOf(a + b) == NumberOf(a) * Pow(10, |b|) + NumberOf(b)
  {
    if b == "" {
      assert a + b == a;
    } else {
      var b' := b[..|b| - 1];
      assert (a + b)[..|a + b| - 1] == a + b';
      NumberOfConcat(a, b');
      TenTimes(NumberOf(a), Pow(10, |b'|), NumberOf(b'));
    }
  }

  lemma TenTimes(x: nat, power: nat, y: nat)
    ensures 10 * (x * power + y) == x * (10 * power) + 10 * y
  {
  }

  lemma {:induction false} NumberOfBound(s: string)
    requires AllDigits(s)
    ensures NumberOf(s) < Pow(10, |s|)
  {
    if s != "" {
      NumberOfBound(s[..|s| - 1]);
    }
  }

  lemma {:induction false} ZerosAreZero(n: nat)
    ensures NumberOf(Zeros(n)) == 0
  {
    if n > 0 {
      ZerosAreZero(n - 1);
      assert Zeros(n)[..n - 1] == Zeros(n - 1);
    }
  }

  lemma MulMonotone(x: nat, y: nat, d: nat)
    requires x <= y
    ensures x * d <= y * d
  {
  }

  lemma DivBounds(a: nat, d: nat)
    requires d > 0
    ensures a / d * d <= a < a / d * d + d
  {
  }

  lemma FloorUnique(q: nat, a: nat, d: nat)
    requires q * d <= a < q * d + d
    ensures a / d == q
  {
    var p := a / d;
    DivBounds(a, d);
    if p < q {
      MulMonotone(p + 1, q, d);
    } else if q < p {
      MulMonotone(q + 1, p, d);
    }
  }

  // Cancelling a common factor does not change a floor.
  lemma DivCancel(a: nat, d: nat, c: nat)
    requires d > 0 && c > 0
    ensures d * c > 0 && a * c / (d * c) == a / d
  {
    var q := a / d;
    DivBounds(a, d);
    MulMonotone(q * d, a, c);
    MulMonotone(a + 1, q * d + d, c);
    assert (q * d + d) * c == q * d * c + d * c;
    assert (a + 1) * c == a * c + c;
    MulAssoc(q, d, c);
    FloorUnique(q, a * c, d * c);
  }

  // With k fractional digits of at most d: scaling n = i.f by 10^d = 10^z * 10^k is exact.
  lemma ExactQuotient(n: nat, i: nat, f: nat, tenD: nat, tenK: nat, tenZ: nat)
    requires tenK > 0 && n == i * tenK + f && tenD == tenZ * tenK
    ensures FloorDiv(n * tenD, tenK) == i * tenD + f * tenZ
  {
    MulAssoc(n, tenZ, tenK);
    FloorUnique(n * tenZ, (n * tenZ) * tenK, tenK);
    Distribute(i, tenK, f, tenZ);
  }

  lemma ExactSum(n: nat, i: nat, f: nat, padded: nat, tenD: nat, tenK: nat, tenZ: nat)
    requires tenK > 0 && n == i * tenK + f && tenD == tenZ * tenK && padded == f * tenZ
    ensures i * tenD + padded == FloorDiv(n * tenD, tenK)
  {
    ExactQuotient(n, i, f, tenD, tenK, tenZ);
  }

  // With more than d: the quotient drops the digits past the d-th.
  lemma CutQuotient(n: nat, i: nat, frac: nat, kept: nat, dropped: nat, tenK: nat, tenC: nat, tenD: nat)
    requires tenD > 0 && tenK > 0 && dropped < tenC
    requires n == i * tenK + frac && frac == kept * tenC + dropped && tenK == tenC * tenD
    ensures FloorDiv(n * tenD, tenK) == i * tenD + kept
  {
    DivCancel(n, tenC, tenD);
    Distribute(i, tenD, kept, tenC);
    FloorUnique(i * tenD + kept, n, tenC);
  }

  // Padding the fraction loses nothing.
  lemma PaddedIsExact(whole: string, frac: string, decimals: nat)
    requires AllDigits(whole) && AllDigits(frac) && |frac| <= decimals
    ensures NumberOf(whole) * Pow(10, decimals) + NumberOf(Padded(frac, decimals)) == FloorScaled(whole, frac, decimals)
  {
    var k, z := |frac|, decimals - |frac|;
    NumberOfConcat(whole, frac);
    PaddedNumber(frac, decimals);
    PowAdd(10, z, k);
    PowPositive(10, k);
    assert z + k == decimals;
    ExactSum(NumberOf(whole + frac), NumberOf(whole), NumberOf(frac), NumberOf(Padded(frac, decimals)),
             Pow(10, decimals), Pow(10, k), Pow(10, z));
  }

  lemma PaddedNumber(frac: string, decimals: nat)
    requires AllDigits(frac) && |frac| <= decimals
    ensures NumberOf(Padded(frac, decimals)) == NumberOf(frac) * Pow(10, decimals - |frac|)
  {
    if |frac| < decimals {
      NumberOfConcat(frac, Zeros(decimals - |frac|));
      ZerosAreZero(decimals - |frac|);
    } else {
      assert frac[..decimals] == frac;
    }
  }

  // Cutting the fraction rounds down.
  lemma CutIsFloor(whole: string, frac: string, decimals: nat)
    requires AllDigits(whole) && AllDigits(frac) && |frac| > decimals
    ensures NumberOf(whole) * Pow(10, decimals) + NumberOf(Padded(frac, decimals)) == FloorScaled(whole, frac, decimals)
  {
    var cut := |frac| - decimals;
    var kept, dropped := frac[..decimals], frac[decimals..];
    assert frac == kept + dropped;
    NumberOfConcat(whole, frac);
    NumberOfConcat(kept, dropped);
    NumberOfBound(dropped);
    PowAdd(10, cut, decimals);
    PowPositive(10, decimals);
    PowPositive(10, |frac|);
    CutQuotient(NumberOf(whole + frac), NumberOf(whole), NumberOf(frac), NumberOf(kept), NumberOf(dropped),
                Pow(10, |frac|), Pow(10, cut), Pow(10, decimals));
  }

  // Padding or cutting the fraction yields the rounded-down scaled number.
  lemma PaddedIsFloor(whole: string, frac: string, decimals: nat)
    requires AllDigits(whole) && AllDigits(frac)
    ensures NumberOf(whole) * Pow(10, decimals) + NumberOf(Padded(frac, decimals)) == FloorScaled(whole, frac, decimals)
  {
    if |frac| <= decimals {
      PaddedIsExact(whole, frac, decimals);
    } else {
      CutIsFloor(whole, frac, decimals);
    }
  }

  lemma Distribute(i: nat, k: nat, f: nat, z: nat)
    ensures (i * k + f) * z == i * (z * k) + f * z
  {
    assert (i * k + f) * z == i * k * z + f * z;
    assert i * k * z == i * (z * k);
  }

  lemma {:induction false} SplitPlain(s: string)
    requires '.' !in s
    ensures SplitDots(s) == [s]
  {
    if s != "" {
      SplitPlain(s[1..]);
      assert s == [s[0]] + s[1..];
    }
  }

  lemma {:induction false} SplitAtDot(a: string, b: string)
    requires '.' !in a && '.' !in b
    ensures SplitDots(a + "." + b) == [a, b]
    ensures SplitOnce(a + "." + b) == (a, b)
  {
    var s := a + "." + b;
    if a == "" {
      assert s[1..] == b;
      SplitPlain(b);
    } else {
      assert s[1..] == a[1..] + "." + b;
      SplitAtDot(a[1..], b);
      assert a == [a[0]] + a[1..];
    }
  }

  lemma {:induction false} SplitOncePlain(s: string)
    requires '.' !in s
    ensures SplitOnce(s) == (s, "")
  {
    if s != "" {
      SplitOncePlain(s[1..]);
      assert s == [s[0]] + s[1..];
    }
  }

  // Exact floor arithmetic: the result, and exactly when it overflows.
  lemma ScalingIsFloor(whole: string, frac: Option<string>, decimals: nat)
    requires Numeric(whole, frac)
    ensures ParseScaled(Text(whole, frac), decimals) == FloorOrOverflow(whole, FracDigits(frac), decimals)
  {
    if frac.Some? {
      SplitAtDot(whole, frac.value);
    } else {
      SplitPlain(whole);
    }
    ScaleIsFloor(whole, FracDigits(frac), decimals);
  }

  lemma ScaleIsFloor(whole: string, frac: string, decimals: nat)
    requires AllDigits(whole) && AllDigits(frac)
    ensures Scale(whole, frac, decimals) == FloorOrOverflow(whole, frac, decimals)
  {
    PaddedIsFloor(whole, frac, decimals);
    NumberOfBound(Padded(frac, decimals));
    ChecksSuffice(NumberOf(whole), NumberOf(Padded(frac, decimals)), Pow(10, decimals));
  }

  // The intermediate checks fail only if the power or the result is out of range.
  lemma ChecksSuffice(whole: nat, frac: nat, scale: nat)
    requires frac < scale
    ensures CheckedSum(whole, frac, scale)
         == if scale >= U256_RANGE || whole * scale + frac >= U256_RANGE then Failure(Overflow)
            else Success(whole * scale + frac)
  {
    GrowByFactor(scale, whole);
  }

  lemma {:induction false} SplitJoin(s: string)
    ensures var parts := SplitDots(s);
            (|parts| == 1 ==> s == parts[0]) && (|parts| == 2 ==> s == parts[0] + "." + parts[1])
  {
    if s != "" {
      SplitJoin(s[1..]);
      assert s == [s[0]] + s[1..];
    }
  }

  // Every other string is refused as malformed.
  lemma OthersRefused(s: string, decimals: nat)
    ensures ParseScaled(s, decimals) == Failure(InvalidDecimalString)
       <==> !exists whole, frac :: Numeric(whole, frac) && s == Text(whole, frac)
  {
    var parts := SplitDots(s);
    SplitJoin(s);
    if ParseScaled(s, decimals) != Failure(InvalidDecimalString) {
      var frac := if |parts| == 2 then Some(parts[1]) else None;
      assert Numeric(parts[0], frac) && s == Text(parts[0], frac);
    }
    if whole, frac :| Numeric(whole, frac) && s == Text(whole, frac) {
      ScalingIsFloor(whole, frac, decimals);
    }
  }

  predicate Agree(a: Scaled, b: Scaled) {
    if a.Success? then b == a else b.Failure?
  }

  // Without excess digits, reading the padded concatenation is scaling.
  lemma ConcatIsFloor(whole: string, frac: string, decimals: nat)
    requires AllDigits(whole) && AllDigits(frac) && |frac| <= decimals
    ensures NumberOf(whole + frac + Zeros(decimals - |frac|)) == FloorScaled(whole, frac, decimals)
  {
    var padded := Padded(frac, decimals);
    PaddedIsExact(whole, frac, decimals);
    assert padded == frac + Zeros(decimals - |frac|);
    NumberOfConcat(whole, padded);
    assert whole + frac + Zeros(decimals - |frac|) == whole + padded;
  }

  lemma MillionFits()
    ensures Pow(10, 6) == 1_000_000
  {
    assert Pow(10, 3) == 1000;
  }

  // ---------- the two parsers, on all strings of digits and dots ----------

  predicate DigitsAndDots(s: string) {
    forall i :: 0 <= i < |s| ==> IsDigit(s[i]) || s[i] == '.'
  }

  // What stands before the first dot, and after it.
  function Whole(s: string): string { SplitOnce(s).0 }

  function Frac(s: string): string { SplitOnce(s).1 }

  predicate TwoDots(s: string) { '.' in Frac(s) }

  // A digit is missing: nothing before the dot, or nothing after it.
  predicate Bare(s: string) {
    Whole(s) == "" || ('.' in s && Frac(s) == "")
  }

  lemma {:induction false} PartsOf(s: string)
    requires DigitsAndDots(s)
    ensures AllDigits(Whole(s)) && DigitsAndDots(Frac(s)) && (AllDigits(Frac(s)) <==> !TwoDots(s))
    ensures s == Whole(s) + (if '.' in s then "." + Frac(s) else "")
  {
    if s != "" {
      if s[0] == '.' {
        NoDotsIsDigits(s[1..]);
        assert s == "." + s[1..];
      } else {
        PartsOf(s[1..]);
        assert s == [s[0]] + s[1..];
        assert '.' in s <==> '.' in s[1..];
      }
    }
  }

  lemma NoDotsIsDigits(s: string)
    requires DigitsAndDots(s)
    ensures AllDigits(s) <==> '.' !in s
  {
  }

  lemma {:induction false} PiecesOf(s: string)
    ensures '.' !in s ==> SplitDots(s) == [s]
    ensures '.' in s && !TwoDots(s) ==> SplitDots(s) == [Whole(s), Frac(s)]
    ensures TwoDots(s) ==> |SplitDots(s)| > 2
  {
    if s != "" {
      if s[0] == '.' {
        PiecesOf(s[1..]);
        if '.' !in s[1..] {
          SplitPlain(s[1..]);
        }
        assert '.' in s[1..] ==> |SplitDots(s[1..])| > 1;
      } else {
        PiecesOf(s[1..]);
        assert '.' in s <==> '.' in s[1..];
        if '.' !in s {
          assert s == [s[0]] + s[1..];
        }
      }
    }
  }

  // The amount in millionths, rounded down; a missing part counts as 0.
  function Millionths(s: string): nat
    requires DigitsAndDots(s) && !TwoDots(s)
  {
    PartsOf(s);
    FloorScaled(Whole(s), Frac(s), 6)
  }

  // The parser of base units: a missing part counts as 0, a seventh fractional digit is refused.
  lemma BaseUnitsExactly(s: string)
    requires DigitsAndDots(s)
    ensures BaseUnits(s) == if |Frac(s)| > 6 then Failure(TooManyDigits)
                            else if TwoDots(s) then Failure(InvalidDecimalString)
                            else Checked(Millionths(s))
  {
    PartsOf(s);
    if |Frac(s)| <= 6 && !TwoDots(s) {
      ConcatIsFloor(Whole(s), Frac(s), 6);
    }
  }

  // The other: a missing part is refused, further digits are dropped.
  lemma ParseScaledExactly(s: string)
    requires DigitsAndDots(s)
    ensures ParseScaled(s, 6) == if TwoDots(s) || Bare(s) then Failure(InvalidDecimalString) else Checked(Millionths(s))
  {
    PartsOf(s);
    PiecesOf(s);
    MillionFits();
    if '.' !in s {
      SplitOncePlain(s);
    }
    if !TwoDots(s) && !Bare(s) {
      ScaleIsFloor(Whole(s), Frac(s), 6);
    }
  }

  // On every string of digits and dots: the two give the same amount, or both refuse, unless the
  // string has at most one dot, its amount fits, and either a part is missing or there are more
  // than six fractional digits, but not both.
  lemma ParsersAgree(s: string)
    requires DigitsAndDots(s)
    ensures Agree(BaseUnits(s), ParseScaled(s, 6))
       <==> TwoDots(s) || Millionths(s) >= U256_RANGE || (Bare(s) <==> |Frac(s)| > 6)
  {
    BaseUnitsExactly(s);
    ParseScaledExactly(s);
  }

  lemma OneDigit(c: char)
    requires IsDigit(c)
    ensures NumberOf([c]) == DigitValue(c)
  {
    assert [c][..0] == "";
  }

  // Three strings that only one of the parsers accepts.
  lemma NothingBeforeDot()
    ensures BaseUnits(".5") == Success(500_000) && ParseScaled(".5", 6).Failure?
  {
    MillionFits();
    OneDigit('5');
    SplitAtDot("", "5");
    assert "" + "." + "5" == ".5" && "" + "5" == ['5'];
    assert Pow(10, 1) == 10;
    BaseUnitsExactly(".5");
    ParseScaledExactly(".5");
  }

  lemma NothingAfterDot()
    ensures BaseUnits("5.") == Success(5_000_000) && ParseScaled("5.", 6).Failure?
  {
    MillionFits();
    OneDigit('5');
    SplitAtDot("5", "");
    assert "5" + "." + "" == "5." && "5" + "" == ['5'];
    assert Pow(10, 0) == 1;
    BaseUnitsExactly("5.");
    ParseScaledExactly("5.");
  }

  lemma NothingAtAll()
    ensures BaseUnits("") == Success(0) && ParseScaled("", 6).Failure?
  {
    MillionFits();
    assert NumberOf("" + "") == 0 && FloorDiv(0, Pow(10, 0)) == 0;
    assert FloorScaled("", "", 6) == 0;
    BaseUnitsExactly("");
    ParseScaledExactly("");
  }

  lemma FloorShrinks(n: nat, a: nat, d: nat)
    requires a <= d && d > 0
    ensures FloorDiv(n * a, d) <= n
  {
    MulMonotone(a, d, n);
    DivBounds(n * a, d);
  }

  lemma SmallPowers()
    ensures Pow(10, 6) <= Pow(10, 7) && Pow(10, 7) > 0 && Pow(10, 8) < U256_RANGE
  {
    assert Pow(10, 4) == 10_000;
    PowAdd(10, 4, 4);
    PowMonotone(10, 6, 7);
    PowPositive(10, 7);
  }

  // And one that only the other does.
  lemma SeventhDigit()
    ensures BaseUnits("0.0000019").Failure? && ParseScaled("0.0000019", 6).Success?
  {
    SeventhParts();
    SeventhFits();
    BaseUnitsExactly("0.0000019");
    ParseScaledExactly("0.0000019");
  }

  lemma SeventhParts()
    ensures var s := "0.0000019";
            DigitsAndDots(s) && !TwoDots(s) && !Bare(s) && Whole(s) == "0" && Frac(s) == "0000019"
  {
    SplitAtDot("0", "0000019");
    assert "0" + "." + "0000019" == "0.0000019";
  }

  lemma SeventhFits()
    ensures AllDigits("0") && AllDigits("0000019") && FloorScaled("0", "0000019", 6) < U256_RANGE
  {
    var digits := "0" + "0000019";
    assert AllDigits(digits) && |digits| == 8;
    NumberOfBound(digits);
    SmallPowers();
    FloorShrinks(NumberOf(digits), Pow(10, 6), Pow(10, 7));
  }
}

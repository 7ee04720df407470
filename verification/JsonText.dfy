/**
 The canonical text itself, as RFC 8259 and the signing clients have it: members in the order
 of their keys, no white space, no escape and no digit more than needed.
 */
module JsonText {
  import opened Decimals
  import opened Seqs
  import opened CanonicalJson
  import opened JsonReader
  import opened JsonEquality

  // ---------- the order of keys ----------

  // b starts with all of a and goes on, or at the first place where they differ the character
  // of a is the smaller one.
  predicate Precedes(a: string, b: string) {
    a < b || exists k :: 0 <= k < |a| && k < |b| && SmallerAt(a, b, k)
  }

  predicate SmallerAt(a: string, b: string, k: nat)
    requires k < |a| && k < |b|
  {
    a[..k] == b[..k] && a[k] < b[k]
  }

  lemma {:induction false} LessExactly(a: string, b: string)
    ensures Less(a, b) <==> Precedes(a, b)
  {
    if a != "" && b != "" {
      LessExactly(a[1..], b[1..]);
      if a[0] == b[0] {
        SameHead(a, b);
      } else if a[0] < b[0] {
        assert SmallerAt(a, b, 0);
      } else {
        forall k | 0 <= k < |a| && k < |b| ensures SmallerAt(a, b, k) ==> k == 0 || a[0] == b[0] {
          assert k > 0 ==> a[..k][0] == a[0] && b[..k][0] == b[0];
        }
      }
    }
  }

  lemma SameHead(a: string, b: string)
    requires a != "" && b != "" && a[0] == b[0]
    ensures Precedes(a, b) <==> Precedes(a[1..], b[1..])
  {
    var x, y := a[1..], b[1..];
    assert a == [a[0]] + x && b == [b[0]] + y;
    assert a < b <==> x < y;
    if k :| 0 <= k < |x| && k < |y| && SmallerAt(x, y, k) {
      assert a[..k + 1] == [a[0]] + x[..k] && b[..k + 1] == [b[0]] + y[..k];
      assert SmallerAt(a, b, k + 1);
    }
    if k :| 0 <= k < |a| && k < |b| && SmallerAt(a, b, k) {
      assert x[..k - 1] == a[..k][1..] && y[..k - 1] == b[..k][1..];
      assert SmallerAt(x, y, k - 1);
    }
  }

  // ---------- objects and arrays ----------

  function Separated(parts: seq<string>): string {
    if parts == [] then ""
    else if |parts| == 1 then parts[0]
    else parts[0] + "," + Separated(parts[1..])
  }

  function MemberTexts(members: seq<Entry>): seq<string> {
    seq(|members|, i requires 0 <= i < |members| => Quote(members[i].key) + ":" + Canonical(members[i].value))
  }

  function ItemTexts(items: seq<Json>): seq<string> {
    seq(|items|, i requires 0 <= i < |items| => Canonical(items[i]))
  }

  lemma {:induction false} EntriesText(ms: seq<Entry>)
    ensures PrintEntries(NormEntries(ms), true) == Separated(MemberTexts(ms))
    ensures ms != [] ==> PrintEntries(NormEntries(ms), false) == "," + Separated(MemberTexts(ms))
  {
    if ms != [] {
      EntriesText(ms[1..]);
      var first := Quote(ms[0].key) + ":" + Canonical(ms[0].value);
      assert NormEntries(ms)[1..] == NormEntries(ms[1..]);
      assert MemberTexts(ms) == [first] + MemberTexts(ms[1..]);
      SeparatedStep(first, MemberTexts(ms[1..]));
      var key, value, rest := Quote(ms[0].key), Canonical(ms[0].value), PrintEntries(NormEntries(ms[1..]), false);
      assert key + (":" + (value + rest)) == first + rest by {
        Assoc(":", value, rest);
        Assoc(key, ":" + value, rest);
        Assoc(key, ":", value);
      }
    }
  }

  lemma SeparatedStep(first: string, rest: seq<string>)
    ensures Separated([first] + rest) == first + if rest == [] then "" else "," + Separated(rest)
  {
    assert ([first] + rest)[1..] == rest;
  }

  lemma {:induction false} ItemsText(items: seq<Json>)
    ensures PrintItems(NormAll(items), true) == Separated(ItemTexts(items))
    ensures items != [] ==> PrintItems(NormAll(items), false) == "," + Separated(ItemTexts(items))
  {
    if items != [] {
      var first, rest := Canonical(items[0]), items[1..];
      ItemsText(rest);
      assert NormAll(items)[1..] == NormAll(rest);
      assert PrintItems(NormAll(items), true) == first + PrintItems(NormAll(rest), false);
      ItemTextsStep(items);
      SeparatedStep(first, ItemTexts(rest));
    }
  }

  lemma ItemTextsStep(items: seq<Json>)
    requires items != []
    ensures ItemTexts(items) == [Canonical(items[0])] + ItemTexts(items[1..])
  {
  }

  // An array is the texts of its items in brackets, with commas between.
  lemma ArrayText(items: seq<Json>)
    ensures Canonical(Array(items)) == "[" + (Separated(ItemTexts(items)) + "]")
  {
    ItemsText(items);
  }

  predicate InOrder(ms: seq<Entry>) {
    forall i :: 0 <= i < |ms| - 1 ==> Precedes(ms[i].key, ms[i + 1].key)
  }

  lemma {:induction false} InOrderSorted(ms: seq<Entry>)
    requires InOrder(ms)
    ensures Sorted(ms)
  {
    if |ms| > 1 {
      var rest := ms[1..];
      assert forall i :: 0 <= i < |rest| ==> rest[i] == ms[i + 1];
      InOrderSorted(rest);
      LessExactly(ms[0].key, ms[1].key);
      forall j | 0 < j < |ms| ensures Less(ms[0].key, ms[j].key) {
        if j > 1 {
          assert Less(rest[0].key, rest[j - 1].key);
          LessTransitive(ms[0].key, ms[1].key, ms[j].key);
        }
      }
      forall i, j | 0 < i < j < |ms| ensures Less(ms[i].key, ms[j].key) {
        assert Less(rest[i - 1].key, rest[j - 1].key);
      }
    }
  }

  lemma SortedNorm(ms: seq<Entry>)
    requires Sorted(ms)
    ensures Sorted(NormEntries(ms))
  {
    NormEntriesAll(ms);
  }

  // An object is the texts of its members in braces, with commas between, in the order of the
  // keys: whichever list of the members is in that order.
  lemma ObjectText(es: seq<Entry>, ms: seq<Entry>)
    requires DistinctKeys(es) && multiset(ms) == multiset(es) && InOrder(ms)
    ensures Canonical(Object(es)) == "{" + (Separated(MemberTexts(ms)) + "}")
  {
    InOrderSorted(ms);
    SortedDistinct(ms);
    PermutedMap(es, ms);
    NormEntriesMap(es);
    NormEntriesMap(ms);
    SortedNorm(ms);
    SortKeepsMap(NormEntries(es));
    SortSorts(NormEntries(es));
    assert ToMap(NormEntries(ms)) == ToMap(NormEntries(es));
    SortedUnique(NormEntries(ms), Sort(NormEntries(es)));
    EntriesText(ms);
  }

  lemma {:induction false} InsertIsOne(e: Entry, es: seq<Entry>)
    ensures multiset(Insert(e, es)) == multiset(es) + multiset{e}
  {
    if es != [] && !Less(e.key, es[0].key) {
      InsertIsOne(e, es[1..]);
      assert es == [es[0]] + es[1..];
    }
  }

  lemma {:induction false} SortPermutes(es: seq<Entry>)
    ensures multiset(Sort(es)) == multiset(es)
  {
    if es != [] {
      SortPermutes(es[1..]);
      InsertIsOne(es[0], Sort(es[1..]));
      assert es == [es[0]] + es[1..];
    }
  }

  // And there is one.
  lemma MembersHaveOrder(es: seq<Entry>) returns (ms: seq<Entry>)
    requires DistinctKeys(es)
    ensures multiset(ms) == multiset(es) && InOrder(ms)
  {
    ms := Sort(es);
    SortPermutes(es);
    SortSorts(es);
    forall i | 0 <= i < |ms| - 1 ensures Precedes(ms[i].key, ms[i + 1].key) {
      LessExactly(ms[i].key, ms[i + 1].key);
    }
  }

  // ---------- characters and numbers ----------

  // Of all texts that are read as a character, its escape is the shortest, with hexadecimal
  // digits in lower case.
  lemma EscapeShortest(c: char, text: string)
    requires ReadChar(text).Got? && ReadChar(text).v == c && ReadChar(text).rest == ""
    ensures |EscapeChar(c)| <= |text|
    ensures |EscapeChar(c)| == 6 ==> !('A' <= EscapeChar(c)[4] <= 'F') && !('A' <= EscapeChar(c)[5] <= 'F')
  {
  }

  // A number is a minus sign if it is negative, and its digits without leading zeros.
  lemma {:induction false} NumeralPlain(n: nat)
    ensures Numeral(n)[0] == '0' ==> n == 0 && Numeral(n) == "0"
  {
    if n >= 10 {
      NumeralPlain(n / 10);
      assert Numeral(n)[0] == Numeral(n / 10)[0];
    }
  }

  lemma NumberText(n: int)
    ensures var digits := if n < 0 then IntText(n)[1..] else IntText(n);
            && (n < 0 ==> IntText(n)[0] == '-')
            && AllDigits(digits) && NumberOf(digits) == (if n < 0 then -n else n)
            && digits != "" && (digits[0] == '0' ==> digits == "0")
  {
    var size := if n < 0 then -n else n;
    NumeralRoundTrip(size);
    NumeralPlain(size);
    if n < 0 {
      assert IntText(n)[1..] == Numeral(-n);
    }
  }
}

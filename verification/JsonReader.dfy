/**
 A reader for canonical text, and the proof that it inverts the printer: the text of a
 value determines the value.
 */
module JsonReader {
  import opened Decimals
  import opened Seqs
  import opened CanonicalJson

  datatype Reading<+T> = Fail | Got(v: T, rest: string) {
    predicate IsFailure() { Fail? }

    function PropagateFailure<U>(): Reading<U>
      requires Fail?
    {
      Fail
    }

    function Extract(): (T, string)
      requires Got?
    {
      (v, rest)
    }
  }

  // ---------- strings (RFC 8259, section 7) ----------

  function HexValue(c: char): int {
    if '0' <= c <= '9' then c as int - '0' as int
    else if 'a' <= c <= 'f' then c as int - 'a' as int + 10
    else if 'A' <= c <= 'F' then c as int - 'A' as int + 10
    else -1
  }

  // The character that a one-letter escape stands for.
  function ShortEscape(c: char): Reading<char> {
    if c == '"' || c == '\\' || c == '/' then Got(c, "")
    else if c == 'b' then Got(8 as char, "")
    else if c == 't' then Got(9 as char, "")
    else if c == 'n' then Got(10 as char, "")
    else if c == 'f' then Got(12 as char, "")
    else if c == 'r' then Got(13 as char, "")
    else Fail
  }

  // The first character of a string body: plain, or escaped.
  function ReadChar(s: string): (r: Reading<char>)
    ensures r.Got? ==> |r.rest| < |s|
  {
    if s == "" || s[0] as int < 32 || s[0] == '"' then Fail
    else if s[0] != '\\' then Got(s[0], s[1..])
    else if |s| >= 6 && s[1] == 'u' then
      if HexValue(s[2]) < 0 || HexValue(s[3]) < 0 || HexValue(s[4]) < 0 || HexValue(s[5]) < 0 then Fail
      else
        var code := 4096 * HexValue(s[2]) + 256 * HexValue(s[3]) + 16 * HexValue(s[4]) + HexValue(s[5]);
        if code < 0xD800 then Got(code as char, s[6..]) else Fail
    else if |s| >= 2 && ShortEscape(s[1]).Got? then Got(ShortEscape(s[1]).v, s[2..])
    else Fail
  }

  // Reads up to and including the closing quote.
  function ReadBody(s: string): (r: Reading<string>)
    ensures r.Got? ==> |r.rest| < |s|
    decreases |s|
  {
    if s != "" && s[0] == '"' then Got("", s[1..])
    else
      var (c, s1) :- ReadChar(s);
      var (more, s2) :- ReadBody(s1);
      Got([c] + more, s2)
  }

  function ReadString(s: string): (r: Reading<string>)
    ensures r.Got? ==> |r.rest| < |s|
  {
    if s != "" && s[0] == '"' then ReadBody(s[1..]) else Fail
  }

  function ReadInt(s: string): (r: Reading<int>)
    ensures r.Got? ==> |r.rest| < |s|
  {
    var sign := if s != "" && s[0] == '-' then 1 else 0;
    var digits := s[sign..][..DigitSpan(s[sign..])];
    if digits == "" then Fail
    else
      var n: int := NumberOf(digits);
      Got(if sign == 1 then -n else n, s[sign..][|digits|..])
  }

  // ---------- values (RFC 8259, section 3), without white space ----------

  predicate At(s: string, c: char) { s != "" && s[0] == c }

  function Keyword(s: string, word: string, v: Json): Reading<Json> {
    if word <= s then Got(v, s[|word|..]) else Fail
  }

  function ReadValue(s: string): (r: Reading<Json>)
    ensures r.Got? ==> |r.rest| < |s|
    decreases |s|, 0
  {
    if At(s, 'n') then Keyword(s, "null", Null)
    else if At(s, 't') then Keyword(s, "true", Bool(true))
    else if At(s, 'f') then Keyword(s, "false", Bool(false))
    else if At(s, '"') then
      var (text, rest) :- ReadString(s);
      Got(String(text), rest)
    else if At(s, '[') then
      var (items, rest) :- if At(s[1..], ']') then Got([], s[2..]) else ReadItems(s[1..]);
      Got(Array(items), rest)
    else if At(s, '{') then
      var (entries, rest) :- if At(s[1..], '}') then Got([], s[2..]) else ReadEntries(s[1..]);
      Got(Object(entries), rest)
    else
      var (n, rest) :- ReadInt(s);
      Got(Number(n), rest)
  }

  // One or more array elements and the closing bracket.
  function ReadItems(s: string): (r: Reading<seq<Json>>)
    ensures r.Got? ==> |r.rest| < |s|
    decreases |s|, 1
  {
    var (v, s1) :- ReadValue(s);
    if At(s1, ']') then Got([v], s1[1..])
    else if At(s1, ',') then
      var (more, s2) :- ReadItems(s1[1..]);
      Got([v] + more, s2)
    else Fail
  }

  // One or more object members and the closing brace.
  function ReadEntries(s: string): (r: Reading<seq<Entry>>)
    ensures r.Got? ==> |r.rest| < |s|
    decreases |s|, 1
  {
    var (k, s1) :- ReadString(s);
    if !At(s1, ':') then Fail
    else
      var (v, s2) :- ReadValue(s1[1..]);
      if At(s2, '}') then Got([Entry(k, v)], s2[1..])
      else if At(s2, ',') then
        var (more, s3) :- ReadEntries(s2[1..]);
        Got([Entry(k, v)] + more, s3)
      else Fail
  }

  // ---------- the reader inverts the printer ----------

  lemma ReadsChar(c: char, rest: string)
    ensures var r := ReadChar(EscapeChar(c) + rest);
            r.Got? && r.v == c && r.rest == rest
    ensures EscapeChar(c) != "" && EscapeChar(c)[0] != '"'
  {
    Split(EscapeChar(c), rest);
    if c as int < 32 && c as int !in {8, 9, 10, 12, 13} {
      var s := EscapeChar(c) + rest;
      HexRoundTrip(c as int / 16);
      HexRoundTrip(c as int % 16);
      assert s[1] == 'u' && s[2] == '0' && s[3] == '0';
      assert s[4] == HexDigit(c as int / 16) && s[5] == HexDigit(c as int % 16);
    }
  }

  lemma HexRoundTrip(d: nat)
    requires d < 16
    ensures HexValue(HexDigit(d)) == d
  {
  }

  lemma {:induction false} ReadsBody(text: string, rest: string)
    ensures var r := ReadBody(Escape(text) + ("\"" + rest));
            r.Got? && r.v == text && r.rest == rest
  {
    if text == "" {
      assert Escape(text) + ("\"" + rest) == "\"" + rest;
      Split("\"", rest);
    } else {
      var tail := Escape(text[1..]) + ("\"" + rest);
      Assoc(EscapeChar(text[0]), Escape(text[1..]), "\"" + rest);
      ReadsChar(text[0], tail);
      ReadsBody(text[1..], rest);
      HeadTail(text);
    }
  }

  lemma ReadsString(text: string, rest: string)
    ensures var r := ReadString(Quote(text) + rest);
            r.Got? && r.v == text && r.rest == rest
    ensures At(Quote(text) + rest, '"')
  {
    Assoc("\"", Escape(text) + "\"", rest);
    Assoc(Escape(text), "\"", rest);
    Split("\"", Escape(text) + ("\"" + rest));
    ReadsBody(text, rest);
  }

  // A number ends where the digits do, so what follows it must not be a digit.
  predicate EndsNumber(rest: string) { rest == "" || !IsDigit(rest[0]) }

  lemma ReadsInt(n: int, rest: string)
    requires EndsNumber(rest)
    ensures var r := ReadInt(IntText(n) + rest);
            r.Got? && r.v == n && r.rest == rest
    ensures var c := IntText(n)[0]; c == '-' || IsDigit(c)
  {
    var digits := Numeral(if n < 0 then -n else n);
    NumeralRoundTrip(if n < 0 then -n else n);
    DigitSpanOf(digits, rest);
    Split(digits, rest);
    if n < 0 {
      Assoc("-", digits, rest);
      Split("-", digits + rest);
    }
  }

  lemma ReadsKeyword(v: Json, rest: string)
    requires v.Null? || v.Bool?
    ensures var r := ReadValue(Print(v) + rest);
            r.Got? && r.v == v && r.rest == rest
  {
    Split(Print(v), rest);
  }

  lemma ReadsNumber(n: int, rest: string)
    requires EndsNumber(rest)
    ensures var r := ReadValue(IntText(n) + rest);
            r.Got? && r.v == Number(n) && r.rest == rest
  {
    ReadsInt(n, rest);
    assert (IntText(n) + rest)[0] == IntText(n)[0];
  }

  lemma PrintStart(v: Json)
    ensures Print(v) != "" && Print(v)[0] !in "]},:"
  {
    if v.Number? {
      ReadsInt(v.n, "");
    }
  }

  lemma {:induction false} ReadsValue(v: Json, rest: string)
    requires EndsNumber(rest)
    ensures var r := ReadValue(Print(v) + rest);
            r.Got? && r.v == v && r.rest == rest
    decreases v, 1
  {
    match v {
      case Array(items) => ReadsArray(items, rest);
      case Object(entries) => ReadsObject(entries, rest);
      case Number(n) => ReadsNumber(n, rest);
      case String(s) => ReadsString(s, rest);
      case _ => ReadsKeyword(v, rest);
    }
  }

  lemma OpensArray(body: string)
    ensures var r := ReadValue("[" + body);
            && (At(body, ']') ==> r.Got? && r.v == Array([]) && r.rest == body[1..])
            && (!At(body, ']') && ReadItems(body).Got? ==>
                  r.Got? && r.v == Array(ReadItems(body).v) && r.rest == ReadItems(body).rest)
  {
    var s := "[" + body;
    assert s[0] == '[' && s[1..] == body;
    assert At(body, ']') ==> s[2..] == body[1..];
  }

  lemma OpensObject(body: string)
    ensures var r := ReadValue("{" + body);
            && (At(body, '}') ==> r.Got? && r.v == Object([]) && r.rest == body[1..])
            && (!At(body, '}') && ReadEntries(body).Got? ==>
                  r.Got? && r.v == Object(ReadEntries(body).v) && r.rest == ReadEntries(body).rest)
  {
    var s := "{" + body;
    assert s[0] == '{' && s[1..] == body;
    assert At(body, '}') ==> s[2..] == body[1..];
  }

  lemma {:induction false} ReadsArray(items: seq<Json>, rest: string)
    ensures var r := ReadValue("[" + (PrintItems(items, true) + "]") + rest);
            r.Got? && r.v == Array(items) && r.rest == rest
    decreases items, 1
  {
    var body := PrintItems(items, true) + ("]" + rest);
    Assoc("[", PrintItems(items, true) + "]", rest);
    Assoc(PrintItems(items, true), "]", rest);
    OpensArray(body);
    if items == [] {
      assert body == "]" + rest;
      Split("]", rest);
    } else {
      ReadsItems(items, rest);
    }
  }

  lemma {:induction false} ReadsItems(items: seq<Json>, rest: string)
    requires items != []
    ensures var s := PrintItems(items, true) + ("]" + rest);
            var r := ReadItems(s);
            r.Got? && r.v == items && r.rest == rest && !At(s, ']')
    decreases items, 0
  {
    var more := PrintItems(items[1..], false) + ("]" + rest);
    assert PrintItems(items, true) == Print(items[0]) + PrintItems(items[1..], false);
    Assoc(Print(items[0]), PrintItems(items[1..], false), "]" + rest);
    HeadTail(items);
    PrintStart(items[0]);
    if items[1..] == [] {
      assert more == "]" + rest;
      Split("]", rest);
    } else {
      var next := PrintItems(items[1..], true) + ("]" + rest);
      assert PrintItems(items[1..], false) == "," + PrintItems(items[1..], true);
      Assoc(",", PrintItems(items[1..], true), "]" + rest);
      Split(",", next);
      ReadsItems(items[1..], rest);
    }
    ReadsValue(items[0], more);
  }

  lemma {:induction false} ReadsObject(es: seq<Entry>, rest: string)
    ensures var r := ReadValue("{" + (PrintEntries(es, true) + "}") + rest);
            r.Got? && r.v == Object(es) && r.rest == rest
    decreases es, 1
  {
    var body := PrintEntries(es, true) + ("}" + rest);
    Assoc("{", PrintEntries(es, true) + "}", rest);
    Assoc(PrintEntries(es, true), "}", rest);
    OpensObject(body);
    if es == [] {
      assert body == "}" + rest;
      Split("}", rest);
    } else {
      ReadsEntries(es, rest);
    }
  }

  // One member and what follows it, regrouped in reading order.
  lemma MemberText(es: seq<Entry>, rest: string)
    requires es != []
    ensures PrintEntries(es, true) + rest
         == Quote(es[0].key) + (":" + (Print(es[0].value) + (PrintEntries(es[1..], false) + rest)))
  {
    var tail := PrintEntries(es[1..], false);
    assert PrintEntries(es, true) == Quote(es[0].key) + (":" + (Print(es[0].value) + tail));
    Assoc(Quote(es[0].key), ":" + (Print(es[0].value) + tail), rest);
    Assoc(":", Print(es[0].value) + tail, rest);
    Assoc(Print(es[0].value), tail, rest);
  }

  // Reading a list of members whose first one is known.
  lemma EntriesStep(s: string, e: Entry, tail: string)
    requires s == Quote(e.key) + (":" + (Print(e.value) + tail)) && EndsNumber(tail)
    requires var r := ReadValue(Print(e.value) + tail); r.Got? && r.v == e.value && r.rest == tail
    ensures At(tail, '}') ==> var r := ReadEntries(s); r.Got? && r.v == [e] && r.rest == tail[1..]
    ensures At(tail, ',') && ReadEntries(tail[1..]).Got? ==>
              var r := ReadEntries(s);
              var more := ReadEntries(tail[1..]);
              r.Got? && r.v == [e] + more.v && r.rest == more.rest
    ensures !At(s, '}')
  {
    ReadsString(e.key, ":" + (Print(e.value) + tail));
    Split(":", Print(e.value) + tail);
  }

  lemma CommaText(es: seq<Entry>)
    requires es != []
    ensures PrintEntries(es, false) == "," + PrintEntries(es, true)
  {
  }

  // What follows a member: a comma and the other members, or the closing brace.
  lemma TailText(es: seq<Entry>, rest: string)
    ensures var tail := PrintEntries(es, false) + ("}" + rest);
            if es == [] then At(tail, '}') && tail[1..] == rest
            else At(tail, ',') && tail[1..] == PrintEntries(es, true) + ("}" + rest)
  {
    if es == [] {
      assert PrintEntries(es, false) + ("}" + rest) == "}" + rest;
      Split("}", rest);
    } else {
      CommaText(es);
      Assoc(",", PrintEntries(es, true), "}" + rest);
      Split(",", PrintEntries(es, true) + ("}" + rest));
    }
  }

  lemma {:induction false} ReadsEntries(es: seq<Entry>, rest: string)
    requires es != []
    ensures var s := PrintEntries(es, true) + ("}" + rest);
            var r := ReadEntries(s);
            r.Got? && r.v == es && r.rest == rest && !At(s, '}')
    decreases es, 0
  {
    var tail := PrintEntries(es[1..], false) + ("}" + rest);
    MemberText(es, "}" + rest);
    TailText(es[1..], rest);
    if es[1..] != [] {
      ReadsEntries(es[1..], rest);
    }
    ReadsValue(es[0].value, tail);
    EntriesStep(PrintEntries(es, true) + ("}" + rest), es[0], tail);
    HeadTail(es);
  }

  // Values with the same text are the same value, member order included.
  lemma PrintInjective(v: Json, w: Json)
    ensures Print(v) == Print(w) <==> v == w
  {
    ReadsValue(v, "");
    ReadsValue(w, "");
  }
}

/**
 Canonical JSON text (crates/core/src/canonical.rs): object keys sorted at every level,
 no white space, standard escapes. Numbers are integers.
 */
module CanonicalJson {
  import opened Decimals

  datatype Json =
    | Null
    | Bool(b: bool)
    | Number(n: int)
    | String(s: string)
    | Array(items: seq<Json>)
    | Object(entries: seq<Entry>)

  // One member of an object, which keeps its members in insertion order.
  datatype Entry = Entry(key: string, value: Json)

  predicate DistinctKeys(es: seq<Entry>) {
    forall i, j :: 0 <= i < j < |es| ==> es[i].key != es[j].key
  }

  // An object holds each key once, at every level: it is built as a map.
  predicate Valid(v: Json) {
    match v
    case Array(items) => forall i :: 0 <= i < |items| ==> Valid(items[i])
    case Object(entries) => DistinctKeys(entries) && forall i :: 0 <= i < |entries| ==> Valid(entries[i].value)
    case _ => true
  }

  // ---------- key order ----------

  // Order of code points; on the UTF-8 encodings it is the order of bytes.
  predicate Less(a: string, b: string) {
    b != "" && (a == "" || a[0] < b[0] || (a[0] == b[0] && Less(a[1..], b[1..])))
  }

  function InsertKey(k: string, sorted: seq<string>): seq<string> {
    if sorted == [] || Less(k, sorted[0]) then [k] + sorted else [sorted[0]] + InsertKey(k, sorted[1..])
  }

  function SortKeys(keys: seq<string>): seq<string> {
    if keys == [] then [] else InsertKey(keys[0], SortKeys(keys[1..]))
  }

  function Keys(es: seq<Entry>): (r: seq<string>)
    ensures |r| == |es|
  {
    if es == [] then [] else [es[0].key] + Keys(es[1..])
  }

  // ---------- normal form: the members of every object in key order ----------

  function Insert(e: Entry, sorted: seq<Entry>): (r: seq<Entry>)
    ensures |r| == |sorted| + 1
  {
    if sorted == [] || Less(e.key, sorted[0].key) then [e] + sorted else [sorted[0]] + Insert(e, sorted[1..])
  }

  function Sort(es: seq<Entry>): (r: seq<Entry>)
    ensures |r| == |es|
  {
    if es == [] then [] else Insert(es[0], Sort(es[1..]))
  }

  function Norm(v: Json): Json
    decreases v, 1
  {
    match v
    case Array(items) => Array(NormAll(items))
    case Object(entries) => Object(Sort(NormEntries(entries)))
    case _ => v
  }

  function NormAll(vs: seq<Json>): (r: seq<Json>)
    ensures |r| == |vs|
    decreases vs, 0
  {
    if vs == [] then [] else [Norm(vs[0])] + NormAll(vs[1..])
  }

  function NormEntries(es: seq<Entry>): (r: seq<Entry>)
    ensures |r| == |es|
    decreases es, 0
  {
    if es == [] then [] else [Entry(es[0].key, Norm(es[0].value))] + NormEntries(es[1..])
  }

  // ---------- text ----------

  function HexDigit(d: nat): char
    requires d < 16
  {
    "0123456789abcdef"[d]
  }

  function EscapeChar(c: char): string {
    if c == '"' then "\\\""
    else if c == '\\' then "\\\\"
    else if c as int == 8 then "\\b"
    else if c as int == 9 then "\\t"
    else if c as int == 10 then "\\n"
    else if c as int == 12 then "\\f"
    else if c as int == 13 then "\\r"
    else if c as int < 32 then "\\u00" + [HexDigit(c as int / 16), HexDigit(c as int % 16)]
    else [c]
  }

  function Escape(s: string): string {
    if s == "" then "" else EscapeChar(s[0]) + Escape(s[1..])
  }

  function Quote(s: string): string {
    "\"" + (Escape(s) + "\"")
  }

  function IntText(n: int): string {
    if n < 0 then "-" + Numeral(-n) else Numeral(n)
  }

  // The text of a value, its members in the order given.
  function Print(v: Json): string
    decreases v, 1
  {
    match v
    case Null => "null"
    case Bool(b) => if b then "true" else "false"
    case Number(n) => IntText(n)
    case String(s) => Quote(s)
    case Array(items) => "[" + (PrintItems(items, true) + "]")
    case Object(entries) => "{" + (PrintEntries(entries, true) + "}")
  }

  function Comma(first: bool): string {
    if first then "" else ","
  }

  function PrintItems(items: seq<Json>, first: bool): string
    decreases items, 0
  {
    if items == [] then "" else Comma(first) + (Print(items[0]) + PrintItems(items[1..], false))
  }

  function PrintEntries(es: seq<Entry>, first: bool): string
    decreases es, 0
  {
    if es == [] then ""
    else Comma(first) + (Quote(es[0].key) + (":" + (Print(es[0].value) + PrintEntries(es[1..], false))))
  }

  function Canonical(v: Json): string {
    Print(Norm(v))
  }

  // ---------- looking a key up ----------

  predicate HasKey(es: seq<Entry>, k: string) {
    exists i :: 0 <= i < |es| && es[i].key == k
  }

  function Lookup(es: seq<Entry>, k: string): (v: Json)
    requires HasKey(es, k)
    ensures exists i :: 0 <= i < |es| && es[i] == Entry(k, v)
    decreases |es|
  {
    if es[0].key == k then
      assert es[0] == Entry(k, es[0].value);
      es[0].value
    else
      var v := Lookup(es[1..], k);
      var i :| 0 <= i < |es| - 1 && es[1..][i] == Entry(k, v);
      assert es[i + 1] == Entry(k, v);
      v
  }
}

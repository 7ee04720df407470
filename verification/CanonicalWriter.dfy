/**
 The recursive writer that pushes canonical text onto one growing string.
 */
module CanonicalWriter {
  import opened CanonicalJson
  import opened JsonEquality

  class TextBuffer {
    var text: string

    constructor ()
      ensures text == ""
    {
      text := "";
    }

    method Push(s: string)
      modifies this
      ensures text == old(text) + s
    {
      text := text + s;
    }
  }

  // ---------- sorting the keys is sorting the members ----------

  lemma {:induction false} InsertKeys(e: Entry, es: seq<Entry>)
    ensures Keys(Insert(e, es)) == InsertKey(e.key, Keys(es))
  {
    if es == [] || Less(e.key, es[0].key) {
      assert ([e] + es)[1..] == es;
    } else {
      InsertKeys(e, es[1..]);
      assert ([es[0]] + Insert(e, es[1..]))[1..] == Insert(e, es[1..]);
    }
  }

  lemma {:induction false} SortedKeys(es: seq<Entry>)
    ensures Keys(Sort(es)) == SortKeys(Keys(es))
  {
    if es != [] {
      SortedKeys(es[1..]);
      InsertKeys(es[0], Sort(es[1..]));
    }
  }

  lemma {:induction false} NormKeys(es: seq<Entry>)
    ensures Keys(NormEntries(es)) == Keys(es)
  {
    if es != [] {
      NormKeys(es[1..]);
    }
  }

  lemma {:induction false} KeysAt(es: seq<Entry>, i: nat)
    requires i < |es|
    ensures Keys(es)[i] == es[i].key
  {
    if i > 0 {
      KeysAt(es[1..], i - 1);
    }
  }

  // The member written in place i: the i-th key in order, with the value looked up for it.
  lemma SortedMember(es: seq<Entry>, i: nat)
    requires DistinctKeys(es) && i < |es|
    ensures |SortKeys(Keys(es))| == |es| && HasKey(es, SortKeys(Keys(es))[i])
    ensures var k := SortKeys(Keys(es))[i];
            Sort(NormEntries(es))[i] == Entry(k, Norm(Lookup(es, k)))
  {
    var ns := NormEntries(es);
    var sorted := Sort(ns);
    SortedKeys(ns);
    NormKeys(es);
    KeysAt(sorted, i);
    var k := sorted[i].key;
    NormEntriesMap(es);
    SortKeepsMap(ns);
    SortSorts(ns);
    SortedDistinct(sorted);
    MapOf(sorted);
    MapOf(es);
    assert HasKey(sorted, k);
    assert HasKey(es, k);
    var j :| 0 <= j < |es| && es[j] == Entry(k, Lookup(es, k));
  }

  lemma ItemsStep(vs: seq<Json>, i: nat)
    requires i < |vs|
    ensures PrintItems(vs[i..], i == 0) == Comma(i == 0) + (Print(vs[i]) + PrintItems(vs[i + 1..], false))
  {
    assert vs[i..][1..] == vs[i + 1..];
  }

  lemma EntriesTailStep(es: seq<Entry>, i: nat)
    requires i < |es|
    ensures PrintEntries(es[i..], i == 0)
         == Comma(i == 0) + (Quote(es[i].key) + (":" + (Print(es[i].value) + PrintEntries(es[i + 1..], false))))
  {
    assert es[i..][1..] == es[i + 1..];
  }

  // ---------- the writer ----------

  method WriteCanonical(value: Json, out: TextBuffer)
    requires Valid(value)
    modifies out
    ensures out.text == old(out.text) + Canonical(value)
    decreases value, 1
  {
    match value {
      case Null => out.Push("null");
      case Bool(b) => out.Push(if b then "true" else "false");
      case String(s) => out.Push(Quote(s));
      case Number(n) => out.Push(IntText(n));
      case Array(items) =>
        WriteArray(value, out);
      case Object(entries) =>
        WriteObject(value, out);
    }
  }

  method WriteArray(value: Json, out: TextBuffer)
    requires Valid(value) && value.Array?
    modifies out
    ensures out.text == old(out.text) + Canonical(value)
    decreases value, 0
  {
    var items := value.items;
    ghost var norm := NormAll(items);
    out.Push("[");
    ghost var start := out.text;
    var first := true;
    assert norm[0..] == norm;
    for i := 0 to |items|
      invariant first == (i == 0)
      invariant out.text + PrintItems(norm[i..], first) == start + PrintItems(norm, true)
    {
      ghost var before := out.text;
      ghost var more := PrintItems(norm[i + 1..], false);
      ItemsStep(norm, i);
      NormAllAt(items, i);
      if !first {
        out.Push(",");
      }
      first := false;
      WriteCanonical(items[i], out);
      Regroup3(before, Comma(i == 0), Print(norm[i]), more);
    }
    assert norm[|items|..] == [];
    assert out.text == start + PrintItems(norm, true);
    out.Push("]");
    Regroup3(old(out.text), "[", PrintItems(norm, true), "]");
  }

  lemma Regroup3(a: string, b: string, c: string, d: string)
    ensures ((a + b) + c) + d == a + (b + (c + d))
    ensures b == "" ==> (a + c) + d == a + (b + (c + d))
  {
  }

  method WriteObject(value: Json, out: TextBuffer)
    requires Valid(value) && value.Object?
    modifies out
    ensures out.text == old(out.text) + Canonical(value)
    decreases value, 0
  {
    var entries := value.entries;
    ghost var sorted := Sort(NormEntries(entries));
    var keys := SortKeys(Keys(entries));
    SortedKeys(NormEntries(entries));
    NormKeys(entries);
    out.Push("{");
    ghost var start := out.text;
    var first := true;
    assert sorted[0..] == sorted;
    for i := 0 to |keys|
      invariant first == (i == 0)
      invariant out.text + PrintEntries(sorted[i..], first) == start + PrintEntries(sorted, true)
    {
      ghost var before := out.text;
      ghost var more := PrintEntries(sorted[i + 1..], false);
      EntriesTailStep(sorted, i);
      SortedMember(entries, i);
      if !first {
        out.Push(",");
      }
      first := false;
      out.Push(Quote(keys[i]));
      out.Push(":");
      var member := Lookup(entries, keys[i]);
      WriteCanonical(member, out);
      Regroup5(before, Comma(i == 0), Quote(keys[i]), ":", Print(sorted[i].value), more);
    }
    assert sorted[|keys|..] == [];
    assert out.text == start + PrintEntries(sorted, true);
    out.Push("}");
    Regroup3(old(out.text), "{", PrintEntries(sorted, true), "}");
  }

  lemma Regroup5(a: string, b: string, c: string, d: string, e: string, f: string)
    ensures ((((a + b) + c) + d) + e) + f == a + (b + (c + (d + (e + f))))
    ensures b == "" ==> (((a + c) + d) + e) + f == a + (b + (c + (d + (e + f))))
  {
  }

  method Canonicalize(input: Json) returns (text: string)
    requires Valid(input)
    ensures text == Canonical(input)
  {
    var out := new TextBuffer();
    WriteCanonical(input, out);
    text := out.text;
  }
}

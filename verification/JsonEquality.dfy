/**
 When two JSON values have the same canonical text: exactly when they are the same value
 with objects read as maps, so that the order of members is irrelevant at every depth.
 */
module JsonEquality {
  import opened CanonicalJson
  import opened JsonReader

  // An object as a map.
  function ToMap(es: seq<Entry>): map<string, Json> {
    if es == [] then map[] else ToMap(es[1..])[es[0].key := es[0].value]
  }

  // Equality of JSON values, objects compared as maps.
  predicate Same(v: Json, w: Json)
    decreases v
  {
    match v
    case Array(items) =>
      w.Array? && |items| == |w.items| && forall i :: 0 <= i < |items| ==> Same(items[i], w.items[i])
    case Object(es) =>
      w.Object? && ToMap(es).Keys == ToMap(w.entries).Keys &&
      forall i :: 0 <= i < |es| && es[i].key in ToMap(w.entries) ==> Same(es[i].value, ToMap(w.entries)[es[i].key])
    case _ => v == w
  }

  // ---------- the key order is total ----------

  lemma {:induction false} LessIsStrict(a: string, b: string)
    ensures !Less(a, a)
    ensures Less(a, b) ==> !Less(b, a)
    ensures a != b ==> Less(a, b) || Less(b, a)
  {
    if a != "" && b != "" && a[0] == b[0] {
      LessIsStrict(a[1..], b[1..]);
      assert a == [a[0]] + a[1..] && b == [b[0]] + b[1..];
    }
    if a != "" {
      LessIsStrict(a[1..], if b == "" then "" else b[1..]);
    }
  }

  lemma {:induction false} LessTransitive(a: string, b: string, c: string)
    requires Less(a, b) && Less(b, c)
    ensures Less(a, c)
  {
    if a != "" && a[0] == b[0] == c[0] {
      LessTransitive(a[1..], b[1..], c[1..]);
    }
  }

  // ---------- sorting ----------

  predicate Sorted(es: seq<Entry>) {
    forall i, j :: 0 <= i < j < |es| ==> Less(es[i].key, es[j].key)
  }

  lemma HasKeyStep(es: seq<Entry>, k: string)
    requires es != []
    ensures HasKey(es, k) <==> es[0].key == k || HasKey(es[1..], k)
  {
    var rest := es[1..];
    if HasKey(rest, k) {
      var i :| 0 <= i < |rest| && rest[i].key == k;
      assert es[i + 1].key == k;
    }
    if HasKey(es, k) && es[0].key != k {
      var i :| 0 <= i < |es| && es[i].key == k;
      assert rest[i - 1].key == k;
    }
  }

  lemma {:induction false} MapOf(es: seq<Entry>)
    ensures forall k :: k in ToMap(es) <==> HasKey(es, k)
    ensures DistinctKeys(es) ==>
              forall i :: 0 <= i < |es| ==> es[i].key in ToMap(es) && ToMap(es)[es[i].key] == es[i].value
  {
    if es != [] {
      var rest := es[1..];
      MapOf(rest);
      forall k ensures k in ToMap(es) <==> HasKey(es, k) {
        HasKeyStep(es, k);
      }
      if DistinctKeys(es) {
        assert DistinctKeys(rest);
        forall i | 0 <= i < |es| ensures es[i].key in ToMap(es) && ToMap(es)[es[i].key] == es[i].value {
          if i > 0 {
            assert rest[i - 1] == es[i];
          }
        }
      }
    }
  }

  lemma {:induction false} InsertKeepsMap(e: Entry, es: seq<Entry>)
    requires !HasKey(es, e.key)
    ensures ToMap(Insert(e, es)) == ToMap(es)[e.key := e.value]
  {
    if es == [] || Less(e.key, es[0].key) {
      assert ([e] + es)[1..] == es;
    } else {
      var rest := es[1..];
      HasKeyStep(es, e.key);
      InsertKeepsMap(e, rest);
      assert ([es[0]] + Insert(e, rest))[1..] == Insert(e, rest);
    }
  }

  lemma {:induction false} SortKeepsMap(es: seq<Entry>)
    requires DistinctKeys(es)
    ensures ToMap(Sort(es)) == ToMap(es)
  {
    if es != [] {
      SortKeepsMap(es[1..]);
      MapOf(es[1..]);
      MapOf(Sort(es[1..]));
      assert HasKey(Sort(es[1..]), es[0].key) <==> HasKey(es[1..], es[0].key);
      assert !HasKey(es[1..], es[0].key);
      InsertKeepsMap(es[0], Sort(es[1..]));
    }
  }

  lemma {:induction false} InsertSorts(e: Entry, es: seq<Entry>)
    requires Sorted(es) && !HasKey(es, e.key)
    ensures Sorted(Insert(e, es))
    ensures forall i :: 0 <= i < |Insert(e, es)| ==> Insert(e, es)[i] == e || Insert(e, es)[i] in es
  {
    if es == [] {
    } else if Less(e.key, es[0].key) {
      forall j | 0 <= j < |es| ensures Less(e.key, es[j].key) {
        if j > 0 {
          LessTransitive(e.key, es[0].key, es[j].key);
        }
      }
    } else {
      var rest := es[1..];
      assert es[0].key != e.key;
      LessIsStrict(e.key, es[0].key);
      assert forall i :: 0 <= i < |rest| ==> rest[i] == es[i + 1];
      InsertSorts(e, rest);
      var r := Insert(e, rest);
      forall j | 0 <= j < |r| ensures Less(es[0].key, r[j].key) {
        if r[j] != e {
          var i :| 0 <= i < |rest| && rest[i] == r[j];
        }
      }
    }
  }

  lemma {:induction false} SortSorts(es: seq<Entry>)
    requires DistinctKeys(es)
    ensures Sorted(Sort(es))
  {
    if es != [] {
      assert !HasKey(es[1..], es[0].key);
      SortSorts(es[1..]);
      SortKeepsMap(es[1..]);
      MapOf(es[1..]);
      MapOf(Sort(es[1..]));
      InsertSorts(es[0], Sort(es[1..]));
    }
  }

  // The first of the sorted members has the least key.
  lemma SortedHead(a: seq<Entry>, b: seq<Entry>)
    requires Sorted(a) && Sorted(b) && a != [] && ToMap(a).Keys == ToMap(b).Keys
    ensures b != [] && !Less(b[0].key, a[0].key)
  {
    MapOf(a);
    MapOf(b);
    assert HasKey(a, a[0].key);
    assert a[0].key in ToMap(b);
    if Less(b[0].key, a[0].key) {
      assert HasKey(b, b[0].key) && b[0].key in ToMap(a);
      var i :| 0 <= i < |a| && a[i].key == b[0].key;
      LessIsStrict(b[0].key, a[0].key);
    }
  }

  lemma SortedDistinct(es: seq<Entry>)
    requires Sorted(es)
    ensures DistinctKeys(es)
  {
    forall i, j | 0 <= i < j < |es| ensures es[i].key != es[j].key {
      LessIsStrict(es[i].key, es[j].key);
    }
  }

  lemma UpdatesAgree<K, V>(m: map<K, V>, n: map<K, V>, k: K, v: V, w: V)
    requires k !in m && k !in n && m[k := v] == n[k := w]
    ensures m == n && v == w
  {
    assert m[k := v][k] == n[k := w][k];
    forall x | x in m ensures x in n && n[x] == m[x] {
      assert x in m[k := v] && m[k := v][x] == n[k := w][x];
    }
    forall x | x in n ensures x in m {
      assert x in n[k := w];
    }
  }

  // A map has only one sorted list of members.
  lemma {:induction false} SortedUnique(a: seq<Entry>, b: seq<Entry>)
    requires Sorted(a) && Sorted(b) && ToMap(a) == ToMap(b)
    ensures a == b
  {
    if a != [] {
      SortedHead(a, b);
      SortedHead(b, a);
      LessIsStrict(a[0].key, b[0].key);
      SortedTail(a);
      SortedTail(b);
      UpdatesAgree(ToMap(a[1..]), ToMap(b[1..]), a[0].key, a[0].value, b[0].value);
      SortedUnique(a[1..], b[1..]);
      assert a == [a[0]] + a[1..] && b == [b[0]] + b[1..];
    } else if b != [] {
      SortedHead(b, a);
    }
  }

  lemma SortedTail(es: seq<Entry>)
    requires Sorted(es) && es != []
    ensures es[0].key !in ToMap(es[1..]) && Sorted(es[1..])
  {
    SortedDistinct(es);
    MapOf(es[1..]);
    assert !HasKey(es[1..], es[0].key);
  }

  // ---------- normal forms decide equality ----------

  lemma {:induction false} NormEntriesAt(es: seq<Entry>, i: nat)
    requires i < |es|
    ensures NormEntries(es)[i] == Entry(es[i].key, Norm(es[i].value))
  {
    if i > 0 {
      NormEntriesAt(es[1..], i - 1);
    }
  }

  lemma {:induction false} NormAllAt(vs: seq<Json>, i: nat)
    requires i < |vs|
    ensures NormAll(vs)[i] == Norm(vs[i])
  {
    if i > 0 {
      NormAllAt(vs[1..], i - 1);
    }
  }

  lemma NormEntriesAll(es: seq<Entry>)
    ensures forall i :: 0 <= i < |es| ==> NormEntries(es)[i] == Entry(es[i].key, Norm(es[i].value))
  {
    forall i | 0 <= i < |es| ensures NormEntries(es)[i] == Entry(es[i].key, Norm(es[i].value)) {
      NormEntriesAt(es, i);
    }
  }

  lemma NormEntriesKey(es: seq<Entry>, k: string)
    ensures HasKey(NormEntries(es), k) <==> HasKey(es, k)
  {
    var ns := NormEntries(es);
    NormEntriesAll(es);
    if HasKey(es, k) {
      var i :| 0 <= i < |es| && es[i].key == k;
      assert ns[i].key == k;
    }
    if HasKey(ns, k) {
      var i :| 0 <= i < |ns| && ns[i].key == k;
      assert es[i].key == k;
    }
  }

  lemma NormEntriesMap(es: seq<Entry>)
    requires DistinctKeys(es)
    ensures DistinctKeys(NormEntries(es))
    ensures ToMap(NormEntries(es)).Keys == ToMap(es).Keys
    ensures forall k :: k in ToMap(es) ==> ToMap(NormEntries(es))[k] == Norm(ToMap(es)[k])
  {
    var ns := NormEntries(es);
    NormEntriesAll(es);
    MapOf(es);
    MapOf(ns);
    forall k ensures k in ToMap(ns) <==> k in ToMap(es) {
      NormEntriesKey(es, k);
    }
    forall k | k in ToMap(es) ensures ToMap(ns)[k] == Norm(ToMap(es)[k]) {
      var i :| 0 <= i < |es| && es[i].key == k;
      assert ns[i].key == k;
    }
  }

  // Sorted members agree exactly when the maps do.
  lemma SortDecides(a: seq<Entry>, b: seq<Entry>)
    requires DistinctKeys(a) && DistinctKeys(b)
    ensures Sort(a) == Sort(b) <==> ToMap(a) == ToMap(b)
  {
    SortKeepsMap(a);
    SortKeepsMap(b);
    SortSorts(a);
    SortSorts(b);
    if ToMap(a) == ToMap(b) {
      SortedUnique(Sort(a), Sort(b));
    }
  }

  lemma {:induction false} NormDecides(v: Json, w: Json)
    requires Valid(v) && Valid(w)
    ensures Norm(v) == Norm(w) <==> Same(v, w)
    decreases v
  {
    if v.Array? && w.Array? {
      NormDecidesArray(v, w);
    } else if v.Object? && w.Object? {
      NormDecidesObject(v, w);
    }
  }

  lemma {:induction false} NormDecidesArray(v: Json, w: Json)
    requires Valid(v) && Valid(w) && v.Array? && w.Array?
    ensures Norm(v) == Norm(w) <==> Same(v, w)
    decreases v, 0
  {
    var a, b := v.items, w.items;
    if |a| == |b| {
      forall i | 0 <= i < |a|
        ensures NormAll(a)[i] == NormAll(b)[i] <==> Same(a[i], b[i])
      {
        NormAllAt(a, i);
        NormAllAt(b, i);
        NormDecides(a[i], b[i]);
      }
    }
    assert NormAll(a) == NormAll(b) <==> |a| == |b| && forall i :: 0 <= i < |a| ==> NormAll(a)[i] == NormAll(b)[i];
  }

  lemma {:induction false} NormDecidesObject(v: Json, w: Json)
    requires Valid(v) && Valid(w) && v.Object? && w.Object?
    ensures Norm(v) == Norm(w) <==> Same(v, w)
    decreases v, 0
  {
    var a, b := v.entries, w.entries;
    NormEntriesMap(a);
    NormEntriesMap(b);
    SortDecides(NormEntries(a), NormEntries(b));
    var ma, mb := ToMap(a), ToMap(b);
    var na, nb := ToMap(NormEntries(a)), ToMap(NormEntries(b));
    MapOf(a);
    MapOf(b);
    forall i | 0 <= i < |a| && a[i].key in mb
      ensures na[a[i].key] == nb[a[i].key] <==> Same(a[i].value, mb[a[i].key])
    {
      var j :| 0 <= j < |b| && b[j].key == a[i].key;
      NormDecides(a[i].value, b[j].value);
    }
    if na == nb {
      assert ma.Keys == na.Keys == nb.Keys == mb.Keys;
    }
    if Same(v, w) {
      forall k | k in na ensures na[k] == nb[k] {
        var i :| 0 <= i < |a| && a[i].key == k;
      }
    }
  }

  // ---------- the theorems ----------

  // Canonical text is unambiguous and insensitive to member order.
  lemma CanonicalDecides(v: Json, w: Json)
    requires Valid(v) && Valid(w)
    ensures Canonical(v) == Canonical(w) <==> Same(v, w)
  {
    PrintInjective(Norm(v), Norm(w));
    NormDecides(v, w);
  }

  lemma {:induction false} SameReflexive(v: Json)
    requires Valid(v)
    ensures Same(v, v)
  {
    CanonicalDecides(v, v);
  }

  lemma MemberOf(a: seq<Entry>, b: seq<Entry>, i: nat) returns (j: nat)
    requires multiset(a) == multiset(b) && i < |a|
    ensures j < |b| && b[j] == a[i]
  {
    assert a[i] in multiset(b);
    j :| 0 <= j < |b| && b[j] == a[i];
  }

  lemma MapIncluded(a: seq<Entry>, b: seq<Entry>, k: string)
    requires DistinctKeys(a) && DistinctKeys(b) && multiset(a) == multiset(b) && k in ToMap(a)
    ensures k in ToMap(b) && ToMap(b)[k] == ToMap(a)[k]
  {
    MapOf(a);
    MapOf(b);
    var i :| 0 <= i < |a| && a[i].key == k;
    var j := MemberOf(a, b, i);
  }

  lemma PermutedMap(a: seq<Entry>, b: seq<Entry>)
    requires DistinctKeys(a) && DistinctKeys(b) && multiset(a) == multiset(b)
    ensures ToMap(a) == ToMap(b)
  {
    forall k | k in ToMap(a) ensures k in ToMap(b) && ToMap(b)[k] == ToMap(a)[k] {
      MapIncluded(a, b, k);
    }
    forall k | k in ToMap(b) ensures k in ToMap(a) {
      MapIncluded(b, a, k);
    }
  }

  // Permuting the members of an object changes nothing.
  lemma PermutedMembers(a: seq<Entry>, b: seq<Entry>)
    requires Valid(Object(a)) && multiset(a) == multiset(b)
    ensures Valid(Object(b)) && Same(Object(a), Object(b))
  {
    PermutedDistinct(a, b);
    forall i | 0 <= i < |b| ensures Valid(b[i].value) {
      var j := MemberOf(b, a, i);
    }
    PermutedMap(a, b);
    MapOf(a);
    forall i | 0 <= i < |a| ensures Same(a[i].value, ToMap(b)[a[i].key]) {
      SameReflexive(a[i].value);
    }
  }

  lemma {:induction false} PermutedDistinct(a: seq<Entry>, b: seq<Entry>)
    requires DistinctKeys(a) && multiset(a) == multiset(b)
    ensures DistinctKeys(b)
  {
    forall i, j | 0 <= i < j < |b| ensures b[i].key != b[j].key {
      assert b[i] in multiset(b) && b[j] in multiset(b);
      var x :| 0 <= x < |a| && a[x] == b[i];
      var y :| 0 <= y < |a| && a[y] == b[j];
      if x == y {
        TwiceInMultiset(b, i, j);
        OnceInMultiset(a, x);
      }
    }
  }

  lemma TwiceInMultiset<T>(s: seq<T>, i: nat, j: nat)
    requires i < j < |s| && s[i] == s[j]
    ensures multiset(s)[s[i]] >= 2
  {
    assert s == s[..i + 1] + s[i + 1..];
    assert s[i] in multiset(s[..i + 1]) by { assert s[..i + 1][i] == s[i]; }
    assert s[j] in multiset(s[i + 1..]) by { assert s[i + 1..][j - i - 1] == s[j]; }
  }

  lemma OnceInMultiset(s: seq<Entry>, i: nat)
    requires i < |s| && DistinctKeys(s)
    ensures multiset(s)[s[i]] == 1
  {
    assert s == s[..i] + [s[i]] + s[i + 1..];
    assert s[i] !in s[..i] && s[i] !in s[i + 1..];
  }
}

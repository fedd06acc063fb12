/**
 What ties between keys cost the exact match of module ExactArgs: the values for which it is equality up to key order
 are exactly those without a tie inside.
 */
module ExactTies {
  import opened Basics
  import opened ExactArgs

  // ---------------------------------------------------------------- the sort is stable

  ghost predicate Before(es: seq<Entry>, e: Entry, f: Entry) {
    exists i, j :: 0 <= i < j < |es| && es[i] == e && es[j] == f
  }

  lemma BeforeInTail(x: Entry, es: seq<Entry>, e: Entry, f: Entry)
    requires Before(es, e, f) || (x == e && f in es)
    ensures Before([x] + es, e, f)
  {
    var all := [x] + es;
    if Before(es, e, f) {
      var i, j :| 0 <= i < j < |es| && es[i] == e && es[j] == f;
      assert all[i + 1] == e && all[j + 1] == f;
    } else {
      var j :| 0 <= j < |es| && es[j] == f;
      assert all[0] == e && all[j + 1] == f;
    }
  }

  lemma InInsert(leq: KeyOrder, e: Entry, es: seq<Entry>, f: Entry)
    ensures f in Insert(leq, e, es) <==> f == e || f in es
  {
    hide Insert;
    assert f in Insert(leq, e, es) <==> f in multiset(Insert(leq, e, es));
    assert f in [e] + es <==> f in multiset([e] + es);
  }

  /** An inserted entry comes before what it ties with. */
  lemma {:induction false} InsertBefore(leq: KeyOrder, e: Entry, es: seq<Entry>, f: Entry)
    requires f in es && leq(e.key, f.key)
    ensures Before(Insert(leq, e, es), e, f)
  {
    if leq(e.key, es[0].key) {
      BeforeInTail(e, es, e, f);
    } else {
      InsertBefore(leq, e, es[1..], f);
      BeforeInTail(es[0], Insert(leq, e, es[1..]), e, f);
    }
  }

  lemma {:induction false} InsertKeepsBefore(leq: KeyOrder, e: Entry, es: seq<Entry>, g: Entry, f: Entry)
    requires Before(es, g, f)
    ensures Before(Insert(leq, e, es), g, f)
  {
    if leq(e.key, es[0].key) {
      BeforeInTail(e, es, g, f);
    } else {
      var i, j :| 0 <= i < j < |es| && es[i] == g && es[j] == f;
      var rest := es[1..];
      assert rest[j - 1] == f;
      if i == 0 {
        InInsert(leq, e, rest, f);
      } else {
        assert rest[i - 1] == g;
        InsertKeepsBefore(leq, e, rest, g, f);
      }
      BeforeInTail(es[0], Insert(leq, e, rest), g, f);
    }
  }

  lemma {:induction false} SortedBefore(leq: KeyOrder, es: seq<Entry>, i: nat, j: nat)
    requires i < j < |es| && leq(es[i].key, es[j].key)
    ensures Before(Sorted(leq, es), es[i], es[j])
  {
    var rest, sorted := es[1..], Sorted(leq, es[1..]);
    assert rest[j - 1] == es[j];
    if i == 0 {
      assert es[j] in multiset(rest) && es[j] in multiset(sorted);
      InsertBefore(leq, es[0], sorted, es[j]);
    } else {
      assert rest[i - 1] == es[i];
      SortedBefore(leq, rest, i - 1, j - 1);
      InsertKeepsBefore(leq, es[0], sorted, es[i], es[j]);
    }
  }

  lemma NotBothBefore(es: seq<Entry>, e: Entry, f: Entry)
    requires DistinctKeys(es) && Before(es, e, f)
    ensures !Before(es, f, e)
  {
  }

  function Swapped(es: seq<Entry>, i: nat, j: nat): (r: seq<Entry>)
    requires i < j < |es|
    ensures |r| == |es|
  {
    es[i := es[j]][j := es[i]]
  }

  lemma SwappedIsSame(es: seq<Entry>, i: nat, j: nat)
    requires i < j < |es| && DistinctKeys(es)
    ensures DistinctKeys(Swapped(es, i, j)) && forall e :: e in Swapped(es, i, j) <==> e in es
  {
    var r := Swapped(es, i, j);
    forall e | e in es
      ensures e in r
    {
      var n :| 0 <= n < |es| && es[n] == e;
      assert r[if n == i then j else if n == j then i else n] == e;
    }
  }

  // ---------------------------------------------------------------- texts that differ

  /** The key an object text starts with. */
  function FirstPrintedKey(t: Text): Option<Text> {
    if |t| < 2 then None
    else
      match ParseString(t[1..][1..])
      case Some(p) => Some(p.value)
      case None => None
  }

  lemma FirstKeyOf(t: Text, k: Text, rest: Text)
    requires t != [] && t[1..] == Quoted(k) + rest
    ensures FirstPrintedKey(t) == Some(k)
  {
    QuotedTail(k, rest);
    StringRoundTrip(k, rest);
  }

  /** Member lists that part at some key have different texts. */
  lemma {:induction false} OtherKeysOtherText(leq: KeyOrder, a: Json, b: Json, xs: seq<Entry>, ys: seq<Entry>,
                                              end: Text)
    requires a.Obj? && b.Obj?
    requires (forall e | e in xs :: e in a.entries) && (forall e | e in ys :: e in b.entries)
    requires |xs| == |ys| && xs != ys && forall n :: 0 <= n < |xs| && xs[n].key == ys[n].key ==> xs[n] == ys[n]
    ensures MembersText(leq, a, xs) + end != MembersText(leq, b, ys) + end
    decreases |xs|
  {
    hide CanonicalText, Quoted;
    if xs[0].key == ys[0].key {
      var more, more' := MembersText(leq, a, xs[1..]), MembersText(leq, b, ys[1..]);
      assert xs == [xs[0]] + xs[1..] && ys == [ys[0]] + ys[1..];
      OtherKeysOtherText(leq, a, b, xs[1..], ys[1..], end);
      var m := MemberText(leq, a, xs[0]) + [COMMA];
      assert m + more + end == m + (more + end) && m + more' + end == m + (more' + end);
      SameStart(m, more + end, more' + end);
    } else {
      var t, t' := [LBRACE] + (MembersText(leq, a, xs) + end), [LBRACE] + (MembersText(leq, b, ys) + end);
      MembersStart(leq, a, xs, end);
      MembersStart(leq, b, ys, end);
    }
  }

  lemma SameStart(m: Text, x: Text, y: Text)
    ensures m + x == m + y ==> x == y
  {
    assert x == (m + x)[|m|..] && y == (m + y)[|m|..];
  }

  lemma SameEnd(x: Text, y: Text, m: Text)
    ensures x + m == y + m ==> x == y
  {
    if x + m == y + m {
      assert |x| == |y|;
      assert x == (x + m)[..|x|] && y == (y + m)[..|y|];
    }
  }

  lemma MembersStart(leq: KeyOrder, v: Json, es: seq<Entry>, end: Text)
    requires v.Obj? && (forall e | e in es :: e in v.entries) && es != []
    ensures FirstPrintedKey([LBRACE] + (MembersText(leq, v, es) + end)) == Some(es[0].key)
  {
    hide CanonicalText, Quoted, FirstPrintedKey;
    var key, text := Quoted(es[0].key), CanonicalText(leq, es[0].value);
    var others := if |es| == 1 then end else [COMMA] + MembersText(leq, v, es[1..]) + end;
    var t := [LBRACE] + (MembersText(leq, v, es) + end);
    assert t[1..] == MembersText(leq, v, es) + end;
    if |es| == 1 {
      assert t[1..] == key + [COLON] + text + end;
    } else {
      assert t[1..] == key + [COLON] + text + [COMMA] + MembersText(leq, v, es[1..]) + end;
    }
    assert t[1..] == key + ([COLON] + text + others);
    FirstKeyOf(t, es[0].key, [COLON] + text + others);
  }

  // ---------------------------------------------------------------- one tie at the top

  /** An object with the same entries in another order of insertion means the same. */
  lemma SameEntriesSameMeaning(a: Json, b: Json)
    requires a.Obj? && b.Obj? && WellFormed(a) && DistinctKeys(b.entries)
    requires forall e :: e in a.entries <==> e in b.entries
    ensures WellFormed(b) && Meaning(a) == Meaning(b)
  {
    assert forall e | e in b.entries :: WellFormed(e.value);
    ObjectMeaning(a);
    ObjectMeaning(b);
    hide Meaning, Fields;
    SameFields(a, b);
    SameFields(b, a);
  }

  lemma ObjectMeaning(v: Json)
    requires v.Obj?
    ensures Meaning(v) == VObj(Fields(v, v.entries))
  {
  }

  lemma SameFields(a: Json, b: Json)
    requires a.Obj? && b.Obj? && DistinctKeys(a.entries) && DistinctKeys(b.entries)
    requires forall e | e in a.entries :: e in b.entries
    ensures forall k | k in Fields(a, a.entries) ::
      k in Fields(b, b.entries) && Fields(a, a.entries)[k] == Fields(b, b.entries)[k]
  {
    hide Meaning;
    FieldsLookup(a, a.entries);
    FieldsLookup(b, b.entries);
    FieldsKeys(a, a.entries);
    forall k | k in Fields(a, a.entries)
      ensures k in Fields(b, b.entries) && Fields(a, a.entries)[k] == Fields(b, b.entries)[k]
    {
      assert k in Keys(a.entries);
      var i :| 0 <= i < |a.entries| && Keys(a.entries)[i] == k;
      assert a.entries[i] in b.entries;
      var j :| 0 <= j < |b.entries| && b.entries[j] == a.entries[i];
    }
  }

  lemma TieAtTheTop(leq: KeyOrder, v: Json, i: nat, j: nat)
    requires v.Obj? && WellFormed(v) && i < j < |v.entries|
    requires leq(v.entries[i].key, v.entries[j].key) && leq(v.entries[j].key, v.entries[i].key)
    ensures var w := Obj(Swapped(v.entries, i, j));
      WellFormed(w) && Meaning(w) == Meaning(v) && !ExactArgsMatch(leq, v, w)
  {
    var es, fs := v.entries, Swapped(v.entries, i, j);
    var w := Obj(fs);
    SwappedIsSame(es, i, j);
    SameEntriesSameMeaning(v, w);
    var xs, ys := SortedEntries(leq, v), SortedEntries(leq, w);
    SortedDistinct(leq, v);
    SortedBefore(leq, es, i, j);
    SortedBefore(leq, fs, i, j);
    NotBothBefore(xs, es[i], es[j]);
    assert xs != ys;
    EntriesByKey(es, xs, ys);
    OtherKeysOtherText(leq, v, w, xs, ys, [RBRACE]);
    ObjectText(leq, v);
    ObjectText(leq, w);
    SameStart([LBRACE], MembersText(leq, v, xs) + [RBRACE], MembersText(leq, w, ys) + [RBRACE]);
  }

  lemma EntriesByKey(es: seq<Entry>, xs: seq<Entry>, ys: seq<Entry>)
    requires DistinctKeys(es) && |xs| == |ys| && (forall e | e in xs :: e in es) && (forall e | e in ys :: e in es)
    ensures forall n :: 0 <= n < |xs| && xs[n].key == ys[n].key ==> xs[n] == ys[n]
  {
    forall n | 0 <= n < |xs| && xs[n].key == ys[n].key
      ensures xs[n] == ys[n]
    {
      assert xs[n] in es && ys[n] in es;
    }
  }

  lemma ObjectText(leq: KeyOrder, v: Json)
    requires v.Obj?
    ensures CanonicalText(leq, v) == [LBRACE] + (MembersText(leq, v, SortedEntries(leq, v)) + [RBRACE])
  {
  }

  // ---------------------------------------------------------------- one tie below

  function WithValue(e: Entry, key: Text, value: Json): Entry {
    if e.key == key then Entry(key, value) else e
  }

  function Replaced(es: seq<Entry>, key: Text, value: Json): (r: seq<Entry>)
    ensures |r| == |es|
  {
    if es == [] then [] else [WithValue(es[0], key, value)] + Replaced(es[1..], key, value)
  }

  lemma {:induction false} ReplacedAt(es: seq<Entry>, key: Text, value: Json)
    ensures forall i :: 0 <= i < |es| ==> Replaced(es, key, value)[i] == WithValue(es[i], key, value)
  {
    hide WithValue;
    if es != [] { ReplacedAt(es[1..], key, value); }
  }

  lemma {:induction false} ReplacedNone(es: seq<Entry>, key: Text, value: Json)
    requires forall e | e in es :: e.key != key
    ensures Replaced(es, key, value) == es
  {
    if es != [] { ReplacedNone(es[1..], key, value); }
  }

  lemma {:induction false} InsertReplaced(leq: KeyOrder, e: Entry, es: seq<Entry>, key: Text, value: Json)
    ensures Insert(leq, WithValue(e, key, value), Replaced(es, key, value))
      == Replaced(Insert(leq, e, es), key, value)
  {
    var x, fs := WithValue(e, key, value), Replaced(es, key, value);
    if es != [] {
      assert fs[0].key == es[0].key && fs[1..] == Replaced(es[1..], key, value);
      if leq(e.key, es[0].key) {
        assert Insert(leq, x, fs) == [x] + fs;
        assert ([e] + es)[1..] == es;
      } else {
        InsertReplaced(leq, e, es[1..], key, value);
        var rest := Insert(leq, e, es[1..]);
        assert Insert(leq, x, fs) == [fs[0]] + Insert(leq, x, fs[1..]);
        assert ([es[0]] + rest)[1..] == rest;
      }
    }
  }

  lemma {:induction false} SortedReplaced(leq: KeyOrder, es: seq<Entry>, key: Text, value: Json)
    ensures Sorted(leq, Replaced(es, key, value)) == Replaced(Sorted(leq, es), key, value)
  {
    hide Insert, WithValue;
    if es != [] {
      SortedReplaced(leq, es[1..], key, value);
      InsertReplaced(leq, es[0], Sorted(leq, es[1..]), key, value);
      assert Replaced(es, key, value)[1..] == Replaced(es[1..], key, value);
    }
  }

  /** A nonempty member list, taken apart: what follows the first value does not hold it. */
  lemma MembersApart(leq: KeyOrder, v: Json, es: seq<Entry>, end: Text) returns (rest: Text)
    requires v.Obj? && (forall e | e in es :: e in v.entries) && es != []
    ensures rest == if |es| == 1 then end else [COMMA] + (MembersText(leq, v, es[1..]) + end)
    ensures MembersText(leq, v, es) + end == Quoted(es[0].key) + [COLON] + (CanonicalText(leq, es[0].value) + rest)
  {
    hide CanonicalText, Quoted;
    if |es| == 1 {
      rest := end;
    } else {
      rest := [COMMA] + (MembersText(leq, v, es[1..]) + end);
    }
  }

  lemma {:induction false} OtherValueOtherText(leq: KeyOrder, a: Json, b: Json, xs: seq<Entry>, i: nat, value: Json,
                                               end: Text)
    requires a.Obj? && b.Obj? && i < |xs| && DistinctKeys(xs) && (forall e | e in xs :: e in a.entries)
    requires forall e | e in Replaced(xs, xs[i].key, value) :: e in b.entries
    requires CanonicalText(leq, xs[i].value) != CanonicalText(leq, value)
    ensures MembersText(leq, a, xs) + end != MembersText(leq, b, Replaced(xs, xs[i].key, value)) + end
    decreases |xs|
  {
    hide CanonicalText, Quoted, MembersText, DistinctKeys;
    var ys := Replaced(xs, xs[i].key, value);
    var rest := MembersApart(leq, a, xs, end);
    var rest' := MembersApart(leq, b, ys, end);
    var x, y := CanonicalText(leq, xs[0].value), CanonicalText(leq, ys[0].value);
    SameStart(Quoted(xs[0].key) + [COLON], x + rest, y + rest');
    assert ys[1..] == Replaced(xs[1..], xs[i].key, value);
    OthersHaveOtherKeys(xs);
    if i == 0 {
      ReplacedNone(xs[1..], xs[0].key, value);
      SameListSameText(leq, a, b, xs[1..]);
      SameEnd(x, y, rest);
    } else {
      assert xs[1..][i - 1] == xs[i];
      OtherValueOtherText(leq, a, b, xs[1..], i - 1, value, end);
      SameStart([COMMA], MembersText(leq, a, xs[1..]) + end, MembersText(leq, b, ys[1..]) + end);
      SameStart(x, rest, rest');
    }
  }

  lemma OthersHaveOtherKeys(xs: seq<Entry>)
    requires DistinctKeys(xs) && xs != []
    ensures DistinctKeys(xs[1..]) && forall e | e in xs[1..] :: e.key != xs[0].key
  {
  }

  lemma {:induction false} SameListSameText(leq: KeyOrder, a: Json, b: Json, xs: seq<Entry>)
    requires a.Obj? && b.Obj? && (forall e | e in xs :: e in a.entries) && (forall e | e in xs :: e in b.entries)
    ensures MembersText(leq, a, xs) == MembersText(leq, b, xs)
    decreases |xs|
  {
    SameMembersText(leq, a, b, xs, xs);
  }

  lemma TieInAField(leq: KeyOrder, v: Json, i: nat, value: Json)
    requires v.Obj? && WellFormed(v) && i < |v.entries| && WellFormed(value)
    requires Meaning(value) == Meaning(v.entries[i].value) && !ExactArgsMatch(leq, v.entries[i].value, value)
    ensures var w := Obj(Replaced(v.entries, v.entries[i].key, value));
      WellFormed(w) && Meaning(w) == Meaning(v) && !ExactArgsMatch(leq, v, w)
  {
    var es, key := v.entries, v.entries[i].key;
    var w := Obj(Replaced(es, key, value));
    ReplacedMeansTheSame(v, i, value);
    hide CanonicalText, Sorted, Replaced, Meaning;
    SortedReplaced(leq, es, key, value);
    SortedDistinct(leq, v);
    var xs := SortedEntries(leq, v);
    assert es[i] in xs;
    FieldOtherText(leq, v, w, xs, es[i], value);
  }

  lemma FieldOtherText(leq: KeyOrder, v: Json, w: Json, xs: seq<Entry>, e: Entry, value: Json)
    requires v.Obj? && w.Obj? && xs == SortedEntries(leq, v) && DistinctKeys(xs) && e in xs
    requires SortedEntries(leq, w) == Replaced(xs, e.key, value)
    requires CanonicalText(leq, e.value) != CanonicalText(leq, value)
    ensures CanonicalText(leq, v) != CanonicalText(leq, w)
  {
    ObjectText(leq, v);
    ObjectText(leq, w);
    hide CanonicalText, SortedEntries, Replaced, MembersText, DistinctKeys;
    var n :| 0 <= n < |xs| && xs[n] == e;
    OtherValueOtherText(leq, v, w, xs, n, value, [RBRACE]);
    var ys := Replaced(xs, e.key, value);
    SameStart([LBRACE], MembersText(leq, v, xs) + [RBRACE], MembersText(leq, w, ys) + [RBRACE]);
  }

  lemma ReplacedMeansTheSame(v: Json, i: nat, value: Json)
    requires v.Obj? && WellFormed(v) && i < |v.entries| && WellFormed(value)
    requires Meaning(value) == Meaning(v.entries[i].value)
    ensures var w := Obj(Replaced(v.entries, v.entries[i].key, value)); WellFormed(w) && Meaning(w) == Meaning(v)
  {
    var es, key := v.entries, v.entries[i].key;
    var w := Obj(Replaced(es, key, value));
    var fs := w.entries;
    ReplacedAt(es, key, value);
    forall n | 0 <= n < |es|
      ensures fs[n].key == es[n].key && Meaning(fs[n].value) == Meaning(es[n].value) && WellFormed(fs[n].value)
    {
      assert es[n] in es;
    }
    hide Meaning;
    SameMeanings(v, w, es, fs);
    ObjectMeaning(v);
    ObjectMeaning(w);
  }

  lemma {:induction false} SameMeanings(a: Json, b: Json, xs: seq<Entry>, ys: seq<Entry>)
    requires a.Obj? && b.Obj? && |xs| == |ys|
    requires (forall e | e in xs :: e in a.entries) && (forall e | e in ys :: e in b.entries)
    requires forall n :: 0 <= n < |xs| ==> xs[n].key == ys[n].key && Meaning(xs[n].value) == Meaning(ys[n].value)
    ensures Fields(a, xs) == Fields(b, ys)
    decreases |xs|
  {
    hide Meaning;
    if xs != [] { SameMeanings(a, b, xs[1..], ys[1..]); }
  }

  lemma ItemsApart(leq: KeyOrder, v: Json, k: nat, end: Text) returns (rest: Text)
    requires v.Arr? && k < |v.items|
    ensures rest == if k + 1 == |v.items| then end else [COMMA] + (ItemsText(leq, v, k + 1) + end)
    ensures ItemsText(leq, v, k) + end == CanonicalText(leq, v.items[k]) + rest
  {
    hide CanonicalText;
    rest := if k + 1 == |v.items| then end else [COMMA] + (ItemsText(leq, v, k + 1) + end);
  }

  lemma {:induction false} OtherItemOtherText(leq: KeyOrder, a: Json, b: Json, i: nat, k: nat, end: Text)
    requires a.Arr? && b.Arr? && |a.items| == |b.items| && k <= i < |a.items|
    requires forall n :: 0 <= n < |a.items| && n != i ==> a.items[n] == b.items[n]
    requires CanonicalText(leq, a.items[i]) != CanonicalText(leq, b.items[i])
    ensures ItemsText(leq, a, k) + end != ItemsText(leq, b, k) + end
    decreases i - k
  {
    hide CanonicalText, ItemsText;
    var x, y := CanonicalText(leq, a.items[k]), CanonicalText(leq, b.items[k]);
    var rest := ItemsApart(leq, a, k, end);
    var rest' := ItemsApart(leq, b, k, end);
    if k == i {
      SameItemsFrom(leq, a, b, k + 1);
      SameEnd(x, y, rest);
    } else {
      OtherItemOtherText(leq, a, b, i, k + 1, end);
      SameStart([COMMA], ItemsText(leq, a, k + 1) + end, ItemsText(leq, b, k + 1) + end);
      SameStart(x, rest, rest');
    }
  }

  lemma {:induction false} SameItemsFrom(leq: KeyOrder, a: Json, b: Json, k: nat)
    requires a.Arr? && b.Arr? && |a.items| == |b.items| && k <= |a.items|
    requires forall n :: k <= n < |a.items| ==> a.items[n] == b.items[n]
    ensures ItemsText(leq, a, k) == ItemsText(leq, b, k)
    decreases |a.items| - k
  {
    hide CanonicalText;
    if k < |a.items| { SameItemsFrom(leq, a, b, k + 1); }
  }

  lemma {:induction false} SameItemsMeaning(a: Json, b: Json, k: nat)
    requires a.Arr? && b.Arr? && |a.items| == |b.items| && k <= |a.items|
    requires forall n :: 0 <= n < |a.items| ==> Meaning(a.items[n]) == Meaning(b.items[n])
    ensures Meanings(a, k) == Meanings(b, k)
    decreases |a.items| - k
  {
    hide Meaning;
    if k < |a.items| { SameItemsMeaning(a, b, k + 1); }
  }

  lemma TieInAnItem(leq: KeyOrder, v: Json, i: nat, item: Json)
    requires v.Arr? && WellFormed(v) && i < |v.items| && WellFormed(item)
    requires Meaning(item) == Meaning(v.items[i]) && !ExactArgsMatch(leq, v.items[i], item)
    ensures var w := Arr(v.items[i := item]); WellFormed(w) && Meaning(w) == Meaning(v) && !ExactArgsMatch(leq, v, w)
  {
    var w := Arr(v.items[i := item]);
    SameItemsMeaning(v, w, 0);
    OtherItemOtherText(leq, v, w, i, 0, [RBRACKET]);
    var x, y := ItemsText(leq, v, 0) + [RBRACKET], ItemsText(leq, w, 0) + [RBRACKET];
    assert CanonicalText(leq, v) == [LBRACKET] + x && CanonicalText(leq, w) == [LBRACKET] + y;
    SameStart([LBRACKET], x, y);
  }

  // ---------------------------------------------------------------- main results

  /** A value with a tie somewhere inside: one that means the same and is printed otherwise. */
  lemma {:induction false} TieShows(leq: KeyOrder, v: Json) returns (w: Json)
    requires WellFormed(v) && !Untied(leq, v)
    ensures WellFormed(w) && Meaning(w) == Meaning(v) && !ExactArgsMatch(leq, v, w)
    decreases v
  {
    match v
    case Arr(items) =>
      var i :| 0 <= i < |items| && !Untied(leq, items[i]);
      var item := TieShows(leq, items[i]);
      w := Arr(items[i := item]);
      TieInAnItem(leq, v, i, item);
    case Obj(es) =>
      if i, j :| 0 <= i < j < |es| && leq(es[i].key, es[j].key) && leq(es[j].key, es[i].key) {
        w := Obj(Swapped(es, i, j));
        TieAtTheTop(leq, v, i, j);
      } else {
        var i :| 0 <= i < |es| && !Untied(leq, es[i].value);
        var value := TieShows(leq, es[i].value);
        w := Obj(Replaced(es, es[i].key, value));
        TieInAField(leq, v, i, value);
      }
  }

  /**
   The match of the protocol decides equality up to key order for exactly those values in whose
   objects no two different keys compare as equal.
   */
  lemma MatchDecidesExactly(leq: KeyOrder, v: Json)
    requires TotalPreorder(leq) && WellFormed(v)
    ensures (forall w :: WellFormed(w) ==> (ExactArgsMatch(leq, v, w) <==> Meaning(v) == Meaning(w)))
      <==> Untied(leq, v)
  {
    hide ExactArgsMatch, WellFormed, Meaning, Untied;
    if Untied(leq, v) {
      forall w | WellFormed(w)
        ensures ExactArgsMatch(leq, v, w) <==> Meaning(v) == Meaning(w)
      {
        MatchIsSameMeaning(leq, v, w);
      }
    } else {
      var w := TieShows(leq, v);
    }
  }

  ghost predicate OrderIrrelevant(leq: KeyOrder) {
    forall a, b :: WellFormed(a) && WellFormed(b) && Meaning(a) == Meaning(b) ==> ExactArgsMatch(leq, a, b)
  }

  /**
   A locale comparison may report a tie between two different keys. Then the stable sort keeps
   insertion order and the same object prints two texts; so key order is irrelevant exactly
   when there are no ties.
   */
  lemma TiesExposeKeyOrder(leq: KeyOrder)
    requires TotalPreorder(leq)
    ensures OrderIrrelevant(leq) <==> Antisymmetric(leq)
  {
    if Antisymmetric(leq) {
      forall a, b | WellFormed(a) && WellFormed(b) && Meaning(a) == Meaning(b)
        ensures ExactArgsMatch(leq, a, b)
      {
        AntisymmetricIsUntied(leq, a);
        MatchIsSameMeaning(leq, a, b);
      }
    } else {
      var k, l :| leq(k, l) && leq(l, k) && k != l;
      NullPairIsTied(leq, k, l);
      var w := TieShows(leq, NullPair(k, l));
      assert !OrderIrrelevant(leq);
    }
  }

  function NullPair(k: Text, l: Text): Json {
    Obj([Entry(k, Null), Entry(l, Null)])
  }

  lemma NullPairIsTied(leq: KeyOrder, k: Text, l: Text)
    requires leq(k, l) && leq(l, k) && k != l
    ensures WellFormed(NullPair(k, l)) && !Untied(leq, NullPair(k, l))
  {
    var es := NullPair(k, l).entries;
    assert es[0] in es && es[1] in es;
  }
}

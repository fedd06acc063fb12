/**
 The order in which the traversals of the reply gate (packages/core/src/replyGate.ts) take evidence: what stands earlier
 in a read wins unless something later is strictly better. A value is cut in two anywhere, at any depth.
 */
module ReplyOrder {
  import opened Basics
  import opened ReplyGate
  import opened ReplyEvidence

  /** The first and the second part of a value: one list of items or entries, somewhere inside, is cut in two. */
  predicate Splits(v: Json, a: Json, b: Json)
    decreases v
  {
    match v
    case Arr(items) =>
      && a.Arr? && b.Arr?
      && ((|items| <= 100 && items == a.items + b.items)
          || (|items| == |a.items| == |b.items| == 1 && Splits(items[0], a.items[0], b.items[0])))
    case Obj(es) =>
      && a.Obj? && b.Obj?
      && ((|es| <= 100 && es == a.entries + b.entries)
          || (|es| == |a.entries| == |b.entries| == 1 && es[0].key == a.entries[0].key == b.entries[0].key
              && Splits(es[0].value, a.entries[0].value, b.entries[0].value)))
    case _ => false
  }

  // ---------------------------------------------------------------- the lists of the parts

  lemma {:induction false} UrlsJoin(r: Rules, vs: seq<Json>, ws: seq<Json>, preference: nat)
    ensures UrlCandidates(r, vs + ws, preference) == UrlCandidates(r, vs, preference) + UrlCandidates(r, ws, preference)
  {
    if vs == [] {
      assert vs + ws == ws;
    } else {
      UrlsJoin(r, vs[1..], ws, preference);
      assert (vs + ws)[1..] == vs[1..] + ws;
    }
  }

  lemma {:induction false} ReferencesJoin(r: Rules, vs: seq<Json>, ws: seq<Json>)
    ensures ReferenceCandidates(r, vs + ws) == ReferenceCandidates(r, vs) + ReferenceCandidates(r, ws)
  {
    if vs == [] {
      assert vs + ws == ws;
    } else {
      ReferencesJoin(r, vs[1..], ws);
      assert (vs + ws)[1..] == vs[1..] + ws;
    }
  }

  lemma {:induction false} ItemsBack(r: Rules, x: seq<Json>, y: seq<Json>, i: nat, depth: nat)
    requires |x + y| <= 100 && i <= |y|
    ensures ItemCandidates(r, Arr(x + y), |x| + i, depth) == ItemCandidates(r, Arr(y), i, depth)
    ensures ItemTextUrls(r, Arr(x + y), |x| + i, depth) == ItemTextUrls(r, Arr(y), i, depth)
    decreases |y| - i
  {
    hide Candidates, TextUrls;
    if i < |y| { ItemsBack(r, x, y, i + 1, depth); }
  }

  lemma {:induction false} ItemsJoin(r: Rules, x: seq<Json>, y: seq<Json>, i: nat, depth: nat)
    requires |x + y| <= 100 && i <= |x|
    ensures ItemCandidates(r, Arr(x + y), i, depth)
      == ItemCandidates(r, Arr(x), i, depth) + ItemCandidates(r, Arr(y), 0, depth)
    ensures ItemTextUrls(r, Arr(x + y), i, depth)
      == ItemTextUrls(r, Arr(x), i, depth) + ItemTextUrls(r, Arr(y), 0, depth)
    decreases |x| - i
  {
    hide Candidates, TextUrls;
    if i < |x| { ItemsJoin(r, x, y, i + 1, depth); } else { ItemsBack(r, x, y, 0, depth); }
  }

  lemma {:induction false} EntriesBack(r: Rules, x: seq<Entry>, y: seq<Entry>, i: nat, depth: nat)
    requires |x + y| <= 100 && i <= |y|
    ensures EntryCandidates(r, Obj(x + y), |x| + i, depth) == EntryCandidates(r, Obj(y), i, depth)
    ensures EntryTextUrls(r, Obj(x + y), |x| + i, depth) == EntryTextUrls(r, Obj(y), i, depth)
    decreases |y| - i
  {
    hide FieldCandidates, FieldTextUrls;
    if i < |y| { EntriesBack(r, x, y, i + 1, depth); }
  }

  lemma {:induction false} EntriesJoin(r: Rules, x: seq<Entry>, y: seq<Entry>, i: nat, depth: nat)
    requires |x + y| <= 100 && i <= |x|
    ensures EntryCandidates(r, Obj(x + y), i, depth)
      == EntryCandidates(r, Obj(x), i, depth) + EntryCandidates(r, Obj(y), 0, depth)
    ensures EntryTextUrls(r, Obj(x + y), i, depth)
      == EntryTextUrls(r, Obj(x), i, depth) + EntryTextUrls(r, Obj(y), 0, depth)
    decreases |x| - i
  {
    hide FieldCandidates, FieldTextUrls;
    if i < |x| { EntriesJoin(r, x, y, i + 1, depth); } else { EntriesBack(r, x, y, 0, depth); }
  }

  lemma {:induction false} SplitInOrder(r: Rules, v: Json, a: Json, b: Json, depth: nat)
    requires Splits(v, a, b)
    ensures Candidates(r, v, depth) == Candidates(r, a, depth) + Candidates(r, b, depth)
    ensures TextUrls(r, v, depth) == TextUrls(r, a, depth) + TextUrls(r, b, depth)
    decreases v
  {
    if depth <= MAX_DEPTH {
      match v
      case Arr(items) =>
        if |items| <= 100 && items == a.items + b.items {
          ItemsJoin(r, a.items, b.items, 0, depth);
        } else {
          SplitInOrder(r, items[0], a.items[0], b.items[0], depth + 1);
          OneItem(r, v, depth);
          OneItem(r, a, depth);
          OneItem(r, b, depth);
        }
      case Obj(es) =>
        if |es| <= 100 && es == a.entries + b.entries {
          EntriesJoin(r, a.entries, b.entries, 0, depth);
        } else {
          FieldInOrder(r, es[0], a.entries[0], b.entries[0], depth);
          OneEntry(r, v, depth);
          OneEntry(r, a, depth);
          OneEntry(r, b, depth);
        }
    }
  }

  lemma OneItem(r: Rules, v: Json, depth: nat)
    requires v.Arr? && |v.items| == 1 && depth <= MAX_DEPTH
    ensures Candidates(r, v, depth) == Candidates(r, v.items[0], depth + 1)
    ensures TextUrls(r, v, depth) == TextUrls(r, v.items[0], depth + 1)
  {
    assert ItemCandidates(r, v, 1, depth) == [] && ItemTextUrls(r, v, 1, depth) == [];
  }

  lemma OneEntry(r: Rules, v: Json, depth: nat)
    requires v.Obj? && |v.entries| == 1 && depth <= MAX_DEPTH
    ensures Candidates(r, v, depth) == FieldCandidates(r, v.entries[0], depth)
    ensures TextUrls(r, v, depth) == FieldTextUrls(r, v.entries[0], depth)
  {
    assert EntryCandidates(r, v, 1, depth) == [] && EntryTextUrls(r, v, 1, depth) == [];
  }

  lemma {:induction false} FieldInOrder(r: Rules, e: Entry, f: Entry, g: Entry, depth: nat)
    requires e.key == f.key == g.key && Splits(e.value, f.value, g.value)
    ensures FieldCandidates(r, e, depth) == FieldCandidates(r, f, depth) + FieldCandidates(r, g, depth)
    ensures FieldTextUrls(r, e, depth) == FieldTextUrls(r, f, depth) + FieldTextUrls(r, g, depth)
    decreases e
  {
    SplitInOrder(r, e.value, f.value, g.value, depth + 1);
    match FieldOf(r, e.key)
    case UrlField(preference) =>
      if Values(e.value) == Values(f.value) + Values(g.value) {
        UrlsJoin(r, Values(f.value), Values(g.value), preference);
      } else {
        NoTexts(r, e.value, f.value, g.value, preference);
      }
    case ReferenceField =>
      if Values(e.value) == Values(f.value) + Values(g.value) {
        ReferencesJoin(r, Values(f.value), Values(g.value));
      } else {
        NoTexts(r, e.value, f.value, g.value, 0);
      }
    case _ =>
  }

  /** A cut further inside leaves no text to be a field's own. */
  lemma NoTexts(r: Rules, v: Json, a: Json, b: Json, preference: nat)
    requires Splits(v, a, b) && Values(v) != Values(a) + Values(b)
    ensures forall w | w in [v, a, b] ::
      UrlCandidates(r, Values(w), preference) == [] && ReferenceCandidates(r, Values(w)) == []
  {
    forall w | w in [v, a, b]
      ensures UrlCandidates(r, Values(w), preference) == [] && ReferenceCandidates(r, Values(w)) == []
    {
      assert |Values(w)| == 1 && !Values(w)[0].Str?;
      hide Splits, Values;
      NoText(r, Values(w), preference);
    }
  }

  lemma NoText(r: Rules, vs: seq<Json>, preference: nat)
    requires |vs| == 1 && !vs[0].Str?
    ensures UrlCandidates(r, vs, preference) == [] && ReferenceCandidates(r, vs) == []
  {
    assert vs[1..] == [];
  }

  // ---------------------------------------------------------------- what is chosen

  lemma {:induction false} ShownIsBetter(r: Rules, v: Json, e: Evidence, depth: nat)
    requires Shown(r, v, e, depth)
    ensures e.preference < 5
    decreases v
  {
    match v
    case Arr(items) =>
      var i :| 0 <= i < |items| && i < 100 && Shown(r, items[i], e, depth + 1);
      ShownIsBetter(r, items[i], e, depth + 1);
    case Obj(es) =>
      hide Gives;
      var i :| 0 <= i < |es| && i < 100
        && (Gives(r, r.normalizedKey(es[i].key), es[i].value, e) || Shown(r, es[i].value, e, depth + 1));
      if Shown(r, es[i].value, e, depth + 1) {
        ShownIsBetter(r, es[i].value, e, depth + 1);
      } else {
        GivenIsBetter(r, r.normalizedKey(es[i].key), es[i].value, e);
      }
  }

  lemma GivenIsBetter(r: Rules, name: string, value: Json, e: Evidence)
    requires Gives(r, name, value, e)
    ensures e.preference < 5
  {
  }

  lemma BestIsBetter(r: Rules, v: Json)
    ensures Best(None, Candidates(r, v, 0)).Some? ==> Best(None, Candidates(r, v, 0)).value.preference < 5
  {
    var cs := Candidates(r, v, 0);
    LeastOf(cs);
    hide Candidates, Shown, Best;
    if cs != [] {
      ListedIsShown(r, v, Best(None, cs).value, 0);
      ShownIsBetter(r, v, Best(None, cs).value, 0);
    }
  }

  /** The evidence of the first part, unless that of the second is strictly better. */
  function Earlier(x: Option<Evidence>, y: Option<Evidence>): Option<Evidence> {
    if x.None? || (y.Some? && y.value.preference < x.value.preference) then y else x
  }

  lemma {:induction false} BestOfBoth(start: Option<Evidence>, cs: seq<Evidence>)
    ensures Best(start, cs) == Earlier(start, Best(None, cs))
    decreases |cs|
  {
    if cs != [] {
      BestOfBoth(Better(start, cs[0]), cs[1..]);
      BestOfBoth(Some(cs[0]), cs[1..]);
    }
  }

  /**
   What the gate chooses for a read is what it chooses for the first part, unless what it chooses for the second part is
   strictly better: of equally good evidence the earlier is taken, in fields as in text.
   */
  lemma EarlierWins(r: Rules, result: string, first: string, second: string)
    requires r.parse(result).Some? && r.parse(first).Some? && r.parse(second).Some?
    requires Splits(r.parse(result).value, r.parse(first).value, r.parse(second).value)
    ensures Preferred(r, result) == Earlier(Preferred(r, first), Preferred(r, second))
  {
    var v, a, b := r.parse(result).value, r.parse(first).value, r.parse(second).value;
    SplitInOrder(r, v, a, b, 0);
    hide Splits, Candidates, TextUrls;
    var x, y := Candidates(r, a, 0), Candidates(r, b, 0);
    BestSplit(None, x, y);
    BestIsFirstLeast(None, x);
    BestIsFirstLeast(None, y);
    BestIsFirstLeast(None, x + y);
    BestIsFirstLeast(Best(None, x), y);
    BestIsBetter(r, a);
    BestIsBetter(r, b);
    BestOfBoth(Best(None, x), y);
    hide Best;
  }

  /** In a text the first match counts that gives a URL. */
  lemma FirstMatchWins(r: Rules, result: string) returns (i: nat)
    requires r.parse(result).None?
    ensures var ts, chosen := r.urlTokens(result), Preferred(r, result);
      && i <= |ts| && (chosen.None? <==> i == |ts|)
      && (forall j :: 0 <= j < i ==> TokenUrl(r, ts[j]).None?)
      && (i < |ts| ==> TokenUrl(r, ts[i]).Some? && chosen == Some(Evidence(Url, TokenUrl(r, ts[i]).value, 5)))
  {
    i := FirstToken(r, r.urlTokens(result));
  }

  lemma {:induction false} FirstToken(r: Rules, ts: seq<UrlToken>) returns (i: nat)
    ensures i <= |ts| && (TokenUrls(r, ts) == [] <==> i == |ts|)
    ensures forall j :: 0 <= j < i ==> TokenUrl(r, ts[j]).None?
    ensures i < |ts| ==> TokenUrl(r, ts[i]).Some? && TokenUrls(r, ts)[0] == TokenUrl(r, ts[i]).value
  {
    i := 0;
    if ts != [] && TokenUrl(r, ts[0]).None? {
      i := FirstToken(r, ts[1..]);
      i := i + 1;
    }
  }
}

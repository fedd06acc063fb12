/**
 What counts as evidence for the traversals of module ReplyGate, told from the keys on the way to it, and that nothing
 under a sensitive key matters to them.
 */
module ReplyEvidence {
  import opened Basics
  import opened ReplyGate

  // ---------------------------------------------------------------- values under sensitive keys

  /** The values differ at most under sensitive keys. */
  predicate Alike(r: Rules, v: Json, w: Json) {
    match v
    case Arr(items) =>
      w.Arr? && |w.items| == |items| && forall i | 0 <= i < |items| :: Alike(r, items[i], w.items[i])
    case Obj(es) =>
      w.Obj? && |w.entries| == |es|
      && forall i | 0 <= i < |es| ::
           es[i].key == w.entries[i].key && (r.sensitiveKey(es[i].key) || Alike(r, es[i].value, w.entries[i].value))
    case _ => v == w
  }

  lemma {:induction false} AlikeItself(r: Rules, v: Json)
    ensures Alike(r, v, v)
  {
    match v
    case Arr(items) =>
      forall i | 0 <= i < |items| ensures Alike(r, items[i], items[i]) { AlikeItself(r, items[i]); }
    case Obj(es) =>
      forall i | 0 <= i < |es| ensures Alike(r, es[i].value, es[i].value) { AlikeItself(r, es[i].value); }
    case _ =>
  }

  /** Another value under a sensitive key gives an alike object. */
  lemma OtherSecretIsAlike(r: Rules, es: seq<Entry>, i: nat, secret: Json)
    requires i < |es| && r.sensitiveKey(es[i].key)
    ensures Alike(r, Obj(es), Obj(es[i := Entry(es[i].key, secret)]))
  {
    forall k | 0 <= k < |es|
      ensures Alike(r, es[k].value, es[k].value)
    {
      AlikeItself(r, es[k].value);
    }
  }

  /** Lists of alike values hold the same texts at the same places. */
  ghost predicate SameTexts(vs: seq<Json>, ws: seq<Json>) {
    |vs| == |ws| && forall i :: 0 <= i < |vs| ==> (vs[i].Str? || ws[i].Str? ==> vs[i] == ws[i])
  }

  lemma ValuesAlike(r: Rules, v: Json, w: Json)
    requires Alike(r, v, w)
    ensures SameTexts(Values(v), Values(w))
  {
  }

  lemma {:induction false} UrlsAlike(r: Rules, vs: seq<Json>, ws: seq<Json>, preference: nat)
    requires SameTexts(vs, ws)
    ensures UrlCandidates(r, vs, preference) == UrlCandidates(r, ws, preference)
  {
    if vs != [] { UrlsAlike(r, vs[1..], ws[1..], preference); }
  }

  lemma {:induction false} ReferencesAlike(r: Rules, vs: seq<Json>, ws: seq<Json>)
    requires SameTexts(vs, ws)
    ensures ReferenceCandidates(r, vs) == ReferenceCandidates(r, ws)
  {
    if vs != [] { ReferencesAlike(r, vs[1..], ws[1..]); }
  }

  lemma {:induction false} EvidenceAlike(r: Rules, v: Json, w: Json, depth: nat)
    requires Alike(r, v, w)
    ensures Candidates(r, v, depth) == Candidates(r, w, depth) && TextUrls(r, v, depth) == TextUrls(r, w, depth)
    decreases v, MAX_WIDTH + 2
  {
    if depth <= MAX_DEPTH {
      match v
      case Arr(_) => ItemsAlike(r, v, w, 0, depth);
      case Obj(_) => EntriesAlike(r, v, w, 0, depth);
      case _ =>
    }
  }

  lemma {:induction false} ItemsAlike(r: Rules, v: Json, w: Json, i: nat, depth: nat)
    requires v.Arr? && Alike(r, v, w) && i <= Width(|v.items|)
    ensures ItemCandidates(r, v, i, depth) == ItemCandidates(r, w, i, depth)
    ensures ItemTextUrls(r, v, i, depth) == ItemTextUrls(r, w, i, depth)
    decreases v, Width(|v.items|) - i
  {
    if i < Width(|v.items|) {
      EvidenceAlike(r, v.items[i], w.items[i], depth + 1);
      ItemsAlike(r, v, w, i + 1, depth);
    }
  }

  lemma {:induction false} EntriesAlike(r: Rules, v: Json, w: Json, i: nat, depth: nat)
    requires v.Obj? && Alike(r, v, w) && i <= Width(|v.entries|)
    ensures EntryCandidates(r, v, i, depth) == EntryCandidates(r, w, i, depth)
    ensures EntryTextUrls(r, v, i, depth) == EntryTextUrls(r, w, i, depth)
    decreases v, Width(|v.entries|) - i
  {
    if i < Width(|v.entries|) {
      FieldAlike(r, v.entries[i], w.entries[i], depth);
      EntriesAlike(r, v, w, i + 1, depth);
    }
  }

  lemma {:induction false} FieldAlike(r: Rules, e: Entry, f: Entry, depth: nat)
    requires e.key == f.key && (r.sensitiveKey(e.key) || Alike(r, e.value, f.value))
    ensures FieldCandidates(r, e, depth) == FieldCandidates(r, f, depth)
    ensures FieldTextUrls(r, e, depth) == FieldTextUrls(r, f, depth)
    decreases e
  {
    if !r.sensitiveKey(e.key) {
      ValuesAlike(r, e.value, f.value);
      UrlsAlike(r, Values(e.value), Values(f.value), StructuredUrlPreference(r.normalizedKey(e.key)));
      ReferencesAlike(r, Values(e.value), Values(f.value));
      EvidenceAlike(r, e.value, f.value, depth + 1);
    }
  }

  /**
   Whatever is put under sensitive keys, at any depth, the gate chooses the same evidence for the
   read and gives the same answers about the URLs that it returned.
   */
  lemma SensitiveIsIgnored(r: Rules, result: string, result': string, u: string)
    requires r.parse(result).Some? && r.parse(result').Some? && Alike(r, r.parse(result).value, r.parse(result').value)
    ensures Preferred(r, result) == Preferred(r, result')
    ensures ActionReturnsEvidenceUrl(r, result, u) <==> ActionReturnsEvidenceUrl(r, result', u)
  {
    var v, w := r.parse(result).value, r.parse(result').value;
    EvidenceAlike(r, v, w, 0);
    ContainsExactly(r, v, u, 0);
    ContainsExactly(r, w, u, 0);
  }

  // ---------------------------------------------------------------- which keys give what

  const URL_NAMES := {
    "url", "uri", "link", "permalink", "canonicalurl", "evidenceurl", "artifacturl", "sourceurl", "githuburl"
  }
  const REFERENCE_NAMES := {"evidence", "evidenceref", "artifactref", "sourceref"}

  /** The normalized key is the name, in the singular or the plural. */
  predicate Named(key: string, name: string) {
    key == name || key == name + "s"
  }

  ghost predicate IsUrlName(key: string) {
    exists name | name in URL_NAMES :: Named(key, name)
  }

  ghost predicate IsEvidenceName(key: string) {
    IsUrlName(key) || key in REFERENCE_NAMES
  }

  /** A name that says where to look first: its preference, lower being better. */
  function PreferenceOf(key: string): nat {
    if Named(key, "canonicalurl") then 0
    else if Named(key, "evidenceurl") || Named(key, "permalink") then 1
    else if Named(key, "sourceurl") then 2
    else 3
  }

  /** The texts that a field gives: its value, or the first hundred items of it. */
  predicate HoldsText(value: Json, s: string) {
    value == Str(s) || (value.Arr? && exists i :: 0 <= i < |value.items| && i < 100 && value.items[i] == Str(s))
  }

  /** A field of this name and value is evidence. */
  ghost predicate Gives(r: Rules, name: string, value: Json, e: Evidence) {
    || (IsUrlName(name) && e.kind == Url && e.preference == PreferenceOf(name)
        && exists s :: HoldsText(value, s) && r.safeUrl(s) == Some(e.value))
    || (name in REFERENCE_NAMES && e.kind == Reference && e.preference == 4
        && exists s :: HoldsText(value, s) && r.safeReference(s) == Some(e.value))
  }

  /**
   The value has a field that is evidence, among the first hundred items or entries at each depth,
   at most eight deep, with no sensitive key and no other field of evidence on the way.
   */
  ghost predicate Shown(r: Rules, v: Json, e: Evidence, depth: nat) {
    && depth <= 8
    && match v
       case Arr(items) => exists i | 0 <= i < |items| && i < 100 :: Shown(r, items[i], e, depth + 1)
       case Obj(es) => exists i | 0 <= i < |es| && i < 100 ::
         && !r.sensitiveKey(es[i].key)
         && (Gives(r, r.normalizedKey(es[i].key), es[i].value, e)
             || (!IsEvidenceName(r.normalizedKey(es[i].key)) && Shown(r, es[i].value, e, depth + 1)))
       case _ => false
  }

  /** The value has a text with the URL, reached in the same way and outside fields of evidence. */
  ghost predicate InText(r: Rules, v: Json, u: string, depth: nat) {
    && depth <= 8
    && match v
       case Str(s) => u in UrlsOfText(r, s)
       case Arr(items) => exists i | 0 <= i < |items| && i < 100 :: InText(r, items[i], u, depth + 1)
       case Obj(es) => exists i | 0 <= i < |es| && i < 100 ::
         && !r.sensitiveKey(es[i].key) && !IsEvidenceName(r.normalizedKey(es[i].key))
         && InText(r, es[i].value, u, depth + 1)
       case _ => false
  }

  lemma NamedIs(key: string, name: string)
    requires name != "" && name[|name| - 1] != 's'
    ensures WithoutPlural(key) == name <==> Named(key, name)
  {
    if key != "" && key[|key| - 1] == 's' { assert key == key[..|key| - 1] + "s"; }
    if key == name + "s" { assert key[..|key| - 1] == name; }
  }

  lemma NamesAreKeys(key: string)
    ensures IsStructuredUrlKey(key) <==> IsUrlName(key)
    ensures IsStructuredReferenceKey(key) <==> key in REFERENCE_NAMES
    ensures StructuredUrlPreference(key) == PreferenceOf(key)
  {
    assert URL_NAMES == URL_KEYS && REFERENCE_NAMES == REFERENCE_KEYS;
    hide URL_NAMES, URL_KEYS;
    var singular := WithoutPlural(key);
    if key != "" && key[|key| - 1] == 's' { assert Named(key, singular) by { assert key == singular + "s"; } }
    if name :| name in URL_NAMES && Named(key, name) { PluralOf(key, name); }
    assert IsStructuredUrlKey(key) ==> Named(key, key) && Named(key, singular);
    NamedIs(key, "canonicalurl");
    NamedIs(key, "evidenceurl");
    NamedIs(key, "permalink");
    NamedIs(key, "sourceurl");
    hide WithoutPlural, Named;
  }

  lemma PluralOf(key: string, name: string)
    ensures Named(key, name) ==> key == name || WithoutPlural(key) == name
  {
    if key == name + "s" { assert key[..|key| - 1] == name; }
  }

  // ---------------------------------------------------------------- the lists hold exactly what is shown

  lemma HoldsTextIs(value: Json, s: string)
    ensures Str(s) in Values(value) <==> HoldsText(value, s)
  {
    if value.Arr? {
      var vs := Values(value);
      assert forall i :: 0 <= i < |vs| ==> vs[i] == value.items[i];
    }
  }

  lemma {:induction false} UrlListed(r: Rules, vs: seq<Json>, preference: nat, e: Evidence)
    ensures e in UrlCandidates(r, vs, preference) <==>
      e.kind == Url && e.preference == preference && exists s :: Str(s) in vs && r.safeUrl(s) == Some(e.value)
  {
    if vs != [] {
      UrlListed(r, vs[1..], preference, e);
      assert forall x :: x in vs <==> x == vs[0] || x in vs[1..];
      if SafeUrl(r, vs[0]).Some? { assert e == Evidence(e.kind, e.value, e.preference) && vs[0] == Str(vs[0].s); }
    }
  }

  lemma {:induction false} ReferenceListed(r: Rules, vs: seq<Json>, e: Evidence)
    ensures e in ReferenceCandidates(r, vs) <==>
      e.kind == Reference && e.preference == 4 && exists s :: Str(s) in vs && r.safeReference(s) == Some(e.value)
  {
    if vs != [] {
      ReferenceListed(r, vs[1..], e);
      assert forall x :: x in vs <==> x == vs[0] || x in vs[1..];
      if SafeReference(r, vs[0]).Some? { assert e == Evidence(e.kind, e.value, e.preference) && vs[0] == Str(vs[0].s); }
    }
  }

  lemma {:induction false} ListedIsShown(r: Rules, v: Json, e: Evidence, depth: nat)
    ensures e in Candidates(r, v, depth) <==> Shown(r, v, e, depth)
    decreases v, MAX_WIDTH + 2
  {
    if depth <= MAX_DEPTH {
      match v
      case Arr(items) => ItemsShown(r, v, 0, e, depth);
      case Obj(es) => EntriesShown(r, v, 0, e, depth);
      case _ =>
    }
  }

  lemma {:induction false} ItemsShown(r: Rules, v: Json, i: nat, e: Evidence, depth: nat)
    requires v.Arr? && i <= Width(|v.items|) && depth <= MAX_DEPTH
    ensures e in ItemCandidates(r, v, i, depth)
      <==> exists k | i <= k < |v.items| && k < 100 :: Shown(r, v.items[k], e, depth + 1)
    decreases v, Width(|v.items|) - i
  {
    if i < Width(|v.items|) {
      ListedIsShown(r, v.items[i], e, depth + 1);
      ItemsShown(r, v, i + 1, e, depth);
      hide Shown, Candidates;
    }
  }

  /** Whether one entry shows the evidence. */
  ghost predicate EntryShows(r: Rules, f: Entry, e: Evidence, depth: nat) {
    && !r.sensitiveKey(f.key)
    && (Gives(r, r.normalizedKey(f.key), f.value, e)
        || (!IsEvidenceName(r.normalizedKey(f.key)) && Shown(r, f.value, e, depth + 1)))
  }

  lemma {:induction false} EntriesShown(r: Rules, v: Json, i: nat, e: Evidence, depth: nat)
    requires v.Obj? && i <= Width(|v.entries|) && depth <= MAX_DEPTH
    ensures e in EntryCandidates(r, v, i, depth)
      <==> exists k | i <= k < |v.entries| && k < 100 :: EntryShows(r, v.entries[k], e, depth)
    decreases v, Width(|v.entries|) - i
  {
    if i < Width(|v.entries|) {
      FieldShown(r, v.entries[i], e, depth);
      EntriesShown(r, v, i + 1, e, depth);
      hide EntryShows, FieldCandidates;
    }
  }

  lemma {:induction false} FieldShown(r: Rules, f: Entry, e: Evidence, depth: nat)
    ensures e in FieldCandidates(r, f, depth) <==> EntryShows(r, f, e, depth)
    decreases f
  {
    var name := r.normalizedKey(f.key);
    NamesAreKeys(name);
    NotBoth(name);
    UrlListed(r, Values(f.value), StructuredUrlPreference(name), e);
    ReferenceListed(r, Values(f.value), e);
    forall s
      ensures Str(s) in Values(f.value) <==> HoldsText(f.value, s)
    {
      HoldsTextIs(f.value, s);
    }
    ListedIsShown(r, f.value, e, depth + 1);
    hide IsStructuredUrlKey, IsStructuredReferenceKey, IsUrlName, Shown, Candidates, Values, HoldsText, Named;
    hide StructuredUrlPreference, PreferenceOf, UrlCandidates, ReferenceCandidates;
  }

  lemma NotBoth(name: string)
    ensures !(IsUrlName(name) && name in REFERENCE_NAMES)
  {
    NamesAreKeys(name);
  }

  lemma {:induction false} TextIsInText(r: Rules, v: Json, u: string, depth: nat)
    ensures u in TextUrls(r, v, depth) <==> InText(r, v, u, depth)
    decreases v, MAX_WIDTH + 2
  {
    if depth <= MAX_DEPTH {
      match v
      case Arr(_) => ItemsInText(r, v, 0, u, depth);
      case Obj(_) => EntriesInText(r, v, 0, u, depth);
      case _ =>
    }
  }

  lemma {:induction false} ItemsInText(r: Rules, v: Json, i: nat, u: string, depth: nat)
    requires v.Arr? && i <= Width(|v.items|) && depth <= MAX_DEPTH
    ensures u in ItemTextUrls(r, v, i, depth)
      <==> exists k | i <= k < |v.items| && k < 100 :: InText(r, v.items[k], u, depth + 1)
    decreases v, Width(|v.items|) - i
  {
    if i < Width(|v.items|) {
      TextIsInText(r, v.items[i], u, depth + 1);
      ItemsInText(r, v, i + 1, u, depth);
      hide InText, TextUrls;
    }
  }

  ghost predicate EntryInText(r: Rules, f: Entry, u: string, depth: nat) {
    !r.sensitiveKey(f.key) && !IsEvidenceName(r.normalizedKey(f.key)) && InText(r, f.value, u, depth + 1)
  }

  lemma {:induction false} EntriesInText(r: Rules, v: Json, i: nat, u: string, depth: nat)
    requires v.Obj? && i <= Width(|v.entries|) && depth <= MAX_DEPTH
    ensures u in EntryTextUrls(r, v, i, depth)
      <==> exists k | i <= k < |v.entries| && k < 100 :: EntryInText(r, v.entries[k], u, depth)
    decreases v, Width(|v.entries|) - i
  {
    if i < Width(|v.entries|) {
      NamesAreKeys(r.normalizedKey(v.entries[i].key));
      TextIsInText(r, v.entries[i].value, u, depth + 1);
      EntriesInText(r, v, i + 1, u, depth);
      hide InText, TextUrls, IsStructuredUrlKey, IsStructuredReferenceKey, IsUrlName;
    }
  }

  // ---------------------------------------------------------------- main results

  ghost predicate ShowsEvidence(r: Rules, v: Json) {
    exists e :: Shown(r, v, e, 0)
  }

  ghost predicate HasTextUrl(r: Rules, v: Json) {
    exists u :: InText(r, v, u, 0)
  }

  /**
   The gate chooses the best evidence that the read shows: a field of least preference, whatever its
   place; and a URL in text only when there is no field of evidence, and some when there is one.
   */
  lemma ChosenIsBest(r: Rules, result: string)
    requires r.parse(result).Some?
    ensures var v, chosen := r.parse(result).value, Preferred(r, result);
            && (ShowsEvidence(r, v) ==>
                  && chosen.Some? && Shown(r, v, chosen.value, 0)
                  && forall e | Shown(r, v, e, 0) :: chosen.value.preference <= e.preference)
            && (!ShowsEvidence(r, v) ==>
                  && (chosen.Some? <==> HasTextUrl(r, v))
                  && (chosen.Some? ==> chosen == Some(Evidence(Url, chosen.value.value, 5))
                                       && InText(r, v, chosen.value.value, 0)))
  {
    var v := r.parse(result).value;
    var cs, us := Candidates(r, v, 0), TextUrls(r, v, 0);
    hide *;
    SomeShown(r, v);
    SomeInText(r, v);
    LeastOf(cs);
    PreferredIs(r, result);
    if cs != [] {
      ListedIsShown(r, v, Best(None, cs).value, 0);
      forall e | Shown(r, v, e, 0)
        ensures e in cs
      {
        ListedIsShown(r, v, e, 0);
      }
    } else if us != [] {
      TextIsInText(r, v, us[0], 0);
    }
  }

  lemma PreferredIs(r: Rules, result: string)
    requires r.parse(result).Some?
    ensures var v := r.parse(result).value;
            var cs, us := Candidates(r, v, 0), TextUrls(r, v, 0);
            Preferred(r, result)
            == if cs != [] then Best(None, cs) else if us != [] then Some(Evidence(Url, us[0], 5)) else None
  {
    LeastOf(Candidates(r, r.parse(result).value, 0));
    hide Candidates, Best;
  }

  lemma SomeShown(r: Rules, v: Json)
    ensures ShowsEvidence(r, v) <==> Candidates(r, v, 0) != []
  {
    hide Shown, Candidates;
    var cs := Candidates(r, v, 0);
    if cs != [] { ListedIsShown(r, v, cs[0], 0); }
    if e :| Shown(r, v, e, 0) { ListedIsShown(r, v, e, 0); }
  }

  lemma SomeInText(r: Rules, v: Json)
    ensures HasTextUrl(r, v) <==> TextUrls(r, v, 0) != []
  {
    hide InText, TextUrls;
    var us := TextUrls(r, v, 0);
    if us != [] { TextIsInText(r, v, us[0], 0); }
    if u :| InText(r, v, u, 0) { TextIsInText(r, v, u, 0); }
  }

  lemma LeastOf(cs: seq<Evidence>)
    ensures Best(None, cs) == None <==> cs == []
    ensures cs != [] ==>
      Best(None, cs).value in cs && forall e | e in cs :: Best(None, cs).value.preference <= e.preference
  {
    BestIsFirstLeast(None, cs);
  }

  /** A safe canonical URL that the read shows is never passed over for a source URL, or for anything else. */
  lemma CanonicalIsChosen(r: Rules, result: string, u: string)
    requires r.parse(result).Some? && Shown(r, r.parse(result).value, Evidence(Url, u, 0), 0)
    ensures Preferred(r, result).Some? && Preferred(r, result).value.preference == 0
  {
    hide Shown, InText, Preferred;
    ChosenIsBest(r, result);
  }

  /** The containment check finds exactly the URLs that the read shows, in fields or in text. */
  lemma ReturnedIsShown(r: Rules, result: string, u: string)
    requires r.parse(result).Some?
    ensures var v := r.parse(result).value;
            ActionReturnsEvidenceUrl(r, result, u)
            <==> (exists preference :: Shown(r, v, Evidence(Url, u, preference), 0)) || InText(r, v, u, 0)
  {
    var v := r.parse(result).value;
    ContainsExactly(r, v, u, 0);
    TextIsInText(r, v, u, 0);
    forall preference
      ensures Evidence(Url, u, preference) in Candidates(r, v, 0) <==> Shown(r, v, Evidence(Url, u, preference), 0)
    {
      ListedIsShown(r, v, Evidence(Url, u, preference), 0);
    }
    hide Shown, InText, Candidates, TextUrls;
    if Offers(Candidates(r, v, 0), u) {
      var c :| c in Candidates(r, v, 0) && c.kind == Url && c.value == u;
      assert c == Evidence(Url, u, c.preference);
    }
  }

  /** What a result that is not parsed gives: the first URL in its text. */
  lemma UnparsedGivesText(r: Rules, result: string)
    requires r.parse(result).None?
    ensures Preferred(r, result)
      == if UrlsOfText(r, result) == [] then None else Some(Evidence(Url, UrlsOfText(r, result)[0], 5))
    ensures forall u :: ActionReturnsEvidenceUrl(r, result, u) <==> u in UrlsOfText(r, result)
  {
  }

  // ---------------------------------------------------------------- URLs in a text

  /** The text without the punctuation at its end. */
  ghost predicate Unpunctuated(s: string, t: string) {
    && t <= s && (t == "" || t[|t| - 1] !in "),.;")
    && forall i :: |t| <= i < |s| ==> s[i] in "),.;"
  }

  lemma {:induction false} TrimIsUnpunctuated(s: string)
    ensures Unpunctuated(s, TrimPunctuation(s))
  {
    if s != [] && s[|s| - 1] in {')', ',', '.', ';'} {
      TrimIsUnpunctuated(s[..|s| - 1]);
    }
  }

  /** A text gives the safe URLs of its matches, without their punctuation, but not the beginnings of templates. */
  lemma TextUrlsAre(r: Rules, s: string, u: string)
    ensures u in UrlsOfText(r, s) <==>
      exists m, t :: m in r.urlTokens(s) && m.next != Some('<') && m.next != Some('{')
                     && Unpunctuated(m.text, t) && r.safeUrl(t) == Some(u)
  {
    TokenUrlsAre(r, r.urlTokens(s), u);
    forall m: UrlToken, t | Unpunctuated(m.text, t)
      ensures t == TrimPunctuation(m.text)
    {
      TrimIsUnpunctuated(m.text);
      OneTrim(m.text, t, TrimPunctuation(m.text));
    }
    if m :| m in r.urlTokens(s) && TokenUrl(r, m) == Some(u) {
      TrimIsUnpunctuated(m.text);
      assert Unpunctuated(m.text, TrimPunctuation(m.text));
    }
  }

  lemma OneTrim(s: string, t: string, t': string)
    requires Unpunctuated(s, t) && Unpunctuated(s, t')
    ensures t == t'
  {
    AsLong(s, t, t');
    AsLong(s, t', t);
    assert t == s[..|t|] && t' == s[..|t'|];
  }

  lemma AsLong(s: string, t: string, t': string)
    requires Unpunctuated(s, t) && Unpunctuated(s, t')
    ensures |t'| <= |t|
  {
    if t' != "" {
      var last := |t'| - 1;
      assert s[last] == t'[last];
      assert last < |t|;
    }
  }

  lemma {:induction false} TokenUrlsAre(r: Rules, ts: seq<UrlToken>, u: string)
    ensures u in TokenUrls(r, ts) <==> exists m :: m in ts && TokenUrl(r, m) == Some(u)
  {
    if ts != [] {
      TokenUrlsAre(r, ts[1..], u);
      assert forall m :: m in ts <==> m == ts[0] || m in ts[1..];
    }
  }
}

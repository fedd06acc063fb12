/**
 The evidence traversals of the reply gate (packages/core/src/replyGate.ts): the accumulator that
 prefers one item of structured evidence, the search for a URL in nested text, and the separately
 written containment check. All stop at depth 8 and look at the first 100 items or entries.

 `Candidates` and `TextUrls` flatten a value into the lists that the traversals walk.
 */
module ReplyGate {
  import opened Basics

  datatype Json =
    | Null
    | Scalar  // a number or a truth value
    | Str(s: string)
    | Arr(items: seq<Json>)
    | Obj(entries: seq<Entry>)

  datatype Entry = Entry(key: string, value: Json)

  /** A match of the URL tokenizer in a text, and the character after it. */
  datatype UrlToken = UrlToken(text: string, next: Option<char>)

  /** Regular expressions, URL parsing and JSON parsing, which the model does not look into. */
  datatype Rules = Rules(
    sensitiveKey: string -> bool,
    normalizedKey: string -> string,
    safeUrl: string -> Option<string>,
    safeReference: string -> Option<string>,
    urlTokens: string -> seq<UrlToken>,
    parse: string -> Option<Json>)

  const MAX_DEPTH := 8
  const MAX_WIDTH := 100

  datatype Kind = Url | Reference

  /** Lower preferences are preferred. */
  datatype Evidence = Evidence(kind: Kind, value: string, preference: nat)

  // ---------------------------------------------------------------- keys

  const URL_KEYS := {
    "url", "uri", "link", "permalink", "canonicalurl", "evidenceurl", "artifacturl", "sourceurl", "githuburl"
  }
  const REFERENCE_KEYS := {"evidence", "evidenceref", "artifactref", "sourceref"}

  function WithoutPlural(key: string): string {
    if key != [] && key[|key| - 1] == 's' then key[..|key| - 1] else key
  }

  predicate IsStructuredUrlKey(normalized: string) {
    normalized in URL_KEYS || WithoutPlural(normalized) in URL_KEYS
  }

  predicate IsStructuredReferenceKey(normalized: string) {
    normalized in REFERENCE_KEYS
  }

  function StructuredUrlPreference(normalized: string): nat {
    var singular := WithoutPlural(normalized);
    if singular == "canonicalurl" then 0
    else if singular == "evidenceurl" || singular == "permalink" then 1
    else if singular == "sourceurl" then 2
    else 3
  }

  datatype Field = Hidden | UrlField(preference: nat) | ReferenceField | Plain

  /** What a key makes of its value. */
  function FieldOf(r: Rules, key: string): Field {
    var normalized := r.normalizedKey(key);
    if r.sensitiveKey(key) then Hidden
    else if IsStructuredUrlKey(normalized) then UrlField(StructuredUrlPreference(normalized))
    else if IsStructuredReferenceKey(normalized) then ReferenceField
    else Plain
  }

  function SafeUrl(r: Rules, v: Json): Option<string> {
    if v.Str? then r.safeUrl(v.s) else None
  }

  function SafeReference(r: Rules, v: Json): Option<string> {
    if v.Str? then r.safeReference(v.s) else None
  }

  function Width(n: nat): nat {
    if n <= MAX_WIDTH then n else MAX_WIDTH
  }

  function Values(v: Json): seq<Json> {
    if v.Arr? then v.items[..Width(|v.items|)] else [v]
  }

  // ---------------------------------------------------------------- the flattened evidence

  function UrlCandidates(r: Rules, vs: seq<Json>, preference: nat): seq<Evidence> {
    if vs == [] then []
    else
      match SafeUrl(r, vs[0])
      case Some(u) => [Evidence(Url, u, preference)] + UrlCandidates(r, vs[1..], preference)
      case None => UrlCandidates(r, vs[1..], preference)
  }

  function ReferenceCandidates(r: Rules, vs: seq<Json>): seq<Evidence> {
    if vs == [] then []
    else
      match SafeReference(r, vs[0])
      case Some(x) => [Evidence(Reference, x, 4)] + ReferenceCandidates(r, vs[1..])
      case None => ReferenceCandidates(r, vs[1..])
  }

  /** The admissible structured evidence of a value, depth first. */
  function Candidates(r: Rules, v: Json, depth: nat): seq<Evidence>
    decreases v, MAX_WIDTH + 2
  {
    if depth > MAX_DEPTH then []
    else
      match v
      case Arr(_) => ItemCandidates(r, v, 0, depth)
      case Obj(_) => EntryCandidates(r, v, 0, depth)
      case _ => []
  }

  function ItemCandidates(r: Rules, v: Json, i: nat, depth: nat): seq<Evidence>
    requires v.Arr? && i <= Width(|v.items|)
    decreases v, Width(|v.items|) - i
  {
    if i == Width(|v.items|) then []
    else Candidates(r, v.items[i], depth + 1) + ItemCandidates(r, v, i + 1, depth)
  }

  function EntryCandidates(r: Rules, v: Json, i: nat, depth: nat): seq<Evidence>
    requires v.Obj? && i <= Width(|v.entries|)
    decreases v, Width(|v.entries|) - i
  {
    if i == Width(|v.entries|) then []
    else FieldCandidates(r, v.entries[i], depth) + EntryCandidates(r, v, i + 1, depth)
  }

  function FieldCandidates(r: Rules, e: Entry, depth: nat): seq<Evidence>
    decreases e
  {
    match FieldOf(r, e.key)
    case Hidden => []
    case UrlField(preference) => UrlCandidates(r, Values(e.value), preference)
    case ReferenceField => ReferenceCandidates(r, Values(e.value))
    case Plain => Candidates(r, e.value, depth + 1)
  }

  // ---------------------------------------------------------------- the accumulator

  function Better(current: Option<Evidence>, candidate: Evidence): Option<Evidence> {
    if current.None? || candidate.preference < current.value.preference then Some(candidate) else current
  }

  function Best(current: Option<Evidence>, cs: seq<Evidence>): Option<Evidence>
    decreases |cs|
  {
    if cs == [] then current else Best(Better(current, cs[0]), cs[1..])
  }

  lemma {:induction false} BestSplit(current: Option<Evidence>, a: seq<Evidence>, b: seq<Evidence>)
    ensures Best(current, a + b) == Best(Best(current, a), b)
    decreases |a|
  {
    if a == [] {
      assert a + b == b;
    } else {
      BestSplit(Better(current, a[0]), a[1..], b);
      assert (a + b)[1..] == a[1..] + b;
    }
  }

  /** The preferred evidence is the first candidate of least preference. */
  lemma {:induction false} BestIsFirstLeast(current: Option<Evidence>, cs: seq<Evidence>)
    ensures Best(current, cs).None? <==> current.None? && cs == []
    ensures Best(current, cs).Some? ==>
              var b := Best(current, cs).value;
              && (current.Some? ==> b.preference <= current.value.preference)
              && (forall j :: 0 <= j < |cs| ==> b.preference <= cs[j].preference)
              && (Best(current, cs) == current
                  || exists i :: 0 <= i < |cs| && b == cs[i]
                               && (current.Some? ==> b.preference < current.value.preference)
                               && forall j :: 0 <= j < i ==> b.preference < cs[j].preference)
    decreases |cs|
  {
    if cs != [] {
      var next := Better(current, cs[0]);
      BestIsFirstLeast(next, cs[1..]);
      var b := Best(current, cs).value;
      if Best(current, cs) == next {
        assert b == cs[0] || Best(current, cs) == current;
      } else {
        var i :| 0 <= i < |cs[1..]| && b == cs[1..][i] && b.preference < next.value.preference
                 && forall j :: 0 <= j < i ==> b.preference < cs[1..][j].preference;
        assert b == cs[i + 1];
        forall j | 0 <= j < i + 1
          ensures b.preference < cs[j].preference
        {
          if j > 0 { assert cs[j] == cs[1..][j - 1]; }
        }
      }
      forall j | 0 <= j < |cs|
        ensures b.preference <= cs[j].preference
      {
        if j > 0 { assert cs[j] == cs[1..][j - 1]; }
      }
    }
  }

  method PreferredStructuredReadEvidence(r: Rules, value: Json, start: Option<Evidence>, depth: nat)
    returns (current: Option<Evidence>)
    ensures current == Best(start, Candidates(r, value, depth))
    decreases value
  {
    current := start;
    if value.Null? || depth > MAX_DEPTH {
      return;
    }
    if value.Arr? {
      var i := 0;
      while i < Width(|value.items|)
        invariant i <= Width(|value.items|)
        invariant Best(current, ItemCandidates(r, value, i, depth)) == Best(start, ItemCandidates(r, value, 0, depth))
      {
        BestSplit(current, Candidates(r, value.items[i], depth + 1), ItemCandidates(r, value, i + 1, depth));
        current := PreferredStructuredReadEvidence(r, value.items[i], current, depth + 1);
        i := i + 1;
      }
      return;
    }
    if !value.Obj? {
      return;
    }
    var i := 0;
    while i < Width(|value.entries|)
      invariant i <= Width(|value.entries|)
      invariant Best(current, EntryCandidates(r, value, i, depth)) == Best(start, EntryCandidates(r, value, 0, depth))
    {
      BestSplit(current, FieldCandidates(r, value.entries[i], depth), EntryCandidates(r, value, i + 1, depth));
      current := AddField(r, value.entries[i], current, depth);
      i := i + 1;
    }
  }

  method AddField(r: Rules, e: Entry, start: Option<Evidence>, depth: nat) returns (current: Option<Evidence>)
    ensures current == Best(start, FieldCandidates(r, e, depth))
    decreases e
  {
    match FieldOf(r, e.key) {
      case Hidden =>
        current := start;
      case UrlField(preference) =>
        current := AddUrls(r, Values(e.value), preference, start);
      case ReferenceField =>
        current := AddReferences(r, Values(e.value), start);
      case Plain =>
        current := PreferredStructuredReadEvidence(r, e.value, start, depth + 1);
    }
  }

  method AddUrls(r: Rules, vs: seq<Json>, preference: nat, start: Option<Evidence>) returns (current: Option<Evidence>)
    ensures current == Best(start, UrlCandidates(r, vs, preference))
  {
    current := start;
    var i := 0;
    while i < |vs|
      invariant i <= |vs|
      invariant Best(current, UrlCandidates(r, vs[i..], preference)) == Best(start, UrlCandidates(r, vs, preference))
    {
      var url := SafeUrl(r, vs[i]);
      assert vs[i..][1..] == vs[i + 1..];
      if url.Some? {
        current := Better(current, Evidence(Url, url.value, preference));
      }
      i := i + 1;
    }
  }

  method AddReferences(r: Rules, vs: seq<Json>, start: Option<Evidence>) returns (current: Option<Evidence>)
    ensures current == Best(start, ReferenceCandidates(r, vs))
  {
    current := start;
    var i := 0;
    while i < |vs|
      invariant i <= |vs|
      invariant Best(current, ReferenceCandidates(r, vs[i..])) == Best(start, ReferenceCandidates(r, vs))
    {
      var reference := SafeReference(r, vs[i]);
      assert vs[i..][1..] == vs[i + 1..];
      if reference.Some? {
        current := Better(current, Evidence(Reference, reference.value, 4));
      }
      i := i + 1;
    }
  }

  // ---------------------------------------------------------------- URLs in text

  function TrimPunctuation(s: string): string {
    if s != [] && s[|s| - 1] in {')', ',', '.', ';'} then TrimPunctuation(s[..|s| - 1]) else s
  }

  /** The safe URL of one match; the prefix of a template is not taken for a URL. */
  function TokenUrl(r: Rules, t: UrlToken): Option<string> {
    if t.next == Some('<') || t.next == Some('{') then None else r.safeUrl(TrimPunctuation(t.text))
  }

  function TokenUrls(r: Rules, ts: seq<UrlToken>): seq<string> {
    if ts == [] then []
    else
      match TokenUrl(r, ts[0])
      case Some(u) => [u] + TokenUrls(r, ts[1..])
      case None => TokenUrls(r, ts[1..])
  }

  function UrlsOfText(r: Rules, s: string): seq<string> {
    TokenUrls(r, r.urlTokens(s))
  }

  function First(us: seq<string>): Option<Evidence> {
    if us == [] then None else Some(Evidence(Url, us[0], 5))
  }

  method FirstTextEvidenceUrl(r: Rules, s: string) returns (found: Option<Evidence>)
    ensures found == First(UrlsOfText(r, s))
  {
    var ts := r.urlTokens(s);
    var i := 0;
    while i < |ts|
      invariant i <= |ts|
      invariant TokenUrls(r, ts) == TokenUrls(r, ts[i..])
    {
      assert ts[i..][1..] == ts[i + 1..];
      var url := TokenUrl(r, ts[i]);
      if url.Some? {
        return Some(Evidence(Url, url.value, 5));
      }
      i := i + 1;
    }
    return None;
  }

  method TextContainsEvidenceUrl(r: Rules, s: string, expected: string) returns (found: bool)
    ensures found <==> expected in UrlsOfText(r, s)
  {
    var ts := r.urlTokens(s);
    var i := 0;
    while i < |ts|
      invariant i <= |ts|
      invariant expected in TokenUrls(r, ts) <==> expected in TokenUrls(r, ts[i..])
    {
      assert ts[i..][1..] == ts[i + 1..];
      if TokenUrl(r, ts[i]) == Some(expected) {
        return true;
      }
      i := i + 1;
    }
    return false;
  }

  /** The URLs in the text of a value, depth first, outside structured and sensitive fields. */
  function TextUrls(r: Rules, v: Json, depth: nat): seq<string>
    decreases v, MAX_WIDTH + 2
  {
    if depth > MAX_DEPTH then []
    else
      match v
      case Str(s) => UrlsOfText(r, s)
      case Arr(_) => ItemTextUrls(r, v, 0, depth)
      case Obj(_) => EntryTextUrls(r, v, 0, depth)
      case _ => []
  }

  function ItemTextUrls(r: Rules, v: Json, i: nat, depth: nat): seq<string>
    requires v.Arr? && i <= Width(|v.items|)
    decreases v, Width(|v.items|) - i
  {
    if i == Width(|v.items|) then []
    else TextUrls(r, v.items[i], depth + 1) + ItemTextUrls(r, v, i + 1, depth)
  }

  function EntryTextUrls(r: Rules, v: Json, i: nat, depth: nat): seq<string>
    requires v.Obj? && i <= Width(|v.entries|)
    decreases v, Width(|v.entries|) - i
  {
    if i == Width(|v.entries|) then []
    else FieldTextUrls(r, v.entries[i], depth) + EntryTextUrls(r, v, i + 1, depth)
  }

  function FieldTextUrls(r: Rules, e: Entry, depth: nat): seq<string>
    decreases e
  {
    if FieldOf(r, e.key) == Plain then TextUrls(r, e.value, depth + 1) else []
  }

  method FirstNestedTextEvidenceUrl(r: Rules, value: Json, depth: nat) returns (found: Option<Evidence>)
    ensures found == First(TextUrls(r, value, depth))
    decreases value
  {
    if value.Null? || depth > MAX_DEPTH {
      return None;
    }
    if value.Str? {
      found := FirstTextEvidenceUrl(r, value.s);
      return;
    }
    if value.Arr? {
      var i := 0;
      while i < Width(|value.items|)
        invariant i <= Width(|value.items|)
        invariant ItemTextUrls(r, value, i, depth) == ItemTextUrls(r, value, 0, depth)
      {
        found := FirstNestedTextEvidenceUrl(r, value.items[i], depth + 1);
        if found.Some? {
          return;
        }
        assert [] + ItemTextUrls(r, value, i + 1, depth) == ItemTextUrls(r, value, i + 1, depth);
        i := i + 1;
      }
      return None;
    }
    if !value.Obj? {
      return None;
    }
    var i := 0;
    while i < Width(|value.entries|)
      invariant i <= Width(|value.entries|)
      invariant EntryTextUrls(r, value, i, depth) == EntryTextUrls(r, value, 0, depth)
    {
      if FieldOf(r, value.entries[i].key) == Plain {
        found := FirstNestedTextEvidenceUrl(r, value.entries[i].value, depth + 1);
        if found.Some? {
          return;
        }
      }
      assert [] + EntryTextUrls(r, value, i + 1, depth) == EntryTextUrls(r, value, i + 1, depth);
      i := i + 1;
    }
    return None;
  }

  // ---------------------------------------------------------------- one read

  /** What the gate chooses as evidence for a read. */
  function Preferred(r: Rules, result: string): Option<Evidence> {
    match r.parse(result)
    case None => First(UrlsOfText(r, result))
    case Some(v) =>
      var structured := Best(None, Candidates(r, v, 0));
      if structured.Some? then structured else First(TextUrls(r, v, 0))
  }

  method PreferredEvidenceForRead(r: Rules, result: string) returns (found: Option<Evidence>)
    ensures found == Preferred(r, result)
  {
    var parsed := r.parse(result);
    match parsed {
      case None =>
        found := FirstTextEvidenceUrl(r, result);
      case Some(v) =>
        found := PreferredStructuredReadEvidence(r, v, None, 0);
        if found.None? {
          found := FirstNestedTextEvidenceUrl(r, v, 0);
        }
    }
  }

  /** The containment check, as the gate writes it. */
  predicate ValueContainsEvidenceUrl(r: Rules, v: Json, expected: string, depth: nat)
    decreases v
  {
    && depth <= MAX_DEPTH
    && match v
       case Null => false
       case Scalar => false
       case Str(s) => expected in UrlsOfText(r, s)
       case Arr(items) =>
         exists i | 0 <= i < Width(|items|) :: ValueContainsEvidenceUrl(r, items[i], expected, depth + 1)
       case Obj(es) =>
         exists i | 0 <= i < Width(|es|) ::
           match FieldOf(r, es[i].key)
           case Hidden => false
           case UrlField(_) => exists x | x in Values(es[i].value) :: SafeUrl(r, x) == Some(expected)
           case ReferenceField => false
           case Plain => ValueContainsEvidenceUrl(r, es[i].value, expected, depth + 1)
  }

  predicate ActionReturnsEvidenceUrl(r: Rules, result: string, expected: string) {
    match r.parse(result)
    case None => expected in UrlsOfText(r, result)
    case Some(v) => ValueContainsEvidenceUrl(r, v, expected, 0)
  }

  // ---------------------------------------------------------------- the traversals agree

  predicate Offers(cs: seq<Evidence>, u: string) {
    exists c | c in cs :: c.kind == Url && c.value == u
  }

  lemma OffersSplit(a: seq<Evidence>, b: seq<Evidence>, u: string)
    ensures Offers(a + b, u) <==> Offers(a, u) || Offers(b, u)
  {
    assert forall c :: c in a + b <==> c in a || c in b;
  }

  lemma {:induction false} UrlCandidatesOffer(r: Rules, vs: seq<Json>, preference: nat, u: string)
    ensures Offers(UrlCandidates(r, vs, preference), u) <==> exists x | x in vs :: SafeUrl(r, x) == Some(u)
  {
    if vs != [] {
      UrlCandidatesOffer(r, vs[1..], preference, u);
      assert forall x :: x in vs <==> x == vs[0] || x in vs[1..];
      if SafeUrl(r, vs[0]).Some? {
        OffersSplit([Evidence(Url, SafeUrl(r, vs[0]).value, preference)], UrlCandidates(r, vs[1..], preference), u);
      }
    }
  }

  lemma {:induction false} ReferenceCandidatesOffer(r: Rules, vs: seq<Json>, u: string)
    ensures !Offers(ReferenceCandidates(r, vs), u)
  {
    if vs != [] {
      ReferenceCandidatesOffer(r, vs[1..], u);
      if SafeReference(r, vs[0]).Some? {
        OffersSplit([Evidence(Reference, SafeReference(r, vs[0]).value, 4)], ReferenceCandidates(r, vs[1..]), u);
      }
    }
  }

  /** The containment check finds exactly the structured URLs and the URLs in text. */
  lemma {:induction false} ContainsExactly(r: Rules, v: Json, u: string, depth: nat)
    ensures ValueContainsEvidenceUrl(r, v, u, depth)
      <==> Offers(Candidates(r, v, depth), u) || u in TextUrls(r, v, depth)
    decreases v, MAX_WIDTH + 2
  {
    if depth <= MAX_DEPTH {
      match v
      case Arr(items) => ItemsContain(r, v, 0, u, depth);
      case Obj(es) => EntriesContain(r, v, 0, u, depth);
      case _ =>
    }
  }

  lemma {:induction false} ItemsContain(r: Rules, v: Json, i: nat, u: string, depth: nat)
    requires v.Arr? && i <= Width(|v.items|) && depth <= MAX_DEPTH
    ensures (exists k | i <= k < Width(|v.items|) :: ValueContainsEvidenceUrl(r, v.items[k], u, depth + 1)) <==>
            Offers(ItemCandidates(r, v, i, depth), u) || u in ItemTextUrls(r, v, i, depth)
    decreases v, Width(|v.items|) - i
  {
    if i < Width(|v.items|) {
      ContainsExactly(r, v.items[i], u, depth + 1);
      ItemsContain(r, v, i + 1, u, depth);
      OffersSplit(Candidates(r, v.items[i], depth + 1), ItemCandidates(r, v, i + 1, depth), u);
      hide ValueContainsEvidenceUrl, Candidates, TextUrls, Offers;
    }
  }

  /** Whether one entry contains the URL. */
  predicate EntryContains(r: Rules, e: Entry, u: string, depth: nat) {
    match FieldOf(r, e.key)
    case Hidden => false
    case UrlField(_) => exists x | x in Values(e.value) :: SafeUrl(r, x) == Some(u)
    case ReferenceField => false
    case Plain => ValueContainsEvidenceUrl(r, e.value, u, depth + 1)
  }

  lemma {:induction false} EntriesContain(r: Rules, v: Json, i: nat, u: string, depth: nat)
    requires v.Obj? && i <= Width(|v.entries|) && depth <= MAX_DEPTH
    ensures (exists k | i <= k < Width(|v.entries|) :: EntryContains(r, v.entries[k], u, depth)) <==>
            Offers(EntryCandidates(r, v, i, depth), u) || u in EntryTextUrls(r, v, i, depth)
    decreases v, Width(|v.entries|) - i
  {
    if i < Width(|v.entries|) {
      FieldContains(r, v.entries[i], u, depth);
      EntriesContain(r, v, i + 1, u, depth);
      OffersSplit(FieldCandidates(r, v.entries[i], depth), EntryCandidates(r, v, i + 1, depth), u);
      hide EntryContains, FieldCandidates, FieldTextUrls, Offers;
    }
  }

  lemma {:induction false} FieldContains(r: Rules, e: Entry, u: string, depth: nat)
    ensures EntryContains(r, e, u, depth)
      <==> Offers(FieldCandidates(r, e, depth), u) || u in FieldTextUrls(r, e, depth)
    decreases e
  {
    match FieldOf(r, e.key)
    case Hidden =>
    case UrlField(preference) => UrlCandidatesOffer(r, Values(e.value), preference, u);
    case ReferenceField => ReferenceCandidatesOffer(r, Values(e.value), u);
    case Plain => ContainsExactly(r, e.value, u, depth + 1);
  }

  // ---------------------------------------------------------------- main results

  /** Every URL the gate chooses as evidence for a read is one that the read returned. */
  lemma ChosenUrlIsReturned(r: Rules, result: string)
    requires Preferred(r, result).Some? && Preferred(r, result).value.kind == Url
    ensures ActionReturnsEvidenceUrl(r, result, Preferred(r, result).value.value)
  {
    match r.parse(result)
    case None =>
    case Some(v) =>
      var u := Preferred(r, result).value.value;
      var cs := Candidates(r, v, 0);
      BestIsFirstLeast(None, cs);
      ContainsExactly(r, v, u, 0);
  }

  /** When a read returned a URL, the gate chooses some evidence for it. */
  lemma ReturnedUrlIsAnswered(r: Rules, result: string, u: string)
    requires ActionReturnsEvidenceUrl(r, result, u)
    ensures Preferred(r, result).Some?
  {
    match r.parse(result)
    case None =>
    case Some(v) =>
      ContainsExactly(r, v, u, 0);
      BestIsFirstLeast(None, Candidates(r, v, 0));
  }
}

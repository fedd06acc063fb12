/**
 The exact-argument text of the standing-approval protocol
 (packages/core/src/approvalTokens.ts, `canonicalExactArgs` and `exactArgsMatch`).

 Text is a sequence of UTF-16 code units. `CanonicalText` prints a value, `ParseValue` reads
 one back from the front of a longer text, and `Meaning` forgets the order of object keys.
 The main results are at the end: two texts agree exactly when the two meanings agree.
 */
module ExactArgs {
  import opened Basics

  type Unit = c: int | 0 <= c < 0x1_0000
  type Text = seq<Unit>

  const QUOTE: Unit := 34
  const BACKSLASH: Unit := 92
  const COMMA: Unit := 44
  const COLON: Unit := 58
  const LBRACKET: Unit := 91
  const RBRACKET: Unit := 93
  const LBRACE: Unit := 123
  const RBRACE: Unit := 125
  const LOWER_U: Unit := 117
  const NULL_TEXT: Text := [110, 117, 108, 108]
  const TRUE_TEXT: Text := [116, 114, 117, 101]
  const FALSE_TEXT: Text := [102, 97, 108, 115, 101]
  const UNDEFINED_TEXT: Text := [117, 110, 100, 101, 102, 105, 110, 101, 100]

  // ---------------------------------------------------------------- values

  /** The units that occur in the decimal text of a finite number: digits, sign, point, exponent. */
  predicate NumeralUnit(c: Unit) {
    48 <= c <= 57 || c == 43 || c == 45 || c == 46 || c == 101
  }

  predicate IsNumeral(t: Text) {
    && t != []
    && (48 <= t[0] <= 57 || t[0] == 45)
    && forall i :: 0 <= i < |t| ==> NumeralUnit(t[i])
  }

  /** A finite number is represented by the decimal text that is printed for it (so -0 is 0). */
  type Numeral = t: Text | IsNumeral(t) witness [48]

  datatype Number = Finite(numeral: Numeral) | NonFinite

  datatype Json =
    | Undefined
    | Null
    | Bool(b: bool)
    | Num(n: Number)
    | Str(s: Text)
    | Arr(items: seq<Json>)
    | Obj(entries: seq<Entry>)  // in insertion order

  datatype Entry = Entry(key: Text, value: Json)

  predicate DistinctKeys(es: seq<Entry>) {
    forall i, j :: 0 <= i < j < |es| ==> es[i].key != es[j].key
  }

  /** Every object in the value has distinct keys, as every object of the language has. */
  predicate WellFormed(v: Json) {
    match v
    case Arr(items) => forall x | x in items :: WellFormed(x)
    case Obj(es) => DistinctKeys(es) && forall e | e in es :: WellFormed(e.value)
    case _ => true
  }

  /** A value with unordered object keys; a number with no decimal text is null, as it is in JSON. */
  datatype Value =
    | VUndefined
    | VNull
    | VBool(b: bool)
    | VNum(numeral: Numeral)
    | VStr(s: Text)
    | VArr(items: seq<Value>)
    | VObj(fields: map<Text, Value>)

  function Meaning(v: Json): Value
    decreases v
  {
    match v
    case Undefined => VUndefined
    case Null => VNull
    case Bool(b) => VBool(b)
    case Num(Finite(n)) => VNum(n)
    case Num(NonFinite) => VNull
    case Str(s) => VStr(s)
    case Arr(items) => VArr(Meanings(v, 0))
    case Obj(es) => VObj(Fields(v, es))
  }

  /** The meanings of the items from index `i` on. */
  function Meanings(v: Json, i: nat): (r: seq<Value>)
    requires v.Arr? && i <= |v.items|
    ensures |r| == |v.items| - i
    decreases v, |v.items| - i
  {
    if i == |v.items| then [] else [Meaning(v.items[i])] + Meanings(v, i + 1)
  }

  function Fields(v: Json, es: seq<Entry>): map<Text, Value>
    requires v.Obj? && forall e | e in es :: e in v.entries
    decreases v, |es|
  {
    if es == [] then map[]
    else
      assert es[0] in es;
      Fields(v, es[1..])[es[0].key := Meaning(es[0].value)]
  }

  // ---------------------------------------------------------------- printer

  predicate HighSurrogate(c: Unit) { 0xD800 <= c <= 0xDBFF }
  predicate LowSurrogate(c: Unit) { 0xDC00 <= c <= 0xDFFF }

  function HexDigit(d: int): Unit
    requires 0 <= d < 16
  {
    if d < 10 then 48 + d else 87 + d
  }

  function Hex4(c: Unit): (r: Text)
    ensures |r| == 4
  {
    [HexDigit(c / 16 / 16 / 16), HexDigit(c / 16 / 16 % 16), HexDigit(c / 16 % 16), HexDigit(c % 16)]
  }

  /** One unit inside a string literal: short escapes, `\u00xx` controls and lone surrogates. */
  function EscapeUnit(c: Unit): Text {
    if c == QUOTE || c == BACKSLASH then [BACKSLASH, c]
    else if c == 8 then [BACKSLASH, 98]
    else if c == 9 then [BACKSLASH, 116]
    else if c == 10 then [BACKSLASH, 110]
    else if c == 12 then [BACKSLASH, 102]
    else if c == 13 then [BACKSLASH, 114]
    else if c < 32 || HighSurrogate(c) || LowSurrogate(c) then [BACKSLASH, LOWER_U] + Hex4(c)
    else [c]
  }

  function Escaped(s: Text): Text {
    if s == [] then []
    else if |s| > 1 && HighSurrogate(s[0]) && LowSurrogate(s[1]) then [s[0], s[1]] + Escaped(s[2..])
    else EscapeUnit(s[0]) + Escaped(s[1..])
  }

  function Quoted(s: Text): Text {
    [QUOTE] + Escaped(s) + [QUOTE]
  }

  /** The comparison of two keys: the first may stand before the second. */
  type KeyOrder = (Text, Text) -> bool

  function Insert(leq: KeyOrder, e: Entry, es: seq<Entry>): (r: seq<Entry>)
    ensures multiset(r) == multiset([e] + es)
  {
    if es == [] then [e]
    else if leq(e.key, es[0].key) then [e] + es
    else
      assert es == [es[0]] + es[1..];
      [es[0]] + Insert(leq, e, es[1..])
  }

  /** The stable sort of the entries by key. */
  function Sorted(leq: KeyOrder, es: seq<Entry>): (r: seq<Entry>)
    ensures multiset(r) == multiset(es)
  {
    if es == [] then []
    else
      assert es == [es[0]] + es[1..];
      Insert(leq, es[0], Sorted(leq, es[1..]))
  }

  function SortedEntries(leq: KeyOrder, v: Json): (r: seq<Entry>)
    requires v.Obj?
    ensures forall e :: e in r <==> e in v.entries
    ensures |r| == |v.entries|
  {
    assert forall e :: e in v.entries <==> e in multiset(v.entries);
    assert forall e :: e in Sorted(leq, v.entries) <==> e in multiset(Sorted(leq, v.entries));
    assert |Sorted(leq, v.entries)| == |multiset(Sorted(leq, v.entries))|;
    Sorted(leq, v.entries)
  }

  function CanonicalText(leq: KeyOrder, v: Json): Text
    decreases v
  {
    match v
    case Undefined => UNDEFINED_TEXT
    case Null => NULL_TEXT
    case Bool(b) => if b then TRUE_TEXT else FALSE_TEXT
    case Num(Finite(n)) => n
    case Num(NonFinite) => NULL_TEXT
    case Str(s) => Quoted(s)
    case Arr(items) => [LBRACKET] + ItemsText(leq, v, 0) + [RBRACKET]
    case Obj(es) => [LBRACE] + MembersText(leq, v, SortedEntries(leq, v)) + [RBRACE]
  }

  /** The items from index `i` on, joined with commas. */
  function ItemsText(leq: KeyOrder, v: Json, i: nat): Text
    requires v.Arr? && i <= |v.items|
    decreases v, |v.items| - i
  {
    if i == |v.items| then []
    else if i + 1 == |v.items| then CanonicalText(leq, v.items[i])
    else CanonicalText(leq, v.items[i]) + [COMMA] + ItemsText(leq, v, i + 1)
  }

  function MemberText(leq: KeyOrder, v: Json, e: Entry): Text
    requires v.Obj? && e in v.entries
    decreases v, 0
  {
    Quoted(e.key) + [COLON] + CanonicalText(leq, e.value)
  }

  function MembersText(leq: KeyOrder, v: Json, es: seq<Entry>): Text
    requires v.Obj? && forall e | e in es :: e in v.entries
    decreases v, |es| + 1
  {
    if es == [] then []
    else if |es| == 1 then MemberText(leq, v, es[0])
    else MemberText(leq, v, es[0]) + [COMMA] + MembersText(leq, v, es[1..])
  }

  predicate ExactArgsMatch(leq: KeyOrder, expected: Json, actual: Json) {
    CanonicalText(leq, expected) == CanonicalText(leq, actual)
  }

  // ---------------------------------------------------------------- parser

  datatype Parsed<T> = Parsed(value: T, rest: Text)

  function HexValue(c: Unit): Option<int> {
    if 48 <= c <= 57 then Some(c - 48)
    else if 97 <= c <= 102 then Some(c - 87)
    else None
  }

  function ParseHex4(t: Text): Option<Unit>
    requires |t| >= 4
  {
    match (HexValue(t[0]), HexValue(t[1]), HexValue(t[2]), HexValue(t[3]))
    case (Some(a), Some(b), Some(c), Some(d)) =>
      var u := 16 * (16 * (16 * a + b) + c) + d;
      if 0 <= u < 0x1_0000 then Some(u) else None
    case _ => None
  }

  function ShortEscape(c: Unit): Option<Unit> {
    if c == QUOTE || c == BACKSLASH then Some(c)
    else if c == 98 then Some(8)
    else if c == 116 then Some(9)
    else if c == 110 then Some(10)
    else if c == 102 then Some(12)
    else if c == 114 then Some(13)
    else None
  }

  /** Reads string contents up to and including the closing quote. */
  function ParseString(t: Text): (r: Option<Parsed<Text>>)
    ensures r.Some? ==> |r.value.rest| < |t|
  {
    if t == [] then None
    else if t[0] == QUOTE then Some(Parsed([], t[1..]))
    else if t[0] != BACKSLASH then Prepend(t[0], ParseString(t[1..]))
    else if |t| >= 6 && t[1] == LOWER_U then
      match ParseHex4(t[2..])
      case Some(c) => Prepend(c, ParseString(t[6..]))
      case None => None
    else if |t| >= 2 then
      match ShortEscape(t[1])
      case Some(c) => Prepend(c, ParseString(t[2..]))
      case None => None
    else None
  }

  function Prepend(c: Unit, r: Option<Parsed<Text>>): Option<Parsed<Text>> {
    match r
    case Some(p) => Some(Parsed([c] + p.value, p.rest))
    case None => None
  }

  /** The length of the longest prefix made of numeral units. */
  function NumeralLength(t: Text): (n: nat)
    ensures n <= |t|
    ensures forall i :: 0 <= i < n ==> NumeralUnit(t[i])
    ensures n < |t| ==> !NumeralUnit(t[n])
  {
    if t == [] || !NumeralUnit(t[0]) then 0 else 1 + NumeralLength(t[1..])
  }

  function ParseScalar(t: Text): (r: Option<Parsed<Value>>)
    ensures r.Some? ==> |r.value.rest| < |t|
  {
    if UNDEFINED_TEXT <= t then Some(Parsed(VUndefined, t[|UNDEFINED_TEXT|..]))
    else if NULL_TEXT <= t then Some(Parsed(VNull, t[|NULL_TEXT|..]))
    else if TRUE_TEXT <= t then Some(Parsed(VBool(true), t[|TRUE_TEXT|..]))
    else if FALSE_TEXT <= t then Some(Parsed(VBool(false), t[|FALSE_TEXT|..]))
    else
      var n := NumeralLength(t);
      if IsNumeral(t[..n]) then Some(Parsed(VNum(t[..n]), t[n..])) else None
  }

  function ParseValue(t: Text): (r: Option<Parsed<Value>>)
    ensures r.Some? ==> |r.value.rest| < |t|
    decreases |t|, 0
  {
    if t == [] then None
    else if t[0] == QUOTE then
      match ParseString(t[1..])
      case Some(p) => Some(Parsed(VStr(p.value), p.rest))
      case None => None
    else if t[0] == LBRACKET then
      if |t| > 1 && t[1] == RBRACKET then Some(Parsed(VArr([]), t[2..]))
      else
        match ParseItems(t[1..])
        case Some(p) => Some(Parsed(VArr(p.value), p.rest))
        case None => None
    else if t[0] == LBRACE then
      if |t| > 1 && t[1] == RBRACE then Some(Parsed(VObj(map[]), t[2..]))
      else
        match ParseMembers(t[1..])
        case Some(p) => Some(Parsed(VObj(p.value), p.rest))
        case None => None
    else ParseScalar(t)
  }

  function ParseItems(t: Text): (r: Option<Parsed<seq<Value>>>)
    ensures r.Some? ==> |r.value.rest| < |t|
    decreases |t|, 1
  {
    match ParseValue(t)
    case None => None
    case Some(p) =>
      if p.rest == [] then None
      else if p.rest[0] == RBRACKET then Some(Parsed([p.value], p.rest[1..]))
      else if p.rest[0] != COMMA then None
      else
        match ParseItems(p.rest[1..])
        case None => None
        case Some(q) => Some(Parsed([p.value] + q.value, q.rest))
  }

  function ParseMember(t: Text): (r: Option<Parsed<(Text, Value)>>)
    ensures r.Some? ==> |r.value.rest| < |t|
    decreases |t|, 1
  {
    if t == [] || t[0] != QUOTE then None
    else
      match ParseString(t[1..])
      case None => None
      case Some(k) =>
        if k.rest == [] || k.rest[0] != COLON then None
        else
          match ParseValue(k.rest[1..])
          case None => None
          case Some(p) => Some(Parsed((k.value, p.value), p.rest))
  }

  function ParseMembers(t: Text): (r: Option<Parsed<map<Text, Value>>>)
    ensures r.Some? ==> |r.value.rest| < |t|
    decreases |t|, 2
  {
    match ParseMember(t)
    case None => None
    case Some(p) =>
      if p.rest == [] then None
      else if p.rest[0] == RBRACE then Some(Parsed(map[p.value.0 := p.value.1], p.rest[1..]))
      else if p.rest[0] != COMMA then None
      else
        match ParseMembers(p.rest[1..])
        case None => None
        case Some(q) => Some(Parsed(q.value[p.value.0 := p.value.1], q.rest))
  }

  // ---------------------------------------------------------------- the parser undoes the printer

  /** The units a printed value never continues with: what follows a value in printed text. */
  predicate Delimited(suffix: Text) {
    suffix == [] || !NumeralUnit(suffix[0])
  }

  lemma DigitRoundTrip(d: int)
    requires 0 <= d < 16
    ensures HexValue(HexDigit(d)) == Some(d)
  {
  }

  lemma HexRoundTrip(c: Unit)
    ensures ParseHex4(Hex4(c)) == Some(c)
  {
    var q1 := c / 16;
    var q2 := q1 / 16;
    DigitRoundTrip(q2 / 16);
    DigitRoundTrip(q2 % 16);
    DigitRoundTrip(q1 % 16);
    DigitRoundTrip(c % 16);
  }

  lemma EndOfString(t: Text)
    ensures ParseString([QUOTE] + t) == Some(Parsed([], t))
  {
    assert ([QUOTE] + t)[1..] == t;
  }

  lemma RawUnit(c: Unit, t: Text)
    requires c != QUOTE && c != BACKSLASH
    ensures ParseString([c] + t) == Prepend(c, ParseString(t))
  {
    assert ([c] + t)[1..] == t;
  }

  lemma ShortUnit(c: Unit, letter: Unit, t: Text)
    requires ShortEscape(letter) == Some(c)
    ensures ParseString([BACKSLASH, letter] + t) == Prepend(c, ParseString(t))
  {
    assert ([BACKSLASH, letter] + t)[2..] == t;
  }

  lemma HexUnit(c: Unit, t: Text)
    ensures ParseString([BACKSLASH, LOWER_U] + Hex4(c) + t) == Prepend(c, ParseString(t))
  {
    hide Hex4;
    var u := [BACKSLASH, LOWER_U] + Hex4(c) + t;
    assert u[2..][..4] == Hex4(c);
    assert u[6..] == t;
    HexRoundTrip(c);
    FourUnits(u[2..], Hex4(c));
  }

  /** Only the first four units matter to the hexadecimal reader. */
  lemma FourUnits(t: Text, h: Text)
    requires |t| >= 4 && t[..4] == h
    ensures ParseHex4(t) == ParseHex4(h)
  {
    assert t[0] == h[0] && t[1] == h[1] && t[2] == h[2] && t[3] == h[3];
  }

  lemma UnitRoundTrip(c: Unit, t: Text)
    ensures ParseString(EscapeUnit(c) + t) == Prepend(c, ParseString(t))
  {
    hide ParseString, Hex4;
    if c == QUOTE || c == BACKSLASH {
      ShortUnit(c, c, t);
    } else if c == 8 {
      ShortUnit(c, 98, t);
    } else if c == 9 {
      ShortUnit(c, 116, t);
    } else if c == 10 {
      ShortUnit(c, 110, t);
    } else if c == 12 {
      ShortUnit(c, 102, t);
    } else if c == 13 {
      ShortUnit(c, 114, t);
    } else if c < 32 || HighSurrogate(c) || LowSurrogate(c) {
      HexUnit(c, t);
    } else {
      RawUnit(c, t);
    }
  }

  lemma {:induction false} StringRoundTrip(s: Text, suffix: Text)
    ensures ParseString(Escaped(s) + ([QUOTE] + suffix)) == Some(Parsed(s, suffix))
  {
    hide ParseString, EscapeUnit;
    var tail := [QUOTE] + suffix;
    if s == [] {
      EndOfString(suffix);
      assert Escaped(s) + tail == tail;
    } else if |s| > 1 && HighSurrogate(s[0]) && LowSurrogate(s[1]) {
      StringRoundTrip(s[2..], suffix);
      var rest := Escaped(s[2..]) + tail;
      assert Escaped(s) + tail == [s[0]] + ([s[1]] + rest);
      RawUnit(s[0], [s[1]] + rest);
      RawUnit(s[1], rest);
      assert [s[0]] + ([s[1]] + s[2..]) == s;
    } else {
      StringRoundTrip(s[1..], suffix);
      var rest := Escaped(s[1..]) + tail;
      assert Escaped(s) + tail == EscapeUnit(s[0]) + rest;
      UnitRoundTrip(s[0], rest);
      assert [s[0]] + s[1..] == s;
    }
  }

  lemma NumeralRoundTrip(n: Numeral, suffix: Text)
    requires Delimited(suffix)
    ensures ParseValue(n + suffix) == Some(Parsed(VNum(n), suffix))
  {
    var t := n + suffix;
    assert forall i :: 0 <= i < |n| ==> t[i] == n[i];
    assert suffix != [] ==> t[|n|] == suffix[0];
    assert NumeralLength(t) == |n|;
    assert t[..|n|] == n && t[|n|..] == suffix;
  }

  lemma LiteralRoundTrip(suffix: Text)
    ensures ParseValue(UNDEFINED_TEXT + suffix) == Some(Parsed(VUndefined, suffix))
    ensures ParseValue(NULL_TEXT + suffix) == Some(Parsed(VNull, suffix))
    ensures ParseValue(TRUE_TEXT + suffix) == Some(Parsed(VBool(true), suffix))
    ensures ParseValue(FALSE_TEXT + suffix) == Some(Parsed(VBool(false), suffix))
  {
    assert (UNDEFINED_TEXT + suffix)[9..] == suffix;
    var t0 := NULL_TEXT + suffix;
    assert t0[0] == 110 && t0[4..] == suffix;
    var t1 := TRUE_TEXT + suffix;
    assert t1[0] == 116 && t1[4..] == suffix;
    var t2 := FALSE_TEXT + suffix;
    assert t2[0] == 102 && t2[5..] == suffix;
  }

  /** A printed value never starts with a closing bracket, so a non-empty array is not mistaken for `[]`. */
  lemma TextStart(leq: KeyOrder, v: Json)
    ensures CanonicalText(leq, v) != [] && CanonicalText(leq, v)[0] != RBRACKET
  {
  }

  /** Reading printed text back gives the value up to key order, and stops where the value ends. */
  lemma {:induction false} RoundTrip(leq: KeyOrder, v: Json, suffix: Text)
    requires WellFormed(v) && Delimited(suffix)
    ensures ParseValue(CanonicalText(leq, v) + suffix) == Some(Parsed(Meaning(v), suffix))
    decreases v
  {
    match v
    case Undefined => LiteralRoundTrip(suffix);
    case Null => LiteralRoundTrip(suffix);
    case Bool(_) => LiteralRoundTrip(suffix);
    case Num(Finite(n)) => NumeralRoundTrip(n, suffix);
    case Num(NonFinite) => LiteralRoundTrip(suffix);
    case Str(s) =>
      StringRoundTrip(s, suffix);
      Bracketed(QUOTE, Escaped(s), QUOTE, suffix);
    case Arr(_) => ArrayRoundTrip(leq, v, suffix);
    case Obj(_) => ObjectRoundTrip(leq, v, suffix);
  }

  lemma NoMembers(leq: KeyOrder, v: Json)
    requires v.Obj?
    ensures MembersText(leq, v, []) == [] && Fields(v, []) == map[]
  {
  }

  lemma ArrayRoundTrip(leq: KeyOrder, v: Json, suffix: Text)
    requires v.Arr? && WellFormed(v)
    ensures ParseValue(CanonicalText(leq, v) + suffix) == Some(Parsed(Meaning(v), suffix))
    decreases v, |v.items| + 1
  {
    var body := ItemsText(leq, v, 0);
    Bracketed(LBRACKET, body, RBRACKET, suffix);
    if v.items == [] {
      assert body == [];
    } else {
      ItemsRoundTrip(leq, v, 0, suffix);
      TextStart(leq, v.items[0]);
      assert body[0] == CanonicalText(leq, v.items[0])[0];
    }
  }

  lemma ObjectRoundTrip(leq: KeyOrder, v: Json, suffix: Text)
    requires v.Obj? && WellFormed(v)
    ensures ParseValue(CanonicalText(leq, v) + suffix) == Some(Parsed(Meaning(v), suffix))
    decreases v, |v.entries| + 1
  {
    var sorted := SortedEntries(leq, v);
    hide ParseValue, MembersText, Fields, Sorted;
    var body := MembersText(leq, v, sorted);
    Bracketed(LBRACE, body, RBRACE, suffix);
    SortedFields(leq, v);
    if v.entries == [] {
      assert sorted == [];
      NoMembers(leq, v);
      ParseEmptyObject(CanonicalText(leq, v) + suffix);
    } else {
      MembersRoundTrip(leq, v, sorted, suffix);
      ParseObject(CanonicalText(leq, v) + suffix);
    }
  }

  lemma ParseEmptyObject(t: Text)
    requires |t| > 1 && t[0] == LBRACE && t[1] == RBRACE
    ensures ParseValue(t) == Some(Parsed(VObj(map[]), t[2..]))
  {
  }

  lemma ParseObject(t: Text)
    requires |t| > 1 && t[0] == LBRACE && t[1] != RBRACE && ParseMembers(t[1..]).Some?
    ensures ParseValue(t) == Some(Parsed(VObj(ParseMembers(t[1..]).value.value), ParseMembers(t[1..]).value.rest))
  {
  }

  /** How a bracketed body looks to a parser that peeks at its first two units. */
  lemma Bracketed(open: Unit, body: Text, close: Unit, suffix: Text)
    ensures var t := [open] + body + [close] + suffix;
            && t[0] == open && |t| > 1
            && t[1..] == body + ([close] + suffix)
            && (body == [] ==> t[1] == close && t[2..] == suffix)
            && (body != [] ==> t[1] == body[0])
  {
  }

  lemma {:induction false} ItemsRoundTrip(leq: KeyOrder, v: Json, i: nat, suffix: Text)
    requires v.Arr? && WellFormed(v) && i < |v.items|
    ensures ParseItems(ItemsText(leq, v, i) + ([RBRACKET] + suffix)) == Some(Parsed(Meanings(v, i), suffix))
    decreases v, |v.items| - i
  {
    hide ParseValue, CanonicalText;
    var first := CanonicalText(leq, v.items[i]);
    var end := [RBRACKET] + suffix;
    if i + 1 == |v.items| {
      RoundTrip(leq, v.items[i], end);
      assert end[1..] == suffix;
      assert Meanings(v, i + 1) == [];
      assert Meanings(v, i) == [Meaning(v.items[i])];
    } else {
      var tail := ItemsText(leq, v, i + 1) + end;
      RoundTrip(leq, v.items[i], [COMMA] + tail);
      ItemsRoundTrip(leq, v, i + 1, suffix);
      Joined(first, ItemsText(leq, v, i + 1), end);
    }
  }

  /** The parts of a comma-joined list, regrouped around the comma. */
  lemma Joined(first: Text, others: Text, end: Text)
    ensures (first + [COMMA] + others) + end == first + ([COMMA] + (others + end))
    ensures ([COMMA] + (others + end))[1..] == others + end
  {
  }

  lemma MemberRoundTrip(leq: KeyOrder, v: Json, e: Entry, suffix: Text)
    requires v.Obj? && WellFormed(v) && e in v.entries && Delimited(suffix)
    ensures ParseMember(MemberText(leq, v, e) + suffix) == Some(Parsed((e.key, Meaning(e.value)), suffix))
    decreases v, 0
  {
    RoundTrip(leq, e.value, suffix);
    hide *;
    MemberParts(leq, v, e, suffix, Meaning(e.value));
  }

  lemma MemberParts(leq: KeyOrder, v: Json, e: Entry, suffix: Text, value: Value)
    requires v.Obj? && e in v.entries
    requires ParseValue(CanonicalText(leq, e.value) + suffix) == Some(Parsed(value, suffix))
    ensures ParseMember(MemberText(leq, v, e) + suffix) == Some(Parsed((e.key, value), suffix))
  {
    hide CanonicalText, ParseValue, ParseString, ParseMember, Escaped;
    var key, text := Quoted(e.key), CanonicalText(leq, e.value);
    var body := [COLON] + (text + suffix);
    QuotedTail(e.key, body);
    StringRoundTrip(e.key, body);
    hide Quoted;
    assert key + [COLON] + text + suffix == key + body;
    assert body[1..] == text + suffix;
    ParseParts(key + body, e.key, body, value, suffix);
  }

  /** A key, a colon and a value are read as a member. */
  lemma ParseParts(t: Text, key: Text, body: Text, value: Value, suffix: Text)
    requires t != [] && t[0] == QUOTE && ParseString(t[1..]) == Some(Parsed(key, body))
    requires body != [] && body[0] == COLON && ParseValue(body[1..]) == Some(Parsed(value, suffix))
    ensures ParseMember(t) == Some(Parsed((key, value), suffix))
  {
    hide ParseString, ParseValue;
  }

  lemma QuotedTail(s: Text, body: Text)
    ensures (Quoted(s) + body)[0] == QUOTE
    ensures (Quoted(s) + body)[1..] == Escaped(s) + ([QUOTE] + body)
  {
  }

  lemma {:induction false} MembersRoundTrip(leq: KeyOrder, v: Json, es: seq<Entry>, suffix: Text)
    requires v.Obj? && WellFormed(v) && es != [] && forall e | e in es :: e in v.entries
    ensures MembersText(leq, v, es) != [] && MembersText(leq, v, es)[0] == QUOTE
    ensures ParseMembers(MembersText(leq, v, es) + ([RBRACE] + suffix)) == Some(Parsed(Fields(v, es), suffix))
    decreases v, |es|
  {
    assert es[0] in es;
    var first := MemberText(leq, v, es[0]);
    var end := [RBRACE] + suffix;
    if |es| == 1 {
      MemberRoundTrip(leq, v, es[0], end);
      assert end[1..] == suffix;
      assert es[1..] == [] && Fields(v, es) == map[es[0].key := Meaning(es[0].value)];
    } else {
      var others := MembersText(leq, v, es[1..]);
      var tail := others + end;
      MemberRoundTrip(leq, v, es[0], [COMMA] + tail);
      MembersRoundTrip(leq, v, es[1..], suffix);
      Joined(first, others, end);
    }
  }

  function Keys(es: seq<Entry>): (r: seq<Text>)
    ensures |r| == |es| && forall i :: 0 <= i < |es| ==> r[i] == es[i].key
  {
    seq(|es|, i requires 0 <= i < |es| => es[i].key)
  }

  /** The fields of a list of entries with distinct keys, entry by entry. */
  lemma {:induction false} FieldsLookup(v: Json, es: seq<Entry>)
    requires v.Obj? && DistinctKeys(es) && forall e | e in es :: e in v.entries
    ensures forall i | 0 <= i < |es| :: es[i].key in Fields(v, es) && Fields(v, es)[es[i].key] == Meaning(es[i].value)
    decreases |es|
  {
    if es != [] {
      FieldsLookup(v, es[1..]);
      forall i | 0 <= i < |es|
        ensures es[i].key in Fields(v, es) && Fields(v, es)[es[i].key] == Meaning(es[i].value)
      {
        if i > 0 { assert es[1..][i - 1] == es[i]; }
      }
    }
  }

  lemma {:induction false} FieldsKeys(v: Json, es: seq<Entry>)
    requires v.Obj? && forall e | e in es :: e in v.entries
    ensures forall k :: k in Fields(v, es) <==> k in Keys(es)
    decreases |es|
  {
    if es != [] {
      FieldsKeys(v, es[1..]);
      assert Keys(es) == [es[0].key] + Keys(es[1..]);
    }
  }

  lemma {:induction false} FieldsCount(v: Json, es: seq<Entry>)
    requires v.Obj? && DistinctKeys(es) && forall e | e in es :: e in v.entries
    ensures |Fields(v, es)| == |es|
    decreases |es|
  {
    if es != [] {
      FieldsCount(v, es[1..]);
      FieldsKeys(v, es[1..]);
      assert es[0].key !in Keys(es[1..]);
    }
  }

  /** Keys stay distinct when the entries are permuted. */
  lemma SortedDistinct(leq: KeyOrder, v: Json)
    requires v.Obj? && DistinctKeys(v.entries)
    ensures DistinctKeys(SortedEntries(leq, v))
  {
    var es, r := v.entries, SortedEntries(leq, v);
    forall i, j | 0 <= i < j < |r|
      ensures r[i].key != r[j].key
    {
      if r[i].key == r[j].key {
        assert r[i] in es && r[j] in es;
        assert r[i] == r[j];
        Occurrences(r, i, j);
        Once(es, r[i]);
        assert false;
      }
    }
  }

  lemma Occurrences(r: seq<Entry>, i: nat, j: nat)
    requires i < j < |r| && r[i] == r[j]
    ensures multiset(r)[r[i]] >= 2
  {
    assert r == r[..i] + [r[i]] + r[i + 1..j] + [r[j]] + r[j + 1..];
  }

  lemma {:induction false} Once(es: seq<Entry>, e: Entry)
    requires DistinctKeys(es)
    ensures multiset(es)[e] <= 1
  {
    if es != [] {
      Once(es[1..], e);
      assert es == [es[0]] + es[1..];
      if e == es[0] {
        assert forall x | x in es[1..] :: x.key != e.key;
        assert e !in multiset(es[1..]);
      }
    }
  }

  lemma FieldsOfSublist(v: Json, xs: seq<Entry>, ys: seq<Entry>)
    requires v.Obj? && DistinctKeys(xs) && DistinctKeys(ys)
    requires (forall e | e in xs :: e in ys) && (forall e | e in ys :: e in v.entries)
    ensures forall k | k in Fields(v, xs) :: k in Fields(v, ys) && Fields(v, xs)[k] == Fields(v, ys)[k]
  {
    FieldsLookup(v, xs);
    FieldsLookup(v, ys);
    FieldsKeys(v, xs);
    forall k | k in Fields(v, xs)
      ensures k in Fields(v, ys) && Fields(v, xs)[k] == Fields(v, ys)[k]
    {
      assert k in Keys(xs);
      var i :| 0 <= i < |xs| && Keys(xs)[i] == k;
      assert xs[i] in ys;
      var j :| 0 <= j < |ys| && ys[j] == xs[i];
    }
  }

  /** Sorting does not change what an object means. */
  lemma SortedFields(leq: KeyOrder, v: Json)
    requires v.Obj? && DistinctKeys(v.entries)
    ensures Fields(v, SortedEntries(leq, v)) == Fields(v, v.entries)
  {
    SortedDistinct(leq, v);
    FieldsOfSublist(v, SortedEntries(leq, v), v.entries);
    FieldsOfSublist(v, v.entries, SortedEntries(leq, v));
  }

  // ---------------------------------------------------------------- main results

  /** Equal texts come from equal values, whatever comparison the keys were sorted by. */
  lemma TextDeterminesMeaning(leq: KeyOrder, leq': KeyOrder, a: Json, b: Json)
    requires WellFormed(a) && WellFormed(b)
    requires CanonicalText(leq, a) == CanonicalText(leq', b)
    ensures Meaning(a) == Meaning(b)
  {
    RoundTrip(leq, a, []);
    RoundTrip(leq', b, []);
    assert CanonicalText(leq, a) + [] == CanonicalText(leq', b) + [];
  }

  ghost predicate TotalPreorder(leq: KeyOrder) {
    && (forall a, b :: leq(a, b) || leq(b, a))
    && (forall a, b, c :: leq(a, b) && leq(b, c) ==> leq(a, c))
  }

  /** No two different keys compare as equal. */
  ghost predicate Antisymmetric(leq: KeyOrder) {
    forall a, b :: leq(a, b) && leq(b, a) ==> a == b
  }

  /** No object in the value has two different keys that compare as equal. */
  predicate Untied(leq: KeyOrder, v: Json) {
    match v
    case Arr(items) => forall x | x in items :: Untied(leq, x)
    case Obj(es) =>
      && (forall e, f | e in es && f in es && leq(e.key, f.key) && leq(f.key, e.key) :: e.key == f.key)
      && forall e | e in es :: Untied(leq, e.value)
    case _ => true
  }

  lemma {:induction false} AntisymmetricIsUntied(leq: KeyOrder, v: Json)
    requires Antisymmetric(leq)
    ensures Untied(leq, v)
  {
    match v
    case Arr(items) =>
      forall x | x in items ensures Untied(leq, x) { AntisymmetricIsUntied(leq, x); }
    case Obj(es) =>
      forall e | e in es ensures Untied(leq, e.value) { AntisymmetricIsUntied(leq, e.value); }
    case _ =>
  }

  ghost predicate InOrder(leq: KeyOrder, es: seq<Entry>) {
    forall i, j :: 0 <= i < j < |es| ==> leq(es[i].key, es[j].key)
  }

  lemma {:induction false} InsertInOrder(leq: KeyOrder, e: Entry, es: seq<Entry>)
    requires TotalPreorder(leq) && InOrder(leq, es)
    ensures InOrder(leq, Insert(leq, e, es))
  {
    if es != [] && !leq(e.key, es[0].key) {
      InsertInOrder(leq, e, es[1..]);
      var tail := Insert(leq, e, es[1..]);
      forall j | 0 <= j < |tail|
        ensures leq(es[0].key, tail[j].key)
      {
        assert tail[j] in multiset(tail);
        assert tail[j] in multiset([e] + es[1..]);
        assert tail[j] in [e] + es[1..];
      }
    }
  }

  lemma {:induction false} SortedInOrder(leq: KeyOrder, es: seq<Entry>)
    requires TotalPreorder(leq)
    ensures InOrder(leq, Sorted(leq, es))
  {
    if es != [] {
      SortedInOrder(leq, es[1..]);
      InsertInOrder(leq, es[0], Sorted(leq, es[1..]));
    }
  }

  /** Two ordered lists without repetition over the same keys are the same list. */
  lemma {:induction false} OneOrder(leq: KeyOrder, xs: seq<Text>, ys: seq<Text>)
    requires forall k, l | k in xs && l in xs && leq(k, l) && leq(l, k) :: k == l
    requires forall i, j :: 0 <= i < j < |xs| ==> leq(xs[i], xs[j]) && xs[i] != xs[j]
    requires forall i, j :: 0 <= i < j < |ys| ==> leq(ys[i], ys[j]) && ys[i] != ys[j]
    requires |xs| == |ys| && forall k :: k in xs <==> k in ys
    ensures xs == ys
  {
    if xs != [] {
      assert xs[0] in xs && ys[0] in ys;
      var j :| 0 <= j < |ys| && ys[j] == xs[0];
      var i :| 0 <= i < |xs| && xs[i] == ys[0];
      assert leq(xs[0], ys[0]) || i == 0;
      assert leq(ys[0], xs[0]) || j == 0;
      assert xs[0] == ys[0];
      assert xs == [xs[0]] + xs[1..] && ys == [ys[0]] + ys[1..];
      assert xs[0] !in xs[1..] && ys[0] !in ys[1..];
      forall k
        ensures k in xs[1..] <==> k in ys[1..]
      {
        assert k in xs[1..] <==> k in xs && k != xs[0];
        assert k in ys[1..] <==> k in ys && k != ys[0];
      }
      OneOrder(leq, xs[1..], ys[1..]);
    }
  }

  lemma UntiedKeys(leq: KeyOrder, v: Json)
    requires v.Obj? && Untied(leq, v)
    ensures var ks := Keys(SortedEntries(leq, v));
      forall k, l | k in ks && l in ks && leq(k, l) && leq(l, k) :: k == l
  {
    hide SortedEntries;
    var es := SortedEntries(leq, v);
    forall k, l | k in Keys(es) && l in Keys(es) && leq(k, l) && leq(l, k)
      ensures k == l
    {
      var i :| 0 <= i < |es| && Keys(es)[i] == k;
      var j :| 0 <= j < |es| && Keys(es)[j] == l;
      assert es[i] in es && es[j] in es;
    }
  }

  /** Objects with the same fields are printed with the same keys in the same order. */
  lemma SameFieldsSameOrder(leq: KeyOrder, a: Json, b: Json)
    requires TotalPreorder(leq) && Untied(leq, a)
    requires a.Obj? && b.Obj? && WellFormed(a) && WellFormed(b) && Meaning(a) == Meaning(b)
    ensures var xs, ys := SortedEntries(leq, a), SortedEntries(leq, b);
            && |xs| == |ys|
            && forall i :: 0 <= i < |xs| ==> xs[i].key == ys[i].key && Meaning(xs[i].value) == Meaning(ys[i].value)
  {
    UntiedKeys(leq, a);
    assert DistinctKeys(a.entries) && DistinctKeys(b.entries) && Fields(a, a.entries) == Fields(b, b.entries);
    hide Meaning, WellFormed, Untied, Fields;
    SortedParts(leq, a);
    SortedParts(leq, b);
    hide SortedEntries, Sorted, DistinctKeys;
    SameSortedKeys(leq, a, b);
    var xs, ys := SortedEntries(leq, a), SortedEntries(leq, b);
    forall i | 0 <= i < |xs|
      ensures xs[i].key == ys[i].key && Meaning(xs[i].value) == Meaning(ys[i].value)
    {
      assert Keys(xs)[i] == Keys(ys)[i];
    }
  }

  /** The entries of an object in printing order, as keys and fields. */
  lemma SortedParts(leq: KeyOrder, v: Json)
    requires TotalPreorder(leq) && v.Obj? && DistinctKeys(v.entries)
    ensures var es := SortedEntries(leq, v);
      && DistinctKeys(es) && InOrder(leq, es) && Fields(v, es) == Fields(v, v.entries) && |Fields(v, es)| == |es|
      && (forall k :: k in Fields(v, es) <==> k in Keys(es))
      && (forall i :: 0 <= i < |es| ==> es[i].key in Fields(v, es) && Fields(v, es)[es[i].key] == Meaning(es[i].value))
  {
    hide Meaning, Fields, Insert;
    var es := SortedEntries(leq, v);
    SortedDistinct(leq, v);
    SortedFields(leq, v);
    FieldsLookup(v, es);
    FieldsKeys(v, es);
    FieldsCount(v, es);
    SortedInOrder(leq, v.entries);
  }

  lemma SameSortedKeys(leq: KeyOrder, a: Json, b: Json)
    requires a.Obj? && b.Obj?
    requires var xs, ys := SortedEntries(leq, a), SortedEntries(leq, b);
      && DistinctKeys(xs) && DistinctKeys(ys) && InOrder(leq, xs) && InOrder(leq, ys) && |xs| == |ys|
      && (forall k :: k in Keys(xs) <==> k in Keys(ys))
      && (forall k, l | k in Keys(xs) && l in Keys(xs) && leq(k, l) && leq(l, k) :: k == l)
    ensures Keys(SortedEntries(leq, a)) == Keys(SortedEntries(leq, b))
  {
    hide SortedEntries;
    OneOrder(leq, Keys(SortedEntries(leq, a)), Keys(SortedEntries(leq, b)));
  }

  /** Equal values print to equal texts when no two keys of one object tie. */
  lemma {:induction false} MeaningDeterminesText(leq: KeyOrder, a: Json, b: Json)
    requires TotalPreorder(leq) && Untied(leq, a)
    requires WellFormed(a) && WellFormed(b) && Meaning(a) == Meaning(b)
    ensures CanonicalText(leq, a) == CanonicalText(leq, b)
    decreases a, 1
  {
    match a
    case Arr(_) => SameArrayText(leq, a, b);
    case Obj(_) => SameObjectText(leq, a, b);
    case _ =>
  }

  lemma SameArrayText(leq: KeyOrder, a: Json, b: Json)
    requires TotalPreorder(leq) && Untied(leq, a)
    requires a.Arr? && WellFormed(a) && WellFormed(b) && Meaning(a) == Meaning(b)
    ensures CanonicalText(leq, a) == CanonicalText(leq, b)
    decreases a, 0
  {
    assert b.Arr? && |a.items| == |Meaning(a).items| == |b.items|;
    forall i | 0 <= i < |a.items|
      ensures CanonicalText(leq, a.items[i]) == CanonicalText(leq, b.items[i])
    {
      MeaningsAt(a, 0, i);
      MeaningsAt(b, 0, i);
      MeaningDeterminesText(leq, a.items[i], b.items[i]);
    }
    SameItemsText(leq, a, b, 0);
  }

  lemma SameObjectText(leq: KeyOrder, a: Json, b: Json)
    requires TotalPreorder(leq) && Untied(leq, a)
    requires a.Obj? && WellFormed(a) && WellFormed(b) && Meaning(a) == Meaning(b)
    ensures CanonicalText(leq, a) == CanonicalText(leq, b)
    decreases a, 0
  {
    assert b.Obj?;
    SameFieldsSameOrder(leq, a, b);
    var xs, ys := SortedEntries(leq, a), SortedEntries(leq, b);
    forall i | 0 <= i < |xs|
      ensures CanonicalText(leq, xs[i].value) == CanonicalText(leq, ys[i].value)
    {
      assert xs[i] in a.entries && ys[i] in b.entries;
      MeaningDeterminesText(leq, xs[i].value, ys[i].value);
    }
    SameMembersText(leq, a, b, xs, ys);
  }

  lemma {:induction false} MeaningsAt(v: Json, i: nat, k: nat)
    requires v.Arr? && i + k < |v.items|
    ensures Meanings(v, i)[k] == Meaning(v.items[i + k])
    decreases k
  {
    if k > 0 { MeaningsAt(v, i + 1, k - 1); }
  }

  lemma {:induction false} SameItemsText(leq: KeyOrder, a: Json, b: Json, i: nat)
    requires a.Arr? && b.Arr? && |a.items| == |b.items| && i <= |a.items|
    requires forall k | 0 <= k < |a.items| :: CanonicalText(leq, a.items[k]) == CanonicalText(leq, b.items[k])
    ensures ItemsText(leq, a, i) == ItemsText(leq, b, i)
    decreases |a.items| - i
  {
    hide CanonicalText;
    if i < |a.items| { SameItemsText(leq, a, b, i + 1); }
  }

  lemma {:induction false} SameMembersText(leq: KeyOrder, a: Json, b: Json, xs: seq<Entry>, ys: seq<Entry>)
    requires a.Obj? && b.Obj? && |xs| == |ys|
    requires (forall e | e in xs :: e in a.entries) && (forall e | e in ys :: e in b.entries)
    requires forall k | 0 <= k < |xs| ::
               xs[k].key == ys[k].key && CanonicalText(leq, xs[k].value) == CanonicalText(leq, ys[k].value)
    ensures MembersText(leq, a, xs) == MembersText(leq, b, ys)
    decreases |xs|
  {
    hide CanonicalText;
    if xs != [] {
      SameMembersText(leq, a, b, xs[1..], ys[1..]);
    }
  }

  /** The match of the protocol is equality of values with unordered keys. */
  lemma MatchIsSameMeaning(leq: KeyOrder, a: Json, b: Json)
    requires TotalPreorder(leq) && Untied(leq, a) && WellFormed(a) && WellFormed(b)
    ensures ExactArgsMatch(leq, a, b) <==> Meaning(a) == Meaning(b)
  {
    if ExactArgsMatch(leq, a, b) {
      TextDeterminesMeaning(leq, leq, a, b);
    } else if Meaning(a) == Meaning(b) {
      MeaningDeterminesText(leq, a, b);
    }
  }
}

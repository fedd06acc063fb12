/**
 The canonical text in letters (packages/core/src/approvalTokens.ts, `canonicalExactArgs`): it is the JSON text of the
 value, with the keys of every object sorted. Module ExactArgs works with code units; here they are spelled out.
 */
module JsonText {
  import opened Basics
  import opened ExactArgs

  /** The units of a text in the ASCII alphabet. */
  function Ascii(s: string): (t: Text)
    requires forall c | c in s :: c as int < 128
    ensures |t| == |s|
  {
    assert forall i :: 0 <= i < |s| ==> s[i] in s;
    seq(|s|, i requires 0 <= i < |s| && s[i] as int < 128 => var c: Unit := s[i] as int; c)
  }

  /** The texts with commas between them. */
  function Commas(ts: seq<Text>): Text {
    if ts == [] then [] else if |ts| == 1 then ts[0] else ts[0] + Ascii(",") + Commas(ts[1..])
  }

  function Texts(leq: KeyOrder, items: seq<Json>): (ts: seq<Text>)
    ensures |ts| == |items|
  {
    seq(|items|, i requires 0 <= i < |items| => CanonicalText(leq, items[i]))
  }

  function Member(leq: KeyOrder, e: Entry): Text {
    CanonicalText(leq, Str(e.key)) + Ascii(":") + CanonicalText(leq, e.value)
  }

  function Members(leq: KeyOrder, es: seq<Entry>): (ts: seq<Text>)
    ensures |ts| == |es|
  {
    seq(|es|, i requires 0 <= i < |es| => Member(leq, es[i]))
  }

  /** The text of every kind of value; the members of an object are its entries in some order. */
  lemma PrintsJson(leq: KeyOrder, v: Json) returns (es: seq<Entry>)
    ensures match v
      case Undefined => CanonicalText(leq, v) == Ascii("undefined")
      case Null => CanonicalText(leq, v) == Ascii("null")
      case Bool(b) => CanonicalText(leq, v) == if b then Ascii("true") else Ascii("false")
      case Num(Finite(n)) => CanonicalText(leq, v) == n
      case Num(NonFinite) => CanonicalText(leq, v) == Ascii("null")
      case Str(s) => CanonicalText(leq, v) == Ascii("\"") + Escaped(s) + Ascii("\"")
      case Arr(items) => CanonicalText(leq, v) == Ascii("[") + Commas(Texts(leq, items)) + Ascii("]")
      case Obj(entries) =>
        && CanonicalText(leq, v) == Ascii("{") + Commas(Members(leq, es)) + Ascii("}")
        && es == Sorted(leq, entries) && multiset(es) == multiset(entries)
  {
    es := [];
    PlainWords();
    hide Ascii;
    match v
    case Arr(items) =>
      ItemsJoined(leq, v, 0);
      assert items[0..] == items;
      assert Ascii("[") == [LBRACKET] && Ascii("]") == [RBRACKET];
    case Obj(entries) =>
      es := SortedEntries(leq, v);
      MembersJoined(leq, v, es);
      assert Ascii("{") == [LBRACE] && Ascii("}") == [RBRACE];
    case Str(_) =>
      hide Escaped;
    case _ =>
  }

  lemma PlainWords()
    ensures Ascii("undefined") == UNDEFINED_TEXT && Ascii("null") == NULL_TEXT
    ensures Ascii("true") == TRUE_TEXT && Ascii("false") == FALSE_TEXT
    ensures Ascii("[") == [LBRACKET] && Ascii("]") == [RBRACKET] && Ascii("{") == [LBRACE] && Ascii("}") == [RBRACE]
    ensures Ascii("\"") == [QUOTE] && Ascii(",") == [COMMA] && Ascii(":") == [COLON]
  {
  }

  lemma {:induction false} ItemsJoined(leq: KeyOrder, v: Json, i: nat)
    requires v.Arr? && i <= |v.items|
    ensures ItemsText(leq, v, i) == Commas(Texts(leq, v.items[i..]))
    decreases |v.items| - i
  {
    hide CanonicalText;
    var ts := Texts(leq, v.items[i..]);
    if i < |v.items| {
      ItemsJoined(leq, v, i + 1);
      assert ts[1..] == Texts(leq, v.items[i + 1..]);
    }
  }

  lemma {:induction false} MembersJoined(leq: KeyOrder, v: Json, es: seq<Entry>)
    requires v.Obj? && forall e | e in es :: e in v.entries
    ensures MembersText(leq, v, es) == Commas(Members(leq, es))
  {
    if es != [] {
      MembersJoined(leq, v, es[1..]);
      assert es[0] in es && Members(leq, es)[1..] == Members(leq, es[1..]);
      assert MemberText(leq, v, es[0]) == Member(leq, es[0]);
    }
  }

  /** The escape of each unit of a string. */
  lemma EscapesAre(c: Unit)
    ensures EscapeUnit(c) ==
      if c == '\"' as int then Ascii("\\\"")
      else if c == '\\' as int then Ascii("\\\\")
      else if c == 8 then Ascii("\\b")
      else if c == '\t' as int then Ascii("\\t")
      else if c == '\n' as int then Ascii("\\n")
      else if c == 12 then Ascii("\\f")
      else if c == '\r' as int then Ascii("\\r")
      else if c < ' ' as int || 0xD800 <= c < 0xE000 then Ascii("\\u") + Digits(c)
      else [c]
  {
    DigitsAre(c);
    hide Hex4;
  }

  /** Four lower-case hexadecimal digits. */
  function Digits(c: Unit): Text {
    var digits := Ascii("0123456789abcdef");
    [digits[c / 4096], digits[c / 256 % 16], digits[c / 16 % 16], digits[c % 16]]
  }

  lemma DigitsAre(c: Unit)
    ensures Hex4(c) == Digits(c)
  {
    Quotients(c);
    DigitIs(c / 4096);
    DigitIs(c / 256 % 16);
    DigitIs(c / 16 % 16);
    DigitIs(c % 16);
    hide HexDigit;
  }

  lemma Quotients(c: Unit)
    ensures c / 16 / 16 / 16 == c / 4096 < 16 && c / 16 / 16 == c / 256
  {
  }

  lemma DigitIs(d: int)
    requires 0 <= d < 16
    ensures HexDigit(d) == Ascii("0123456789abcdef")[d]
  {
  }

  /** Units are escaped one by one, but for a surrogate pair, which is kept. */
  lemma EscapedFirst(s: Text)
    requires s != []
    ensures Escaped(s) ==
      if |s| > 1 && 0xD800 <= s[0] < 0xDC00 <= s[1] < 0xE000 then s[..2] + Escaped(s[2..])
      else EscapeUnit(s[0]) + Escaped(s[1..])
  {
    hide EscapeUnit;
    assert |s| > 1 ==> s[..2] == [s[0], s[1]];
  }

  /** The decimal texts of numbers: in these letters, beginning with a digit or a minus sign. */
  lemma NumeralIs(t: Text)
    ensures IsNumeral(t) <==>
      t != [] && t[0] in Ascii("0123456789-") && forall i :: 0 <= i < |t| ==> t[i] in Ascii("0123456789+-.e")
  {
    forall c: Unit
      ensures c in Ascii("0123456789-") <==> 48 <= c <= 57 || c == 45
      ensures c in Ascii("0123456789+-.e") <==> NumeralUnit(c)
    {
      LettersAre(c);
    }
    hide Ascii, NumeralUnit;
  }

  lemma LettersAre(c: Unit)
    ensures c in Ascii("0123456789-") <==> 48 <= c <= 57 || c == 45
    ensures c in Ascii("0123456789+-.e") <==> NumeralUnit(c)
  {
    var first, all := Ascii("0123456789-"), Ascii("0123456789+-.e");
    assert first[10] == 45 && (48 <= c <= 57 ==> first[c - 48] == c);
    assert all[10] == 43 && all[11] == 45 && all[12] == 46 && all[13] == 101 && (48 <= c <= 57 ==> all[c - 48] == c);
  }
}

/** Trimming, with the whitespace predicate of the language at hand as a parameter. */
module Strings {

  function TrimLeft(space: char -> bool, s: string): string {
    if s != [] && space(s[0]) then TrimLeft(space, s[1..]) else s
  }

  function TrimRight(space: char -> bool, s: string): string {
    if s != [] && space(s[|s| - 1]) then TrimRight(space, s[..|s| - 1]) else s
  }

  function Trim(space: char -> bool, s: string): string {
    TrimRight(space, TrimLeft(space, s))
  }

  /** No whitespace at either end. */
  predicate Trimmed(space: char -> bool, s: string) {
    s == [] || (!space(s[0]) && !space(s[|s| - 1]))
  }

  lemma {:induction false} TrimLeftStart(space: char -> bool, s: string)
    ensures var t := TrimLeft(space, s); t == [] || !space(t[0])
  {
    if s != [] && space(s[0]) { TrimLeftStart(space, s[1..]); }
  }

  lemma {:induction false} TrimRightEnds(space: char -> bool, s: string)
    ensures var t := TrimRight(space, s); t == [] || (!space(t[|t| - 1]) && t[0] == s[0])
  {
    if s != [] && space(s[|s| - 1]) { TrimRightEnds(space, s[..|s| - 1]); }
  }

  lemma TrimIsTrimmed(space: char -> bool, s: string)
    ensures Trimmed(space, Trim(space, s))
  {
    TrimLeftStart(space, s);
    TrimRightEnds(space, TrimLeft(space, s));
  }

  lemma TrimOfTrimmed(space: char -> bool, s: string)
    requires Trimmed(space, s)
    ensures Trim(space, s) == s
  {
  }

  /** Trimming cuts whitespace off both ends and nothing else. */
  lemma TrimCuts(space: char -> bool, s: string) returns (a: string, b: string)
    ensures s == a + Trim(space, s) + b && (forall c | c in a + b :: space(c))
  {
    a := LeftCut(space, s);
    b := RightCut(space, TrimLeft(space, s));
  }

  lemma {:induction false} LeftCut(space: char -> bool, s: string) returns (a: string)
    ensures s == a + TrimLeft(space, s) && forall c | c in a :: space(c)
  {
    a := "";
    if s != [] && space(s[0]) {
      a := LeftCut(space, s[1..]);
      a := [s[0]] + a;
    }
  }

  lemma {:induction false} RightCut(space: char -> bool, s: string) returns (b: string)
    ensures s == TrimRight(space, s) + b && forall c | c in b :: space(c)
  {
    b := "";
    if s != [] && space(s[|s| - 1]) {
      b := RightCut(space, s[..|s| - 1]);
      assert s == s[..|s| - 1] + [s[|s| - 1]];
      b := b + [s[|s| - 1]];
    }
  }

  /** Only the trimmed text is left between the whitespace. */
  lemma TrimExactly(space: char -> bool, a: string, t: string, b: string)
    requires Trimmed(space, t) && forall c | c in a + b :: space(c)
    ensures Trim(space, a + t + b) == t
  {
    assert forall c :: c in a + b <==> c in a || c in b;
    if t == "" {
      assert a + t + b == a + b;
      AllCut(space, a + b);
    } else {
      CutLeft(space, a, t + b);
      assert a + t + b == a + (t + b);
      CutRight(space, t, b);
    }
  }

  lemma {:induction false} AllCut(space: char -> bool, s: string)
    requires forall c | c in s :: space(c)
    ensures TrimLeft(space, s) == ""
  {
    if s != [] { AllCut(space, s[1..]); }
  }

  lemma {:induction false} CutLeft(space: char -> bool, a: string, t: string)
    requires (forall c | c in a :: space(c)) && t != "" && !space(t[0])
    ensures TrimLeft(space, a + t) == t
  {
    if a == "" {
      assert a + t == t;
    } else {
      assert a[0] in a && forall c | c in a[1..] :: c in a;
      CutLeft(space, a[1..], t);
      assert (a + t)[1..] == a[1..] + t;
    }
  }

  lemma {:induction false} CutRight(space: char -> bool, t: string, b: string)
    requires (forall c | c in b :: space(c)) && t != "" && !space(t[|t| - 1])
    ensures TrimRight(space, t + b) == t
  {
    if b == "" {
      assert t + b == t;
    } else {
      var init := b[..|b| - 1];
      assert b[|b| - 1] in b && forall c | c in init :: c in b;
      CutRight(space, t, init);
      assert (t + b)[..|t + b| - 1] == t + init;
    }
  }

  /** The whitespace that `trim` removes in the server's language. */
  predicate JsSpace(c: char) {
    || c == ' ' || c == '\t' || c == '\n' || c == '\r' || c == '\U{B}' || c == '\U{C}'
    || c == '\U{A0}' || c == '\U{1680}' || '\U{2000}' <= c <= '\U{200A}' || c == '\U{2028}' || c == '\U{2029}'
    || c == '\U{202F}' || c == '\U{205F}' || c == '\U{3000}' || c == '\U{FEFF}'
  }
}

/** Lines of text as the scripts' language sees them: `splitlines`, joining with newlines, whitespace. */
module Lines {
  import opened Strings

  predicate IsBreak(c: char) {
    || c == '\n' || c == '\r' || c == '\U{B}' || c == '\U{C}' || c == '\U{1C}' || c == '\U{1D}' || c == '\U{1E}'
    || c == '\U{85}' || c == '\U{2028}' || c == '\U{2029}'
  }

  predicate PySpace(c: char) {
    || c == ' ' || c == '\t' || c == '\U{1F}' || IsBreak(c)
    || c == '\U{A0}' || c == '\U{1680}' || '\U{2000}' <= c <= '\U{200A}' || c == '\U{202F}' || c == '\U{205F}'
    || c == '\U{3000}'
  }

  /** The two languages differ in six characters: information separators, the next line, and the byte order mark. */
  lemma SpacesDiffer(c: char)
    ensures PySpace(c) <==> (JsSpace(c) && c != '\U{FEFF}') || '\U{1C}' <= c <= '\U{1F}' || c == '\U{85}'
    ensures IsBreak(c) <==> '\n' <= c <= '\r' || '\U{1C}' <= c <= '\U{1E}' || c in "\U{85}\U{2028}\U{2029}"
  {
  }

  ghost predicate BreakFree(s: string) {
    forall c | c in s :: !IsBreak(c)
  }

  ghost predicate AllBreakFree(lines: seq<string>) {
    forall i :: 0 <= i < |lines| ==> BreakFree(lines[i])
  }

  /** The length of the first line. */
  function LineLength(t: string): (n: nat)
    ensures n <= |t|
  {
    if t == [] || IsBreak(t[0]) then 0 else 1 + LineLength(t[1..])
  }

  /** A carriage return and a newline are one break. */
  function BreakLength(t: string): (n: nat)
    requires t != []
    ensures 1 <= n <= |t|
  {
    if |t| > 1 && t[0] == '\r' && t[1] == '\n' then 2 else 1
  }

  function SplitLines(t: string): seq<string>
    decreases |t|
  {
    if t == [] then []
    else
      var n := LineLength(t);
      if n == |t| then [t] else [t[..n]] + SplitLines(t[n..][BreakLength(t[n..])..])
  }

  function Join(lines: seq<string>): string {
    if lines == [] then ""
    else if |lines| == 1 then lines[0]
    else lines[0] + "\n" + Join(lines[1..])
  }

  predicate EndsWithNewline(t: string) {
    t != [] && t[|t| - 1] == '\n'
  }

  lemma {:induction false} LineIsBreakFree(t: string)
    ensures BreakFree(t[..LineLength(t)])
    ensures LineLength(t) < |t| ==> IsBreak(t[LineLength(t)])
  {
    if t != [] && !IsBreak(t[0]) {
      LineIsBreakFree(t[1..]);
      assert t[..LineLength(t)] == [t[0]] + t[1..][..LineLength(t[1..])];
    }
  }

  lemma {:induction false} LinesAreBreakFree(t: string)
    ensures AllBreakFree(SplitLines(t))
    decreases |t|
  {
    if t != [] {
      var n := LineLength(t);
      LineIsBreakFree(t);
      if n == |t| {
        assert t[..n] == t;
      } else {
        LinesAreBreakFree(t[n..][BreakLength(t[n..])..]);
      }
    }
  }

  /** A break-free prefix is read as part of the first line. */
  lemma {:induction false} LongerLine(x: string, t: string)
    requires BreakFree(x)
    ensures LineLength(x + t) == |x| + LineLength(t)
  {
    if x == [] {
      assert x + t == t;
    } else {
      assert x[0] in x;
      assert forall c | c in x[1..] :: c in x;
      LongerLine(x[1..], t);
      assert (x + t)[1..] == x[1..] + t;
    }
  }

  /** One step of splitting: a break-free line and the break that ends it. */
  lemma SplitStep(x: string, rest: string)
    requires BreakFree(x) && rest != [] && IsBreak(rest[0])
    ensures SplitLines(x + rest) == [x] + SplitLines(rest[BreakLength(rest)..])
  {
    var u := x + rest;
    LongerLine(x, rest);
    assert LineLength(u) == |x| < |u|;
    assert u[..|x|] == x && u[|x|..] == rest;
  }

  lemma SplitFirst(x: string, t: string)
    requires BreakFree(x)
    ensures SplitLines(x + "\n" + t) == [x] + SplitLines(t)
  {
    hide SplitLines;
    var rest := "\n" + t;
    assert x + "\n" + t == x + rest && rest[BreakLength(rest)..] == t;
    SplitStep(x, rest);
  }

  lemma SplitOne(x: string)
    requires BreakFree(x) && x != []
    ensures SplitLines(x) == [x]
  {
    LongerLine(x, []);
    assert x + [] == x;
  }

  /** Lines that are each closed with a newline are read back as they are. */
  lemma {:induction false} SplitClosed(lines: seq<string>)
    requires lines != [] && AllBreakFree(lines)
    ensures SplitLines(Join(lines) + "\n") == lines
  {
    hide SplitLines, BreakFree;
    assert BreakFree(lines[0]);
    if |lines| == 1 {
      SplitFirst(lines[0], []);
      assert SplitLines("") == [] by { SplitEmpty(); }
      assert Join(lines) + "\n" == lines[0] + "\n" + [];
    } else {
      var tail := lines[1..];
      assert AllBreakFree(tail);
      SplitClosed(tail);
      SplitFirst(lines[0], Join(tail) + "\n");
      assert Join(lines) + "\n" == lines[0] + "\n" + (Join(tail) + "\n");
    }
  }

  lemma SplitEmpty()
    ensures SplitLines("") == []
  {
  }

  /** An empty line at the end that is not closed is not read back. */
  function Closed(lines: seq<string>): seq<string> {
    if lines != [] && lines[|lines| - 1] == "" then lines[..|lines| - 1] else lines
  }

  lemma {:induction false} SplitOpen(lines: seq<string>)
    requires AllBreakFree(lines)
    ensures SplitLines(Join(lines)) == Closed(lines)
  {
    hide SplitLines, BreakFree;
    SplitEmpty();
    if lines != [] {
      assert BreakFree(lines[0]);
      if |lines| == 1 {
        if lines[0] != "" { SplitOne(lines[0]); }
      } else {
        var tail := lines[1..];
        assert AllBreakFree(tail);
        SplitOpen(tail);
        SplitFirst(lines[0], Join(tail));
        assert [lines[0]] + Closed(tail) == Closed(lines);
      }
    }
  }

  /** Text that ends in a newline has a first line that is shorter than the text. */
  lemma {:induction false} LineStops(t: string)
    requires EndsWithNewline(t)
    ensures LineLength(t) < |t|
  {
    if !IsBreak(t[0]) { LineStops(t[1..]); }
  }

  /** Text that follows a newline is split on its own. */
  lemma {:induction false} SplitAfterNewline(a: string, b: string)
    requires EndsWithNewline(a)
    ensures SplitLines(a + b) == SplitLines(a) + SplitLines(b)
    decreases |a|
  {
    hide SplitLines, BreakFree, LineLength, IsBreak;
    LineStops(a);
    LineIsBreakFree(a);
    var n := LineLength(a);
    var x, rest := a[..n], a[n..];
    assert x + rest == a && x + (rest + b) == a + b;
    SplitStep(x, rest);
    SplitStep(x, rest + b);
    var k := BreakLength(rest);
    var more := rest[k..];
    assert BreakLength(rest + b) == k && (rest + b)[k..] == more + b;
    hide BreakLength;
    if more == [] {
      SplitEmpty();
      assert more + b == b;
    } else {
      assert EndsWithNewline(more) by { assert more[|more| - 1] == a[|a| - 1]; }
      SplitAfterNewline(more, b);
      assert [x] + (SplitLines(more) + SplitLines(b)) == ([x] + SplitLines(more)) + SplitLines(b);
    }
  }

  /** Joined lines end in a newline only through an empty last line. */
  lemma {:induction false} JoinEnd(lines: seq<string>)
    requires lines != [] && AllBreakFree(lines)
    ensures EndsWithNewline(Join(lines)) <==> |lines| > 1 && lines[|lines| - 1] == ""
    ensures |lines| > 1 && lines[|lines| - 1] == "" ==> Join(lines) == Join(lines[..|lines| - 1]) + "\n"
  {
    hide BreakFree;
    if |lines| == 1 {
      assert BreakFree(lines[0]);
      NoNewlineAtEnd(lines[0]);
    } else {
      var tail, init := lines[1..], lines[..|lines| - 1];
      JoinEnd(tail);
      assert Join(lines) == lines[0] + "\n" + Join(tail);
      if |lines| > 2 {
        assert tail[..|tail| - 1] == init[1..];
        assert Join(tail) != "";
      }
    }
  }

  lemma NoNewlineAtEnd(x: string)
    requires BreakFree(x)
    ensures !EndsWithNewline(x)
  {
    if x != [] { assert x[|x| - 1] in x; }
  }

  // Lines with their breaks.

  /** A line and the break that ends it; the last line may have none. */
  datatype Piece = Piece(line: string, brk: string)

  function Pieces(t: string): seq<Piece>
    decreases |t|
  {
    if t == [] then []
    else
      var n := LineLength(t);
      if n == |t| then [Piece(t, "")]
      else
        var rest := t[n..];
        var k := BreakLength(rest);
        [Piece(t[..n], rest[..k])] + Pieces(rest[k..])
  }

  /** The text that the pieces are pieces of. */
  function Flat(ps: seq<Piece>): string {
    if ps == [] then "" else ps[0].line + ps[0].brk + Flat(ps[1..])
  }

  lemma {:induction false} LinesOfPieces(t: string)
    ensures |SplitLines(t)| == |Pieces(t)|
    ensures forall i :: 0 <= i < |SplitLines(t)| ==> SplitLines(t)[i] == Pieces(t)[i].line
    decreases |t|
  {
    if t != [] && LineLength(t) < |t| {
      var n := LineLength(t);
      var rest := t[n..];
      var k := BreakLength(rest);
      var more := rest[k..];
      LinesOfPieces(more);
      assert SplitLines(t) == [t[..n]] + SplitLines(more);
      assert Pieces(t) == [Piece(t[..n], rest[..k])] + Pieces(more);
      hide SplitLines, Pieces, LineLength, BreakLength;
    }
  }

  /** What ends a line that is not the last. */
  predicate IsLineBreak(brk: string) {
    (|brk| == 1 && IsBreak(brk[0])) || brk == "\r\n"
  }

  lemma FirstPiece(t: string) returns (line: string, brk: string, rest: string)
    requires t != "" && LineLength(t) < |t|
    ensures t == line + brk + rest && |rest| < |t| && BreakFree(line) && IsLineBreak(brk)
    ensures Pieces(t) == [Piece(line, brk)] + Pieces(rest)
  {
    var n := LineLength(t);
    var u := t[n..];
    LineIsBreakFree(t);
    BreakShape(u);
    var b := BreakLength(u);
    line, brk, rest := t[..n], u[..b], u[b..];
    assert Pieces(t) == [Piece(line, brk)] + Pieces(rest);
    hide LineLength, BreakLength, BreakFree, IsLineBreak, IsBreak, Pieces;
    ThreeParts(t, n, b);
  }

  lemma ThreeParts(t: string, n: nat, b: nat)
    requires n < |t| && 0 < b <= |t| - n
    ensures var u := t[n..]; t == t[..n] + u[..b] + u[b..] && |u[b..]| < |t|
  {
    var u := t[n..];
    assert t == t[..n] + u && u == u[..b] + u[b..];
  }

  lemma BreakShape(u: string)
    requires u != "" && IsBreak(u[0])
    ensures IsLineBreak(u[..BreakLength(u)])
  {
    hide IsBreak;
  }

  lemma OnlyPiece(t: string)
    requires t != "" && LineLength(t) == |t|
    ensures Pieces(t) == [Piece(t, "")] && BreakFree(t)
  {
    LineIsBreakFree(t);
    assert t[..|t|] == t;
  }

  /** The pieces put together are the text. */
  lemma {:induction false} FlatPieces(t: string)
    ensures Flat(Pieces(t)) == t
    decreases |t|
  {
    hide Pieces, BreakFree, IsLineBreak;
    NoPieces();
    if t != "" {
      if LineLength(t) == |t| {
        OnlyPiece(t);
        assert t + "" == t;
      } else {
        var line, brk, rest := FirstPiece(t);
        FlatPieces(rest);
        assert ([Piece(line, brk)] + Pieces(rest))[1..] == Pieces(rest);
      }
    }
  }

  /** Only the last line can be without a break, and then it is not empty. */
  lemma {:induction false} PieceBreaks(t: string)
    ensures var ps := Pieces(t);
      && (forall i :: 0 <= i < |ps| && ps[i].brk == "" ==> i == |ps| - 1 && ps[i].line != "")
      && (t != "" ==> ps != [] && (EndsWithNewline(t) <==> ps[|ps| - 1].brk in {"\n", "\r\n"}))
    decreases |t|
  {
    hide Pieces, BreakFree, IsBreak;
    NoPieces();
    if t != "" {
      if LineLength(t) == |t| {
        OnlyPiece(t);
        NoNewlineAtEnd(t);
      } else {
        var line, brk, rest := FirstPiece(t);
        PieceBreaks(rest);
        LastOf(line + brk, rest);
        EndOfBreak(line, brk);
      }
    }
  }

  lemma LastOf(a: string, b: string)
    ensures EndsWithNewline(a + b) <==> EndsWithNewline(if b == "" then a else b)
  {
    assert b == "" ==> a + b == a;
  }

  lemma EndOfBreak(line: string, brk: string)
    requires IsLineBreak(brk)
    ensures EndsWithNewline(line + brk) <==> brk in {"\n", "\r\n"}
  {
    assert |brk| == 1 ==> brk == [brk[0]];
  }

  ghost predicate OnlyNewlines(t: string) {
    forall c | c in t && IsBreak(c) :: c == '\n'
  }

  lemma OnlyNewlinesParts(a: string, b: string)
    ensures OnlyNewlines(a + b) <==> OnlyNewlines(a) && OnlyNewlines(b)
  {
    hide IsBreak;
    assert forall c :: c in a + b <==> c in a || c in b;
  }

  ghost predicate OnlyNewlineBreaks(ps: seq<Piece>) {
    forall i :: 0 <= i < |ps| ==> ps[i].brk == "" || ps[i].brk == "\n"
  }

  /** A text whose only breaks are newlines, seen from its lines. */
  lemma {:induction false} OnlyNewlinesByPiece(t: string)
    ensures OnlyNewlines(t) <==> OnlyNewlineBreaks(Pieces(t))
    decreases |t|
  {
    hide Pieces, IsBreak;
    NoPieces();
    if t != "" {
      if LineLength(t) == |t| {
        OnlyPiece(t);
      } else {
        var line, brk, rest := FirstPiece(t);
        OnlyNewlinesByPiece(rest);
        BreakIsNewline(brk);
        OnlyNewlinesParts(line, brk);
        OnlyNewlinesParts(line + brk, rest);
        hide BreakFree, OnlyNewlines;
        OnlyNewlineBreaksCons(Piece(line, brk), Pieces(rest));
      }
    }
  }

  lemma OnlyNewlineBreaksCons(p: Piece, ps: seq<Piece>)
    ensures OnlyNewlineBreaks([p] + ps) <==> (p.brk == "" || p.brk == "\n") && OnlyNewlineBreaks(ps)
  {
    var all := [p] + ps;
    assert all[0] == p && forall i :: 0 <= i < |ps| ==> ps[i] == all[i + 1];
  }

  lemma BreakIsNewline(brk: string)
    requires IsLineBreak(brk)
    ensures OnlyNewlines(brk) <==> brk == "\n"
  {
    assert brk[0] in brk;
  }

  /** The lines closed with newlines, but for the last, whose break is given. */
  function WithBreaks(lines: seq<string>, last: string): (ps: seq<Piece>)
    ensures |ps| == |lines|
  {
    seq(|lines|, i requires 0 <= i < |lines| => Piece(lines[i], if i < |lines| - 1 then "\n" else last))
  }

  /** One step: a break-free line and the whole of its break. */
  lemma PieceStep(x: string, brk: string, t: string)
    requires BreakFree(x) && IsLineBreak(brk) && (brk == "\r" ==> t == "" || t[0] != '\n')
    ensures Pieces(x + brk + t) == [Piece(x, brk)] + Pieces(t)
  {
    hide Pieces, BreakFree;
    var rest := brk + t;
    LongerLine(x, rest);
    BreakIsWhole(brk, t);
    assert LineLength(rest) == 0;
    hide LineLength, IsBreak, BreakLength;
    PiecesFrom(x, brk, t);
  }

  lemma BreakIsWhole(brk: string, t: string)
    requires IsLineBreak(brk) && (brk == "\r" ==> t == "" || t[0] != '\n')
    ensures BreakLength(brk + t) == |brk|
  {
    assert |brk| == 1 ==> brk == [brk[0]];
  }

  lemma PiecesFrom(x: string, brk: string, t: string)
    requires brk != "" && LineLength(x + (brk + t)) == |x| && BreakLength(brk + t) == |brk|
    ensures Pieces(x + brk + t) == [Piece(x, brk)] + Pieces(t)
  {
    hide LineLength, BreakLength;
    var u, rest := x + (brk + t), brk + t;
    assert u == x + brk + t;
    assert u[..|x|] == x && u[|x|..] == rest;
    assert rest[..|brk|] == brk && rest[|brk|..] == t;
  }

  lemma PieceOne(x: string)
    requires BreakFree(x) && x != []
    ensures Pieces(x) == [Piece(x, "")]
  {
    LongerLine(x, []);
    assert x + [] == x;
  }

  /** The pieces of joined lines, with or without a closing newline. */
  lemma {:induction false} PiecesOfJoined(lines: seq<string>, last: string)
    requires lines != [] && AllBreakFree(lines)
    requires last == "\n" || (last == "" && lines[|lines| - 1] != "")
    ensures Pieces(Join(lines) + last) == WithBreaks(lines, last)
  {
    hide Pieces, BreakFree, IsLineBreak, WithBreaks;
    assert BreakFree(lines[0]);
    NewlineIsBreak();
    WithBreaksFirst(lines, last);
    if |lines| == 1 {
      NoPieces();
      if last == "" {
        PieceOne(lines[0]);
        assert Join(lines) + last == lines[0];
      } else {
        PieceStep(lines[0], "\n", "");
        assert Join(lines) + last == lines[0] + "\n" + "";
      }
    } else {
      var tail := lines[1..];
      assert AllBreakFree(tail);
      PiecesOfJoined(tail, last);
      PieceStep(lines[0], "\n", Join(tail) + last);
      assert Join(lines) + last == lines[0] + "\n" + (Join(tail) + last);
    }
  }

  lemma WithBreaksFirst(lines: seq<string>, last: string)
    requires lines != []
    ensures WithBreaks(lines, last)
      == [Piece(lines[0], if |lines| == 1 then last else "\n")] + WithBreaks(lines[1..], last)
  {
  }

  lemma NewlineIsBreak()
    ensures IsLineBreak("\n")
  {
  }

  lemma NoPieces()
    ensures Pieces("") == []
  {
  }
}

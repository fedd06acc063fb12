/**
 * What set_env_lines in scripts/readiness-keeper/keeper.py keeps byte for byte: the lines that are not the updates'
 * own, with the breaks that end them.
 */
module KeeperBytes {
  import opened Lines
  import opened KeeperEnv

  /** The lines that no update touches, with their breaks. */
  function OtherPieces(ps: seq<Piece>, m: map<string, string>): seq<Piece> {
    if ps == [] then []
    else
      var last := ps[|ps| - 1];
      OtherPieces(ps[..|ps| - 1], m) + if Touches(last.line, m) then [] else [last]
  }

  predicate NothingAppended(text: string, updates: seq<Update>) {
    forall i :: 0 <= i < |updates| ==> updates[i].key in Parse(SplitLines(text))
  }

  /** The break is what joining the lines again puts there. */
  ghost predicate BreakStays(p: Piece, text: string, updates: seq<Update>) {
    p.brk == "\n" || (p.brk == "" && NothingAppended(text, updates))
  }

  // The pieces of the new text.

  lemma PiecesOfResult(text: string, updates: seq<Update>)
    requires Distinct(updates) && AllWritable(updates)
    ensures var n := NewLines(SplitLines(text), updates);
      && (DropsLast(text, updates) ==> n != [])
      && Pieces(SetEnv(text, updates)) ==
         if DropsLast(text, updates) then WithBreaks(n[..|n| - 1], "\n")
         else WithBreaks(n, if EndsWithNewline(text) then "\n" else "")
  {
    hide NewLines, SplitLines, Pieces, Join, Distinct, AllWritable, DropsLast, AllBreakFree;
    var n := NewLines(SplitLines(text), updates);
    LinesAreBreakFree(text);
    NewLinesBreakFree(SplitLines(text), updates);
    if EndsWithNewline(text) {
      AtLeastAsMany(text, updates);
      NotDropped(text, updates);
      PiecesOfJoined(n, "\n");
    } else {
      LastNewLine(text, updates);
      assert SetEnv(text, updates) == Join(n);
      if n == [] {
        JoinNothing();
        NoPieces();
      } else {
        PiecesOfOpen(n);
      }
    }
  }

  lemma PiecesOfOpen(n: seq<string>)
    requires n != [] && AllBreakFree(n)
    ensures Pieces(Join(n)) == if n[|n| - 1] == "" then WithBreaks(n[..|n| - 1], "\n") else WithBreaks(n, "")
  {
    hide Pieces, Join, BreakFree;
    if n[|n| - 1] != "" {
      PiecesOfJoined(n, "");
      assert Join(n) + "" == Join(n);
    } else if |n| == 1 {
      JoinOne(n[0]);
      NoPieces();
      assert n == [n[0]];
    } else {
      JoinEnd(n);
      PiecesOfJoined(n[..|n| - 1], "\n");
    }
  }

  // Old and new pieces side by side.

  ghost predicate SameOthers(before: seq<Piece>, after: seq<Piece>, m: map<string, string>) {
    && |before| == |after|
    && forall i :: 0 <= i < |before| ==>
         && (Touches(before[i].line, m) <==> Touches(after[i].line, m))
         && (!Touches(before[i].line, m) ==> before[i].line == after[i].line)
  }

  lemma {:induction false} OthersSideBySide(before: seq<Piece>, after: seq<Piece>, m: map<string, string>)
    requires SameOthers(before, after, m)
    ensures |OtherPieces(before, m)| == |OtherPieces(after, m)|
    ensures OtherPieces(before, m) == OtherPieces(after, m) <==> SameBreaks(before, after, m)
  {
    hide Touches;
    if before != [] {
      var k := |before| - 1;
      var a, b := OtherPieces(before[..k], m), OtherPieces(after[..k], m);
      OthersSideBySide(before[..k], after[..k], m);
      LastsApart(a, b, before[k], after[k]);
      assert a + [] == a && b + [] == b;
      SameBreaksToTheLast(before, after, m);
    }
  }

  ghost predicate SameBreaks(before: seq<Piece>, after: seq<Piece>, m: map<string, string>)
    requires |before| == |after|
  {
    forall i :: 0 <= i < |before| && !Touches(before[i].line, m) ==> before[i].brk == after[i].brk
  }

  lemma SameBreaksToTheLast(before: seq<Piece>, after: seq<Piece>, m: map<string, string>)
    requires |before| == |after| && before != []
    ensures var k := |before| - 1;
      SameBreaks(before, after, m) <==>
      && SameBreaks(before[..k], after[..k], m)
      && (!Touches(before[k].line, m) ==> before[k].brk == after[k].brk)
  {
    hide Touches;
    var k := |before| - 1;
    assert forall i :: 0 <= i < k ==> before[..k][i] == before[i] && after[..k][i] == after[i];
  }

  lemma LastsApart<T>(a: seq<T>, b: seq<T>, x: T, y: T)
    requires |a| == |b|
    ensures a + [x] == b + [y] <==> a == b && x == y
  {
    assert (a + [x])[..|a|] == a && (b + [y])[..|b|] == b;
    assert (a + [x])[|a|] == x && (b + [y])[|b|] == y;
  }

  lemma {:induction false} OthersBefore(a: seq<Piece>, b: seq<Piece>, m: map<string, string>)
    requires forall i :: 0 <= i < |b| ==> Touches(b[i].line, m)
    ensures OtherPieces(a + b, m) == OtherPieces(a, m)
  {
    hide Touches;
    if b == [] {
      assert a + b == a;
    } else {
      OthersBefore(a, b[..|b| - 1], m);
      assert (a + b)[..|a + b| - 1] == a + b[..|b| - 1];
    }
  }

  lemma CountNewLines(text: string, updates: seq<Update>)
    requires Distinct(updates)
    ensures |NewLines(SplitLines(text), updates)| >= |SplitLines(text)|
    ensures |NewLines(SplitLines(text), updates)| == |SplitLines(text)| <==> NothingAppended(text, updates)
  {
    hide Parse, SplitLines, MapOf, Appended, Distinct;
    var keys, m := Parse(SplitLines(text)).Keys, MapOf(updates);
    AppendedNone(updates, keys * m.Keys);
    SeenOrNot(updates, keys);
  }

  /** The new lines beside the old ones. */
  lemma NewBesideOld(text: string, updates: seq<Update>, last: string, count: nat)
    requires Distinct(updates) && AllWritable(updates)
    requires count <= |SplitLines(text)| && count <= |NewLines(SplitLines(text), updates)|
    ensures count <= |Pieces(text)|
    ensures SameOthers(Pieces(text)[..count], WithBreaks(NewLines(SplitLines(text), updates), last)[..count],
      MapOf(updates))
  {
    hide NewLines, SplitLines, Pieces, MapOf, Distinct, AllWritable, AllBreakFree, MapWritable, Touches, Rewrite;
    var lines, m := SplitLines(text), MapOf(updates);
    LinesAreBreakFree(text);
    LinesOfPieces(text);
    MapOfKeys(updates);
    forall i | 0 <= i < count
      ensures Touches(lines[i], m) <==> Touches(NewLines(lines, updates)[i], m)
      ensures !Touches(lines[i], m) ==> lines[i] == NewLines(lines, updates)[i]
    {
      NewLineAt(lines, updates, i);
      RewriteTouches(lines[i], m);
    }
  }

  lemma NewAfterOld(text: string, updates: seq<Update>, last: string)
    requires Distinct(updates) && AllWritable(updates)
    requires |SplitLines(text)| <= |NewLines(SplitLines(text), updates)|
    ensures var after := WithBreaks(NewLines(SplitLines(text), updates), last);
      OtherPieces(after, MapOf(updates)) == OtherPieces(after[..|SplitLines(text)|], MapOf(updates))
  {
    hide NewLines, SplitLines, MapOf, Distinct, AllWritable, AllBreakFree, IsEntry, Key;
    var lines, m := SplitLines(text), MapOf(updates);
    var after := WithBreaks(NewLines(lines, updates), last);
    LinesAreBreakFree(text);
    forall i | |lines| <= i < |after|
      ensures Touches(after[i].line, m)
    {
      NewLineAt(lines, updates, i);
    }
    OthersBefore(after[..|lines|], after[|lines|..], m);
    assert after[..|lines|] + after[|lines|..] == after;
  }

  /**
   * For every text and all updates that can be written: the lines that no update touches keep their bytes and their
   * breaks exactly when each of them is closed with a newline, or is open at the end and nothing is appended to it.
   */
  lemma OthersKeptExactly(text: string, updates: seq<Update>)
    requires Distinct(updates) && AllWritable(updates)
    ensures var m := MapOf(updates);
      OtherPieces(Pieces(SetEnv(text, updates)), m) == OtherPieces(Pieces(text), m)
      <==> forall i :: 0 <= i < |Pieces(text)| && !Touches(Pieces(text)[i].line, m) ==>
             BreakStays(Pieces(text)[i], text, updates)
  {
    hide *;
    PiecesOfResult(text, updates);
    if DropsLast(text, updates) {
      OneIsLost(text, updates);
    } else {
      NoneIsLost(text, updates);
    }
  }

  /** The last line is empty and untouched, and its break is not a newline. */
  lemma LostPiece(text: string, updates: seq<Update>)
    requires DropsLast(text, updates)
    ensures var ps := Pieces(text);
      && |ps| == |SplitLines(text)| > 0 && NothingAppended(text, updates)
      && !Touches(ps[|ps| - 1].line, MapOf(updates)) && !BreakStays(ps[|ps| - 1], text, updates)
  {
    hide Pieces, SplitLines, Parse, MapOf;
    LinesOfPieces(text);
    PieceBreaks(text);
    NoPieces();
  }

  /** The last line is gone, so that one is missing. */
  lemma OneIsLost(text: string, updates: seq<Update>)
    requires Distinct(updates) && AllWritable(updates) && DropsLast(text, updates)
    requires var n := NewLines(SplitLines(text), updates);
      n != [] && Pieces(SetEnv(text, updates)) == WithBreaks(n[..|n| - 1], "\n")
    ensures var m, ps := MapOf(updates), Pieces(text);
      && OtherPieces(Pieces(SetEnv(text, updates)), m) != OtherPieces(ps, m)
      && ps != [] && !Touches(ps[|ps| - 1].line, m) && !BreakStays(ps[|ps| - 1], text, updates)
  {
    LostPiece(text, updates);
    CountNewLines(text, updates);
    hide NewLines, SplitLines, Pieces, MapOf, Distinct, AllWritable, SetEnv, Parse, DropsLast, BreakStays, Touches;
    hide NothingAppended, SameBreaks;
    var m, ps, n := MapOf(updates), Pieces(text), NewLines(SplitLines(text), updates);
    var k := |n| - 1;
    NewBesideOld(text, updates, "\n", k);
    assert WithBreaks(n, "\n")[..k] == WithBreaks(n[..k], "\n");
    OthersSideBySide(ps[..k], WithBreaks(n[..k], "\n"), m);
    assert OtherPieces(ps, m) == OtherPieces(ps[..k], m) + [ps[k]];
  }

  lemma NoneIsLost(text: string, updates: seq<Update>)
    requires Distinct(updates) && AllWritable(updates) && !DropsLast(text, updates)
    requires Pieces(SetEnv(text, updates))
      == WithBreaks(NewLines(SplitLines(text), updates), if EndsWithNewline(text) then "\n" else "")
    ensures var m := MapOf(updates);
      OtherPieces(Pieces(SetEnv(text, updates)), m) == OtherPieces(Pieces(text), m)
      <==> forall i :: 0 <= i < |Pieces(text)| && !Touches(Pieces(text)[i].line, m) ==>
             BreakStays(Pieces(text)[i], text, updates)
  {
    hide NewLines, SplitLines, Pieces, MapOf, Distinct, AllWritable, SetEnv, Parse, Touches, OtherPieces, DropsLast;
    var m, ps, n := MapOf(updates), Pieces(text), NewLines(SplitLines(text), updates);
    var last := if EndsWithNewline(text) then "\n" else "";
    var after := WithBreaks(n, last);
    LinesOfPieces(text);
    PieceBreaks(text);
    CountNewLines(text, updates);
    NewBesideOld(text, updates, last, |ps|);
    NewAfterOld(text, updates, last);
    assert ps[..|ps|] == ps;
    OthersSideBySide(ps, after[..|ps|], m);
    assert text == "" ==> ps == [] by { NoPieces(); }
    hide SameOthers, NothingAppended;
    forall i | 0 <= i < |ps|
      ensures ps[i].brk == after[..|ps|][i].brk <==> BreakStays(ps[i], text, updates)
    {
    }
  }

  // Rewriting nothing.

  /** Rewriting nothing keeps the text exactly when its only breaks are newlines. */
  lemma NothingRewritten(text: string)
    ensures SetEnv(text, []) == text <==> OnlyNewlines(text)
  {
    hide SetEnv, Pieces, OnlyNewlines, Touches, Parse;
    OthersKeptExactly(text, []);
    AllAreOthers(Pieces(text));
    AllAreOthers(Pieces(SetEnv(text, [])));
    FlatPieces(text);
    FlatPieces(SetEnv(text, []));
    OnlyNewlinesByPiece(text);
    assert forall line :: !Touches(line, MapOf([])) by { NothingTouched(); }
  }

  lemma NothingTouched()
    ensures forall line :: !Touches(line, MapOf([]))
  {
  }

  lemma {:induction false} AllAreOthers(ps: seq<Piece>)
    ensures OtherPieces(ps, MapOf([])) == ps
  {
    if ps != [] { AllAreOthers(ps[..|ps| - 1]); }
  }

  /** In a text whose only breaks are newlines, all that can change is that an open last line is closed. */
  lemma NewlineTextKept(text: string, updates: seq<Update>)
    requires Distinct(updates) && AllWritable(updates) && OnlyNewlines(text)
    ensures var m, ps := MapOf(updates), Pieces(text);
      OtherPieces(Pieces(SetEnv(text, updates)), m) == OtherPieces(ps, m)
      <==> text == "" || EndsWithNewline(text) || NothingAppended(text, updates) || Touches(ps[|ps| - 1].line, m)
  {
    hide SetEnv, Pieces, MapOf, Distinct, AllWritable, OnlyNewlines, OtherPieces, Touches, NothingAppended;
    OthersKeptExactly(text, updates);
    OnlyNewlinesByPiece(text);
    PieceBreaks(text);
    NoPieces();
  }

  // What can go wrong, on the smallest texts.

  const SET_A := [Update("A", "2")]

  lemma SetA()
    ensures Distinct(SET_A) && AllWritable(SET_A) && MapOf(SET_A) == map["A" := "2"]
    ensures IsEntry("A=1") && Key("A=1") == "A" && Rewrite("A=1", MapOf(SET_A)) == "A=2"
    ensures !Touches("X", MapOf(SET_A)) && !Touches("", MapOf(SET_A))
    ensures Touches("A=1", MapOf(SET_A)) && Touches("A=2", MapOf(SET_A))
  {
    assert !PySpace('A');
    assert !PySpace('1') && !PySpace('2');
    LineReadsBack(Update("A", "1"));
    LineReadsBack(Update("A", "2"));
    assert Line("A", "1") == "A=1" && Line("A", "2") == "A=2";
  }

  /** Two lines, of which one assigns A. */
  lemma TwoLines(lines: seq<string>)
    requires lines == ["X", "A=1"] || lines == ["A=1", ""]
    ensures NewLines(lines, SET_A) == if lines[0] == "X" then ["X", "A=2"] else ["A=2", ""]
  {
    SetA();
    hide IsEntry, Key, Line, MapOf;
    var m := MapOf(SET_A);
    assert lines[..1] == [lines[0]] && lines[..1][..0] == [];
    assert "A" in Parse(lines);
    assert Appended(SET_A, Parse(lines).Keys * m.Keys) == [];
  }

  lemma TwoPieces(line: string, brk: string, line': string, brk': string)
    requires BreakFree(line) && BreakFree(line') && IsLineBreak(brk) && IsLineBreak(brk')
    requires brk == "\r" ==> line' != "" || brk'[0] != '\n'
    ensures var t := line + brk + (line' + brk' + "");
      Pieces(t) == [Piece(line, brk), Piece(line', brk')] && SplitLines(t) == [line, line']
  {
    hide Pieces, SplitLines;
    NoPieces();
    assert line' != "" ==> line'[0] in line';
    PieceStep(line', brk', "");
    PieceStep(line, brk, line' + brk' + "");
    LinesOfPieces(line + brk + (line' + brk' + ""));
  }

  /** The others among two pieces. */
  lemma TwoOthers(p: Piece, q: Piece, m: map<string, string>)
    requires Touches(p.line, m) != Touches(q.line, m)
    ensures OtherPieces([p, q], m) == [if Touches(p.line, m) then q else p]
  {
    hide Touches;
    assert [p, q][..1] == [p] && [p][..0] == [];
    assert OtherPieces([p], m) == if Touches(p.line, m) then [] else [p];
  }

  lemma OneOther(p: Piece, m: map<string, string>)
    ensures Touches(p.line, m) ==> OtherPieces([p], m) == []
  {
  }

  lemma TextsWithX()
    ensures Pieces("X\r\nA=1\n") == [Piece("X", "\r\n"), Piece("A=1", "\n")]
    ensures Pieces("X\nA=2\n") == [Piece("X", "\n"), Piece("A=2", "\n")]
    ensures SplitLines("X\r\nA=1\n") == ["X", "A=1"] && EndsWithNewline("X\r\nA=1\n")
  {
    hide Pieces, SplitLines;
    assert "X\r\nA=1\n" == "X" + "\r\n" + ("A=1" + "\n" + "") && "X\nA=2\n" == "X" + "\n" + ("A=2" + "\n" + "");
    TwoPieces("X", "\r\n", "A=1", "\n");
    TwoPieces("X", "\n", "A=2", "\n");
  }

  lemma JoinTwo(a: string, b: string)
    ensures Join([a, b]) == a + "\n" + b
  {
    JoinOne(b);
  }

  lemma RewritesTwo(text: string, lines: seq<string>, a: string, b: string)
    requires SplitLines(text) == lines && NewLines(lines, SET_A) == [a, b]
    ensures SetEnv(text, SET_A) == a + "\n" + b + if EndsWithNewline(text) then "\n" else ""
  {
    hide SplitLines, NewLines, Join;
    JoinTwo(a, b);
  }

  /** A carriage return before the newline is lost from a line that no update touches. */
  lemma BreakIsChanged()
    ensures SetEnv("X\r\nA=1\n", SET_A) == "X\nA=2\n"
    ensures OtherPieces(Pieces("X\r\nA=1\n"), MapOf(SET_A)) == [Piece("X", "\r\n")]
    ensures OtherPieces(Pieces("X\nA=2\n"), MapOf(SET_A)) == [Piece("X", "\n")]
  {
    hide *;
    TextsWithX();
    SetA();
    TwoLines(["X", "A=1"]);
    RewritesTwo("X\r\nA=1\n", ["X", "A=1"], "X", "A=2");
    assert "X" + "\n" + "A=2" + "\n" == "X\nA=2\n";
    TwoOthers(Piece("X", "\r\n"), Piece("A=1", "\n"), MapOf(SET_A));
    TwoOthers(Piece("X", "\n"), Piece("A=2", "\n"), MapOf(SET_A));
  }

  lemma TextsWithoutX()
    ensures Pieces("A=1\n\r") == [Piece("A=1", "\n"), Piece("", "\r")]
    ensures Pieces("A=2\n") == [Piece("A=2", "\n")]
    ensures SplitLines("A=1\n\r") == ["A=1", ""] && !EndsWithNewline("A=1\n\r")
  {
    hide Pieces, SplitLines;
    NoPieces();
    assert "A=1\n\r" == "A=1" + "\n" + ("" + "\r" + "") && "A=2\n" == "A=2" + "\n" + "";
    TwoPieces("A=1", "\n", "", "\r");
    PieceStep("A=2", "\n", "");
  }

  /** An empty last line that a carriage return closes is lost. */
  lemma LineIsLost()
    ensures SetEnv("A=1\n\r", SET_A) == "A=2\n"
    ensures OtherPieces(Pieces("A=1\n\r"), MapOf(SET_A)) == [Piece("", "\r")]
    ensures OtherPieces(Pieces("A=2\n"), MapOf(SET_A)) == []
  {
    hide *;
    TextsWithoutX();
    SetA();
    TwoLines(["A=1", ""]);
    RewritesTwo("A=1\n\r", ["A=1", ""], "A=2", "");
    assert "A=2" + "\n" + "" + "" == "A=2\n";
    TwoOthers(Piece("A=1", "\n"), Piece("", "\r"), MapOf(SET_A));
    OneOther(Piece("A=2", "\n"), MapOf(SET_A));
  }
}

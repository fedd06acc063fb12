/**
 * The environment text that scripts/zmr-production-image.py rewrites before a deployment.
 *
 * The rewrite works on the stretches between newlines, the checks before and after it on the lines of `splitlines`,
 * which knows more line breaks. The main result says exactly when the two agree: the new text reads back the target,
 * and every other line is kept, exactly when the rewritten stretch holds no second line.
 */
module DeployEnv {
  import opened Basics
  import opened Lines

  const MARK := "GIT_SHA="

  predicate IsSha(s: string) {
    |s| == 40 && forall i :: 0 <= i < 40 ==> '0' <= s[i] <= '9' || 'a' <= s[i] <= 'f'
  }

  predicate Marked(line: string) {
    MARK <= line
  }

  function AfterMark(line: string): string
    requires Marked(line)
  {
    line[|MARK|..]
  }

  /** The values of the marked lines. */
  function Entries(env: seq<string>): seq<string> {
    if env == [] then []
    else
      var last := env[|env| - 1];
      Entries(env[..|env| - 1]) + if Marked(last) then [AfterMark(last)] else []
  }

  function GitSha(env: seq<string>): Result<string> {
    if |Entries(env)| == 1 && IsSha(Entries(env)[0]) then Ok(Entries(env)[0]) else Err("Expected one full GIT_SHA")
  }

  function Unmarked(env: seq<string>): seq<string> {
    if env == [] then []
    else
      var last := env[|env| - 1];
      Unmarked(env[..|env| - 1]) + if Marked(last) then [] else [last]
  }

  /** The lines that are not marked, in any order: the source sorts them to compare them. */
  function StableEnv(env: seq<string>): multiset<string> {
    multiset(Unmarked(env))
  }

  /** The only line that names a revision is `i`, and names `sha`. */
  ghost predicate NamedOnceAt(env: seq<string>, sha: string, i: nat) {
    && i < |env| && env[i] == "GIT_SHA=" + sha
    && forall j :: 0 <= j < |env| && j != i ==> !("GIT_SHA=" <= env[j])
  }

  lemma {:induction false} NoEntries(env: seq<string>)
    ensures Entries(env) == [] <==> forall j :: 0 <= j < |env| ==> !("GIT_SHA=" <= env[j])
  {
    if env != [] { NoEntries(env[..|env| - 1]); }
  }

  lemma {:induction false} OneEntry(env: seq<string>, sha: string)
    ensures Entries(env) == [sha] <==> exists i: nat :: NamedOnceAt(env, sha, i)
  {
    if env != [] {
      var n := |env| - 1;
      OneEntry(env[..n], sha);
      NoEntries(env[..n]);
      LastEntry(env, sha);
      hide Entries, NamedOnceAt;
      if "GIT_SHA=" <= env[n] {
        if i: nat :| NamedOnceAt(env, sha, i) { assert i == n by { NamedHere(env, sha, i); } }
        assert NamedOnceAt(env, sha, n) <==> env[n] == "GIT_SHA=" + sha && Entries(env[..n]) == [] by {
          NamedHere(env, sha, n);
        }
      } else {
        forall i: nat
          ensures NamedOnceAt(env, sha, i) <==> NamedOnceAt(env[..n], sha, i)
        {
          NamedBefore(env, sha, i);
        }
      }
    }
  }

  lemma NamedHere(env: seq<string>, sha: string, i: nat)
    requires env != [] && "GIT_SHA=" <= env[|env| - 1]
    ensures NamedOnceAt(env, sha, i) <==>
      && i == |env| - 1 && env[i] == "GIT_SHA=" + sha
      && forall j :: 0 <= j < |env[..i]| ==> !("GIT_SHA=" <= env[..i][j])
  {
  }

  lemma NamedBefore(env: seq<string>, sha: string, i: nat)
    requires env != [] && !("GIT_SHA=" <= env[|env| - 1])
    ensures NamedOnceAt(env, sha, i) <==> NamedOnceAt(env[..|env| - 1], sha, i)
  {
    var n := |env| - 1;
    assert "GIT_SHA=" <= "GIT_SHA=" + sha;
    assert i < n ==> (env[..n][i] == env[i]);
    assert forall j :: 0 <= j < n ==> env[..n][j] == env[j];
  }

  /** What the last line adds to the entries. */
  lemma LastEntry(env: seq<string>, sha: string)
    requires env != []
    ensures var n := |env| - 1;
      Entries(env) == [sha] <==>
        if "GIT_SHA=" <= env[n] then env[n] == "GIT_SHA=" + sha && Entries(env[..n]) == []
        else Entries(env[..n]) == [sha]
  {
    var n := |env| - 1;
    var before := Entries(env[..n]);
    if Marked(env[n]) {
      assert env[n] == "GIT_SHA=" + AfterMark(env[n]);
      assert Entries(env) == before + [AfterMark(env[n])];
      assert env[n] == "GIT_SHA=" + sha ==> AfterMark(env[n]) == sha;
      hide Entries;
      assert before + [AfterMark(env[n])] == [sha] ==> |before| == 0;
    } else {
      assert Entries(env) == before;
    }
  }

  /**
   * The entry check passes exactly on an environment with one line that names a revision, in forty lower-case digits.
   */
  lemma GitShaExactly(env: seq<string>, sha: string)
    ensures GitSha(env) == Ok(sha) <==>
      && |sha| == 40 && (forall c | c in sha :: c in "0123456789abcdef")
      && exists i: nat :: NamedOnceAt(env, sha, i)
  {
    OneEntry(env, sha);
    HexDigits(sha);
    hide Entries, IsSha, NamedOnceAt;
    assert Entries(env) == [sha] <==> |Entries(env)| == 1 && Entries(env)[0] == sha;
  }

  lemma HexDigits(sha: string)
    ensures IsSha(sha) <==> |sha| == 40 && forall c | c in sha :: c in "0123456789abcdef"
  {
    forall c: char
      ensures ('0' <= c <= '9' || 'a' <= c <= 'f') <==> c in "0123456789abcdef"
    {
      HexDigit(c);
    }
    assert forall i :: 0 <= i < |sha| ==> sha[i] in sha;
  }

  lemma HexDigit(c: char)
    ensures ('0' <= c <= '9' || 'a' <= c <= 'f') <==> c in "0123456789abcdef"
  {
  }

  /** What the comparison looks at: every line but those that name a revision, as often as it occurs. */
  lemma {:induction false} StableEnvCounts(env: seq<string>, line: string)
    ensures StableEnv(env)[line] == if "GIT_SHA=" <= line then 0 else multiset(env)[line]
  {
    if env != [] {
      StableEnvCounts(env[..|env| - 1], line);
      assert env == env[..|env| - 1] + [env[|env| - 1]];
    }
  }

  /** How far it is to the next newline, or to the end. */
  function Stretch(t: string): (n: nat)
    ensures n <= |t| && (n < |t| ==> t[n] == '\n')
  {
    if t == "" || t[0] == '\n' then 0 else 1 + Stretch(t[1..])
  }

  /** The substitution of every marked stretch. */
  function Rewrite(t: string, sha: string): string
    decreases |t|
  {
    var n := Stretch(t);
    var first := if Marked(t[..n]) then MARK + sha else t[..n];
    if n == |t| then first else first + "\n" + Rewrite(t[n + 1..], sha)
  }

  /** How many substitutions are made. */
  function Count(t: string): nat
    decreases |t|
  {
    var n := Stretch(t);
    (if Marked(t[..n]) then 1 else 0) + if n == |t| then 0 else Count(t[n + 1..])
  }

  /**
   * After the digits the first marked stretch holds nothing, or a carriage return that belongs to its newline, or, at
   * the end of the text, one break of any kind.
   */
  predicate OwnLine(t: string)
    decreases |t|
  {
    var n := Stretch(t);
    if Marked(t[..n]) then
      var rest := t[..n][|MARK|..];
      |rest| == 40 || (|rest| == 41 && (n == |t| || rest[40] == '\r'))
    else n < |t| && OwnLine(t[n + 1..])
  }

  // Lines of a text in two parts.

  lemma {:induction false} EntriesOfBoth(a: seq<string>, b: seq<string>)
    ensures Entries(a + b) == Entries(a) + Entries(b)
  {
    hide Marked, AfterMark;
    if b == [] {
      assert a + b == a;
    } else {
      EntriesOfBoth(a, b[..|b| - 1]);
      assert (a + b)[..|a + b| - 1] == a + b[..|b| - 1];
    }
  }

  lemma {:induction false} UnmarkedOfBoth(a: seq<string>, b: seq<string>)
    ensures Unmarked(a + b) == Unmarked(a) + Unmarked(b)
  {
    hide Marked, AfterMark;
    if b == [] {
      assert a + b == a;
    } else {
      UnmarkedOfBoth(a, b[..|b| - 1]);
      assert (a + b)[..|a + b| - 1] == a + b[..|b| - 1];
    }
  }

  lemma MarkedFirst(env: seq<string>)
    requires env != [] && Marked(env[0])
    ensures Entries(env) == [AfterMark(env[0])] + Entries(env[1..])
    ensures Unmarked(env) == Unmarked(env[1..])
  {
    hide Marked, AfterMark;
    assert env == [env[0]] + env[1..] && [env[0]][..0] == [];
    EntriesOfBoth([env[0]], env[1..]);
    UnmarkedOfBoth([env[0]], env[1..]);
  }

  lemma {:induction false} NoneMarked(env: seq<string>)
    requires Entries(env) == []
    ensures Unmarked(env) == env
  {
    hide Marked, AfterMark;
    if env != [] { NoneMarked(env[..|env| - 1]); }
  }

  /** The lines of the first stretch, read with the newline that ends it. */
  function FirstLines(t: string): seq<string> {
    var n := Stretch(t);
    SplitLines(t[..n] + if n == |t| then "" else "\n")
  }

  lemma AtNewline(t: string, n: nat)
    requires n < |t| && t[n] == '\n'
    ensures t == t[..n] + "\n" + t[n + 1..]
  {
    assert "\n" == [t[n]];
  }

  lemma SplitStretch(t: string)
    ensures var n := Stretch(t);
      SplitLines(t) == FirstLines(t) + if n == |t| then [] else SplitLines(t[n + 1..])
  {
    hide SplitLines, Stretch;
    var n := Stretch(t);
    if n == |t| {
      assert t[..n] + "" == t;
    } else {
      AtNewline(t, n);
      SplitAfterNewline(t[..n] + "\n", t[n + 1..]);
    }
  }

  /** A marked stretch is replaced by one line. */
  lemma SplitReplaced(sha: string, rest: string)
    requires BreakFree(sha)
    ensures SplitLines(MARK + sha) == [MARK + sha]
    ensures SplitLines(MARK + sha + "\n" + rest) == [MARK + sha] + SplitLines(rest)
  {
    hide SplitLines;
    assert BreakFree(MARK + sha) by { assert BreakFree(MARK); }
    SplitOne(MARK + sha);
    SplitFirst(MARK + sha, rest);
  }

  lemma SplitKept(x: string, rest: string)
    ensures SplitLines(x + "\n" + rest) == SplitLines(x + "\n") + SplitLines(rest)
  {
    hide SplitLines;
    SplitAfterNewline(x + "\n", rest);
  }

  lemma SplitRewritten(t: string, sha: string)
    requires BreakFree(sha)
    ensures var n := Stretch(t);
      SplitLines(Rewrite(t, sha))
      == (if Marked(t[..n]) then [MARK + sha] else FirstLines(t))
         + if n == |t| then [] else SplitLines(Rewrite(t[n + 1..], sha))
  {
    hide SplitLines, Stretch, BreakFree, Marked;
    var n := Stretch(t);
    if n == |t| {
      SplitReplaced(sha, "");
      assert t[..n] + "" == t[..n];
    } else {
      hide Rewrite;
      var rest := Rewrite(t[n + 1..], sha);
      RewriteStep(t, sha);
      if Marked(t[..n]) {
        SplitReplaced(sha, rest);
      } else {
        SplitKept(t[..n], rest);
      }
    }
  }

  lemma RewriteStep(t: string, sha: string)
    requires Stretch(t) < |t|
    ensures var n := Stretch(t);
      Rewrite(t, sha) == (if Marked(t[..n]) then MARK + sha else t[..n]) + "\n" + Rewrite(t[n + 1..], sha)
  {
    hide Stretch, Marked;
  }

  lemma {:induction false} LineStopsAt(x: string, y: string)
    requires y == "" || IsBreak(y[0])
    ensures LineLength(x + y) <= |x|
  {
    if x == [] {
      assert x + y == y;
    } else {
      assert (x + y)[1..] == x[1..] + y;
      LineStopsAt(x[1..], y);
    }
  }

  /** A marked stretch begins with a marked line. */
  lemma FirstLineIsMarked(t: string)
    requires Marked(t[..Stretch(t)])
    ensures FirstLines(t) != [] && Marked(FirstLines(t)[0])
    ensures FirstLines(t)[0] <= t[..Stretch(t)]
  {
    hide Stretch;
    var n := Stretch(t);
    var s, y := t[..n], if n == |t| then "" else "\n";
    LineStopsAt(s, y);
    assert s + y == MARK + (s[|MARK|..] + y);
    assert BreakFree(MARK);
    LongerLine(MARK, s[|MARK|..] + y);
    FirstOfSplit(s + y);
  }

  lemma FirstOfSplit(t: string)
    requires t != ""
    ensures SplitLines(t) != [] && SplitLines(t)[0] == t[..LineLength(t)]
  {
  }

  // The rewrite.

  lemma {:induction false} AtLeastCount(t: string)
    ensures Count(t) <= |Entries(SplitLines(t))|
    decreases |t|
  {
    hide SplitLines, Stretch, FirstLines, Marked;
    var n := Stretch(t);
    var first := FirstLines(t);
    SplitStretch(t);
    if n < |t| {
      AtLeastCount(t[n + 1..]);
      EntriesOfBoth(first, SplitLines(t[n + 1..]));
    } else {
      EntriesOfBoth(first, []);
    }
    if Marked(t[..n]) {
      FirstLineIsMarked(t);
      MarkedFirst(first);
    }
  }

  lemma {:induction false} NothingToRewrite(t: string, sha: string)
    requires Count(t) == 0
    ensures Rewrite(t, sha) == t
    decreases |t|
  {
    hide Stretch, Marked;
    var n := Stretch(t);
    if n < |t| {
      NothingToRewrite(t[n + 1..], sha);
      AtNewline(t, n);
    } else {
      assert t[..n] == t;
    }
  }

  /** The lines that the first marked stretch holds after its marked line. */
  function Lost(t: string): seq<string>
    decreases |t|
  {
    var n := Stretch(t);
    if Marked(t[..n]) then (if FirstLines(t) == [] then [] else FirstLines(t)[1..])
    else if n < |t| then Lost(t[n + 1..])
    else []
  }

  lemma {:induction false} NoNewlineWithin(t: string)
    ensures '\n' !in t[..Stretch(t)]
  {
    if t != "" && t[0] != '\n' {
      NoNewlineWithin(t[1..]);
      assert t[..Stretch(t)] == [t[0]] + t[1..][..Stretch(t[1..])];
    }
  }

  lemma SplitBreak(x: string, y: string)
    requires BreakFree(x) && y != "" && IsBreak(y[0])
    ensures SplitLines(x + y) == [x] + SplitLines(y[BreakLength(y)..])
  {
    SplitStep(x, y);
  }

  lemma SplitSome(t: string)
    ensures SplitLines(t) == [] <==> t == ""
  {
  }

  /** A line, then more of its stretch, then perhaps a newline: when is it one line? */
  lemma OneLine(line: string, after: string, closed: bool)
    requires BreakFree(line) && line != "" && '\n' !in after && (after == "" || IsBreak(after[0]))
    ensures var lines := SplitLines(line + after + if closed then "\n" else "");
      && lines != [] && lines[0] == line
      && (|lines| == 1 <==> after == "" || (|after| == 1 && (!closed || after[0] == '\r')))
  {
    hide SplitLines;
    var end := if closed then "\n" else "";
    var y := after + end;
    assert line + after + end == line + y;
    if y == "" {
      SplitOne(line);
      assert line + y == line;
    } else {
      SplitBreak(line, y);
      SplitSome(y[BreakLength(y)..]);
      if |after| > 1 { assert y[1] == after[1] && after[1] in after; }
      assert |y| == |after| + |end|;
    }
  }

  lemma OwnLineExactly(t: string)
    requires var n := Stretch(t); Marked(t[..n])
    requires FirstLines(t) != [] && |FirstLines(t)[0]| == |MARK| + 40
    ensures OwnLine(t) <==> |FirstLines(t)| == 1
  {
    hide SplitLines, Stretch, IsBreak, BreakFree;
    var n := Stretch(t);
    var s, end := t[..n], if n == |t| then "" else "\n";
    NoNewlineWithin(t);
    LineStopsAt(s, end) by { NewlineBreaks(); }
    FirstOfSplit(s + end) by { assert s != ""; }
    LineIsBreakFree(s + end);
    var k := LineLength(s + end);
    var line, after := s[..k], s[k..];
    assert k == |MARK| + 40;
    assert (s + end)[..k] == line && s == line + after;
    assert after != "" ==> (s + end)[k] == after[0];
    OneLine(line, after, n < |t|);
  }

  lemma NewlineBreaks()
    ensures IsBreak('\n')
  {
  }

  lemma NothingMarked()
    ensures Entries([]) == [] && Unmarked([]) == []
  {
  }

  /** The lines after the first stretch, before and after the rewrite. */
  function Later(t: string): seq<string> {
    var n := Stretch(t);
    if n < |t| then SplitLines(t[n + 1..]) else []
  }

  function LaterRewritten(t: string, sha: string): seq<string> {
    var n := Stretch(t);
    if n < |t| then SplitLines(Rewrite(t[n + 1..], sha)) else []
  }

  lemma LaterEntries(t: string, sha: string)
    ensures var n := Stretch(t);
      && Count(t) - (if Marked(t[..n]) then 1 else 0) <= |Entries(Later(t))|
      && (Count(t) == (if Marked(t[..n]) then 1 else 0) ==> LaterRewritten(t, sha) == Later(t))
  {
    hide SplitLines, Stretch, Marked, Rewrite, Entries;
    NothingMarked();
    var n := Stretch(t);
    if n < |t| {
      AtLeastCount(t[n + 1..]);
      if Count(t[n + 1..]) == 0 { NothingToRewrite(t[n + 1..], sha); }
    }
  }

  lemma RewriteMarked(t: string, sha: string)
    requires IsSha(sha) && GitSha(SplitLines(t)).Ok? && Marked(t[..Stretch(t)])
    ensures Entries(SplitLines(Rewrite(t, sha))) == [sha]
    ensures Unmarked(SplitLines(t)) == FirstLines(t)[1..] + Unmarked(SplitLines(Rewrite(t, sha)))
    ensures FirstLines(t) != [] && (OwnLine(t) <==> |FirstLines(t)| == 1)
  {
    hide SplitLines, Stretch, FirstLines, Marked, AfterMark, IsSha, Rewrite, Entries, Unmarked, OwnLine;
    var first, later := FirstLines(t), Later(t);
    ShaIsBreakFree(sha);
    SplitStretch(t);
    SplitRewritten(t, sha);
    EntriesOfBoth(first, later);
    UnmarkedOfBoth(first, later);
    LaterEntries(t, sha);
    FirstLineIsMarked(t);
    MarkedFirst(first);
    NoneMarked(first[1..]);
    MarkReadsBack(sha);
    MarkedFirst([MARK + sha] + later);
    assert ([MARK + sha] + later)[1..] == later;
    EntryLength(t);
    OwnLineExactly(t);
  }

  lemma RewriteLater(t: string, sha: string)
    requires IsSha(sha) && GitSha(SplitLines(t)).Ok? && Count(t) == 1 && !Marked(t[..Stretch(t)])
    ensures Stretch(t) < |t|
    ensures Entries(Later(t)) == Entries(SplitLines(t))
    ensures Entries(SplitLines(Rewrite(t, sha))) == Entries(LaterRewritten(t, sha))
    ensures Unmarked(SplitLines(t)) == FirstLines(t) + Unmarked(Later(t))
    ensures Unmarked(SplitLines(Rewrite(t, sha))) == FirstLines(t) + Unmarked(LaterRewritten(t, sha))
  {
    hide SplitLines, Stretch, FirstLines, Marked, AfterMark, IsSha, Rewrite, Entries, Unmarked;
    var first, later := FirstLines(t), Later(t);
    ShaIsBreakFree(sha);
    SplitStretch(t);
    SplitRewritten(t, sha);
    EntriesOfBoth(first, later);
    UnmarkedOfBoth(first, later);
    LaterEntries(t, sha);
    NoneMarked(first);
    EntriesOfBoth(first, LaterRewritten(t, sha));
    UnmarkedOfBoth(first, LaterRewritten(t, sha));
  }

  /**
   * A text with one full entry that begins a stretch: the rewritten text reads back the target, and the lines that are
   * lost are exactly those that shared the entry's stretch.
   */
  lemma {:induction false} RewriteExactly(t: string, sha: string)
    requires IsSha(sha) && GitSha(SplitLines(t)).Ok? && Count(t) == 1
    ensures Entries(SplitLines(Rewrite(t, sha))) == [sha]
    ensures StableEnv(SplitLines(t)) == StableEnv(SplitLines(Rewrite(t, sha))) + multiset(Lost(t))
    ensures OwnLine(t) <==> Lost(t) == []
    decreases |t|
  {
    hide SplitLines, Stretch, FirstLines, Marked, AfterMark, IsSha, Rewrite, Entries, Unmarked;
    if Marked(t[..Stretch(t)]) {
      RewriteMarked(t, sha);
    } else {
      RewriteLater(t, sha);
      RewriteExactly(t[Stretch(t) + 1..], sha);
    }
  }

  /** The checks made on the new text accept it: it names the target, and it has the old text's other lines. */
  lemma DriftCheckAccepts(t: string, sha: string)
    requires IsSha(sha) && GitSha(SplitLines(t)).Ok? && Count(t) == 1
    ensures GitSha(SplitLines(Rewrite(t, sha))) == Ok(sha)
    ensures StableEnv(SplitLines(Rewrite(t, sha))) == StableEnv(SplitLines(t)) <==> OwnLine(t)
  {
    hide SplitLines, Rewrite, Entries, Unmarked, OwnLine, Lost, IsSha;
    RewriteExactly(t, sha);
    var a, b, lost := StableEnv(SplitLines(t)), StableEnv(SplitLines(Rewrite(t, sha))), Lost(t);
    if lost != [] { assert lost[0] in multiset(lost) && a[lost[0]] != b[lost[0]]; }
  }

  /** A text that passed the check of its entry is never rewritten twice. */
  lemma AtMostOneRewrite(t: string)
    requires GitSha(SplitLines(t)).Ok?
    ensures Count(t) <= 1
  {
    AtLeastCount(t);
  }

  lemma ShaIsBreakFree(sha: string)
    requires IsSha(sha)
    ensures BreakFree(sha)
  {
  }

  lemma MarkReadsBack(sha: string)
    ensures Marked(MARK + sha) && AfterMark(MARK + sha) == sha
  {
  }

  lemma EntryLength(t: string)
    requires FirstLines(t) != [] && Marked(FirstLines(t)[0]) && IsSha(AfterMark(FirstLines(t)[0]))
    ensures |FirstLines(t)[0]| == |MARK| + 40
  {
  }

  lemma {:induction false} StretchOf(x: string, y: string)
    requires '\n' !in x
    ensures Stretch(x + y) == |x| + Stretch(y)
  {
    if x == [] {
      assert x + y == y;
    } else {
      assert (x + y)[1..] == x[1..] + y && x[0] in x && (forall c | c in x[1..] :: c in x);
      StretchOf(x[1..], y);
    }
  }

  /** A vertical tab after the entry: an empty line is lost, and the check after the update refuses the new text. */
  lemma LoneBreakIsRefused(sha: string) returns (t: string)
    requires IsSha(sha)
    ensures GitSha(SplitLines(t)) == Ok(sha) && Count(t) == 1
    ensures StableEnv(SplitLines(Rewrite(t, sha))) != StableEnv(SplitLines(t))
  {
    hide SplitLines, AfterMark, IsSha, Rewrite, Entries, Unmarked, Lost, Stretch;
    var line, after := MARK + sha, "\U{B}";
    t := line + after + "\n";
    ShaIsBreakFree(sha);
    assert BreakFree(line) by { assert BreakFree(MARK); }
    assert '\n' !in line + after by { assert IsBreak('\n'); }
    StretchOf(line + after, "\n");
    assert Stretch("\n") == 0 && t[|line + after| + 1..] == "" by { StretchOfNewline(); }
    assert t[..|line + after|] == line + after;
    assert Count("") == 0 by { CountOfNothing(); }
    assert t == line + (after + "\n") && (after + "\n")[1..] == "\n";
    SplitBreak(line, after + "\n");
    SplitFirst("", "");
    SplitEmpty();
    assert "" + "\n" + "" == "\n";
    MarkReadsBack(sha);
    MarkedFirst([line, ""]);
    assert Entries([""]) == [] by { EntriesOfEmptyLine(); }
    assert [line] + [""] == [line, ""] && [line, ""][1..] == [""];
    assert SplitLines(t) == [line, ""] && Entries(SplitLines(t)) == [sha];
    assert Marked(line + after);
    DriftCheckAccepts(t, sha);
    assert |(line + after)[|MARK|..]| == 40 + 1 by { ShaLength(sha); }
    assert (line + after)[|MARK|..][40] == '\U{B}' by { ShaLength(sha); }
  }

  lemma StretchOfNewline()
    ensures Stretch("\n") == 0
  {
  }

  lemma CountOfNothing()
    ensures Count("") == 0
  {
  }

  lemma EntriesOfEmptyLine()
    ensures Entries([""]) == []
  {
    assert [""][..0] == [];
  }

  lemma ShaLength(sha: string)
    requires IsSha(sha)
    ensures |sha| == 40
  {
  }
}

/**
 * Reading and rewriting environment files in scripts/readiness-keeper/keeper.py.
 *
 * The main result is a round trip: parsing the rewritten text gives the old map overridden by the updates, for every
 * text, exactly when every update can be written on a line of its own.
 */
module KeeperEnv {
  import opened Basics
  import opened Strings
  import opened Lines

  /** A line that assigns: it holds an equals sign and is not a comment. */
  predicate IsEntry(line: string) {
    '=' in line && !StartsComment(TrimLeft(PySpace, line))
  }

  predicate StartsComment(s: string) {
    s != [] && s[0] == '#'
  }

  /** The position of the first equals sign. */
  function EqualsAt(line: string): (n: nat)
    requires '=' in line
    ensures n < |line| && line[n] == '='
  {
    if line[0] == '=' then 0 else 1 + EqualsAt(line[1..])
  }

  function Key(line: string): string
    requires '=' in line
  {
    Trim(PySpace, line[..EqualsAt(line)])
  }

  function Value(line: string): string
    requires '=' in line
  {
    line[EqualsAt(line) + 1..]
  }

  function With(env: map<string, string>, line: string): map<string, string> {
    if IsEntry(line) then env[Key(line) := Value(line)] else env
  }

  /** The map that the lines define; later lines win. */
  function Parse(lines: seq<string>): map<string, string> {
    if lines == [] then map[] else With(Parse(lines[..|lines| - 1]), lines[|lines| - 1])
  }

  method ParseEnv(text: string) returns (out: map<string, string>)
    ensures out == Parse(SplitLines(text))
  {
    hide SplitLines, With;
    out := map[];
    var lines := SplitLines(text);
    for i := 0 to |lines|
      invariant out == Parse(lines[..i])
    {
      out := With(out, lines[i]);
      assert lines[..i + 1][..i] == lines[..i];
    }
    assert lines[..|lines|] == lines;
  }

  /** One item of the dictionary of updates; `Distinct` because it is a dictionary. */
  datatype Update = Update(key: string, value: string)

  ghost predicate Distinct(updates: seq<Update>) {
    forall i, j :: 0 <= i < j < |updates| ==> updates[i].key != updates[j].key
  }

  function MapOf(updates: seq<Update>): map<string, string> {
    if updates == [] then map[]
    else
      var last := updates[|updates| - 1];
      MapOf(updates[..|updates| - 1])[last.key := last.value]
  }

  function Line(key: string, value: string): string {
    key + "=" + value
  }

  function Rewrite(line: string, updates: map<string, string>): string {
    if IsEntry(line) && Key(line) in updates then Line(Key(line), updates[Key(line)]) else line
  }

  function Rewritten(lines: seq<string>, updates: map<string, string>): (r: seq<string>)
    ensures |r| == |lines|
  {
    seq(|lines|, i requires 0 <= i < |lines| => Rewrite(lines[i], updates))
  }

  /** The lines for the updates whose key was not seen, in order. */
  function Appended(updates: seq<Update>, seen: set<string>): seq<string> {
    if updates == [] then []
    else
      var last := updates[|updates| - 1];
      Appended(updates[..|updates| - 1], seen) + if last.key in seen then [] else [Line(last.key, last.value)]
  }

  function NewLines(lines: seq<string>, updates: seq<Update>): seq<string> {
    var env := MapOf(updates);
    Rewritten(lines, env) + Appended(updates, Parse(lines).Keys * env.Keys)
  }

  function SetEnv(text: string, updates: seq<Update>): string {
    Join(NewLines(SplitLines(text), updates)) + if EndsWithNewline(text) then "\n" else ""
  }

  method SetEnvLines(text: string, updates: seq<Update>) returns (r: string)
    ensures r == SetEnv(text, updates)
  {
    hide SplitLines, Key, Value, Line, Join;
    ghost var was := SplitLines(text);
    var env := MapOf(updates);
    var lines, seen := SplitLines(text), {};
    for i := 0 to |lines|
      invariant |lines| == |was|
      invariant forall j | 0 <= j < i :: lines[j] == Rewrite(was[j], env)
      invariant forall j | i <= j < |lines| :: lines[j] == was[j]
      invariant seen == Parse(was[..i]).Keys * env.Keys
    {
      assert was[..i + 1][..i] == was[..i];
      assert Parse(was[..i + 1]) == With(Parse(was[..i]), was[i]);
      if IsEntry(lines[i]) {
        var k := Key(lines[i]);
        if k in env {
          lines := lines[i := Line(k, env[k])];
          seen := seen + {k};
        }
      }
    }
    assert was[..|was|] == was;
    assert lines == Rewritten(was, env);
    var n := 0;
    while n < |updates|
      invariant n <= |updates|
      invariant lines == Rewritten(was, env) + Appended(updates[..n], seen)
    {
      assert updates[..n + 1][..n] == updates[..n];
      if updates[n].key !in seen {
        lines := lines + [Line(updates[n].key, updates[n].value)];
      }
      n := n + 1;
    }
    assert updates[..|updates|] == updates;
    r := Join(lines) + if EndsWithNewline(text) then "\n" else "";
  }

  /** An update that survives being written on a line and read back. */
  ghost predicate Writable(u: Update) {
    WritableKey(u.key) && BreakFree(u.value)
  }

  ghost predicate WritableKey(key: string) {
    Trimmed(PySpace, key) && '=' !in key && !StartsComment(key) && BreakFree(key)
  }

  ghost predicate AllWritable(updates: seq<Update>) {
    forall i :: 0 <= i < |updates| ==> Writable(updates[i])
  }

  // One line.

  lemma {:induction false} EqualsAfter(x: string, y: string)
    requires '=' !in x && '=' in y
    ensures '=' in x + y && EqualsAt(x + y) == |x| + EqualsAt(y)
  {
    assert '=' in x + y;
    if x == [] {
      assert x + y == y;
    } else {
      assert x[0] in x && (forall c | c in x[1..] :: c in x);
      EqualsAfter(x[1..], y);
      assert (x + y)[1..] == x[1..] + y;
    }
  }

  /** A line written for an update is an entry with the update's key and value. */
  lemma LineReadsBack(u: Update)
    requires Writable(u)
    ensures var line := Line(u.key, u.value);
      line != "" && BreakFree(line) && IsEntry(line) && Key(line) == u.key && Value(line) == u.value
  {
    hide BreakFree, PySpace, EqualsAt, TrimLeft, TrimRight;
    var line := Line(u.key, u.value);
    assert line == u.key + ("=" + u.value);
    EqualsAfter(u.key, "=" + u.value);
    assert EqualsAt(line) == |u.key| by { EqualsFirst(u.value); }
    assert line[..|u.key|] == u.key && line[|u.key| + 1..] == u.value;
    assert Key(line) == u.key by { TrimOfTrimmed(PySpace, u.key); }
    assert line[0] == if u.key == "" then '=' else u.key[0];
    NothingToTrim(line);
    LineIsBreakFreeToo(u);
  }

  lemma EqualsFirst(y: string)
    ensures EqualsAt("=" + y) == 0
  {
  }

  lemma NothingToTrim(line: string)
    requires line != "" && (line[0] == '=' || !PySpace(line[0]))
    ensures TrimLeft(PySpace, line) == line
  {
  }

  lemma LineIsBreakFreeToo(u: Update)
    requires BreakFree(u.key) && BreakFree(u.value)
    ensures BreakFree(Line(u.key, u.value))
  {
  }

  lemma {:induction false} TrimLeftMore(x: string, y: string)
    requires TrimLeft(PySpace, x) != []
    ensures TrimLeft(PySpace, x + y) == TrimLeft(PySpace, x) + y
  {
    if PySpace(x[0]) {
      TrimLeftMore(x[1..], y);
      assert (x + y)[1..] == x[1..] + y;
    }
  }

  lemma {:induction false} TrimLeftMembers(s: string)
    ensures forall c | c in TrimLeft(PySpace, s) :: c in s
  {
    if s != [] && PySpace(s[0]) { TrimLeftMembers(s[1..]); }
  }

  lemma {:induction false} TrimRightMembers(s: string)
    ensures forall c | c in TrimRight(PySpace, s) :: c in s
  {
    if s != [] && PySpace(s[|s| - 1]) { TrimRightMembers(s[..|s| - 1]); }
  }

  lemma {:induction false} FirstEquals(line: string)
    requires '=' in line
    ensures '=' !in line[..EqualsAt(line)]
  {
    if line[0] != '=' {
      FirstEquals(line[1..]);
      assert line[..EqualsAt(line)] == [line[0]] + line[1..][..EqualsAt(line[1..])];
    }
  }

  lemma PartIsBreakFree(part: string, line: string)
    requires BreakFree(line) && forall c | c in part :: c in line
    ensures BreakFree(part)
  {
  }

  /** What an entry is read as can be written back. */
  lemma EntryIsWritable(line: string)
    requires BreakFree(line) && IsEntry(line)
    ensures Writable(Update(Key(line), Value(line)))
  {
    hide BreakFree, PySpace, TrimLeft, TrimRight, EqualsAt;
    var x, y := line[..EqualsAt(line)], line[EqualsAt(line)..];
    assert line == x + y;
    var left := TrimLeft(PySpace, x);
    var key := Key(line);
    TrimIsTrimmed(PySpace, x);
    FirstEquals(line);
    TrimLeftMembers(x);
    TrimRightMembers(left);
    PartIsBreakFree(key, line);
    PartIsBreakFree(Value(line), line);
    TrimRightEnds(PySpace, left);
    if key != "" {
      assert key[0] in left;
      TrimLeftMore(x, y);
      assert key[0] == left[0];
    }
  }

  // All lines.

  lemma {:induction false} ParsedIsWritable(lines: seq<string>)
    requires AllBreakFree(lines)
    ensures forall k | k in Parse(lines) :: Writable(Update(k, Parse(lines)[k]))
  {
    hide BreakFree, Key, Value, Writable;
    if lines != [] {
      ParsedIsWritable(lines[..|lines| - 1]);
      var line := lines[|lines| - 1];
      assert BreakFree(line);
      if IsEntry(line) { EntryIsWritable(line); }
    }
  }

  lemma {:induction false} MapOfAt(updates: seq<Update>, i: nat)
    requires i < |updates| && Distinct(updates)
    ensures updates[i].key in MapOf(updates) && MapOf(updates)[updates[i].key] == updates[i].value
  {
    if i < |updates| - 1 { MapOfAt(updates[..|updates| - 1], i); }
  }

  lemma {:induction false} MapOfFrom(updates: seq<Update>, k: string) returns (i: nat)
    requires k in MapOf(updates)
    ensures i < |updates| && updates[i].key == k
  {
    if k == updates[|updates| - 1].key {
      i := |updates| - 1;
    } else {
      i := MapOfFrom(updates[..|updates| - 1], k);
    }
  }

  lemma WritableAt(updates: seq<Update>, k: string)
    requires Distinct(updates) && AllWritable(updates) && k in MapOf(updates)
    ensures Writable(Update(k, MapOf(updates)[k]))
  {
    hide Writable, MapOf;
    var i := MapOfFrom(updates, k);
    MapOfAt(updates, i);
    assert updates[i] == Update(k, MapOf(updates)[k]);
  }

  /** The map with the values for the keys it has replaced. */
  function Override(env: map<string, string>, m: map<string, string>): map<string, string> {
    map k | k in env :: if k in m then m[k] else env[k]
  }

  ghost predicate MapWritable(m: map<string, string>) {
    forall k | k in m :: Writable(Update(k, m[k]))
  }

  lemma {:induction false} ParseRewritten(lines: seq<string>, m: map<string, string>)
    requires MapWritable(m)
    ensures Parse(Rewritten(lines, m)) == Override(Parse(lines), m)
  {
    hide Key, Value, Writable, Line, TrimLeft, StartsComment;
    if lines != [] {
      var init, line := lines[..|lines| - 1], lines[|lines| - 1];
      ParseRewritten(init, m);
      assert Rewritten(lines, m)[..|lines| - 1] == Rewritten(init, m);
      if IsEntry(line) && Key(line) in m {
        LineReadsBack(Update(Key(line), m[Key(line)]));
      }
    }
  }

  lemma {:induction false} MapOfKeys(updates: seq<Update>)
    requires Distinct(updates) && AllWritable(updates)
    ensures MapWritable(MapOf(updates))
  {
    hide Writable, MapOf, AllWritable, Distinct;
    forall k | k in MapOf(updates)
      ensures Writable(Update(k, MapOf(updates)[k]))
    {
      WritableAt(updates, k);
    }
  }

  lemma WritableParts(updates: seq<Update>)
    requires Distinct(updates) && AllWritable(updates) && updates != []
    ensures Distinct(updates[..|updates| - 1]) && AllWritable(updates[..|updates| - 1])
    ensures Writable(updates[|updates| - 1])
  {
  }

  lemma ParseWritten(lines: seq<string>, u: Update)
    requires Writable(u)
    ensures Parse(lines + [Line(u.key, u.value)]) == Parse(lines)[u.key := u.value]
  {
    hide IsEntry, Key, Value, Writable, Line;
    var line := Line(u.key, u.value);
    LineReadsBack(u);
    assert (lines + [line])[..|lines|] == lines;
  }

  lemma {:induction false} ParseAppended(lines: seq<string>, updates: seq<Update>, seen: set<string>)
    requires Distinct(updates) && AllWritable(updates)
    ensures Parse(lines + Appended(updates, seen)) == Parse(lines) + (MapOf(updates) - seen)
  {
    hide Parse, Writable, Line, Distinct, AllWritable;
    if updates == [] {
      assert lines + [] == lines;
    } else {
      var init, last := updates[..|updates| - 1], updates[|updates| - 1];
      WritableParts(updates);
      ParseAppended(lines, init, seen);
      var a := lines + Appended(init, seen);
      if last.key in seen {
        assert MapOf(updates) - seen == MapOf(init) - seen;
        assert lines + Appended(updates, seen) == a;
      } else {
        ParseWritten(a, last);
        assert lines + Appended(updates, seen) == a + [Line(last.key, last.value)];
        assert MapOf(updates) - seen == (MapOf(init) - seen)[last.key := last.value];
      }
    }
  }

  lemma ParseNewLines(lines: seq<string>, updates: seq<Update>)
    requires Distinct(updates) && AllWritable(updates)
    ensures Parse(NewLines(lines, updates)) == Parse(lines) + MapOf(updates)
  {
    hide Parse, Rewritten, Appended, MapOf, Distinct, AllWritable, MapWritable;
    var m, p := MapOf(updates), Parse(lines);
    MapOfKeys(updates);
    ParseRewritten(lines, m);
    ParseAppended(Rewritten(lines, m), updates, p.Keys * m.Keys);
    assert Override(p, m) + (m - p.Keys * m.Keys) == p + m;
  }

  // The text of all lines.

  lemma {:induction false} AppendedLine(updates: seq<Update>, seen: set<string>, j: nat) returns (i: nat)
    requires j < |Appended(updates, seen)|
    ensures i < |updates| && updates[i].key !in seen
    ensures Appended(updates, seen)[j] == Line(updates[i].key, updates[i].value)
  {
    hide Line;
    var init := updates[..|updates| - 1];
    if j < |Appended(init, seen)| {
      i := AppendedLine(init, seen, j);
    } else {
      i := |updates| - 1;
    }
  }

  lemma {:induction false} AppendedNone(updates: seq<Update>, seen: set<string>)
    ensures Appended(updates, seen) == [] <==> forall i :: 0 <= i < |updates| ==> updates[i].key in seen
  {
    hide Line;
    if updates != [] {
      var init := updates[..|updates| - 1];
      AppendedNone(init, seen);
      assert forall i :: 0 <= i < |updates| ==> (updates[i] == if i < |init| then init[i] else updates[|init|]);
    }
  }

  /** A line of the new text: an old line, perhaps rewritten, or an update's line. */
  lemma NewLineAt(lines: seq<string>, updates: seq<Update>, j: nat)
    requires AllBreakFree(lines) && Distinct(updates) && AllWritable(updates)
    requires j < |NewLines(lines, updates)|
    ensures var line, m := NewLines(lines, updates)[j], MapOf(updates);
      && BreakFree(line) && Rewrite(line, m) == line
      && (j < |lines| ==> line == Rewrite(lines[j], m))
      && (j >= |lines| ==> line != "" && IsEntry(line) && Key(line) in m)
  {
    hide MapOf, Key, Value, Writable, Line, BreakFree, Appended, Parse, IsEntry;
    var m := MapOf(updates);
    var seen := Parse(lines).Keys * m.Keys;
    if j < |lines| {
      assert BreakFree(lines[j]);
      RewriteTwice(lines[j], updates);
    } else {
      var i := AppendedLine(updates, seen, j - |lines|);
      MapOfAt(updates, i);
      LineReadsBack(updates[i]);
    }
  }

  lemma RewriteTwice(line: string, updates: seq<Update>)
    requires BreakFree(line) && Distinct(updates) && AllWritable(updates)
    ensures var m := MapOf(updates);
      BreakFree(Rewrite(line, m)) && Rewrite(Rewrite(line, m), m) == Rewrite(line, m)
  {
    hide MapOf, Key, Value, Writable, Line, BreakFree, TrimLeft, StartsComment;
    var m := MapOf(updates);
    if IsEntry(line) && Key(line) in m {
      WritableAt(updates, Key(line));
      LineReadsBack(Update(Key(line), m[Key(line)]));
    }
  }

  lemma NewLinesBreakFree(lines: seq<string>, updates: seq<Update>)
    requires AllBreakFree(lines) && Distinct(updates) && AllWritable(updates)
    ensures AllBreakFree(NewLines(lines, updates))
  {
    hide BreakFree, NewLines, Distinct, AllWritable, Rewrite, MapOf, IsEntry, Key;
    forall j | 0 <= j < |NewLines(lines, updates)|
      ensures BreakFree(NewLines(lines, updates)[j])
    {
      NewLineAt(lines, updates, j);
    }
  }

  /** The last line is empty and closed by something other than a newline, and no line is appended. */
  ghost predicate DropsLast(text: string, updates: seq<Update>) {
    var lines := SplitLines(text);
    && !EndsWithNewline(text)
    && lines != [] && lines[|lines| - 1] == ""
    && forall i :: 0 <= i < |updates| ==> updates[i].key in Parse(lines)
  }

  lemma LastNewLine(text: string, updates: seq<Update>)
    requires Distinct(updates) && AllWritable(updates) && !EndsWithNewline(text)
    ensures var n := NewLines(SplitLines(text), updates);
      n != [] && n[|n| - 1] == "" <==> DropsLast(text, updates)
  {
    hide MapOf, Distinct, AllWritable, SplitLines, Appended, Parse, AllBreakFree, IsEntry, Key, Line, Value;
    var lines, m := SplitLines(text), MapOf(updates);
    var seen := Parse(lines).Keys * m.Keys;
    var n := NewLines(lines, updates);
    LinesAreBreakFree(text);
    AppendedNone(updates, seen);
    SeenOrNot(updates, Parse(lines).Keys);
    if n != [] {
      NewLineAt(lines, updates, |n| - 1);
      if lines != [] && Appended(updates, seen) == [] { RewriteEmpty(lines[|lines| - 1], m); }
    }
  }

  lemma SeenOrNot(updates: seq<Update>, keys: set<string>)
    requires Distinct(updates)
    ensures (forall i :: 0 <= i < |updates| ==> updates[i].key in keys * MapOf(updates).Keys)
      <==> (forall i :: 0 <= i < |updates| ==> updates[i].key in keys)
  {
    hide MapOf;
    forall i | 0 <= i < |updates|
      ensures updates[i].key in MapOf(updates)
    {
      MapOfAt(updates, i);
    }
  }

  lemma RewriteEmpty(line: string, m: map<string, string>)
    ensures Rewrite(line, m) == "" <==> line == ""
  {
  }

  /** The lines of the new text, counted exactly. */
  lemma LinesOfResult(text: string, updates: seq<Update>)
    requires Distinct(updates) && AllWritable(updates)
    ensures var n := NewLines(SplitLines(text), updates);
      && (DropsLast(text, updates) ==> n != [] && n[|n| - 1] == "")
      && SplitLines(SetEnv(text, updates)) == if DropsLast(text, updates) then n[..|n| - 1] else n
  {
    hide DropsLast, NewLines, SplitLines, Join, Distinct, AllWritable, AllBreakFree;
    var n := NewLines(SplitLines(text), updates);
    LinesAreBreakFree(text);
    NewLinesBreakFree(SplitLines(text), updates);
    if EndsWithNewline(text) {
      AtLeastAsMany(text, updates);
      SplitClosed(n);
      assert !DropsLast(text, updates) by { NotDropped(text, updates); }
    } else {
      SplitOpen(n);
      LastNewLine(text, updates);
      assert Join(n) + "" == Join(n);
    }
  }

  lemma AtLeastAsMany(text: string, updates: seq<Update>)
    requires text != ""
    ensures NewLines(SplitLines(text), updates) != []
  {
  }

  lemma NotDropped(text: string, updates: seq<Update>)
    requires EndsWithNewline(text)
    ensures !DropsLast(text, updates)
  {
  }

  /**
   * Parsing the rewritten text gives the old map overridden by the updates, for every text, exactly when every update
   * can be read back from a line.
   */
  lemma RoundTrip(text: string, updates: seq<Update>)
    requires Distinct(updates)
    ensures Parse(SplitLines(SetEnv(text, updates))) == Parse(SplitLines(text)) + MapOf(updates)
      <==> AllWritable(updates)
  {
    hide SetEnv, SplitLines, NewLines, Parse, MapOf, Distinct, AllWritable, AllBreakFree, Writable, DropsLast;
    var old', new' := Parse(SplitLines(text)), Parse(SplitLines(SetEnv(text, updates)));
    if AllWritable(updates) {
      var n := NewLines(SplitLines(text), updates);
      LinesOfResult(text, updates);
      ParseNewLines(SplitLines(text), updates);
      if DropsLast(text, updates) { ParseWithoutEmpty(n); }
    }
    if new' == old' + MapOf(updates) {
      LinesAreBreakFree(SetEnv(text, updates));
      ParsedIsWritable(SplitLines(SetEnv(text, updates)));
      AllReadBack(updates, new');
    }
  }

  lemma AllReadBack(updates: seq<Update>, env: map<string, string>)
    requires Distinct(updates) && forall k | k in env :: Writable(Update(k, env[k]))
    requires forall k | k in MapOf(updates) :: k in env && env[k] == MapOf(updates)[k]
    ensures AllWritable(updates)
  {
    hide MapOf, Writable;
    forall i | 0 <= i < |updates|
      ensures Writable(updates[i])
    {
      MapOfAt(updates, i);
      assert updates[i] == Update(updates[i].key, env[updates[i].key]);
    }
  }

  lemma ParseWithoutEmpty(lines: seq<string>)
    requires lines != [] && lines[|lines| - 1] == ""
    ensures Parse(lines[..|lines| - 1]) == Parse(lines)
  {
  }

  // The lines that are not the updates' own.

  predicate Touches(line: string, m: map<string, string>) {
    IsEntry(line) && Key(line) in m
  }

  function Others(lines: seq<string>, m: map<string, string>): seq<string> {
    if lines == [] then []
    else
      var last := lines[|lines| - 1];
      Others(lines[..|lines| - 1], m) + if Touches(last, m) then [] else [last]
  }

  lemma RewriteTouches(line: string, m: map<string, string>)
    requires MapWritable(m)
    ensures Touches(Rewrite(line, m), m) <==> Touches(line, m)
    ensures !Touches(line, m) ==> Rewrite(line, m) == line
  {
    hide Key, Value, Writable, Line, TrimLeft, StartsComment, BreakFree;
    if IsEntry(line) && Key(line) in m { LineReadsBack(Update(Key(line), m[Key(line)])); }
  }

  lemma {:induction false} OthersRewritten(lines: seq<string>, m: map<string, string>)
    requires MapWritable(m)
    ensures Others(Rewritten(lines, m), m) == Others(lines, m)
  {
    hide MapWritable, Rewrite, Touches;
    if lines != [] {
      var init, last := lines[..|lines| - 1], lines[|lines| - 1];
      OthersRewritten(init, m);
      RewriteTouches(last, m);
      assert Rewritten(lines, m)[..|lines| - 1] == Rewritten(init, m);
    }
  }

  lemma {:induction false} OthersAppended(lines: seq<string>, updates: seq<Update>, seen: set<string>,
                                          m: map<string, string>)
    requires AllWritable(updates) && forall i :: 0 <= i < |updates| ==> updates[i].key in m
    ensures Others(lines + Appended(updates, seen), m) == Others(lines, m)
  {
    hide IsEntry, Key, Value, Writable, Line;
    if updates == [] {
      assert lines + [] == lines;
    } else {
      var init, last := updates[..|updates| - 1], updates[|updates| - 1];
      OthersAppended(lines, init, seen, m);
      var a := lines + Appended(init, seen);
      if last.key in seen {
        assert lines + Appended(updates, seen) == a;
      } else {
        var line := Line(last.key, last.value);
        assert Touches(line, m) by { LineReadsBack(last); }
        assert lines + Appended(updates, seen) == a + [line];
        assert (a + [line])[..|a|] == a;
      }
    }
  }

  lemma OthersWithoutEmpty(lines: seq<string>, m: map<string, string>)
    requires lines != [] && lines[|lines| - 1] == ""
    ensures Others(lines, m) == Others(lines[..|lines| - 1], m) + [""]
  {
  }

  /** Every other line is kept, in order, except for the one empty last line that may be lost. */
  lemma OthersKept(text: string, updates: seq<Update>)
    requires Distinct(updates) && AllWritable(updates)
    ensures var m := MapOf(updates);
      Others(SplitLines(text), m)
      == Others(SplitLines(SetEnv(text, updates)), m) + if DropsLast(text, updates) then [""] else []
  {
    hide SetEnv, SplitLines, MapOf, Distinct, AllWritable, Writable, DropsLast, Parse, Rewritten, Appended, Others;
    hide MapWritable;
    var lines, m := SplitLines(text), MapOf(updates);
    var n, seen := NewLines(lines, updates), Parse(lines).Keys * m.Keys;
    LinesOfResult(text, updates);
    MapOfKeys(updates);
    OthersRewritten(lines, m);
    AllInMap(updates);
    OthersAppended(Rewritten(lines, m), updates, seen, m);
    assert Others(n, m) == Others(lines, m);
    if DropsLast(text, updates) { OthersWithoutEmpty(n, m); }
  }

  lemma AllInMap(updates: seq<Update>)
    requires Distinct(updates)
    ensures forall i :: 0 <= i < |updates| ==> updates[i].key in MapOf(updates)
  {
    hide MapOf, Distinct;
    forall i | 0 <= i < |updates|
      ensures updates[i].key in MapOf(updates)
    {
      MapOfAt(updates, i);
    }
  }

  // Rewriting again.

  /** Lines that already say what the updates say are left alone, and nothing is appended. */
  lemma NewLinesSettled(lines: seq<string>, updates: seq<Update>)
    requires Distinct(updates)
    requires forall j :: 0 <= j < |lines| ==> Rewrite(lines[j], MapOf(updates)) == lines[j]
    requires forall k | k in MapOf(updates) :: k in Parse(lines)
    ensures NewLines(lines, updates) == lines
  {
    hide Parse, MapOf, Rewrite, Appended, Distinct;
    var m := MapOf(updates);
    AppendedNone(updates, Parse(lines).Keys * m.Keys);
    AllInMap(updates);
    assert Rewritten(lines, m) == lines;
  }

  lemma NewLinesTwice(lines: seq<string>, updates: seq<Update>, keep: nat)
    requires AllBreakFree(lines) && Distinct(updates) && AllWritable(updates)
    requires var n := NewLines(lines, updates);
      keep == |n| || (keep == |n| - 1 && n[keep] == "")
    ensures var n := NewLines(lines, updates)[..keep]; NewLines(n, updates) == n
  {
    hide Parse, MapOf, Rewrite, Appended, Distinct, AllWritable, AllBreakFree, NewLines;
    var n, m := NewLines(lines, updates), MapOf(updates);
    forall j | 0 <= j < keep
      ensures Rewrite(n[..keep][j], m) == n[..keep][j]
    {
      NewLineAt(lines, updates, j);
    }
    ParseNewLines(lines, updates);
    if keep < |n| {
      ParseWithoutEmpty(n);
    } else {
      assert n[..keep] == n;
    }
    NewLinesSettled(n[..keep], updates);
  }

  /** Rewriting twice gives the same text as rewriting once, break by break. */
  lemma RewritingTwice(text: string, updates: seq<Update>)
    requires Distinct(updates) && AllWritable(updates)
    ensures SetEnv(SetEnv(text, updates), updates) == SetEnv(text, updates)
  {
    hide SplitLines, MapOf, Distinct, AllWritable, DropsLast, NewLines, Join, AllBreakFree, EndsWithNewline;
    var lines, r := SplitLines(text), SetEnv(text, updates);
    var n := NewLines(lines, updates);
    LinesAreBreakFree(text);
    LinesOfResult(text, updates);
    NewLinesBreakFree(lines, updates);
    if EndsWithNewline(text) {
      assert EndsWithNewline(r) by { EndsInNewline(Join(n)); }
      NotDropped(text, updates);
      NewLinesTwice(lines, updates, |n|);
      assert n[..|n|] == n;
    } else {
      assert r == Join(n);
      LastNewLine(text, updates);
      if n == [] {
        NewLinesTwice(lines, updates, 0);
        assert r == "" && !EndsWithNewline(r) by { JoinNothing(); }
        assert n[..0] == n;
      } else {
        JoinEnd(n);
        var keep := if DropsLast(text, updates) then |n| - 1 else |n|;
        NewLinesTwice(lines, updates, keep);
        assert n[..|n|] == n;
        if |n| == 1 {
          JoinNothing();
          JoinOne(n[0]);
          assert n == [n[0]];
        }
      }
    }
  }

  lemma EndsInNewline(s: string)
    ensures EndsWithNewline(s + "\n")
  {
  }

  lemma JoinNothing()
    ensures Join([]) == "" && !EndsWithNewline("")
  {
  }

  lemma JoinOne(line: string)
    ensures Join([line]) == line
  {
  }
}

/**
 * The check of scripts/readiness-keeper/keeper.py before a rewritten environment is sent, for every dictionary of
 * updates: also those that cannot be written on one line each.
 */
module KeeperCheck {
  import opened Basics
  import opened Lines
  import opened KeeperEnv

  // Reading the new text line by line, whatever the lines hold.

  /** What the lines are read as, each split at its own breaks. */
  function Readings(lines: seq<string>): map<string, string> {
    if lines == [] then map[] else Parse(SplitLines(lines[0])) + Readings(lines[1..])
  }

  lemma {:induction false} ParseConcat(a: seq<string>, b: seq<string>)
    ensures Parse(a + b) == Parse(a) + Parse(b)
  {
    hide IsEntry, Key, Value;
    if b == [] {
      assert a + b == a;
    } else {
      ParseConcat(a, b[..|b| - 1]);
      assert (a + b)[..|a + b| - 1] == a + b[..|b| - 1];
    }
  }

  lemma ParseBlank()
    ensures Parse([""]) == map[] && Parse([]) == map[]
  {
    assert [""][..0] == [];
  }

  /** A newline at the end changes nothing in what a text is read as. */
  lemma {:induction false} ClosingNewline(x: string)
    ensures Parse(SplitLines(x + "\n")) == Parse(SplitLines(x))
    decreases |x|
  {
    hide SplitLines, Parse, BreakFree, BreakLength, LineLength;
    SplitEmpty();
    LineIsBreakFree(x);
    var n := LineLength(x);
    var line, rest := x[..n], x[n..];
    if x == "" {
      ParseBlank();
      SplitFirst("", "");
      assert "" + "\n" + "" == x + "\n" && [""] + [] == [""];
    } else if n == |x| {
      assert line == x;
      SplitFirst(x, "");
      SplitOne(x);
      assert x + "\n" + "" == x + "\n" && [x] + [] == [x];
    } else {
      SplitStep(line, rest);
      SplitStep(line, rest + "\n");
      assert line + rest == x && line + (rest + "\n") == x + "\n";
      var k := BreakLength(rest);
      if rest == "\r" {
        ReturnAndNewline();
        assert (rest + "\n")[2..] == "" && rest[1..] == "";
      } else {
        BreakBeforeNewline(rest);
        assert (rest + "\n")[k..] == rest[k..] + "\n";
        ClosingNewline(rest[k..]);
        ParseConcat([line], SplitLines(rest[k..]));
        ParseConcat([line], SplitLines(rest[k..] + "\n"));
      }
    }
  }

  lemma ReturnAndNewline()
    ensures BreakLength("\r" + "\n") == 2 && BreakLength("\r") == 1
  {
  }

  lemma BreakBeforeNewline(rest: string)
    requires rest != "" && rest != "\r"
    ensures BreakLength(rest + "\n") == BreakLength(rest)
  {
    assert |rest| == 1 ==> rest == [rest[0]];
  }

  lemma {:induction false} ReadJoined(lines: seq<string>, close: string)
    requires close == "" || close == "\n"
    ensures Parse(SplitLines(Join(lines) + close)) == Readings(lines)
  {
    hide SplitLines, Parse;
    SplitEmpty();
    ParseBlank();
    if lines == [] {
      ClosingNewline("");
      assert "" + close == close;
    } else if |lines| == 1 {
      ClosingNewline(lines[0]);
      assert close == "" ==> lines[0] + close == lines[0];
      assert Readings(lines[1..]) == map[];
    } else {
      var x, tail := lines[0], lines[1..];
      ReadJoined(tail, close);
      ClosingNewline(x);
      EndsInNewline(x);
      SplitAfterNewline(x + "\n", Join(tail) + close);
      assert Join(lines) + close == x + "\n" + (Join(tail) + close);
      ParseConcat(SplitLines(x + "\n"), SplitLines(Join(tail) + close));
    }
  }

  /**
   * For every text and every dictionary of updates: what the rewritten text is read as, without looking at the text.
   */
  lemma ReadsAsItsLines(text: string, updates: seq<Update>)
    ensures Parse(SplitLines(SetEnv(text, updates))) == Readings(NewLines(SplitLines(text), updates))
  {
    hide SplitLines, Parse, NewLines;
    ReadJoined(NewLines(SplitLines(text), updates), if EndsWithNewline(text) then "\n" else "");
  }

  // Values that break.

  function FirstLine(s: string): string {
    s[..LineLength(s)]
  }

  /** The update as it is read back when nothing behind the first line of its value assigns. */
  function Cut(u: Update): Update {
    Update(u.key, FirstLine(u.value))
  }

  /** No line of the value but the first is read as an assignment. */
  ghost predicate Contained(u: Update) {
    WritableKey(u.key) && forall i :: 1 <= i < |SplitLines(u.value)| ==> !IsEntry(SplitLines(u.value)[i])
  }

  ghost predicate AllContained(updates: seq<Update>) {
    forall i :: 0 <= i < |updates| ==> Contained(updates[i])
  }

  function Cuts(updates: seq<Update>): (r: seq<Update>)
    ensures |r| == |updates|
  {
    seq(|updates|, i requires 0 <= i < |updates| => Cut(updates[i]))
  }

  lemma CutIsWritable(u: Update)
    requires WritableKey(u.key)
    ensures Writable(Cut(u)) && (BreakFree(u.value) <==> Cut(u) == u)
  {
    hide BreakFree, PySpace;
    LineIsBreakFree(u.value);
    if BreakFree(u.value) {
      LongerLine(u.value, "");
      assert u.value + "" == u.value;
    }
    assert u.value[..|u.value|] == u.value;
  }

  /** A break-free start goes to the first line. */
  lemma SplitPrefix(x: string, v: string)
    requires BreakFree(x) && x != ""
    ensures v != "" ==> SplitLines(v) != []
    ensures SplitLines(x + v) == [x + FirstLine(v)] + if v == "" then [] else SplitLines(v)[1..]
  {
    hide SplitLines, BreakFree, IsBreak, LineLength, BreakLength;
    var first, rest := FirstLine(v), v[LineLength(v)..];
    LineIsBreakFree(v);
    BothBreakFree(x, first);
    assert v == first + rest;
    if rest == "" {
      assert first == v;
      SplitOne(x + v);
      if v != "" { SplitOne(v); }
    } else {
      SplitStep(first, rest);
      SplitStep(x + first, rest);
      assert x + v == x + first + rest;
    }
  }

  lemma BothBreakFree(x: string, y: string)
    requires BreakFree(x) && BreakFree(y)
    ensures BreakFree(x + y)
  {
  }

  lemma {:induction false} NoEntries(lines: seq<string>)
    requires forall i :: 0 <= i < |lines| ==> !IsEntry(lines[i])
    ensures Parse(lines) == map[]
  {
    hide IsEntry;
    if lines != [] { NoEntries(lines[..|lines| - 1]); }
  }

  /** Both the line of an update and the line of its cut are read as the cut. */
  lemma LineReadsAsCut(u: Update)
    requires Contained(u)
    ensures Parse(SplitLines(Line(u.key, u.value))) == Parse(SplitLines(Line(u.key, FirstLine(u.value))))
  {
    hide SplitLines, Parse, IsEntry, BreakFree, PySpace;
    var x, first := u.key + "=", FirstLine(u.value);
    assert BreakFree(x) by { StartIsBreakFree(u.key); }
    CutIsWritable(u);
    SplitPrefix(x, u.value);
    LineReadsBack(Cut(u));
    SplitOne(x + first);
    var rest := if u.value == "" then [] else SplitLines(u.value)[1..];
    NoEntries(rest);
    ParseConcat([x + first], rest);
  }

  lemma StartIsBreakFree(key: string)
    requires BreakFree(key)
    ensures BreakFree(key + "=")
  {
  }

  // The new lines of updates and of their cuts, side by side.

  lemma {:induction false} ReadingsSideBySide(a: seq<string>, b: seq<string>)
    requires |a| == |b| && forall i :: 0 <= i < |a| ==> Parse(SplitLines(a[i])) == Parse(SplitLines(b[i]))
    ensures Readings(a) == Readings(b)
  {
    hide Parse, SplitLines;
    if a != [] { ReadingsSideBySide(a[1..], b[1..]); }
  }

  lemma {:induction false} MapOfCuts(updates: seq<Update>)
    ensures MapOf(Cuts(updates)).Keys == MapOf(updates).Keys
    ensures forall k | k in MapOf(updates) :: MapOf(Cuts(updates))[k] == FirstLine(MapOf(updates)[k])
  {
    hide FirstLine;
    if updates != [] {
      var init := updates[..|updates| - 1];
      MapOfCuts(init);
      assert Cuts(updates)[..|init|] == Cuts(init);
    }
  }

  lemma {:induction false} AppendedCuts(updates: seq<Update>, seen: set<string>)
    requires AllContained(updates)
    ensures var a, b := Appended(updates, seen), Appended(Cuts(updates), seen);
      |a| == |b| && forall i :: 0 <= i < |a| ==> Parse(SplitLines(a[i])) == Parse(SplitLines(b[i]))
  {
    hide FirstLine, Parse, SplitLines, Line, Contained;
    if updates != [] {
      var init, last := updates[..|updates| - 1], updates[|updates| - 1];
      AppendedCuts(init, seen);
      assert Cuts(updates)[..|init|] == Cuts(init);
      LineReadsAsCut(last);
    }
  }

  lemma RewriteCuts(line: string, updates: seq<Update>)
    requires Distinct(updates) && AllContained(updates)
    ensures Parse(SplitLines(Rewrite(line, MapOf(updates)))) == Parse(SplitLines(Rewrite(line, MapOf(Cuts(updates)))))
  {
    hide FirstLine, Parse, SplitLines, Line, Contained, MapOf, Key, StartsComment;
    MapOfCuts(updates);
    if IsEntry(line) && Key(line) in MapOf(updates) {
      var i := MapOfFrom(updates, Key(line));
      MapOfAt(updates, i);
      LineReadsAsCut(updates[i]);
    }
  }

  lemma NewLinesCuts(lines: seq<string>, updates: seq<Update>)
    requires Distinct(updates) && AllContained(updates)
    ensures Readings(NewLines(lines, updates)) == Readings(NewLines(lines, Cuts(updates)))
  {
    hide Parse, SplitLines, Contained, MapOf, Rewrite, Appended, Cuts, Distinct, AllContained;
    MapOfCuts(updates);
    var seen := Parse(lines).Keys * MapOf(updates).Keys;
    AppendedCuts(updates, seen);
    var a, b := NewLines(lines, updates), NewLines(lines, Cuts(updates));
    forall i | 0 <= i < |a|
      ensures Parse(SplitLines(a[i])) == Parse(SplitLines(b[i]))
    {
      if i < |lines| { RewriteCuts(lines[i], updates); }
    }
    ReadingsSideBySide(a, b);
  }

  lemma CutsAreWritable(updates: seq<Update>)
    requires Distinct(updates) && AllContained(updates)
    ensures Distinct(Cuts(updates)) && AllWritable(Cuts(updates))
  {
    hide Writable, FirstLine, SplitLines, IsEntry, WritableKey;
    forall i | 0 <= i < |updates|
      ensures Writable(Cuts(updates)[i])
    {
      assert Contained(updates[i]);
      CutIsWritable(updates[i]);
    }
  }

  /** Updates whose later lines do not assign are read back cut to the first line of their values. */
  lemma CutsAreReadBack(text: string, updates: seq<Update>)
    requires Distinct(updates) && AllContained(updates)
    ensures Parse(SplitLines(SetEnv(text, updates))) == Parse(SplitLines(text)) + MapOf(Cuts(updates))
  {
    hide Parse, SplitLines, SetEnv, MapOf, Cuts, Distinct, AllContained, AllWritable, Readings, NewLines;
    CutsAreWritable(updates);
    NewLinesCuts(SplitLines(text), updates);
    ReadsAsItsLines(text, updates);
    ReadsAsItsLines(text, Cuts(updates));
    RoundTrip(text, Cuts(updates));
  }

  // The check.

  /** The keys whose value differs between two maps, absence included. */
  function Changed(before: map<string, string>, after: map<string, string>): set<string> {
    set k | k in before.Keys + after.Keys && !(k in before && k in after && before[k] == after[k])
  }

  /** The new text, unless the keys that would change are not exactly the keys to update. */
  method CheckedRewrite(before: string, updates: seq<Update>) returns (r: Result<string>)
    requires Distinct(updates)
    ensures r.Ok? ==> r.value == SetEnv(before, updates)
    ensures r.Ok? <==>
      Changed(Parse(SplitLines(before)), Parse(SplitLines(SetEnv(before, updates)))) == MapOf(updates).Keys
    ensures r.Ok? <==>
      Changed(Parse(SplitLines(before)), Readings(NewLines(SplitLines(before), updates))) == MapOf(updates).Keys
    ensures AllContained(updates) ==>
      (r.Err? <==> exists i :: 0 <= i < |updates| && IsCurrent(Cut(updates[i]), Parse(SplitLines(before))))
    ensures AllWritable(updates) ==>
      (r.Err? <==> exists i :: 0 <= i < |updates| && IsCurrent(updates[i], Parse(SplitLines(before))))
  {
    hide SetEnv, SplitLines, Parse, MapOf, Distinct, AllWritable, AllContained, Readings, NewLines, IsCurrent, Cut;
    var after := SetEnvLines(before, updates);
    var parsedBefore := ParseEnv(before);
    var parsedAfter := ParseEnv(after);
    if Changed(parsedBefore, parsedAfter) != MapOf(updates).Keys {
      r := Err("refusing env write: unexpected key delta");
    } else {
      r := Ok(after);
    }
    ReadsAsItsLines(before, updates);
    if AllContained(updates) { CutDeltaIsExact(before, updates); }
    RoundTrip(before, updates);
    if AllWritable(updates) { DeltaIsExact(parsedBefore, updates); }
  }

  predicate IsCurrent(u: Update, env: map<string, string>) {
    u.key in env && env[u.key] == u.value
  }

  /** Overriding changes exactly the updated keys just when no update repeats the current value. */
  lemma DeltaIsExact(env: map<string, string>, updates: seq<Update>)
    requires Distinct(updates)
    ensures Changed(env, env + MapOf(updates)) != MapOf(updates).Keys
      <==> exists i :: 0 <= i < |updates| && IsCurrent(updates[i], env)
  {
    hide MapOf;
    var m := MapOf(updates);
    var changed := Changed(env, env + m);
    assert forall k :: k in changed <==> k in m && !(k in env && env[k] == m[k]);
    if changed != m.Keys {
      var k :| k in m && k !in changed;
      var i := MapOfFrom(updates, k);
      MapOfAt(updates, i);
      assert IsCurrent(updates[i], env);
    }
    if i :| 0 <= i < |updates| && IsCurrent(updates[i], env) {
      MapOfAt(updates, i);
      assert updates[i].key in m && updates[i].key !in changed;
    }
  }

  /** The check refuses updates whose later lines do not assign exactly when a cut repeats the current value. */
  lemma CutDeltaIsExact(before: string, updates: seq<Update>)
    requires Distinct(updates) && AllContained(updates)
    ensures var env := Parse(SplitLines(before));
      Changed(env, Parse(SplitLines(SetEnv(before, updates)))) != MapOf(updates).Keys
      <==> exists i :: 0 <= i < |updates| && IsCurrent(Cut(updates[i]), env)
  {
    hide Parse, SplitLines, SetEnv, MapOf, AllContained, AllWritable, Distinct, IsCurrent, Cut, Changed;
    CutsAreReadBack(before, updates);
    CutsAreWritable(updates);
    MapOfCuts(updates);
    DeltaIsExact(Parse(SplitLines(before)), Cuts(updates));
    assert forall i :: 0 <= i < |updates| ==> Cuts(updates)[i] == Cut(updates[i]);
  }

  /**
   * A value that breaks is accepted and read back as its first line, unless that is current or a later line assigns.
   */
  lemma CutIsAccepted(before: string, u: Update)
    requires Contained(u) && !BreakFree(u.value) && !IsCurrent(Cut(u), Parse(SplitLines(before)))
    ensures var env, env' := Parse(SplitLines(before)), Parse(SplitLines(SetEnv(before, [u])));
      Changed(env, env') == {u.key} && u.key in env' && env'[u.key] == FirstLine(u.value) != u.value
  {
    hide Parse, SplitLines, SetEnv, BreakFree, IsCurrent, FirstLine, Changed, Contained;
    var updates := [u];
    CutsAreReadBack(before, updates);
    CutDeltaIsExact(before, updates);
    assert WritableKey(u.key) by { ContainedKey(u); }
    CutIsWritable(u);
    assert updates[..0] == [] && Cuts(updates) == [Cut(u)] && [Cut(u)][..0] == [];
  }

  lemma ContainedKey(u: Update)
    requires Contained(u)
    ensures WritableKey(u.key)
  {
  }
}

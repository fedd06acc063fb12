/**
 * What the lines of an environment file mean and how an update is written, in characters
 * (scripts/readiness-keeper/keeper.py): an entry is whitespace, a key, whitespace, an equals sign and a value.
 */
module KeeperLines {
  import opened Basics
  import opened Strings
  import opened Lines
  import opened KeeperEnv

  ghost predicate AllSpace(s: string) {
    forall c | c in s :: PySpace(c)
  }

  /** The line is the key between whitespace, an equals sign, and the value as it is. */
  ghost predicate Spelled(line: string, key: string, value: string, a: string, b: string) {
    && line == a + key + b + "=" + value && AllSpace(a) && AllSpace(b)
    && Trimmed(PySpace, key) && '=' !in key && (key == "" || key[0] != '#')
  }

  /** A line is read as a key and a value just when it spells them. */
  lemma EntryExactly(line: string, key: string, value: string)
    ensures IsEntry(line) && Key(line) == key && Value(line) == value
      <==> exists a, b :: Spelled(line, key, value, a, b)
  {
    if IsEntry(line) && Key(line) == key && Value(line) == value {
      var a, b := ReadIsSpelled(line);
      assert Spelled(line, key, value, a, b);
    }
    if a, b :| Spelled(line, key, value, a, b) { SpelledIsRead(line, key, value, a, b); }
  }

  lemma ReadIsSpelled(line: string) returns (a: string, b: string)
    requires IsEntry(line)
    ensures Spelled(line, Key(line), Value(line), a, b)
  {
    var n := EqualsAt(line);
    var x, value := line[..n], Value(line);
    a, b := TrimCuts(PySpace, x);
    FirstEquals(line);
    TrimIsTrimmed(PySpace, x);
    assert line == x + "=" + value;
    var key := Key(line);
    hide PySpace, EqualsAt, TrimRight, Key, Value;
    assert x == a + key + b;
    PartsOf(a, key, b);
    if key != "" { KeyIsFirst(line, a, key, b + "=" + value); }
  }

  lemma PartsOf(a: string, key: string, b: string)
    ensures '=' !in a + key + b ==> '=' !in key
    ensures AllSpace(a + b) ==> AllSpace(a) && AllSpace(b)
  {
    hide PySpace;
    assert forall c :: c in a + key + b <==> c in a || c in key || c in b;
    assert forall c :: c in a + b <==> c in a || c in b;
  }

  lemma KeyIsFirst(line: string, a: string, key: string, rest: string)
    requires line == a + key + rest && AllSpace(a) && key != "" && !PySpace(key[0])
    ensures TrimLeft(PySpace, line) == key + rest
  {
    hide PySpace;
    CutLeft(PySpace, a, key + rest);
    assert line == a + (key + rest);
  }

  lemma SpelledIsRead(line: string, key: string, value: string, a: string, b: string)
    requires Spelled(line, key, value, a, b)
    ensures IsEntry(line) && Key(line) == key && Value(line) == value
  {
    var x := a + key + b;
    SpelledKey(key, a, b);
    SplitAtEquals(line, x, value);
    TrimExactly(PySpace, a, key, b);
    FirstSpelled(line, key, value, a, b);
    hide PySpace, TrimLeft, TrimRight, EqualsAt;
  }

  lemma SpelledKey(key: string, a: string, b: string)
    requires AllSpace(a) && AllSpace(b) && '=' !in key
    ensures '=' !in a + key + b && AllSpace(a + b)
  {
    assert !PySpace('=');
    hide PySpace;
    assert forall c :: c in a + key + b <==> c in a || c in key || c in b;
    assert forall c :: c in a + b <==> c in a || c in b;
  }

  lemma SplitAtEquals(line: string, x: string, value: string)
    requires line == x + "=" + value && '=' !in x
    ensures '=' in line && line[..EqualsAt(line)] == x && Value(line) == value
  {
    assert line == x + ("=" + value);
    EqualsAfter(x, "=" + value);
    EqualsFirst(value);
    hide EqualsAt;
  }

  /** What is left of the line from the key on. */
  lemma FirstSpelled(line: string, key: string, value: string, a: string, b: string)
    requires Spelled(line, key, value, a, b)
    ensures !StartsComment(TrimLeft(PySpace, line))
  {
    SpelledKey(key, a, b);
    assert !PySpace('=');
    hide PySpace;
    if key == "" {
      CutLeft(PySpace, a + b, "=" + value);
      assert line == (a + b) + ("=" + value);
    } else {
      CutLeft(PySpace, a, key + b + "=" + value);
      assert line == a + (key + b + "=" + value);
    }
  }

  /** A key has the value of the last line that is an entry for it. */
  lemma {:induction false} LastEntryWins(lines: seq<string>, key: string) returns (i: nat)
    ensures key in Parse(lines) ==>
      && i < |lines| && IsEntry(lines[i]) && Key(lines[i]) == key && Value(lines[i]) == Parse(lines)[key]
      && forall j :: i < j < |lines| ==> !(IsEntry(lines[j]) && Key(lines[j]) == key)
    ensures key !in Parse(lines) ==> forall j :: 0 <= j < |lines| ==> !(IsEntry(lines[j]) && Key(lines[j]) == key)
  {
    hide Key, Value, TrimLeft, StartsComment;
    i := 0;
    if lines != [] {
      var n := |lines| - 1;
      i := LastEntryWins(lines[..n], key);
      if IsEntry(lines[n]) && Key(lines[n]) == key { i := n; }
    }
  }

  /** The updates that no line is an entry for, by position. */
  ghost predicate Missing(lines: seq<string>, updates: seq<Update>, n: nat, at: seq<nat>)
    requires n <= |updates|
  {
    && (forall k :: 0 <= k < |at| ==> at[k] < n && updates[at[k]].key !in Parse(lines))
    && (forall j, k :: 0 <= j < k < |at| ==> at[j] < at[k])
    && (forall i: nat :: i < n && updates[i].key !in Parse(lines) ==> i in at)
  }

  predicate EntryFor(line: string, key: string) {
    IsEntry(line) && Key(line) == key
  }

  function Written(u: Update): string { u.key + "=" + u.value }

  /**
   * The lines of the new text: an entry for an updated key is written anew with the update's value, every other line is
   * kept, and the updates that no line is for follow in order.
   */
  lemma NewLinesAre(lines: seq<string>, updates: seq<Update>) returns (at: seq<nat>)
    requires Distinct(updates)
    ensures Missing(lines, updates, |updates|, at)
    ensures var next := NewLines(lines, updates);
      && |next| == |lines| + |at|
      && (forall i, j :: 0 <= i < |lines| && 0 <= j < |updates| && EntryFor(lines[i], updates[j].key) ==>
            next[i] == Written(updates[j]))
      && (forall i :: 0 <= i < |lines| && (forall u | u in updates :: !EntryFor(lines[i], u.key)) ==>
            next[i] == lines[i])
      && (forall k :: 0 <= k < |at| ==> next[|lines| + k] == Written(updates[at[k]]))
  {
    hide Missing, Appended, Parse, TrimLeft, StartsComment, Key, MapOf, Distinct;
    at := AppendedAre(lines, updates, Parse(lines).Keys * MapOf(updates).Keys, |updates|);
    assert updates[..|updates|] == updates;
    hide EntryFor, IsEntry;
    forall i | 0 <= i < |lines|
      ensures forall j :: 0 <= j < |updates| && EntryFor(lines[i], updates[j].key) ==>
        Rewrite(lines[i], MapOf(updates)) == Written(updates[j])
      ensures (forall u | u in updates :: !EntryFor(lines[i], u.key)) ==> Rewrite(lines[i], MapOf(updates)) == lines[i]
    {
      RewriteIs(lines[i], updates);
    }
    hide Rewrite, Written;
  }

  /** What a rewrite does to one line. */
  lemma RewriteIs(line: string, updates: seq<Update>)
    requires Distinct(updates)
    ensures forall j :: 0 <= j < |updates| && EntryFor(line, updates[j].key) ==>
      Rewrite(line, MapOf(updates)) == Written(updates[j])
    ensures (forall u | u in updates :: !EntryFor(line, u.key)) ==> Rewrite(line, MapOf(updates)) == line
  {
    hide MapOf, Distinct, TrimLeft, StartsComment, Key;
    forall j | 0 <= j < |updates|
      ensures updates[j].key in MapOf(updates) && MapOf(updates)[updates[j].key] == updates[j].value
    {
      MapOfAt(updates, j);
    }
    if IsEntry(line) && Key(line) in MapOf(updates) { var j := MapOfFrom(updates, Key(line)); }
  }

  lemma {:induction false} AppendedAre(lines: seq<string>, updates: seq<Update>, seen: set<string>, n: nat)
    returns (at: seq<nat>)
    requires n <= |updates| && Distinct(updates) && seen == Parse(lines).Keys * MapOf(updates).Keys
    ensures Missing(lines, updates, n, at)
    ensures |Appended(updates[..n], seen)| == |at|
    ensures forall k :: 0 <= k < |at| ==> Appended(updates[..n], seen)[k] == Written(updates[at[k]])
  {
    hide Parse, MapOf, Missing;
    at := [];
    if n == 0 {
      NothingMissing(lines, updates);
    } else {
      at := AppendedAre(lines, updates, seen, n - 1);
      assert updates[..n][..n - 1] == updates[..n - 1];
      MapOfAt(updates, n - 1);
      MissingMore(lines, updates, n - 1, at);
      if updates[n - 1].key !in Parse(lines) { at := at + [n - 1]; }
    }
  }

  lemma NothingMissing(lines: seq<string>, updates: seq<Update>)
    ensures Missing(lines, updates, 0, [])
  {
  }

  lemma MissingMore(lines: seq<string>, updates: seq<Update>, n: nat, at: seq<nat>)
    requires n < |updates| && Missing(lines, updates, n, at)
    ensures Missing(lines, updates, n + 1, if updates[n].key !in Parse(lines) then at + [n] else at)
  {
    hide Parse;
    assert forall i: nat :: i in at + [n] <==> i in at || i == n;
  }
}

/**
 * The alert planner of scripts/readiness-keeper/keeper.py, over any sequence of watch ticks.
 *
 * The planner remembers one record per open key. The main result is that this memory adds nothing to the log of the
 * messages already sent: what is sent at a tick is a function of that log alone, and every key's log is made of blocks
 * of one or more alerts closed by exactly one recovery.
 */
module KeeperAlerts {
  import opened Basics

  datatype Level = Alert | Warn

  datatype Issue = Issue(key: string, level: Level, text: string)

  datatype Record = Record(level: Level, lastAlert: int, first: int)

  /** One item of the state dictionary. */
  datatype Entry = Entry(key: string, rec: Record)

  /** A recovery's text says when the key was first reported. */
  datatype Message = Raised(level: Level, key: string, text: string) | Recovered(key: string, first: int)

  // The state dictionary, in insertion order.

  function Find(state: seq<Entry>, key: string): Option<Record> {
    if state == [] then None
    else if state[|state| - 1].key == key then Some(state[|state| - 1].rec)
    else Find(state[..|state| - 1], key)
  }

  function Put(state: seq<Entry>, key: string, rec: Record): seq<Entry> {
    if state == [] then [Entry(key, rec)]
    else if state[|state| - 1].key == key then state[..|state| - 1] + [Entry(key, rec)]
    else Put(state[..|state| - 1], key, rec) + [state[|state| - 1]]
  }

  ghost predicate DistinctKeys(state: seq<Entry>) {
    forall i, j :: 0 <= i < j < |state| ==> state[i].key != state[j].key
  }

  // One tick.

  predicate Due(prev: Option<Record>, level: Level, now: int, realert: int) {
    prev.None? || prev.value.level != level || now - prev.value.lastAlert >= realert
  }

  function Renewed(prev: Option<Record>, level: Level, now: int, realert: int): Record {
    if Due(prev, level, now, realert) then Record(level, now, if prev.Some? then prev.value.first else now)
    else prev.value
  }

  function Alerts(issues: seq<Issue>, state: seq<Entry>, now: int, realert: int): seq<Message> {
    if issues == [] then []
    else
      var last := issues[|issues| - 1];
      Alerts(issues[..|issues| - 1], state, now, realert)
      + if Due(Find(state, last.key), last.level, now, realert) then [Raised(last.level, last.key, last.text)] else []
  }

  function NextState(issues: seq<Issue>, state: seq<Entry>, now: int, realert: int): seq<Entry> {
    if issues == [] then []
    else
      var last := issues[|issues| - 1];
      Put(NextState(issues[..|issues| - 1], state, now, realert), last.key,
        Renewed(Find(state, last.key), last.level, now, realert))
  }

  function Recoveries(state: seq<Entry>, current: set<string>): seq<Message> {
    if state == [] then []
    else
      var last := state[|state| - 1];
      Recoveries(state[..|state| - 1], current)
      + if last.key in current then [] else [Recovered(last.key, last.rec.first)]
  }

  function KeysOf(issues: seq<Issue>): set<string> {
    set i | 0 <= i < |issues| :: issues[i].key
  }

  function Planned(issues: seq<Issue>, state: seq<Entry>, now: int, realert: int): seq<Message> {
    Alerts(issues, state, now, realert) + Recoveries(state, KeysOf(issues))
  }

  method PlanAlerts(issues: seq<Issue>, state: seq<Entry>, now: int, realert: int)
    returns (msgs: seq<Message>, newState: seq<Entry>)
    ensures msgs == Planned(issues, state, now, realert)
    ensures newState == NextState(issues, state, now, realert)
  {
    hide Find, Put;
    msgs, newState := [], [];
    var current := KeysOf(issues);
    for i := 0 to |issues|
      invariant msgs == Alerts(issues[..i], state, now, realert)
      invariant newState == NextState(issues[..i], state, now, realert)
    {
      assert issues[..i + 1][..i] == issues[..i];
      var key, level := issues[i].key, issues[i].level;
      var prev := Find(state, key);
      if prev.None? || prev.value.level != level || now - prev.value.lastAlert >= realert {
        msgs := msgs + [Raised(level, key, issues[i].text)];
        newState := Put(newState, key, Record(level, now, if prev.Some? then prev.value.first else now));
      } else {
        newState := Put(newState, key, prev.value);
      }
    }
    assert issues[..|issues|] == issues;
    for i := 0 to |state|
      invariant msgs == Alerts(issues, state, now, realert) + Recoveries(state[..i], current)
    {
      assert state[..i + 1][..i] == state[..i];
      if state[i].key !in current {
        msgs := msgs + [Recovered(state[i].key, state[i].rec.first)];
      }
    }
    assert state[..|state|] == state;
  }

  // Runs of ticks, starting with an empty state.

  datatype Tick = Tick(now: int, issues: seq<Issue>)

  function StateAfter(ticks: seq<Tick>, realert: int): seq<Entry> {
    if ticks == [] then []
    else
      var last := ticks[|ticks| - 1];
      NextState(last.issues, StateAfter(ticks[..|ticks| - 1], realert), last.now, realert)
  }

  function Sent(ticks: seq<Tick>, realert: int): seq<Message>
    requires ticks != []
  {
    var last := ticks[|ticks| - 1];
    Planned(last.issues, StateAfter(ticks[..|ticks| - 1], realert), last.now, realert)
  }

  /** What was sent about one key, and when. */
  datatype Event = RaisedAt(time: int, level: Level) | RecoveredAt(time: int, first: int)

  function EventsOf(msgs: seq<Message>, key: string, now: int): seq<Event> {
    if msgs == [] then []
    else
      var last := msgs[|msgs| - 1];
      EventsOf(msgs[..|msgs| - 1], key, now) + EventOf(last, key, now)
  }

  function EventOf(msg: Message, key: string, now: int): seq<Event> {
    if msg.key != key then []
    else match msg
      case Raised(level, _, _) => [RaisedAt(now, level)]
      case Recovered(_, first) => [RecoveredAt(now, first)]
  }

  function Log(ticks: seq<Tick>, key: string, realert: int): seq<Event> {
    if ticks == [] then []
    else Log(ticks[..|ticks| - 1], key, realert) + EventsOf(Sent(ticks, realert), key, ticks[|ticks| - 1].now)
  }

  /** When the block of alerts at the end of the log began. */
  function Opened(log: seq<Event>): int
    requires log != []
  {
    if |log| == 1 || log[|log| - 2].RecoveredAt? then log[|log| - 1].time else Opened(log[..|log| - 1])
  }

  predicate Open(log: seq<Event>) {
    log != [] && log[|log| - 1].RaisedAt?
  }

  /** What a tick adds to a key's log, told by the log and by the level the key has at the tick. */
  function Decided(log: seq<Event>, level: Option<Level>, now: int, realert: int): seq<Event> {
    match level
    case Some(l) =>
      if Open(log) && log[|log| - 1].level == l && now - log[|log| - 1].time < realert then [] else [RaisedAt(now, l)]
    case None =>
      if Open(log) then [RecoveredAt(now, Opened(log))] else []
  }

  function LevelOf(issues: seq<Issue>, key: string): Option<Level> {
    if issues == [] then None
    else if issues[|issues| - 1].key == key then Some(issues[|issues| - 1].level)
    else LevelOf(issues[..|issues| - 1], key)
  }

  ghost predicate DistinctIssues(issues: seq<Issue>) {
    forall i, j :: 0 <= i < j < |issues| ==> issues[i].key != issues[j].key
  }

  ghost predicate DistinctTicks(ticks: seq<Tick>) {
    forall i :: 0 <= i < |ticks| ==> DistinctIssues(ticks[i].issues)
  }

  // The dictionary.

  lemma {:induction false} PutThenFind(state: seq<Entry>, key: string, rec: Record, k: string)
    ensures Find(Put(state, key, rec), k) == if k == key then Some(rec) else Find(state, k)
  {
    if state != [] && state[|state| - 1].key != key {
      PutThenFind(state[..|state| - 1], key, rec, k);
      assert Put(state, key, rec)[..|Put(state, key, rec)| - 1] == Put(state[..|state| - 1], key, rec);
    }
  }

  lemma {:induction false} FindNone(state: seq<Entry>, key: string)
    ensures Find(state, key).None? <==> forall i :: 0 <= i < |state| ==> state[i].key != key
  {
    if state != [] { FindNone(state[..|state| - 1], key); }
  }

  lemma {:induction false} PutKeepsDistinct(state: seq<Entry>, key: string, rec: Record)
    requires DistinctKeys(state)
    ensures DistinctKeys(Put(state, key, rec))
  {
    if state != [] && state[|state| - 1].key != key {
      var init, last := state[..|state| - 1], state[|state| - 1];
      PutKeepsDistinct(init, key, rec);
      PutThenFind(init, key, rec, last.key);
      FindNone(init, last.key);
      FindNone(Put(init, key, rec), last.key);
    }
  }

  lemma {:induction false} NextStateDistinct(issues: seq<Issue>, state: seq<Entry>, now: int, realert: int)
    ensures DistinctKeys(NextState(issues, state, now, realert))
  {
    hide DistinctKeys, Find, Put;
    if issues == [] {
      NothingDistinct();
    } else {
      var init, last := issues[..|issues| - 1], issues[|issues| - 1];
      NextStateDistinct(init, state, now, realert);
      PutKeepsDistinct(NextState(init, state, now, realert), last.key,
        Renewed(Find(state, last.key), last.level, now, realert));
    }
  }

  lemma NothingDistinct()
    ensures DistinctKeys([])
  {
  }

  // One key at one tick.

  lemma {:induction false} LevelNone(issues: seq<Issue>, key: string)
    ensures LevelOf(issues, key).None? <==> key !in KeysOf(issues)
  {
    if issues != [] {
      var init := issues[..|issues| - 1];
      LevelNone(init, key);
      assert KeysOf(issues) == KeysOf(init) + {issues[|issues| - 1].key};
    }
  }

  lemma {:induction false} NextRecord(issues: seq<Issue>, state: seq<Entry>, now: int, realert: int, key: string)
    ensures Find(NextState(issues, state, now, realert), key)
      == match LevelOf(issues, key)
         case Some(level) => Some(Renewed(Find(state, key), level, now, realert))
         case None => None
  {
    hide Find, Put, Due;
    if issues == [] {
      FindNone([], key);
    } else {
      var init, last := issues[..|issues| - 1], issues[|issues| - 1];
      NextRecord(init, state, now, realert, key);
      PutThenFind(NextState(init, state, now, realert), last.key,
        Renewed(Find(state, last.key), last.level, now, realert), key);
    }
  }

  lemma {:induction false} EventsOfBoth(a: seq<Message>, b: seq<Message>, key: string, now: int)
    ensures EventsOf(a + b, key, now) == EventsOf(a, key, now) + EventsOf(b, key, now)
  {
    hide EventOf;
    if b == [] {
      assert a + b == a;
    } else {
      var init := b[..|b| - 1];
      EventsOfBoth(a, init, key, now);
      assert (a + b)[..|a + b| - 1] == a + init && (a + b)[|a + b| - 1] == b[|b| - 1];
      assert EventsOf(a + b, key, now) == EventsOf(a + init, key, now) + EventOf(b[|b| - 1], key, now);
    }
  }

  lemma EventsOfOne(msg: Message, key: string, now: int)
    ensures EventsOf([msg], key, now) == EventOf(msg, key, now)
  {
    assert [msg][..0] == [];
    assert EventsOf([], key, now) == [];
  }

  lemma {:induction false} AlertEvents(issues: seq<Issue>, state: seq<Entry>, now: int, realert: int, key: string)
    requires DistinctIssues(issues)
    ensures EventsOf(Alerts(issues, state, now, realert), key, now)
      == match LevelOf(issues, key)
         case Some(level) => if Due(Find(state, key), level, now, realert) then [RaisedAt(now, level)] else []
         case None => []
  {
    hide Find, Due, EventsOf;
    if issues == [] {
      NoEvents(key, now);
    } else {
      var init, last := issues[..|issues| - 1], issues[|issues| - 1];
      AlertEvents(init, state, now, realert, key);
      var due := Due(Find(state, last.key), last.level, now, realert);
      var more := if due then [Raised(last.level, last.key, last.text)] else [];
      EventsOfBoth(Alerts(init, state, now, realert), more, key, now);
      NoEvents(key, now);
      if more != [] { EventsOfOne(more[0], key, now); }
      if last.key == key { LevelNone(init, key); }
    }
  }

  lemma NoEvents(key: string, now: int)
    ensures EventsOf([], key, now) == []
  {
  }

  lemma {:induction false} RecoveryEvents(state: seq<Entry>, current: set<string>, key: string, now: int)
    requires DistinctKeys(state)
    ensures EventsOf(Recoveries(state, current), key, now)
      == if Find(state, key).Some? && key !in current then [RecoveredAt(now, Find(state, key).value.first)] else []
  {
    hide EventsOf;
    NoEvents(key, now);
    if state != [] {
      var init, last := state[..|state| - 1], state[|state| - 1];
      RecoveryEvents(init, current, key, now);
      var more := if last.key in current then [] else [Recovered(last.key, last.rec.first)];
      EventsOfBoth(Recoveries(init, current), more, key, now);
      if more != [] { EventsOfOne(more[0], key, now); }
      if last.key == key { FindNone(init, key); }
    }
  }

  lemma TickEvents(issues: seq<Issue>, state: seq<Entry>, now: int, realert: int, key: string)
    requires DistinctIssues(issues) && DistinctKeys(state)
    ensures EventsOf(Planned(issues, state, now, realert), key, now)
      == match LevelOf(issues, key)
         case Some(level) => if Due(Find(state, key), level, now, realert) then [RaisedAt(now, level)] else []
         case None => if Find(state, key).Some? then [RecoveredAt(now, Find(state, key).value.first)] else []
  {
    hide Find, Due, EventsOf, Alerts, Recoveries, LevelOf, KeysOf, DistinctIssues, DistinctKeys;
    EventsOfBoth(Alerts(issues, state, now, realert), Recoveries(state, KeysOf(issues)), key, now);
    AlertEvents(issues, state, now, realert, key);
    RecoveryEvents(state, KeysOf(issues), key, now);
    LevelNone(issues, key);
  }

  /** Nothing was sent about the key yet, or it was at another level, or long enough ago. */
  predicate Calls(state: seq<Entry>, issue: Issue, now: int, realert: int) {
    match Find(state, issue.key)
    case None => true
    case Some(rec) => rec.level != issue.level || now >= rec.lastAlert + realert
  }

  ghost predicate Rising(at: seq<nat>, n: nat) {
    && (forall k :: 0 <= k < |at| ==> at[k] < n)
    && (forall j, k :: 0 <= j < k < |at| ==> at[j] < at[k])
  }

  /** The alerts for the issues at the places `at`, which are all that call for one among the first `n`. */
  ghost predicate Raises(msgs: seq<Message>, issues: seq<Issue>, state: seq<Entry>, now: int, realert: int, n: nat,
                         at: seq<nat>)
    requires n <= |issues|
  {
    && Rising(at, n) && |msgs| == |at|
    && (forall i: nat :: i < n ==> (Calls(state, issues[i], now, realert) <==> i in at))
    && (forall k :: 0 <= k < |at| ==> msgs[k] == Raised(issues[at[k]].level, issues[at[k]].key, issues[at[k]].text))
  }

  /** The recoveries for the records at the places `gone`, which are all whose key has no issue. */
  ghost predicate Closes(msgs: seq<Message>, state: seq<Entry>, keys: set<string>, n: nat, gone: seq<nat>)
    requires n <= |state|
  {
    && Rising(gone, n) && |msgs| == |gone|
    && (forall i: nat :: i < n ==> (state[i].key !in keys <==> i in gone))
    && (forall k :: 0 <= k < |gone| ==> msgs[k] == Recovered(state[gone[k]].key, state[gone[k]].rec.first))
  }

  lemma RaiseMore(msgs: seq<Message>, issues: seq<Issue>, state: seq<Entry>, now: int, realert: int, n: nat,
                  at: seq<nat>)
    requires n < |issues| && Raises(msgs, issues, state, now, realert, n, at)
    ensures var x := issues[n];
      if Calls(state, x, now, realert)
      then Raises(msgs + [Raised(x.level, x.key, x.text)], issues, state, now, realert, n + 1, at + [n])
      else Raises(msgs, issues, state, now, realert, n + 1, at)
  {
    hide Calls;
    assert forall i: nat :: i in at + [n] <==> i in at || i == n;
  }

  lemma CloseMore(msgs: seq<Message>, state: seq<Entry>, keys: set<string>, n: nat, gone: seq<nat>)
    requires n < |state| && Closes(msgs, state, keys, n, gone)
    ensures var x := state[n];
      if x.key !in keys then Closes(msgs + [Recovered(x.key, x.rec.first)], state, keys, n + 1, gone + [n])
      else Closes(msgs, state, keys, n + 1, gone)
  {
    assert forall i: nat :: i in gone + [n] <==> i in gone || i == n;
  }

  lemma {:induction false} AlertMessages(issues: seq<Issue>, state: seq<Entry>, now: int, realert: int, n: nat)
    returns (at: seq<nat>)
    requires n <= |issues|
    ensures Raises(Alerts(issues[..n], state, now, realert), issues, state, now, realert, n, at)
  {
    hide Calls, Raises;
    at := [];
    if n == 0 {
      NothingRaised(issues, state, now, realert);
    } else {
      at := AlertMessages(issues, state, now, realert, n - 1);
      assert issues[..n][..n - 1] == issues[..n - 1];
      var before := Alerts(issues[..n - 1], state, now, realert);
      RaiseMore(before, issues, state, now, realert, n - 1, at);
      assert before + [] == before;
      DueIs(state, issues[n - 1], now, realert);
      hide Due;
      if Calls(state, issues[n - 1], now, realert) { at := at + [n - 1]; }
    }
  }

  lemma NothingRaised(issues: seq<Issue>, state: seq<Entry>, now: int, realert: int)
    ensures Raises([], issues, state, now, realert, 0, [])
  {
  }

  lemma DueIs(state: seq<Entry>, issue: Issue, now: int, realert: int)
    ensures Due(Find(state, issue.key), issue.level, now, realert) <==> Calls(state, issue, now, realert)
  {
  }

  lemma {:induction false} RecoveryMessages(state: seq<Entry>, keys: set<string>, n: nat) returns (gone: seq<nat>)
    requires n <= |state|
    ensures Closes(Recoveries(state[..n], keys), state, keys, n, gone)
  {
    hide Closes;
    gone := [];
    if n == 0 {
      NothingClosed(state, keys);
    } else {
      gone := RecoveryMessages(state, keys, n - 1);
      assert state[..n][..n - 1] == state[..n - 1];
      var before := Recoveries(state[..n - 1], keys);
      CloseMore(before, state, keys, n - 1, gone);
      assert before + [] == before;
      if state[n - 1].key !in keys { gone := gone + [n - 1]; }
    }
  }

  lemma NothingClosed(state: seq<Entry>, keys: set<string>)
    ensures Closes([], state, keys, 0, [])
  {
  }

  /**
   * The messages of a tick: each issue that calls for an alert, in order, in its own words, and then a recovery for
   * each record whose key has no issue any more, in order.
   */
  lemma TickMessages(issues: seq<Issue>, state: seq<Entry>, now: int, realert: int)
    returns (alerts: seq<Message>, at: seq<nat>, recoveries: seq<Message>, gone: seq<nat>)
    ensures Planned(issues, state, now, realert) == alerts + recoveries
    ensures Raises(alerts, issues, state, now, realert, |issues|, at)
    ensures Closes(recoveries, state, set x | x in issues :: x.key, |state|, gone)
  {
    hide Raises, Closes, Alerts, Recoveries;
    alerts, recoveries := Alerts(issues, state, now, realert), Recoveries(state, KeysOf(issues));
    at := AlertMessages(issues, state, now, realert, |issues|);
    gone := RecoveryMessages(state, KeysOf(issues), |state|);
    assert issues[..|issues|] == issues && state[..|state|] == state;
    assert KeysOf(issues) == set x | x in issues :: x.key;
  }

  // Runs.

  /** The record of a key repeats the last event of its log and the start of its last block. */
  ghost predicate Remembers(rec: Option<Record>, log: seq<Event>) {
    if Open(log) then rec == Some(Record(log[|log| - 1].level, log[|log| - 1].time, Opened(log))) else rec == None
  }

  lemma StepRemembers(rec: Option<Record>, log: seq<Event>, level: Option<Level>, now: int, realert: int)
    requires Remembers(rec, log)
    ensures var added := match level
        case Some(l) => if Due(rec, l, now, realert) then [RaisedAt(now, l)] else []
        case None => if rec.Some? then [RecoveredAt(now, rec.value.first)] else [];
      var next := match level
        case Some(l) => Some(Renewed(rec, l, now, realert))
        case None => None;
      added == Decided(log, level, now, realert) && Remembers(next, log + added)
  {
    match level
    case Some(l) =>
      if Due(rec, l, now, realert) {
        var more := log + [RaisedAt(now, l)];
        assert more[..|more| - 1] == log;
      } else {
        assert log + [] == log;
      }
    case None =>
  }

  lemma {:induction false} RunRemembers(ticks: seq<Tick>, key: string, realert: int)
    requires DistinctTicks(ticks)
    ensures Remembers(Find(StateAfter(ticks, realert), key), Log(ticks, key, realert))
    ensures ticks != [] ==>
      var init, last := ticks[..|ticks| - 1], ticks[|ticks| - 1];
      EventsOf(Sent(ticks, realert), key, last.now)
      == Decided(Log(init, key, realert), LevelOf(last.issues, key), last.now, realert)
  {
    hide DistinctIssues, DistinctKeys, Find, Planned, EventsOf, NextState, Remembers, Decided, Due, Renewed, LevelOf;
    if ticks == [] {
      NothingRemembered(key);
    } else {
      var init, last := ticks[..|ticks| - 1], ticks[|ticks| - 1];
      RunRemembers(init, key, realert);
      var state, log := StateAfter(init, realert), Log(init, key, realert);
      StateDistinct(init, realert);
      TickEvents(last.issues, state, last.now, realert, key);
      NextRecord(last.issues, state, last.now, realert, key);
      StepRemembers(Find(state, key), log, LevelOf(last.issues, key), last.now, realert);
    }
  }

  lemma NothingRemembered(key: string)
    ensures Remembers(Find([], key), [])
  {
  }

  lemma StateDistinct(ticks: seq<Tick>, realert: int)
    ensures DistinctKeys(StateAfter(ticks, realert))
  {
    hide DistinctKeys, NextState;
    NothingDistinct();
    if ticks != [] {
      var last := ticks[|ticks| - 1];
      NextStateDistinct(last.issues, StateAfter(ticks[..|ticks| - 1], realert), last.now, realert);
    }
  }

  /** What a tick sends about a key is decided by what was sent about it before. */
  lemma LogDecides(ticks: seq<Tick>, key: string, realert: int)
    requires DistinctTicks(ticks) && ticks != []
    ensures var init, last := ticks[..|ticks| - 1], ticks[|ticks| - 1];
      var log := Log(init, key, realert);
      Log(ticks, key, realert) == log + Decided(log, LevelOf(last.issues, key), last.now, realert)
  {
    hide DistinctTicks, Decided, EventsOf, Sent, LevelOf;
    RunRemembers(ticks, key, realert);
  }

  /**
   * Blocks of alerts closed by one recovery that names the block's first alert; alerts of one level that follow each
   * other are the re-alert period apart.
   */
  ghost predicate WellFormed(log: seq<Event>, realert: int) {
    forall i :: 0 <= i < |log| ==> EventFits(log, i, realert)
  }

  predicate EventFits(log: seq<Event>, i: nat, realert: int)
    requires i < |log|
  {
    match log[i]
    case RecoveredAt(_, first) => Open(log[..i]) && first == Opened(log[..i])
    case RaisedAt(time, level) => Open(log[..i]) && log[i - 1].level == level ==> time - log[i - 1].time >= realert
  }

  lemma DecidedIsWellFormed(log: seq<Event>, level: Option<Level>, now: int, realert: int)
    requires WellFormed(log, realert)
    ensures WellFormed(log + Decided(log, level, now, realert), realert)
  {
    hide Opened;
    var more := log + Decided(log, level, now, realert);
    assert more[..|log|] == log;
    forall i | 0 <= i < |more|
      ensures EventFits(more, i, realert)
    {
      if i < |log| {
        assert EventFits(log, i, realert);
        assert more[..i] == log[..i];
      }
    }
  }

  /** Every key's log is well formed, and the key is open in it exactly when the last tick reported it. */
  lemma {:induction false} EveryLogIsWellFormed(ticks: seq<Tick>, key: string, realert: int)
    requires DistinctTicks(ticks)
    ensures WellFormed(Log(ticks, key, realert), realert)
    ensures Open(Log(ticks, key, realert)) <==> ticks != [] && key in KeysOf(ticks[|ticks| - 1].issues)
  {
    hide WellFormed, Opened, EventsOf, Sent, LevelOf, KeysOf, DistinctIssues;
    if ticks == [] {
      NothingWellFormed(realert);
    } else {
      var init, last := ticks[..|ticks| - 1], ticks[|ticks| - 1];
      EveryLogIsWellFormed(init, key, realert);
      LogDecides(ticks, key, realert);
      DecidedIsWellFormed(Log(init, key, realert), LevelOf(last.issues, key), last.now, realert);
      LevelNone(last.issues, key);
    }
  }

  lemma NothingWellFormed(realert: int)
    ensures WellFormed([], realert)
  {
  }

  /** A tick that reports a key and sends nothing about it has a recent alert of the same level behind it. */
  lemma SilenceIsRecent(ticks: seq<Tick>, key: string, realert: int)
    requires DistinctTicks(ticks) && ticks != [] && key in KeysOf(ticks[|ticks| - 1].issues)
    ensures var init, last := ticks[..|ticks| - 1], ticks[|ticks| - 1];
      var log := Log(init, key, realert);
      Log(ticks, key, realert) == log <==>
        && Open(log) && LevelOf(last.issues, key) == Some(log[|log| - 1].level)
        && last.now - log[|log| - 1].time < realert
  {
    hide Opened, Log, LevelOf, KeysOf, DistinctTicks;
    var init, last := ticks[..|ticks| - 1], ticks[|ticks| - 1];
    var log := Log(init, key, realert);
    LogDecides(ticks, key, realert);
    LevelNone(last.issues, key);
    var added := Decided(log, LevelOf(last.issues, key), last.now, realert);
    assert LevelOf(last.issues, key).Some?;
    assert log + added == log <==> added == [];
  }
}

/**
 When the list of errors holds the latest error (docs/health/s1-live/aggregate.py, `_record_error`).

 The latest error is appended to the list when it is new, and the list keeps ten. It goes missing in exactly two ways:
 it is raised after a copy through JSON parted it from its place in the list, or ten other errors of its very time are
 filed behind it.
 */
module ErrorList {
  import opened ErrorHistory

  // ---------------------------------------------------------------- what an event does to the latest error

  /** The event becomes the latest error. */
  predicate Begins(events: seq<Event>, e: Event) {
    events == [] || (e.what != Summary(events).what && e.at > Summary(events).at)
  }

  /** The event is the latest error again, later. */
  predicate Raises(events: seq<Event>, e: Event) {
    events != [] && e.what == Summary(events).what && e.at > Summary(events).at
  }

  /** The event is another error at the same time. */
  predicate Ties(events: seq<Event>, e: Event) {
    events != [] && e.what != Summary(events).what && e.at == Summary(events).at
  }

  /** The step at which the latest error began. */
  function Start(steps: seq<Step>): (k: nat)
    requires Events(steps) != []
    ensures k < |steps|
  {
    var n := |steps| - 1;
    if steps[n].Recorded? && Begins(Events(steps[..n]), steps[n].event) then n else Start(steps[..n])
  }

  predicate RaisedAt(steps: seq<Step>, j: nat)
    requires j < |steps|
  {
    steps[j].Recorded? && Raises(Events(steps[..j]), steps[j].event)
  }

  /** The names recorded at the time of the latest error, beside its own, since it has had that time. */
  function Tied(steps: seq<Step>): set<string> {
    if steps == [] then {}
    else
      var init, last := steps[..|steps| - 1], steps[|steps| - 1];
      match last
      case CopiedThroughJson => Tied(init)
      case Recorded(e) =>
        if Begins(Events(init), e) || Raises(Events(init), e) then {}
        else if Ties(Events(init), e) then Tied(init) + {e.what}
        else Tied(init)
  }

  ghost predicate CopiedSince(steps: seq<Step>)
    requires Events(steps) != []
  {
    CopiedBetween(steps, Start(steps), |steps|)
  }

  ghost predicate CopiedBetween(steps: seq<Step>, k: nat, n: nat)
    requires n <= |steps|
  {
    exists i :: k < i < n && steps[i].CopiedThroughJson?
  }

  /** The latest error was raised after a copy. */
  ghost predicate Parted(steps: seq<Step>)
    requires Events(steps) != []
  {
    PartedBetween(steps, Start(steps), |steps|)
  }

  ghost predicate PartedBetween(steps: seq<Step>, k: nat, n: nat)
    requires n <= |steps|
  {
    exists j :: k < j < n && RaisedAt(steps, j) && CopiedBetween(steps, k, j)
  }

  /** Ten others had its time at once. */
  ghost predicate Crowded(steps: seq<Step>)
    requires Events(steps) != []
  {
    exists n :: Start(steps) < n <= |steps| && CrowdedAt(steps, n)
  }

  predicate CrowdedAt(steps: seq<Step>, n: nat)
    requires n <= |steps|
  {
    |Tied(steps[..n])| >= 10
  }

  /** The step leaves the latest error the one that it was. */
  predicate Goes(steps: seq<Step>) {
    && steps != [] && Events(steps[..|steps| - 1]) != []
    && (steps[|steps| - 1].Recorded? ==> !Begins(Events(steps[..|steps| - 1]), steps[|steps| - 1].event))
  }

  lemma StartStays(steps: seq<Step>)
    requires Goes(steps)
    ensures Events(steps) != [] && Start(steps) == Start(steps[..|steps| - 1])
  {
    hide Begins;
  }

  lemma SameCopies(steps: seq<Step>, k: nat, n: nat)
    requires steps != [] && n < |steps|
    ensures CopiedBetween(steps, k, n) <==> CopiedBetween(steps[..|steps| - 1], k, n)
  {
    var init := steps[..|steps| - 1];
    assert forall i :: 0 <= i < n ==> steps[i] == init[i];
    if CopiedBetween(steps, k, n) {
      var i :| k < i < n && steps[i].CopiedThroughJson?;
      assert init[i].CopiedThroughJson?;
    }
  }

  lemma NextCopied(steps: seq<Step>)
    requires Goes(steps)
    ensures Events(steps) != []
    ensures CopiedSince(steps) <==> CopiedSince(steps[..|steps| - 1]) || steps[|steps| - 1].CopiedThroughJson?
  {
    hide Start, Events, Begins, CopiedBetween;
    StartStays(steps);
    hide Goes;
    SameCopies(steps, Start(steps), |steps| - 1);
    OneMoreCopy(steps, Start(steps), |steps| - 1);
  }

  lemma OneMoreCopy(steps: seq<Step>, k: nat, n: nat)
    requires n < |steps|
    ensures CopiedBetween(steps, k, n + 1) <==> CopiedBetween(steps, k, n) || (k < n && steps[n].CopiedThroughJson?)
  {
  }

  lemma NextParted(steps: seq<Step>)
    requires Goes(steps)
    ensures Events(steps) != []
    ensures Parted(steps)
      <==> Parted(steps[..|steps| - 1]) || (CopiedSince(steps[..|steps| - 1]) && RaisedAt(steps, |steps| - 1))
  {
    StartStays(steps);
    hide Goes, Start, Events, RaisedAt, CopiedBetween, PartedBetween;
    var n, k := |steps| - 1, Start(steps);
    SameParted(steps, k, n);
    SameCopies(steps, k, n);
    OneMoreParted(steps, k, n);
  }

  lemma SameParted(steps: seq<Step>, k: nat, n: nat)
    requires steps != [] && n < |steps|
    ensures PartedBetween(steps, k, n) <==> PartedBetween(steps[..|steps| - 1], k, n)
  {
    hide RaisedAt, CopiedBetween;
    var init := steps[..|steps| - 1];
    forall j | 0 <= j < n
      ensures RaisedAt(steps, j) <==> RaisedAt(init, j)
      ensures CopiedBetween(steps, k, j) <==> CopiedBetween(init, k, j)
    {
      SameRaise(steps, j);
      SameCopies(steps, k, j);
    }
  }

  lemma OneMoreParted(steps: seq<Step>, k: nat, n: nat)
    requires k < n < |steps|
    ensures PartedBetween(steps, k, n + 1)
      <==> PartedBetween(steps, k, n) || (RaisedAt(steps, n) && CopiedBetween(steps, k, n))
  {
    hide RaisedAt, CopiedBetween;
  }

  lemma SameRaise(steps: seq<Step>, j: nat)
    requires steps != [] && j < |steps| - 1
    ensures RaisedAt(steps, j) <==> RaisedAt(steps[..|steps| - 1], j)
  {
    hide Events, Raises;
    assert steps[..j] == steps[..|steps| - 1][..j];
  }

  lemma NextCrowded(steps: seq<Step>)
    requires Goes(steps)
    ensures Events(steps) != []
    ensures Crowded(steps) <==> Crowded(steps[..|steps| - 1]) || |Tied(steps)| >= KEEP_ERRORS
  {
    hide Start, Events, Begins, Tied;
    StartStays(steps);
    hide Goes;
    var n, init := |steps| - 1, steps[..|steps| - 1];
    forall k | 0 <= k <= n
      ensures CrowdedAt(steps, k) <==> CrowdedAt(init, k)
    {
      assert steps[..k] == init[..k];
    }
    assert steps[..n + 1] == steps;
    assert CrowdedAt(steps, n + 1) <==> |Tied(steps)| >= KEEP_ERRORS;
    hide CrowdedAt;
    if Crowded(init) {
      var k :| Start(init) < k <= n && CrowdedAt(init, k);
      assert CrowdedAt(steps, k);
    }
    if Crowded(steps) {
      var k :| Start(steps) < k <= n + 1 && CrowdedAt(steps, k);
      assert k <= n ==> CrowdedAt(init, k);
    }
  }

  lemma FirstStep(steps: seq<Step>)
    requires steps != [] && steps[|steps| - 1].Recorded?
      && Begins(Events(steps[..|steps| - 1]), steps[|steps| - 1].event)
    ensures Events(steps) != [] && !CopiedSince(steps) && !Parted(steps) && !Crowded(steps) && Tied(steps) == {}
  {
    hide Begins;
    assert Start(steps) == |steps| - 1;
    hide Start;
    assert steps[..|steps|] == steps;
  }

  // ---------------------------------------------------------------- the end of the list

  /** The places that have the latest time, in order. */
  function Top(last: Error, cells: seq<Cell>): seq<Cell> {
    if cells == [] then []
    else
      var c := cells[|cells| - 1];
      Top(last, cells[..|cells| - 1]) + if Entry(last, c).at == last.at then [c] else []
  }

  lemma {:induction false} TopOfBoth(last: Error, a: seq<Cell>, b: seq<Cell>)
    ensures Top(last, a + b) == Top(last, a) + Top(last, b)
  {
    hide Entry;
    if b == [] {
      assert a + b == a;
    } else {
      TopOfBoth(last, a, b[..|b| - 1]);
      assert (a + b)[..|a + b| - 1] == a + b[..|b| - 1];
    }
  }

  lemma {:induction false} TopMembers(last: Error, cells: seq<Cell>)
    ensures forall c :: c in Top(last, cells) <==> c in cells && Entry(last, c).at == last.at
  {
    hide Entry;
    if cells != [] {
      var init, c := cells[..|cells| - 1], cells[|cells| - 1];
      TopMembers(last, init);
      assert forall x :: x in cells <==> x in init || x == c;
    }
  }

  lemma {:induction false} TopOfAll(last: Error, cells: seq<Cell>)
    requires forall c | c in cells :: Entry(last, c).at == last.at
    ensures Top(last, cells) == cells
  {
    hide Entry;
    if cells != [] {
      assert cells[|cells| - 1] in cells;
      assert forall c | c in cells[..|cells| - 1] :: c in cells;
      TopOfAll(last, cells[..|cells| - 1]);
    }
  }

  lemma {:induction false} TopOfNone(last: Error, cells: seq<Cell>)
    requires forall c | c in cells :: Entry(last, c).at != last.at
    ensures Top(last, cells) == []
  {
    hide Entry;
    if cells != [] {
      assert cells[|cells| - 1] in cells;
      assert forall c | c in cells[..|cells| - 1] :: c in cells;
      TopOfNone(last, cells[..|cells| - 1]);
    }
  }

  /** Nothing in the list is newer than the latest error. */
  ghost predicate Bounded(last: Error, cells: seq<Cell>) {
    forall c | c in cells :: Entry(last, c).at <= last.at
  }

  /** Insertion passes by what has the latest time. */
  lemma {:induction false} InsertBelow(last: Error, low: seq<Cell>, top: seq<Cell>, c: Cell)
    requires Entry(last, c).at < last.at && forall x | x in top :: Entry(last, x).at == last.at
    ensures Insert(last, low + top, c) == Insert(last, low, c) + top
    decreases |top|
  {
    if top == [] {
      assert low + top == low && Insert(last, low, c) + top == Insert(last, low, c);
    } else {
      var n := |top| - 1;
      assert top[n] in top && forall x | x in top[..n] :: x in top;
      InsertBelow(last, low, top[..n], c);
      assert (low + top)[..|low + top| - 1] == low + top[..n] && (low + top)[|low + top| - 1] == top[n];
      assert top == top[..n] + [top[n]];
    }
  }

  /** One insertion into a list that ends with what has the latest time. */
  lemma InsertTop(last: Error, before: seq<Cell>, top: seq<Cell>, c: Cell) returns (low: seq<Cell>)
    requires (forall x | x in before :: Entry(last, x).at < last.at)
      && (forall x | x in top :: Entry(last, x).at == last.at)
    requires Entry(last, c).at <= last.at
    ensures Insert(last, before + top, c) == low + (top + if Entry(last, c).at == last.at then [c] else [])
    ensures forall x | x in low :: (x in before || x == c) && Entry(last, x).at < last.at
  {
    hide Entry, Insert;
    if Entry(last, c).at == last.at {
      low := before;
      SortedEnd(last, before, top, c);
    } else {
      InsertBelow(last, before, top, c);
      low := Insert(last, before, c);
      InsertPermutes(last, before, c);
      forall x | x in low
        ensures x in before || x == c
      {
        assert x in multiset(low);
      }
      assert top + [] == top;
    }
  }

  /** The stable sort puts what has the latest time at the end, in the order it had. */
  lemma {:induction false} SortTop(last: Error, cells: seq<Cell>) returns (low: seq<Cell>)
    requires Bounded(last, cells)
    ensures Sort(last, cells) == low + Top(last, cells)
    ensures forall c | c in low :: c in cells && Entry(last, c).at < last.at
  {
    hide Entry, Insert;
    if cells == [] {
      low := [];
    } else {
      var init, c := cells[..|cells| - 1], cells[|cells| - 1];
      assert forall x | x in init :: x in cells;
      var before := SortTop(last, init);
      TopMembers(last, init);
      low := InsertTop(last, before, Top(last, init), c);
    }
  }

  lemma SortedEnd(last: Error, low: seq<Cell>, top: seq<Cell>, c: Cell)
    requires Entry(last, c).at == last.at
    requires (forall x | x in low :: Entry(last, x).at < last.at)
      && (forall x | x in top :: Entry(last, x).at == last.at)
    ensures Insert(last, low + top, c) == low + (top + [c])
  {
    var all := low + top;
    if all != [] { assert all[|all| - 1] in all; }
    assert all + [c] == low + (top + [c]);
  }

  lemma LatestMembers(n: nat, cells: seq<Cell>)
    ensures forall x | x in Latest(n, cells) :: x in cells
  {
  }

  /** What filing a late error leaves of the list. */
  lemma FiledTop(last: Error, cells: seq<Cell>, c: Cell)
    requires Bounded(last, cells + [c])
    ensures var filed, top := Latest(KEEP_ERRORS, Sort(last, cells + [c])), Top(last, cells + [c]);
      && (forall x | x in filed :: x in cells || x == c)
      && (|top| <= KEEP_ERRORS ==> Top(last, filed) == top)
      && (|top| > KEEP_ERRORS ==> filed == top[|top| - KEEP_ERRORS..])
  {
    var all := cells + [c];
    var low := SortTop(last, all);
    TopMembers(last, all);
    hide Entry, Top, Sort, Bounded;
    var top := Top(last, all);
    LatestMembers(KEEP_ERRORS, low + top);
    assert forall x | x in low + top :: x in all;
    if |top| <= KEEP_ERRORS { EndTop(last, low, top); }
  }

  lemma EndTop(last: Error, low: seq<Cell>, top: seq<Cell>)
    requires (forall x | x in low :: Entry(last, x).at < last.at)
      && (forall x | x in top :: Entry(last, x).at == last.at)
    requires |top| <= KEEP_ERRORS
    ensures Top(last, Latest(KEEP_ERRORS, low + top)) == top
  {
    hide Entry, Top;
    var k := if |low + top| <= KEEP_ERRORS then 0 else |low + top| - KEEP_ERRORS;
    assert Latest(KEEP_ERRORS, low + top) == low[k..] + top;
    TopOfBoth(last, low[k..], top);
    TopOfNone(last, low[k..]);
    TopOfAll(last, top);
    assert [] + top == top;
  }

  // ---------------------------------------------------------------- the list holds the latest error, or has lost it

  predicate Same(x: Error, last: Error) {
    x.what == last.what && x.first == last.first
  }

  ghost predicate ListsName(cells: seq<Cell>, what: string) {
    exists i :: 0 <= i < |cells| && cells[i].Own? && cells[i].error.what == what
  }

  /** Others at the latest time, one for each name. */
  ghost predicate Others(ties: seq<Cell>, last: Error, names: set<string>) {
    && |ties| == |names|
    && (forall c | c in ties :: c.Own? && c.error.at == c.error.first == last.at && c.error.what != last.what
                                && c.error.what in names)
    && (forall w | w in names :: ListsName(ties, w))
  }

  /** The latest error in the list: the object itself, or a copy of it as it is now. */
  function Place(copied: bool, last: Error): Cell {
    if copied then Own(last) else Shared
  }

  /** The place of the latest error is the only one that has its name and its first time. */
  ghost predicate OnlyPlace(cells: seq<Cell>, copied: bool, last: Error) {
    forall c | c in cells :: if c.Shared? then !copied else Same(c.error, last) ==> copied && c.error == last
  }

  /** The list holds the latest error, and behind it the others at its time. */
  ghost predicate Kept(h: History, copied: bool, names: set<string>) {
    h.Seen? &&
    var top := Top(h.last, h.cells);
    && top != [] && top[0] == Place(copied, h.last) && Others(top[1..], h.last, names) && |names| < KEEP_ERRORS
    && OnlyPlace(h.cells, copied, h.last)
  }

  /** The list has nothing of the latest error, or only what it was before it was raised. */
  ghost predicate Missing(h: History) {
    h.Seen? && forall c | c in h.cells :: c.Own? && (Same(c.error, h.last) ==> c.error.at < h.last.at)
  }

  lemma KeptIsListed(h: History, copied: bool, names: set<string>)
    requires Kept(h, copied, names)
    ensures h.last in Listed(h.last, h.cells)
  {
    hide Others, OnlyPlace;
    TopMembers(h.last, h.cells);
    hide Top;
    var c := Top(h.last, h.cells)[0];
    assert c in Top(h.last, h.cells);
    var i :| 0 <= i < |h.cells| && h.cells[i] == c;
    assert Listed(h.last, h.cells)[i] == h.last;
  }

  lemma MissingIsNotListed(h: History)
    requires Missing(h)
    ensures h.last !in Listed(h.last, h.cells)
  {
    forall i | 0 <= i < |h.cells|
      ensures Listed(h.last, h.cells)[i] != h.last
    {
      assert h.cells[i] in h.cells;
    }
  }

  // ---------------------------------------------------------------- each step

  /** What the history tells of the events bounds every place of the list. */
  lemma TracksBounds(h: History, events: seq<Event>)
    requires Tracks(h, events) && h.Seen?
    ensures Bounded(h.last, h.cells) && events != [] && h.last == Summary(events)
    ensures forall c | c in h.cells :: Entry(h.last, c).first <= Entry(h.last, c).at
  {
    hide Happened, Summary;
  }

  lemma SettledMembers(last: Error, cells: seq<Cell>)
    ensures forall c :: c in Settled(last, cells) <==> exists x :: x in cells && c == Own(Entry(last, x))
  {
    forall c | c in Settled(last, cells)
      ensures exists x :: x in cells && c == Own(Entry(last, x))
    {
      var i :| 0 <= i < |cells| && c == Own(Entry(last, cells[i]));
      assert cells[i] in cells;
    }
    forall x | x in cells
      ensures Own(Entry(last, x)) in Settled(last, cells)
    {
      var i :| 0 <= i < |cells| && cells[i] == x;
      assert Settled(last, cells)[i] == Own(Entry(last, x));
    }
  }

  lemma BeginsKept(h: History, events: seq<Event>, e: Event)
    requires Tracks(h, events) && Begins(events, e)
    ensures Kept(Record(h, e), false, {})
  {
    match h
    case Nothing =>
      TopOfAll(New(e), [Shared]);
    case Seen(last, cells) =>
      var settled := Settled(last, cells);
      BeginsLater(h, events, e);
      assert Record(h, e) == Seen(New(e), Latest(KEEP_ERRORS, settled + [Shared]));
      hide Tracks, Summary, Settled, Kept, Record, Latest;
      EndsShared(settled, New(e));
  }

  /** What is listed before a new latest error is older than it. */
  lemma BeginsLater(h: History, events: seq<Event>, e: Event)
    requires Tracks(h, events) && Begins(events, e) && h.Seen?
    ensures h.last.what != e.what && e.at > h.last.at
    ensures forall c | c in Settled(h.last, h.cells) :: c.Own? && c.error.first <= c.error.at < e.at
  {
    TracksBounds(h, events);
    SettledMembers(h.last, h.cells);
    hide Settled;
  }

  /** A new latest error is the last place of the list. */
  lemma EndsShared(settled: seq<Cell>, last: Error)
    requires last.first == last.at && forall c | c in settled :: c.Own? && c.error.first <= c.error.at < last.at
    ensures Kept(Seen(last, Latest(KEEP_ERRORS, settled + [Shared])), false, {})
  {
    LatestEnd(KEEP_ERRORS, settled, Shared);
    var front := Latest(KEEP_ERRORS - 1, settled);
    LatestMembers(KEEP_ERRORS - 1, settled);
    hide Latest;
    TopOfNone(last, front);
    TopOfAll(last, [Shared]);
    TopOfBoth(last, front, [Shared]);
    hide Top;
    assert Top(last, front + [Shared]) == [Shared];
  }

  lemma LatestEnd(n: nat, cells: seq<Cell>, c: Cell)
    requires n > 0
    ensures Latest(n, cells + [c]) == Latest(n - 1, cells) + [c]
  {
  }

  lemma {:induction false} SharedTop(last: Error, next: Error, cells: seq<Cell>)
    requires Bounded(last, cells) && next.at > last.at
    ensures |Top(next, cells)| <= |Top(last, cells)|
    ensures forall c | c in Top(next, cells) :: c == Shared
  {
    TopMembers(next, cells);
    if cells != [] {
      assert forall c | c in cells[..|cells| - 1] :: c in cells;
      assert cells[|cells| - 1] in cells;
      SharedTop(last, next, cells[..|cells| - 1]);
    }
  }

  /** How many places share the latest error. */
  function Shares(cells: seq<Cell>): nat {
    if cells == [] then 0 else Shares(cells[..|cells| - 1]) + if cells[|cells| - 1].Shared? then 1 else 0
  }

  lemma {:induction false} SharesOfTop(last: Error, cells: seq<Cell>)
    ensures Shares(Top(last, cells)) == Shares(cells)
  {
    if cells != [] {
      var init, c := cells[..|cells| - 1], cells[|cells| - 1];
      SharesOfTop(last, init);
      var top := Top(last, cells);
      if Entry(last, c).at == last.at {
        assert top[..|top| - 1] == Top(last, init);
      } else {
        assert Top(last, init) + [] == Top(last, init);
      }
    }
  }

  lemma {:induction false} AllShared(cells: seq<Cell>)
    requires forall c | c in cells :: c == Shared
    ensures Shares(cells) == |cells|
  {
    if cells != [] {
      var init := cells[..|cells| - 1];
      assert cells[|cells| - 1] in cells;
      forall c | c in init
        ensures c == Shared
      {
        assert c in cells;
      }
      AllShared(init);
    }
  }

  lemma {:induction false} FirstShared(cells: seq<Cell>)
    requires cells != [] && cells[0] == Shared && forall c | c in cells[1..] :: c.Own?
    ensures Shares(cells) == 1
  {
    if |cells| == 1 {
      assert cells[..0] == [];
    } else {
      var init := cells[..|cells| - 1];
      assert cells[|cells| - 1] in cells[1..];
      assert forall c | c in init[1..] :: c in cells[1..];
      FirstShared(init);
    }
  }

  /** The object is raised with its place in the list. */
  lemma RaisesKept(h: History, events: seq<Event>, names: set<string>, e: Event)
    requires Tracks(h, events) && Raises(events, e) && Kept(h, false, names)
    ensures Kept(Record(h, e), false, {})
  {
    TracksBounds(h, events);
    hide Tracks, Summary;
    var last, next := h.last, h.last.(at := e.at, source := e.source);
    assert Record(h, e) == Seen(next, h.cells);
    var top := Top(next, h.cells);
    SharedTop(last, next, h.cells);
    FirstShared(Top(last, h.cells));
    SharesOfTop(last, h.cells);
    SharesOfTop(next, h.cells);
    AllShared(top);
    assert top == [Shared];
  }

  /** A place that was parted from the object keeps the time it had. */
  lemma RaisesMissing(h: History, events: seq<Event>, names: set<string>, e: Event)
    requires Tracks(h, events) && Raises(events, e) && (Kept(h, true, names) || Missing(h))
    ensures Missing(Record(h, e))
  {
    TracksBounds(h, events);
    hide Tracks, Summary, Top, Others;
  }

  lemma CopyKept(h: History, copied: bool, names: set<string>)
    requires Kept(h, copied, names)
    ensures Kept(Copied(h), true, names)
  {
    var last, cells := h.last, h.cells;
    TopSettled(last, cells);
    SettledMembers(last, cells);
    var top := Top(last, cells);
    assert Settled(last, top)[0] == Own(last);
    assert Settled(last, top)[1..] == top[1..] by {
      forall i | 1 <= i < |top|
        ensures Settled(last, top)[i] == top[i]
      {
        assert top[i] == top[1..][i - 1] && top[i] in top[1..];
      }
    }
  }

  lemma {:induction false} TopSettled(last: Error, cells: seq<Cell>)
    ensures Top(last, Settled(last, cells)) == Settled(last, Top(last, cells))
  {
    if cells != [] {
      var init, c := cells[..|cells| - 1], cells[|cells| - 1];
      TopSettled(last, init);
      assert Settled(last, cells) == Settled(last, init) + [Own(Entry(last, c))];
      assert Settled(last, Top(last, init) + [c]) == Settled(last, Top(last, init)) + [Own(Entry(last, c))];
      assert Top(last, init) + [] == Top(last, init);
    }
  }

  lemma CopyMissing(h: History)
    requires Missing(h)
    ensures Missing(Copied(h))
  {
    SettledMembers(h.last, h.cells);
  }

  /** A different error filed late, at an earlier time. */
  lemma EarlierKept(h: History, events: seq<Event>, copied: bool, names: set<string>, e: Event)
    requires Tracks(h, events) && Kept(h, copied, names) && e.what != h.last.what && e.at < h.last.at
    ensures Kept(Record(h, e), copied, names)
  {
    TracksBounds(h, events);
    hide Tracks, Others, IsListed;
    var c := Own(New(e));
    assert Top(h.last, h.cells + [c]) == Top(h.last, h.cells) by {
      TopOfBoth(h.last, h.cells, [c]);
      TopOfNone(h.last, [c]);
      assert Top(h.last, h.cells) + [] == Top(h.last, h.cells);
    }
    KeptSize(h, copied, names);
    FiledTop(h.last, h.cells, c);
  }

  lemma KeptSize(h: History, copied: bool, names: set<string>)
    requires Kept(h, copied, names)
    ensures |Top(h.last, h.cells)| == 1 + |names|
  {
    hide Top, OnlyPlace;
  }

  /** A name that the list has at the latest time is not filed again. */
  lemma ListedTie(h: History, events: seq<Event>, copied: bool, names: set<string>, e: Event)
    requires Tracks(h, events) && Kept(h, copied, names) && e.what != h.last.what && e.at == h.last.at
    ensures IsListed(e, h.last, h.cells) <==> e.what in names
  {
    TracksBounds(h, events);
    hide Tracks;
    if e.what in names { NameIsListed(h, copied, names, e); }
    if IsListed(e, h.last, h.cells) { ListedIsName(h, copied, names, e); }
  }

  lemma NameIsListed(h: History, copied: bool, names: set<string>, e: Event)
    requires Kept(h, copied, names) && e.at == h.last.at && e.what in names
    ensures IsListed(e, h.last, h.cells)
  {
    TopMembers(h.last, h.cells);
    hide Top, OnlyPlace;
    var top := Top(h.last, h.cells);
    assert ListsName(top[1..], e.what);
    var i :| 0 <= i < |top[1..]| && top[1..][i].Own? && top[1..][i].error.what == e.what;
    var c := top[1..][i];
    assert c in top[1..] && c == top[i + 1] && c in top;
    var k :| 0 <= k < |h.cells| && h.cells[k] == c;
    assert Names(Entry(h.last, h.cells[k]), e);
  }

  lemma ListedIsName(h: History, copied: bool, names: set<string>, e: Event)
    requires Kept(h, copied, names) && e.what != h.last.what && e.at == h.last.at && Bounded(h.last, h.cells)
    requires forall c | c in h.cells :: Entry(h.last, c).first <= Entry(h.last, c).at
    requires IsListed(e, h.last, h.cells)
    ensures e.what in names
  {
    TopMembers(h.last, h.cells);
    hide Top, OnlyPlace, ListsName;
    var top := Top(h.last, h.cells);
    var k :| 0 <= k < |h.cells| && Names(Entry(h.last, h.cells[k]), e);
    var c := h.cells[k];
    assert c in h.cells;
    var i :| 0 <= i < |top| && top[i] == c;
    assert i > 0;
    assert c == top[1..][i - 1] && c in top[1..];
  }

  /** One more other error at the latest time: the tenth pushes the latest error out. */
  lemma TieFiled(h: History, events: seq<Event>, copied: bool, names: set<string>, e: Event)
    requires Tracks(h, events) && Kept(h, copied, names) && e.what != h.last.what && e.at == h.last.at
    ensures var more := names + {e.what};
      if |more| < KEEP_ERRORS then Kept(Record(h, e), copied, more) else Missing(Record(h, e))
  {
    ListedTie(h, events, copied, names, e);
    TracksBounds(h, events);
    hide Tracks, IsListed;
    if e.what in names {
      assert names + {e.what} == names;
    } else {
      TieAdded(h, copied, names, e);
    }
  }

  lemma TieAdded(h: History, copied: bool, names: set<string>, e: Event)
    requires Kept(h, copied, names) && e.what != h.last.what && e.at == h.last.at && e.what !in names
    requires Bounded(h.last, h.cells)
    ensures var filed := Seen(h.last, Latest(KEEP_ERRORS, Sort(h.last, h.cells + [Own(New(e))])));
      var more := names + {e.what};
      if |more| < KEEP_ERRORS then Kept(filed, copied, more) else Missing(filed)
  {
    hide Top, Sort, Bounded, Others, OnlyPlace, Entry, Latest;
    var c, top, more := Own(New(e)), Top(h.last, h.cells), names + {e.what};
    TieTop(h, copied, names, e);
    FiledTop(h.last, h.cells, c);
    var filed := Latest(KEEP_ERRORS, Sort(h.last, h.cells + [c]));
    assert top != [] && top[0] == Place(copied, h.last) && OnlyPlace(h.cells, copied, h.last);
    hide *;
    assert |more| == |names| + 1 && |top + [c]| == |more| + 1;
    assert (top + [c])[1..] == top[1..] + [c];
    if |more| < KEEP_ERRORS {
      TieKept(h, copied, more, e, filed, top);
    } else {
      OthersMissing(filed, h.last, more);
    }
  }

  lemma TieKept(h: History, copied: bool, names: set<string>, e: Event, filed: seq<Cell>, top: seq<Cell>)
    requires h.Seen? && e.what != h.last.what && |names| < KEEP_ERRORS && OnlyPlace(h.cells, copied, h.last)
    requires top != [] && top[0] == Place(copied, h.last) && Others(top[1..] + [Own(New(e))], h.last, names)
    requires Top(h.last, filed) == top + [Own(New(e))] && forall x | x in filed :: x in h.cells || x == Own(New(e))
    ensures Kept(Seen(h.last, filed), copied, names)
  {
    hide Top, Others;
    assert (top + [Own(New(e))])[1..] == top[1..] + [Own(New(e))];
  }

  lemma TieTop(h: History, copied: bool, names: set<string>, e: Event)
    requires Kept(h, copied, names) && e.what != h.last.what && e.at == h.last.at && e.what !in names
    requires Bounded(h.last, h.cells)
    ensures var c, top := Own(New(e)), Top(h.last, h.cells);
      && Top(h.last, h.cells + [c]) == top + [c] && Bounded(h.last, h.cells + [c])
      && |top| == 1 + |names| && Others(top[1..] + [c], h.last, names + {e.what})
  {
    var c, top := Own(New(e)), Top(h.last, h.cells);
    assert Top(h.last, h.cells + [c]) == top + [c] by {
      TopOfBoth(h.last, h.cells, [c]);
      TopOfAll(h.last, [c]);
    }
    hide Top, OnlyPlace;
    KeptSize(h, copied, names);
    OneMoreOther(top[1..], h.last, names, c);
  }

  /** A list of nothing but others. */
  lemma OthersMissing(cells: seq<Cell>, last: Error, names: set<string>)
    requires Others(cells, last, names)
    ensures Missing(Seen(last, cells))
  {
    hide ListsName;
  }

  lemma OneMoreOther(ties: seq<Cell>, last: Error, names: set<string>, c: Cell)
    requires Others(ties, last, names) && c.Own? && c.error.at == c.error.first == last.at && c.error.what != last.what
    requires c.error.what !in names
    ensures Others(ties + [c], last, names + {c.error.what})
  {
    var more := ties + [c];
    assert forall i :: 0 <= i < |ties| ==> more[i] == ties[i];
    assert more[|ties|] == c;
  }

  /** What was lost does not come back, whatever else is filed. */
  lemma LateMissing(h: History, events: seq<Event>, e: Event)
    requires Tracks(h, events) && Missing(h) && e.what != h.last.what && e.at <= h.last.at
    ensures Missing(Record(h, e))
  {
    TracksBounds(h, events);
    hide Tracks, IsListed;
    FiledTop(h.last, h.cells, Own(New(e)));
  }

  // ---------------------------------------------------------------- all steps

  ghost predicate Follows(h: History, lost: bool, copied: bool, names: set<string>) {
    if lost then Missing(h) else Kept(h, copied, names)
  }

  /** An event that leaves the latest error the one that it was. */
  lemma EventFollows(h: History, events: seq<Event>, e: Event, lost: bool, copied: bool, names: set<string>)
    requires Tracks(h, events) && events != [] && !Begins(events, e) && Follows(h, lost, copied, names)
    ensures var more := if Raises(events, e) then {} else if Ties(events, e) then names + {e.what} else names;
      Follows(Record(h, e), lost || (copied && Raises(events, e)) || |more| >= KEEP_ERRORS, copied, more)
  {
    assert h.Seen? && h.last == Summary(events) by { hide Sound, AllSound; }
    assert !lost ==> |names| < KEEP_ERRORS;
    hide Tracks, Missing, Kept, Summary, IsListed, Sort, Latest;
    if Raises(events, e) {
      if lost || copied {
        RaisesMissing(h, events, names, e);
      } else {
        RaisesKept(h, events, names, e);
      }
    } else if e.what != h.last.what {
      if lost {
        LateMissing(h, events, e);
      } else if e.at == h.last.at {
        TieFiled(h, events, copied, names, e);
      } else {
        EarlierKept(h, events, copied, names, e);
      }
    }
  }

  lemma TiedNext(steps: seq<Step>)
    requires Goes(steps)
    ensures var init, last := steps[..|steps| - 1], steps[|steps| - 1];
      match last
      case CopiedThroughJson => Tied(steps) == Tied(init) && !RaisedAt(steps, |steps| - 1)
      case Recorded(e) =>
        && (RaisedAt(steps, |steps| - 1) <==> Raises(Events(init), e))
        && Tied(steps) == if Raises(Events(init), e) then {}
                          else if Ties(Events(init), e) then Tied(init) + {e.what} else Tied(init)
  {
    hide Begins, Raises, Ties, Events;
  }

  /** The history after any steps: the list holds the latest error unless it was parted from it or crowded out. */
  lemma {:induction false} ListFollows(steps: seq<Step>)
    requires Events(steps) != []
    ensures Follows(After(steps), Parted(steps) || Crowded(steps), CopiedSince(steps), Tied(steps))
  {
    var init, last := steps[..|steps| - 1], steps[|steps| - 1];
    HistoryTracks(init);
    if last.Recorded? && Begins(Events(init), last.event) {
      hide Parted, Crowded, Kept, CopiedSince, Tied, Record, Tracks, Begins, Start, Events;
      FirstStep(steps);
      BeginsKept(After(init), Events(init), last.event);
    } else {
      SomeEvents(steps);
      assert Goes(steps);
      NextCopied(steps);
      NextParted(steps);
      NextCrowded(steps);
      TiedNext(steps);
      ListFollows(init);
      hide Parted, Crowded, CopiedSince, Tied, Record, Copied, Tracks, Begins, Start, Events, Raises, Ties, RaisedAt;
      hide Goes;
      match last
      case CopiedThroughJson =>
        if Parted(init) || Crowded(init) {
          CopyMissing(After(init));
        } else {
          CopyKept(After(init), CopiedSince(init), Tied(init));
        }
      case Recorded(e) =>
        var lost := Parted(init) || Crowded(init);
        hide Missing, Kept;
        EventFollows(After(init), Events(init), e, lost, CopiedSince(init), Tied(init));
    }
  }

  lemma SomeEvents(steps: seq<Step>)
    requires Events(steps) != []
    requires steps[|steps| - 1].Recorded? ==> !Begins(Events(steps[..|steps| - 1]), steps[|steps| - 1].event)
    ensures Events(steps[..|steps| - 1]) != []
  {
  }

  /**
   The list holds the latest error exactly when it was not raised after a copy that came after it began, and no ten
   other errors of different names were recorded at its time while it had that time.
   */
  lemma ListedExactly(steps: seq<Step>)
    requires Events(steps) != []
    ensures var h := After(steps);
      h.Seen? && (h.last in Listed(h.last, h.cells) <==> !Parted(steps) && !Crowded(steps))
  {
    hide Parted, Crowded, Kept, Missing, CopiedSince, Tied, After, Events;
    var h := After(steps);
    ListFollows(steps);
    if Parted(steps) || Crowded(steps) {
      assert h.Seen? by { FollowsSeen(h, true, CopiedSince(steps), Tied(steps)); }
      MissingIsNotListed(h);
    } else {
      assert h.Seen? by { FollowsSeen(h, false, CopiedSince(steps), Tied(steps)); }
      KeptIsListed(h, CopiedSince(steps), Tied(steps));
    }
  }

  lemma FollowsSeen(h: History, lost: bool, copied: bool, names: set<string>)
    requires Follows(h, lost, copied, names)
    ensures h.Seen?
  {
  }

  // ---------------------------------------------------------------- both ways happen

  /** The latest error, at one time, and then others at the same time. */
  function WithTies(e: Event, names: seq<string>): seq<Step> {
    if names == [] then [Recorded(e)]
    else WithTies(e, names[..|names| - 1]) + [Recorded(Event(e.at, names[|names| - 1], e.source))]
  }

  lemma {:induction false} TiesAre(e: Event, names: seq<string>)
    requires (forall i :: 0 <= i < |names| ==> names[i] != e.what)
    requires (forall i, j :: 0 <= i < j < |names| ==> names[i] != names[j])
    ensures var steps := WithTies(e, names);
      && Events(steps) != [] && Summary(Events(steps)) == New(e) && Start(steps) == 0
      && |steps| == |names| + 1 && |Tied(steps)| == |names| && (forall w :: w in Tied(steps) <==> w in names)
  {
    var steps := WithTies(e, names);
    if names == [] {
      assert steps[..0] == [];
    } else {
      var init, w := names[..|names| - 1], names[|names| - 1];
      TiesAre(e, init);
      assert steps[..|steps| - 1] == WithTies(e, init);
      SummaryStep(Events(WithTies(e, init)), Event(e.at, w, e.source));
      assert w !in init;
      assert forall x :: x in names <==> x in init || x == w;
    }
  }

  const TEN_NAMES := ["b", "c", "d", "e", "f", "g", "h", "i", "j", "k"]

  /** No copy is needed: ten other errors at the time of the latest one push it out of its own list. */
  lemma TiesHideTheLatest()
    ensures var h := After(WithTies(Event(5, "a", "probe"), TEN_NAMES));
      h.Seen? && h.last.at == 5 && h.last !in Listed(h.last, h.cells)
  {
    var e := Event(5, "a", "probe");
    var steps := WithTies(e, TEN_NAMES);
    assert forall i, j :: 0 <= i < j < |TEN_NAMES| ==> TEN_NAMES[i][0] != TEN_NAMES[j][0];
    TiesAre(e, TEN_NAMES);
    hide WithTies, Tied, Start;
    HistoryTracks(steps);
    assert Crowded(steps) by { assert steps[..|steps|] == steps && CrowdedAt(steps, |steps|); }
    hide After, Events, Crowded;
    ListedExactly(steps);
  }

  /** A copy, and then the same error again: the list has it only as it was. */
  lemma CopyHidesTheLatest()
    ensures var steps := [Recorded(Event(1, "a", "probe")), CopiedThroughJson, Recorded(Event(2, "a", "probe"))];
      var h := After(steps);
      h.Seen? && h.last.at == 2 && h.last !in Listed(h.last, h.cells)
  {
    var e, f := Event(1, "a", "probe"), Event(2, "a", "probe");
    var steps := [Recorded(e), CopiedThroughJson, Recorded(f)];
    assert steps[..2] == [Recorded(e), CopiedThroughJson] && steps[..2][..1] == [Recorded(e)]
      && [Recorded(e)][..0] == [];
    assert After([Recorded(e)]) == Seen(New(e), [Shared]);
    assert After(steps[..2]) == Seen(New(e), Settled(New(e), [Shared]));
    assert Settled(New(e), [Shared]) == [Own(New(e))];
    assert Listed(After(steps).last, After(steps).cells) == [New(e)];
  }
}

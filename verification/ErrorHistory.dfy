/**
 * The error history of one component in docs/health/s1-live/aggregate.py.
 *
 * The latest error is an object that the list of errors usually shares, so an update of one shows in the other, until
 * the state is copied through JSON. The main result is that the latest error is nevertheless a function of the events
 * alone: the first one recorded at the latest time, whatever the order of events and wherever the copies fall.
 */
module ErrorHistory {

  const KEEP_ERRORS: nat := 10

  datatype Event = Event(at: int, what: string, source: string)

  datatype Error = Error(at: int, first: int, what: string, source: string)

  /** A place in the list: the object of the latest error itself, or an object of its own. */
  datatype Cell = Shared | Own(error: Error)

  datatype History = Nothing | Seen(last: Error, cells: seq<Cell>)

  function New(e: Event): Error {
    Error(e.at, e.at, e.what, e.source)
  }

  function Entry(last: Error, cell: Cell): Error {
    if cell.Shared? then last else cell.error
  }

  /** The listed errors, oldest first. */
  function Listed(last: Error, cells: seq<Cell>): (r: seq<Error>)
    ensures |r| == |cells|
  {
    seq(|cells|, i requires 0 <= i < |cells| => Entry(last, cells[i]))
  }

  /** The list when no place shares the latest error any more. */
  function Settled(last: Error, cells: seq<Cell>): (r: seq<Cell>)
    ensures |r| == |cells|
  {
    seq(|cells|, i requires 0 <= i < |cells| => Own(Entry(last, cells[i])))
  }

  function Latest<T>(n: nat, ts: seq<T>): seq<T> {
    if |ts| <= n then ts else ts[|ts| - n..]
  }

  /** Stable insertion: after everything that is not newer. */
  function Insert(last: Error, cells: seq<Cell>, cell: Cell): seq<Cell> {
    if cells == [] || Entry(last, cells[|cells| - 1]).at <= Entry(last, cell).at then cells + [cell]
    else Insert(last, cells[..|cells| - 1], cell) + [cells[|cells| - 1]]
  }

  /** The stable sort by time. */
  function Sort(last: Error, cells: seq<Cell>): seq<Cell> {
    if cells == [] then [] else Insert(last, Sort(last, cells[..|cells| - 1]), cells[|cells| - 1])
  }

  predicate IsListed(e: Event, last: Error, cells: seq<Cell>) {
    exists i :: 0 <= i < |cells| && Names(Entry(last, cells[i]), e)
  }

  predicate Names(x: Error, e: Event) {
    x.what == e.what && x.first == e.at
  }

  function Record(h: History, e: Event): History {
    match h
    case Nothing => Seen(New(e), [Shared])
    case Seen(last, cells) =>
      if last.what == e.what then
        if e.at > last.at then Seen(last.(at := e.at, source := e.source), cells) else h
      else if e.at <= last.at then
        if IsListed(e, last, cells) then h
        else Seen(last, Latest(KEEP_ERRORS, Sort(last, cells + [Own(New(e))])))
      else Seen(New(e), Latest(KEEP_ERRORS, Settled(last, cells) + [Shared]))
  }

  /** The state after it was written to JSON and read back. */
  function Copied(h: History): History {
    match h
    case Nothing => Nothing
    case Seen(last, cells) => Seen(last, Settled(last, cells))
  }

  // The sort.

  lemma {:induction false} InsertPermutes(last: Error, cells: seq<Cell>, cell: Cell)
    ensures multiset(Insert(last, cells, cell)) == multiset(cells) + multiset{cell}
  {
    if cells != [] && Entry(last, cells[|cells| - 1]).at > Entry(last, cell).at {
      InsertPermutes(last, cells[..|cells| - 1], cell);
      assert cells == cells[..|cells| - 1] + [cells[|cells| - 1]];
    }
  }

  lemma {:induction false} SortPermutes(last: Error, cells: seq<Cell>)
    ensures multiset(Sort(last, cells)) == multiset(cells)
  {
    if cells != [] {
      SortPermutes(last, cells[..|cells| - 1]);
      InsertPermutes(last, Sort(last, cells[..|cells| - 1]), cells[|cells| - 1]);
      assert cells == cells[..|cells| - 1] + [cells[|cells| - 1]];
    }
  }

  ghost predicate Sorted(last: Error, cells: seq<Cell>) {
    forall i, j :: 0 <= i < j < |cells| ==> Entry(last, cells[i]).at <= Entry(last, cells[j]).at
  }

  lemma {:induction false} InsertSorts(last: Error, cells: seq<Cell>, cell: Cell)
    requires Sorted(last, cells)
    ensures Sorted(last, Insert(last, cells, cell))
  {
    if cells != [] && Entry(last, cells[|cells| - 1]).at > Entry(last, cell).at {
      var init := cells[..|cells| - 1];
      InsertSorts(last, init, cell);
      var r := Insert(last, init, cell);
      InsertPermutes(last, init, cell);
      forall i | 0 <= i < |r|
        ensures Entry(last, r[i]).at <= Entry(last, cells[|cells| - 1]).at
      {
        assert r[i] in multiset(r);
        assert r[i] == cell || r[i] in init;
      }
    }
  }

  /** The list is in order of time after a late error is filed. */
  lemma {:induction false} SortSorts(last: Error, cells: seq<Cell>)
    ensures Sorted(last, Sort(last, cells))
  {
    if cells != [] {
      SortSorts(last, cells[..|cells| - 1]);
      InsertSorts(last, Sort(last, cells[..|cells| - 1]), cells[|cells| - 1]);
    }
  }

  // What one event does to the list.

  /** The newest ten. */
  function Ten(xs: seq<Error>): seq<Error> {
    if |xs| <= 10 then xs else xs[|xs| - 10..]
  }

  ghost predicate InOrder(xs: seq<Error>) {
    forall i, j :: 0 <= i < j < |xs| ==> xs[i].at <= xs[j].at
  }

  /** A later event of another name is the new latest error, and follows the list as it was. */
  lemma LaterFollows(h: History, e: Event)
    requires h.Seen? && e.what != h.last.what && e.at > h.last.at
    ensures var x, after := Error(e.at, e.at, e.what, e.source), Record(h, e);
      after.Seen? && after.last == x && Listed(x, after.cells) == Ten(Listed(h.last, h.cells) + [x])
  {
    var x := New(e);
    var all := Settled(h.last, h.cells) + [Shared];
    assert Listed(x, all) == Listed(h.last, h.cells) + [x];
    assert Listed(x, Latest(10, all)) == Ten(Listed(x, all));
  }

  /**
   * An event of another name that is not later is filed in order of time, unless the list has that name from that time;
   * what does not fit in ten places is no newer than what stays.
   */
  lemma LateIsFiled(h: History, e: Event)
    requires h.Seen? && e.what != h.last.what && e.at <= h.last.at
    ensures var x, before, after := Error(e.at, e.at, e.what, e.source), Listed(h.last, h.cells), Record(h, e);
      && after.Seen? && after.last == h.last
      && var now := Listed(after.last, after.cells);
         if exists y | y in before :: y.what == e.what && y.first == e.at then now == before
         else
           && InOrder(now) && |now| == (if |before| < 10 then |before| + 1 else 10)
           && multiset(now) <= multiset(before + [x])
           && forall y, z | y in multiset(before + [x]) - multiset(now) && z in now :: y.at <= z.at
  {
    ListedNames(h, e);
    var before := Listed(h.last, h.cells);
    if !IsListed(e, h.last, h.cells) {
      var late := h.cells + [Own(New(e))];
      var sorted := Sort(h.last, late);
      SortPermutes(h.last, late);
      SortSorts(h.last, late);
      SortShows(h.last, late);
      assert Listed(h.last, late) == before + [New(e)];
      hide Sort;
      var all := Listed(h.last, sorted);
      assert |sorted| == |late| by { assert |multiset(sorted)| == |multiset(late)|; }
      assert Listed(h.last, Latest(10, sorted)) == Ten(all);
      assert InOrder(all);
      TenAreNewest(all);
    }
  }

  lemma ListedNames(h: History, e: Event)
    requires h.Seen?
    ensures IsListed(e, h.last, h.cells)
      <==> exists y | y in Listed(h.last, h.cells) :: y.what == e.what && y.first == e.at
  {
    var xs := Listed(h.last, h.cells);
    assert forall i :: 0 <= i < |xs| ==> xs[i] == Entry(h.last, h.cells[i]) && xs[i] in xs;
  }

  /** The sort shows the same errors. */
  lemma {:induction false} SortShows(last: Error, cells: seq<Cell>)
    ensures multiset(Listed(last, Sort(last, cells))) == multiset(Listed(last, cells))
  {
    if cells != [] {
      var init, c := cells[..|cells| - 1], cells[|cells| - 1];
      SortShows(last, init);
      InsertShows(last, Sort(last, init), c);
      assert Listed(last, cells) == Listed(last, init) + [Entry(last, c)];
    }
  }

  lemma {:induction false} InsertShows(last: Error, cells: seq<Cell>, c: Cell)
    ensures multiset(Listed(last, Insert(last, cells, c))) == multiset(Listed(last, cells)) + multiset{Entry(last, c)}
  {
    if cells == [] || Entry(last, cells[|cells| - 1]).at <= Entry(last, c).at {
      assert Listed(last, cells + [c]) == Listed(last, cells) + [Entry(last, c)];
    } else {
      var init, d := cells[..|cells| - 1], cells[|cells| - 1];
      InsertShows(last, init, c);
      assert Listed(last, Insert(last, cells, c)) == Listed(last, Insert(last, init, c)) + [Entry(last, d)];
      assert Listed(last, cells) == Listed(last, init) + [Entry(last, d)];
    }
  }

  lemma TenAreNewest(xs: seq<Error>)
    requires InOrder(xs)
    ensures InOrder(Ten(xs)) && multiset(Ten(xs)) <= multiset(xs)
    ensures forall y, z | y in multiset(xs) - multiset(Ten(xs)) && z in Ten(xs) :: y.at <= z.at
  {
    if |xs| > 10 {
      var k := |xs| - 10;
      assert xs == xs[..k] + xs[k..];
      forall y, z | y in multiset(xs) - multiset(Ten(xs)) && z in Ten(xs)
        ensures y.at <= z.at
      {
        assert y in multiset(xs[..k]);
        var i :| 0 <= i < k && xs[i] == y;
        var j :| k <= j < |xs| && xs[j] == z;
      }
    }
  }

  /** An event of the name of the latest error raises it when it is later, wherever the list shares it. */
  lemma SameNameRaises(h: History, e: Event)
    requires h.Seen? && e.what == h.last.what
    ensures Record(h, e)
      == if e.at > h.last.at then Seen(Error(e.at, h.last.first, e.what, e.source), h.cells) else h
  {
  }

  // What a history says about the events it was given.

  /** The latest error as the events alone determine it. */
  function Summary(events: seq<Event>): Error
    requires events != []
  {
    var e := events[|events| - 1];
    if |events| == 1 then New(e)
    else
      var s := Summary(events[..|events| - 1]);
      if e.at <= s.at then s
      else if e.what == s.what then s.(at := e.at, source := e.source)
      else New(e)
  }

  /** An event of the given name at the given time was recorded. */
  ghost predicate Happened(events: seq<Event>, at: int, what: string) {
    exists k :: 0 <= k < |events| && events[k].at == at && events[k].what == what
  }

  /** A listed error is made of recorded times, and is not newer than the latest error. */
  ghost predicate Sound(x: Error, last: Error, events: seq<Event>) {
    && x.first <= x.at <= last.at
    && Happened(events, x.at, x.what)
    && Happened(events, x.first, x.what)
  }

  ghost predicate AllSound(last: Error, cells: seq<Cell>, events: seq<Event>) {
    forall c | c in cells :: Sound(Entry(last, c), last, events)
  }

  ghost predicate Tracks(h: History, events: seq<Event>) {
    match h
    case Nothing => events == []
    case Seen(last, cells) =>
      && events != [] && last == Summary(events)
      && Sound(last, last, events) && AllSound(last, cells, events) && |cells| <= KEEP_ERRORS
  }

  lemma MoreHappened(events: seq<Event>, e: Event, at: int, what: string)
    ensures Happened(events, at, what) ==> Happened(events + [e], at, what)
    ensures Happened(events + [e], e.at, e.what)
  {
    var more := events + [e];
    assert more[|events|] == e;
    if k :| 0 <= k < |events| && events[k].at == at && events[k].what == what {
      assert more[k].at == at && more[k].what == what;
    }
  }

  /** A sound entry stays sound when an event is recorded and the latest error does not get older. */
  lemma StaysSound(x: Error, last: Error, next: Error, events: seq<Event>, e: Event)
    requires Sound(x, last, events) && last.at <= next.at
    ensures Sound(x, next, events + [e])
  {
    hide Happened;
    MoreHappened(events, e, x.at, x.what);
    MoreHappened(events, e, x.first, x.what);
  }

  lemma SummaryStep(events: seq<Event>, e: Event)
    requires events != []
    ensures var s := Summary(events);
      Summary(events + [e]) ==
        if e.at <= s.at then s else if e.what == s.what then s.(at := e.at, source := e.source) else New(e)
  {
    assert (events + [e])[..|events|] == events;
  }

  lemma RecordTracks(h: History, events: seq<Event>, e: Event)
    requires Tracks(h, events)
    ensures Tracks(Record(h, e), events + [e])
  {
    hide Happened, Summary, Sort, IsListed;
    var more := events + [e];
    MoreHappened(events, e, e.at, e.what);
    match h
    case Nothing =>
      SummaryOfOne(e);
      assert more == [e];
    case Seen(last, cells) =>
      SummaryStep(events, e);
      StaysSound(last, last, last, events, e);
      if last.what == e.what {
        if e.at > last.at {
          var next := last.(at := e.at, source := e.source);
          forall c | c in cells
            ensures Sound(Entry(next, c), next, more)
          {
            StaysSound(Entry(last, c), last, next, events, e);
          }
        } else {
          AllStaySound(last, last, cells, events, e);
        }
      } else if e.at <= last.at {
        AllStaySound(last, last, cells, events, e);
        var late := cells + [Own(New(e))];
        SortPermutes(last, late);
        forall c | c in Sort(last, late)
          ensures Sound(Entry(last, c), last, more)
        {
          assert c in multiset(Sort(last, late));
        }
      } else {
        SettledSound(last, New(e), cells, events, e);
      }
  }

  lemma SummaryOfOne(e: Event)
    ensures Summary([e]) == New(e)
  {
  }

  lemma AllStaySound(last: Error, next: Error, cells: seq<Cell>, events: seq<Event>, e: Event)
    requires AllSound(last, cells, events) && last.at <= next.at
    ensures forall c | c in cells :: Sound(Entry(last, c), next, events + [e])
  {
    hide Sound;
    forall c | c in cells
      ensures Sound(Entry(last, c), next, events + [e])
    {
      StaysSound(Entry(last, c), last, next, events, e);
    }
  }

  lemma SettledSound(last: Error, next: Error, cells: seq<Cell>, events: seq<Event>, e: Event)
    requires AllSound(last, cells, events) && last.at <= next.at
    ensures AllSound(next, Settled(last, cells), events + [e])
  {
    hide Sound;
    AllStaySound(last, next, cells, events, e);
    forall c | c in Settled(last, cells)
      ensures Sound(Entry(next, c), next, events + [e])
    {
      var i :| 0 <= i < |cells| && c == Own(Entry(last, cells[i]));
      assert cells[i] in cells;
    }
  }

  lemma CopyTracks(h: History, events: seq<Event>)
    requires Tracks(h, events)
    ensures Tracks(Copied(h), events)
  {
    hide Sound, Summary;
    if h.Seen? {
      forall c | c in Settled(h.last, h.cells)
        ensures Sound(Entry(h.last, c), h.last, events)
      {
        var i :| 0 <= i < |h.cells| && c == Own(Entry(h.last, h.cells[i]));
        assert h.cells[i] in h.cells;
      }
    }
  }

  // Any interleaving of events and copies.

  datatype Step = Recorded(event: Event) | CopiedThroughJson

  function After(steps: seq<Step>): History {
    if steps == [] then Nothing
    else
      var h := After(steps[..|steps| - 1]);
      match steps[|steps| - 1]
      case Recorded(e) => Record(h, e)
      case CopiedThroughJson => Copied(h)
  }

  function Events(steps: seq<Step>): seq<Event> {
    if steps == [] then []
    else
      var init := Events(steps[..|steps| - 1]);
      match steps[|steps| - 1]
      case Recorded(e) => init + [e]
      case CopiedThroughJson => init
  }

  lemma {:induction false} HistoryTracks(steps: seq<Step>)
    ensures Tracks(After(steps), Events(steps))
  {
    hide Tracks, Record, Copied;
    if steps == [] {
      assert Tracks(Nothing, []) by { NothingTracks(); }
    } else {
      var init := steps[..|steps| - 1];
      HistoryTracks(init);
      match steps[|steps| - 1]
      case Recorded(e) => RecordTracks(After(init), Events(init), e);
      case CopiedThroughJson => CopyTracks(After(init), Events(init));
    }
  }

  lemma NothingTracks()
    ensures Tracks(Nothing, [])
  {
  }

  /** The same events with a copy in between can leave a list that says otherwise: its entry is not updated. */
  lemma CopiesShowInTheList()
    ensures exists a: seq<Step>, b: seq<Step> ::
      && Events(a) == Events(b) && After(a).Seen? && After(b).Seen?
      && Listed(After(a).last, After(a).cells) != Listed(After(b).last, After(b).cells)
  {
    var e, f := Event(1, "probe failed", "probe"), Event(2, "probe failed", "probe");
    var a, b := [Recorded(e), Recorded(f)], [Recorded(e), CopiedThroughJson, Recorded(f)];
    assert a[..1] == [Recorded(e)] && a[..1][..0] == [];
    assert After(a[..1]) == Seen(New(e), [Shared]);
    assert b[..2] == [Recorded(e), CopiedThroughJson] && b[..2][..1] == a[..1];
    assert After(b[..2]) == Seen(New(e), Settled(New(e), [Shared]));
    assert Settled(New(e), [Shared]) == [Own(New(e))];
    assert Listed(After(a).last, After(a).cells)[0].at == 2;
    assert Listed(After(b).last, After(b).cells)[0].at == 1;
    assert Events(a[..1]) == [e] && Events(b[..2]) == [e];
  }

  /** No event before it is as late. */
  ghost predicate IsRecord(events: seq<Event>, i: nat)
    requires i < |events|
  {
    forall k :: 0 <= k < i ==> events[k].at < events[i].at
  }

  /**
   * The error is the first event at the latest time; `first` is where the unbroken run of record-late events of its
   * name began.
   */
  ghost predicate Means(s: Error, events: seq<Event>, j: nat, i: nat)
    requires j <= i < |events|
  {
    && events[i] == Event(s.at, s.what, s.source) && IsRecord(events, i)
    && (forall k :: 0 <= k < |events| ==> events[k].at <= s.at)
    && events[j].at == s.first && IsRecord(events, j)
    && (forall k :: j <= k < |events| && IsRecord(events, k) ==> events[k].what == s.what)
    && (forall k :: 0 <= k < j && IsRecord(events, k) && NoRecordBetween(events, k, j) ==> events[k].what != s.what)
  }

  ghost predicate NoRecordBetween(events: seq<Event>, k: nat, j: nat)
    requires k <= j <= |events|
  {
    forall m :: k < m < j ==> !IsRecord(events, m)
  }

  lemma RecordsOfInit(events: seq<Event>)
    requires events != []
    ensures var n := |events| - 1;
      && (forall k :: 0 <= k < n ==> (IsRecord(events, k) <==> IsRecord(events[..n], k)))
      && (forall k, j :: 0 <= k <= j <= n ==> (NoRecordBetween(events, k, j) <==> NoRecordBetween(events[..n], k, j)))
  {
    var n := |events| - 1;
    forall k | 0 <= k < n
      ensures IsRecord(events, k) <==> IsRecord(events[..n], k)
    {
      assert forall m :: 0 <= m <= k ==> events[m] == events[..n][m];
    }
    forall k, j | 0 <= k <= j <= n
      ensures NoRecordBetween(events, k, j) <==> NoRecordBetween(events[..n], k, j)
    {
      hide IsRecord;
    }
  }

  /** The latest record is the only one that no record separates from the end. */
  lemma LastRecord(events: seq<Event>, i: nat, k: nat)
    requires i < |events| && k < |events| - 1 && IsRecord(events, i) && IsRecord(events, k)
    requires i < |events| - 1 && forall m :: 0 <= m < |events| - 1 ==> events[m].at <= events[i].at
    requires NoRecordBetween(events, k, |events| - 1)
    ensures k == i
  {
    assert events[k].at <= events[i].at;
    assert NoRecordBetween(events, k, |events| - 1) && IsRecord(events, i) ==> i <= k;
  }

  lemma {:induction false} SummaryMeans(events: seq<Event>) returns (j: nat, i: nat)
    requires events != []
    ensures j <= i < |events| && Means(Summary(events), events, j, i)
  {
    hide IsRecord, NoRecordBetween;
    if |events| == 1 {
      assert IsRecord(events, 0) by { FirstIsRecord(events); }
      j, i := 0, 0;
    } else {
      var n := |events| - 1;
      var init, e := events[..n], events[n];
      var s := Summary(init);
      j, i := SummaryMeans(init);
      RecordsOfInit(events);
      NewRecord(events, s.at, i);
      if e.at > s.at {
        if e.what != s.what {
          forall k | 0 <= k < n && IsRecord(events, k) && NoRecordBetween(events, k, n)
            ensures events[k].what != e.what
          {
            LastRecord(events, i, k);
          }
          j := n;
        }
        i := n;
      }
    }
  }

  lemma FirstIsRecord(events: seq<Event>)
    requires events != []
    ensures IsRecord(events, 0)
  {
  }

  lemma NewRecord(events: seq<Event>, top: int, i: nat)
    requires i < |events| - 1 && events[i].at == top
    requires forall k :: 0 <= k < |events| - 1 ==> events[k].at <= top
    ensures IsRecord(events, |events| - 1) <==> events[|events| - 1].at > top
  {
  }

  // The objects.

  class ErrorEntry {
    var at: int
    const first: int
    const what: string
    var source: string

    constructor (at: int, first: int, what: string, source: string)
      ensures this.at == at && this.first == first && this.what == what && this.source == source
    {
      this.at, this.first, this.what, this.source := at, first, what, source;
    }

    ghost function Read(): Error
      reads this
    {
      Error(at, first, what, source)
    }
  }

  ghost function CellOf(last: ErrorEntry, x: ErrorEntry): Cell
    reads x
  {
    if x == last then Shared else Own(x.Read())
  }

  ghost function CellsOf(last: ErrorEntry, xs: seq<ErrorEntry>): (r: seq<Cell>)
    reads xs
    ensures |r| == |xs|
  {
    seq(|xs|, i requires 0 <= i < |xs| reads xs => CellOf(last, xs[i]))
  }

  /** `errors.sort` by time, one insertion at a time. */
  method InsertEntry(ghost last: ErrorEntry, xs: seq<ErrorEntry>, x: ErrorEntry) returns (r: seq<ErrorEntry>)
    ensures CellsOf(last, r) == Insert(last.Read(), CellsOf(last, xs), CellOf(last, x))
  {
    hide Insert;
    ghost var l, cells, c := last.Read(), CellsOf(last, xs), CellOf(last, x);
    var k := |xs|;
    assert cells[..k] == cells && cells[k..] == [];
    while k > 0 && xs[k - 1].at > x.at
      invariant 0 <= k <= |xs|
      invariant Insert(l, cells, c) == Insert(l, cells[..k], c) + cells[k..]
    {
      InsertStep(l, cells, c, k);
      k := k - 1;
    }
    assert Insert(l, cells[..k], c) == cells[..k] + [c] by { InsertHere(l, cells[..k], c); }
    r := xs[..k] + [x] + xs[k..];
    assert CellsOf(last, r) == cells[..k] + [c] + cells[k..];
  }

  lemma InsertHere(l: Error, cells: seq<Cell>, c: Cell)
    requires cells == [] || Entry(l, cells[|cells| - 1]).at <= Entry(l, c).at
    ensures Insert(l, cells, c) == cells + [c]
  {
  }

  lemma InsertStep(l: Error, cells: seq<Cell>, c: Cell, k: nat)
    requires 0 < k <= |cells| && Entry(l, cells[k - 1]).at > Entry(l, c).at
    ensures Insert(l, cells[..k], c) + cells[k..] == Insert(l, cells[..k - 1], c) + cells[k - 1..]
  {
    assert cells[..k][..k - 1] == cells[..k - 1];
    assert cells[k - 1..] == [cells[k - 1]] + cells[k..];
  }

  method SortEntries(ghost last: ErrorEntry, xs: seq<ErrorEntry>) returns (r: seq<ErrorEntry>)
    ensures CellsOf(last, r) == Sort(last.Read(), CellsOf(last, xs))
  {
    r := [];
    for i := 0 to |xs|
      invariant CellsOf(last, r) == Sort(last.Read(), CellsOf(last, xs[..i]))
    {
      ghost var cells := CellsOf(last, xs[..i + 1]);
      assert cells[..i] == CellsOf(last, xs[..i]);
      r := InsertEntry(last, r, xs[i]);
    }
    assert xs[..|xs|] == xs;
  }

  class ComponentErrors {
    var lastError: ErrorEntry?
    var errors: seq<ErrorEntry>

    ghost predicate Valid()
      reads this
    {
      lastError == null ==> errors == []
    }

    ghost function View(): History
      reads this, errors, if lastError != null then {lastError} else {}
    {
      if lastError == null then Nothing else Seen(lastError.Read(), CellsOf(lastError, errors))
    }

    constructor ()
      ensures Valid() && View() == Nothing
    {
      lastError, errors := null, [];
    }

    /** `del errors[:-KEEP_ERRORS]`. */
    method Trim()
      requires lastError != null
      modifies this`errors
      ensures CellsOf(lastError, errors) == Latest(KEEP_ERRORS, old(CellsOf(lastError, errors)))
    {
      if |errors| > KEEP_ERRORS { errors := errors[|errors| - KEEP_ERRORS..]; }
    }

    /** Every object is written out and read back on its own, so nothing is shared any more. */
    static method CopyThroughJson(h: ComponentErrors) returns (c: ComponentErrors)
      requires h.Valid()
      ensures fresh(c) && c.Valid() && c.View() == Copied(h.View())
      ensures c.lastError != null ==> fresh(c.lastError)
      ensures fresh(set x | x in c.errors)
    {
      c := new ComponentErrors();
      if h.lastError != null {
        var last := new ErrorEntry(h.lastError.at, h.lastError.first, h.lastError.what, h.lastError.source);
        var copies: seq<ErrorEntry> := [];
        for i := 0 to |h.errors|
          invariant |copies| == i && fresh(set x | x in copies) && last !in copies
          invariant forall k :: 0 <= k < i ==> copies[k].Read() == h.errors[k].Read()
          invariant last.Read() == h.lastError.Read()
        {
          var x := h.errors[i];
          var copy := new ErrorEntry(x.at, x.first, x.what, x.source);
          copies := copies + [copy];
        }
        c.lastError, c.errors := last, copies;
      }
    }

    /** The scan of the list for the same error first seen at the event's time. */
    method AlreadyListed(e: Event) returns (found: bool)
      requires lastError != null
      ensures found <==> IsListed(e, lastError.Read(), CellsOf(lastError, errors))
    {
      var i := 0;
      while i < |errors| && !(errors[i].what == e.what && errors[i].first == e.at)
        invariant 0 <= i <= |errors|
        invariant forall k :: 0 <= k < i ==> !(errors[k].what == e.what && errors[k].first == e.at)
      {
        i := i + 1;
      }
      found := i < |errors|;
      ghost var entries := Listed(lastError.Read(), CellsOf(lastError, errors));
      assert forall k :: 0 <= k < |errors| ==> entries[k] == errors[k].Read();
      if found { assert Names(entries[i], e); }
    }

    /** An older, different error that is reported late goes into the list only. */
    method FileLate(e: Event)
      requires lastError != null
      modifies this`errors
      ensures CellsOf(lastError, errors) ==
        var last, cells := lastError.Read(), old(CellsOf(lastError, errors));
        if IsListed(e, last, cells) then cells else Latest(KEEP_ERRORS, Sort(last, cells + [Own(New(e))]))
    {
      hide IsListed, Latest, Sort;
      var found := AlreadyListed(e);
      if !found {
        var late := new ErrorEntry(e.at, e.at, e.what, e.source);
        ghost var cells := CellsOf(lastError, errors);
        assert CellsOf(lastError, errors + [late]) == cells + [Own(New(e))];
        errors := SortEntries(lastError, errors + [late]);
        Trim();
      }
    }

    method RecordError(e: Event)
      requires Valid()
      modifies this, if lastError != null then {lastError} else {}
      ensures Valid() && View() == Record(old(View()), e)
    {
      hide IsListed, Sort;
      var cur := lastError;
      if cur != null && cur.what == e.what {
        if e.at > cur.at {
          cur.at := e.at;
          cur.source := e.source;
        }
        return;
      }
      if cur != null && e.at <= cur.at {
        FileLate(e);
        return;
      }
      ghost var was := View();
      var latest := new ErrorEntry(e.at, e.at, e.what, e.source);
      lastError := latest;
      errors := errors + [latest];
      assert was.Seen? ==> CellsOf(latest, errors) == Settled(was.last, was.cells) + [Shared];
      Trim();
    }
  }
}

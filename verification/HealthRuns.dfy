/**
 * Runs of the health aggregator in docs/health/s1-live/aggregate.py.
 *
 * Each run folds one report per component into a persisted state. The main results are that a component's transitions
 * are exactly the changes in the sequence of statuses reported for it, that its alerts alternate between entering and
 * leaving red, also in every truncated log, and that its latest error depends on the recorded events alone.
 */
module HealthRuns {
  import opened Basics
  import opened ErrorHistory

  const KEEP_TRANSITIONS: nat := 200
  const DOC_TRANSITIONS: nat := 50

  datatype Status = Green | Amber | Red | Grey

  datatype Activity = Activity(at: int, what: string)

  /** A component's row of a probe, with the smoke result merged in; `problem` is empty when there is none. */
  datatype Report = Report(id: string, name: string, status: Status, problem: string, signal: string, checkedAt: int,
    events: seq<Event>, origin: string, activity: Option<Activity>)

  datatype Component = Component(
    errors: History,
    activity: Option<Activity>,
    status: Option<Status>,
    since: Option<int>)

  datatype Transition = Transition(component: string, name: string, from: Status, to: Status, at: int, reason: string,
    alert: bool)

  datatype State = State(components: map<string, Component>, transitions: seq<Transition>)

  const EMPTY := State(map[], [])

  // One report.

  /** The events of the report in order of time, and one for a status that is not well. */
  function RunEvents(r: Report): seq<Event> {
    r.events + if r.status in {Amber, Red} then [Event(r.checkedAt, r.problem, r.origin)] else []
  }

  function RecordAll(h: History, events: seq<Event>): History {
    if events == [] then h else Record(RecordAll(h, events[..|events| - 1]), events[|events| - 1])
  }

  function Get(components: map<string, Component>, id: string): Component {
    if id in components then components[id] else Component(Nothing, None, None, None)
  }

  /** A newer activity, or another at the same time, takes the place of the one before. */
  function Newer(before: Option<Activity>, now: Option<Activity>): Option<Activity> {
    if now.Some? && (before.None? || now.value.at >= before.value.at) then now else before
  }

  function Updated(c: Component, r: Report): Component {
    var errors, activity := RecordAll(c.errors, RunEvents(r)), Newer(c.activity, r.activity);
    if c.status == Some(r.status) then Component(errors, activity, c.status, c.since)
    else Component(errors, activity, Some(r.status), Some(r.checkedAt))
  }

  function Moved(c: Component, r: Report): seq<Transition> {
    if c.status.Some? && c.status.value != r.status then
      [Transition(r.id, r.name, c.status.value, r.status, r.checkedAt, if r.problem != "" then r.problem else r.signal,
        c.status.value == Red || r.status == Red)]
    else []
  }

  // One run.

  function Folded(components: map<string, Component>, reports: seq<Report>): map<string, Component> {
    if reports == [] then components
    else
      var before := Folded(components, reports[..|reports| - 1]);
      var r := reports[|reports| - 1];
      before[r.id := Updated(Get(before, r.id), r)]
  }

  function NewTransitions(components: map<string, Component>, reports: seq<Report>): seq<Transition> {
    if reports == [] then []
    else
      var init, r := reports[..|reports| - 1], reports[|reports| - 1];
      NewTransitions(components, init) + Moved(Get(Folded(components, init), r.id), r)
  }

  function Reread(components: map<string, Component>): map<string, Component> {
    map id | id in components :: components[id].(errors := Copied(components[id].errors))
  }

  function Next(st: State, reports: seq<Report>): State {
    var components := Reread(st.components);
    State(Folded(components, reports), Latest(KEEP_TRANSITIONS, st.transitions + NewTransitions(components, reports)))
  }

  method RecordEvents(h: History, events: seq<Event>) returns (r: History)
    ensures r == RecordAll(h, events)
  {
    r := h;
    for i := 0 to |events|
      invariant r == RecordAll(h, events[..i])
    {
      assert events[..i + 1][..i] == events[..i];
      r := Record(r, events[i]);
    }
    assert events[..|events|] == events;
  }

  /** One component's row: its new history, and the transition if its status moved. */
  method FoldReport(before: Component, c: Report) returns (h: Component, moved: seq<Transition>)
    ensures h == Updated(before, c) && moved == Moved(before, c)
  {
    hide Record, RecordAll, RunEvents;
    var errors := RecordEvents(before.errors, RunEvents(c));
    h, moved := before.(errors := errors), [];
    if c.activity.Some? && (h.activity.None? || c.activity.value.at >= h.activity.value.at) {
      h := h.(activity := c.activity);
    }
    var prev := h.status;
    if prev != Some(c.status) {
      if prev.Some? {
        moved := [Transition(c.id, c.name, prev.value, c.status, c.checkedAt,
                    if c.problem != "" then c.problem else c.signal, Red in {prev.value, c.status})];
      }
      h := h.(status := Some(c.status), since := Some(c.checkedAt));
    }
  }

  /** The new state and the transitions that the document shows. */
  method Aggregate(reports: seq<Report>, state: State) returns (st: State, shown: seq<Transition>)
    ensures st == Next(state, reports)
    ensures shown == Latest(DOC_TRANSITIONS, st.transitions)
  {
    hide Updated, Moved, Copied;
    var was := Reread(state.components);
    var components, added := was, [];
    for i := 0 to |reports|
      invariant components == Folded(was, reports[..i])
      invariant added == NewTransitions(was, reports[..i])
    {
      assert reports[..i + 1][..i] == reports[..i];
      var c := reports[i];
      var h, moved := FoldReport(Get(components, c.id), c);
      added := added + moved;
      components := components[c.id := h];
    }
    assert reports[..|reports|] == reports;
    st := State(components, Latest(KEEP_TRANSITIONS, state.transitions + added));
    shown := Latest(DOC_TRANSITIONS, st.transitions);
  }

  // Any sequence of runs.

  function StateAfter(runs: seq<seq<Report>>): State {
    if runs == [] then EMPTY else Next(StateAfter(runs[..|runs| - 1]), runs[|runs| - 1])
  }

  /** Every transition ever found. */
  function FullLog(runs: seq<seq<Report>>): seq<Transition> {
    if runs == [] then []
    else
      var init := runs[..|runs| - 1];
      FullLog(init) + NewTransitions(Reread(StateAfter(init).components), runs[|runs| - 1])
  }

  function Of(id: string, ts: seq<Transition>): seq<Transition> {
    if ts == [] then []
    else Of(id, ts[..|ts| - 1]) + if ts[|ts| - 1].component == id then [ts[|ts| - 1]] else []
  }

  /** The reports of one component, over all runs. */
  function ReportsOf(id: string, reports: seq<Report>): seq<Report> {
    if reports == [] then []
    else
      var last := reports[|reports| - 1];
      ReportsOf(id, reports[..|reports| - 1]) + if last.id == id then [last] else []
  }

  function AllReportsOf(id: string, runs: seq<seq<Report>>): seq<Report> {
    if runs == [] then [] else AllReportsOf(id, runs[..|runs| - 1]) + ReportsOf(id, runs[|runs| - 1])
  }

  /** What the transitions must be: the places where a report's status differs from the one before it. */
  function Changes(reports: seq<Report>): seq<Transition> {
    if |reports| < 2 then []
    else
      var prev, r := reports[|reports| - 2], reports[|reports| - 1];
      Changes(reports[..|reports| - 1]) +
      if prev.status == r.status then []
      else
        [Transition(r.id, r.name, prev.status, r.status, r.checkedAt,
                    if r.problem != "" then r.problem else r.signal,
                    prev.status == Red || r.status == Red)]
  }

  /** The events to be recorded: those of each report in order, and then one if its status is amber or red. */
  function EventsOf(reports: seq<Report>): seq<Event> {
    if reports == [] then []
    else
      var r := reports[|reports| - 1];
      EventsOf(reports[..|reports| - 1]) + r.events
      + if r.status == Amber || r.status == Red then [Event(r.checkedAt, r.problem, r.origin)] else []
  }

  /** The state of a component in terms of the reports it was given. */
  ghost predicate Follows(c: Component, reports: seq<Report>) {
    && Tracks(c.errors, EventsOf(reports))
    && c.status == (if reports == [] then None else Some(reports[|reports| - 1].status))
    && c.since == (if reports == [] then None else Some(reports[Began(reports)].checkedAt))
    && c.activity == LastActivity(reports)
  }

  function LastActivity(reports: seq<Report>): Option<Activity> {
    if reports == [] then None
    else Newer(LastActivity(reports[..|reports| - 1]), reports[|reports| - 1].activity)
  }

  /** The activity shown is the last one reported among those at the latest time. */
  lemma {:induction false} LastActivityIsLatest(reports: seq<Report>) returns (i: nat)
    ensures LastActivity(reports).None? <==> forall j :: 0 <= j < |reports| ==> reports[j].activity.None?
    ensures LastActivity(reports).Some? ==>
              && i < |reports| && reports[i].activity == LastActivity(reports)
              && (forall j :: 0 <= j < |reports| && reports[j].activity.Some? ==>
                    reports[j].activity.value.at <= LastActivity(reports).value.at)
              && (forall j :: i < j < |reports| && reports[j].activity.Some? ==>
                    reports[j].activity.value.at < LastActivity(reports).value.at)
  {
    i := 0;
    if reports != [] {
      var n := |reports| - 1;
      var init := reports[..n];
      i := LastActivityIsLatest(init);
      assert forall j :: 0 <= j < n ==> reports[j] == init[j];
      if LastActivity(reports) != LastActivity(init) || reports[n].activity == LastActivity(init) { i := n; }
    }
  }

  /** The report with which the present status began. */
  function Began(reports: seq<Report>): (i: nat)
    requires reports != []
    ensures i < |reports|
    ensures forall k :: i <= k < |reports| ==> reports[k].status == reports[|reports| - 1].status
    ensures i > 0 ==> reports[i - 1].status != reports[|reports| - 1].status
  {
    var n := |reports| - 1;
    if n == 0 || reports[n - 1].status != reports[n].status then n else Began(reports[..n])
  }

  lemma {:induction false} RecordAllTracks(h: History, before: seq<Event>, events: seq<Event>)
    requires Tracks(h, before)
    ensures Tracks(RecordAll(h, events), before + events)
  {
    hide Tracks, Record;
    if events == [] {
      assert before + events == before;
    } else {
      var init := events[..|events| - 1];
      RecordAllTracks(h, before, init);
      RecordTracks(RecordAll(h, init), before + init, events[|events| - 1]);
      assert before + init + [events[|events| - 1]] == before + events;
    }
  }

  lemma OneReport(c: Component, reports: seq<Report>, r: Report)
    requires Follows(c, reports)
    ensures Follows(Updated(c, r), reports + [r])
    ensures Changes(reports + [r]) == Changes(reports) + Moved(c, r)
  {
    hide Tracks, RecordAll;
    var more := reports + [r];
    assert more[..|reports|] == reports;
    assert EventsOf(more) == EventsOf(reports) + RunEvents(r);
    hide RunEvents, EventsOf;
    RecordAllTracks(c.errors, EventsOf(reports), RunEvents(r));
  }

  lemma {:induction false} OfBoth(id: string, a: seq<Transition>, b: seq<Transition>)
    ensures Of(id, a + b) == Of(id, a) + Of(id, b)
  {
    if b == [] {
      assert a + b == a;
    } else {
      OfBoth(id, a, b[..|b| - 1]);
      assert (a + b)[..|a + b| - 1] == a + b[..|b| - 1];
    }
  }

  lemma OfMoved(id: string, c: Component, r: Report)
    ensures Of(id, Moved(c, r)) == if r.id == id then Moved(c, r) else []
  {
    var m := Moved(c, r);
    if m != [] {
      assert m[..0] == [] && Of(id, []) == [];
    }
  }

  lemma FoldedAt(components: map<string, Component>, reports: seq<Report>, id: string)
    requires reports != []
    ensures var before, r := Folded(components, reports[..|reports| - 1]), reports[|reports| - 1];
      Get(Folded(components, reports), id) == if r.id == id then Updated(Get(before, id), r) else Get(before, id)
  {
    hide Updated;
  }

  /** One run, seen from one component. */
  lemma {:induction false} OneRun(components: map<string, Component>, reports: seq<Report>, id: string,
                                  before: seq<Report>)
    requires Follows(Get(components, id), before)
    ensures Follows(Get(Folded(components, reports), id), before + ReportsOf(id, reports))
    ensures Changes(before + ReportsOf(id, reports)) == Changes(before) + Of(id, NewTransitions(components, reports))
  {
    hide Follows, Updated, Moved, Changes, Get, Of;
    if reports == [] {
      assert before + [] == before && Folded(components, reports) == components;
      assert Of(id, []) == [] by { OfNothing(id); }
    } else {
      hide Folded;
      var init, r := reports[..|reports| - 1], reports[|reports| - 1];
      OneRun(components, init, id, before);
      FoldedAt(components, reports, id);
      var c := Get(Folded(components, init), r.id);
      OfBoth(id, NewTransitions(components, init), Moved(c, r));
      OfMoved(id, c, r);
      var all := before + ReportsOf(id, init);
      if r.id == id {
        OneReport(c, all, r);
        assert all + [r] == before + ReportsOf(id, reports);
      } else {
        assert before + ReportsOf(id, reports) == all;
      }
    }
  }

  lemma OfNothing(id: string)
    ensures Of(id, []) == []
  {
  }

  lemma RereadFollows(components: map<string, Component>, id: string, reports: seq<Report>)
    requires Follows(Get(components, id), reports)
    ensures Follows(Get(Reread(components), id), reports)
  {
    hide Tracks, Copied;
    CopyTracks(Get(components, id).errors, EventsOf(reports));
  }

  lemma {:induction false} RunsFollow(runs: seq<seq<Report>>, id: string)
    ensures Follows(Get(StateAfter(runs).components, id), AllReportsOf(id, runs))
    ensures Of(id, FullLog(runs)) == Changes(AllReportsOf(id, runs))
  {
    hide Follows, Folded, NewTransitions, Reread, Changes, Get;
    if runs == [] {
      NothingFollows(id);
    } else {
      var init, reports := runs[..|runs| - 1], runs[|runs| - 1];
      RunsFollow(init, id);
      var st, before := StateAfter(init), AllReportsOf(id, init);
      RereadFollows(st.components, id, before);
      OneRun(Reread(st.components), reports, id, before);
      OfBoth(id, FullLog(init), NewTransitions(Reread(st.components), reports));
    }
  }

  lemma NothingFollows(id: string)
    ensures Follows(Get(map[], id), []) && Changes([]) == []
  {
  }

  // Chains.

  /**
   * Each transition starts where the one before ended and goes somewhere else; its alert flag says whether red is an
   * end.
   */
  ghost predicate Chain(ts: seq<Transition>) {
    && (forall i :: 0 <= i < |ts| ==> ts[i].from != ts[i].to && (ts[i].alert <==> ts[i].from == Red || ts[i].to == Red))
    && (forall i :: 0 <= i < |ts| - 1 ==> ts[i].to == ts[i + 1].from)
  }

  lemma {:induction false} ChangesChain(reports: seq<Report>)
    ensures Chain(Changes(reports))
    ensures Changes(reports) != [] ==> Changes(reports)[|Changes(reports)| - 1].to == reports[|reports| - 1].status
    ensures Changes(reports) == [] && reports != [] ==>
      forall r | r in reports :: r.status == reports[|reports| - 1].status
  {
    if |reports| >= 2 {
      var init := reports[..|reports| - 1];
      ChangesChain(init);
      assert forall r | r in reports :: r in init || r == reports[|reports| - 1];
    }
  }

  function Alerts(ts: seq<Transition>): seq<Transition> {
    if ts == [] then []
    else Alerts(ts[..|ts| - 1]) + if ts[|ts| - 1].alert then [ts[|ts| - 1]] else []
  }

  ghost predicate Alternates(alerts: seq<Transition>) {
    && (forall i :: 0 <= i < |alerts| ==> (alerts[i].from == Red) != (alerts[i].to == Red))
    && (forall i :: 0 <= i < |alerts| - 1 ==> (alerts[i].to == Red <==> alerts[i + 1].from == Red))
  }

  /** The alerts of a chain enter and leave red in turn, and the last of them says whether the chain ends in red. */
  lemma {:induction false} AlertsAlternate(ts: seq<Transition>)
    requires Chain(ts)
    ensures Alternates(Alerts(ts))
    ensures ts != [] ==>
      if Alerts(ts) == [] then ts[|ts| - 1].to != Red
      else (Alerts(ts)[|Alerts(ts)| - 1].to == Red <==> ts[|ts| - 1].to == Red)
  {
    if ts != [] {
      var init, t := ts[..|ts| - 1], ts[|ts| - 1];
      AlertsAlternate(init);
      if init != [] { assert init[|init| - 1].to == t.from; }
    }
  }

  lemma ChainSuffix(ts: seq<Transition>, k: nat)
    requires k <= |ts| && Chain(ts)
    ensures Chain(ts[k..])
  {
  }

  /** The log of one component, cut off anywhere at the front. */
  lemma EverySuffixIsAChain(runs: seq<seq<Report>>, id: string, k: nat)
    requires k <= |FullLog(runs)|
    ensures var ts := Of(id, FullLog(runs)[k..]);
      && Chain(ts) && Alternates(Alerts(ts))
      && (ts != [] ==> Get(StateAfter(runs).components, id).status == Some(ts[|ts| - 1].to))
  {
    hide Tracks, Chain, Changes, Alerts, Alternates, FullLog, StateAfter, Of, AllReportsOf, EventsOf;
    var log, reports := FullLog(runs), AllReportsOf(id, runs);
    RunsFollow(runs, id);
    ChangesChain(reports);
    assert log == log[..k] + log[k..];
    OfBoth(id, log[..k], log[k..]);
    var ts, n := Of(id, log[k..]), |Of(id, log[..k])|;
    assert ts == Of(id, log)[n..];
    ChainSuffix(Of(id, log), n);
    AlertsAlternate(ts);
    if ts != [] { assert reports != [] by { NoReports(reports); } }
  }

  lemma NoReports(reports: seq<Report>)
    ensures reports == [] ==> Changes(reports) == []
  {
  }

  lemma LatestOfLatest<T>(n: nat, a: seq<T>, b: seq<T>)
    ensures Latest(n, Latest(n, a) + b) == Latest(n, a + b)
  {
    if |a| > n {
      var k := |a| - n;
      var u := a[k..];
      assert (a + b)[k..] == u + b;
      assert Latest(n, u + b) == (u + b)[|b|..];
      assert (a + b)[k..][|b|..] == (a + b)[k + |b|..];
    }
  }

  /** What is stored, and what the document shows, are the ends of the full log. */
  lemma {:induction false} StoredIsTheEnd(runs: seq<seq<Report>>)
    ensures var log := FullLog(runs); StateAfter(runs).transitions == if |log| <= 200 then log else log[|log| - 200..]
    ensures var log := FullLog(runs);
      Latest(DOC_TRANSITIONS, StateAfter(runs).transitions) == if |log| <= 50 then log else log[|log| - 50..]
  {
    hide NewTransitions, Folded, Reread;
    if runs != [] {
      var init := runs[..|runs| - 1];
      StoredIsTheEnd(init);
      var added := NewTransitions(Reread(StateAfter(init).components), runs[|runs| - 1]);
      LatestOfLatest(KEEP_TRANSITIONS, FullLog(init), added);
    }
  }

  /** The latest error of a component, after any runs, is the summary of the events recorded for it. */
  lemma LastErrorIsSummary(runs: seq<seq<Report>>, id: string)
    ensures var errors, events := Get(StateAfter(runs).components, id).errors, EventsOf(AllReportsOf(id, runs));
      && (errors.Nothing? <==> events == [])
      && (errors.Seen? ==> errors.last == Summary(events) && |errors.cells| <= 10
                           && AllSound(errors.last, errors.cells, events))
  {
    hide StateAfter, Summary, AllSound, AllReportsOf, EventsOf, FullLog, Changes;
    RunsFollow(runs, id);
  }

  /** An event is recorded for a component just when one of its reports brought it, or was itself amber or red. */
  lemma {:induction false} UnwellIsRecorded(reports: seq<Report>, e: Event)
    ensures e in EventsOf(reports) <==> exists i :: 0 <= i < |reports| && Brings(reports[i], e)
  {
    if reports != [] {
      var init, r := reports[..|reports| - 1], reports[|reports| - 1];
      UnwellIsRecorded(init, e);
      assert forall i :: 0 <= i < |init| ==> reports[i] == init[i];
    }
  }

  predicate Brings(r: Report, e: Event) {
    || e in r.events
    || (r.status in {Red, Amber} && e.at == r.checkedAt && e.what == r.problem && e.source == r.origin)
  }

  lemma {:induction false} ReportIsCollected(runs: seq<seq<Report>>, r: Report, k: nat)
    requires k < |runs| && r in runs[k]
    ensures r in AllReportsOf(r.id, runs)
  {
    var n := |runs| - 1;
    if k < n {
      ReportIsCollected(runs[..n], r, k);
    } else {
      OwnReport(runs[n], r);
    }
  }

  lemma {:induction false} OwnReport(reports: seq<Report>, r: Report)
    requires r in reports
    ensures r in ReportsOf(r.id, reports)
  {
    var n := |reports| - 1;
    if r != reports[n] { OwnReport(reports[..n], r); }
  }

  /** A red or amber report leaves its component with a latest error that is no older than the report. */
  lemma UnwellShows(runs: seq<seq<Report>>, r: Report, k: nat)
    requires k < |runs| && r in runs[k] && (r.status == Red || r.status == Amber)
    ensures var errors := Get(StateAfter(runs).components, r.id).errors; errors.Seen? && errors.last.at >= r.checkedAt
  {
    var reports, e := AllReportsOf(r.id, runs), Event(r.checkedAt, r.problem, r.origin);
    ReportIsCollected(runs, r, k);
    UnwellIsRecorded(reports, e);
    assert e in EventsOf(reports) by {
      var i :| 0 <= i < |reports| && reports[i] == r;
      assert Brings(reports[i], e);
    }
    LastErrorIsSummary(runs, r.id);
    var j, i := SummaryMeans(EventsOf(reports));
    hide StateAfter, Summary, AllSound, AllReportsOf, EventsOf, IsRecord, NoRecordBetween;
  }
}

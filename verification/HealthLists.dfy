/**
 * The error lists of the components over runs of the aggregator (docs/health/s1-live/aggregate.py): each run begins
 * with a copy of the state through JSON, and what module ErrorList says about events and copies holds of every
 * component.
 */
module HealthLists {
  import opened Basics
  import opened ErrorHistory
  import opened HealthRuns
  import ErrorList

  function Recordings(events: seq<Event>): (steps: seq<Step>)
    ensures |steps| == |events|
  {
    seq(|events|, i requires 0 <= i < |events| => Recorded(events[i]))
  }

  /** What happens to a component's errors: in each run a copy, and then the events of its reports. */
  function StepsOf(id: string, runs: seq<seq<Report>>): seq<Step> {
    if runs == [] then []
    else
      StepsOf(id, runs[..|runs| - 1]) + [CopiedThroughJson] + Recordings(EventsOf(ReportsOf(id, runs[|runs| - 1])))
  }

  lemma {:induction false} RecordAllSteps(steps: seq<Step>, events: seq<Event>)
    ensures After(steps + Recordings(events)) == RecordAll(After(steps), events)
  {
    hide Record;
    if events == [] {
      assert steps + Recordings(events) == steps;
    } else {
      var init, e := events[..|events| - 1], events[|events| - 1];
      RecordAllSteps(steps, init);
      var all := steps + Recordings(events);
      assert all[..|all| - 1] == steps + Recordings(init) && all[|all| - 1] == Recorded(e);
    }
  }

  lemma ReportSteps(c: Component, steps: seq<Step>, reports: seq<Report>, r: Report)
    requires c.errors == After(steps + Recordings(EventsOf(reports)))
    ensures Updated(c, r).errors == After(steps + Recordings(EventsOf(reports + [r])))
  {
    hide Record, RecordAll, After;
    hide RunEvents, EventsOf;
    var more, before := reports + [r], steps + Recordings(EventsOf(reports));
    EventsOfMore(reports, r);
    RecordAllSteps(before, RunEvents(r));
    assert steps + Recordings(EventsOf(more)) == before + Recordings(RunEvents(r));
  }

  lemma {:induction false} RunSteps(components: map<string, Component>, reports: seq<Report>, id: string,
                                    steps: seq<Step>)
    requires Get(components, id).errors == After(steps)
    ensures Get(Folded(components, reports), id).errors == After(steps + Recordings(EventsOf(ReportsOf(id, reports))))
  {
    hide After, Updated, EventsOf, Get;
    if reports == [] {
      assert steps + Recordings(EventsOf([])) == steps by { NoEventsOf(); }
    } else {
      var init, r := reports[..|reports| - 1], reports[|reports| - 1];
      RunSteps(components, init, id, steps);
      FoldedAt(components, reports, id);
      hide Folded;
      var before := ReportsOf(id, init);
      if r.id == id {
        assert ReportsOf(id, reports) == before + [r];
        ReportSteps(Get(Folded(components, init), id), steps, before, r);
      } else {
        assert ReportsOf(id, reports) == before;
      }
    }
  }

  lemma EventsOfMore(reports: seq<Report>, r: Report)
    ensures EventsOf(reports + [r]) == EventsOf(reports) + RunEvents(r)
  {
    assert (reports + [r])[..|reports|] == reports;
  }

  lemma NoEventsOf()
    ensures EventsOf([]) == []
  {
  }

  /** A component's errors after any runs are those of its copies and events, one after the other. */
  lemma {:induction false} ErrorsAreSteps(runs: seq<seq<Report>>, id: string)
    ensures Get(StateAfter(runs).components, id).errors == After(StepsOf(id, runs))
    ensures Events(StepsOf(id, runs)) == EventsOf(AllReportsOf(id, runs))
  {
    hide Folded, Copied, EventsOf, Recordings;
    if runs == [] {
      NoEventsOf();
    } else {
      var init, reports := runs[..|runs| - 1], runs[|runs| - 1];
      ErrorsAreSteps(init, id);
      var before := StepsOf(id, init) + [CopiedThroughJson];
      assert before[..|before| - 1] == StepsOf(id, init);
      RereadErrors(StateAfter(init).components, id);
      RunSteps(Reread(StateAfter(init).components), reports, id, before);
      RecordedEvents(before, EventsOf(ReportsOf(id, reports)));
      EventsOfBoth(AllReportsOf(id, init), ReportsOf(id, reports));
    }
  }

  lemma RereadErrors(components: map<string, Component>, id: string)
    ensures Get(Reread(components), id).errors == Copied(Get(components, id).errors)
  {
  }

  lemma {:induction false} RecordedEvents(steps: seq<Step>, events: seq<Event>)
    ensures Events(steps + Recordings(events)) == Events(steps) + events
  {
    if events == [] {
      assert steps + Recordings(events) == steps;
    } else {
      var init, e := events[..|events| - 1], events[|events| - 1];
      RecordedEvents(steps, init);
      var all := steps + Recordings(events);
      assert all[..|all| - 1] == steps + Recordings(init) && all[|all| - 1] == Recorded(e);
    }
  }

  lemma {:induction false} EventsOfBoth(a: seq<Report>, b: seq<Report>)
    ensures EventsOf(a + b) == EventsOf(a) + EventsOf(b)
  {
    hide EventsOf, RunEvents;
    if b == [] {
      NoEventsOf();
      assert a + b == a;
    } else {
      var init, r := b[..|b| - 1], b[|b| - 1];
      EventsOfBoth(a, init);
      assert a + b == (a + init) + [r];
      EventsOfMore(a + init, r);
      assert b == init + [r];
      EventsOfMore(init, r);
      Associates(EventsOf(a), EventsOf(init), RunEvents(r));
    }
  }

  lemma Associates(x: seq<Event>, y: seq<Event>, z: seq<Event>)
    ensures x + (y + z) == (x + y) + z
  {
  }

  /**
   * After any runs: a component that had an event lists its latest error exactly when that was not raised in a later
   * run than the one in which it began, and no ten others were recorded at its time while it had that time.
   */
  lemma ListedAfterRuns(runs: seq<seq<Report>>, id: string)
    requires EventsOf(AllReportsOf(id, runs)) != []
    ensures Events(StepsOf(id, runs)) != []
    ensures var h, steps := Get(StateAfter(runs).components, id).errors, StepsOf(id, runs);
      h.Seen? && (h.last in Listed(h.last, h.cells) <==> !ErrorList.Parted(steps) && !ErrorList.Crowded(steps))
  {
    hide StateAfter, AllReportsOf, EventsOf, StepsOf, After, ErrorList.Parted, ErrorList.Crowded;
    ErrorsAreSteps(runs, id);
    ErrorList.ListedExactly(StepsOf(id, runs));
  }
}

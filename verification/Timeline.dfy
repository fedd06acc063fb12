/**
 * The seven-day strip of docs/health/s1-live/timeline.py: hourly statuses, the segments of the status band, and the
 * runs of the polyline.
 */
module Timeline {
  import opened Basics

  // Hourly statuses.

  datatype Status = Grey | Green | Amber | Red

  function Rank(s: Status): nat {
    match s
    case Grey => 0
    case Green => 1
    case Amber => 2
    case Red => 3
  }

  function Worst(a: Option<Status>, b: Option<Status>): Option<Status> {
    if a.None? then b else if b.None? then a else if Rank(a.value) >= Rank(b.value) then a else b
  }

  /** A probe's sample, or the trimming of hours before a cut. */
  datatype Step = Sample(hour: int, status: Status) | Trim(cut: int)

  function Get(hours: map<int, Status>, hour: int): Option<Status> {
    if hour in hours then Some(hours[hour]) else None
  }

  function Next(hours: map<int, Status>, step: Step): map<int, Status> {
    match step
    case Sample(hour, status) => hours[hour := Worst(Get(hours, hour), Some(status)).value]
    case Trim(cut) => map hour | hour in hours && hour >= cut :: hours[hour]
  }

  function After(steps: seq<Step>): map<int, Status> {
    if steps == [] then map[] else Next(After(steps[..|steps| - 1]), steps[|steps| - 1])
  }

  /** The status was sampled in the hour, and the hour was not trimmed away since. */
  ghost predicate Sampled(steps: seq<Step>, hour: int, status: Status) {
    exists i :: SampledAt(steps, i, hour, status)
  }

  ghost predicate SampledAt(steps: seq<Step>, i: int, hour: int, status: Status) {
    && 0 <= i < |steps| && steps[i] == Sample(hour, status)
    && forall j :: i < j < |steps| && steps[j].Trim? ==> steps[j].cut <= hour
  }

  /** Grey is no worse than anything, and nothing is worse than red; amber is worse than green. */
  predicate NoWorse(a: Status, b: Status) {
    a == b || a == Grey || b == Red || (a == Green && b == Amber)
  }

  /** An hour has the worst status that was sampled in it since it was last trimmed away, or none if there was none. */
  lemma {:induction false} HourIsWorst(steps: seq<Step>, hour: int)
    ensures hour in After(steps) <==> exists status :: Sampled(steps, hour, status)
    ensures hour in After(steps) ==> Sampled(steps, hour, After(steps)[hour])
    ensures forall status :: Sampled(steps, hour, status) ==>
      hour in After(steps) && NoWorse(status, After(steps)[hour])
  {
    if steps != [] {
      HourIsWorst(steps[..|steps| - 1], hour);
      forall status
        ensures Sampled(steps, hour, status) <==> SampledLast(steps, hour, status)
      {
        SampledStep(steps, hour, status);
      }
      hide Sampled;
      var init, last := steps[..|steps| - 1], steps[|steps| - 1];
      assert hour in After(init) ==> (Sampled(steps, hour, After(init)[hour]) <==> last.Trim? ==> last.cut <= hour);
      assert last.Sample? && last.hour == hour ==> SampledLast(steps, hour, last.status);
    }
  }

  /** What the last step changes. */
  ghost predicate SampledLast(steps: seq<Step>, hour: int, status: Status)
    requires steps != []
  {
    var last := steps[|steps| - 1];
    last == Sample(hour, status)
    || (Sampled(steps[..|steps| - 1], hour, status) && (last.Trim? ==> last.cut <= hour))
  }

  lemma SampledStep(steps: seq<Step>, hour: int, status: Status)
    requires steps != []
    ensures Sampled(steps, hour, status) <==> SampledLast(steps, hour, status)
  {
    var n := |steps| - 1;
    var init := steps[..n];
    if i :| SampledAt(init, i, hour, status) && (steps[n].Trim? ==> steps[n].cut <= hour) {
      assert SampledAt(steps, i, hour, status);
    }
    if i :| SampledAt(steps, i, hour, status) {
      assert i < n ==> SampledAt(init, i, hour, status);
    }
    if steps[n] == Sample(hour, status) { assert SampledAt(steps, n, hour, status); }
  }

  // The segments of the band.

  /** An hour's key: the probed status wins over the one rebuilt from logs. */
  datatype Key = Probed(s: Status) | Rebuilt(s: Status) | NoHistory

  datatype Segment = Segment(key: Key, from: nat, to: nat)

  /** The segments of one hour more. */
  function Extended(segs: seq<Segment>, key: Key, n: nat): seq<Segment> {
    if segs != [] && segs[|segs| - 1].key == key then segs[..|segs| - 1] + [segs[|segs| - 1].(to := n + 1)]
    else segs + [Segment(key, n, n + 1)]
  }

  function Segments(keys: seq<Key>): seq<Segment> {
    if keys == [] then []
    else
      var n := |keys| - 1;
      Extended(Segments(keys[..n]), keys[n], n)
  }

  /** The list `[key, from, to]` that the loop keeps extending after it is in the result. */
  class Rect {
    const key: Key
    const from: nat
    var to: nat

    constructor (key: Key, from: nat, to: nat)
      ensures this.key == key && this.from == from && this.to == to
    {
      this.key, this.from, this.to := key, from, to;
    }
  }

  ghost predicate Shows(rects: seq<Rect>, segs: seq<Segment>)
    reads rects
  {
    |rects| == |segs| && forall i :: 0 <= i < |rects| ==> segs[i] == Segment(rects[i].key, rects[i].from, rects[i].to)
  }

  method Band(keys: seq<Key>) returns (rects: seq<Rect>)
    ensures Shows(rects, Segments(keys))
    ensures forall k :: 0 <= k < |rects| ==> fresh(rects[k])
  {
    hide Segments;
    rects := [];
    var cur: Rect? := null;
    SegmentsOfNothing();
    for i := 0 to |keys|
      invariant forall k :: 0 <= k < |rects| ==> fresh(rects[k])
      invariant forall k :: 0 <= k < |rects| - 1 ==> rects[k] != rects[|rects| - 1]
      invariant cur == if rects == [] then null else rects[|rects| - 1]
      invariant Shows(rects, Segments(keys[..i]))
    {
      SegmentsStep(keys, i);
      if cur != null && cur.key == keys[i] {
        cur.to := i + 1;
      } else {
        cur := new Rect(keys[i], i, i + 1);
        rects := rects + [cur];
      }
    }
    assert keys[..|keys|] == keys;
  }

  lemma SegmentsOfNothing()
    ensures Segments([]) == []
  {
  }

  lemma SegmentsStep(keys: seq<Key>, i: nat)
    requires i < |keys|
    ensures Segments(keys[..i + 1]) == Extended(Segments(keys[..i]), keys[i], i)
  {
    assert keys[..i + 1][..i] == keys[..i];
  }

  /** The segments cover the hours without gap or overlap, each with the one key of its hours, and neighbours differ. */
  ghost predicate Describes(segs: seq<Segment>, keys: seq<Key>) {
    && (if segs == [] then keys == [] else segs[0].from == 0 && segs[|segs| - 1].to == |keys|)
    && (forall i :: 0 <= i < |segs| ==> Covers(segs[i], keys))
    && (forall i :: 0 < i < |segs| ==> segs[i - 1].to == segs[i].from && segs[i - 1].key != segs[i].key)
  }

  ghost predicate Covers(s: Segment, keys: seq<Key>) {
    s.from < s.to <= |keys| && forall k :: s.from <= k < s.to ==> keys[k] == s.key
  }

  lemma {:induction false} SegmentsDescribe(keys: seq<Key>)
    ensures Describes(Segments(keys), keys)
  {
    if keys != [] {
      var n := |keys| - 1;
      SegmentsDescribe(keys[..n]);
      DescribesMore(Segments(keys[..n]), keys);
    }
  }

  lemma DescribesMore(segs: seq<Segment>, keys: seq<Key>)
    requires keys != [] && Describes(segs, keys[..|keys| - 1])
    ensures Describes(Extended(segs, keys[|keys| - 1], |keys| - 1), keys)
  {
    var n := |keys| - 1;
    var more := Extended(segs, keys[n], n);
    forall i | 0 <= i < |more|
      ensures Covers(more[i], keys)
    {
      if i < |segs| { assert Covers(segs[i], keys[..n]); }
    }
  }

  /** The segments without the last hour. */
  function Shortened(segs: seq<Segment>, n: nat): seq<Segment>
    requires segs != []
  {
    var m := |segs| - 1;
    if segs[m].from == n then segs[..m] else segs[..m] + [segs[m].(to := n)]
  }

  lemma DescribesLess(segs: seq<Segment>, keys: seq<Key>)
    requires keys != [] && Describes(segs, keys)
    ensures segs != [] && Describes(Shortened(segs, |keys| - 1), keys[..|keys| - 1])
    ensures Extended(Shortened(segs, |keys| - 1), keys[|keys| - 1], |keys| - 1) == segs
  {
    var n, m := |keys| - 1, |segs| - 1;
    var less := Shortened(segs, n);
    forall i | 0 <= i < |less|
      ensures Covers(less[i], keys[..n])
    {
      CoversLess(segs, keys, i);
    }
    assert Covers(segs[m], keys);
    assert m > 0 ==> Covers(segs[m - 1], keys);
    hide Covers;
  }

  lemma CoversLess(segs: seq<Segment>, keys: seq<Key>, i: nat)
    requires keys != [] && Describes(segs, keys) && segs != [] && i < |Shortened(segs, |keys| - 1)|
    ensures Covers(Shortened(segs, |keys| - 1)[i], keys[..|keys| - 1])
  {
    assert Covers(segs[i], keys);
    if i < |segs| - 1 { EndsBefore(segs, keys, i, |segs| - 1); }
    assert Covers(segs[|segs| - 1], keys);
  }

  lemma {:induction false} EndsBefore(segs: seq<Segment>, keys: seq<Key>, i: nat, m: nat)
    requires Describes(segs, keys) && i < m < |segs|
    ensures segs[i].to <= segs[m].from
    decreases m - i
  {
    if i + 1 < m {
      EndsBefore(segs, keys, i + 1, m);
      assert Covers(segs[i + 1], keys);
    }
  }

  lemma SomethingToDescribe(segs: seq<Segment>, keys: seq<Key>)
    requires Describes(segs, keys)
    ensures segs != [] ==> keys != []
  {
    if segs != [] { assert Covers(segs[0], keys); }
  }

  /** No other list of segments describes the hours. */
  lemma {:induction false} OnlySegmentsDescribe(segs: seq<Segment>, keys: seq<Key>)
    requires Describes(segs, keys)
    ensures segs == Segments(keys)
    decreases |keys|
  {
    if keys == [] {
      SomethingToDescribe(segs, keys);
    } else {
      hide Describes;
      DescribesLess(segs, keys);
      OnlySegmentsDescribe(Shortened(segs, |keys| - 1), keys[..|keys| - 1]);
    }
  }

  // The runs of the polyline.

  /** The hours from `from` up to `to`, which is not included. */
  datatype Block = Block(from: nat, to: nat)

  /** The blocks when hour `n` has a value too. */
  function Grown(before: seq<Block>, n: nat): seq<Block> {
    if before != [] && before[|before| - 1].to == n
    then before[..|before| - 1] + [Block(before[|before| - 1].from, n + 1)]
    else before + [Block(n, n + 1)]
  }

  function Blocks(vals: seq<Option<real>>): seq<Block> {
    if vals == [] then []
    else
      var n := |vals| - 1;
      var before := Blocks(vals[..n]);
      if vals[n].None? then before else Grown(before, n)
  }

  /** A point of a run, which is drawn at its hour and as high as its value. */
  datatype Point = Point(hour: nat, value: real)

  /** The run has a point for each hour of the block, with the hour's value. */
  ghost predicate Draws(vals: seq<Option<real>>, run: seq<Point>, b: Block) {
    && b.from + |run| == b.to <= |vals|
    && forall k :: 0 <= k < |run| ==> vals[b.from + k] == Some(run[k].value) && run[k].hour == b.from + k
  }

  ghost predicate AllDrawn(vals: seq<Option<real>>, lines: seq<seq<Point>>, blocks: seq<Block>) {
    |lines| == |blocks| && forall k :: 0 <= k < |lines| ==> Draws(vals, lines[k], blocks[k])
  }

  /** The lines drawn so far, with the run in progress as the last of them. */
  function WithRun(lines: seq<seq<Point>>, run: seq<Point>): seq<seq<Point>> {
    if run == [] then lines else lines + [run]
  }

  method Runs(vals: seq<Option<real>>) returns (lines: seq<seq<Point>>)
    ensures AllDrawn(vals, lines, Blocks(vals))
  {
    hide Draws, Grown, AllDrawn;
    var run: seq<Point> := [];
    lines := [];
    assert AllDrawn(vals, [], []) by { NothingDrawn(vals); }
    for i := 0 to |vals|
      invariant AllDrawn(vals, WithRun(lines, run), Blocks(vals[..i]))
      invariant run != [] <==> Touches(Blocks(vals[..i]), i)
    {
      ghost var before := Blocks(vals[..i]);
      assert vals[..i + 1][..i] == vals[..i];
      BlocksOrdered(vals[..i]);
      if vals[i].None? {
        if run != [] { lines := lines + [run]; }
        run := [];
      } else {
        DrawMore(vals, lines, run, i, before);
        run := run + [Point(i, vals[i].value)];
      }
    }
    assert vals[..|vals|] == vals;
    lines := WithRun(lines, run);
  }

  lemma NothingDrawn(vals: seq<Option<real>>)
    ensures AllDrawn(vals, [], [])
  {
  }

  /** The last block reaches hour `n`. */
  predicate Touches(blocks: seq<Block>, n: nat) {
    blocks != [] && blocks[|blocks| - 1].to == n
  }

  lemma DrawMore(vals: seq<Option<real>>, lines: seq<seq<Point>>, run: seq<Point>, n: nat, before: seq<Block>)
    requires n < |vals| && vals[n].Some?
    requires AllDrawn(vals, WithRun(lines, run), before) && (run != [] <==> Touches(before, n))
    ensures AllDrawn(vals, WithRun(lines, run + [Point(n, vals[n].value)]), Grown(before, n))
    ensures Touches(Grown(before, n), n + 1)
  {
    var longer := run + [Point(n, vals[n].value)];
    var all, blocks := lines + [longer], Grown(before, n);
    forall k | 0 <= k < |all|
      ensures Draws(vals, all[k], blocks[k])
    {
      assert k < |lines| ==> Draws(vals, WithRun(lines, run)[k], before[k]);
      if k == |lines| && run != [] { assert Draws(vals, WithRun(lines, run)[k], before[k]); }
    }
  }

  /** Blocks are not empty, do not touch, and the last one reaches the end exactly when the last hour has a value. */
  ghost predicate Ordered(blocks: seq<Block>, n: nat) {
    && (forall k :: 0 <= k < |blocks| ==> blocks[k].from < blocks[k].to <= n)
    && (forall j, k :: 0 <= j < k < |blocks| ==> blocks[j].to < blocks[k].from)
  }

  lemma {:induction false} BlocksOrdered(vals: seq<Option<real>>)
    ensures Ordered(Blocks(vals), |vals|)
    ensures Touches(Blocks(vals), |vals|) <==> vals != [] && vals[|vals| - 1].Some?
  {
    hide Grown, Ordered;
    if vals == [] {
      NothingOrdered();
    } else {
      var n := |vals| - 1;
      BlocksOrdered(vals[..n]);
      OrderedMore(Blocks(vals[..n]), n);
    }
  }

  lemma NothingOrdered()
    ensures Ordered([], 0) && !Touches([], 0)
  {
  }

  lemma OrderedMore(before: seq<Block>, n: nat)
    requires Ordered(before, n)
    ensures Ordered(before, n + 1) && !Touches(before, n + 1)
    ensures Ordered(Grown(before, n), n + 1) && Touches(Grown(before, n), n + 1)
  {
    assert !Touches(before, n) ==> forall k :: 0 <= k < |before| ==> before[k].to < n;
  }

  /** A block of present values that cannot be made longer. */
  ghost predicate MaximalBlock(vals: seq<Option<real>>, b: Block) {
    && b.from < b.to <= |vals| && (forall i :: b.from <= i < b.to ==> vals[i].Some?)
    && (b.from > 0 ==> vals[b.from - 1].None?) && (b.to < |vals| ==> vals[b.to].None?)
  }

  lemma GrownMembers(before: seq<Block>, n: nat, b: Block)
    requires Ordered(before, n)
    ensures b in Grown(before, n) <==>
      if b.to != n + 1 then b.to < n && b in before
      else if Touches(before, n) then Block(b.from, n) in before
      else b.from == n
  {
    if Touches(before, n) {
      var init, last := before[..|before| - 1], before[|before| - 1];
      assert before == init + [last];
      assert forall c | c in init :: c.to < n;
      assert last == Block(last.from, n);
    } else {
      assert forall c | c in before :: c.to <= n;
      assert forall k :: 0 <= k < |before| ==> before[k].to < n;
      assert forall c | c in before :: c.to < n;
    }
  }

  /** What the last hour changes about being maximal. */
  lemma MaximalWithLast(vals: seq<Option<real>>, b: Block)
    requires vals != []
    ensures var n := |vals| - 1;
      MaximalBlock(vals, b) <==>
        if vals[n].None? then MaximalBlock(vals[..n], b)
        else if b.to != n + 1 then b.to < n && MaximalBlock(vals[..n], b)
        else if n > 0 && vals[n - 1].Some? then MaximalBlock(vals[..n], Block(b.from, n))
        else b.from == n
  {
  }

  /** The runs drawn are exactly the maximal blocks of present values. */
  lemma {:induction false} BlocksAreMaximal(vals: seq<Option<real>>, b: Block)
    ensures b in Blocks(vals) <==> MaximalBlock(vals, b)
    decreases |vals|
  {
    hide MaximalBlock, Grown, Ordered;
    if vals == [] {
      assert !MaximalBlock([], b) by { NothingMaximal(b); }
    } else {
      var n := |vals| - 1;
      BlocksOrdered(vals[..n]);
      BlocksAreMaximal(vals[..n], b);
      BlocksAreMaximal(vals[..n], Block(b.from, n));
      MaximalWithLast(vals, b);
      GrownMembers(Blocks(vals[..n]), n, b);
    }
  }

  lemma NothingMaximal(b: Block)
    ensures !MaximalBlock([], b)
  {
  }
}

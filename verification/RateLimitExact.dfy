/**
 The token bucket decided from its own past (packages/mcp-chassis/src/rateLimit.ts): a take is allowed
 just when no interval that ends with it is overdrawn. Nothing here is stated through the buckets.
 */
module RateLimitExact {
  import opened Basics
  import opened RateLimit
  import opened RateLimitRuns
  import opened RateLimitBounds

  /** What the interval [s, now] grants, less what it allowed. */
  function Left(o: Options, run: seq<Visit>, ds: seq<Decision>, key: string, s: real, now: real): real
    requires |ds| == |run|
  {
    o.burst + (now - s) / 1000.0 * o.rps - AllowedIn(run, ds, key, s, now) as real
  }

  /** Some interval that ends now has nothing left but what the bucket of the key holds. */
  lemma {:induction false} Attained(o: Options, run: seq<Visit>, key: string, from: real, now: real) returns (s: real)
    requires o.rps > 0.0 && o.burst >= 1.0 && Timely(run, from, now)
    ensures s <= now
    ensures Left(o, run, KeptDecisionsFrom(o, map[], run), key, s, now)
            == KeptTokens(o, KeptFrom(o, map[], run), key, now)
  {
    hide *;
    if run == [] {
      NothingTaken(o, key, now);
      return now;
    }
    var front, last := run[..|run| - 1], run[|run| - 1];
    var ds := KeptDecisionsFrom(o, map[], run);
    KeptLast(o, run);
    TimelyEnd(run, from, now);
    if last.key != key {
      s := Attained(o, front, key, from, now);
      OtherKey(o, run, key, s, now);
    } else if KeptTokens(o, KeptFrom(o, map[], run), key, now) == o.burst && last.at < now {
      s := now;
      NothingIn(o, run, ds, key, from, now);
    } else {
      s := Attained(o, front, key, from, last.at);
      KeptStaysWell(o, front, from, last.at);
      AfterTake(o, KeptFrom(o, map[], front), key, last.at, now);
      LeftLater(o, run, ds, key, s, from, now);
    }
  }

  lemma NothingTaken(o: Options, key: string, now: real)
    ensures Left(o, [], KeptDecisionsFrom(o, map[], []), key, now, now)
            == KeptTokens(o, KeptFrom(o, map[], []), key, now)
  {
  }

  lemma OtherKey(o: Options, run: seq<Visit>, key: string, s: real, now: real)
    requires o.rps > 0.0 && o.burst >= 1.0 && run != [] && run[|run| - 1].key != key
    ensures var front := run[..|run| - 1];
      && Left(o, run, KeptDecisionsFrom(o, map[], run), key, s, now)
         == Left(o, front, KeptDecisionsFrom(o, map[], front), key, s, now)
      && KeptTokens(o, KeptFrom(o, map[], run), key, now) == KeptTokens(o, KeptFrom(o, map[], front), key, now)
  {
    KeptLast(o, run);
    hide KeptFrom, KeptDecisionsFrom, Accrual, Charged;
  }

  /** The last take of a run, and whether it was allowed. */
  lemma KeptLast(o: Options, run: seq<Visit>)
    requires o.rps > 0.0 && o.burst >= 1.0 && run != []
    ensures var front, last := run[..|run| - 1], run[|run| - 1];
      && KeptFrom(o, map[], run) == KeptNext(o, KeptFrom(o, map[], front), last.key, last.at)
      && KeptDecisionsFrom(o, map[], run)[..|run| - 1] == KeptDecisionsFrom(o, map[], front)
      && Charged(KeptTokens(o, KeptFrom(o, map[], front), last.key, last.at))
         == KeptTokens(o, KeptFrom(o, map[], front), last.key, last.at)
            - if KeptDecisionsFrom(o, map[], run)[|run| - 1].allowed then 1.0 else 0.0
  {
    hide KeptTokens, KeptNext;
  }

  lemma TimelyEnd(run: seq<Visit>, from: real, now: real)
    requires run != [] && Timely(run, from, now)
    ensures Timely(run[..|run| - 1], from, now)
    ensures Timely(run[..|run| - 1], from, run[|run| - 1].at) && run[|run| - 1].at <= now
  {
  }

  lemma NothingIn(o: Options, run: seq<Visit>, ds: seq<Decision>, key: string, from: real, now: real)
    requires |ds| == |run| > 0 && Timely(run, from, now) && run[|run| - 1].at < now
    ensures Left(o, run, ds, key, now, now) == o.burst
  {
    NoneIn(run, ds, key, now, now);
  }

  /** What a take leaves, later, unless the bucket is full by then. */
  lemma AfterTake(o: Options, m: Kept, key: string, at: real, now: real)
    requires o.rps > 0.0 && o.burst >= 1.0 && WellKeptCells(o, m, at) && at <= now
    requires at == now || KeptTokens(o, KeptNext(o, m, key, at), key, now) != o.burst
    ensures KeptTokens(o, KeptNext(o, m, key, at), key, now)
            == Charged(KeptTokens(o, m, key, at)) + Accrual(o, at, now)
  {
    KeptTokensRange(o, m, key, at);
    hide KeptTokens;
    assert KeptNext(o, m, key, at)[key] == Cell(Charged(KeptTokens(o, m, key, at)), at);
  }

  lemma LeftLater(o: Options, run: seq<Visit>, ds: seq<Decision>, key: string, s: real, from: real,
                  now: real)
    requires |ds| == |run| > 0 && Timely(run, from, now) && run[|run| - 1].key == key && s <= run[|run| - 1].at
    ensures var at := run[|run| - 1].at;
      Left(o, run, ds, key, s, now) == Left(o, run[..|run| - 1], ds[..|run| - 1], key, s, at)
        - (if ds[|run| - 1].allowed then 1.0 else 0.0) + Accrual(o, at, now)
  {
    var at := run[|run| - 1].at;
    UpToTheLast(run[..|run| - 1], ds[..|run| - 1], key, s, at, now);
    AccrualAdds(o, s, at, now);
  }

  /** Every interval that ends now, with what it allowed so far, has room for one take more. */
  ghost predicate HasRoom(o: Options, run: seq<Visit>, ds: seq<Decision>, key: string, now: real)
    requires |ds| == |run|
  {
    forall s: real :: s <= now ==> Left(o, run, ds, key, s, now) >= 1.0
  }

  /** Room seen from the tightest interval. */
  lemma RoomFrom(o: Options, run: seq<Visit>, ds: seq<Decision>, key: string, least: real, now: real, x: real)
    requires |ds| == |run| && least <= now && Left(o, run, ds, key, least, now) == x
    requires forall s: real :: s <= now ==> x <= Left(o, run, ds, key, s, now)
    ensures HasRoom(o, run, ds, key, now) <==> x >= 1.0
  {
    hide Left;
  }

  lemma LeftCovers(o: Options, run: seq<Visit>, key: string, from: real, s: real, now: real)
    requires o.rps > 0.0 && o.burst >= 1.0 && Timely(run, from, now) && s <= now
    ensures KeptTokens(o, KeptFrom(o, map[], run), key, now)
            <= Left(o, run, KeptDecisionsFrom(o, map[], run), key, s, now)
  {
    Potential(o, run, key, from, s, now);
    hide KeptTokens, KeptFrom, KeptDecisionsFrom, AllowedIn;
  }

  lemma RoomIsToken(o: Options, run: seq<Visit>, key: string, from: real, now: real)
    requires o.rps > 0.0 && o.burst >= 1.0 && Timely(run, from, now)
    ensures HasRoom(o, run, KeptDecisionsFrom(o, map[], run), key, now)
            <==> KeptTokens(o, KeptFrom(o, map[], run), key, now) >= 1.0
  {
    var ds := KeptDecisionsFrom(o, map[], run);
    var least := Attained(o, run, key, from, now);
    hide *;
    forall s: real | s <= now
      ensures KeptTokens(o, KeptFrom(o, map[], run), key, now) <= Left(o, run, ds, key, s, now)
    {
      LeftCovers(o, run, key, from, s, now);
    }
    RoomFrom(o, run, ds, key, least, now, KeptTokens(o, KeptFrom(o, map[], run), key, now));
  }

  lemma KeptAllows(o: Options, m: Kept, key: string, now: real)
    requires o.rps > 0.0 && o.burst >= 1.0
    ensures KeptTaking(o, m, key, now).decision.allowed <==> KeptTokens(o, m, key, now) >= 1.0
  {
  }

  /**
   On a lossless run with a clock that does not go back, an enabled limiter allows a take just when every interval that
   ends with the take has room for it: a burst, and the rate times its length, less what it allowed so far.
   */
  lemma AllowedExactly(o: Options, run: seq<Visit>, key: string, from: real, now: real)
    requires o.rps > 0.0 && o.burst >= 1.0 && Timely(run, from, now) && Lossless(o, [], run + [Visit(key, now)])
    ensures DecisionsFrom(o, [], run + [Visit(key, now)])[|run|].allowed
            <==> HasRoom(o, run, DecisionsFrom(o, [], run), key, now)
  {
    hide *;
    var visit := Visit(key, now);
    RoomIsToken(o, run, key, from, now);
    NextKeptDecision(o, map[], run, visit);
    KeptAllows(o, KeptFrom(o, map[], run), key, now);
    var start := RunBefore(o, run, visit, from);
    LosslessRunsAgree(o, run, from, now);
    LosslessRunsAgree(o, run + [visit], start, now);
  }

  lemma RunBefore(o: Options, run: seq<Visit>, visit: Visit, from: real) returns (start: real)
    requires Lossless(o, [], run + [visit]) && Timely(run, from, visit.at)
    ensures Lossless(o, [], run) && Timely(run + [visit], start, visit.at)
  {
    start := if run == [] then visit.at else from;
    assert run != [] ==> from <= run[0].at <= visit.at;
    hide *;
    LosslessBefore(o, run, visit);
    TimelyMore(run, visit, from, start);
  }

  lemma LosslessBefore(o: Options, run: seq<Visit>, visit: Visit)
    requires Lossless(o, [], run + [visit])
    ensures Lossless(o, [], run)
  {
    hide Lossy, BucketsFrom;
    var all := run + [visit];
    assert all[..|all| - 1] == run;
  }

  lemma TimelyMore(run: seq<Visit>, visit: Visit, from: real, start: real)
    requires Timely(run, from, visit.at) && start <= visit.at && (run == [] || start <= from)
    ensures Timely(run + [visit], start, visit.at)
  {
    var all := run + [visit];
    assert forall i :: 0 <= i < |run| ==> all[i] == run[i];
  }

  /** A limiter without a rate or a burst allows everything and tracks nothing. */
  lemma {:induction false} DisabledAllowsAll(o: Options, run: seq<Visit>)
    requires o.rps <= 0.0 || o.burst < 1.0
    ensures BucketsFrom(o, [], run) == []
    ensures forall i :: 0 <= i < |run| ==> DecisionsFrom(o, [], run)[i] == Decision(true, 0)
  {
    if run != [] { DisabledAllowsAll(o, run[..|run| - 1]); }
  }

  /** Nothing is lost while the map holds fewer than 10,000 buckets. */
  lemma FewKeysLoseNothing(o: Options, es: seq<Entry>, key: string, now: real)
    requires |es| < 10_000
    ensures !Lossy(o, es, key, now)
  {
    WithoutShorter(es, key);
  }
}

/**
 What the token bucket promises about one key (packages/mcp-chassis/src/rateLimit.ts): a bound on
 the takes allowed in any interval, and a retry hint that is sound and minimal. And what a lossy
 take costs: some continuation tells it from the limiter that keeps every bucket.
 */
module RateLimitBounds {
  import opened Basics
  import opened RateLimit
  import opened RateLimitRuns

  // ---------------------------------------------------------------- takes allowed in an interval

  /** The allowed takes of `key` with timestamps in [s, t]. */
  function AllowedIn(run: seq<Visit>, ds: seq<Decision>, key: string, s: real, t: real): nat
    requires |ds| == |run|
  {
    if run == [] then 0
    else
      var last := run[|run| - 1];
      AllowedIn(run[..|run| - 1], ds[..|run| - 1], key, s, t)
      + if last.key == key && s <= last.at <= t && ds[|run| - 1].allowed then 1 else 0
  }

  lemma {:induction false} KeptStaysWell(o: Options, run: seq<Visit>, from: real, now: real)
    requires o.rps > 0.0 && o.burst >= 1.0 && Timely(run, from, now)
    ensures WellKeptCells(o, KeptFrom(o, map[], run), now)
  {
    if run != [] {
      var front, last := run[..|run| - 1], run[|run| - 1];
      KeptStaysWell(o, front, from, last.at);
      KeptWellKept(o, KeptFrom(o, map[], front), last.key, last.at);
    }
  }

  /**
   The potential argument: what was allowed since `s` plus what is left never exceeds a burst and
   what accrued since `s`.
   */
  lemma {:induction false} Potential(o: Options, run: seq<Visit>, key: string, from: real, s: real, now: real)
    requires o.rps > 0.0 && o.burst >= 1.0 && Timely(run, from, now) && s <= now
    ensures AllowedIn(run, KeptDecisionsFrom(o, map[], run), key, s, now) as real
            + KeptTokens(o, KeptFrom(o, map[], run), key, now) <= o.burst + Accrual(o, s, now)
  {
    hide Accrual, KeptTokens;
    KeptStaysWell(o, run, from, now);
    KeptTokensRange(o, KeptFrom(o, map[], run), key, now);
    AccrualGrows(o, s, now);
    if run != [] && run[|run| - 1].at < s {
      AllBefore(run, KeptDecisionsFrom(o, map[], run), key, s, now);
    } else if run != [] {
      var front, last := run[..|run| - 1], run[|run| - 1];
      var m, m' := KeptFrom(o, map[], front), KeptFrom(o, map[], run);
      Potential(o, front, key, from, s, last.at);
      UpToTheLast(front, KeptDecisionsFrom(o, map[], front), key, s, last.at, now);
      KeptStaysWell(o, front, from, last.at);
      KeptWellKept(o, m, last.key, last.at);
      KeptTokensLater(o, m', key, last.at, now);
      AccrualAdds(o, s, last.at, now);
      assert KeptDecisionsFrom(o, map[], run)[..|run| - 1] == KeptDecisionsFrom(o, map[], front);
    }
  }

  lemma {:induction false} AllBefore(run: seq<Visit>, ds: seq<Decision>, key: string, s: real, t: real)
    requires |ds| == |run| && forall i :: 0 <= i < |run| ==> run[i].at <= run[|run| - 1].at
    requires run != [] ==> run[|run| - 1].at < s
    ensures AllowedIn(run, ds, key, s, t) == 0
  {
    NoneIn(run, ds, key, s, t);
  }

  lemma {:induction false} NoneIn(run: seq<Visit>, ds: seq<Decision>, key: string, s: real, t: real)
    requires |ds| == |run| && forall i :: 0 <= i < |run| ==> run[i].at < s
    ensures AllowedIn(run, ds, key, s, t) == 0
  {
    if run != [] { NoneIn(run[..|run| - 1], ds[..|run| - 1], key, s, t); }
  }

  lemma {:induction false} UpToTheLast(run: seq<Visit>, ds: seq<Decision>, key: string, s: real, t: real, t': real)
    requires |ds| == |run| && t <= t' && forall i :: 0 <= i < |run| ==> run[i].at <= t
    ensures AllowedIn(run, ds, key, s, t) == AllowedIn(run, ds, key, s, t')
  {
    if run != [] { UpToTheLast(run[..|run| - 1], ds[..|run| - 1], key, s, t, t'); }
  }

  /** In any interval [s, t] a key is allowed at most a burst and what accrues over the interval. */
  lemma {:induction false} WindowBound(o: Options, run: seq<Visit>, key: string, from: real, s: real, t: real,
                                       now: real)
    requires o.rps > 0.0 && o.burst >= 1.0 && Timely(run, from, now) && Lossless(o, [], run) && s <= t
    ensures AllowedIn(run, DecisionsFrom(o, [], run), key, s, t) as real <= o.burst + (t - s) / 1000.0 * o.rps
  {
    assert Accrual(o, s, t) == (t - s) / 1000.0 * o.rps;
    hide Accrual, Taking, BucketsFrom, Lossy;
    if run != [] && run[|run| - 1].at > t {
      var front, last := run[..|run| - 1], run[|run| - 1];
      WindowBound(o, front, key, from, s, t, last.at);
      assert DecisionsFrom(o, [], run)[..|run| - 1] == DecisionsFrom(o, [], front);
    } else {
      LosslessRunsAgree(o, run, from, now);
      hide *;
      WindowBoundKept(o, run, key, from, s, t);
    }
  }

  lemma WindowBoundKept(o: Options, run: seq<Visit>, key: string, from: real, s: real, t: real)
    requires o.rps > 0.0 && o.burst >= 1.0 && Timely(run, from, t) && s <= t
    ensures AllowedIn(run, KeptDecisionsFrom(o, map[], run), key, s, t) as real <= o.burst + Accrual(o, s, t)
  {
    hide Accrual;
    Potential(o, run, key, from, s, t);
    KeptStaysWell(o, run, from, t);
    KeptTokensRange(o, KeptFrom(o, map[], run), key, t);
    hide AllowedIn, KeptDecisionsFrom, KeptFrom, KeptTokens;
  }

  // ---------------------------------------------------------------- what losses add to the bound

  /**
   A take loses a key when it leaves the key without a bucket although the key was charged, or was
   short of a full bucket: from then on the key is taken for full.
   */
  predicate Loses(o: Options, es: seq<Entry>, visit: Visit, key: string) {
    && o.Enabled()
    && Find(NextBuckets(o, es, visit.key, visit.at), key) == None
    && (visit.key == key || Tokens(o, es, key, visit.at) < o.burst)
  }

  /** The takes with timestamps in [s, t] that lose `key`, whichever key they are for. */
  function LossesIn(o: Options, run: seq<Visit>, key: string, s: real, t: real): nat {
    if run == [] then 0
    else
      var front, last := run[..|run| - 1], run[|run| - 1];
      LossesIn(o, front, key, s, t)
      + if s <= last.at <= t && Loses(o, BucketsFrom(o, [], front), last, key) then 1 else 0
  }

  /** One take moves what is left of a key by at most the take that it allows, unless it loses the key. */
  lemma TakeSpends(o: Options, es: seq<Entry>, visit: Visit, key: string)
    requires o.rps > 0.0 && o.burst >= 1.0 && WellKept(o, es, visit.at)
    ensures var after := NextBuckets(o, es, visit.key, visit.at);
      && WellKept(o, after, visit.at)
      && Tokens(o, after, key, visit.at)
         + (if visit.key == key && Taking(o, es, key, visit.at).decision.allowed then 1.0 else 0.0)
         <= Tokens(o, es, key, visit.at) + if Loses(o, es, visit, key) then o.burst else 0.0
  {
    hide Accrual, Tokens, NextBuckets, Survives;
    var after := NextBuckets(o, es, visit.key, visit.at);
    TakeKeeps(o, es, visit.key, visit.at);
    TokensRange(o, es, key, visit.at);
    TokensRange(o, after, key, visit.at);
    Untracked(o, after, key, visit.at);
    if visit.key != key {
      NeverPoorer(o, es, visit.key, visit.at, key);
    } else if Survives(o, es, key, visit.at) {
      SurvivorIsLast(o, es, key, visit.at);
    } else {
      SweptAway(o, es, key, visit.at);
    }
  }

  lemma Untracked(o: Options, es: seq<Entry>, key: string, now: real)
    ensures Find(es, key) == None ==> Tokens(o, es, key, now) == o.burst
  {
  }

  lemma SweptAway(o: Options, es: seq<Entry>, key: string, now: real)
    requires !Survives(o, es, key, now)
    ensures NextBuckets(o, es, key, now) == []
  {
  }

  lemma {:induction false} LossesUpToTheLast(o: Options, run: seq<Visit>, key: string, s: real, t: real, t': real)
    requires t <= t' && forall i :: 0 <= i < |run| ==> run[i].at <= t
    ensures LossesIn(o, run, key, s, t) == LossesIn(o, run, key, s, t')
  {
    hide Loses;
    if run != [] { LossesUpToTheLast(o, run[..|run| - 1], key, s, t, t'); }
  }

  /** What was allowed since `s` and what is left are within a burst, what accrued, and a burst for each loss. */
  ghost predicate WithinBudget(o: Options, run: seq<Visit>, key: string, s: real, now: real) {
    AllowedIn(run, DecisionsFrom(o, [], run), key, s, now) as real + Tokens(o, BucketsFrom(o, [], run), key, now)
    <= o.burst + Accrual(o, s, now) + LossesIn(o, run, key, s, now) as real * o.burst
  }

  /** The potential argument for the limiter itself, on every run. */
  lemma {:induction false} LossyPotential(o: Options, run: seq<Visit>, key: string, from: real, s: real, now: real)
    requires o.rps > 0.0 && o.burst >= 1.0 && Timely(run, from, now) && s <= now
    ensures WithinBudget(o, run, key, s, now)
  {
    hide Accrual, Tokens, Taking, Loses;
    if run != [] && run[|run| - 1].at >= s {
      hide WithinBudget;
      var front, last := run[..|run| - 1], run[|run| - 1];
      LossyPotential(o, front, key, from, s, last.at);
      BudgetKept(o, run, key, from, s, now);
    } else {
      StaysWell(o, run, from, now);
      TokensRange(o, BucketsFrom(o, [], run), key, now);
      AccrualGrows(o, s, now);
      AllBefore(run, DecisionsFrom(o, [], run), key, s, now);
      assert LossesIn(o, run, key, s, now) as real * o.burst >= 0.0;
    }
  }

  lemma StaysWell(o: Options, run: seq<Visit>, from: real, now: real)
    requires o.rps > 0.0 && o.burst >= 1.0 && Timely(run, from, now)
    ensures WellKept(o, BucketsFrom(o, [], run), now)
  {
    if run != [] {
      assert from <= run[0].at <= now;
      RunWellKept(o, [], run, from, now);
    }
  }

  /** The next take, and a wait after it. */
  lemma TakeThenWait(o: Options, es: seq<Entry>, visit: Visit, key: string, now: real)
    requires o.rps > 0.0 && o.burst >= 1.0 && WellKept(o, es, visit.at) && visit.at <= now
    ensures Tokens(o, NextBuckets(o, es, visit.key, visit.at), key, now)
            + (if visit.key == key && Taking(o, es, key, visit.at).decision.allowed then 1.0 else 0.0)
            <= Tokens(o, es, key, visit.at) + (if Loses(o, es, visit, key) then o.burst else 0.0)
               + Accrual(o, visit.at, now)
  {
    hide Accrual, Tokens, NextBuckets, Loses, Taking;
    TakeSpends(o, es, visit, key);
    TokensLater(o, NextBuckets(o, es, visit.key, visit.at), key, visit.at, now);
  }

  /** The next take stays within the budget. */
  lemma BudgetKept(o: Options, run: seq<Visit>, key: string, from: real, s: real, now: real)
    requires o.rps > 0.0 && o.burst >= 1.0 && Timely(run, from, now) && run != [] && s <= run[|run| - 1].at
    requires WithinBudget(o, run[..|run| - 1], key, s, run[|run| - 1].at)
    ensures WithinBudget(o, run, key, s, now)
  {
    hide BucketsFrom, AllowedIn, LossesIn, DecisionsFrom, Loses, Accrual, Tokens, Taking, NextBuckets, WellKept;
    var front, last := run[..|run| - 1], run[|run| - 1];
    var es := BucketsFrom(o, [], front);
    OneMore(o, run, key, from, s, now);
    StaysWell(o, front, from, last.at);
    TakeThenWait(o, es, last, key, now);
    AccrualAdds(o, s, last.at, now);
    var allowed, lost := last.key == key && Taking(o, es, key, last.at).decision.allowed, Loses(o, es, last, key);
    Sum(AllowedIn(front, DecisionsFrom(o, [], front), key, s, last.at), if allowed then 1 else 0,
      LossesIn(o, front, key, s, last.at), if lost then 1 else 0, o.burst, Tokens(o, es, key, last.at),
      Tokens(o, BucketsFrom(o, [], run), key, now), Accrual(o, s, last.at), Accrual(o, last.at, now));
  }

  lemma Sum(a: nat, d: nat, l: nat, e: nat, burst: real, x: real, y: real, acc: real, more: real)
    requires a as real + x <= burst + acc + l as real * burst
    requires y + d as real <= x + (if e == 1 then burst else 0.0) + more && e <= 1
    ensures (a + d) as real + y <= burst + (acc + more) + (l + e) as real * burst
  {
    assert (l + 1) as real * burst == l as real * burst + burst;
  }

  /** The counts and the buckets after one take more. */
  lemma OneMore(o: Options, run: seq<Visit>, key: string, from: real, s: real, now: real)
    requires o.rps > 0.0 && o.burst >= 1.0 && Timely(run, from, now) && run != [] && s <= run[|run| - 1].at
    ensures var front, last := run[..|run| - 1], run[|run| - 1];
      var es := BucketsFrom(o, [], front);
      && last.at <= now && BucketsFrom(o, [], run) == NextBuckets(o, es, last.key, last.at)
      && AllowedIn(run, DecisionsFrom(o, [], run), key, s, now)
         == AllowedIn(front, DecisionsFrom(o, [], front), key, s, last.at)
            + (if last.key == key && Taking(o, es, key, last.at).decision.allowed then 1 else 0)
      && LossesIn(o, run, key, s, now)
         == LossesIn(o, front, key, s, last.at) + if Loses(o, es, last, key) then 1 else 0
  {
    hide Loses, NextBuckets;
    var front, last := run[..|run| - 1], run[|run| - 1];
    UpToTheLast(front, DecisionsFrom(o, [], front), key, s, last.at, now);
    LossesUpToTheLast(o, front, key, s, last.at, now);
    assert DecisionsFrom(o, [], run)[..|run| - 1] == DecisionsFrom(o, [], front);
  }

  /**
   On every run whose clock does not go back: in any interval [s, t] a key is allowed at most a burst,
   what accrues over the interval, and one more burst for each time it is lost in the interval.
   */
  lemma {:induction false} LossyWindowBound(o: Options, run: seq<Visit>, key: string, from: real, s: real, t: real,
                                            now: real)
    requires o.rps > 0.0 && o.burst >= 1.0 && Timely(run, from, now) && s <= t
    ensures AllowedIn(run, DecisionsFrom(o, [], run), key, s, t) as real
            <= o.burst + Accrual(o, s, t) + LossesIn(o, run, key, s, t) as real * o.burst
  {
    hide Accrual, Taking, BucketsFrom, Loses, Tokens;
    if run != [] && run[|run| - 1].at > t {
      var front, last := run[..|run| - 1], run[|run| - 1];
      LossyWindowBound(o, front, key, from, s, t, last.at);
      assert DecisionsFrom(o, [], run)[..|run| - 1] == DecisionsFrom(o, [], front);
    } else {
      LossyPotential(o, run, key, from, s, t);
      StaysWell(o, run, from, t);
      TokensRange(o, BucketsFrom(o, [], run), key, t);
    }
  }

  /** A take that loses a key is lossy, so that nothing is lost on a lossless run. */
  lemma {:induction false} NothingLost(o: Options, run: seq<Visit>, key: string, from: real, s: real, t: real,
                                       now: real)
    requires o.rps > 0.0 && o.burst >= 1.0 && Timely(run, from, now) && Lossless(o, [], run)
    ensures LossesIn(o, run, key, s, t) == 0
  {
    if run != [] {
      var front, last := run[..|run| - 1], run[|run| - 1];
      var es := BucketsFrom(o, [], front);
      NothingLost(o, front, key, from, s, t, last.at);
      StaysWell(o, front, from, last.at);
      hide BucketsFrom, Lossy, Accrual, NextBuckets, Tokens, Survives;
      LosslessTake(o, es, last.key, last.at);
      Untracked(o, NextBuckets(o, es, last.key, last.at), key, last.at);
      SurvivorIsLast(o, es, last.key, last.at);
      FindFinds(NextBuckets(o, es, last.key, last.at), last.key);
    }
  }

  // ---------------------------------------------------------------- the retry hint

  /** The moment at which `d` tokens have accrued. */
  lemma Moment(o: Options, from: real, d: real) returns (q: real)
    requires o.rps > 0.0 && d >= 0.0
    ensures q == d / o.rps && q >= 0.0 && Accrual(o, from, from + 1000.0 * q) == d
  {
    q := d / o.rps;
    assert q * o.rps == d;
    assert ((from + 1000.0 * q) - from) / 1000.0 == q;
  }

  lemma AccrualStrict(o: Options, from: real, a: real, b: real)
    requires o.rps > 0.0
    ensures a <= b ==> Accrual(o, from, a) <= Accrual(o, from, b)
    ensures a < b ==> Accrual(o, from, a) < Accrual(o, from, b)
  {
    AccrualAdds(o, from, a, b);
    if a < b {
      assert (b - a) / 1000.0 > 0.0;
    }
  }

  lemma CeilIs(x: real)
    ensures Ceil(x) as real - 1.0 < x <= Ceil(x) as real
  {
  }

  /**
   The hint is the least number of whole seconds, at least one, after which a token is there:
   what a bucket holds by the time of the hint, and a whole second before it.
   */
  lemma HintIsLeast(o: Options, x: real, from: real, now: real)
    requires o.rps > 0.0 && o.burst >= 1.0 && x < 1.0
    ensures var r := Decide(o, x).retryAfterSeconds;
            && r >= 1
            && (now >= from + 1000.0 * r as real ==> Refilled(o, x, from, now) >= 1.0)
            && (r > 1 && now <= from + 1000.0 * (r as real - 1.0) ==> Refilled(o, x, from, now) < 1.0)
  {
    hide Accrual, Ceil;
    var q := Moment(o, from, 1.0 - x);
    CeilIs(q);
    AccrualStrict(o, from, from + 1000.0 * q, now);
    AccrualStrict(o, from, now, from + 1000.0 * q);
  }

  /** No take of the key in the run is allowed. */
  ghost predicate NoneAllowed(o: Options, es: seq<Entry>, run: seq<Visit>, key: string) {
    forall i :: 0 <= i < |run| && run[i].key == key ==> !DecisionsFrom(o, es, run)[i].allowed
  }

  lemma NoneAllowedFront(o: Options, es: seq<Entry>, run: seq<Visit>, key: string)
    requires run != [] && NoneAllowed(o, es, run, key)
    ensures NoneAllowed(o, es, run[..|run| - 1], key)
    ensures run[|run| - 1].key == key ==>
              !Decide(o, Tokens(o, BucketsFrom(o, es, run[..|run| - 1]), key, run[|run| - 1].at)).allowed
                || !o.Enabled()
  {
    var front := run[..|run| - 1];
    forall i | 0 <= i < |front| && front[i].key == key
      ensures !DecisionsFrom(o, es, front)[i].allowed
    {
      assert DecisionsFrom(o, es, run)[i] == DecisionsFrom(o, es, front)[i];
    }
  }

  /** Any take by anyone leaves a key no poorer, except for the charge of its own allowed take. */
  lemma NeverPoorer(o: Options, es: seq<Entry>, key: string, now: real, k: string)
    requires o.rps > 0.0 && o.burst >= 1.0 && WellKept(o, es, now)
    requires k == key ==> Tokens(o, es, key, now) < 1.0
    ensures Tokens(o, NextBuckets(o, es, key, now), k, now) >= Tokens(o, es, k, now)
    ensures Find(NextBuckets(o, es, key, now), k).Some? ==>
              Tokens(o, NextBuckets(o, es, key, now), k, now) == Tokens(o, es, k, now)
  {
    hide Accrual, Tokens, Swept, ChargeLast;
    var touched := Touched(o, es, key, now);
    TouchedKeeps(o, es, key, now);
    var n := SweptIsSuffix(o, touched, now);
    var swept := Swept(o, touched, now);
    SuffixWellKept(o, touched, n, now);
    TokensRange(o, touched, k, now);
    SuffixTokens(o, touched, n, k, now);
    if k == key {
      DeniedKeepsAll(o, es, key, now);
    } else {
      ChargeKeeps(o, swept, key, now);
      ChargeKeepsKeys(swept, key, k);
    }
  }

  lemma DeniedKeepsAll(o: Options, es: seq<Entry>, key: string, now: real)
    requires o.rps > 0.0 && o.burst >= 1.0 && WellKept(o, es, now) && Tokens(o, es, key, now) < 1.0
    ensures NextBuckets(o, es, key, now) == Swept(o, Touched(o, es, key, now), now)
  {
    hide Accrual, Swept, Tokens;
    var touched := Touched(o, es, key, now);
    TouchedKeeps(o, es, key, now);
    var n := SweptIsSuffix(o, touched, now);
    var swept := Swept(o, touched, now);
    if swept != [] {
      assert swept[|swept| - 1] == touched[|touched| - 1];
      assert swept == swept[..|swept| - 1] + [swept[|swept| - 1]];
    }
  }

  lemma ChargeKeepsKeys(es: seq<Entry>, key: string, k: string)
    ensures Find(ChargeLast(es, key), k).Some? <==> Find(es, k).Some?
  {
    if es != [] && es[|es| - 1].key == key {
      var front, last := es[..|es| - 1], es[|es| - 1];
      assert es == front + [last];
      FindAppend(front, last, k);
      FindAppend(front, last.(tokens := Charged(last.tokens)), k);
    }
  }

  /** Dropping buckets from the old end only forgets: a dropped key has a full bucket again. */
  lemma {:induction false} SuffixTokens(o: Options, es: seq<Entry>, n: nat, k: string, now: real)
    requires o.rps > 0.0 && o.burst >= 1.0 && WellKept(o, es, now) && n <= |es|
    ensures Find(es[n..], k).Some? ==> Tokens(o, es[n..], k, now) == Tokens(o, es, k, now)
    ensures Tokens(o, es[n..], k, now) >= Tokens(o, es, k, now)
  {
    TokensRange(o, es, k, now);
    if n == 0 {
      assert es[0..] == es;
    } else {
      SuffixTokens(o, es[1..], n - 1, k, now);
      assert es[1..][n - 1..] == es[n..];
      FindFinds(es[1..], k);
      FindFinds(es[n..], k);
    }
  }

  lemma {:induction false} RunWellKept(o: Options, es: seq<Entry>, run: seq<Visit>, from: real, now: real)
    requires o.rps > 0.0 && o.burst >= 1.0 && WellKept(o, es, from) && from <= now && Timely(run, from, now)
    ensures WellKept(o, BucketsFrom(o, es, run), now)
  {
    if run != [] {
      var front, last := run[..|run| - 1], run[|run| - 1];
      RunWellKept(o, es, front, from, last.at);
      TakeKeeps(o, BucketsFrom(o, es, front), last.key, last.at);
    }
  }

  /** While no take of it is allowed, a key accrues at the full rate, whatever the sweeps do. */
  lemma {:induction false} AtLeastAccrued(o: Options, es: seq<Entry>, run: seq<Visit>, key: string, from: real,
                                          now: real)
    requires o.rps > 0.0 && o.burst >= 1.0 && WellKept(o, es, from) && from <= now && Timely(run, from, now)
    requires NoneAllowed(o, es, run, key)
    ensures Tokens(o, BucketsFrom(o, es, run), key, now) >= Refilled(o, Tokens(o, es, key, from), from, now)
  {
    if run == [] {
      TokensLater(o, es, key, from, now);
    } else {
      var front, last := run[..|run| - 1], run[|run| - 1];
      NoneAllowedFront(o, es, run, key);
      AtLeastAccrued(o, es, front, key, from, last.at);
      RunWellKept(o, es, front, from, last.at);
      var before := BucketsFrom(o, es, front);
      NeverPoorer(o, before, last.key, last.at, key);
      TakeKeeps(o, before, last.key, last.at);
      TokensLater(o, BucketsFrom(o, es, run), key, last.at, now);
      RefillTwice(o, Tokens(o, es, key, from), from, last.at, now);
    }
  }

  /** The key has a bucket after every take of the run. */
  ghost predicate StaysTracked(o: Options, es: seq<Entry>, run: seq<Visit>, key: string) {
    run != [] ==>
      && StaysTracked(o, es, run[..|run| - 1], key)
      && Find(BucketsFrom(o, es, run), key).Some?
  }

  /** A tracked key that cannot yet afford a token accrues at exactly the rate, and is denied until then. */
  lemma {:induction false} ExactlyAccrued(o: Options, es: seq<Entry>, run: seq<Visit>, key: string, from: real,
                                          now: real)
    requires o.rps > 0.0 && o.burst >= 1.0 && WellKept(o, es, from) && from <= now && Timely(run, from, now)
    requires StaysTracked(o, es, run, key)
    requires Refilled(o, Tokens(o, es, key, from), from, now) < 1.0
    ensures Tokens(o, BucketsFrom(o, es, run), key, now) == Refilled(o, Tokens(o, es, key, from), from, now)
  {
    if run == [] {
      TokensLater(o, es, key, from, now);
    } else {
      var front, last := run[..|run| - 1], run[|run| - 1];
      var x := Tokens(o, es, key, from);
      RefillTwice(o, x, from, last.at, now);
      AccrualGrows(o, last.at, now);
      ExactlyAccrued(o, es, front, key, from, last.at);
      RunWellKept(o, es, front, from, last.at);
      var before := BucketsFrom(o, es, front);
      NeverPoorer(o, before, last.key, last.at, key);
      TakeKeeps(o, before, last.key, last.at);
      TokensLater(o, BucketsFrom(o, es, run), key, last.at, now);
    }
  }

  lemma DeniedTake(o: Options, es: seq<Entry>, key: string, from: real)
    requires o.rps > 0.0 && o.burst >= 1.0 && WellKept(o, es, from) && !Taking(o, es, key, from).decision.allowed
    ensures var next := NextBuckets(o, es, key, from);
            && WellKept(o, next, from) && Tokens(o, next, key, from) == Tokens(o, es, key, from) < 1.0
  {
    var touched := Touched(o, es, key, from);
    TakeKeeps(o, es, key, from);
    TouchedKeeps(o, es, key, from);
    NotFullSurvives(o, touched, |touched| - 1, from);
  }

  /** A sweep never drops the last bucket of a list in which some bucket is not full. */
  lemma {:induction false} NotFullSurvives(o: Options, es: seq<Entry>, i: nat, now: real)
    requires i < |es| && !Full(o, es[i], now)
    ensures Swept(o, es, now) != []
  {
    StopsAtNotFull(o, es, i, now);
  }

  lemma {:induction false} StopsAtNotFull(o: Options, es: seq<Entry>, i: nat, now: real)
    requires i < |es| && !Full(o, es[i], now)
    ensures |DropFull(o, es, now)| >= |es| - i
  {
    if i > 0 && Full(o, es[0], now) { StopsAtNotFull(o, es[1..], i - 1, now); }
  }

  /** After a denial with hint r, a take at r seconds or later succeeds if none was allowed meanwhile. */
  lemma RetryHintIsSound(o: Options, es: seq<Entry>, key: string, from: real, run: seq<Visit>, now: real)
    requires o.rps > 0.0 && o.burst >= 1.0 && WellKept(o, es, from) && !Taking(o, es, key, from).decision.allowed
    requires Timely(run, from, now) && NoneAllowed(o, NextBuckets(o, es, key, from), run, key)
    requires now >= from + 1000.0 * Taking(o, es, key, from).decision.retryAfterSeconds as real
    ensures Taking(o, BucketsFrom(o, NextBuckets(o, es, key, from), run), key, now).decision.allowed
  {
    hide Accrual, NextBuckets, BucketsFrom, Timely, NoneAllowed, Ceil;
    DeniedTake(o, es, key, from);
    AtLeastAccrued(o, NextBuckets(o, es, key, from), run, key, from, now);
    HintIsLeast(o, Tokens(o, es, key, from), from, now);
    hide Tokens, Refilled;
  }

  /** If r > 1 and the bucket is still tracked, any take up to r - 1 seconds later is denied. */
  lemma RetryHintIsMinimal(o: Options, es: seq<Entry>, key: string, from: real, run: seq<Visit>, now: real)
    requires o.rps > 0.0 && o.burst >= 1.0 && WellKept(o, es, from) && !Taking(o, es, key, from).decision.allowed
    requires Taking(o, es, key, from).decision.retryAfterSeconds > 1
    requires Timely(run, from, now) && StaysTracked(o, NextBuckets(o, es, key, from), run, key)
    requires from <= now <= from + 1000.0 * (Taking(o, es, key, from).decision.retryAfterSeconds as real - 1.0)
    ensures !Taking(o, BucketsFrom(o, NextBuckets(o, es, key, from), run), key, now).decision.allowed
  {
    hide Accrual, NextBuckets, BucketsFrom, Timely, StaysTracked, Ceil;
    DeniedTake(o, es, key, from);
    HintIsLeast(o, Tokens(o, es, key, from), from, now);
    hide Tokens, Refilled;
    ExactlyAccrued(o, NextBuckets(o, es, key, from), run, key, from, now);
  }

  // ---------------------------------------------------------------- a lossy take shows

  /** `n` takes of one key at one instant. */
  function Burst(key: string, now: real, n: nat): seq<Visit> {
    if n == 0 then [] else Burst(key, now, n - 1) + [Visit(key, now)]
  }

  lemma {:induction false} BurstTimely(key: string, now: real, n: nat)
    ensures |Burst(key, now, n)| == n && forall i :: 0 <= i < n ==> Burst(key, now, n)[i] == Visit(key, now)
  {
    if n > 0 { BurstTimely(key, now, n - 1); }
  }

  /** Takes at one instant are served one by one as long as the bucket is not lost. */
  lemma {:induction false} BurstServed(o: Options, es: seq<Entry>, key: string, now: real, n: nat)
    requires o.rps > 0.0 && o.burst >= 1.0 && WellKept(o, es, now) && Tokens(o, es, key, now) == o.burst
    requires Survives(o, es, key, now) && n as real <= o.burst
    ensures var next := BucketsFrom(o, es, Burst(key, now, n));
            WellKept(o, next, now) && Tokens(o, next, key, now) == o.burst - n as real
  {
    if n > 0 {
      BurstServed(o, es, key, now, n - 1);
      var b := Burst(key, now, n);
      assert b[..|b| - 1] == Burst(key, now, n - 1);
      var before := BucketsFrom(o, es, Burst(key, now, n - 1));
      TakeKeeps(o, before, key, now);
      if n > 1 {
        var touched := Touched(o, before, key, now);
        NoAccrual(o, now);
        NotFullSurvives(o, touched, |touched| - 1, now);
      }
    }
  }

  lemma {:induction false} KeptBurst(o: Options, m: Kept, key: string, now: real, n: nat)
    requires o.rps > 0.0 && o.burst >= 1.0 && WellKeptCells(o, m, now) && n as real <= KeptTokens(o, m, key, now)
    ensures var next := KeptFrom(o, m, Burst(key, now, n));
            WellKeptCells(o, next, now) && KeptTokens(o, next, key, now) == KeptTokens(o, m, key, now) - n as real
  {
    if n > 0 {
      KeptBurst(o, m, key, now, n - 1);
      var b := Burst(key, now, n);
      assert b[..|b| - 1] == Burst(key, now, n - 1);
      KeptWellKept(o, KeptFrom(o, m, Burst(key, now, n - 1)), key, now);
    }
  }

  ghost predicate Distinguishes(o: Options, es: seq<Entry>, m: Kept, now: real, more: seq<Visit>) {
    && more != [] && Timely(more, now, more[|more| - 1].at)
    && DecisionsFrom(o, es, more) != KeptDecisionsFrom(o, m, more)
  }

  /** A key that the map takes for full and the reference does not can be told apart. */
  lemma RicherShows(o: Options, es: seq<Entry>, m: Kept, key: string, now: real) returns (more: seq<Visit>)
    requires o.rps > 0.0 && o.burst >= 1.0 && WellKept(o, es, now) && WellKeptCells(o, m, now)
    requires Tokens(o, es, key, now) == o.burst && Survives(o, es, key, now)
    requires KeptTokens(o, m, key, now) < o.burst
    ensures Distinguishes(o, es, m, now, more)
  {
    KeptTokensRange(o, m, key, now);
    var r := KeptTokens(o, m, key, now);
    var n := r.Floor;
    var d := if o.burst - n as real >= 1.0 then 0.0 else 1.0 - (o.burst - n as real);
    var q := Moment(o, now, d);
    var later := now + 1000.0 * q;
    more := Burst(key, now, n) + [Visit(key, later)];
    TimelyBurst(key, now, n, later);
    hide Burst, DecisionsFrom, KeptDecisionsFrom, Accrual, Tokens, KeptTokens, Survives, WellKept, WellKeptCells;
    hide Timely;
    LastDecisions(o, es, m, key, now, n, later);
  }

  lemma TimelyBurst(key: string, now: real, n: nat, later: real)
    requires now <= later
    ensures Timely(Burst(key, now, n) + [Visit(key, later)], now, later)
  {
    BurstTimely(key, now, n);
  }

  lemma LastDecisions(o: Options, es: seq<Entry>, m: Kept, key: string, now: real, n: nat, later: real)
    requires o.rps > 0.0 && o.burst >= 1.0 && WellKept(o, es, now) && WellKeptCells(o, m, now)
    requires Tokens(o, es, key, now) == o.burst && Survives(o, es, key, now)
    requires n as real <= KeptTokens(o, m, key, now) < o.burst && now <= later
    requires KeptTokens(o, m, key, now) - n as real + Accrual(o, now, later) < 1.0
    requires o.burst - n as real + Accrual(o, now, later) >= 1.0
    ensures var more := Burst(key, now, n) + [Visit(key, later)];
            DecisionsFrom(o, es, more) != KeptDecisionsFrom(o, m, more)
  {
    var b, visit := Burst(key, now, n), Visit(key, later);
    BurstServed(o, es, key, now, n);
    KeptBurst(o, m, key, now, n);
    BurstTimely(key, now, n);
    TokensLater(o, BucketsFrom(o, es, b), key, now, later);
    KeptTokensLater(o, KeptFrom(o, m, b), key, now, later);
    hide Accrual, Tokens, KeptTokens, NextBuckets, KeptNext, WellKept, WellKeptCells, Survives, Burst, BucketsFrom;
    hide KeptFrom;
    NextDecision(o, es, b, visit);
    NextKeptDecision(o, m, b, visit);
    hide DecisionsFrom, KeptDecisionsFrom;
  }

  lemma NextDecision(o: Options, es: seq<Entry>, run: seq<Visit>, visit: Visit)
    ensures DecisionsFrom(o, es, run + [visit])[|run|]
      == Taking(o, BucketsFrom(o, es, run), visit.key, visit.at).decision
  {
    hide Taking;
    assert (run + [visit])[..|run|] == run;
  }

  lemma NextKeptDecision(o: Options, m: Kept, run: seq<Visit>, visit: Visit)
    ensures KeptDecisionsFrom(o, m, run + [visit])[|run|]
      == KeptTaking(o, KeptFrom(o, m, run), visit.key, visit.at).decision
  {
    hide KeptTaking;
    assert (run + [visit])[..|run|] == run;
  }

  /**
   A lossy take is observable: from two limiters that agreed before it, some continuation after
   it gets different decisions.
   */
  lemma LossyTakeShows(o: Options, es: seq<Entry>, m: Kept, key: string, now: real) returns (more: seq<Visit>)
    requires o.rps > 0.0 && o.burst >= 1.0 && Agree(o, es, m, now) && |es| <= 2 * SWEEP_THRESHOLD
    requires Lossy(o, es, key, now)
    ensures Distinguishes(o, NextBuckets(o, es, key, now), KeptNext(o, m, key, now), now, more)
  {
    var touched := Touched(o, es, key, now);
    var next, kept := NextBuckets(o, es, key, now), KeptNext(o, m, key, now);
    TouchedKeeps(o, es, key, now);
    TakeKeeps(o, es, key, now);
    KeptWellKept(o, m, key, now);
    if DropFull(o, touched, now) == [] {
      AllFull(o, touched, |touched| - 1, now);
      NoAccrual(o, now);
      assert next == [];
      more := RicherShows(o, next, kept, key, now);
    } else {
      var lost := touched[0];
      CapDropsFirst(o, es, key, now);
      NotFullTokens(o, touched, now);
      LastNotFull(o, es, key, now);
      LostIsAbsent(o, touched, key, now);
      var again := Touched(o, next, lost.key, now);
      WithoutAbsent(next, lost.key);
      assert again[|next| - 1] == next[|next| - 1];
      NotFullSurvives(o, again, |next| - 1, now);
      more := RicherShows(o, next, kept, lost.key, now);
    }
  }

  lemma {:induction false} AllFull(o: Options, es: seq<Entry>, i: nat, now: real)
    requires DropFull(o, es, now) == [] && i < |es|
    ensures Full(o, es[i], now)
  {
    if i > 0 { AllFull(o, es[1..], i - 1, now); }
  }

  /** When the hard cap fires, the list is one bucket too long and its oldest bucket, not full, goes. */
  lemma CapDropsFirst(o: Options, es: seq<Entry>, key: string, now: real)
    requires o.rps > 0.0 && o.burst >= 1.0 && WellKept(o, es, now) && |es| <= 2 * SWEEP_THRESHOLD
    requires Lossy(o, es, key, now) && DropFull(o, Touched(o, es, key, now), now) != []
    ensures var touched := Touched(o, es, key, now);
            && |touched| == 2 * SWEEP_THRESHOLD + 1 && !Full(o, touched[0], now)
            && Swept(o, touched, now) == touched[1..]
  {
    TouchedKeeps(o, es, key, now);
    DropFullShorter(o, Touched(o, es, key, now), now);
  }

  lemma {:induction false} DropFullShorter(o: Options, es: seq<Entry>, now: real)
    ensures |DropFull(o, es, now)| <= |es|
    ensures es != [] && Full(o, es[0], now) ==> |DropFull(o, es, now)| < |es|
  {
    if es != [] && Full(o, es[0], now) { DropFullShorter(o, es[1..], now); }
  }

  lemma NotFullTokens(o: Options, es: seq<Entry>, now: real)
    requires es != [] && !Full(o, es[0], now)
    ensures Tokens(o, es, es[0].key, now) < o.burst
  {
  }

  /** Just after a take, its bucket is not full. */
  lemma LastNotFull(o: Options, es: seq<Entry>, key: string, now: real)
    requires o.rps > 0.0 && o.burst >= 1.0 && WellKept(o, es, now) && Survives(o, es, key, now)
    ensures var next := NextBuckets(o, es, key, now);
            next != [] && next[|next| - 1].key == key && !Full(o, next[|next| - 1], now)
  {
    hide Accrual, Tokens, NextBuckets, Survives;
    SurvivorIsLast(o, es, key, now);
    TokensRange(o, es, key, now);
    NoAccrual(o, now);
  }

  lemma LostIsAbsent(o: Options, touched: seq<Entry>, key: string, now: real)
    requires WellKept(o, touched, now) && |touched| > 1 && touched[|touched| - 1].key == key
    ensures touched[0].key != key && Find(ChargeLast(touched[1..], key), touched[0].key) == None
  {
    FindFinds(touched[1..], touched[0].key);
    ChargeKeepsKeys(touched[1..], key, touched[0].key);
  }

  lemma {:induction false} WithoutAbsent(es: seq<Entry>, key: string)
    requires Find(es, key) == None
    ensures Without(es, key) == es
  {
    if es != [] { WithoutAbsent(es[1..], key); }
  }

  // ---------------------------------------------------------------- a lossy take is reached

  function KeyNo(n: nat): (k: string)
    ensures |k| == n
  {
    seq(n, _ => 'k')
  }

  /** Takes of `n` different keys at time 0. */
  function Crowd(n: nat): (run: seq<Visit>)
    ensures |run| == n
  {
    seq(n, i requires 0 <= i < n => Visit(KeyNo(i), 0.0))
  }

  function CrowdBuckets(o: Options, n: nat): (es: seq<Entry>)
    ensures |es| == n
  {
    seq(n, i requires 0 <= i < n => Entry(KeyNo(i), o.burst - 1.0, 0.0))
  }

  lemma {:induction false} FindNone(es: seq<Entry>, key: string)
    requires forall i :: 0 <= i < |es| ==> es[i].key != key
    ensures Find(es, key) == None
  {
    if es != [] { FindNone(es[1..], key); }
  }

  /** A take of a key that is not tracked, while the map is small or its oldest bucket is not full. */
  lemma NewKeyTake(o: Options, es: seq<Entry>, key: string, now: real)
    requires o.rps > 0.0 && o.burst >= 1.0 && Find(es, key) == None
    ensures Touched(o, es, key, now) == es + [Entry(key, o.burst, now)]
    ensures |es| < SWEEP_THRESHOLD || (|es| < 2 * SWEEP_THRESHOLD && !Full(o, es[0], now)) ==>
              !Lossy(o, es, key, now) && NextBuckets(o, es, key, now) == es + [Entry(key, o.burst - 1.0, now)]
  {
    TouchedNew(o, es, key, now);
    hide Touched, Full, DropFull, Swept, ChargeLast, Find;
    var touched := es + [Entry(key, o.burst, now)];
    assert es != [] ==> touched[0] == es[0];
    if |es| < SWEEP_THRESHOLD || (|es| < 2 * SWEEP_THRESHOLD && !Full(o, es[0], now)) {
      NothingSwept(o, touched, now);
      ChargeAppended(es, Entry(key, o.burst, now));
    }
  }

  lemma TouchedNew(o: Options, es: seq<Entry>, key: string, now: real)
    requires Find(es, key) == None
    ensures Touched(o, es, key, now) == es + [Entry(key, o.burst, now)]
  {
    WithoutAbsent(es, key);
    hide Without, Find;
  }

  lemma ChargeAppended(es: seq<Entry>, e: Entry)
    ensures ChargeLast(es + [e], e.key) == es + [e.(tokens := Charged(e.tokens))]
  {
    assert (es + [e])[..|es|] == es;
  }

  lemma NothingSwept(o: Options, es: seq<Entry>, now: real)
    requires es != [] && |es| <= 2 * SWEEP_THRESHOLD && (|es| > SWEEP_THRESHOLD ==> !Full(o, es[0], now))
    ensures Swept(o, es, now) == es && (|es| > SWEEP_THRESHOLD ==> DropFull(o, es, now) == es)
  {
    hide Full;
  }

  lemma {:induction false} CrowdRuns(o: Options, n: nat)
    requires o.rps > 0.0 && o.burst >= 1.0 && n <= 2 * SWEEP_THRESHOLD
    ensures BucketsFrom(o, [], Crowd(n)) == CrowdBuckets(o, n) && Lossless(o, [], Crowd(n))
  {
    hide NextBuckets, Touched, DropFull, Find, Lossy;
    if n > 0 {
      CrowdRuns(o, n - 1);
      var es, key := CrowdBuckets(o, n - 1), KeyNo(n - 1);
      FindNone(es, key);
      NoAccrual(o, 0.0);
      NewKeyTake(o, es, key, 0.0);
      assert Crowd(n)[..n - 1] == Crowd(n - 1) && Crowd(n)[n - 1] == Visit(key, 0.0);
      assert CrowdBuckets(o, n) == es + [Entry(key, o.burst - 1.0, 0.0)];
    }
  }

  lemma {:induction false} FullAreDropped(o: Options, es: seq<Entry>, now: real)
    requires forall i :: 0 <= i < |es| ==> Full(o, es[i], now)
    ensures DropFull(o, es, now) == []
  {
    hide Full;
    if es != [] { FullAreDropped(o, es[1..], now); }
  }

  /** Once all buckets are full again, a take of one key more sweeps its own bucket away. */
  lemma CrowdIsLossy(o: Options, now: real)
    requires o.rps > 0.0 && o.burst >= 1.0 && Accrual(o, 0.0, now) == 1.0
    ensures Lossy(o, CrowdBuckets(o, SWEEP_THRESHOLD), KeyNo(SWEEP_THRESHOLD), now)
  {
    var n: nat := SWEEP_THRESHOLD;
    var es, key := CrowdBuckets(o, n), KeyNo(n);
    FindNone(es, key);
    NewKeyTake(o, es, key, now);
    NoAccrual(o, now);
    hide Accrual, DropFull, Touched;
    FullAreDropped(o, es + [Entry(key, o.burst, now)], now);
  }

  lemma {:induction false} RunsJoin(o: Options, es: seq<Entry>, a: seq<Visit>, b: seq<Visit>)
    ensures BucketsFrom(o, es, a + b) == BucketsFrom(o, BucketsFrom(o, es, a), b)
    ensures DecisionsFrom(o, es, a + b) == DecisionsFrom(o, es, a) + DecisionsFrom(o, BucketsFrom(o, es, a), b)
  {
    hide Taking;
    if b == [] {
      assert a + b == a;
    } else {
      RunsJoin(o, es, a, b[..|b| - 1]);
      assert (a + b)[..|a + b| - 1] == a + b[..|b| - 1];
    }
  }

  lemma {:induction false} KeptRunsJoin(o: Options, m: Kept, a: seq<Visit>, b: seq<Visit>)
    ensures KeptFrom(o, m, a + b) == KeptFrom(o, KeptFrom(o, m, a), b)
    ensures KeptDecisionsFrom(o, m, a + b) == KeptDecisionsFrom(o, m, a) + KeptDecisionsFrom(o, KeptFrom(o, m, a), b)
  {
    hide KeptTaking;
    if b == [] {
      assert a + b == a;
    } else {
      KeptRunsJoin(o, m, a, b[..|b| - 1]);
      assert (a + b)[..|a + b| - 1] == a + b[..|b| - 1];
    }
  }

  lemma LastTake(o: Options, es: seq<Entry>, m: Kept, visit: Visit)
    requires o.rps > 0.0 && o.burst >= 1.0
    ensures BucketsFrom(o, es, [visit]) == NextBuckets(o, es, visit.key, visit.at)
    ensures KeptFrom(o, m, [visit]) == KeptNext(o, m, visit.key, visit.at)
  {
    hide NextBuckets, KeptNext;
    assert [visit][..0] == [];
  }

  lemma CrowdIsTimely(n: nat, now: real)
    ensures now >= 0.0 ==> Timely(Crowd(n), 0.0, now)
  {
  }

  /** A lossy take after a crowd, and some takes after it that the two limiters decide differently. */
  lemma LossyAfterCrowd(o: Options, n: nat, visit: Visit) returns (run: seq<Visit>)
    requires o.rps > 0.0 && o.burst >= 1.0 && n <= 2 * SWEEP_THRESHOLD && visit.at >= 0.0
    requires Lossy(o, CrowdBuckets(o, n), visit.key, visit.at)
    ensures |run| > n && run[..n] == Crowd(n) && run[n] == visit && Timely(run, 0.0, run[|run| - 1].at)
    ensures BucketsFrom(o, [], run[..n]) == CrowdBuckets(o, n) && Lossless(o, [], run[..n])
    ensures DecisionsFrom(o, [], run) != KeptDecisionsFrom(o, map[], run)
  {
    hide *;
    var crowd := Crowd(n);
    var es, m := CrowdBuckets(o, n), KeptFrom(o, map[], crowd);
    CrowdRuns(o, n);
    CrowdIsTimely(n, visit.at);
    LosslessRunsAgree(o, crowd, 0.0, visit.at);
    var more := LossyTakeShows(o, es, m, visit.key, visit.at);
    run := crowd + ([visit] + more);
    DiffersAfter(o, crowd, visit, more);
    assert run[..n] == crowd;
  }

  /**
   From the empty map, for any enabled options: 10,000 keys, a wait until their buckets are full, one key more, and some
   takes after it that the two limiters decide differently.
   */
  lemma LossyTakeIsReached(o: Options) returns (run: seq<Visit>)
    requires o.rps > 0.0 && o.burst >= 1.0
    ensures run != [] && Timely(run, 0.0, run[|run| - 1].at)
    ensures DecisionsFrom(o, [], run) != KeptDecisionsFrom(o, map[], run)
  {
    var q := Moment(o, 0.0, 1.0);
    CrowdIsLossy(o, 1000.0 * q);
    hide *;
    run := LossyAfterCrowd(o, SWEEP_THRESHOLD, Visit(KeyNo(SWEEP_THRESHOLD), 1000.0 * q));
  }

  /** The hard cap drops a bucket at this take. */
  predicate CapFires(o: Options, es: seq<Entry>, visit: Visit) {
    |DropFull(o, Touched(o, es, visit.key, visit.at), visit.at)| > 2 * SWEEP_THRESHOLD
  }

  /**
   From the empty map, for any enabled options: 20,001 keys at one instant, of which the last makes the hard cap drop
   the bucket of the first, and some takes after it that the two limiters decide differently.
   */
  lemma HardCapIsReached(o: Options) returns (run: seq<Visit>, n: nat)
    requires o.rps > 0.0 && o.burst >= 1.0
    ensures n < |run| && Timely(run, 0.0, run[|run| - 1].at)
    ensures Lossless(o, [], run[..n]) && CapFires(o, BucketsFrom(o, [], run[..n]), run[n])
    ensures Loses(o, BucketsFrom(o, [], run[..n]), run[n], run[0].key)
    ensures DecisionsFrom(o, [], run) != KeptDecisionsFrom(o, map[], run)
  {
    n := 2 * SWEEP_THRESHOLD;
    var visit := Visit(KeyNo(n), 0.0);
    CrowdFillsTheMap(o, visit);
    hide CapFires, Loses, Lossy, Lossless, BucketsFrom, DecisionsFrom, KeptDecisionsFrom, CrowdBuckets;
    run := LossyAfterCrowd(o, n, visit);
    assert run[0] == run[..n][0] == Visit(KeyNo(0), 0.0);
  }

  lemma CrowdFillsTheMap(o: Options, visit: Visit)
    requires o.rps > 0.0 && o.burst >= 1.0 && visit == Visit(KeyNo(2 * SWEEP_THRESHOLD), 0.0)
    ensures var es := CrowdBuckets(o, 2 * SWEEP_THRESHOLD);
      Lossy(o, es, visit.key, visit.at) && CapFires(o, es, visit) && Loses(o, es, visit, KeyNo(0))
  {
    var n: nat := 2 * SWEEP_THRESHOLD;
    var es := CrowdBuckets(o, n);
    FindNone(es, visit.key);
    NewKeyTake(o, es, visit.key, 0.0);
    NoAccrual(o, 0.0);
    var touched := es + [Entry(visit.key, o.burst, 0.0)];
    assert touched[0] == es[0];
    hide Accrual, Touched;
    assert DropFull(o, touched, 0.0) == touched;
    hide DropFull;
    assert Swept(o, touched, 0.0) == touched[1..];
    FindNone(ChargeLast(touched[1..], visit.key), KeyNo(0));
  }

  /** What tells the limiters apart after a take tells them apart from the empty map. */
  lemma DiffersAfter(o: Options, before: seq<Visit>, visit: Visit, more: seq<Visit>)
    requires o.rps > 0.0 && o.burst >= 1.0 && Timely(before, 0.0, visit.at) && visit.at >= 0.0
    requires Distinguishes(o, NextBuckets(o, BucketsFrom(o, [], before), visit.key, visit.at),
                           KeptNext(o, KeptFrom(o, map[], before), visit.key, visit.at), visit.at, more)
    ensures var run := before + ([visit] + more);
      && Timely(run, 0.0, run[|run| - 1].at)
      && DecisionsFrom(o, [], run) != KeptDecisionsFrom(o, map[], run)
  {
    TimelyAfter(before, visit, more);
    hide BucketsFrom, KeptFrom, DecisionsFrom, KeptDecisionsFrom, NextBuckets, KeptNext, Timely;
    var es, m := BucketsFrom(o, [], before), KeptFrom(o, map[], before);
    LastTake(o, es, m, visit);
    RunsJoin(o, es, [visit], more);
    KeptRunsJoin(o, m, [visit], more);
    RunsJoin(o, [], before, [visit] + more);
    KeptRunsJoin(o, map[], before, [visit] + more);
    Different(DecisionsFrom(o, [], before), DecisionsFrom(o, es, [visit]), KeptDecisionsFrom(o, m, [visit]),
      DecisionsFrom(o, NextBuckets(o, es, visit.key, visit.at), more),
      KeptDecisionsFrom(o, KeptNext(o, m, visit.key, visit.at), more), KeptDecisionsFrom(o, map[], before));
  }

  lemma Different(a: seq<Decision>, b: seq<Decision>, b': seq<Decision>, c: seq<Decision>, c': seq<Decision>,
                  a': seq<Decision>)
    requires |a| == |a'| && |b| == |b'| && |c| == |c'| && c != c'
    ensures a + (b + c) != a' + (b' + c')
  {
    var k, x, y := |a| + |b|, a + (b + c), a' + (b' + c');
    var i :| 0 <= i < |c| && c[i] != c'[i];
    assert x[k + i] != y[k + i];
  }

  lemma TimelyAfter(a: seq<Visit>, visit: Visit, more: seq<Visit>)
    requires Timely(a, 0.0, visit.at) && visit.at >= 0.0
    requires more != [] && Timely(more, visit.at, more[|more| - 1].at)
    ensures var run := a + ([visit] + more); Timely(run, 0.0, run[|run| - 1].at)
  {
    var run, n, end := a + ([visit] + more), |a|, more[|more| - 1].at;
    assert visit.at <= more[0].at <= end;
    assert run[n] == visit && forall i :: n < i < |run| ==> run[i] == more[i - n - 1];
  }
}

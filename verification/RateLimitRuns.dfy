/**
 Runs of the token bucket of module RateLimit: agreement with a limiter that never drops a
 bucket, the exact way in which it can fail to agree, and bounds on what a key is allowed.
 */
module RateLimitRuns {
  import opened Basics
  import opened RateLimit

  // ---------------------------------------------------------------- the limiter that keeps everything

  datatype Cell = Cell(tokens: real, at: real)

  type Kept = map<string, Cell>

  function KeptTokens(o: Options, m: Kept, key: string, now: real): real {
    if key in m then Refilled(o, m[key].tokens, m[key].at, now) else o.burst
  }

  function KeptNext(o: Options, m: Kept, key: string, now: real): Kept {
    m[key := Cell(Charged(KeptTokens(o, m, key, now)), now)]
  }

  datatype KeptTaken = KeptTaken(decision: Decision, cells: Kept)

  function KeptTaking(o: Options, m: Kept, key: string, now: real): KeptTaken {
    if !o.Enabled() then KeptTaken(Decision(true, 0), m)
    else KeptTaken(Decide(o, KeptTokens(o, m, key, now)), KeptNext(o, m, key, now))
  }

  // ---------------------------------------------------------------- runs

  datatype Visit = Visit(key: string, at: real)

  function BucketsFrom(o: Options, es: seq<Entry>, run: seq<Visit>): seq<Entry> {
    if run == [] then es
    else
      var last := run[|run| - 1];
      Taking(o, BucketsFrom(o, es, run[..|run| - 1]), last.key, last.at).buckets
  }

  function DecisionsFrom(o: Options, es: seq<Entry>, run: seq<Visit>): (ds: seq<Decision>)
    ensures |ds| == |run|
  {
    if run == [] then []
    else
      var last := run[|run| - 1];
      DecisionsFrom(o, es, run[..|run| - 1])
      + [Taking(o, BucketsFrom(o, es, run[..|run| - 1]), last.key, last.at).decision]
  }

  function KeptFrom(o: Options, m: Kept, run: seq<Visit>): Kept {
    if run == [] then m
    else
      var last := run[|run| - 1];
      KeptTaking(o, KeptFrom(o, m, run[..|run| - 1]), last.key, last.at).cells
  }

  function KeptDecisionsFrom(o: Options, m: Kept, run: seq<Visit>): (ds: seq<Decision>)
    ensures |ds| == |run|
  {
    if run == [] then []
    else
      var last := run[|run| - 1];
      KeptDecisionsFrom(o, m, run[..|run| - 1])
      + [KeptTaking(o, KeptFrom(o, m, run[..|run| - 1]), last.key, last.at).decision]
  }

  /** The clock does not go back, and the run lies between two times. */
  ghost predicate Timely(run: seq<Visit>, from: real, to: real) {
    && (forall i :: 0 <= i < |run| ==> from <= run[i].at <= to)
    && (forall i, j :: 0 <= i < j < |run| ==> run[i].at <= run[j].at)
  }

  /** A take is lossy when its sweep reaches the bucket just touched or the hard cap drops a bucket. */
  predicate Lossy(o: Options, es: seq<Entry>, key: string, now: real) {
    var touched := Touched(o, es, key, now);
    && o.Enabled()
    && |touched| > SWEEP_THRESHOLD
    && (DropFull(o, touched, now) == [] || |DropFull(o, touched, now)| > 2 * SWEEP_THRESHOLD)
  }

  ghost predicate Lossless(o: Options, es: seq<Entry>, run: seq<Visit>) {
    run == [] ||
    var last := run[|run| - 1];
    && Lossless(o, es, run[..|run| - 1])
    && !Lossy(o, BucketsFrom(o, es, run[..|run| - 1]), last.key, last.at)
  }

  // ---------------------------------------------------------------- refilling

  lemma AccrualAdds(o: Options, a: real, b: real, c: real)
    ensures Accrual(o, a, b) + Accrual(o, b, c) == Accrual(o, a, c)
  {
    var x, y := (b - a) / 1000.0, (c - b) / 1000.0;
    assert (c - a) / 1000.0 == x + y;
    assert (x + y) * o.rps == x * o.rps + y * o.rps;
  }

  lemma AccrualGrows(o: Options, a: real, b: real)
    requires a <= b && o.rps >= 0.0
    ensures Accrual(o, a, b) >= 0.0
  {
  }

  /** Refilling in two steps is refilling once. */
  lemma RefillTwice(o: Options, x: real, a: real, b: real, c: real)
    requires o.rps >= 0.0 && a <= b <= c
    ensures Refilled(o, Refilled(o, x, a, b), b, c) == Refilled(o, x, a, c)
  {
    hide Accrual;
    AccrualAdds(o, a, b, c);
    AccrualGrows(o, b, c);
  }

  /** Distinct keys, nothing from the future, and between nothing and a burst in every bucket. */
  ghost predicate WellKept(o: Options, es: seq<Entry>, now: real) {
    && (forall i, j :: 0 <= i < j < |es| ==> es[i].key != es[j].key)
    && (forall i :: 0 <= i < |es| ==> es[i].at <= now && 0.0 <= es[i].tokens <= o.burst)
  }

  ghost predicate WellKeptCells(o: Options, m: Kept, now: real) {
    forall k | k in m :: m[k].at <= now && 0.0 <= m[k].tokens <= o.burst
  }

  lemma {:induction false} FindFinds(es: seq<Entry>, key: string)
    ensures match Find(es, key)
            case Some(e) => e.key == key && exists i :: 0 <= i < |es| && es[i] == e
            case None => forall i :: 0 <= i < |es| ==> es[i].key != key
  {
    if es != [] && es[0].key != key {
      FindFinds(es[1..], key);
      if Find(es, key).Some? {
        var i :| 0 <= i < |es[1..]| && es[1..][i] == Find(es, key).value;
        assert es[i + 1] == Find(es, key).value;
      }
    }
  }

  lemma TokensRange(o: Options, es: seq<Entry>, key: string, now: real)
    requires o.rps > 0.0 && o.burst >= 1.0 && WellKept(o, es, now)
    ensures 0.0 <= Tokens(o, es, key, now) <= o.burst
  {
    hide Accrual, Find;
    FindFinds(es, key);
    match Find(es, key)
    case None =>
    case Some(e) => AccrualGrows(o, e.at, now);
  }

  lemma TokensLater(o: Options, es: seq<Entry>, key: string, now: real, later: real)
    requires o.rps > 0.0 && o.burst >= 1.0 && WellKept(o, es, now) && now <= later
    ensures Tokens(o, es, key, later) == Refilled(o, Tokens(o, es, key, now), now, later)
  {
    hide Accrual, Find;
    FindFinds(es, key);
    match Find(es, key)
    case None => AccrualGrows(o, now, later);
    case Some(e) => RefillTwice(o, e.tokens, e.at, now, later);
  }

  lemma KeptTokensRange(o: Options, m: Kept, key: string, now: real)
    requires o.rps > 0.0 && o.burst >= 1.0 && WellKeptCells(o, m, now)
    ensures 0.0 <= KeptTokens(o, m, key, now) <= o.burst
  {
    hide Accrual;
    if key in m { AccrualGrows(o, m[key].at, now); }
  }

  lemma KeptTokensLater(o: Options, m: Kept, key: string, now: real, later: real)
    requires o.rps > 0.0 && o.burst >= 1.0 && WellKeptCells(o, m, now) && now <= later
    ensures KeptTokens(o, m, key, later) == Refilled(o, KeptTokens(o, m, key, now), now, later)
  {
    hide Accrual;
    if key in m {
      RefillTwice(o, m[key].tokens, m[key].at, now, later);
    } else {
      AccrualGrows(o, now, later);
    }
  }

  // ---------------------------------------------------------------- one take, bucket by bucket

  lemma {:induction false} FindWithout(es: seq<Entry>, key: string, k: string)
    requires forall i, j :: 0 <= i < j < |es| ==> es[i].key != es[j].key
    ensures Find(Without(es, key), k) == if k == key then None else Find(es, k)
  {
    if es != [] {
      if es[0].key == key {
        FindFinds(es[1..], key);
      } else {
        FindWithout(es[1..], key, k);
      }
    }
  }

  lemma {:induction false} FindAppend(es: seq<Entry>, e: Entry, k: string)
    ensures Find(es + [e], k) == if Find(es, k).Some? then Find(es, k) else if e.key == k then Some(e) else None
  {
    if es == [] {
      assert [] + [e] == [e];
    } else {
      FindAppend(es[1..], e, k);
      assert (es + [e])[1..] == es[1..] + [e];
    }
  }

  lemma {:induction false} WithoutKeeps(o: Options, es: seq<Entry>, key: string, now: real)
    requires WellKept(o, es, now)
    ensures WellKept(o, Without(es, key), now)
    ensures forall i :: 0 <= i < |Without(es, key)| ==> Without(es, key)[i].key != key
    ensures forall i :: 0 <= i < |Without(es, key)| ==> Without(es, key)[i] in es
    ensures |es| - 1 <= |Without(es, key)| <= |es|
  {
    if es != [] {
      WithoutKeeps(o, es[1..], key, now);
    }
  }

  lemma TouchedKeeps(o: Options, es: seq<Entry>, key: string, now: real)
    requires o.rps > 0.0 && o.burst >= 1.0 && WellKept(o, es, now)
    ensures WellKept(o, Touched(o, es, key, now), now)
    ensures forall k :: Tokens(o, Touched(o, es, key, now), k, now) == Tokens(o, es, k, now)
    ensures |es| <= |Touched(o, es, key, now)| <= |es| + 1
  {
    hide Accrual;
    WithoutKeeps(o, es, key, now);
    TokensRange(o, es, key, now);
    var e := Entry(key, Tokens(o, es, key, now), now);
    forall k
      ensures Tokens(o, Touched(o, es, key, now), k, now) == Tokens(o, es, k, now)
    {
      FindWithout(es, key, k);
      FindAppend(Without(es, key), e, k);
      NoAccrual(o, now);
    }
  }

  lemma SuffixWellKept(o: Options, es: seq<Entry>, n: nat, now: real)
    requires WellKept(o, es, now) && n <= |es|
    ensures WellKept(o, es[n..], now)
  {
  }

  lemma {:induction false} DropFullIsSuffix(o: Options, es: seq<Entry>, now: real) returns (n: nat)
    ensures n <= |es| && DropFull(o, es, now) == es[n..]
  {
    hide Full;
    if es == [] || !Full(o, es[0], now) {
      n := 0;
    } else {
      n := DropFullIsSuffix(o, es[1..], now);
      n := n + 1;
    }
  }

  /** Dropping a full bucket is dropping nothing, as long as time stands still. */
  lemma {:induction false} DropFullTokens(o: Options, es: seq<Entry>, k: string, now: real)
    requires WellKept(o, es, now)
    ensures Tokens(o, DropFull(o, es, now), k, now) == Tokens(o, es, k, now)
  {
    hide Accrual;
    if es != [] && Full(o, es[0], now) {
      DropFullTokens(o, es[1..], k, now);
      FindFinds(es[1..], k);
    }
  }

  /** Charging the last bucket changes what its key has and nothing else. */
  lemma ChargeKeeps(o: Options, es: seq<Entry>, key: string, now: real)
    requires o.rps > 0.0 && o.burst >= 1.0 && WellKept(o, es, now)
    ensures WellKept(o, ChargeLast(es, key), now)
    ensures forall k :: k != key ==> Tokens(o, ChargeLast(es, key), k, now) == Tokens(o, es, k, now)
    ensures es != [] && es[|es| - 1].key == key && es[|es| - 1].at == now ==>
              Tokens(o, ChargeLast(es, key), key, now) == Charged(es[|es| - 1].tokens)
  {
    hide Accrual;
    if es != [] && es[|es| - 1].key == key {
      var front, last := es[..|es| - 1], es[|es| - 1];
      assert es == front + [last];
      forall k
        ensures k != key ==> Tokens(o, ChargeLast(es, key), k, now) == Tokens(o, es, k, now)
      {
        FindAppend(front, last, k);
        FindAppend(front, last.(tokens := Charged(last.tokens)), k);
      }
      FindFinds(front, key);
      FindAppend(front, last.(tokens := Charged(last.tokens)), key);
      NoAccrual(o, now);
    }
  }

  /** The touched bucket is in the list after the sweep. */
  predicate Survives(o: Options, es: seq<Entry>, key: string, now: real) {
    Swept(o, Touched(o, es, key, now), now) != []
  }

  lemma SweptIsSuffix(o: Options, es: seq<Entry>, now: real) returns (n: nat)
    ensures n <= |es| && Swept(o, es, now) == es[n..]
  {
    var d := DropFullIsSuffix(o, es, now);
    hide DropFull;
    if |es| <= SWEEP_THRESHOLD {
      n := 0;
    } else if |es| - d <= 2 * SWEEP_THRESHOLD {
      n := d;
    } else {
      n := |es| - 2 * SWEEP_THRESHOLD;
    }
  }

  /** A bucket that survives the sweep is last in the list afterwards, and charged. */
  lemma SurvivorIsLast(o: Options, es: seq<Entry>, key: string, now: real)
    requires Survives(o, es, key, now)
    ensures var next := NextBuckets(o, es, key, now);
            next != [] && next[|next| - 1] == Entry(key, Charged(Tokens(o, es, key, now)), now)
  {
    hide Tokens, Swept;
    var touched := Touched(o, es, key, now);
    var n := SweptIsSuffix(o, touched, now);
    assert touched[n..][|touched| - n - 1] == touched[|touched| - 1];
  }

  /** Every take leaves the list well kept; a surviving bucket is charged. */
  lemma TakeKeeps(o: Options, es: seq<Entry>, key: string, now: real)
    requires o.rps > 0.0 && o.burst >= 1.0 && WellKept(o, es, now)
    ensures WellKept(o, NextBuckets(o, es, key, now), now)
    ensures Survives(o, es, key, now) ==>
              Tokens(o, NextBuckets(o, es, key, now), key, now) == Charged(Tokens(o, es, key, now))
  {
    hide Accrual, Swept, ChargeLast, Tokens, WellKept;
    var touched := Touched(o, es, key, now);
    TouchedKeeps(o, es, key, now);
    var n := SweptIsSuffix(o, touched, now);
    SuffixWellKept(o, touched, n, now);
    ChargeKeeps(o, touched[n..], key, now);
    if n < |touched| {
      assert touched[n..][|touched| - n - 1] == touched[|touched| - 1];
    }
  }

  /** A lossless take changes what exactly one key has: it is charged. */
  lemma LosslessTake(o: Options, es: seq<Entry>, key: string, now: real)
    requires o.rps > 0.0 && o.burst >= 1.0 && WellKept(o, es, now) && !Lossy(o, es, key, now)
    ensures Survives(o, es, key, now)
    ensures forall k :: k != key ==> Tokens(o, NextBuckets(o, es, key, now), k, now) == Tokens(o, es, k, now)
  {
    hide Accrual, DropFull, ChargeLast, Tokens, WellKept;
    var touched := Touched(o, es, key, now);
    TouchedKeeps(o, es, key, now);
    var n := SweptIsSuffix(o, touched, now);
    SuffixWellKept(o, touched, n, now);
    ChargeKeeps(o, Swept(o, touched, now), key, now);
    forall k | k != key
      ensures Tokens(o, NextBuckets(o, es, key, now), k, now) == Tokens(o, es, k, now)
    {
      DropFullTokens(o, touched, k, now);
    }
  }

  // ---------------------------------------------------------------- agreement

  /** Both limiters have the same tokens for every key. */
  ghost predicate Agree(o: Options, es: seq<Entry>, m: Kept, now: real) {
    && WellKept(o, es, now) && WellKeptCells(o, m, now)
    && forall k :: Tokens(o, es, k, now) == KeptTokens(o, m, k, now)
  }

  lemma AgreeLater(o: Options, es: seq<Entry>, m: Kept, now: real, later: real)
    requires o.rps > 0.0 && o.burst >= 1.0 && Agree(o, es, m, now) && now <= later
    ensures Agree(o, es, m, later)
  {
    forall k
      ensures Tokens(o, es, k, later) == KeptTokens(o, m, k, later)
    {
      TokensLater(o, es, k, now, later);
      KeptTokensLater(o, m, k, now, later);
    }
  }

  lemma AgreeTake(o: Options, es: seq<Entry>, m: Kept, key: string, now: real)
    requires o.rps > 0.0 && o.burst >= 1.0 && Agree(o, es, m, now) && !Lossy(o, es, key, now)
    ensures Agree(o, NextBuckets(o, es, key, now), KeptNext(o, m, key, now), now)
  {
    TakeKeeps(o, es, key, now);
    LosslessTake(o, es, key, now);
    KeptWellKept(o, m, key, now);
    hide NextBuckets, KeptNext, Accrual, Lossy, Survives, Tokens, KeptTokens;
    forall k
      ensures Tokens(o, NextBuckets(o, es, key, now), k, now) == KeptTokens(o, KeptNext(o, m, key, now), k, now)
    {
    }
  }

  lemma KeptWellKept(o: Options, m: Kept, key: string, now: real)
    requires o.rps > 0.0 && o.burst >= 1.0 && WellKeptCells(o, m, now)
    ensures WellKeptCells(o, KeptNext(o, m, key, now), now)
    ensures forall k :: KeptTokens(o, KeptNext(o, m, key, now), k, now) ==
                        if k == key then Charged(KeptTokens(o, m, key, now)) else KeptTokens(o, m, k, now)
  {
    KeptTokensRange(o, m, key, now);
    NoAccrual(o, now);
    hide Accrual;
  }

  /**
   On a lossless run with a clock that does not go back, every decision is that of the limiter that keeps every
   bucket.
   */
  lemma {:induction false} LosslessRunsAgree(o: Options, run: seq<Visit>, from: real, now: real)
    requires Timely(run, from, now) && Lossless(o, [], run)
    ensures DecisionsFrom(o, [], run) == KeptDecisionsFrom(o, map[], run)
    ensures o.rps > 0.0 && o.burst >= 1.0 ==> Agree(o, BucketsFrom(o, [], run), KeptFrom(o, map[], run), now)
  {
    if run != [] {
      var front, last := run[..|run| - 1], run[|run| - 1];
      LosslessRunsAgree(o, front, from, last.at);
      if o.Enabled() {
        var es, m := BucketsFrom(o, [], front), KeptFrom(o, map[], front);
        AgreeTake(o, es, m, last.key, last.at);
        AgreeLater(o, NextBuckets(o, es, last.key, last.at), KeptNext(o, m, last.key, last.at), last.at, now);
      }
    }
  }

  /** On every run the map holds at most 20,000 buckets after each take. */
  lemma {:induction false} MapIsBounded(o: Options, run: seq<Visit>)
    ensures |BucketsFrom(o, [], run)| <= 20_000
  {
    if run != [] {
      MapIsBounded(o, run[..|run| - 1]);
      var es, last := BucketsFrom(o, [], run[..|run| - 1]), run[|run| - 1];
      WithoutShorter(es, last.key);
    }
  }

  lemma {:induction false} WithoutShorter(es: seq<Entry>, key: string)
    ensures |Without(es, key)| <= |es|
  {
    if es != [] { WithoutShorter(es[1..], key); }
  }
}

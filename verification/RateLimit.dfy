/**
 The per-key token bucket with lazy refill and a swept, recency-ordered map
 (packages/mcp-chassis/src/rateLimit.ts). Times are milliseconds; tokens and times are exact reals.

 `Taking` says what one call does to the ordered list of buckets, and the class `TokenBucketLimiter`
 does it to heap objects. The reference limiter of module RateLimitRuns keeps every bucket for ever.
 */
module RateLimit {
  import opened Basics

  datatype Options = Options(rps: real, burst: real) {
    predicate Enabled() { rps > 0.0 && burst >= 1.0 }
  }

  datatype Decision = Decision(allowed: bool, retryAfterSeconds: int)

  const SWEEP_THRESHOLD := 10_000

  /** A tracked bucket, by key. A list of entries is in least-recently-touched order. */
  datatype Entry = Entry(key: string, tokens: real, at: real)

  function Min(a: real, b: real): real { if a <= b then a else b }

  function Ceil(x: real): int { -((-x).Floor) }

  function Accrual(o: Options, from: real, now: real): real {
    (now - from) / 1000.0 * o.rps
  }

  function Refilled(o: Options, tokens: real, at: real, now: real): real {
    Min(o.burst, tokens + Accrual(o, at, now))
  }

  function Decide(o: Options, tokens: real): Decision
    requires o.rps > 0.0
  {
    if tokens >= 1.0 then Decision(true, 0)
    else
      var wait := Ceil((1.0 - tokens) / o.rps);
      Decision(false, if wait < 1 then 1 else wait)
  }

  function Charged(tokens: real): real {
    if tokens >= 1.0 then tokens - 1.0 else tokens
  }

  // ---------------------------------------------------------------- one take on the ordered list

  function Find(es: seq<Entry>, key: string): Option<Entry> {
    if es == [] then None
    else if es[0].key == key then Some(es[0])
    else Find(es[1..], key)
  }

  function Without(es: seq<Entry>, key: string): seq<Entry> {
    if es == [] then []
    else if es[0].key == key then es[1..]
    else [es[0]] + Without(es[1..], key)
  }

  /** What the bucket of a key holds now; a key without a bucket has a full one. */
  function Tokens(o: Options, es: seq<Entry>, key: string, now: real): real {
    match Find(es, key)
    case Some(e) => Refilled(o, e.tokens, e.at, now)
    case None => o.burst
  }

  function Touched(o: Options, es: seq<Entry>, key: string, now: real): seq<Entry> {
    Without(es, key) + [Entry(key, Tokens(o, es, key, now), now)]
  }

  predicate Full(o: Options, e: Entry, now: real) {
    e.tokens + Accrual(o, e.at, now) >= o.burst
  }

  /** The first loop of a sweep. */
  function DropFull(o: Options, es: seq<Entry>, now: real): seq<Entry> {
    if es == [] || !Full(o, es[0], now) then es else DropFull(o, es[1..], now)
  }

  /** The second loop of a sweep. */
  function HardCap(es: seq<Entry>): seq<Entry> {
    if |es| <= 2 * SWEEP_THRESHOLD then es else es[|es| - 2 * SWEEP_THRESHOLD..]
  }

  function Swept(o: Options, es: seq<Entry>, now: real): seq<Entry> {
    if |es| > SWEEP_THRESHOLD then HardCap(DropFull(o, es, now)) else es
  }

  /** The charge goes to the touched bucket, which is last in the list if the sweep left it there. */
  function ChargeLast(es: seq<Entry>, key: string): seq<Entry> {
    if es != [] && es[|es| - 1].key == key
    then es[..|es| - 1] + [es[|es| - 1].(tokens := Charged(es[|es| - 1].tokens))]
    else es
  }

  function NextBuckets(o: Options, es: seq<Entry>, key: string, now: real): seq<Entry> {
    ChargeLast(Swept(o, Touched(o, es, key, now), now), key)
  }

  datatype Taken = Taken(decision: Decision, buckets: seq<Entry>)

  function Taking(o: Options, es: seq<Entry>, key: string, now: real): Taken {
    if !o.Enabled() then Taken(Decision(true, 0), es)
    else Taken(Decide(o, Tokens(o, es, key, now)), NextBuckets(o, es, key, now))
  }

  // ---------------------------------------------------------------- the limiter in the heap

  class Bucket {
    var tokens: real
    var at: real

    constructor (tokens: real, at: real)
      ensures this.tokens == tokens && this.at == at
    {
      this.tokens := tokens;
      this.at := at;
    }
  }

  lemma NoAccrual(o: Options, now: real)
    ensures Accrual(o, now, now) == 0.0
  {
  }

  /** One pair of the map; the map itself is the list of its pairs in insertion order. */
  datatype Slot = Slot(key: string, bucket: Bucket)

  ghost function Snapshot(slots: seq<Slot>): (es: seq<Entry>)
    reads set s | s in slots :: s.bucket
    ensures |es| == |slots|
  {
    if slots == [] then []
    else
      assert forall s | s in slots[1..] :: s in slots;
      [Entry(slots[0].key, slots[0].bucket.tokens, slots[0].bucket.at)] + Snapshot(slots[1..])
  }

  function FindSlot(slots: seq<Slot>, key: string): Option<Slot> {
    if slots == [] then None
    else if slots[0].key == key then Some(slots[0])
    else FindSlot(slots[1..], key)
  }

  function WithoutSlot(slots: seq<Slot>, key: string): seq<Slot> {
    if slots == [] then []
    else if slots[0].key == key then slots[1..]
    else [slots[0]] + WithoutSlot(slots[1..], key)
  }

  /** No key twice, and no bucket object shared between keys. */
  ghost predicate Separate(slots: seq<Slot>) {
    forall i, j :: 0 <= i < j < |slots| ==> slots[i].key != slots[j].key && slots[i].bucket != slots[j].bucket
  }

  lemma {:induction false} SnapshotAppend(slots: seq<Slot>, slot: Slot)
    ensures Snapshot(slots + [slot]) == Snapshot(slots) + [Entry(slot.key, slot.bucket.tokens, slot.bucket.at)]
  {
    if slots == [] {
      assert [] + [slot] == [slot];
    } else {
      SnapshotAppend(slots[1..], slot);
      assert (slots + [slot])[1..] == slots[1..] + [slot];
    }
  }

  lemma {:induction false} SnapshotWithout(slots: seq<Slot>, key: string)
    ensures Snapshot(WithoutSlot(slots, key)) == Without(Snapshot(slots), key)
  {
    if slots != [] && slots[0].key != key {
      SnapshotWithout(slots[1..], key);
      assert Snapshot(slots)[1..] == Snapshot(slots[1..]);
      var r := [slots[0]] + WithoutSlot(slots[1..], key);
      assert r[1..] == WithoutSlot(slots[1..], key);
    }
  }

  lemma {:induction false} SnapshotFind(slots: seq<Slot>, key: string)
    ensures Find(Snapshot(slots), key) ==
            match FindSlot(slots, key)
            case Some(s) => Some(Entry(key, s.bucket.tokens, s.bucket.at))
            case None => None
  {
    if slots != [] {
      assert Snapshot(slots)[1..] == Snapshot(slots[1..]);
      SnapshotFind(slots[1..], key);
    }
  }

  lemma {:induction false} WithoutSlotSeparate(slots: seq<Slot>, key: string)
    requires Separate(slots)
    ensures Separate(WithoutSlot(slots, key))
    ensures forall s | s in WithoutSlot(slots, key) :: s in slots && s.key != key
    ensures FindSlot(slots, key).Some? ==>
              && FindSlot(slots, key).value in slots
              && forall s | s in WithoutSlot(slots, key) :: s.bucket != FindSlot(slots, key).value.bucket
  {
    if slots != [] {
      WithoutSlotSeparate(slots[1..], key);
      assert forall s | s in slots[1..] :: s.key != slots[0].key && s.bucket != slots[0].bucket;
    }
  }

  class TokenBucketLimiter {
    const options: Options
    var buckets: seq<Slot>

    ghost predicate Valid()
      reads this
    {
      Separate(buckets)
    }

    ghost function Objects(): set<Bucket>
      reads this
    {
      set s | s in buckets :: s.bucket
    }

    ghost function Contents(): seq<Entry>
      reads this, Objects()
    {
      Snapshot(buckets)
    }

    constructor (options: Options)
      ensures Valid() && Contents() == [] && this.options == options
    {
      this.options := options;
      buckets := [];
    }

    /** Drops full buckets from the least recently touched end. */
    method DropFullBuckets(now: real)
      requires Valid()
      modifies this
      ensures Valid() && Contents() == DropFull(options, old(Contents()), now)
      ensures |buckets| <= |old(buckets)| && buckets == old(buckets)[|old(buckets)| - |buckets|..]
    {
      hide Accrual;
      ghost var before := Contents();
      ghost var n: nat := 0;
      while |buckets| > 0
        invariant n <= |old(buckets)| && buckets == old(buckets)[n..]
        invariant DropFull(options, before, now) == DropFull(options, Contents(), now)
        decreases |buckets|
      {
        var bucket := buckets[0].bucket;
        assert Snapshot(buckets)[1..] == Snapshot(buckets[1..]);
        if bucket.tokens + Accrual(options, bucket.at, now) < options.burst {
          break;
        }
        buckets := buckets[1..];
        n := n + 1;
      }
    }

    method CapBuckets()
      requires Valid()
      modifies this
      ensures Valid() && Contents() == HardCap(old(Contents()))
      ensures |buckets| <= |old(buckets)| && buckets == old(buckets)[|old(buckets)| - |buckets|..]
    {
      ghost var before := Contents();
      ghost var n: nat := 0;
      while |buckets| > 2 * SWEEP_THRESHOLD
        invariant n <= |old(buckets)| && buckets == old(buckets)[n..]
        invariant Contents() == before[n..]
        invariant n > 0 ==> |buckets| >= 2 * SWEEP_THRESHOLD
        decreases |buckets|
      {
        assert Snapshot(buckets)[1..] == Snapshot(buckets[1..]);
        assert before[n..][1..] == before[n + 1..];
        buckets := buckets[1..];
        n := n + 1;
      }
    }

    method Sweep(now: real)
      requires Valid()
      modifies this
      ensures Valid() && Contents() == HardCap(DropFull(options, old(Contents()), now))
      ensures |buckets| <= |old(buckets)| && buckets == old(buckets)[|old(buckets)| - |buckets|..]
    {
      hide DropFull, HardCap;
      DropFullBuckets(now);
      CapBuckets();
    }

    /** Refills the bucket of a key, or makes a full one, and moves it to the recent end. */
    method Touch(key: string, now: real) returns (bucket: Bucket)
      requires Valid()
      modifies this, Objects()
      ensures Valid() && fresh(Objects() - old(Objects()))
      ensures bucket in Objects() && bucket.tokens == Tokens(options, old(Contents()), key, now)
      ensures Contents() == Touched(options, old(Contents()), key, now)
      ensures buckets != [] && buckets[|buckets| - 1] == Slot(key, bucket)
    {
      hide Accrual, Snapshot, Find, FindSlot, Without, WithoutSlot;
      SnapshotFind(buckets, key);
      WithoutSlotSeparate(buckets, key);
      SnapshotWithout(buckets, key);
      var found := FindSlot(buckets, key);
      if found.Some? {
        bucket := found.value.bucket;
      } else {
        bucket := new Bucket(options.burst, now);
        NoAccrual(options, now);
      }
      var rest := WithoutSlot(buckets, key);
      ghost var others := Snapshot(rest);
      assert forall s | s in rest :: s.bucket != bucket && s.key != key;
      bucket.tokens := Min(options.burst, bucket.tokens + Accrual(options, bucket.at, now));
      bucket.at := now;
      assert Snapshot(rest) == others;
      buckets := rest + [Slot(key, bucket)];
      SnapshotAppend(rest, Slot(key, bucket));
    }

    method Take(key: string, now: real) returns (d: Decision)
      requires Valid()
      modifies this, Objects()
      ensures Valid() && fresh(Objects() - old(Objects()))
      ensures Taken(d, Contents()) == Taking(options, old(Contents()), key, now)
    {
      if !options.Enabled() {
        return Decision(true, 0);
      }
      hide Snapshot, Tokens, Touched, ChargeLast, DropFull, HardCap;
      var bucket := Touch(key, now);
      label AfterTouch:
      if |buckets| > SWEEP_THRESHOLD {
        Sweep(now);
      }
      assert buckets != [] ==> buckets[|buckets| - 1] == Slot(key, bucket);
      assert Objects() <= old@AfterTouch(Objects());
      assert Contents() == Swept(options, old@AfterTouch(Contents()), now);
      d := Decide(options, bucket.tokens);
      Charge(key, bucket);
    }

    /** Charging through the alias reaches the map only if the bucket is still in it. */
    method Charge(ghost key: string, bucket: Bucket)
      requires Valid()
      requires buckets != [] ==> buckets[|buckets| - 1] == Slot(key, bucket)
      modifies bucket
      ensures Contents() == ChargeLast(old(Contents()), key)
    {
      hide Snapshot;
      ghost var front := if buckets == [] then [] else buckets[..|buckets| - 1];
      ghost var others := Snapshot(front);
      if buckets != [] {
        assert buckets == front + [Slot(key, bucket)];
        SnapshotAppend(front, Slot(key, bucket));
        assert forall s | s in front :: s.bucket != bucket;
      }
      if bucket.tokens >= 1.0 {
        bucket.tokens := bucket.tokens - 1.0;
      }
      assert Snapshot(front) == others;
      if buckets != [] {
        SnapshotAppend(front, Slot(key, bucket));
      }
    }
  }
}

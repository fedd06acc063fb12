/**
 * The sliding-window send limiter of units/callisthenes/throttle.py.
 *
 * The main results: a send is refused exactly when the window that ends now already holds the cap, no window ever
 * holds more than the cap, and tenants that share the map of limiters are served as if each had its own.
 */
module Throttle {
  import opened Basics

  datatype Config = Config(perHour: int, window: real)

  function Evicted(events: seq<real>, horizon: real): seq<real> {
    if events != [] && events[0] <= horizon then Evicted(events[1..], horizon) else events
  }

  predicate Allows(config: Config, events: seq<real>, now: real) {
    config.perHour > 0 && |Evicted(events, now - config.window)| < config.perHour
  }

  /** The deque after a request to send. */
  function Asked(config: Config, events: seq<real>, now: real): seq<real> {
    Evicted(events, now - config.window) + if Allows(config, events, now) then [now] else []
  }

  class RateLimiter {
    const config: Config
    var events: seq<real>

    constructor (config: Config)
      ensures this.config == config && events == []
    {
      this.config := config;
      events := [];
    }

    method Evict(now: real)
      modifies this`events
      ensures events == Evicted(old(events), now - config.window)
    {
      var horizon := now - config.window;
      while events != [] && events[0] <= horizon
        invariant Evicted(events, horizon) == Evicted(old(events), horizon)
        decreases |events|
      {
        events := events[1..];
      }
    }

    method Allow(now: real) returns (allowed: bool)
      modifies this`events
      ensures allowed == Allows(config, old(events), now)
      ensures events == Asked(config, old(events), now)
    {
      Evict(now);
      if config.perHour <= 0 { return false; }
      if |events| >= config.perHour { return false; }
      events := events + [now];
      return true;
    }

    method Remaining(now: real) returns (n: nat)
      modifies this`events
      ensures events == Evicted(old(events), now - config.window)
      ensures n == if |events| < config.perHour then config.perHour - |events| else 0
    {
      Evict(now);
      n := if config.perHour - |events| > 0 then config.perHour - |events| else 0;
    }
  }

  const EMPTY_TENANT := "authenticated tenant is required for throttling"

  /** The deques by tenant, after a tenant asked for its limiter and then to send. */
  function TenantAsked(config: Config, deques: map<string, seq<real>>, tenant: string, now: real)
    : map<string, seq<real>>
  {
    deques[tenant := Asked(config, DequeOf(deques, tenant), now)]
  }

  function DequeOf(deques: map<string, seq<real>>, tenant: string): seq<real> {
    if tenant in deques then deques[tenant] else []
  }

  class TenantRateLimiters {
    const config: Config
    var limiters: map<string, RateLimiter>

    /** Every tenant has a limiter object of its own. */
    ghost predicate Valid()
      reads this, limiters.Values
    {
      && (forall t | t in limiters :: limiters[t].config == config)
      && (forall t, u | t in limiters && u in limiters && t != u :: limiters[t] != limiters[u])
    }

    ghost function Deques(): map<string, seq<real>>
      reads this, limiters.Values
    {
      map t | t in limiters :: limiters[t].events
    }

    constructor (config: Config)
      ensures this.config == config && limiters == map[]
    {
      this.config := config;
      limiters := map[];
    }

    method ForTenant(tenant: string) returns (r: Result<RateLimiter>)
      requires Valid()
      modifies this`limiters
      ensures Valid()
      ensures r.Err? <==> tenant == ""
      ensures r.Err? ==> limiters == old(limiters) && r.message == EMPTY_TENANT
      ensures r.Ok? ==> tenant in limiters && limiters[tenant] == r.value
      ensures r.Ok? ==> Deques() == old(Deques())[tenant := DequeOf(old(Deques()), tenant)]
      ensures forall l | l in limiters.Values :: l in old(limiters.Values) || fresh(l)
    {
      if tenant == "" { return Err(EMPTY_TENANT); }
      if tenant in limiters { return Ok(limiters[tenant]); }
      var limiter := new RateLimiter(config);
      limiters := limiters[tenant := limiter];
      return Ok(limiter);
    }

    /** A send as the middleware makes it. */
    method Send(tenant: string, now: real) returns (r: Result<bool>)
      requires Valid()
      modifies this`limiters, limiters.Values
      ensures Valid()
      ensures r.Err? <==> tenant == ""
      ensures r.Err? ==> Deques() == old(Deques())
      ensures r.Ok? ==> r.value == Allows(config, DequeOf(old(Deques()), tenant), now)
      ensures r.Ok? ==> Deques() == TenantAsked(config, old(Deques()), tenant, now)
    {
      hide Allows, Asked;
      var limiter := ForTenant(tenant);
      match limiter
      case Err(message) => return Err(message);
      case Ok(l) =>
        ghost var before := Deques();
        var allowed := l.Allow(now);
        assert Deques() == before[tenant := Asked(config, before[tenant], now)];
        return Ok(allowed);
    }
  }

  // Runs of one limiter.

  datatype Call = Ask(now: real) | Count(now: real)

  function DequeAfter(config: Config, calls: seq<Call>): seq<real> {
    if calls == [] then []
    else
      var before := DequeAfter(config, calls[..|calls| - 1]);
      match calls[|calls| - 1]
      case Ask(now) => Asked(config, before, now)
      case Count(now) => Evicted(before, now - config.window)
  }

  /** The times of all sends that were let through. */
  function Sends(config: Config, calls: seq<Call>): seq<real> {
    if calls == [] then []
    else
      var init := calls[..|calls| - 1];
      Sends(config, init)
      + if calls[|calls| - 1].Ask? && Allows(config, DequeAfter(config, init), calls[|calls| - 1].now)
        then [calls[|calls| - 1].now] else []
  }

  ghost predicate Monotone(calls: seq<Call>) {
    forall i, j :: 0 <= i < j < |calls| ==> calls[i].now <= calls[j].now
  }

  ghost predicate Ordered(times: seq<real>) {
    forall i, j :: 0 <= i < j < |times| ==> times[i] <= times[j]
  }

  /** The times in the window of the given length that ends at `end`, its start excluded. */
  function InWindow(times: seq<real>, window: real, end: real): seq<real> {
    if times == [] then []
    else (if end - window < times[0] <= end then [times[0]] else []) + InWindow(times[1..], window, end)
  }

  /** The deque is the sends from some point on; what it lacks is out of the window. */
  ghost predicate Holds(config: Config, deque: seq<real>, sends: seq<real>, now: real) {
    && Ordered(sends)
    && (forall i :: 0 <= i < |sends| ==> sends[i] <= now)
    && |deque| <= |sends| && deque == sends[|sends| - |deque|..]
    && (forall i :: 0 <= i < |sends| - |deque| ==> sends[i] <= now - config.window)
  }

  lemma {:induction false} EvictedIsWindow(config: Config, deque: seq<real>, sends: seq<real>, now: real, later: real)
    requires Holds(config, deque, sends, now) && now <= later
    ensures Holds(config, Evicted(deque, later - config.window), sends, later)
    ensures Evicted(deque, later - config.window) == InWindow(sends, config.window, later)
    decreases |deque|
  {
    if deque != [] && deque[0] <= later - config.window {
      assert deque[0] == sends[|sends| - |deque|];
      assert Holds(config, deque[1..], sends, later);
      EvictedIsWindow(config, deque[1..], sends, later, later);
    } else {
      SuffixIsWindow(sends, |sends| - |deque|, config.window, later);
    }
  }

  lemma {:induction false} SuffixIsWindow(times: seq<real>, k: nat, window: real, end: real)
    requires k <= |times| && Ordered(times)
    requires forall i :: 0 <= i < |times| ==> times[i] <= end
    requires forall i :: 0 <= i < k ==> times[i] <= end - window
    requires k < |times| ==> end - window < times[k]
    ensures InWindow(times, window, end) == times[k..]
  {
    if times != [] {
      if k == 0 {
        if |times| > 1 { assert times[0] <= times[1]; }
        SuffixIsWindow(times[1..], 0, window, end);
      } else {
        assert times[1..][k - 1..] == times[k..];
        SuffixIsWindow(times[1..], k - 1, window, end);
      }
    }
  }

  lemma {:induction false} DequeHolds(config: Config, calls: seq<Call>)
    requires Monotone(calls) && calls != []
    ensures Holds(config, DequeAfter(config, calls), Sends(config, calls), calls[|calls| - 1].now)
  {
    hide Evicted, InWindow, Holds, Allows;
    var init, call := calls[..|calls| - 1], calls[|calls| - 1];
    var deque, sends := DequeAfter(config, init), Sends(config, init);
    if init != [] {
      DequeHolds(config, init);
      assert init[|init| - 1].now <= call.now;
      EvictedIsWindow(config, deque, sends, init[|init| - 1].now, call.now);
    } else {
      NothingHeld(config, call.now);
      EvictedIsWindow(config, deque, sends, call.now, call.now);
    }
    var kept := Evicted(deque, call.now - config.window);
    if call.Ask? && Allows(config, deque, call.now) { HoldsMore(config, kept, sends, call.now); }
    assert kept + [] == kept && sends + [] == sends;
  }

  lemma HoldsMore(config: Config, deque: seq<real>, sends: seq<real>, now: real)
    requires Holds(config, deque, sends, now)
    ensures Holds(config, deque + [now], sends + [now], now)
  {
  }

  /** A send is let through exactly when the cap is positive and the window that ends now holds fewer sends than it. */
  lemma RefusedOnlyWhenFull(config: Config, calls: seq<Call>, now: real)
    requires Monotone(calls + [Ask(now)])
    ensures Allows(config, DequeAfter(config, calls), now)
      <==> config.perHour > 0 && |InWindow(Sends(config, calls), config.window, now)| < config.perHour
    ensures Evicted(DequeAfter(config, calls), now - config.window)
      == InWindow(Sends(config, calls), config.window, now)
  {
    hide Evicted, InWindow, Holds;
    var deque, sends := DequeAfter(config, calls), Sends(config, calls);
    if calls != [] {
      var all := calls + [Ask(now)];
      assert forall i :: 0 <= i < |calls| ==> calls[i] == all[i];
      assert all[|calls| - 1].now <= all[|calls|].now;
      DequeHolds(config, calls);
      EvictedIsWindow(config, deque, sends, calls[|calls| - 1].now, now);
    } else {
      assert Holds(config, [], [], now) by { NothingHeld(config, now); }
      EvictedIsWindow(config, [], [], now, now);
    }
  }

  lemma NothingHeld(config: Config, now: real)
    ensures Holds(config, [], [], now)
  {
  }

  /** With a positive window the deque is the part of the sends that lies in the window of the last call. */
  lemma DequeIsWindow(config: Config, calls: seq<Call>)
    requires Monotone(calls) && calls != [] && config.window > 0.0
    ensures DequeAfter(config, calls) == InWindow(Sends(config, calls), config.window, calls[|calls| - 1].now)
  {
    var now, deque, sends := calls[|calls| - 1].now, DequeAfter(config, calls), Sends(config, calls);
    DequeHolds(config, calls);
    assert deque != [] ==> deque[0] > now - config.window by { FirstInWindow(config, calls); }
    SuffixIsWindow(sends, |sends| - |deque|, config.window, now);
  }

  lemma FirstInWindow(config: Config, calls: seq<Call>)
    requires calls != [] && config.window > 0.0
    ensures var deque := DequeAfter(config, calls); deque != [] ==> deque[0] > calls[|calls| - 1].now - config.window
  {
    hide Allows;
    EvictedFirst(DequeAfter(config, calls[..|calls| - 1]), calls[|calls| - 1].now - config.window);
  }

  lemma {:induction false} EvictedFirst(events: seq<real>, horizon: real)
    ensures var rest := Evicted(events, horizon); rest != [] ==> rest[0] > horizon
  {
    if events != [] && events[0] <= horizon { EvictedFirst(events[1..], horizon); }
  }

  lemma {:induction false} FewerInWindow(times: seq<real>, window: real, end: real, later: real)
    requires end <= later && forall i :: 0 <= i < |times| ==> times[i] <= end
    ensures |InWindow(times, window, later)| <= |InWindow(times, window, end)|
  {
    if times != [] { FewerInWindow(times[1..], window, end, later); }
  }

  lemma {:induction false} InWindowMore(times: seq<real>, t: real, window: real, end: real)
    ensures InWindow(times + [t], window, end)
      == InWindow(times, window, end) + if end - window < t <= end then [t] else []
  {
    if times == [] {
      assert (times + [t])[1..] == [];
    } else {
      var rest := times[1..];
      InWindowMore(rest, t, window, end);
      assert (times + [t])[1..] == rest + [t];
      var first := if end - window < times[0] <= end then [times[0]] else [];
      var last := if end - window < t <= end then [t] else [];
      assert InWindow(times + [t], window, end) == first + (InWindow(rest, window, end) + last);
    }
  }

  /** No half-open window of the given length, wherever it ends, holds more sends than the cap. */
  lemma {:induction false} WindowBound(config: Config, calls: seq<Call>, end: real)
    requires Monotone(calls)
    ensures |InWindow(Sends(config, calls), config.window, end)| <= if config.perHour > 0 then config.perHour else 0
  {
    hide Evicted, InWindow, Holds, Allows;
    if calls == [] {
      assert InWindow([], config.window, end) == [] by { NoWindow(config.window, end); }
    } else {
      var init, call := calls[..|calls| - 1], calls[|calls| - 1];
      WindowBound(config, init, end);
      var sends := Sends(config, init);
      assert sends + [] == sends;
      if call.Ask? && Allows(config, DequeAfter(config, init), call.now) {
        assert init + [Ask(call.now)] == calls;
        RefusedOnlyWhenFull(config, init, call.now);
        InWindowMore(sends, call.now, config.window, end);
        if call.now <= end {
          SendsSoFar(config, calls);
          FewerInWindow(sends, config.window, call.now, end);
        }
      }
    }
  }

  lemma NoWindow(window: real, end: real)
    ensures InWindow([], window, end) == []
  {
  }

  lemma SendsSoFar(config: Config, calls: seq<Call>)
    requires Monotone(calls) && calls != []
    ensures var sends := Sends(config, calls[..|calls| - 1]);
      forall i :: 0 <= i < |sends| ==> sends[i] <= calls[|calls| - 1].now
  {
    var init := calls[..|calls| - 1];
    if init != [] {
      DequeHolds(config, init);
      assert init[|init| - 1].now <= calls[|calls| - 1].now;
    }
  }

  // Tenants that share the map.

  datatype TenantCall = TenantCall(tenant: string, now: real)

  function DequesAfter(config: Config, calls: seq<TenantCall>): map<string, seq<real>> {
    if calls == [] then map[]
    else
      var call := calls[|calls| - 1];
      TenantAsked(config, DequesAfter(config, calls[..|calls| - 1]), call.tenant, call.now)
  }

  /** The calls that one tenant makes, as its own limiter would see them. */
  function Own(tenant: string, calls: seq<TenantCall>): seq<Call> {
    if calls == [] then []
    else
      Own(tenant, calls[..|calls| - 1])
      + if calls[|calls| - 1].tenant == tenant then [Ask(calls[|calls| - 1].now)] else []
  }

  /** A tenant's deque is that of a limiter that only ever saw the tenant's own calls, so its decisions are too. */
  lemma {:induction false} TenantsAreSeparate(config: Config, calls: seq<TenantCall>, tenant: string, now: real)
    ensures DequeOf(DequesAfter(config, calls), tenant) == DequeAfter(config, Own(tenant, calls))
    ensures Allows(config, DequeOf(DequesAfter(config, calls), tenant), now)
      <==> Allows(config, DequeAfter(config, Own(tenant, calls)), now)
  {
    hide Asked, Allows;
    if calls != [] {
      var init, call := calls[..|calls| - 1], calls[|calls| - 1];
      TenantsAreSeparate(config, init, tenant, now);
      var own := Own(tenant, init);
      if call.tenant == tenant {
        assert (own + [Ask(call.now)])[..|own|] == own;
      } else {
        assert own + [] == own;
      }
    }
  }

  lemma {:induction false} OwnIsMonotone(tenant: string, calls: seq<TenantCall>)
    requires forall i, j :: 0 <= i < j < |calls| ==> calls[i].now <= calls[j].now
    ensures Monotone(Own(tenant, calls))
    ensures calls != [] ==> forall c | c in Own(tenant, calls) :: c.now <= calls[|calls| - 1].now
  {
    if calls != [] {
      var init := calls[..|calls| - 1];
      OwnIsMonotone(tenant, init);
      if init != [] { assert init[|init| - 1].now <= calls[|calls| - 1].now; }
    }
  }

  /** However the tenants' sends interleave, none gets more than its cap in any window. */
  lemma TenantWindowBound(config: Config, calls: seq<TenantCall>, tenant: string, end: real)
    requires forall i, j :: 0 <= i < j < |calls| ==> calls[i].now <= calls[j].now
    ensures |InWindow(TenantSends(config, calls, tenant), config.window, end)|
      <= if config.perHour > 0 then config.perHour else 0
  {
    hide Monotone, InWindow;
    OwnIsMonotone(tenant, calls);
    WindowBound(config, Own(tenant, calls), end);
    TenantSendsAreOwn(config, calls, tenant);
  }

  /** The sends of a tenant that were let through in the interleaved run. */
  function TenantSends(config: Config, calls: seq<TenantCall>, tenant: string): seq<real> {
    if calls == [] then []
    else
      var init, call := calls[..|calls| - 1], calls[|calls| - 1];
      TenantSends(config, init, tenant)
      + if call.tenant == tenant && Allows(config, DequeOf(DequesAfter(config, init), tenant), call.now) then [call.now]
        else []
  }

  lemma {:induction false} TenantSendsAreOwn(config: Config, calls: seq<TenantCall>, tenant: string)
    ensures TenantSends(config, calls, tenant) == Sends(config, Own(tenant, calls))
  {
    hide Allows, DequesAfter, DequeAfter;
    if calls != [] {
      var init, call := calls[..|calls| - 1], calls[|calls| - 1];
      TenantSendsAreOwn(config, init, tenant);
      TenantsAreSeparate(config, init, tenant, call.now);
      var own := Own(tenant, init);
      if call.tenant == tenant {
        assert (own + [Ask(call.now)])[..|own|] == own;
      } else {
        assert own + [] == own;
      }
    }
  }
}

/**
 * `lib/server/rateLimiter.ts`: an in-memory sliding-window limiter.  The store
 * maps a key (`action:<userId>`, `auth:<ip>`) to the times, in milliseconds,
 * of the requests it let through.  The clock is the parameter `now`; both
 * `Date.now()` readings of one check see the same instant.
 */
module RateLimiter {
  import opened Common
  import opened JsValues
  import AppErrors

  type Store = map<string, seq<int>>

  /** `RateLimitConfig` and `DEFAULT_CONFIG`: 60 requests per 60 seconds. */
  datatype Config = Config(limit: int, windowMs: int)

  const DefaultConfig := Config(60, 60_000)

  /** Five minutes between two clean-ups. */
  const CleanupIntervalMs := 5 * 60 * 1000

  /** `Partial<RateLimitConfig>`: a field left out takes the default. */
  datatype PartialConfig = PartialConfig(limit: Option<int>, windowMs: Option<int>)

  const NoOverrides := PartialConfig(None, None)

  /** `{ ...DEFAULT_CONFIG, ...config }`. */
  function Merge(base: Config, config: PartialConfig): Config {
    Config(
      if config.limit.Some? then config.limit.value else base.limit,
      if config.windowMs.Some? then config.windowMs.value else base.windowMs)
  }

  /** Each field given overrides the default's, each one left out keeps it. */
  lemma MergeFieldwise(config: PartialConfig)
    ensures Merge(DefaultConfig, NoOverrides) == Config(60, 60_000)
    ensures Merge(DefaultConfig, config).limit == 60 <==> config.limit.None? || config.limit.value == 60
    ensures config.windowMs.Some? ==> Merge(DefaultConfig, config).windowMs == config.windowMs.value
    ensures config.windowMs.None? ==> Merge(DefaultConfig, config).windowMs == 60_000
    ensures Merge(Merge(DefaultConfig, config), config) == Merge(DefaultConfig, config)
  {
  }

  /** `timestamps.filter((t) => t > since)`. */
  function InWindow(timestamps: seq<int>, since: int): seq<int> {
    Filter(timestamps, t => t > since)
  }

  /** The window keeps exactly the later timestamps, in order, and no more. */
  lemma InWindowMembers(timestamps: seq<int>, since: int)
    ensures forall t :: t in InWindow(timestamps, since) <==> t in timestamps && t > since
    ensures |InWindow(timestamps, since)| <= |timestamps|
  {
    forall t ensures t in InWindow(timestamps, since) <==> t in timestamps && t > since {
      FilterMember(timestamps, u => u > since, t);
    }
    FilterMember(timestamps, u => u > since, since);
  }

  /** Pruning twice with the same bound prunes nothing more. */
  lemma InWindowIdempotent(timestamps: seq<int>, since: int)
    ensures InWindow(InWindow(timestamps, since), since) == InWindow(timestamps, since)
  {
    var w := InWindow(timestamps, since);
    InWindowMembers(timestamps, since);
    assert forall k :: 0 <= k < |w| ==> w[k] in w;
    FilterAll(w, t => t > since);
  }

  /** The store after a clean-up with the given cutoff: keys left with no
    * timestamp after it are dropped, the others are pruned. */
  function Cleaned(store: Store, cutoff: int): Store {
    map key | key in store && InWindow(store[key], cutoff) != [] :: InWindow(store[key], cutoff)
  }

  /** A clean-up keeps a key iff it has a recent request, and keeps every
    * recent request of it. */
  lemma CleanedSpec(store: Store, cutoff: int, key: string)
    ensures key in Cleaned(store, cutoff) <==> key in store && exists t :: t in store[key] && t > cutoff
    ensures key in Cleaned(store, cutoff) ==>
      forall t :: t in Cleaned(store, cutoff)[key] <==> t in store[key] && t > cutoff
  {
    if key in store {
      InWindowMembers(store[key], cutoff);
      if InWindow(store[key], cutoff) != [] {
        var t0 := InWindow(store[key], cutoff)[0];
        assert t0 in InWindow(store[key], cutoff);
        assert t0 in store[key] && t0 > cutoff;
      }
    }
  }

  /** `store.get(key) || []`. */
  function Stored(store: Store, key: string): seq<int> {
    if key in store then store[key] else []
  }

  class Limiter {
    var store: Store
    var lastCleanup: int

    /** The module's state when it is loaded at time `now`. */
    constructor(now: int)
      ensures store == map[] && lastCleanup == now
    {
      store := map[];
      lastCleanup := now;
    }

    /** `cleanupIfNeeded`: does nothing within five minutes of the last
      * clean-up; otherwise records `now` and prunes every key to the last
      * default window. */
    method CleanupIfNeeded(now: int)
      modifies this
      ensures now - old(lastCleanup) < CleanupIntervalMs ==>
        store == old(store) && lastCleanup == old(lastCleanup)
      ensures now - old(lastCleanup) >= CleanupIntervalMs ==>
        store == Cleaned(old(store), now - DefaultConfig.windowMs) && lastCleanup == now
    {
      if now - lastCleanup < CleanupIntervalMs {
        return;
      }
      lastCleanup := now;
      var cutoff := now - DefaultConfig.windowMs;
      ghost var store0 := store;
      var pending := store.Keys;
      while pending != {}
        invariant pending <= store0.Keys
        invariant lastCleanup == now
        invariant forall key :: key in store <==>
          key in store0 && (key in pending || InWindow(store0[key], cutoff) != [])
        invariant forall key :: key in store ==>
          store[key] == if key in pending then store0[key] else InWindow(store0[key], cutoff)
        decreases |pending|
      {
        var key :| key in pending;
        var valid := InWindow(store[key], cutoff);
        if |valid| == 0 {
          store := store - {key};
        } else {
          store := store[key := valid];
        }
        pending := pending - {key};
      }
      assert store.Keys == Cleaned(store0, cutoff).Keys;
    }

    /** `checkRateLimit(key, config)`: after the clean-up, rejects the request
      * with the error built from the undeclared rate-limit code iff the key already has `limit` requests in
      * the window, leaving the store as the clean-up left it; otherwise
      * stores the in-window requests followed by `now`. */
    method CheckRateLimit(key: string, config: PartialConfig, now: int) returns (r: Result<(), JsValue>)
      modifies this
      ensures var last := if now - old(lastCleanup) < CleanupIntervalMs then old(lastCleanup) else now;
        lastCleanup == last
      ensures var cleaned := if now - old(lastCleanup) < CleanupIntervalMs then old(store)
          else Cleaned(old(store), now - DefaultConfig.windowMs);
        var c := Merge(DefaultConfig, config);
        var window := InWindow(Stored(cleaned, key), now - c.windowMs);
        (r.Err? <==> |window| >= c.limit)
        && (r.Err? ==> r.error == AppErrors.RateLimitErrorThrown() && store == cleaned)
        && (r.Ok? ==> store == cleaned[key := window + [now]])
    {
      CleanupIfNeeded(now);
      var c := Merge(DefaultConfig, config);
      var windowStart := now - c.windowMs;
      var timestamps := Stored(store, key);
      var windowTimestamps := InWindow(timestamps, windowStart);
      if |windowTimestamps| >= c.limit {
        return Err(AppErrors.RateLimitErrorThrown());
      }
      store := store[key := windowTimestamps + [now]];
      return Ok(());
    }
  }

  /** What an accepted check leaves: no more than `limit` requests stored for the
    * key, all within the window and ending with `now`, and every other key as
    * it was. */
  lemma AcceptedWithinLimit(before: Store, key: string, c: Config, now: int)
    requires |InWindow(Stored(before, key), now - c.windowMs)| < c.limit
    ensures var after := before[key := InWindow(Stored(before, key), now - c.windowMs) + [now]];
      |after[key]| <= c.limit
      && after[key][|after[key]| - 1] == now
      && (forall k :: 0 <= k < |after[key]| - 1 ==> after[key][k] > now - c.windowMs)
      && (forall other :: other != key ==> Stored(after, other) == Stored(before, other))
  {
    var w := InWindow(Stored(before, key), now - c.windowMs);
    InWindowMembers(Stored(before, key), now - c.windowMs);
    assert forall k :: 0 <= k < |w| ==> w[k] in w;
  }

  /** Requests still inside the window are never pruned, so the next check of
    * a burst sees every earlier accepted request plus the latest one. */
  lemma BurstKeepsAll(stored: seq<int>, now: int, c: Config)
    requires forall t :: t in stored ==> now - c.windowMs < t
    requires now - c.windowMs < now
    ensures InWindow(stored + [now], now - c.windowMs) == stored + [now]
  {
    var s := stored + [now];
    assert forall k :: 0 <= k < |s| ==> s[k] in s;
    FilterAll(s, t => t > now - c.windowMs);
  }

  /** A check never touches another key beyond what the clean-up does. */
  lemma OtherKeysUntouched(cleaned: Store, key: string, window: seq<int>, now: int, other: string)
    requires other != key
    ensures Stored(cleaned[key := window + [now]], other) == Stored(cleaned, other)
  {
  }
}

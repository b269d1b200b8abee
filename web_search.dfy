/**
 * The web-search service: a TTL cache, a token-bucket rate limiter, the
 * DuckDuckGo HTML search client and its tag stripper
 * (backend/app/services/web_search.py).
 *
 * The wall clock is a `now` parameter (seconds, as `real`); the upstream
 * HTTP response is an input; the SHA-256 cache key is replaced by the raw
 * string that was hashed.
 */
module WebSearch {
  import opened Wrappers
  import opened Strings

  datatype SearchResult = SearchResult(title: string, url: string, snippet: Option<string>)

  /** The ValueError raised by a constructor given bad parameters. */
  datatype ConfigError = ConfigError(message: string)

  /** What the upstream HTTP exchange produced: a 2xx body, or the transport or status error raised. */
  datatype HttpOutcome = Page(body: string) | HttpFailure(reason: string)

  // ===========================================================================
  // SimpleTTLCache

  /** One dict item: key -> (expires_at, value). */
  datatype Slot<V> = Slot(key: string, expiresAt: real, value: V)

  predicate DistinctKeys<V>(entries: seq<Slot<V>>) {
    forall i, j :: 0 <= i < j < |entries| ==> entries[i].key != entries[j].key
  }

  function IndexOfKey<V>(entries: seq<Slot<V>>, key: string): (r: Option<nat>)
    ensures r.Some? ==> r.value < |entries| && entries[r.value].key == key
    ensures r.None? <==> forall i :: 0 <= i < |entries| ==> entries[i].key != key
  {
    if entries == [] then None
    else if entries[0].key == key then Some(0)
    else match IndexOfKey(entries[1..], key)
      case None => None
      case Some(i) => Some(i + 1)
  }

  lemma IndexOfKeyUnique<V>(entries: seq<Slot<V>>, key: string, i: nat)
    requires DistinctKeys(entries) && i < |entries| && entries[i].key == key
    ensures IndexOfKey(entries, key) == Some(i)
  {
  }

  /** What `get` returns and the table afterwards. */
  datatype Lookup<V> = Lookup(value: Option<V>, entries: seq<Slot<V>>)

  /** SimpleTTLCache.get: an entry whose expiry time has been reached is dropped and reported absent. */
  function CacheLookup<V>(entries: seq<Slot<V>>, key: string, now: real): Lookup<V> {
    match IndexOfKey(entries, key)
    case None => Lookup(None, entries)
    case Some(i) =>
      if now >= entries[i].expiresAt then Lookup(None, entries[..i] + entries[i + 1..])
      else Lookup(Some(entries[i].value), entries)
  }

  /**
   * SimpleTTLCache.set: when the table is full the first key in insertion
   * order is dropped (even when `key` is already present), then `key` is
   * bound to (now + ttl, value), keeping its position if it survived.
   */
  function CacheStore<V>(entries: seq<Slot<V>>, maxItems: int, ttl: int, key: string, value: V, now: real): seq<Slot<V>>
    requires maxItems > 0
  {
    var kept := if |entries| >= maxItems then entries[1..] else entries;
    var slot := Slot(key, now + ttl as real, value);
    match IndexOfKey(kept, key)
    case Some(i) => kept[i := slot]
    case None => kept + [slot]
  }

  /** `set` keeps the keys distinct, full table or not. */
  lemma StoreDistinct<V>(entries: seq<Slot<V>>, maxItems: int, ttl: int, key: string, value: V, now: real)
    requires maxItems > 0 && DistinctKeys(entries)
    ensures DistinctKeys(CacheStore(entries, maxItems, ttl, key, value, now))
  {
    var kept := if |entries| >= maxItems then entries[1..] else entries;
    assert DistinctKeys(kept);
    var slot := Slot(key, now + ttl as real, value);
    match IndexOfKey(kept, key)
    case Some(i) =>
      assert DistinctKeys(kept[i := slot]);
    case None =>
      assert DistinctKeys(kept + [slot]);
  }

  /** `set` keeps the keys distinct and the table within max_items. */
  lemma CacheStoreBounded<V>(entries: seq<Slot<V>>, maxItems: int, ttl: int, key: string, value: V, now: real)
    requires maxItems > 0 && |entries| <= maxItems && DistinctKeys(entries)
    ensures var e := CacheStore(entries, maxItems, ttl, key, value, now);
      |e| <= maxItems && DistinctKeys(e)
  {
    StoreDistinct(entries, maxItems, ttl, key, value, now);
  }

  /** A stored value is read back unchanged, without touching the table, until its TTL runs out. */
  lemma {:induction false} CacheStoreThenLookup<V>(entries: seq<Slot<V>>, maxItems: int, ttl: int, key: string, value: V, now: real, later: real)
    requires maxItems > 0 && DistinctKeys(entries)
    requires later < now + ttl as real
    ensures var e := CacheStore(entries, maxItems, ttl, key, value, now);
      CacheLookup(e, key, later) == Lookup(Some(value), e)
  {
    var kept := if |entries| >= maxItems then entries[1..] else entries;
    assert DistinctKeys(kept);
    var e := CacheStore(entries, maxItems, ttl, key, value, now);
    match IndexOfKey(kept, key)
    case Some(i) =>
      assert DistinctKeys(e);
      IndexOfKeyUnique(e, key, i);
    case None =>
      assert DistinctKeys(e);
      IndexOfKeyUnique(e, key, |kept|);
  }

  /**
   * Once the table is full, `set` evicts the first key in insertion order
   * even when the key being set is already present.
   */
  lemma CacheStoreEvictsFirst<V>(entries: seq<Slot<V>>, maxItems: int, ttl: int, key: string, value: V, now: real)
    requires maxItems > 0 && |entries| >= maxItems && DistinctKeys(entries)
    requires entries[0].key != key
    ensures IndexOfKey(CacheStore(entries, maxItems, ttl, key, value, now), entries[0].key).None?
  {
    var kept := entries[1..];
    assert forall i :: 0 <= i < |kept| ==> kept[i].key != entries[0].key by {
      forall i | 0 <= i < |kept| ensures kept[i].key != entries[0].key {
        assert kept[i] == entries[i + 1];
      }
    }
  }

  /** `set` keeps every other key's entry, except the first entry, which a full table evicts. */
  lemma StoreKeepsSlots<V>(entries: seq<Slot<V>>, maxItems: int, ttl: int, key: string, value: V, now: real, s: Slot<V>)
    requires maxItems > 0 && DistinctKeys(entries) && s.key != key
    ensures s in CacheStore(entries, maxItems, ttl, key, value, now)
      <==> s in entries && !(|entries| >= maxItems && s == entries[0])
  {
  }

  /** Two tables holding the same entry for a key, or none, answer `get` of that key alike. */
  lemma LookupBySlot<V>(a: seq<Slot<V>>, b: seq<Slot<V>>, key: string, now: real)
    ensures && IndexOfKey(a, key).Some? == IndexOfKey(b, key).Some?
            && (IndexOfKey(a, key).Some? ==> a[IndexOfKey(a, key).value] == b[IndexOfKey(b, key).value])
        ==> CacheLookup(a, key, now).value == CacheLookup(b, key, now).value
  {
  }

  /**
   * `set` does not disturb other keys: a later `get` of another key answers
   * as it would have before, unless that key was the first one and a full
   * table evicted it.
   */
  lemma CacheStoreKeepsOthers<V>(entries: seq<Slot<V>>, maxItems: int, ttl: int, key: string, value: V, now: real, other: string, later: real)
    requires maxItems > 0 && DistinctKeys(entries) && other != key
    ensures CacheLookup(CacheStore(entries, maxItems, ttl, key, value, now), other, later).value
      == if |entries| >= maxItems && entries[0].key == other then None else CacheLookup(entries, other, later).value
  {
    var e := CacheStore(entries, maxItems, ttl, key, value, now);
    StoreDistinct(entries, maxItems, ttl, key, value, now);
    var before, after := IndexOfKey(entries, other), IndexOfKey(e, other);
    var evicted := |entries| >= maxItems && entries[0].key == other;
    if after.Some? && (before.None? || evicted) {
      StoreKeepsSlots(entries, maxItems, ttl, key, value, now, e[after.value]);
      assert false;
    }
    if before.Some? && !evicted {
      var i := before.value;
      StoreKeepsSlots(entries, maxItems, ttl, key, value, now, entries[i]);
      var j :| 0 <= j < |e| && e[j] == entries[i];
      IndexOfKeyUnique(e, other, j);
    }
    LookupBySlot(e, entries, other, later);
  }

  /** Reading an expired entry removes it: afterwards the key is absent and one entry fewer remains. */
  lemma CacheLookupExpired<V>(entries: seq<Slot<V>>, key: string, now: real, i: nat)
    requires DistinctKeys(entries) && i < |entries| && entries[i].key == key
    requires now >= entries[i].expiresAt
    ensures var l := CacheLookup(entries, key, now);
      l.value.None? && |l.entries| == |entries| - 1 && IndexOfKey(l.entries, key).None? && DistinctKeys(l.entries)
  {
    IndexOfKeyUnique(entries, key, i);
    var rest := entries[..i] + entries[i + 1..];
    forall j | 0 <= j < |rest| ensures rest[j].key != key {
      if j < i { assert rest[j] == entries[j]; } else { assert rest[j] == entries[j + 1]; }
    }
    forall a, b | 0 <= a < b < |rest| ensures rest[a].key != rest[b].key {
      var a', b' := if a < i then a else a + 1, if b < i then b else b + 1;
      assert rest[a] == entries[a'] && rest[b] == entries[b'];
    }
  }

  /** A lookup never adds entries and keeps the keys distinct. */
  lemma CacheLookupShrinks<V>(entries: seq<Slot<V>>, key: string, now: real)
    requires DistinctKeys(entries)
    ensures var l := CacheLookup(entries, key, now);
      |l.entries| <= |entries| && DistinctKeys(l.entries)
      && (l.value.Some? ==> l.entries == entries)
  {
    match IndexOfKey(entries, key)
    case None =>
    case Some(i) =>
      if now >= entries[i].expiresAt {
        CacheLookupExpired(entries, key, now, i);
      }
  }

  /** The constructor's parameter checks, in the order the source makes them. */
  function CacheConfigError(ttlSeconds: int, maxItems: int): (r: Option<ConfigError>)
    ensures r.None? <==> ttlSeconds > 0 && maxItems > 0
    ensures ttlSeconds <= 0 ==> r == Some(ConfigError("ttl_seconds must be > 0"))
    ensures ttlSeconds > 0 && maxItems <= 0 ==> r == Some(ConfigError("max_items must be > 0"))
  {
    if ttlSeconds <= 0 then Some(ConfigError("ttl_seconds must be > 0"))
    else if maxItems <= 0 then Some(ConfigError("max_items must be > 0"))
    else None
  }

  /** SimpleTTLCache: a bounded table with lazy expiry, in dict insertion order. */
  class TtlCache<V> {
    const ttlSeconds: int
    const maxItems: int
    var entries: seq<Slot<V>>

    ghost predicate Valid()
      reads this
    {
      ttlSeconds > 0 && maxItems > 0 && |entries| <= maxItems && DistinctKeys(entries)
    }

    constructor (ttlSeconds: int, maxItems: int)
      requires CacheConfigError(ttlSeconds, maxItems).None?
      ensures Valid() && this.ttlSeconds == ttlSeconds && this.maxItems == maxItems && entries == []
    {
      this.ttlSeconds := ttlSeconds;
      this.maxItems := maxItems;
      entries := [];
    }

    /** SimpleTTLCache(ttl_seconds, max_items): raises ValueError for a non-positive parameter. */
    static method Create(ttlSeconds: int, maxItems: int) returns (r: Result<TtlCache<V>, ConfigError>)
      ensures r.Failure? <==> ttlSeconds <= 0 || maxItems <= 0
      ensures r.Failure? ==> Some(r.error) == CacheConfigError(ttlSeconds, maxItems)
      ensures r.Success? ==> fresh(r.value) && r.value.Valid() && r.value.entries == []
                             && r.value.ttlSeconds == ttlSeconds && r.value.maxItems == maxItems
    {
      var err := CacheConfigError(ttlSeconds, maxItems);
      if err.Some? {
        return Failure(err.value);
      }
      var c := new TtlCache<V>(ttlSeconds, maxItems);
      return Success(c);
    }

    method Get(key: string, now: real) returns (r: Option<V>)
      requires Valid()
      modifies this
      ensures Valid()
      ensures var l := CacheLookup(old(entries), key, now); r == l.value && entries == l.entries
    {
      CacheLookupShrinks(entries, key, now);
      var i := IndexOfKey(entries, key);
      if i.None? {
        return None;
      }
      var slot := entries[i.value];
      if now >= slot.expiresAt {
        entries := entries[..i.value] + entries[i.value + 1..];
        return None;
      }
      return Some(slot.value);
    }

    method Set(key: string, value: V, now: real)
      requires Valid()
      modifies this
      ensures Valid()
      ensures entries == CacheStore(old(entries), maxItems, ttlSeconds, key, value, now)
    {
      CacheStoreBounded(entries, maxItems, ttlSeconds, key, value, now);
      if |entries| >= maxItems {
        entries := entries[1..];
      }
      var slot := Slot(key, now + ttlSeconds as real, value);
      var i := IndexOfKey(entries, key);
      if i.Some? {
        entries := entries[i.value := slot];
      } else {
        entries := entries + [slot];
      }
    }
  }

  // ===========================================================================
  // TokenBucketRateLimiter

  /** The limiter's state: capacity (= rate per minute), token count and last refill time. */
  datatype Bucket = Bucket(capacity: int, tokens: real, last: real)

  function RefillRate(capacity: int): real {
    capacity as real / 60.0
  }

  /** _refill: add elapsed * capacity / 60 tokens, cap at capacity, and move `last` to now. */
  function Refill(b: Bucket, now: real): (r: Bucket)
    ensures r.capacity == b.capacity && r.last == now
    ensures r.tokens <= b.capacity as real
  {
    var t := b.tokens + (now - b.last) * RefillRate(b.capacity);
    b.(tokens := if b.capacity as real <= t then b.capacity as real else t, last := now)
  }

  /** allow: refill, then take one token if at least one is there. */
  function Allow(b: Bucket, now: real): (bool, Bucket) {
    var r := Refill(b, now);
    if r.tokens >= 1.0 then (true, r.(tokens := r.tokens - 1.0)) else (false, r)
  }

  /** With time not running backwards, the token count stays within [0, capacity]. */
  lemma AllowKeepsTokensInRange(b: Bucket, now: real)
    requires b.capacity > 0 && 0.0 <= b.tokens <= b.capacity as real && now >= b.last
    ensures var (ok, b') := Allow(b, now);
      0.0 <= b'.tokens <= b'.capacity as real
      && b'.capacity == b.capacity && b'.last == now
      && (ok <==> Refill(b, now).tokens >= 1.0)
      && b'.tokens == (if ok then Refill(b, now).tokens - 1.0 else Refill(b, now).tokens)
  {
    assert (now - b.last) * RefillRate(b.capacity) >= 0.0;
  }

  /** A limiter that was exhausted grants again once 60 / rate_per_minute seconds have passed. */
  lemma RefillAfterOneInterval(b: Bucket)
    requires b.capacity > 0 && 0.0 <= b.tokens
    ensures Allow(b, b.last + 60.0 / b.capacity as real).0
  {
    var c := b.capacity as real;
    assert (60.0 / c) * (c / 60.0) == 1.0;
  }

  /** k calls of allow() at one instant. */
  function Burst(b: Bucket, now: real, k: nat): (grants: seq<bool>)
    ensures |grants| == k
    decreases k
  {
    if k == 0 then []
    else
      var (ok, b') := Allow(b, now);
      [ok] + Burst(b', now, k - 1)
  }

  /**
   * Conservation: with n whole tokens and no time elapsing, exactly the
   * first n of any burst of calls are granted.
   */
  lemma {:induction false} BurstGrantsExactly(capacity: int, n: nat, now: real, k: nat)
    requires n <= capacity
    ensures var grants := Burst(Bucket(capacity, n as real, now), now, k);
      forall i :: 0 <= i < k ==> (grants[i] <==> i < n)
  {
    if k > 0 {
      var b := Bucket(capacity, n as real, now);
      var grants := Burst(b, now, k);
      assert Refill(b, now) == b;
      var m: nat := if n >= 1 then n - 1 else n;
      var b' := Bucket(capacity, m as real, now);
      assert Allow(b, now) == (n >= 1, b');
      BurstGrantsExactly(capacity, m, now, k - 1);
      assert var g := Burst(Bucket(capacity, m as real, now), now, k - 1);
        forall j :: 0 <= j < k - 1 ==> (g[j] <==> j < m);
      var rest := Burst(b', now, k - 1);
      assert grants == [n >= 1] + rest;
      forall i | 0 <= i < k ensures grants[i] <==> i < n {
        if i > 0 {
          assert grants[i] == rest[i - 1];
        } else {
          assert grants[0] == (n >= 1);
        }
      }
    }
  }

  /** A fresh limiter at rate_per_minute calls grants exactly rate_per_minute immediate calls. */
  lemma FreshLimiterBurst(ratePerMinute: nat, now: real)
    ensures var grants := Burst(Bucket(ratePerMinute, ratePerMinute as real, now), now, ratePerMinute + 1);
      (forall i :: 0 <= i < ratePerMinute ==> grants[i]) && !grants[ratePerMinute]
  {
    BurstGrantsExactly(ratePerMinute, ratePerMinute, now, ratePerMinute + 1);
  }

  /** _sleep_for_token: the poll delay max(0.05, min(1.0, 1 / refill_rate_per_sec)). */
  function SleepDelay(refillRatePerSec: real): (d: real)
    requires refillRatePerSec > 0.0
    ensures 0.05 <= d <= 1.0
  {
    var x := 1.0 / refillRatePerSec;
    var m := if 1.0 <= x then 1.0 else x;
    if 0.05 >= m then 0.05 else m
  }

  /** Each poll of `acquire` waits long enough to refill at least 1/60 of a token. */
  lemma SleepRefillsSomething(capacity: int)
    requires capacity > 0
    ensures SleepDelay(RefillRate(capacity)) * RefillRate(capacity) >= 1.0 / 60.0
  {
    var rate := RefillRate(capacity);
    var x := 1.0 / rate;
    assert x * rate == 1.0;
    if x < 0.05 {
      assert rate > 20.0;
    }
  }

  /** A bound on the polls `acquire` still needs: how far the refilled count is below one token. */
  function PollsLeft(b: Bucket, now: real): nat {
    var t := Refill(b, now).tokens;
    if t >= 1.0 then 0 else ((1.0 - t) * 60.0).Floor + 1
  }

  /**
   * acquire, polled at now, now + d, now + 2d, ...: the state after the
   * grant, the time of the grant and the number of sleeps before it.
   */
  function AcquireFrom(b: Bucket, now: real): (r: (Bucket, real, nat))
    requires b.capacity > 0
    ensures r.0.capacity == b.capacity && r.0.last == r.1
    ensures r.1 == now + r.2 as real * SleepDelay(RefillRate(b.capacity))
    ensures r.1 >= now && r.0.tokens >= 0.0
    decreases PollsLeft(b, now)
  {
    var (ok, b1) := Allow(b, now);
    if ok then (b1, now, 0)
    else
      var d := SleepDelay(RefillRate(b.capacity));
      SleepRefillsSomething(b.capacity);
      assert PollsLeft(b1, now + d) < PollsLeft(b, now);
      var r := AcquireFrom(b1, now + d);
      (r.0, r.1, r.2 + 1)
  }

  /** One poll of `acquire`: grant now, or sleep and poll again with strictly fewer polls left. */
  lemma AcquireStep(b: Bucket, now: real)
    requires b.capacity > 0
    ensures var (ok, b1) := Allow(b, now);
      var d := SleepDelay(RefillRate(b.capacity));
      (ok ==> AcquireFrom(b, now) == (b1, now, 0))
      && (!ok ==> PollsLeft(b1, now + d) < PollsLeft(b, now)
                  && var r := AcquireFrom(b1, now + d); AcquireFrom(b, now) == (r.0, r.1, r.2 + 1))
  {
    var (ok, b1) := Allow(b, now);
    if !ok {
      SleepRefillsSomething(b.capacity);
    }
  }

  /** The limiter's parameter check. */
  function LimiterConfigError(ratePerMinute: int): (r: Option<ConfigError>)
    ensures r.None? <==> ratePerMinute > 0
  {
    if ratePerMinute <= 0 then Some(ConfigError("rate_per_minute must be > 0")) else None
  }

  /** TokenBucketRateLimiter. */
  class RateLimiter {
    const capacity: int
    const refillRatePerSec: real
    var tokens: real
    var last: real

    ghost predicate Valid()
      reads this
    {
      capacity > 0 && refillRatePerSec == RefillRate(capacity) && tokens <= capacity as real
    }

    function State(): Bucket
      reads this
    {
      Bucket(capacity, tokens, last)
    }

    constructor (ratePerMinute: int, now: real)
      requires LimiterConfigError(ratePerMinute).None?
      ensures Valid() && State() == Bucket(ratePerMinute, ratePerMinute as real, now)
    {
      capacity := ratePerMinute;
      tokens := ratePerMinute as real;
      refillRatePerSec := RefillRate(ratePerMinute);
      last := now;
    }

    /** TokenBucketRateLimiter(rate_per_minute): raises ValueError unless the rate is positive; starts full. */
    static method Create(ratePerMinute: int, now: real) returns (r: Result<RateLimiter, ConfigError>)
      ensures r.Failure? <==> ratePerMinute <= 0
      ensures r.Failure? ==> r.error == ConfigError("rate_per_minute must be > 0")
      ensures r.Success? ==> fresh(r.value) && r.value.Valid()
                             && r.value.State() == Bucket(ratePerMinute, ratePerMinute as real, now)
    {
      var err := LimiterConfigError(ratePerMinute);
      if err.Some? {
        return Failure(err.value);
      }
      var l := new RateLimiter(ratePerMinute, now);
      return Success(l);
    }

    method RefillAt(now: real)
      requires Valid()
      modifies this
      ensures Valid() && State() == Refill(old(State()), now)
    {
      var elapsed := now - last;
      last := now;
      var t := tokens + elapsed * refillRatePerSec;
      tokens := if capacity as real <= t then capacity as real else t;
    }

    method AllowAt(now: real) returns (ok: bool)
      requires Valid()
      modifies this
      ensures Valid() && (ok, State()) == Allow(old(State()), now)
    {
      RefillAt(now);
      if tokens >= 1.0 {
        tokens := tokens - 1.0;
        return true;
      }
      return false;
    }

    /** acquire: poll allow(), sleeping SleepDelay between polls, until a token is granted. */
    method Acquire(now: real) returns (grantedAt: real, polls: nat)
      requires Valid()
      modifies this
      ensures Valid()
      ensures var r := AcquireFrom(old(State()), now); State() == r.0 && grantedAt == r.1 && polls == r.2
    {
      var t := now;
      polls := 0;
      while true
        invariant Valid()
        invariant var r0, r := AcquireFrom(old(State()), now), AcquireFrom(State(), t);
          r0 == (r.0, r.1, r.2 + polls)
        decreases PollsLeft(State(), t)
      {
        ghost var before := State();
        AcquireStep(before, t);
        var ok := AllowAt(t);
        if ok {
          return t, polls;
        }
        t := t + SleepDelay(refillRatePerSec);
        polls := polls + 1;
      }
    }
  }

  // ===========================================================================
  // _strip_tags

  /** The characters the in_tag scan keeps: none from a '<' through the next '>', and neither bracket. */
  function RemoveTags(s: string, inTag: bool): (r: string)
    ensures |r| <= |s|
    ensures forall i :: 0 <= i < |r| ==> r[i] != '<' && r[i] != '>'
  {
    if s == [] then []
    else if s[0] == '<' then RemoveTags(s[1..], true)
    else if s[0] == '>' then RemoveTags(s[1..], false)
    else (if inTag then [] else [s[0]]) + RemoveTags(s[1..], inTag)
  }

  predicate NoBrackets(s: string) {
    forall i :: 0 <= i < |s| ==> s[i] != '<' && s[i] != '>'
  }

  /** Text outside tags is kept in order; a tag is dropped together with its brackets. */
  lemma {:induction false} RemoveTagsDropsTag(a: string, b: string, c: string)
    requires NoBrackets(a)
    requires forall i :: 0 <= i < |b| ==> b[i] != '>'
    ensures RemoveTags(a + "<" + b + ">" + c, false) == a + RemoveTags(c, false)
  {
    var s := a + "<" + b + ">" + c;
    if a == [] {
      InsideTag(b, c);
      assert s == ['<'] + (b + ">" + c);
      assert s[1..] == b + ">" + c;
    } else {
      RemoveTagsDropsTag(a[1..], b, c);
      assert s[0] == a[0];
      assert s[1..] == a[1..] + "<" + b + ">" + c;
      assert a == [a[0]] + a[1..];
    }
  }

  lemma {:induction false} InsideTag(b: string, c: string)
    requires forall i :: 0 <= i < |b| ==> b[i] != '>'
    ensures RemoveTags(b + ">" + c, true) == RemoveTags(c, false)
  {
    var s := b + ">" + c;
    if b == [] {
      assert s == ['>'] + c;
      assert s[1..] == c;
    } else {
      InsideTag(b[1..], c);
      assert s[0] == b[0];
      assert s[1..] == b[1..] + ">" + c;
    }
  }

  lemma {:induction false} RemoveTagsPlain(s: string)
    requires NoBrackets(s)
    ensures RemoveTags(s, false) == s
  {
    if s != [] {
      RemoveTagsPlain(s[1..]);
    }
  }

  /** _strip_tags: the in_tag scan, then the five entity replacements. */
  method StripTags(text: string) returns (r: string)
    ensures r == UnescapeEntities(RemoveTags(text, false))
  {
    var out: string := [];
    var inTag := false;
    assert text[0..] == text;
    for i := 0 to |text|
      invariant out + RemoveTags(text[i..], inTag) == RemoveTags(text, false)
    {
      var ch := text[i];
      assert text[i..][1..] == text[i + 1..];
      if ch == '<' {
        inTag := true;
        continue;
      }
      if ch == '>' {
        inTag := false;
        continue;
      }
      if !inTag {
        out := out + [ch];
      }
    }
    assert text[|text|..] == [];
    assert out + [] == out;
    r := UnescapeEntities(out);
  }

  /** `&amp;` is replaced first, so an escaped entity is unescaped twice. */
  lemma DoubleUnescape()
    ensures UnescapeEntities("&amp;lt;") == "<"
  {
    assert ReplaceAll("&amp;lt;", "&amp;", "&") == "&lt;" by {
      assert "&amp;lt;"[..5] == "&amp;";
      assert "&amp;lt;"[5..] == "lt;";
    }
    assert ReplaceAll("&lt;", "&quot;", "\"") == "&lt;";
    assert ReplaceAll("&lt;", "&#39;", "'") == "&lt;";
    assert ReplaceAll("&lt;", "&lt;", "<") == "<" by {
      assert "&lt;"[..4] == "&lt;";
    }
    assert ReplaceAll("<", "&gt;", ">") == "<";
  }

  // ===========================================================================
  // DuckDuckGoHTMLSearchClient

  /** _cache_key: the string hashed for a search, "ddg:{query}:{max_results}". */
  function SearchCacheKey(query: string, maxResults: int): string {
    "ddg:" + query + ":" + IntToString(maxResults)
  }

  lemma NoColonInInt(n: int)
    ensures forall i :: 0 <= i < |IntToString(n)| ==> IntToString(n)[i] != ':'
  {
    if n < 0 {
      assert forall i :: 0 < i < |IntToString(n)| ==> IntToString(n)[i] == NatToString(-n)[i - 1];
    }
  }

  /** The number of characters after the last ':'. */
  function TrailLen(s: string): nat {
    if s == [] || s[|s| - 1] == ':' then 0 else TrailLen(s[..|s| - 1]) + 1
  }

  lemma {:induction false} TrailLenOf(p: string, d: string)
    requires forall i :: 0 <= i < |d| ==> d[i] != ':'
    ensures TrailLen(p + ":" + d) == |d|
  {
    var s := p + ":" + d;
    if d == [] {
      assert s[|s| - 1] == ':';
    } else {
      assert s[|s| - 1] == d[|d| - 1];
      assert s[..|s| - 1] == p + ":" + d[..|d| - 1];
      TrailLenOf(p, d[..|d| - 1]);
    }
  }

  /** Distinct (query, max_results) pairs never share a cache key. */
  lemma SearchCacheKeyInjective(q1: string, n1: int, q2: string, n2: int)
    requires SearchCacheKey(q1, n1) == SearchCacheKey(q2, n2)
    ensures q1 == q2 && n1 == n2
  {
    var d1, d2 := IntToString(n1), IntToString(n2);
    var k := SearchCacheKey(q1, n1);
    NoColonInInt(n1);
    NoColonInInt(n2);
    assert k == ("ddg:" + q1) + ":" + d1 == ("ddg:" + q2) + ":" + d2;
    TrailLenOf("ddg:" + q1, d1);
    TrailLenOf("ddg:" + q2, d2);
    assert q1 == k[4..4 + |q1|] == q2;
    assert d1 == k[|k| - |d1|..] == d2;
    IntToStringInjective(n1, n2);
  }

  const Marker: string := "class=\"result__a\""

  /** One result read around the marker at idx, and where the scan resumes (the `</a>` index, or -1). */
  function ResultAt(html: string, idx: int, hrefIdx: int): (SearchResult, int) {
    var quote1 := Find(html, "\"", hrefIdx);
    var quote2 := Find(html, "\"", quote1 + 1);
    var url := Slice(html, quote1 + 1, quote2);
    var gt := Find(html, ">", idx);
    var lt := Find(html, "</a>", gt);
    var title := Strip(UnescapeEntities(RemoveTags(Slice(html, gt + 1, lt), false)));
    (SearchResult(if title != [] then title else url, url, None), lt)
  }

  /** What one turn of the parse loop does from `pos`. */
  datatype Scan = NoMarker | NoHref(next: int) | Hit(result: SearchResult, next: int)

  /**
   * One turn: find the next marker; skip past it when no `href=` precedes
   * it; otherwise read the result and resume at its `</a>`.
   */
  function ScanAt(html: string, pos: int): (s: Scan)
    ensures s.NoHref? ==> pos < s.next <= |html|
    ensures s.Hit? ==> -1 <= s.next <= |html| && s.result.snippet.None?
  {
    var idx := Find(html, Marker, pos);
    if idx == -1 then NoMarker
    else
      var hrefIdx := RFind(html, "href=", idx);
      if hrefIdx == -1 then NoHref(idx + |Marker|)
      else
        var (r, lt) := ResultAt(html, idx, hrefIdx);
        Hit(r, lt)
  }

  /**
   * The results the parse loop collects from `pos` on while `budget` more
   * are wanted: at most budget of them, none with a snippet.
   */
  function ParseFrom(html: string, pos: int, budget: int): (rs: seq<SearchResult>)
    ensures |rs| <= if budget < 0 then 0 else budget
    ensures forall k :: 0 <= k < |rs| ==> rs[k].snippet.None?
    decreases if budget < 0 then 0 else budget, |html| + 1 - pos
  {
    if budget <= 0 then []
    else match ScanAt(html, pos)
      case NoMarker => []
      case NoHref(next) => ParseFrom(html, next, budget)
      case Hit(r, next) => [r] + ParseFrom(html, next, budget - 1)
  }

  /** A page with no result marker yields no results. */
  lemma NoMarkerNoResults(html: string, maxResults: int)
    requires Find(html, Marker, 0) == -1
    ensures ParseFrom(html, 0, maxResults) == []
  {
  }

  /** A result anchor on the page: its href and its link text. */
  datatype ResultLink = ResultLink(url: string, text: string)

  /** `<a href="URL" `: what precedes the marker in a result anchor. */
  function AnchorHead(url: string): string {
    "<a href=\"" + url + "\" "
  }

  /** `>TEXT</a>`: what follows the marker. */
  function AnchorTail(text: string): string {
    ">" + text + "</a>"
  }

  /** `<a href="URL" class="result__a">TEXT</a>`, as the results page marks up a result. */
  function Anchor(l: ResultLink): string {
    AnchorHead(l.url) + Marker + AnchorTail(l.text)
  }

  /** A results page made of anchors only. */
  function AnchorPage(links: seq<ResultLink>): string {
    if links == [] then [] else Anchor(links[0]) + AnchorPage(links[1..])
  }

  /**
   * A link whose url holds no '"' and no `href=`, and whose text holds no
   * tag brackets.
   */
  predicate PlainLink(l: ResultLink) {
    PlainUrl(l.url) && NoBrackets(l.text)
  }

  predicate AllPlain(links: seq<ResultLink>) {
    forall k :: 0 <= k < |links| ==> PlainLink(links[k])
  }

  predicate PlainUrl(url: string) {
    && (forall i :: 0 <= i < |url| ==> url[i] != '"')
    && (forall i :: 0 <= i < |url| ==> !HasAt(url, "href=", i))
  }

  /**
   * The result a reader of the page expects from a link: its url, and its
   * unescaped, stripped text, or the url when that text is blank.
   */
  function LinkResult(l: ResultLink): SearchResult {
    var text := Strip(UnescapeEntities(l.text));
    SearchResult(if text != [] then text else l.url, l.url, None)
  }

  function LinkResults(links: seq<ResultLink>): (rs: seq<SearchResult>)
    ensures |rs| == |links| && forall k :: 0 <= k < |links| ==> rs[k] == LinkResult(links[k])
  {
    seq(|links|, k requires 0 <= k < |links| => LinkResult(links[k]))
  }

  /** What precedes an anchor where the scan is: nothing, or the previous `</a>`. */
  predicate Gap(gap: string) {
    gap == [] || gap == "</a>"
  }

  /** The scan text from a gap through an anchor, in its three parts. */
  lemma AnchorSplit(gap: string, l: ResultLink)
    ensures gap + Anchor(l) == (gap + AnchorHead(l.url)) + Marker + AnchorTail(l.text)
  {
    AppendAssoc(gap, AnchorHead(l.url) + Marker, AnchorTail(l.text));
    AppendAssoc(gap, AnchorHead(l.url), Marker);
  }

  /** gap + `<a href="URL" ` regrouped around the url. */
  lemma LeadParts(gap: string, url: string, lead: string)
    requires lead == gap + AnchorHead(url)
    ensures lead == (gap + "<a href=\"") + url + "\" "
  {
    AppendAssoc(gap, "<a href=\"" + url, "\" ");
    AppendAssoc(gap, "<a href=\"", url);
  }

  /** The lead's only quotes are the two around the url. */
  lemma LeadQuotes(gap: string, url: string, lead: string)
    requires Gap(gap) && PlainUrl(url) && lead == gap + AnchorHead(url)
    ensures |lead| == |gap| + |url| + 11 && lead[|gap| + 2] == ' '
    ensures lead[|gap| + 8] == '"' && lead[|gap| + 9 + |url|] == '"'
    ensures forall i :: 0 <= i < |lead| && i != |gap| + 8 && i != |gap| + 9 + |url| ==> lead[i] != '"'
  {
    var g, n := |gap|, |url|;
    LeadParts(gap, url, lead);
    var x := gap + "<a href=\"";
    forall i | 0 <= i < |lead| && i != g + 8 && i != g + 9 + n
      ensures lead[i] != '"'
    {
      if i < g {
        assert lead[i] == gap[i];
      } else if i < g + 9 {
        assert lead[i] == x[i] == "<a href=\""[i - g];
      } else if i < g + 9 + n {
        assert lead[i] == url[i - g - 9];
      } else {
        assert lead[i] == "\" "[i - g - 9 - n];
      }
    }
    assert lead[g + 2] == x[g + 2] && lead[g + 8] == x[g + 8];
  }

  /** No `href=` starts after the anchor's own and ends inside the lead. */
  lemma HrefNotAfter(gap: string, url: string, lead: string, j: nat)
    requires lead == (gap + "<a href=\"") + url + "\" " && PlainUrl(url)
    requires |gap| + 3 < j && j + 5 <= |lead|
    ensures !HasAt(lead, "href=", j)
  {
    var x := gap + "<a href=\"";
    var g, n := |gap|, |url|;
    Parts(x, url, "\" ");
    if j < g + 9 {
      assert lead[j] == x[j] == "<a href=\""[j - g];
      NotAtFirstDiffers(lead, "href=", j);
    } else if j + 5 <= g + 9 + n {
      HasAtInside(x, url, "\" ", "href=", j - (g + 9));
    } else {
      assert lead[g + 9 + n] == '"';
      NotAtDiffers(lead, "href=", j, g + 9 + n - j);
    }
  }

  /** The anchor's own `href=`. */
  lemma HrefAt(gap: string, url: string, lead: string)
    requires lead == (gap + "<a href=\"") + url + "\" "
    ensures HasAt(lead, "href=", |gap| + 3)
  {
    AppendAssoc(gap + "<a href=\"", url, "\" ");
    assert HasAt("<a href=\"", "href=", 3) by {
      assert "<a href=\""[3..8] == "href=";
    }
    HasAtInside(gap, "<a href=\"", url + "\" ", "href=", 3);
  }

  /** Where the parts of `>TEXT</a>` lie. */
  lemma TailLayout(text: string, tail: string)
    requires tail == AnchorTail(text)
    ensures var t := |text|;
      && |tail| == t + 5 && tail[0] == '>'
      && (forall k :: 0 <= k < t ==> tail[1 + k] == text[k])
      && tail[1..1 + t] == text
      && tail[1 + t..] == "</a>" && tail[1 + t] == '<'
  {
    Parts(">", text, "</a>");
  }

  /** The marker's characters the scan relies on. */
  lemma MarkerChars()
    ensures |Marker| == 17 && Marker[0] == 'c' && Marker[6] == '"' && Marker[8] == 'e' && Marker[16] == '"'
    ensures forall k :: 0 <= k < 17 ==> Marker[k] != '>'
    ensures forall k :: 0 <= k < 6 ==> Marker[k] != '"'
  {
  }

  /** No marker starts before the anchor's own. */
  lemma MarkerNotBefore(gap: string, url: string, lead: string, tail: string, w: string, j: nat)
    requires Gap(gap) && PlainUrl(url) && lead == gap + AnchorHead(url) && w == lead + Marker + tail
    requires j < |lead|
    ensures !HasAt(w, Marker, j)
  {
    var g, n, m := |gap|, |url|, |lead|;
    LeadQuotes(gap, url, lead);
    MarkerChars();
    if m <= j + 6 {
      assert w[j + 6] == Marker[j + 6 - m];
      NotAtDiffers(w, Marker, j, 6);
    } else if j == g + 2 {
      assert w[j] == lead[j];
      NotAtFirstDiffers(w, Marker, j);
    } else if j == g + 3 + n {
      assert w[j + 16] == Marker[8];
      NotAtDiffers(w, Marker, j, 16);
    } else {
      assert w[j + 6] == lead[j + 6];
      NotAtDiffers(w, Marker, j, 6);
    }
  }

  /** From the gap on, the first marker is the anchor's own. */
  lemma AnchorMarker(gap: string, l: ResultLink, lead: string, tail: string, w: string)
    requires Gap(gap) && PlainLink(l)
    requires lead == gap + AnchorHead(l.url) && tail == AnchorTail(l.text) && w == lead + Marker + tail
    ensures Find(w, Marker, 0) == |lead|
  {
    forall j | 0 <= j < |lead|
      ensures !HasAt(w, Marker, j)
    {
      MarkerNotBefore(gap, l.url, lead, tail, w, j);
    }
    Parts(lead, Marker, tail);
    FindIs(w, Marker, 0, |lead|);
  }

  /** Before the marker, the last `href=` is the anchor's own. */
  lemma AnchorHref(gap: string, l: ResultLink, lead: string)
    requires PlainLink(l) && lead == gap + AnchorHead(l.url)
    ensures RFindBefore(lead, "href=", |lead|) == |gap| + 3
  {
    LeadParts(gap, l.url, lead);
    forall j | |gap| + 3 < j && j + 5 <= |lead|
      ensures !HasAt(lead, "href=", j)
    {
      HrefNotAfter(gap, l.url, lead, j);
    }
    HrefAt(gap, l.url, lead);
    RFindIs(lead, "href=", |lead|, |gap| + 3);
  }

  /** The url sits between the two quotes that follow the `href=`. */
  lemma AnchorQuotes(gap: string, url: string, lead: string, tail: string, w: string)
    requires Gap(gap) && PlainUrl(url) && lead == gap + AnchorHead(url) && w == lead + Marker + tail
    ensures var g, n := |gap|, |url|;
      && Find(w, "\"", g + 3) == g + 8
      && Find(w, "\"", g + 9) == g + 9 + n
      && w[g + 9..g + 9 + n] == url
  {
    var g, n := |gap|, |url|;
    LeadQuotes(gap, url, lead);
    FindCharIs(w, '"', g + 3, g + 8);
    FindCharIs(w, '"', g + 9, g + 9 + n);
    LeadParts(gap, url, lead);
    Parts(gap + "<a href=\"", url, "\" ");
    SliceShift(w, 0, lead, g + 9, url);
  }

  /** Within `>TEXT</a>`, the `</a>` follows the text. */
  lemma TailClose(text: string, tail: string)
    requires NoBrackets(text) && tail == AnchorTail(text)
    ensures Find(tail, "</a>", 0) == 1 + |text| && tail[1..1 + |text|] == text && |tail| == |text| + 5
  {
    Parts(">", text, "</a>");
    forall j | 0 <= j < 1 + |text|
      ensures !HasAt(tail, "</a>", j)
    {
      NotAtFirstDiffers(tail, "</a>", j);
    }
    FindIs(tail, "</a>", 0, 1 + |text|);
  }

  /** The marker is followed at once by the anchor's `>`. */
  lemma MarkerThenGt(lead: string, tail: string, w: string)
    requires w == lead + Marker + tail && tail != [] && tail[0] == '>'
    ensures Find(w, ">", |lead|) == |lead| + 17
  {
    var m := |lead|;
    MarkerChars();
    forall j | m <= j < m + 17 ensures w[j] != '>' {
      assert w[j] == Marker[j - m];
    }
    FindCharIs(w, '>', m, m + 17);
  }

  /** The anchor's `</a>` is the first after its `>`. */
  lemma AnchorClose(lead: string, text: string, tail: string, w: string)
    requires NoBrackets(text) && tail == AnchorTail(text) && w == lead + Marker + tail
    ensures Find(w, "</a>", |lead| + 17) == |lead| + 18 + |text|
  {
    TailClose(text, tail);
    assert w + [] == w;
    FindInside(lead + Marker, tail, [], "</a>", 0, 1 + |text|);
  }

  /** The link text lies between the `>` and the `</a>`. */
  lemma AnchorTextSlice(lead: string, text: string, tail: string, w: string)
    requires tail == AnchorTail(text) && w == lead + Marker + tail
    ensures |w| == |lead| + 22 + |text| && w[|lead| + 18..|lead| + 18 + |text|] == text
  {
    Parts(lead + Marker, tail, []);
    Parts(">", text, "</a>");
    SliceShift(w, |lead| + 17, tail, 1, text);
  }

  /**
   * Where the scan from p finds each part of one anchor that follows a gap
   * of g characters and has a url of n and a text of t characters.
   */
  predicate AnchorFound(h: string, p: nat, g: nat, n: nat, t: nat) {
    var m := p + g + n + 11;
    && m + 22 + t <= |h|
    && Find(h, Marker, p) == m
    && RFind(h, "href=", m) == p + g + 3
    && Find(h, "\"", p + g + 3) == p + g + 8
    && Find(h, "\"", p + g + 9) == p + g + 9 + n
    && Find(h, ">", m) == m + 17
    && Find(h, "</a>", m + 17) == m + 18 + t
  }

  lemma AnchorHrefInW(gap: string, l: ResultLink, lead: string, tail: string, w: string)
    requires PlainLink(l) && lead == gap + AnchorHead(l.url) && w == lead + Marker + tail
    ensures RFind(w, "href=", |lead|) == |gap| + 3
  {
    AnchorHref(gap, l, lead);
    AppendAssoc(lead, Marker, tail);
    assert [] + lead + (Marker + tail) == w;
    RFindInside([], lead, Marker + tail, "href=", |lead|, |gap| + 3);
  }

  /** In pre + gap + anchor + post, the marker and the `href=` the scan finds from the gap on. */
  lemma PageMarker(pre: string, gap: string, l: ResultLink, post: string, w: string)
    requires Gap(gap) && PlainLink(l) && w == gap + Anchor(l)
    ensures var p, m := |pre|, |gap| + |l.url| + 11;
      && Find(pre + w + post, Marker, p) == p + m
      && RFind(pre + w + post, "href=", p + m) == p + |gap| + 3
  {
    var lead, tail := gap + AnchorHead(l.url), AnchorTail(l.text);
    AnchorSplit(gap, l);
    LeadQuotes(gap, l.url, lead);
    AnchorMarker(gap, l, lead, tail, w);
    FindInside(pre, w, post, Marker, 0, |lead|);
    AnchorHrefInW(gap, l, lead, tail, w);
    RFindInside(pre, w, post, "href=", |lead|, |gap| + 3);
  }

  /** In pre + gap + anchor + post, the quotes around the url. */
  lemma PageQuotes(pre: string, gap: string, l: ResultLink, post: string, w: string)
    requires Gap(gap) && PlainLink(l) && w == gap + Anchor(l)
    ensures var p, g, n := |pre|, |gap|, |l.url|;
      && Find(pre + w + post, "\"", p + g + 3) == p + g + 8
      && Find(pre + w + post, "\"", p + g + 9) == p + g + 9 + n
  {
    var g, n := |gap|, |l.url|;
    var lead, tail := gap + AnchorHead(l.url), AnchorTail(l.text);
    AnchorSplit(gap, l);
    AnchorQuotes(gap, l.url, lead, tail, w);
    FindInside(pre, w, post, "\"", g + 3, g + 8);
    FindInside(pre, w, post, "\"", g + 9, g + 9 + n);
  }

  /** In pre + gap + anchor + post, the `>` and the `</a>` around the text. */
  lemma PageText(pre: string, gap: string, l: ResultLink, post: string, w: string)
    requires Gap(gap) && PlainLink(l) && w == gap + Anchor(l)
    ensures var p, m, t := |pre|, |gap| + |l.url| + 11, |l.text|;
      && |w| == m + 22 + t
      && Find(pre + w + post, ">", p + m) == p + m + 17
      && Find(pre + w + post, "</a>", p + m + 17) == p + m + 18 + t
  {
    var lead, tail := gap + AnchorHead(l.url), AnchorTail(l.text);
    var m, t := |lead|, |l.text|;
    AnchorSplit(gap, l);
    LeadQuotes(gap, l.url, lead);
    MarkerThenGt(lead, tail, w);
    FindInside(pre, w, post, ">", m, m + 17);
    AnchorClose(lead, l.text, tail, w);
    FindInside(pre, w, post, "</a>", m + 17, m + 18 + t);
    AnchorTextSlice(lead, l.text, tail, w);
  }

  /** In gap + anchor, the url as the scan slices it. */
  lemma AnchorUrl(gap: string, l: ResultLink, w: string)
    requires Gap(gap) && PlainLink(l) && w == gap + Anchor(l)
    ensures |gap| + 9 + |l.url| <= |w| && Slice(w, |gap| + 9, |gap| + 9 + |l.url|) == l.url
  {
    var lead, tail := gap + AnchorHead(l.url), AnchorTail(l.text);
    AnchorSplit(gap, l);
    LeadQuotes(gap, l.url, lead);
    AnchorQuotes(gap, l.url, lead, tail, w);
    SliceInRange(w, |gap| + 9, l.url);
  }

  /** In gap + anchor, the link text as the scan slices it. */
  lemma AnchorTitle(gap: string, l: ResultLink, w: string)
    requires w == gap + Anchor(l)
    ensures var at := |gap| + |l.url| + 29;
      at + |l.text| <= |w| && Slice(w, at, at + |l.text|) == l.text
  {
    var lead, tail := gap + AnchorHead(l.url), AnchorTail(l.text);
    AnchorSplit(gap, l);
    assert |lead| == |gap| + |l.url| + 11;
    AnchorTextSlice(lead, l.text, tail, w);
    SliceInRange(w, |gap| + |l.url| + 29, l.text);
  }

  /** A stretch of w sliced out of pre + w + post. */
  lemma SliceLift(pre: string, w: string, post: string, lo: nat, x: string)
    requires lo + |x| <= |w| && Slice(w, lo, lo + |x|) == x
    ensures Slice(pre + w + post, |pre| + lo, |pre| + lo + |x|) == x
  {
    SliceInside(pre, w, post, lo, x);
    SliceInRange(pre + w + post, |pre| + lo, x);
  }

  /** A slice of w is the same slice, shifted, of pre + w + post. */
  lemma SliceInside(pre: string, w: string, post: string, lo: nat, x: string)
    requires lo + |x| <= |w| && w[lo..lo + |x|] == x
    ensures (pre + w + post)[|pre| + lo..|pre| + lo + |x|] == x
  {
    var h := pre + w + post;
    assert forall k :: 0 <= k < |w| ==> h[|pre| + k] == w[k];
    SliceShift(h, |pre|, w, lo, x);
  }

  /** Python's slice of an in-range stretch is that stretch. */
  lemma SliceInRange(h: string, lo: nat, x: string)
    requires lo + |x| <= |h| && h[lo..lo + |x|] == x
    ensures Slice(h, lo, lo + |x|) == x
  {
  }

  /** Reading a result between the found quotes, `>` and `</a>` gives the link's result. */
  lemma ResultFound(h: string, idx: int, hrefIdx: int, l: ResultLink, q1: int, gt: int, lt: int)
    requires Find(h, "\"", hrefIdx) == q1 && Find(h, "\"", q1 + 1) == q1 + 1 + |l.url|
    requires Find(h, ">", idx) == gt && Find(h, "</a>", gt) == lt && lt == gt + 1 + |l.text|
    requires Slice(h, q1 + 1, q1 + 1 + |l.url|) == l.url && Slice(h, gt + 1, lt) == l.text
    requires NoBrackets(l.text)
    ensures ResultAt(h, idx, hrefIdx) == (LinkResult(l), lt)
  {
    var url := Slice(h, Find(h, "\"", hrefIdx) + 1, Find(h, "\"", Find(h, "\"", hrefIdx) + 1));
    assert url == l.url;
    var raw := Slice(h, Find(h, ">", idx) + 1, Find(h, "</a>", Find(h, ">", idx)));
    assert raw == l.text;
    RemoveTagsPlain(l.text);
    assert RemoveTags(raw, false) == l.text;
  }

  /** A turn of the parse loop from pos reads r and resumes at next, whatever the budget left. */
  ghost predicate Turn(h: string, pos: int, r: SearchResult, next: int) {
    forall b :: b > 0 ==> ParseFrom(h, pos, b) == [r] + ParseFrom(h, next, b - 1)
  }

  /** From pos the scan finds a marker with an `href=` before it, and the result read there is r, ending at next. */
  predicate Reads(h: string, pos: int, r: SearchResult, next: int) {
    && Find(h, Marker, pos) >= 0
    && RFind(h, "href=", Find(h, Marker, pos)) >= 0
    && ResultAt(h, Find(h, Marker, pos), RFind(h, "href=", Find(h, Marker, pos))) == (r, next)
  }

  /** A turn that reads a result passes it on and resumes at its end. */
  lemma TurnOf(h: string, pos: int, r: SearchResult, next: int)
    ensures Reads(h, pos, r, next) ==> Turn(h, pos, r, next)
  {
    if Reads(h, pos, r, next) {
      assert ScanAt(h, pos) == Hit(r, next);
    }
  }

  /** A turn from a position with no marker ahead ends the loop. */
  lemma TurnEnd(h: string, pos: int)
    requires Find(h, Marker, pos) == -1
    ensures forall b :: ParseFrom(h, pos, b) == []
  {
    assert ScanAt(h, pos) == NoMarker;
  }

  /**
   * The anchor l lies at p after a gap of g characters, as the scan finds
   * it, its text holds no tag brackets, and next is right at its `</a>`.
   */
  predicate AnchorRead(h: string, p: nat, g: nat, l: ResultLink, next: nat) {
    && next == p + g + |l.url| + |l.text| + 29
    && AnchorFound(h, p, g, |l.url|, |l.text|) && NoBrackets(l.text)
    && Slice(h, p + g + 9, p + g + 9 + |l.url|) == l.url
    && Slice(h, p + g + |l.url| + 29, next) == l.text
  }

  /** At an anchor read from p, the loop reads exactly that anchor and resumes at its `</a>`. */
  lemma AnchorResult(h: string, p: nat, g: nat, l: ResultLink, next: nat)
    ensures AnchorRead(h, p, g, l, next) ==> Reads(h, p, LinkResult(l), next)
  {
    if AnchorRead(h, p, g, l, next) {
      ResultFound(h, Find(h, Marker, p), RFind(h, "href=", Find(h, Marker, p)), l, p + g + 8, p + g + |l.url| + 28, next);
    }
  }


  /** In pre + gap + anchor + post, the scan from the gap finds each part of the anchor. */
  lemma PageFound(pre: string, gap: string, l: ResultLink, post: string, w: string)
    requires Gap(gap) && PlainLink(l) && w == gap + Anchor(l)
    ensures AnchorFound(pre + w + post, |pre|, |gap|, |l.url|, |l.text|)
  {
    PageMarker(pre, gap, l, post, w);
    PageQuotes(pre, gap, l, post, w);
    PageText(pre, gap, l, post, w);
  }

  /** In pre + gap + anchor + post, the url as the scan slices it. */
  lemma PageUrl(pre: string, gap: string, l: ResultLink, post: string, w: string)
    requires Gap(gap) && PlainLink(l) && w == gap + Anchor(l)
    ensures Slice(pre + w + post, |pre| + |gap| + 9, |pre| + |gap| + 9 + |l.url|) == l.url
  {
    AnchorUrl(gap, l, w);
    SliceLift(pre, w, post, |gap| + 9, l.url);
  }

  /** In pre + gap + anchor + post, the link text as the scan slices it. */
  lemma PageTitle(pre: string, gap: string, l: ResultLink, post: string, w: string)
    requires Gap(gap) && PlainLink(l) && w == gap + Anchor(l)
    ensures var at := |pre| + |gap| + |l.url| + 29;
      Slice(pre + w + post, at, at + |l.text|) == l.text
  {
    AnchorTitle(gap, l, w);
    SliceLift(pre, w, post, |gap| + |l.url| + 29, l.text);
  }

  /** Where each turn over the anchors resumes: right after the anchor it read. */
  function AnchorEnds(p: nat, g: nat, links: seq<ResultLink>): (ends: seq<nat>)
    ensures |ends| == |links|
    decreases |links|
  {
    if links == [] then []
    else
      var next := p + g + |links[0].url| + |links[0].text| + 29;
      [next] + AnchorEnds(next, 4, links[1..])
  }

  /** After the first anchor the next anchor follows a `</a>` gap. */
  lemma AnchorEndsTail(p: nat, g: nat, links: seq<ResultLink>)
    ensures links != [] ==> AnchorEnds(p, g, links)[1..] == AnchorEnds(AnchorEnds(p, g, links)[0], 4, links[1..])
  {
  }

  /** From pos the loop's turns read the links' results, turn k resuming at ends[k], and then stop. */
  ghost predicate Turns(h: string, pos: int, links: seq<ResultLink>, ends: seq<int>)
    decreases |links|
  {
    && |ends| == |links|
    && if links == [] then Find(h, Marker, pos) == -1
       else Reads(h, pos, LinkResult(links[0]), ends[0]) && Turns(h, ends[0], links[1..], ends[1..])
  }

  /** How many results the loop keeps: at most budget, at most what the page holds. */
  function Kept(budget: int, n: nat): (k: nat)
    ensures k <= n && (budget >= 0 ==> k <= budget)
    ensures budget >= n ==> k == n
  {
    if budget <= 0 then 0 else if budget < n then budget else n
  }

  /** The links' results cut to a positive budget: the first one, then the rest cut to one less. */
  lemma KeptCons(links: seq<ResultLink>, budget: int)
    requires links != [] && budget > 0
    ensures LinkResults(links)[..Kept(budget, |links|)]
      == [LinkResult(links[0])] + LinkResults(links[1..])[..Kept(budget - 1, |links[1..]|)]
  {
    var rs := LinkResults(links);
    assert rs[1..] == LinkResults(links[1..]);
    TakeCons(rs, Kept(budget, |links|));
  }

  lemma TakeCons(rs: seq<SearchResult>, k: nat)
    requires 0 < k <= |rs|
    ensures rs[..k] == [rs[0]] + rs[1..][..k - 1]
  {
    assert rs[..k] == rs[..1] + rs[1..k];
  }

  lemma SameAfterHead(x: seq<SearchResult>, y: seq<SearchResult>, z: seq<SearchResult>, a: seq<SearchResult>, r: SearchResult)
    requires x == [r] + y && y == z && a == [r] + z
    ensures x == a
  {
  }

  /** Turn by turn, the loop collects the links' results until the budget runs out. */
  /** Past the first anchor, a turn passes its result on and the rest of the page is read as before. */
  lemma TurnsStep(h: string, pos: int, links: seq<ResultLink>, ends: seq<int>, budget: int)
    ensures Turns(h, pos, links, ends) && links != [] && budget > 0 ==>
      && ParseFrom(h, pos, budget) == [LinkResult(links[0])] + ParseFrom(h, ends[0], budget - 1)
      && Turns(h, ends[0], links[1..], ends[1..])
  {
    if Turns(h, pos, links, ends) && links != [] && budget > 0 {
      TurnOf(h, pos, LinkResult(links[0]), ends[0]);
    }
  }

  lemma {:induction false} ParseTurns(h: string, pos: int, links: seq<ResultLink>, ends: seq<int>, budget: int)
    requires Turns(h, pos, links, ends)
    ensures ParseFrom(h, pos, budget) == LinkResults(links)[..Kept(budget, |links|)]
    decreases |links|
  {
    if links == [] {
      TurnEnd(h, pos);
    } else if budget > 0 {
      TurnsStep(h, pos, links, ends, budget);
      ParseTurns(h, ends[0], links[1..], ends[1..], budget - 1);
      KeptCons(links, budget);
      SameAfterHead(ParseFrom(h, pos, budget), ParseFrom(h, ends[0], budget - 1),
        LinkResults(links[1..])[..Kept(budget - 1, |links[1..]|)],
        LinkResults(links)[..Kept(budget, |links|)], LinkResult(links[0]));
    }
  }

  /** gap + anchor, cut before its `</a>`. */
  function AnchorOpen(gap: string, l: ResultLink): string {
    gap + AnchorHead(l.url) + Marker + ">" + l.text
  }

  /** pre + gap + anchor + post, regrouped around the anchor's `</a>`. */
  lemma AnchorRegroup(pre: string, gap: string, l: ResultLink, post: string)
    ensures pre + (gap + Anchor(l)) + post == (pre + AnchorOpen(gap, l)) + "</a>" + post
    ensures |pre + AnchorOpen(gap, l)| == |pre| + |gap| + |l.url| + |l.text| + 29
  {
    var x := gap + AnchorHead(l.url) + Marker;
    assert gap + Anchor(l) == x + AnchorTail(l.text) by {
      AnchorSplit(gap, l);
    }
    assert x + AnchorTail(l.text) == AnchorOpen(gap, l) + "</a>";
    AppendAssoc(pre, AnchorOpen(gap, l), "</a>");
  }

  /** pre + gap + (first anchor + the rest) is pre + (gap + first anchor) + the rest. */
  lemma PageRegroup(pre: string, gap: string, links: seq<ResultLink>)
    requires links != []
    ensures pre + gap + AnchorPage(links) == pre + (gap + Anchor(links[0])) + AnchorPage(links[1..])
  {
    AppendAssoc(pre + gap, Anchor(links[0]), AnchorPage(links[1..]));
    AppendAssoc(pre, gap, Anchor(links[0]));
  }

  /** The first anchor of a page sits where the scan starts, after the gap. */
  lemma PageRead(pre: string, gap: string, links: seq<ResultLink>)
    ensures links != [] && Gap(gap) && PlainLink(links[0]) ==>
      && AnchorRead(pre + gap + AnchorPage(links), |pre|, |gap|, links[0], AnchorEnds(|pre|, |gap|, links)[0])
      && pre + gap + AnchorPage(links) == (pre + AnchorOpen(gap, links[0])) + "</a>" + AnchorPage(links[1..])
      && |pre + AnchorOpen(gap, links[0])| == AnchorEnds(|pre|, |gap|, links)[0]
  {
    if links != [] && Gap(gap) && PlainLink(links[0]) {
      var l := links[0];
      var w, post := gap + Anchor(l), AnchorPage(links[1..]);
      PageRegroup(pre, gap, links);
      PageFound(pre, gap, l, post, w);
      PageUrl(pre, gap, l, post, w);
      PageTitle(pre, gap, l, post, w);
      AnchorRegroup(pre, gap, l, post);
    }
  }

  /** The first anchor of a page is read by the first turn, which resumes at its `</a>`. */
  lemma PageFirstTurn(pre: string, gap: string, links: seq<ResultLink>)
    ensures links != [] && Gap(gap) && PlainLink(links[0]) ==>
      && Reads(pre + gap + AnchorPage(links), |pre|, LinkResult(links[0]), AnchorEnds(|pre|, |gap|, links)[0])
      && pre + gap + AnchorPage(links) == (pre + AnchorOpen(gap, links[0])) + "</a>" + AnchorPage(links[1..])
      && |pre + AnchorOpen(gap, links[0])| == AnchorEnds(|pre|, |gap|, links)[0]
  {
    PageRead(pre, gap, links);
    if links != [] {
      AnchorResult(pre + gap + AnchorPage(links), |pre|, |gap|, links[0], AnchorEnds(|pre|, |gap|, links)[0]);
    }
  }

  /** Past the last anchor, at most a `</a>` is left: no marker fits. */
  lemma PageEnd(pre: string, gap: string)
    requires Gap(gap)
    ensures Turns(pre + gap + AnchorPage([]), |pre|, [], AnchorEnds(|pre|, |gap|, []))
  {
    var h := pre + gap + AnchorPage([]);
    MarkerChars();
    assert |h| == |pre| + |gap|;
  }

  /** The turns over a page are its first turn followed by the turns over the rest of the page. */
  lemma PageStep(pre: string, gap: string, links: seq<ResultLink>)
    ensures links != [] && AllPlain(links) ==> PlainLink(links[0]) && AllPlain(links[1..])
    ensures links != [] && Gap(gap) && PlainLink(links[0])
      && Turns(pre + AnchorOpen(gap, links[0]) + "</a>" + AnchorPage(links[1..]), |pre + AnchorOpen(gap, links[0])|,
          links[1..], AnchorEnds(|pre + AnchorOpen(gap, links[0])|, 4, links[1..]))
      ==> Turns(pre + gap + AnchorPage(links), |pre|, links, AnchorEnds(|pre|, |gap|, links))
  {
    PageFirstTurn(pre, gap, links);
    AnchorEndsTail(|pre|, |gap|, links);
  }

  /** A page of plain anchors is read one anchor per turn. */
  lemma {:induction false} PageTurns(pre: string, gap: string, links: seq<ResultLink>)
    ensures Gap(gap) && AllPlain(links) ==>
      Turns(pre + gap + AnchorPage(links), |pre|, links, AnchorEnds(|pre|, |gap|, links))
    decreases |links|
  {
    if Gap(gap) && AllPlain(links) {
      if links == [] {
        PageEnd(pre, gap);
      } else {
        PageStep(pre, gap, links);
        PageTurns(pre + AnchorOpen(gap, links[0]), "</a>", links[1..]);
      }
    }
  }

  /**
   * A results page made of plain anchors parses to one result per anchor,
   * in page order, with the anchor's url and its stripped text (or the url
   * when the text is blank), cut to max_results.
   */
  lemma ParseAnchorPage(links: seq<ResultLink>, maxResults: int)
    requires forall k :: 0 <= k < |links| ==> PlainLink(links[k])
    ensures ParseFrom(AnchorPage(links), 0, maxResults) == LinkResults(links)[..Kept(maxResults, |links|)]
  {
    PageTurns([], [], links);
    assert [] + [] + AnchorPage(links) == AnchorPage(links);
    ParseTurns(AnchorPage(links), 0, links, AnchorEnds(0, 0, links), maxResults);
  }

  /** The body of the parse loop once a marker and its `href=` are found. */
  method ReadResult(html: string, idx: int, hrefIdx: int) returns (r: SearchResult, lt: int)
    ensures (r, lt) == ResultAt(html, idx, hrefIdx)
  {
    var quote1 := Find(html, "\"", hrefIdx);
    var quote2 := Find(html, "\"", quote1 + 1);
    var url := Slice(html, quote1 + 1, quote2);
    var gt := Find(html, ">", idx);
    lt := Find(html, "</a>", gt);
    var title := StripTags(Slice(html, gt + 1, lt));
    title := Strip(title);
    r := SearchResult(if title != [] then title else url, url, None);
    assert ResultAt(html, idx, hrefIdx) == (r, lt);
  }

  method ScanFrom(html: string, pos: int) returns (s: Scan)
    ensures s == ScanAt(html, pos)
  {
    var idx := Find(html, Marker, pos);
    if idx == -1 {
      return NoMarker;
    }
    var hrefIdx := RFind(html, "href=", idx);
    if hrefIdx == -1 {
      return NoHref(idx + |Marker|);
    }
    var r, lt := ReadResult(html, idx, hrefIdx);
    return Hit(r, lt);
  }

  lemma EmptyAppend<T>(s: seq<T>)
    ensures [] + s == s
  {
  }

  /** The parse loop of `search`. */
  method ParseResults(html: string, maxResults: int) returns (results: seq<SearchResult>)
    ensures results == ParseFrom(html, 0, maxResults)
  {
    results := [];
    var pos := 0;
    ghost var budget := maxResults;
    ghost var all := ParseFrom(html, 0, maxResults);
    EmptyAppend(all);
    while |results| < maxResults
      invariant budget == maxResults - |results|
      invariant -1 <= pos <= |html|
      invariant results + ParseFrom(html, pos, budget) == all
      decreases budget, |html| + 1 - pos
    {
      var step := ScanFrom(html, pos);
      match step
      case NoMarker =>
        assert results + [] == results;
        break;
      case NoHref(next) =>
        pos := next;
      case Hit(r, next) =>
        AppendAssoc(results, [r], ParseFrom(html, next, budget - 1));
        results := results + [r];
        budget := budget - 1;
        pos := next;
    }
    assert results + [] == results;
  }

  /** What `search` returns, the cache and limiter afterwards. */
  datatype SearchStep = SearchStep(
    result: Result<seq<SearchResult>, string>,
    entries: seq<Slot<seq<SearchResult>>>,
    bucket: Bucket)

  /**
   * search: a blank query returns [] at once; a cache hit is returned as
   * stored; otherwise wait for a token, issue the request, parse, and cache
   * the list (stamped with the time the token was granted).
   */
  function SearchSpec(entries: seq<Slot<seq<SearchResult>>>, maxItems: int, ttl: int, bucket: Bucket,
                      query: string, maxResults: int, now: real, upstream: HttpOutcome): SearchStep
    requires maxItems > 0 && bucket.capacity > 0
  {
    if Strip(query) == [] then SearchStep(Success([]), entries, bucket)
    else
      var key := SearchCacheKey(query, maxResults);
      var l := CacheLookup(entries, key, now);
      if l.value.Some? then SearchStep(Success(l.value.value), l.entries, bucket)
      else
        var (bucket', grantedAt, _) := AcquireFrom(bucket, now);
        match upstream
        case HttpFailure(reason) => SearchStep(Failure(reason), l.entries, bucket')
        case Page(html) =>
          var results := ParseFrom(html, 0, maxResults);
          SearchStep(Success(results), CacheStore(l.entries, maxItems, ttl, key, results, grantedAt), bucket')
  }

  /** A blank query touches neither the cache nor the limiter. */
  lemma BlankQueryIsInert(entries: seq<Slot<seq<SearchResult>>>, maxItems: int, ttl: int, bucket: Bucket,
                          query: string, maxResults: int, now: real, upstream: HttpOutcome)
    requires maxItems > 0 && bucket.capacity > 0
    requires forall i :: 0 <= i < |query| ==> IsPySpace(query[i])
    ensures SearchSpec(entries, maxItems, ttl, bucket, query, maxResults, now, upstream)
         == SearchStep(Success([]), entries, bucket)
  {
  }

  /** A query whose list is in the cache and unexpired is answered from it with no token and no request. */
  lemma SearchHitIsServed(entries: seq<Slot<seq<SearchResult>>>, maxItems: int, ttl: int, bucket: Bucket,
                          query: string, maxResults: int, now: real, upstream: HttpOutcome)
    requires maxItems > 0 && bucket.capacity > 0
    requires Strip(query) != []
    requires CacheLookup(entries, SearchCacheKey(query, maxResults), now).value.Some?
    ensures SearchSpec(entries, maxItems, ttl, bucket, query, maxResults, now, upstream)
         == SearchStep(Success(CacheLookup(entries, SearchCacheKey(query, maxResults), now).value.value),
                       CacheLookup(entries, SearchCacheKey(query, maxResults), now).entries, bucket)
  {
  }

  /** An upstream failure propagates and caches nothing. */
  lemma SearchFailureNotCached(entries: seq<Slot<seq<SearchResult>>>, maxItems: int, ttl: int, bucket: Bucket,
                               query: string, maxResults: int, now: real, reason: string)
    requires maxItems > 0 && bucket.capacity > 0 && DistinctKeys(entries)
    requires Strip(query) != []
    requires CacheLookup(entries, SearchCacheKey(query, maxResults), now).value.None?
    ensures var s := SearchSpec(entries, maxItems, ttl, bucket, query, maxResults, now, HttpFailure(reason));
      s.result == Failure(reason) && |s.entries| <= |entries|
      && IndexOfKey(s.entries, SearchCacheKey(query, maxResults)) == IndexOfKey(CacheLookup(entries, SearchCacheKey(query, maxResults), now).entries, SearchCacheKey(query, maxResults))
  {
    CacheLookupShrinks(entries, SearchCacheKey(query, maxResults), now);
  }

  /** A miss takes a token, parses the page and caches the list at the time the token was granted. */
  lemma SearchMiss(entries: seq<Slot<seq<SearchResult>>>, maxItems: int, ttl: int, bucket: Bucket,
                   query: string, maxResults: int, now: real, html: string)
    requires maxItems > 0 && bucket.capacity > 0
    requires Strip(query) != []
    requires CacheLookup(entries, SearchCacheKey(query, maxResults), now).value.None?
    ensures var key, r := SearchCacheKey(query, maxResults), AcquireFrom(bucket, now);
      SearchSpec(entries, maxItems, ttl, bucket, query, maxResults, now, Page(html))
      == SearchStep(Success(ParseFrom(html, 0, maxResults)),
                    CacheStore(CacheLookup(entries, key, now).entries, maxItems, ttl, key, ParseFrom(html, 0, maxResults), r.1),
                    r.0)
  {
  }

  /**
   * A search that went upstream and succeeded is served again from the
   * cache, unchanged and without a token, by a repeat of the same query
   * before the TTL runs out, whatever the upstream would answer then; an
   * empty list counts as cached.
   */
  lemma SearchRepeatIsCached(entries: seq<Slot<seq<SearchResult>>>, maxItems: int, ttl: int, bucket: Bucket,
                             query: string, maxResults: int, now: real, html: string,
                             later: real, upstream2: HttpOutcome)
    requires maxItems > 0 && bucket.capacity > 0 && DistinctKeys(entries)
    requires Strip(query) != []
    requires CacheLookup(entries, SearchCacheKey(query, maxResults), now).value.None?
    requires later < now + ttl as real
    ensures var s := SearchSpec(entries, maxItems, ttl, bucket, query, maxResults, now, Page(html));
      s.result == Success(ParseFrom(html, 0, maxResults))
      && SearchSpec(s.entries, maxItems, ttl, s.bucket, query, maxResults, later, upstream2)
         == SearchStep(s.result, s.entries, s.bucket)
  {
    var key := SearchCacheKey(query, maxResults);
    var l := CacheLookup(entries, key, now);
    CacheLookupShrinks(entries, key, now);
    var r := AcquireFrom(bucket, now);
    var results := ParseFrom(html, 0, maxResults);
    CacheStoreThenLookup(l.entries, maxItems, ttl, key, results, r.1, later);
    var e := CacheStore(l.entries, maxItems, ttl, key, results, r.1);
    SearchMiss(entries, maxItems, ttl, bucket, query, maxResults, now, html);
    SearchHitIsServed(e, maxItems, ttl, r.0, query, maxResults, later, upstream2);
  }

  /** DuckDuckGoHTMLSearchClient, given its cache and limiter. */
  class SearchClient {
    const cache: TtlCache<seq<SearchResult>>
    const limiter: RateLimiter

    ghost predicate Valid()
      reads this, cache, limiter
    {
      cache.Valid() && limiter.Valid()
    }

    constructor (cache: TtlCache<seq<SearchResult>>, limiter: RateLimiter)
      requires cache.Valid() && limiter.Valid()
      ensures Valid() && this.cache == cache && this.limiter == limiter
    {
      this.cache := cache;
      this.limiter := limiter;
    }

    method Search(query: string, maxResults: int, now: real, upstream: HttpOutcome)
      returns (r: Result<seq<SearchResult>, string>)
      requires Valid()
      modifies cache, limiter
      ensures Valid()
      ensures var s := SearchSpec(old(cache.entries), cache.maxItems, cache.ttlSeconds, old(limiter.State()),
                                  query, maxResults, now, upstream);
        r == s.result && cache.entries == s.entries && limiter.State() == s.bucket
    {
      if Strip(query) == [] {
        return Success([]);
      }
      var key := SearchCacheKey(query, maxResults);
      var cached := cache.Get(key, now);
      if cached.Some? {
        return Success(cached.value);
      }
      var grantedAt, _ := limiter.Acquire(now);
      match upstream
      case HttpFailure(reason) =>
        return Failure(reason);
      case Page(html) =>
        var results := ParseResults(html, maxResults);
        cache.Set(key, results, grantedAt);
        return Success(results);
    }
  }
}

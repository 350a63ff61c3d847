/** The per-key fixed-window rate limiter run on every request: a key's
    first request, or one arriving after its window has run out, opens a new
    window with count 1; any other request increments the count and is
    rejected with status 429 once the count exceeds the maximum. */
module RateLimit {
  import opened Util

  const DefaultWindowMs := 60000
  const DefaultMax := 10
  const TooManyRequests := 429

  datatype Entry = Entry(count: int, windowStart: int)

  /** The limiter's store after a request, and whether it was let through. */
  datatype Decision = Decision(store: map<string, Entry>, allowed: bool)

  /** A configured setting, or the default when it is unset or empty. */
  function Setting(configured: Option<int>, default: int): (r: int)
    ensures configured == None ==> r == default
    ensures configured.Some? ==> r == configured.value
  {
    match configured
    case None => default
    case Some(v) => v
  }

  /** The `x-api-key` header when non-empty, else the client address when
      non-empty, else `"anon"`. */
  function RequestKey(apiKey: Option<string>, ip: Option<string>): (r: string)
    ensures apiKey.Some? && apiKey.value != "" ==> r == apiKey.value
    ensures (apiKey == None || apiKey.value == "") && ip.Some? && ip.value != "" ==> r == ip.value
    ensures (apiKey == None || apiKey.value == "") && (ip == None || ip.value == "") ==> r == "anon"
    ensures r != ""
  {
    if apiKey.Some? && Truthy(apiKey.value) then apiKey.value
    else if ip.Some? && Truthy(ip.value) then ip.value
    else "anon"
  }

  /** The `onRequest` hook on a store, for a request with this key at this
      time. */
  function Admit(store: map<string, Entry>, key: string, now: int, windowMs: int, max: int): (r: Decision)
    ensures key in r.store
    ensures !r.allowed ==> key in store && r.store[key].windowStart == store[key].windowStart
    ensures !r.allowed ==> r.store[key].count > max
  {
    if key !in store || now - store[key].windowStart > windowMs then
      Decision(store[key := Entry(1, now)], true)
    else
      var counted := store[key].(count := store[key].count + 1);
      Decision(store[key := counted], counted.count <= max)
  }

  /** A first request, or one after the window, starts a window and passes. */
  lemma NewWindow(store: map<string, Entry>, key: string, now: int, windowMs: int, max: int)
    requires key !in store || now - store[key].windowStart > windowMs
    ensures Admit(store, key, now, windowMs, max).allowed
    ensures Admit(store, key, now, windowMs, max).store[key] == Entry(1, now)
  {
  }

  /** Inside the window the count goes up by one, also when the request is
      rejected, and the request passes iff the new count is within the
      maximum. */
  lemma SameWindow(store: map<string, Entry>, key: string, now: int, windowMs: int, max: int)
    requires key in store && now - store[key].windowStart <= windowMs
    ensures Admit(store, key, now, windowMs, max).store[key]
         == Entry(store[key].count + 1, store[key].windowStart)
    ensures Admit(store, key, now, windowMs, max).allowed <==> store[key].count + 1 <= max
  {
  }

  /** A request exactly `windowMs` after the window opened still counts in
      that window. */
  lemma BoundaryStaysInWindow(store: map<string, Entry>, key: string, windowMs: int, max: int)
    requires key in store
    ensures var now := store[key].windowStart + windowMs;
      Admit(store, key, now, windowMs, max).store[key].windowStart == store[key].windowStart
      && Admit(store, key, now, windowMs, max).store[key].count == store[key].count + 1
  {
  }

  /** Keys are independent: a request touches only its own entry. */
  lemma OtherKeysUntouched(store: map<string, Entry>, key: string, now: int, windowMs: int, max: int)
    ensures Admit(store, key, now, windowMs, max).store.Keys == store.Keys + {key}
    ensures forall k | k in store && k != key :: Admit(store, key, now, windowMs, max).store[k] == store[k]
  {
  }

  /** Once a key is over the limit, every further request in the same window
      is rejected too. */
  lemma RejectedStaysRejected(store: map<string, Entry>, key: string, now: int, later: int, windowMs: int, max: int)
    requires key in store && now - store[key].windowStart <= windowMs
    requires !Admit(store, key, now, windowMs, max).allowed
    requires later - store[key].windowStart <= windowMs
    ensures var s := Admit(store, key, now, windowMs, max).store;
      !Admit(s, key, later, windowMs, max).allowed
  {
  }

  /** With a maximum of 3, three requests in one window pass and the fourth
      is rejected. */
  lemma ThreeThenRejected(key: string, t1: int, t2: int, t3: int, t4: int, windowMs: int)
    requires t1 <= t2 <= t3 <= t4 <= t1 + windowMs
    ensures var d1 := Admit(map[], key, t1, windowMs, 3);
      var d2 := Admit(d1.store, key, t2, windowMs, 3);
      var d3 := Admit(d2.store, key, t3, windowMs, 3);
      var d4 := Admit(d3.store, key, t4, windowMs, 3);
      d1.allowed && d2.allowed && d3.allowed && !d4.allowed
  {
    var d1 := Admit(map[], key, t1, windowMs, 3);
    assert d1.store[key] == Entry(1, t1);
    var d2 := Admit(d1.store, key, t2, windowMs, 3);
    assert d2.store[key] == Entry(2, t1);
    var d3 := Admit(d2.store, key, t3, windowMs, 3);
    assert d3.store[key] == Entry(3, t1);
  }

  class RateLimiter {
    const windowMs: int
    const max: int
    var store: map<string, Entry>

    /** The plugin's setup: the settings default to 60000 ms and 10 requests. */
    constructor (configuredWindowMs: Option<int>, configuredMax: Option<int>)
      ensures windowMs == Setting(configuredWindowMs, DefaultWindowMs)
      ensures max == Setting(configuredMax, DefaultMax)
      ensures store == map[]
    {
      windowMs := Setting(configuredWindowMs, DefaultWindowMs);
      max := Setting(configuredMax, DefaultMax);
      store := map[];
    }

    /** The `onRequest` hook; a request that is not allowed is answered
        with status 429. */
    method OnRequest(key: string, now: int) returns (allowed: bool)
      modifies this
      ensures Decision(store, allowed) == Admit(old(store), key, now, windowMs, max)
    {
      if key !in store || now - store[key].windowStart > windowMs {
        store := store[key := Entry(1, now)];
        return true;
      }
      var cur := store[key];
      cur := cur.(count := cur.count + 1);
      store := store[key := cur];
      allowed := cur.count <= max;
    }
  }
}

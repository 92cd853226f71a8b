/** The request limiter of the HTTP layer: one sliding window per client address, in bounded memory. */
module RequestLimiter {
  import opened Optional
  import opened SlidingWindow

  // ---- the scan for the least recently seen key ----

  function LastSeen(requests: map<string, seq<int>>, k: string): int {
    if k in requests && requests[k] != [] then requests[k][|requests[k]| - 1] else 0
  }

  /** The scan's result over the keys in iteration order; "" also means "none yet". */
  function Oldest(order: seq<string>, requests: map<string, seq<int>>): string {
    if order == [] then ""
    else
      var k := order[|order| - 1];
      var best := Oldest(order[..|order| - 1], requests);
      if best == "" || LastSeen(requests, k) < LastSeen(requests, best) then k else best
  }

  ghost predicate Distinct(order: seq<string>) {
    forall i, j :: 0 <= i < j < |order| ==> order[i] != order[j]
  }

  /** Without an empty key, the scan finds a least recently seen key. */
  lemma {:induction false} OldestIsLeast(order: seq<string>, requests: map<string, seq<int>>)
    requires order != [] && "" !in order
    ensures Oldest(order, requests) in order
    ensures forall k :: k in order ==> LastSeen(requests, Oldest(order, requests)) <= LastSeen(requests, k)
  {
    var n := |order| - 1;
    var init, last := order[..n], order[n];
    if init != [] {
      OldestIsLeast(init, requests);
      var best := Oldest(init, requests);
      forall k | k in order ensures k == last || LastSeen(requests, best) <= LastSeen(requests, k) {
        if k != last {
          assert k in init;
        }
      }
    } else {
      assert order == [last];
    }
  }

  lemma {:induction false} OldestIsListed(order: seq<string>, requests: map<string, seq<int>>)
    ensures order != [] ==> Oldest(order, requests) in order
  {
    if order != [] {
      OldestIsListed(order[..|order| - 1], requests);
    }
  }

  /** The scan comes back empty-handed exactly if the empty key is visited last and was seen
      strictly earlier than every other key: the one entry that should go is the one that stays. */
  lemma ScanFindsNothing(order: seq<string>, requests: map<string, seq<int>>)
    requires order != [] && Distinct(order)
    ensures Oldest(order, requests) == "" <==>
              var last := |order| - 1;
              order[last] == "" && forall i :: 0 <= i < last ==> LastSeen(requests, "") < LastSeen(requests, order[i])
  {
    var last := |order| - 1;
    var init := order[..last];
    if order[last] == "" {
      if init != [] {
        OldestIsLeast(init, requests);
        var best := Oldest(init, requests);
        var i :| 0 <= i < last && init[i] == best;
        assert forall j :: 0 <= j < last ==> init[j] in init;
      }
    } else if Oldest(order, requests) == "" {
      OldestIsListed(init, requests);
    }
  }

  /** The empty key is visited last and was seen before every other. */
  ghost predicate NothingFound(order: seq<string>, requests: map<string, seq<int>>) {
    && order != [] && order[|order| - 1] == ""
    && forall k :: k in order && k != "" ==> LastSeen(requests, "") < LastSeen(requests, k)
  }

  /** Walks over the keys in an order of the runtime's choosing. */
  method AnyOrder(keys: set<string>) returns (order: seq<string>)
    ensures Distinct(order) && forall k :: k in order <==> k in keys
  {
    order := [];
    var rest := keys;
    while rest != {}
      invariant rest <= keys && Distinct(order)
      invariant forall k :: k in order <==> k in keys && k !in rest
    {
      var k :| k in rest;
      order, rest := order + [k], rest - {k};
    }
  }

  // ---- the limiter ----

  type Times = map<string, seq<int>>

  function Get(m: Times, k: string): seq<int> {
    if k in m then m[k] else []
  }

  /** The list summarises everything that passed, and what passed is spaced out. */
  ghost predicate Sound(list: seq<int>, passed: seq<int>, clock: int, window: int, max: nat) {
    Covers(list, passed, clock, window) && Spaced(passed, max, window)
  }

  ghost predicate KeysOk(requests: Times, history: Times, clock: int, window: int, max: nat) {
    forall k {:trigger Sound(Get(requests, k), Get(history, k), clock, window, max)} ::
      Sound(Get(requests, k), Get(history, k), clock, window, max)
  }

  lemma SoundLater(list: seq<int>, passed: seq<int>, before: int, now: int, window: int, max: nat)
    requires Sound(list, passed, before, window, max) && before <= now
    ensures Sound(list, passed, now, window, max)
  {
    CoversLater(list, passed, before, now, window);
  }

  lemma SoundPruned(list: seq<int>, passed: seq<int>, before: int, now: int, window: int, max: nat)
    requires Sound(list, passed, before, window, max) && before <= now
    ensures Recent(list, now, window) == Recent(passed, now, window)
    ensures Sound(Recent(list, now, window), passed, now, window, max)
  {
    PruneCovers(list, passed, before, now, window);
  }

  lemma SoundExtended(list: seq<int>, passed: seq<int>, now: int, window: int, max: nat)
    requires Sound(list, passed, now, window, max) && |list| < max
    ensures Sound(list + [now], passed + [now], now, window, max)
  {
    AppendKeepsSpaced(list, passed, now, max, window);
  }

  lemma KeysCleaned(requests: Times, pruned: Times, history: Times, before: int, now: int, window: int, max: nat)
    requires before <= now && KeysOk(requests, history, before, window, max)
    requires forall k :: Get(pruned, k) == Recent(Get(requests, k), now, window)
    ensures KeysOk(pruned, history, now, window, max)
  {
    forall k ensures Sound(Get(pruned, k), Get(history, k), now, window, max) {
      SoundPruned(Get(requests, k), Get(history, k), before, now, window, max);
    }
  }

  /** Time passes and one key gets a new list and history. */
  lemma KeyReplaced(requests: Times, history: Times, requests': Times, history': Times, ip: string,
                    before: int, now: int, window: int, max: nat)
    requires before <= now && KeysOk(requests, history, before, window, max)
    requires forall k :: k != ip ==> Get(requests', k) == Get(requests, k) && Get(history', k) == Get(history, k)
    requires Sound(Get(requests', ip), Get(history', ip), now, window, max)
    ensures KeysOk(requests', history', now, window, max)
  {
    forall k ensures Sound(Get(requests', k), Get(history', k), now, window, max) {
      if k != ip {
        SoundLater(Get(requests, k), Get(history, k), before, now, window, max);
      }
    }
  }

  ghost predicate AllSeenRecently(requests: Times, now: int, window: int) {
    forall k :: k in requests ==> now - LastSeen(requests, k) < window
  }

  /** The order visits every key once. */
  ghost predicate Visits(order: seq<string>, requests: Times) {
    Distinct(order) && forall k :: k in order <==> k in requests
  }

  /** Every key was seen within the window, and the scan of the keys, in this order, finds nothing. */
  ghost predicate NothingToDrop(requests: Times, order: seq<string>, now: int, window: int) {
    AllSeenRecently(requests, now, window) && Visits(order, requests) && NothingFound(order, requests)
  }

  /** The keys seen within the window. */
  function RecentKeys(requests: Times, now: int, window: int): set<string> {
    set k | k in requests && now - LastSeen(requests, k) < window
  }

  /** Why a key may go: as many keys as the table may hold were seen within the window, and of them it
      is the one seen longest ago, which an empty key can prevent.  The empty key itself never goes. */
  ghost predicate Evictable(requests: Times, k: string, now: int, window: int, maxEntries: int) {
    var recent := RecentKeys(requests, now, window);
    && 0 < maxEntries <= |recent| && k in recent && k != ""
    && ("" !in requests ==> forall other :: other in recent ==> LastSeen(requests, k) <= LastSeen(requests, other))
  }

  lemma CleanedAreRecent(requests: Times, cleaned: Times, now: int, window: int)
    requires Cleaned(requests, cleaned, now, window)
    ensures cleaned.Keys == RecentKeys(requests, now, window)
  {
  }

  /** What is left of the table after the cleanup at `now`. */
  ghost predicate Cleaned(requests: Times, cleaned: Times, now: int, window: int) {
    && cleaned.Keys <= requests.Keys
    && forall k :: k in requests ==>
         && (k in cleaned <==> now - LastSeen(requests, k) < window)
         && (k in cleaned ==> LastSeen(cleaned, k) == LastSeen(requests, k))
  }

  lemma CleanedKeys(requests: Times, cleaned: Times, history: Times, before: int, now: int, window: int, max: nat)
    requires KeysOk(requests, history, before, window, max) && cleaned.Keys <= requests.Keys
    requires forall k :: k in requests ==> requests[k] != []
    requires forall k :: k in cleaned ==> cleaned[k] != []
    requires forall k :: Get(cleaned, k) == Recent(Get(requests, k), now, window)
    ensures Cleaned(requests, cleaned, now, window) && |cleaned| <= |requests|
  {
    NotMore(cleaned.Keys, requests.Keys);
    forall k | k in requests
      ensures k in cleaned <==> now - LastSeen(requests, k) < window
      ensures k in cleaned ==> LastSeen(cleaned, k) == LastSeen(requests, k)
    {
      assert Sound(Get(requests, k), Get(history, k), before, window, max);
      ListIsAscending(requests[k], Get(history, k), before, window);
      CleanedKey(requests, cleaned, now, window, k);
    }
  }

  lemma OneMoreKey(requests: Times, ip: string, list: seq<int>)
    requires ip !in requests
    ensures |requests[ip := list]| == |requests| + 1
  {
    assert requests[ip := list].Keys == requests.Keys + {ip};
  }

  lemma ListIsAscending(list: seq<int>, passed: seq<int>, clock: int, window: int)
    requires Covers(list, passed, clock, window)
    ensures Ascending(list)
  {
    forall i, j | 0 <= i < j < |list| ensures list[i] <= list[j] {
      var k := |passed| - |list|;
      assert list[i] == passed[k + i] && list[j] == passed[k + j];
    }
  }

  lemma CleanedKey(requests: Times, cleaned: Times, now: int, window: int, k: string)
    requires k in requests && requests[k] != [] && Ascending(requests[k]) && (k in cleaned ==> cleaned[k] != [])
    requires Get(cleaned, k) == Recent(Get(requests, k), now, window)
    ensures k in cleaned <==> now - LastSeen(requests, k) < window
    ensures k in cleaned ==> LastSeen(cleaned, k) == LastSeen(requests, k)
  {
    LastDecides(requests[k], now, window);
  }

  /** A full table stays full exactly if there is nothing to drop. */
  lemma FullTable(requests: Times, cleaned: Times, order: seq<string>, now: int, window: int)
    requires Cleaned(requests, cleaned, now, window)
    requires |cleaned| == |requests| ==> Visits(order, cleaned)
    ensures |cleaned| == |requests| ==>
              cleaned.Keys == requests.Keys && (NothingFound(order, cleaned) <==> NothingToDrop(requests, order, now, window))
    ensures |cleaned| < |requests| ==> !NothingToDrop(requests, order, now, window)
    ensures AllSeenRecently(requests, now, window) ==> Visits(order, requests)
  {
    assert AllSeenRecently(requests, now, window) ==> cleaned.Keys == requests.Keys;
    if |cleaned| == |requests| {
      SameSize(cleaned.Keys, requests.Keys);
      if NothingFound(order, cleaned) {
        assert order[|order| - 1] in order;
      }
    }
  }

  lemma {:induction false} SameSize(a: set<string>, b: set<string>)
    requires a <= b && |a| == |b|
    ensures a == b
    decreases a
  {
    if x :| x in a {
      SameSize(a - {x}, b - {x});
    }
  }

  lemma KeyStored(requests: Times, history: Times, ip: string, list: seq<int>, passed: seq<int>,
                  before: int, now: int, window: int, max: nat)
    requires before <= now && KeysOk(requests, history, before, window, max) && Sound(list, passed, now, window, max)
    ensures KeysOk(requests[ip := list], history[ip := passed], now, window, max)
  {
    KeyReplaced(requests, history, requests[ip := list], history[ip := passed], ip, before, now, window, max);
  }

  lemma KeyKept(requests: Times, history: Times, ip: string, list: seq<int>, before: int, now: int, window: int, max: nat)
    requires before <= now && KeysOk(requests, history, before, window, max) && Sound(list, Get(history, ip), now, window, max)
    ensures KeysOk(requests[ip := list], history, now, window, max)
  {
    var requests' := requests[ip := list];
    forall k ensures Sound(Get(requests', k), Get(history, k), now, window, max) {
      if k != ip {
        assert Get(requests', k) == Get(requests, k);
        SoundLater(Get(requests, k), Get(history, k), before, now, window, max);
      }
    }
  }

  /** `history` holds the times of all requests let through per key, since the key was last
      evicted; `clock` is the time of the last call. */
  class GlobalRateLimiter {
    const maxRequests: nat
    const window: int
    const maxEntries: int
    var requests: Times
    ghost var history: Times
    ghost var clock: int

    ghost predicate Valid()
      reads this
    {
      && maxRequests >= 1 && window > 0
      && KeysOk(requests, history, clock, window, maxRequests)
      && (forall k :: k in requests ==> requests[k] != [])
    }

    constructor (maxRequests: int, window: int, maxEntries: int, now: int)
      ensures Valid() && requests == map[] && history == map[] && clock == now
      ensures this.maxRequests == if maxRequests < 1 then 1 else maxRequests
      ensures this.window == if window <= 0 then 60_000_000_000 else window
      ensures this.maxEntries == maxEntries
    {
      this.maxRequests := if maxRequests < 1 then 1 else maxRequests;
      this.window := if window <= 0 then 60_000_000_000 else window;
      this.maxEntries := maxEntries;
      requests, history, clock := map[], map[], now;
    }

    /** `cleanupAt`: keeps of every list what is still in the window, and no empty list. */
    method CleanupAt(now: int)
      requires Valid() && clock <= now
      modifies `requests, `clock
      ensures Valid() && clock == now
      ensures requests.Keys <= old(requests).Keys
      ensures forall k :: Get(requests, k) == Recent(Get(old(requests), k), now, window)
    {
      var rest := requests.Keys;
      while rest != {}
        invariant clock == old(clock) && rest <= requests.Keys <= old(requests).Keys
        invariant forall k :: k in rest ==> requests[k] == old(requests)[k]
        invariant forall k :: k !in rest ==> Get(requests, k) == Recent(Get(old(requests), k), now, window)
        invariant forall k :: k in requests ==> requests[k] != []
      {
        var ip :| ip in rest;
        var validRequests := Prune(requests[ip], now, window);
        requests := if |validRequests| == 0 then requests - {ip} else requests[ip := validRequests];
        rest := rest - {ip};
      }
      KeysCleaned(old(requests), requests, history, clock, now, window, maxRequests);
      clock := now;
    }

    /** The scan of `ensureCapacity`. */
    method FindOldest() returns (oldestIP: string, ghost order: seq<string>)
      requires forall k :: k in requests ==> requests[k] != []
      ensures Distinct(order) && oldestIP == Oldest(order, requests)
      ensures forall k :: k in order <==> k in requests
    {
      var keys := AnyOrder(requests.Keys);
      order := keys;
      oldestIP := "";
      var oldest := 0;
      for i := 0 to |keys|
        invariant oldestIP == Oldest(keys[..i], requests)
        invariant oldestIP != "" ==> oldest == LastSeen(requests, oldestIP)
      {
        var ip := keys[i];
        assert ip in keys;
        var lastSeen := requests[ip][|requests[ip]| - 1];
        assert keys[..i + 1][..i] == keys[..i];
        if oldestIP == "" || lastSeen < oldest {
          oldestIP, oldest := ip, lastSeen;
        }
      }
      assert keys[..|keys|] == keys;
    }

    /** `ensureCapacity`: at capacity, gives up the key the scan found, if any. */
    method EnsureCapacity() returns (evicted: Option<string>, ghost order: seq<string>)
      requires Valid()
      modifies `requests, `history
      ensures Valid()
      ensures requests == if evicted.Some? then old(requests) - {evicted.value} else old(requests)
      ensures history == if evicted.Some? then old(history) - {evicted.value} else old(history)
      ensures evicted.Some? ==> evicted.value in old(requests) && evicted.value != "" && 0 < maxEntries <= |old(requests)|
      ensures evicted.Some? && "" !in old(requests) ==>
                forall k :: k in old(requests) ==> LastSeen(old(requests), evicted.value) <= LastSeen(old(requests), k)
      ensures evicted.None? && 0 < maxEntries <= |old(requests)| ==>
                && "" in requests
                && forall k :: k in requests && k != "" ==> LastSeen(requests, "") < LastSeen(requests, k)
      ensures Distinct(order) && (0 < maxEntries <= |old(requests)| ==> forall k :: k in order <==> k in old(requests))
      ensures 0 < maxEntries <= |old(requests)| ==> (evicted.None? <==> NothingFound(order, old(requests)))
      ensures maxEntries <= 0 || |old(requests)| < maxEntries ==> evicted.None?
    {
      evicted, order := None, [];
      if maxEntries <= 0 || |requests| < maxEntries {
        return;
      }
      var oldestIP;
      oldestIP, order := FindOldest();
      WhatTheScanFound(order, requests);
      if oldestIP != "" {
        evicted := Some(oldestIP);
        requests, history := requests - {oldestIP}, history - {oldestIP};
        KeyReplaced(old(requests), old(history), requests, history, oldestIP, clock, clock, window, maxRequests);
      }
    }

    /** Stores the kept times of a key, and the new request if it passes. */
    method Store(ip: string, now: int, valid: seq<int>, allowed: bool)
      requires Valid() && clock <= now && (valid != [] || allowed)
      requires Sound(valid, Get(history, ip), now, window, maxRequests)
      requires allowed ==> |valid| < maxRequests
      modifies `requests, `history, `clock
      ensures Valid() && clock == now
      ensures requests == old(requests)[ip := valid + if allowed then [now] else []]
      ensures history == if allowed then old(history)[ip := Get(old(history), ip) + [now]] else old(history)
    {
      if allowed {
        SoundExtended(valid, Get(history, ip), now, window, maxRequests);
        KeyStored(requests, history, ip, valid + [now], Get(history, ip) + [now], clock, now, window, maxRequests);
        requests, history := requests[ip := valid + [now]], history[ip := Get(history, ip) + [now]];
      } else {
        KeyKept(requests, history, ip, valid, clock, now, window, maxRequests);
        assert valid + [] == valid;
        requests := requests[ip := valid];
      }
      clock := now;
    }

    /** At capacity, drops what is out of the window, and if that is not enough the scan's key. */
    method MakeRoom(now: int) returns (evicted: Option<string>, ghost order: seq<string>)
      requires Valid() && clock <= now
      modifies `requests, `history, `clock
      ensures Valid() && clock <= now && requests.Keys <= old(requests).Keys
      ensures history == if evicted.Some? then old(history) - {evicted.value} else old(history)
      ensures evicted.Some? ==> 0 < maxEntries <= |old(requests)| && Evictable(old(requests), evicted.value, now, window, maxEntries)
      ensures |requests| <= |old(requests)|
      ensures 0 < maxEntries && |old(requests)| <= maxEntries ==>
                (|requests| >= maxEntries <==> |old(requests)| == maxEntries && NothingToDrop(old(requests), order, now, window))
      ensures 0 < maxEntries && |old(requests)| == maxEntries && AllSeenRecently(old(requests), now, window) ==> Visits(order, old(requests))
    {
      if maxEntries > 0 && |requests| >= maxEntries {
        CleanupAt(now);
        CleanedKeys(old(requests), requests, old(history), old(clock), now, window, maxRequests);
        CleanedAreRecent(old(requests), requests, now, window);
      }
      ghost var cleaned := requests;
      evicted, order := EnsureCapacity();
      if 0 < maxEntries && |old(requests)| == maxEntries {
        FullTable(old(requests), cleaned, order, now, window);
      }
    }

    /** The window check of a key that is in the table. */
    method AllowKnown(ip: string, now: int) returns (allowed: bool)
      requires Valid() && clock <= now && ip in requests
      modifies `requests, `history, `clock
      ensures Valid() && clock == now && requests.Keys == old(requests).Keys
      ensures allowed ==> LastSeen(requests, ip) == now
      ensures allowed <==> |Recent(Get(old(history), ip), now, window)| < maxRequests
      ensures history == if allowed then old(history)[ip := Get(old(history), ip) + [now]] else old(history)
    {
      SoundPruned(Get(requests, ip), Get(history, ip), clock, now, window, maxRequests);
      var validRequests := Prune(requests[ip], now, window);
      allowed := |validRequests| < maxRequests;
      Store(ip, now, validRequests, allowed);
    }

    /** A request of a key that is not in the table always passes. */
    method AllowNew(ip: string, now: int) returns (evicted: Option<string>, ghost order: seq<string>)
      requires Valid() && clock <= now && ip !in requests
      modifies `requests, `history, `clock
      ensures Valid() && clock == now && Recent(Get(old(history), ip), now, window) == []
      ensures requests.Keys <= old(requests).Keys + {ip} && LastSeen(requests, ip) == now && ip in requests
      ensures evicted.Some? ==> evicted.value != ip && 0 < maxEntries <= |old(requests)|
      ensures evicted.Some? ==> Evictable(old(requests), evicted.value, now, window, maxEntries)
      ensures history == (if evicted.Some? then old(history) - {evicted.value} else old(history))
                           [ip := Get(old(history), ip) + [now]]
      ensures 0 < maxEntries && |old(requests)| <= maxEntries ==>
                (|requests| > maxEntries <==> |old(requests)| == maxEntries && NothingToDrop(old(requests), order, now, window))
      ensures 0 < maxEntries && |old(requests)| == maxEntries && AllSeenRecently(old(requests), now, window) ==> Visits(order, old(requests))
    {
      SoundPruned(Get(requests, ip), Get(history, ip), clock, now, window, maxRequests);
      ghost var before := requests;
      evicted, order := MakeRoom(now);
      ghost var room := requests;
      assert ip !in before && room.Keys <= before.Keys;
      Store(ip, now, [], true);
      assert [] + [now] == [now];
      OneMoreKey(room, ip, [now]);
    }

    /** `Allow`: a request passes exactly if fewer than the maximum passed within the last window,
        counted over everything that passed since the key was last evicted.  `order` is the order in
        which the scan visited the keys; the table outgrows its capacity exactly if a new key finds it
        full and nothing to drop, which takes an empty key. */
    method Allow(ip: string, now: int) returns (allowed: bool, evicted: Option<string>, ghost order: seq<string>)
      requires Valid() && clock <= now
      modifies `requests, `history, `clock
      ensures Valid() && clock == now
      ensures allowed <==> |Recent(Get(old(history), ip), now, window)| < maxRequests
      ensures Get(history, ip) == Get(old(history), ip) + if allowed then [now] else []
      ensures forall k :: k != ip ==> Get(history, k) == if evicted == Some(k) then [] else Get(old(history), k)
      ensures evicted.Some? ==> evicted.value != ip && ip !in old(requests) && 0 < maxEntries <= |old(requests)|
      ensures evicted.Some? ==> Evictable(old(requests), evicted.value, now, window, maxEntries)
      ensures ip in requests && requests.Keys <= old(requests).Keys + {ip}
      ensures allowed ==> LastSeen(requests, ip) == now
      ensures 0 < maxEntries && |old(requests)| <= maxEntries ==>
                (|requests| > maxEntries <==>
                   ip !in old(requests) && |old(requests)| == maxEntries && NothingToDrop(old(requests), order, now, window))
      ensures 0 < maxEntries && |old(requests)| == maxEntries && ip !in old(requests) && AllSeenRecently(old(requests), now, window) ==>
                Visits(order, old(requests))
      ensures 0 < maxEntries && |old(requests)| <= maxEntries && "" !in old(requests) ==> |requests| <= maxEntries
    {
      evicted, order := None, [];
      if ip !in requests {
        allowed := true;
        evicted, order := AllowNew(ip, now);
      } else {
        allowed := AllowKnown(ip, now);
        assert |requests.Keys| == |old(requests).Keys|;
      }
    }

    /** For a key never evicted, no window of the configured length contains more than the maximum
        number of passed requests. */
    lemma WindowIsBounded(k: string, start: int, i: nat)
      requires Valid() && i + maxRequests < |Get(history, k)|
      ensures !(forall j :: i <= j <= i + maxRequests ==> start <= Get(history, k)[j] < start + window)
    {
      assert Sound(Get(requests, k), Get(history, k), clock, window, maxRequests);
      NoWindowExceeds(Get(history, k), maxRequests, window, start, i);
    }
  }

  // ---- whole runs ----

  datatype Call = Call(ip: string, time: int)

  /** The keys that ever called. */
  function Ips(calls: seq<Call>): set<string> {
    set i | 0 <= i < |calls| :: calls[i].ip
  }

  /** The times at which requests of key `k` pass a limiter that remembers everything. */
  function PassedTimes(calls: seq<Call>, k: string, window: int, max: nat): seq<int> {
    if calls == [] then []
    else
      var passed := PassedTimes(calls[..|calls| - 1], k, window, max);
      var last := calls[|calls| - 1];
      if last.ip == k && |Recent(passed, last.time, window)| < max then passed + [last.time] else passed
  }

  /** Whether such a limiter lets call `i` pass. */
  predicate Passes(calls: seq<Call>, i: nat, window: int, max: nat)
    requires i < |calls|
  {
    |Recent(PassedTimes(calls[..i], calls[i].ip, window, max), calls[i].time, window)| < max
  }

  ghost predicate Remembers(history: Times, calls: seq<Call>, window: int, max: nat) {
    forall k {:trigger Get(history, k)} :: Get(history, k) == PassedTimes(calls, k, window, max)
  }

  lemma RemembersMore(before: Times, after: Times, calls: seq<Call>, n: nat, allowed: bool, window: int, max: nat)
    requires n < |calls| && Remembers(before, calls[..n], window, max)
    requires forall k :: k != calls[n].ip ==> Get(after, k) == Get(before, k)
    requires Get(after, calls[n].ip) == Get(before, calls[n].ip) + if allowed then [calls[n].time] else []
    requires allowed <==> |Recent(Get(before, calls[n].ip), calls[n].time, window)| < max
    ensures Remembers(after, calls[..n + 1], window, max) && (allowed <==> Passes(calls, n, window, max))
  {
    assert calls[..n + 1][..n] == calls[..n] && calls[..n + 1][n] == calls[n];
    forall k ensures Get(after, k) == PassedTimes(calls[..n + 1], k, window, max) {
      assert Get(before, k) == PassedTimes(calls[..n], k, window, max);
    }
  }

  lemma NoneInWindow(requests: Times, history: Times, calls: seq<Call>, clock: int, window: int, max: nat, k: string, start: int, i: int)
    requires KeysOk(requests, history, clock, window, max) && Remembers(history, calls, window, max)
    ensures !InWindow(PassedTimes(calls, k, window, max), start, window, i, max)
  {
    assert Sound(Get(requests, k), Get(history, k), clock, window, max);
    if 0 <= i && i + max < |Get(history, k)| {
      NoWindowExceeds(Get(history, k), max, window, start, i);
    }
  }

  ghost predicate NoWindowOverfull(calls: seq<Call>, window: int, max: nat) {
    forall k, start: int, i {:trigger InWindow(PassedTimes(calls, k, window, max), start, window, i, max)} ::
      !InWindow(PassedTimes(calls, k, window, max), start, window, i, max)
  }

  /** While no more different keys call than the table may hold, nothing is ever evicted: every call is
      answered as by a limiter that remembers everything, and no window of any key contains more than
      the maximum. */
  method Serve(calls: seq<Call>, maxRequests: nat, window: int, maxEntries: int) returns (answers: seq<bool>)
    requires maxRequests >= 1 && window > 0 && (maxEntries <= 0 || |Ips(calls)| <= maxEntries)
    requires forall i, j :: 0 <= i < j < |calls| ==> calls[i].time <= calls[j].time
    ensures |answers| == |calls| && forall i :: 0 <= i < |calls| ==> answers[i] == Passes(calls, i, window, maxRequests)
    ensures NoWindowOverfull(calls, window, maxRequests)
  {
    var limiter := new GlobalRateLimiter(maxRequests, window, maxEntries, if calls == [] then 0 else calls[0].time);
    answers := [];
    assert calls[..0] == [];
    for n := 0 to |calls|
      invariant limiter.Valid() && fresh(limiter) && |answers| == n
      invariant limiter.maxRequests == maxRequests && limiter.window == window && limiter.maxEntries == maxEntries
      invariant n < |calls| ==> limiter.clock <= calls[n].time
      invariant limiter.requests.Keys <= Ips(calls[..n]) && Remembers(limiter.history, calls[..n], window, maxRequests)
      invariant forall i :: 0 <= i < n ==> answers[i] == Passes(calls, i, window, maxRequests)
    {
      var allowed := ServeNext(limiter, calls, n);
      answers := answers + [allowed];
    }
    assert calls[..|calls|] == calls;
    forall k, start: int, i ensures !InWindow(PassedTimes(calls, k, window, maxRequests), start, window, i, maxRequests) {
      NoneInWindow(limiter.requests, limiter.history, calls, limiter.clock, window, maxRequests, k, start, i);
    }
  }

  method ServeNext(limiter: GlobalRateLimiter, calls: seq<Call>, n: nat) returns (allowed: bool)
    requires limiter.Valid() && n < |calls| && limiter.clock <= calls[n].time
    requires limiter.maxEntries <= 0 || |Ips(calls)| <= limiter.maxEntries
    requires limiter.requests.Keys <= Ips(calls[..n])
    requires Remembers(limiter.history, calls[..n], limiter.window, limiter.maxRequests)
    modifies limiter
    ensures limiter.Valid() && limiter.clock == calls[n].time && allowed == Passes(calls, n, limiter.window, limiter.maxRequests)
    ensures limiter.requests.Keys <= Ips(calls[..n + 1])
    ensures Remembers(limiter.history, calls[..n + 1], limiter.window, limiter.maxRequests)
  {
    ghost var before, keys := limiter.history, limiter.requests.Keys;
    ghost var evicted, order;
    allowed, evicted, order := limiter.Allow(calls[n].ip, calls[n].time);
    NothingEvicted(calls, n, keys, limiter.maxEntries, evicted);
    RemembersMore(before, limiter.history, calls, n, allowed, limiter.window, limiter.maxRequests);
  }

  /** `max + 1` consecutive requests from number `i` on fall into the window that begins at `start`. */
  ghost predicate InWindow(passed: seq<int>, start: int, window: int, i: int, max: nat) {
    0 <= i && i + max < |passed| && forall j :: i <= j <= i + max ==> start <= passed[j] < start + window
  }

  lemma NothingEvicted(calls: seq<Call>, n: nat, keys: set<string>, maxEntries: int, evicted: Option<string>)
    requires n < |calls| && keys <= Ips(calls[..n]) && (maxEntries <= 0 || |Ips(calls)| <= maxEntries)
    requires evicted.Some? ==> 0 < maxEntries <= |keys| && calls[n].ip !in keys
    ensures evicted.None? && keys + {calls[n].ip} <= Ips(calls[..n + 1])
  {
    forall k | k in keys + {calls[n].ip} ensures k in Ips(calls[..n + 1]) && k in Ips(calls) {
      if k in keys {
        var i :| 0 <= i < n && calls[..n][i].ip == k;
        assert calls[..n + 1][i].ip == k && calls[i].ip == k;
      } else {
        assert calls[..n + 1][n].ip == k;
      }
    }
    NotMore(keys + {calls[n].ip}, Ips(calls));
    if calls[n].ip !in keys {
      assert |keys + {calls[n].ip}| == |keys| + 1;
    }
  }

  lemma WhatTheScanFound(order: seq<string>, requests: Times)
    requires Distinct(order) && requests != map[] && forall k :: k in order <==> k in requests
    ensures Oldest(order, requests) in requests
    ensures Oldest(order, requests) == "" <==> NothingFound(order, requests)
    ensures Oldest(order, requests) == "" ==>
              forall k :: k in requests && k != "" ==> LastSeen(requests, "") < LastSeen(requests, k)
    ensures "" !in requests ==>
              forall k :: k in requests ==> LastSeen(requests, Oldest(order, requests)) <= LastSeen(requests, k)
  {
    var k :| k in requests;
    assert k in order;
    OldestIsListed(order, requests);
    ScanFindsNothing(order, requests);
    assert forall i :: 0 <= i < |order| ==> order[i] in order;
    if "" !in order {
      OldestIsLeast(order, requests);
    } else if Oldest(order, requests) == "" {
      ScanFindsNothing(order, requests);
      forall k | k in requests && k != "" ensures LastSeen(requests, "") < LastSeen(requests, k) {
        assert k in order;
      }
    }
  }

  lemma {:induction false} NotMore(a: set<string>, b: set<string>)
    requires a <= b
    ensures |a| <= |b|
    decreases a
  {
    if a != {} {
      var x :| x in a;
      NotMore(a - {x}, b - {x});
    }
  }

  lemma OneKey(requests: Times)
    requires "" in requests && requests.Keys <= {""}
    ensures requests.Keys == {""} && |requests| == 1
  {
    assert |{""}| == 1;
  }

  lemma OnlyEmptyKey(requests: Times, order: seq<string>)
    requires requests.Keys == {""} && Visits(order, requests)
    ensures NothingFound(order, requests)
  {
    assert "" in requests && "" in order;
    forall i | 0 <= i < |order| ensures order[i] == "" {
      assert order[i] in order;
      assert order[i] in requests.Keys;
    }
    forall k | k in order ensures k == "" {
      assert k in requests.Keys;
    }
  }

  /** A table for one key that holds the empty key: the next client makes two. */
  method EmptyKeyOverfills() returns (size: nat)
    ensures size == 2
  {
    var limiter := new GlobalRateLimiter(10, 60, 1, 0);
    var _, _, _ := limiter.Allow("", 1);
    ghost var before := limiter.requests;
    OneKey(before);
    var _, _, order := limiter.Allow("a", 2);
    OnlyEmptyKey(before, order);
    size := |limiter.requests|;
    assert limiter.requests.Keys <= {"", "a"};
    NotMore(limiter.requests.Keys, {"", "a"});
    assert |{"", "a"}| == 2;
  }
}

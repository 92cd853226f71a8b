/** The limits on provider calls per user: how many at once, and how many in any minute. */
module AttemptLimits {
  import opened SlidingWindow

  type UserId = nat
  type Handle = nat

  const MAX_CONCURRENT := 2
  const MAX_ATTEMPTS := 6
  const MINUTE := 60_000_000_000  // nanoseconds

  datatype Usage = Usage(active: int, attempts: seq<int>)

  /** The handles of the user that have not been released. */
  function Unreleased(owner: map<Handle, UserId>, released: set<Handle>, u: UserId): set<Handle> {
    set h | h in owner && owner[h] == u && h !in released
  }

  function UsageOf(users: map<UserId, Usage>, u: UserId): Usage {
    if u in users then users[u] else Usage(0, [])
  }

  function PastOf(history: map<UserId, seq<int>>, u: UserId): seq<int> {
    if u in history then history[u] else []
  }

  ghost predicate CountOk(use: Usage, open: set<Handle>) {
    use.active == |open| <= MAX_CONCURRENT
  }

  ghost predicate CountsOk(users: map<UserId, Usage>, owner: map<Handle, UserId>, released: set<Handle>) {
    forall u {:trigger CountOk(UsageOf(users, u), Unreleased(owner, released, u))} ::
      CountOk(UsageOf(users, u), Unreleased(owner, released, u))
  }

  ghost predicate WindowOk(attempts: seq<int>, past: seq<int>, clock: int) {
    Covers(attempts, past, clock, MINUTE) && Spaced(past, MAX_ATTEMPTS, MINUTE)
  }

  ghost predicate WindowsOk(users: map<UserId, Usage>, history: map<UserId, seq<int>>, clock: int) {
    forall u {:trigger WindowOk(UsageOf(users, u).attempts, PastOf(history, u), clock)} ::
      WindowOk(UsageOf(users, u).attempts, PastOf(history, u), clock)
  }

  lemma WindowPruned(attempts: seq<int>, past: seq<int>, before: int, now: int)
    requires WindowOk(attempts, past, before) && before <= now
    ensures Recent(attempts, now, MINUTE) == Recent(past, now, MINUTE)
    ensures WindowOk(Recent(attempts, now, MINUTE), past, now)
    ensures |Recent(past, now, MINUTE)| < MAX_ATTEMPTS ==> WindowOk(Recent(attempts, now, MINUTE) + [now], past + [now], now)
  {
    PruneCovers(attempts, past, before, now, MINUTE);
    if |Recent(past, now, MINUTE)| < MAX_ATTEMPTS {
      AppendKeepsSpaced(Recent(attempts, now, MINUTE), past, now, MAX_ATTEMPTS, MINUTE);
    }
  }

  /** Time passes, and the times of one user are replaced. */
  lemma OneWindowReplaced(users: map<UserId, Usage>, history: map<UserId, seq<int>>,
                          users': map<UserId, Usage>, history': map<UserId, seq<int>>, u: UserId, before: int, now: int)
    requires WindowsOk(users, history, before) && before <= now
    requires forall v :: v != u ==> UsageOf(users', v) == UsageOf(users, v) && PastOf(history', v) == PastOf(history, v)
    requires WindowOk(UsageOf(users', u).attempts, PastOf(history', u), now)
    ensures WindowsOk(users', history', now)
  {
    forall v ensures WindowOk(UsageOf(users', v).attempts, PastOf(history', v), now) {
      if v != u {
        assert WindowOk(UsageOf(users, v).attempts, PastOf(history, v), before);
        CoversLater(UsageOf(users, v).attempts, PastOf(history, v), before, now, MINUTE);
      }
    }
  }

  /** Giving a handle to `u` adds it to `u`'s and to nobody else's. */
  lemma GivenHandles(owner: map<Handle, UserId>, released: set<Handle>, u: UserId, h: Handle, v: UserId)
    requires h !in owner && h !in released
    ensures Unreleased(owner[h := u], released, v) == Unreleased(owner, released, v) + if v == u then {h} else {}
    ensures |Unreleased(owner[h := u], released, v)| == |Unreleased(owner, released, v)| + if v == u then 1 else 0
  {
    assert Unreleased(owner[h := u], released, v) == Unreleased(owner, released, v) + if v == u then {h} else {};
  }

  lemma HandleGiven(users: map<UserId, Usage>, owner: map<Handle, UserId>, released: set<Handle>, u: UserId, h: Handle,
                    users': map<UserId, Usage>)
    requires CountsOk(users, owner, released) && h !in owner && h !in released
    requires UsageOf(users, u).active < MAX_CONCURRENT && UsageOf(users', u).active == UsageOf(users, u).active + 1
    requires forall v :: v != u ==> UsageOf(users', v) == UsageOf(users, v)
    ensures CountsOk(users', owner[h := u], released)
  {
    forall v ensures CountOk(UsageOf(users', v), Unreleased(owner[h := u], released, v)) {
      assert CountOk(UsageOf(users, v), Unreleased(owner, released, v));
      GivenHandles(owner, released, u, h, v);
    }
  }

  lemma HandleReturned(users: map<UserId, Usage>, owner: map<Handle, UserId>, released: set<Handle>, h: Handle,
                       users': map<UserId, Usage>)
    requires CountsOk(users, owner, released) && h in owner && h !in released
    requires UsageOf(users', owner[h]).active == UsageOf(users, owner[h]).active - 1
    requires forall v :: v != owner[h] ==> UsageOf(users', v) == UsageOf(users, v)
    ensures CountsOk(users', owner, released + {h})
  {
    forall v ensures CountOk(UsageOf(users', v), Unreleased(owner, released + {h}, v)) {
      assert CountOk(UsageOf(users, v), Unreleased(owner, released, v));
      assert Unreleased(owner, released + {h}, v) == Unreleased(owner, released, v) - {h};
    }
  }

  /** `owner` has every handle ever given out; `history` the times at which they were. */
  class GenerationLimits {
    var users: map<UserId, Usage>
    var owner: map<Handle, UserId>
    var released: set<Handle>  // handles whose closure has run
    var next: Handle
    ghost var history: map<UserId, seq<int>>
    ghost var clock: int

    ghost function Open(u: UserId): set<Handle>
      reads this
    {
      Unreleased(owner, released, u)
    }

    ghost predicate Valid()
      reads this
    {
      && (forall h :: h in owner ==> h < next) && released <= owner.Keys
      && CountsOk(users, owner, released) && WindowsOk(users, history, clock)
    }

    constructor (now: int)
      ensures Valid() && history == map[] && owner == map[] && clock == now
    {
      users, owner, released, next, history, clock := map[], map[], {}, 0, map[], now;
    }

    /** Writes the kept attempts of a user back. */
    method Refuse(u: UserId, now: int, current: seq<int>)
      requires Valid() && clock <= now && WindowOk(current, PastOf(history, u), now)
      modifies `users, `clock
      ensures Valid() && clock == now
    {
      users := users[u := UsageOf(users, u).(attempts := current)];
      SameCounts(old(users), owner, released, users);
      OneWindowReplaced(old(users), history, users, history, u, clock, now);
      clock := now;
    }

    /** Writes the kept attempts back with one more, and gives out a handle. */
    method Grant(u: UserId, now: int, current: seq<int>) returns (handle: Handle)
      requires Valid() && clock <= now && |Open(u)| < MAX_CONCURRENT
      requires WindowOk(current + [now], PastOf(history, u) + [now], now)
      modifies this
      ensures Valid() && clock == now && released == old(released)
      ensures handle !in old(owner) && handle !in released && owner == old(owner)[handle := u]
      ensures history == old(history)[u := PastOf(old(history), u) + [now]]
    {
      assert CountOk(UsageOf(users, u), Open(u));
      handle := next;
      users := users[u := Usage(UsageOf(users, u).active + 1, current + [now])];
      history := history[u := PastOf(history, u) + [now]];
      HandleGiven(old(users), owner, released, u, handle, users);
      OneWindowReplaced(old(users), old(history), users, history, u, clock, now);
      owner, next, clock := owner[handle := u], next + 1, now;
    }

    /** Drops the attempts older than a minute and decides. */
    method Judge(u: UserId, now: int) returns (ok: bool, current: seq<int>)
      requires Valid() && clock <= now
      ensures ok <==> && |Open(u)| < MAX_CONCURRENT
                      && |Recent(PastOf(history, u), now, MINUTE)| < MAX_ATTEMPTS
      ensures if ok then WindowOk(current + [now], PastOf(history, u) + [now], now)
              else WindowOk(current, PastOf(history, u), now)
    {
      var usage := UsageOf(users, u);
      assert CountOk(usage, Open(u));
      WindowPruned(usage.attempts, PastOf(history, u), clock, now);
      current := Prune(usage.attempts, now, MINUTE);
      ok := !(usage.active >= MAX_CONCURRENT || |current| >= MAX_ATTEMPTS);
    }

    /** `acquire`: an attempt is allowed exactly if the user has fewer than two unreleased handles
        and made fewer than six attempts within the last minute. */
    method Acquire(u: UserId, now: int) returns (ok: bool, handle: Handle)
      requires Valid() && clock <= now
      modifies this
      ensures Valid() && clock == now && released == old(released)
      ensures ok <==> && |old(Open(u))| < MAX_CONCURRENT
                      && |Recent(PastOf(old(history), u), now, MINUTE)| < MAX_ATTEMPTS
      ensures ok ==> handle !in old(owner) && handle !in released && owner == old(owner)[handle := u]
                     && history == old(history)[u := PastOf(old(history), u) + [now]]
      ensures !ok ==> owner == old(owner) && history == old(history)
    {
      var current;
      ok, current := Judge(u, now);
      handle := next;
      if ok {
        handle := Grant(u, now, current);
      } else {
        Refuse(u, now, current);
      }
    }

    /** The closure returned by `acquire`: the first call gives the slot back, later ones nothing. */
    method Release(handle: Handle)
      requires Valid() && handle in owner
      modifies `users, `released
      ensures Valid() && released == old(released) + {handle}
      ensures handle in old(released) ==> users == old(users)
      ensures forall v :: UsageOf(users, v).attempts == UsageOf(old(users), v).attempts
    {
      if handle !in released {
        var u := owner[handle];
        users := users[u := UsageOf(users, u).(active := UsageOf(users, u).active - 1)];
        HandleReturned(old(users), owner, released, handle, users);
        released := released + {handle};
        assert WindowOk(UsageOf(old(users), u).attempts, PastOf(history, u), clock);
        OneWindowReplaced(old(users), history, users, history, u, clock, clock);
      }
    }

    /** At any time a user's count is the number of its unreleased handles, and no minute of its
        past contains more than six attempts. */
    lemma LimitsHold(u: UserId, start: int, i: nat)
      requires Valid()
      ensures UsageOf(users, u).active == |Open(u)| <= 2
      ensures i + 6 < |PastOf(history, u)| ==>
                !(forall j :: i <= j <= i + 6 ==> start <= PastOf(history, u)[j] < start + MINUTE)
    {
      assert CountOk(UsageOf(users, u), Open(u));
      assert WindowOk(UsageOf(users, u).attempts, PastOf(history, u), clock);
      if i + 6 < |PastOf(history, u)| {
        NoWindowExceeds(PastOf(history, u), 6, MINUTE, start, i);
      }
    }
  }

  lemma SameCounts(users: map<UserId, Usage>, owner: map<Handle, UserId>, released: set<Handle>,
                   users': map<UserId, Usage>)
    requires CountsOk(users, owner, released)
    requires forall v :: UsageOf(users', v).active == UsageOf(users, v).active
    ensures CountsOk(users', owner, released)
  {
    forall v ensures CountOk(UsageOf(users', v), Unreleased(owner, released, v)) {
      assert CountOk(UsageOf(users, v), Unreleased(owner, released, v));
    }
  }
}

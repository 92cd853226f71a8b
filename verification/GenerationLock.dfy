/**
 The keyed, reference-counted lock around report generation, and the cache lookup it protects,
 under every interleaving of the atomic steps of any number of requests.
 */
module GenerationLock {
  type Thread = nat
  type Entry = nat
  type Key = nat

  /** Where a request is with respect to the lock of `key`, which it registered for at `entry`. */
  datatype Phase = Waiting(key: Key, entry: Entry) | Holding(key: Key, entry: Entry) | Releasing(key: Key, entry: Entry)

  /** `holder` maps a locked entry's mutex to its owner; entries from `next` on are not allocated. */
  datatype Table = Table(entries: map<Key, Entry>, refs: map<Entry, int>, holder: map<Entry, Thread>,
                         phase: map<Thread, Phase>, next: Entry)

  // ---- the lock table ----

  function Registered(s: Table, t: Thread, key: Key): Table
    requires t !in s.phase && (key in s.entries ==> s.entries[key] in s.refs)
  {
    var e := if key in s.entries then s.entries[key] else s.next;
    Table(s.entries[key := e], s.refs[e := if key in s.entries then s.refs[e] + 1 else 1], s.holder,
          s.phase[t := Waiting(key, e)], if key in s.entries then s.next else s.next + 1)
  }

  predicate CanAcquire(s: Table, t: Thread) {
    t in s.phase && s.phase[t].Waiting? && s.phase[t].entry !in s.holder
  }

  function Acquired(s: Table, t: Thread): Table
    requires CanAcquire(s, t)
  {
    var p := s.phase[t];
    s.(holder := s.holder[p.entry := t], phase := s.phase[t := Holding(p.key, p.entry)])
  }

  predicate Holds(s: Table, t: Thread) {
    t in s.phase && s.phase[t].Holding?
  }

  function Released(s: Table, t: Thread): Table
    requires Holds(s, t)
  {
    var p := s.phase[t];
    s.(holder := s.holder - {p.entry}, phase := s.phase[t := Releasing(p.key, p.entry)])
  }

  predicate CanUnregister(s: Table, t: Thread) {
    t in s.phase && s.phase[t].Releasing? && s.phase[t].entry in s.refs
  }

  function Unregistered(s: Table, t: Thread): Table
    requires CanUnregister(s, t)
  {
    var p := s.phase[t];
    var count := s.refs[p.entry] - 1;
    var gone := count == 0 && p.key in s.entries && s.entries[p.key] == p.entry;
    s.(entries := if gone then s.entries - {p.key} else s.entries,
       refs := s.refs[p.entry := count], phase := s.phase - {t})
  }

  /** The requests between registering with the entry and unregistering from it. */
  function Users(phase: map<Thread, Phase>, e: Entry): set<Thread> {
    set t | t in phase && phase[t].entry == e
  }

  ghost predicate Counted(s: Table, key: Key)
    requires key in s.entries
  {
    var e := s.entries[key];
    e in s.refs && s.refs[e] == |Users(s.phase, e)| && Users(s.phase, e) != {}
  }

  ghost predicate CountsOk(s: Table) {
    forall key {:trigger Counted(s, key)} :: key in s.entries ==> Counted(s, key)
  }

  /** Every key has an entry of its own, allocated earlier. */
  ghost predicate EntriesOk(s: Table) {
    && (forall key :: key in s.entries ==> s.entries[key] < s.next)
    && (forall k1, k2 :: k1 in s.entries && k2 in s.entries && s.entries[k1] == s.entries[k2] ==> k1 == k2)
  }

  ghost predicate ThreadOk(s: Table, t: Thread)
    requires t in s.phase
  {
    var p := s.phase[t];
    && p.key in s.entries && s.entries[p.key] == p.entry
    && (p.Holding? <==> p.entry in s.holder && s.holder[p.entry] == t)
  }

  ghost predicate ThreadsOk(s: Table) {
    && (forall t {:trigger ThreadOk(s, t)} :: t in s.phase ==> ThreadOk(s, t))
    && (forall e :: e in s.holder ==> s.holder[e] in s.phase && s.phase[s.holder[e]].entry == e)
  }

  ghost predicate Inv(s: Table) {
    CountsOk(s) && EntriesOk(s) && ThreadsOk(s)
  }

  /** Whatever entries were deleted and created again meanwhile, no two requests hold one key. */
  lemma OneHolderPerKey(s: Table, t1: Thread, t2: Thread)
    requires Inv(s) && Holds(s, t1) && Holds(s, t2) && s.phase[t1].key == s.phase[t2].key
    ensures t1 == t2
  {
    assert ThreadOk(s, t1) && ThreadOk(s, t2);
  }

  /** The map holds an entry for exactly the keys in use, and its count is the number of users. */
  lemma EntryIffUsed(s: Table, key: Key)
    requires Inv(s)
    ensures key in s.entries <==> exists t :: t in s.phase && s.phase[t].key == key
    ensures key in s.entries ==>
              var e := s.entries[key];
              e in s.refs && s.refs[e] == |set t | t in s.phase && s.phase[t].key == key| > 0
  {
    forall t | t in s.phase
      ensures s.phase[t].key in s.entries
      ensures key in s.entries ==> (s.phase[t].entry == s.entries[key] <==> s.phase[t].key == key)
    {
      assert ThreadOk(s, t);
    }
    if key in s.entries {
      assert Counted(s, key);
      var byKey := set t | t in s.phase && s.phase[t].key == key;
      assert byKey == Users(s.phase, s.entries[key]);
      var t :| t in byKey;
    }
  }

  /** A request that registered can always go on once the key's holder has released it. */
  lemma WaiterIsGranted(s: Table, t: Thread)
    requires Inv(s) && t in s.phase && s.phase[t].Waiting?
    ensures CanAcquire(s, t) <==> forall u :: Holds(s, u) ==> s.phase[u].key != s.phase[t].key
  {
    assert ThreadOk(s, t);
    forall u | Holds(s, u) ensures s.phase[u].key == s.phase[t].key <==> s.phase[u].entry == s.phase[t].entry {
      assert ThreadOk(s, u);
    }
    var e := s.phase[t].entry;
    if e in s.holder {
      assert ThreadOk(s, s.holder[e]);
    }
    forall u | Holds(s, u) && s.phase[u].key == s.phase[t].key ensures e in s.holder {
      assert ThreadOk(s, u);
    }
  }

  lemma EntryTellsKey(s: Table, t: Thread, key: Key)
    requires EntriesOk(s) && ThreadsOk(s) && t in s.phase
    ensures s.phase[t].entry < s.next
    ensures key in s.entries ==> (s.phase[t].entry == s.entries[key] <==> s.phase[t].key == key)
  {
    assert ThreadOk(s, t);
  }

  lemma RegisterKeepsThreads(s: Table, t: Thread, key: Key)
    requires EntriesOk(s) && ThreadsOk(s) && t !in s.phase && (key in s.entries ==> s.entries[key] in s.refs)
    ensures EntriesOk(Registered(s, t, key)) && ThreadsOk(Registered(s, t, key))
  {
    var s' := Registered(s, t, key);
    forall u | u in s'.phase ensures ThreadOk(s', u) {
      if u != t {
        assert ThreadOk(s, u);
      }
    }
  }

  /** A new entry has no users yet. */
  lemma FreshEntryUnused(s: Table)
    requires EntriesOk(s) && ThreadsOk(s)
    ensures Users(s.phase, s.next) == {}
  {
    forall u | u in s.phase ensures s.phase[u].entry != s.next {
      assert ThreadOk(s, u);
    }
  }

  /** One more request at an entry is one more user of it. */
  lemma OneMoreUser(phase: map<Thread, Phase>, t: Thread, p: Phase)
    requires t !in phase
    ensures Users(phase[t := p], p.entry) == Users(phase, p.entry) + {t}
    ensures |Users(phase[t := p], p.entry)| == |Users(phase, p.entry)| + 1
  {
    assert Users(phase[t := p], p.entry) == Users(phase, p.entry) + {t};
  }

  lemma RegisterCounts(s: Table, t: Thread, key: Key)
    requires Inv(s) && t !in s.phase && (key in s.entries ==> s.entries[key] in s.refs)
    ensures Counted(Registered(s, t, key), key)
  {
    var e := if key in s.entries then s.entries[key] else s.next;
    OneMoreUser(s.phase, t, Waiting(key, e));
    if key in s.entries {
      assert Counted(s, key);
    } else {
      FreshEntryUnused(s);
    }
  }

  lemma RegisterKeepsOtherCounts(s: Table, t: Thread, key: Key, k: Key)
    requires Inv(s) && t !in s.phase && (key in s.entries ==> s.entries[key] in s.refs)
    requires k in s.entries && k != key
    ensures Counted(Registered(s, t, key), k)
  {
    var s' := Registered(s, t, key);
    var e, e' := s.entries[k], s'.entries[key];
    assert Counted(s, k) && e != e';
    assert s'.entries[k] == e && s'.refs[e] == s.refs[e];
    assert Users(s'.phase, e) == Users(s.phase, e);
  }

  lemma RegisterKeepsCounts(s: Table, t: Thread, key: Key)
    requires Inv(s) && t !in s.phase && (key in s.entries ==> s.entries[key] in s.refs)
    ensures CountsOk(Registered(s, t, key))
  {
    var s' := Registered(s, t, key);
    forall k | k in s'.entries ensures Counted(s', k) {
      if k == key {
        RegisterCounts(s, t, key);
      } else {
        RegisterKeepsOtherCounts(s, t, key, k);
      }
    }
  }

  /** Locking and unlocking leave the entries and their users as they are. */
  lemma SameUsersKeepCounts(s: Table, s': Table)
    requires CountsOk(s) && s'.entries == s.entries && s'.refs == s.refs && s'.phase.Keys == s.phase.Keys
    requires forall u :: u in s.phase ==> s'.phase[u].entry == s.phase[u].entry
    ensures CountsOk(s')
  {
    forall k | k in s'.entries ensures Counted(s', k) {
      assert Counted(s, k);
      assert Users(s'.phase, s.entries[k]) == Users(s.phase, s.entries[k]);
    }
  }

  lemma AcquireKeepsInv(s: Table, t: Thread)
    requires Inv(s) && CanAcquire(s, t)
    ensures Inv(Acquired(s, t))
  {
    var s' := Acquired(s, t);
    SameUsersKeepCounts(s, s');
    forall u | u in s'.phase ensures ThreadOk(s', u) {
      assert ThreadOk(s, u);
    }
  }

  lemma ReleaseKeepsInv(s: Table, t: Thread)
    requires Inv(s) && Holds(s, t)
    ensures Inv(Released(s, t))
  {
    var s' := Released(s, t);
    SameUsersKeepCounts(s, s');
    assert ThreadOk(s, t);
    forall u | u in s'.phase ensures ThreadOk(s', u) {
      assert ThreadOk(s, u);
    }
  }

  /** The test that the map still holds this very entry never fails. */
  lemma UnregisterKeepsCounts(s: Table, t: Thread)
    requires Inv(s) && t in s.phase && s.phase[t].Releasing?
    ensures CanUnregister(s, t) && s.phase[t].key in s.entries && s.entries[s.phase[t].key] == s.phase[t].entry
    ensures CountsOk(Unregistered(s, t))
    ensures s.refs[s.phase[t].entry] == 1 <==> forall u :: u in s.phase && s.phase[u].key == s.phase[t].key ==> u == t
  {
    var p := s.phase[t];
    assert ThreadOk(s, t) && Counted(s, p.key);
    var s' := Unregistered(s, t);
    var rest := Users(s'.phase, p.entry);
    assert rest == Users(s.phase, p.entry) - {t};
    forall k | k in s'.entries ensures Counted(s', k) {
      assert Counted(s, k);
      assert k != p.key ==> Users(s'.phase, s.entries[k]) == Users(s.phase, s.entries[k]);
    }
    forall u | u in s.phase && u != t ensures u in rest <==> s.phase[u].key == p.key {
      EntryTellsKey(s, u, p.key);
    }
    if rest != {} {
      var u :| u in rest;
    }
  }

  lemma UnregisterKeepsThreads(s: Table, t: Thread)
    requires Inv(s) && CanUnregister(s, t)
    requires s.refs[s.phase[t].entry] == 1 ==> forall u :: u in s.phase && s.phase[u].key == s.phase[t].key ==> u == t
    ensures EntriesOk(Unregistered(s, t)) && ThreadsOk(Unregistered(s, t))
  {
    var s' := Unregistered(s, t);
    forall u | u in s'.phase ensures ThreadOk(s', u) {
      assert ThreadOk(s, u);
    }
    forall e | e in s'.holder ensures s'.holder[e] in s'.phase && s'.phase[s'.holder[e]].entry == e {
      assert ThreadOk(s, s.holder[e]);
    }
  }

  /** The process-wide table.  Each method is one atomic step of one request: `Register` and
      `Unregister` run under the table's own mutex, `Acquire` and `Release` on the entry's. */
  class LockTable {
    var entries: map<Key, Entry>
    var refs: map<Entry, int>
    var holder: map<Entry, Thread>
    var phase: map<Thread, Phase>
    var next: Entry

    ghost function Now(): Table
      reads this
    {
      Table(entries, refs, holder, phase, next)
    }

    constructor ()
      ensures Inv(Now()) && phase == map[]
    {
      entries, refs, holder, phase, next := map[], map[], map[], map[], 0;
    }

    method Register(t: Thread, key: Key)
      requires Inv(Now()) && t !in phase
      modifies this
      ensures Inv(Now()) && (old(key in entries) ==> old(entries[key] in refs))
      ensures Now() == Registered(old(Now()), t, key)
    {
      ghost var before := Now();
      assert key in entries ==> Counted(before, key);
      if key !in entries {
        entries, refs, next := entries[key := next], refs[next := 0], next + 1;
      }
      var e := entries[key];
      refs := refs[e := refs[e] + 1];
      phase := phase[t := Waiting(key, e)];
      assert key in before.entries ==> entries == before.entries[key := e];
      assert Now() == Registered(before, t, key);
      RegisterKeepsCounts(before, t, key);
      RegisterKeepsThreads(before, t, key);
    }

    method Acquire(t: Thread) returns (granted: bool)
      requires Inv(Now()) && t in phase && phase[t].Waiting?
      modifies `holder, `phase
      ensures Inv(Now()) && (granted <==> old(CanAcquire(Now(), t)))
      ensures Now() == if granted then Acquired(old(Now()), t) else old(Now())
    {
      var p := phase[t];
      granted := p.entry !in holder;
      if granted {
        AcquireKeepsInv(Now(), t);
        holder, phase := holder[p.entry := t], phase[t := Holding(p.key, p.entry)];
      }
    }

    method Release(t: Thread)
      requires Inv(Now()) && Holds(Now(), t)
      modifies `holder, `phase
      ensures Inv(Now()) && Now() == Released(old(Now()), t)
    {
      ReleaseKeepsInv(Now(), t);
      var p := phase[t];
      holder, phase := holder - {p.entry}, phase[t := Releasing(p.key, p.entry)];
    }

    method Unregister(t: Thread)
      requires Inv(Now()) && t in phase && phase[t].Releasing?
      modifies `entries, `refs, `phase
      ensures Inv(Now()) && old(CanUnregister(Now(), t)) && Now() == Unregistered(old(Now()), t)
    {
      UnregisterKeepsCounts(Now(), t);
      UnregisterKeepsThreads(Now(), t);
      var p := phase[t];
      refs := refs[p.entry := refs[p.entry] - 1];
      if refs[p.entry] == 0 && p.key in entries && entries[p.key] == p.entry {
        entries := entries - {p.key};
      }
      phase := phase - {t};
    }
  }
}

/**
 What must hold at every instant of a restore, and what recovery makes of a directory table.
 */
module AttachmentSafety {
  import opened AttachmentDisk
  import opened AttachmentRoot
  import opened AttachmentStaging
  import opened AttachmentRestore

  // ---- what a restore may leave behind at any instant ----

  /** The active directory of `u` is what it was, in every table made since `d`. */
  ghost predicate ActiveUntouched(d: Disk, s: Disk, u: User)
    requires d.views != [] && s.views != []
  {
    && (forall t :: t in s.views ==> t in d.views || SameActive(d.Root(), t, u))
    && SameActive(d.Root(), s.Root(), u)
    && (forall id :: id in d.trees ==> id in s.trees && s.trees[id] == d.trees[id])
  }

  ghost predicate SameActive(t: Table, t': Table, u: User) {
    (Active(u) in t <==> Active(u) in t') && (Active(u) in t ==> t[Active(u)] == t'[Active(u)])
  }

  /** The tree that was active at `d` is intact, in place or displaced, in every table made since. */
  ghost predicate OldTreeStands(d: Disk, s: Disk, u: User, g: Generation)
    requires d.views != []
  {
    Active(u) in d.Root() ==>
      var id := d.Root()[Active(u)];
      && id in d.trees && id in s.trees && s.trees[id] == d.trees[id]
      && forall t :: t in s.views ==>
           || t in d.views
           || (Active(u) in t && t[Active(u)] == id)
           || (Previous(u, g) in t && t[Previous(u, g)] == id)
  }

  ghost predicate StillOld(d: Disk, s: Disk, u: User)
    requires d.views != [] && s.views != []
  {
    s.rows == d.rows && s.markers == d.markers && ActiveUntouched(d, s, u)
  }

  ghost predicate NowNew(d: Disk, s: Disk, u: User, rows: int, files: map<string, string>)
    requires d.views != []
  {
    && s.rows == d.rows[u := rows]
    && u in s.markers && s.markers == d.markers[u := s.markers[u]]
    && s.markers[u].gen >= d.next && s.markers[u].files == files && !s.markers[u].edited
    && (DurablyActive(s, u) || OldTreeStands(d, s, u, s.markers[u].gen))
  }

  /** Rows and attachments are both old or both new, whichever instant a crash picks. */
  ghost predicate RestoreSafe(d: Disk, s: Disk, u: User, rows: int, files: map<string, string>) {
    && d.views != [] && s.views != []
    && Touches(d, s, u)
    && (StillOld(d, s, u) || NowNew(d, s, u, rows, files))
  }

  lemma StagingIsSafe(d: Disk, s: Disk, u: User, rows: int, files: map<string, string>)
    requires Inv(d) && Staging(d, s, u)
    ensures Touches(d, s, u) && StillOld(d, s, u) && RestoreSafe(d, s, u, rows, files)
    ensures u in d.markers && DurablyActive(d, u) ==> DurablyActive(s, u)
  {
    assert TableOk(d, d.Root());
    if u in d.markers && DurablyActive(d, u) {
      var m := d.markers[u];
      assert MarkerOk(d, u, m) && d.Root() in d.views && InPlace(d.Root(), u, m);
      forall t | t in s.views ensures InPlace(t, u, m) {
        if t !in d.views { assert BesideStages(d.Root(), t, u, d.next); }
      }
    }
  }

  lemma CommitTouches(d: Disk, p: Disk, u: User, rows: int, m: Marker)
    requires Touches(d, p, u)
    ensures Touches(d, Committed(p, u, rows, m), u)
  {
  }

  lemma ActivatingTouches(d: Disk, p: Disk, s: Disk, u: User, rows: int, m: Marker)
    requires Inv(d) && Staging(d, p, u)
    requires Inv(Committed(p, u, rows, m)) && Activating(Committed(p, u, rows, m), s, u)
    ensures Touches(d, s, u)
  {
    var c := Committed(p, u, rows, m);
    StagingIsSafe(d, p, u, rows, m.files);
    CommitTouches(d, p, u, rows, m);
    assert TableOk(d, d.Root()) && TableOk(c, c.Root());
    TouchesTransitive(d, c, s, u);
  }

  lemma ActivatingKeepsOldTree(d: Disk, p: Disk, s: Disk, u: User, rows: int, m: Marker)
    requires Inv(d) && Staging(d, p, u) && p.views == [p.Root()]
    requires OldOrNew(Committed(p, u, rows, m), s, u) && !DurablyActive(s, u)
    ensures OldTreeStands(d, s, u, m.gen)
  {
    var c := Committed(p, u, rows, m);
    assert c.views == p.views;
    if Active(u) in d.Root() {
      var id := d.Root()[Active(u)];
      assert TableOk(d, d.Root());
      assert BesideStages(d.Root(), p.Root(), u, d.next);
      assert p.Root()[Active(u)] == id;
      assert Displaceable(c, u, id);
      assert Displaceable(s, u, id) && s.trees[id] == c.trees[id] == d.trees[id];
    }
  }

  /** After the commit every state of an activation is safe. */
  lemma ActivatingIsSafe(d: Disk, p: Disk, s: Disk, u: User, rows: int, m: Marker)
    requires Inv(d) && Staging(d, p, u) && p.views == [p.Root()]
    requires m.gen >= d.next && !m.edited
    requires Inv(Committed(p, u, rows, m)) && Activating(Committed(p, u, rows, m), s, u)
    ensures RestoreSafe(d, s, u, rows, m.files) && NowNew(d, s, u, rows, m.files)
  {
    ActivatingTouches(d, p, s, u, rows, m);
    if !DurablyActive(s, u) {
      ActivatingKeepsOldTree(d, p, s, u, rows, m);
    }
  }

  /** Every state of the journal is safe with respect to the state `d` the restore began in. */
  ghost predicate AllSafe(journal: seq<Disk>, d: Disk, u: User, rows: int, files: map<string, string>) {
    forall i :: 0 <= i < |journal| ==> RestoreSafe(d, journal[i], u, rows, files)
  }

  lemma RecordedIsSafe(d: Disk, j: seq<Disk>, k: seq<Disk>, u: User, rows: int, files: map<string, string>)
    requires Inv(d) && AllSafe(j, d, u, rows, files) && Recorded(j, k, d, u)
    ensures AllSafe(k, d, u, rows, files)
  {
    forall i | 0 <= i < |k| ensures RestoreSafe(d, k[i], u, rows, files) {
      if i < |j| { assert k[i] == j[i]; } else { StagingIsSafe(d, k[i], u, rows, files); }
    }
  }

  lemma ProgressIsSafe(d: Disk, p: Disk, j: seq<Disk>, k: seq<Disk>, u: User, rows: int, m: Marker)
    requires Inv(d) && Staging(d, p, u) && p.views == [p.Root()]
    requires m.gen >= d.next && !m.edited && Inv(Committed(p, u, rows, m))
    requires j != [] && j[|j| - 1] == Committed(p, u, rows, m) && Progress(j, k, u)
    requires AllSafe(j[..|j| - 1], d, u, rows, m.files)
    ensures AllSafe(k, d, u, rows, m.files)
    ensures NowNew(d, k[|k| - 1], u, rows, m.files)
  {
    forall i | 0 <= i < |k| ensures RestoreSafe(d, k[i], u, rows, m.files) {
      if i < |j| - 1 {
        assert k[i] == j[i] == j[..|j| - 1][i];
      } else {
        ActivatingIsSafe(d, p, k[i], u, rows, m);
      }
    }
    ActivatingIsSafe(d, p, k[|k| - 1], u, rows, m);
  }

  /** Everyone who is not pending has the tree of the marker durably active. */
  ghost predicate ServedOn(d: Disk, pending: set<User>) {
    forall u :: u in d.markers && u !in pending ==> DurablyActive(d, u)
  }

  lemma StagingServed(d: Disk, s: Disk, u: User, pending: set<User>)
    requires Inv(d) && Staging(d, s, u) && ServedOn(d, pending)
    ensures ServedOn(s, pending)
  {
    StagingIsSafe(d, s, u, 0, map[]);
    forall v | v in s.markers && v !in pending ensures DurablyActive(s, v) {
      if v != u { OthersStayActive(d, s, u, v); }
    }
  }

  lemma RestoredServed(d: Disk, s: Disk, u: User, pending: set<User>, pending': set<User>)
    requires Touches(d, s, u) && ServedOn(d, pending)
    requires pending <= pending' + {u}
    requires u in s.markers && u !in pending' ==> DurablyActive(s, u)
    ensures ServedOn(s, pending')
  {
    forall v | v in s.markers && v !in pending' ensures DurablyActive(s, v) {
      if v != u {
        assert v !in pending;
        OthersStayActive(d, s, u, v);
      }
    }
  }

  /** What holds when the work after a commit ends, with the files in place or with the user marked
      as waiting for recovery. */
  lemma CommitOutcome(d: Disk, p: Disk, j: seq<Disk>, k: seq<Disk>, u: User, rows: int, m: Marker,
                      pending: set<User>, pending': set<User>, ok: bool)
    requires Inv(d) && Staging(d, p, u) && p.views == [p.Root()]
    requires m.gen >= d.next && !m.edited && Inv(Committed(p, u, rows, m))
    requires j != [] && j[|j| - 1] == Committed(p, u, rows, m) && Progress(j, k, u)
    requires AllSafe(j[..|j| - 1], d, u, rows, m.files)
    requires Inv(k[|k| - 1]) && ServedOn(d, pending)
    requires pending' == if ok then pending - {u} else pending + {u}
    requires ok ==> DurablyActive(k[|k| - 1], u)
    ensures AllSafe(k, d, u, rows, m.files)
    ensures NowNew(d, k[|k| - 1], u, rows, m.files)
    ensures ServedOn(k[|k| - 1], pending')
    ensures ok ==> Complete(k[|k| - 1], k[|k| - 1].markers[u])
  {
    var s := k[|k| - 1];
    ProgressIsSafe(d, p, j, k, u, rows, m);
    assert RestoreSafe(d, k[|k| - 1], u, rows, m.files);
    assert MarkerOk(s, u, s.markers[u]);
    RestoredServed(d, s, u, pending, pending');
  }

  // ---- recovery as a function of the directory table ----

  function ActiveNames(users: set<User>): (names: set<Name>)
    ensures forall n :: n in names <==> n.Active? && n.user in users
  {
    set u | u in users :: Active(u)
  }

  /** The table once the users of `done` have been recovered. */
  function PartlySettled(t: Table, markers: map<User, Marker>, done: set<User>): Table
    requires done <= markers.Keys
  {
    map n | n in t.Keys + ActiveNames(done)
            && !(!n.Active? && n.user in done && n.gen == markers[n.user].gen)
      :: if n.Active? && n.user in done then markers[n.user].tree else t[n]
  }

  /** The table recovery aims at: every marked tree active, what it displaced and every other
      stage gone, everything else where it was. */
  function Recovered(t: Table, markers: map<User, Marker>): Table {
    var settled := PartlySettled(t, markers, markers.Keys);
    map n | n in settled && !n.Stage? :: settled[n]
  }

  lemma SettleOneMoreAt(t: Table, markers: map<User, Marker>, done: set<User>, u: User, n: Name)
    requires done <= markers.Keys && u in markers
    ensures var l := Settled(PartlySettled(t, markers, done), u, markers[u]);
            var r := PartlySettled(t, markers, done + {u});
            (n in l <==> n in r) && (n in l ==> l[n] == r[n])
  {
    var p := PartlySettled(t, markers, done);
    var l := Settled(p, u, markers[u]);
    assert n in l <==> (n in p || n == Active(u)) && n != Stage(u, markers[u].gen) && n != Previous(u, markers[u].gen);
    match n
    case Active(v) =>
    case Stage(v, g) =>
    case Previous(v, g) =>
  }

  lemma SettleOneMore(t: Table, markers: map<User, Marker>, done: set<User>, u: User)
    requires done <= markers.Keys && u in markers
    ensures Settled(PartlySettled(t, markers, done), u, markers[u]) == PartlySettled(t, markers, done + {u})
  {
    var l := Settled(PartlySettled(t, markers, done), u, markers[u]);
    var r := PartlySettled(t, markers, done + {u});
    forall n ensures (n in l <==> n in r) && (n in l ==> l[n] == r[n]) {
      SettleOneMoreAt(t, markers, done, u, n);
    }
  }

  /** Recovering twice is recovering once. */
  lemma RecoveredIdempotent(t: Table, markers: map<User, Marker>)
    ensures Recovered(Recovered(t, markers), markers) == Recovered(t, markers)
    ensures forall u :: u in markers ==> InPlace(Recovered(t, markers), u, markers[u])
  {
    forall u | u in markers ensures InPlace(Recovered(t, markers), u, markers[u]) {
      RecoveredInPlace(t, markers, u);
    }
    var once := Recovered(t, markers);
    var twice := Recovered(once, markers);
    forall n ensures (n in once <==> n in twice) && (n in once ==> once[n] == twice[n]) {
      RecoveredTwiceAt(t, markers, n);
    }
  }

  lemma RecoveredInPlace(t: Table, markers: map<User, Marker>, u: User)
    requires u in markers
    ensures InPlace(Recovered(t, markers), u, markers[u])
  {
    assert Active(u) in ActiveNames(markers.Keys);
  }

  lemma RecoveredTwiceAt(t: Table, markers: map<User, Marker>, n: Name)
    ensures var once := Recovered(t, markers); var twice := Recovered(once, markers);
            (n in once <==> n in twice) && (n in once ==> once[n] == twice[n])
  {
  }

  lemma RowsKeepInv(d: Disk, u: User, rows: int)
    requires Inv(d)
    ensures Inv(d.(rows := d.rows[u := rows]))
  {
    var d' := d.(rows := d.rows[u := rows]);
    forall t | t in d'.views ensures TableOk(d', t) { assert TableOk(d, t); }
    forall v | v in d'.markers ensures MarkerOk(d', v, d'.markers[v]) {
      var m := d.markers[v];
      assert MarkerOk(d, v, m);
      forall t | t in d'.views ensures Located(d', t, v, m) {
        assert Located(d, t, v, m);
        if Waiting(d, t, v, m) { assert Waiting(d', t, v, m); }
      }
    }
  }

  // ---- what recovery may do to the disk ----

  /** From `d` to `s` the active directory of `v` stayed what it was, in every table made since. */
  ghost predicate KeptFor(d: Disk, s: Disk, v: User)
    requires d.views != [] && s.views != []
  {
    && SameActive(d.Root(), s.Root(), v)
    && (forall t :: t in s.views ==> t in d.views || SameActive(d.Root(), t, v))
    && (Active(v) in d.Root() && d.Root()[Active(v)] in d.trees ==>
          d.Root()[Active(v)] in s.trees && s.trees[d.Root()[Active(v)]] == d.trees[d.Root()[Active(v)]])
  }

  /** For a marked user recovery neither loses what was reached nor undoes a rename. */
  ghost predicate AdvancedFor(d: Disk, s: Disk, v: User)
    requires d.views != [] && s.views != []
  {
    (DurablyActive(d, v) ==> DurablyActive(s, v)) && NoneUndone(d, s, v)
  }

  /** Recovery changes neither the database nor the active directory of anyone without a marker. */
  ghost predicate Recovering(d: Disk, s: Disk) {
    && d.views != [] && s.views != []
    && s.markers == d.markers && s.rows == d.rows
    && (forall v {:trigger KeptFor(d, s, v)} :: v !in d.markers ==> KeptFor(d, s, v))
    && (forall v {:trigger AdvancedFor(d, s, v)} :: v in d.markers ==> AdvancedFor(d, s, v))
  }

  lemma RecoveringStaysActive(d: Disk, s: Disk)
    requires Recovering(d, s)
    ensures forall v :: v in d.markers && DurablyActive(d, v) ==> DurablyActive(s, v)
  {
    forall v | v in d.markers && DurablyActive(d, v) ensures DurablyActive(s, v) {
      assert AdvancedFor(d, s, v);
    }
  }

  lemma KeptForTransitive(d: Disk, s: Disk, r: Disk, v: User)
    requires d.views != [] && s.views != [] && r.views != [] && KeptFor(d, s, v) && KeptFor(s, r, v)
    ensures KeptFor(d, r, v)
  {
  }

  lemma RecoveringTransitive(d: Disk, s: Disk, r: Disk)
    requires Recovering(d, s) && Recovering(s, r)
    ensures Recovering(d, r)
  {
    forall v | v !in d.markers ensures KeptFor(d, r, v) {
      assert KeptFor(d, s, v) && KeptFor(s, r, v);
      KeptForTransitive(d, s, r, v);
    }
    forall v | v in d.markers ensures AdvancedFor(d, r, v) {
      assert AdvancedFor(d, s, v) && AdvancedFor(s, r, v);
      NoneUndoneTransitive(d, s, r, v);
    }
  }

  lemma OtherNamesKept(d: Disk, s: Disk, u: User, v: User)
    requires Inv(d) && Touches(d, s, u) && v != u
    ensures KeptFor(d, s, v)
    ensures v in d.markers ==> NoneUndone(d, s, v)
  {
    assert Active(v).user == v;
    if v in d.markers {
      var m := d.markers[v];
      assert Stage(v, m.gen).user == v && Previous(v, m.gen).user == v;
      forall t | t in s.views && t !in d.views ensures RenamesLeft(t, v, m) == RenamesLeft(d.Root(), v, m) {
        assert SameElsewhere(d.Root(), t, u);
      }
    }
  }

  lemma ActivatingRecovers(d: Disk, s: Disk, u: User)
    requires Inv(d) && u in d.markers && Activating(d, s, u)
    ensures Recovering(d, s)
  {
    forall v | v !in d.markers ensures KeptFor(d, s, v) {
      OtherNamesKept(d, s, u, v);
    }
    forall v | v in d.markers ensures AdvancedFor(d, s, v) {
      if v != u {
        OtherNamesKept(d, s, u, v);
        if DurablyActive(d, v) { OthersStayActive(d, s, u, v); }
      }
    }
  }

  /** Removing an orphan stage. */
  lemma OrphanRemovalRecovers(d: Disk, s: Disk, n: Name)
    requires Inv(d) && RemovalOf(d, n, s) && n.Stage? && n in d.Root()
    requires n.user in d.markers ==> n.gen != d.markers[n.user].gen
    ensures Recovering(d, s)
  {
    assert TableOk(d, d.Root());
    assert d.Root() in d.views;
    forall v | v in d.markers ensures AdvancedFor(d, s, v) {
      var m := d.markers[v];
      assert Stage(v, m.gen) != n && Active(v) != n;
      assert RenamesLeft(d.Root() - {n}, v, m) == RenamesLeft(d.Root(), v, m);
      if DurablyActive(d, v) {
        forall t | t in s.views ensures InPlace(t, v, m) {
          assert InPlace(d.Root(), v, m);
          if t in d.views { assert InPlace(t, v, m); }
        }
      }
    }
    forall v | v !in d.markers ensures KeptFor(d, s, v) {
      assert Active(v) != n && SameActive(d.Root(), d.Root() - {n}, v);
    }
  }

  lemma SyncRecovers(d: Disk, s: Disk)
    requires d.views != [] && s == d.(views := s.views) && s.views != [] && s.Root() == d.Root()
    requires forall t :: t in s.views ==> t in d.views
    ensures Recovering(d, s)
  {
    forall v | v in d.markers ensures AdvancedFor(d, s, v) {
    }
    forall v | v !in d.markers ensures KeptFor(d, s, v) {
    }
  }

  /** The names of stages that no marker refers to. */
  function Orphans(t: Table, referenced: set<Name>): (orphans: set<Name>)
    ensures forall n :: n in orphans <==> n in t && n.Stage? && n !in referenced
  {
    set n | n in t && n.Stage? && n !in referenced
  }

  lemma RecoveredIsCleanedUp(t: Table, markers: map<User, Marker>, settled: Table, referenced: set<Name>)
    requires settled == PartlySettled(t, markers, markers.Keys)
    requires forall n :: n in referenced ==> n.Stage? && n.user in markers && n.gen == markers[n.user].gen
    ensures settled - Orphans(settled, referenced) == Recovered(t, markers)
  {
    var l := settled - Orphans(settled, referenced);
    var r := Recovered(t, markers);
    forall n ensures n in l <==> n in r {
    }
  }

  /** The states journal `k` adds to journal `j` are states of a recovery that began in `d`. */
  ghost predicate RecoveryKept(j: seq<Disk>, k: seq<Disk>, d: Disk) {
    j <= k && forall i :: |j| <= i < |k| ==> Recovering(d, k[i])
  }

  lemma RecoveryGoesOn(j: seq<Disk>, k: seq<Disk>, l: seq<Disk>, d: Disk, e: Disk)
    requires RecoveryKept(j, k, d) && RecoveryKept(k, l, e) && Recovering(d, e)
    ensures RecoveryKept(j, l, d)
  {
    forall i | |j| <= i < |l| ensures Recovering(d, l[i]) {
      if i < |k| {
        assert l[i] == k[i];
      } else {
        RecoveringTransitive(d, e, l[i]);
      }
    }
  }

  lemma EditServed(d: Disk, u: User, c: Content, pending: set<User>)
    requires Inv(d) && ServedOn(d, pending) && Active(u) in d.Root() && d.Root()[Active(u)] in d.trees
    ensures ServedOn(Edited(d, u, c), pending)
  {
    var e := Edited(d, u, c);
    forall v | v in e.markers && v !in pending ensures DurablyActive(e, v) {
      assert DurablyActive(d, v);
      forall t | t in e.views ensures InPlace(t, v, e.markers[v]) {
        assert InPlace(t, v, d.markers[v]);
      }
    }
  }

  lemma MadeServed(d: Disk, u: User, pending: set<User>)
    requires Inv(d) && ServedOn(d, pending) && u !in d.markers
    ensures ServedOn(Made(d, Active(u)), pending)
  {
    var e := Made(d, Active(u));
    assert d.Root() in d.views;
    forall v | v in e.markers && v !in pending ensures DurablyActive(e, v) {
      assert DurablyActive(d, v) && InPlace(d.Root(), v, d.markers[v]);
      forall t | t in e.views ensures InPlace(t, v, e.markers[v]) {
        if t in d.views { assert InPlace(t, v, d.markers[v]); }
      }
    }
  }

  lemma ServedIsActive(d: Disk, u: User, pending: set<User>)
    requires Inv(d) && ServedOn(d, pending) && u in d.markers && u !in pending
    ensures InPlace(d.Root(), u, d.markers[u])
  {
    assert DurablyActive(d, u) && d.Root() in d.views;
  }

  /** Whatever instant of a restore a crash picks, the rows that survive and the tree that
      recovery then activates are both old or both new. */
  lemma RowsAndTreeTogether(d: Disk, s: Disk, i: Disk, u: User, rows: int, files: map<string, string>)
    requires Inv(d) && Inv(s) && RestoreSafe(d, s, u, rows, files) && CrashImage(s, i)
    ensures i.views != []
    ensures var t := Recovered(i.Root(), i.markers);
            || (&& i.rows == d.rows && i.markers == d.markers
                && (u in d.markers ==> InPlace(t, u, d.markers[u]))
                && (u !in d.markers ==> i.Root() in d.views || SameActive(d.Root(), t, u)))
            || (&& i.rows == d.rows[u := rows] && Active(u) in t && t[Active(u)] in i.trees
                && i.trees[t[Active(u)]] == [Content(Token(i.markers[u].gen), files)])
  {
    CrashKeepsInv(s, i);
    RecoveredIdempotent(i.Root(), i.markers);
    if StillOld(d, s, u) {
    } else {
      assert NowNew(d, s, u, rows, files);
      assert Complete(i, i.markers[u]);
    }
  }

  // ---- any number of crashes ----

  /** Tree `id` has, durably, contents that it had in `d`. */
  ghost predicate KeptContents(d: Disk, s: Disk, id: TreeId) {
    id in d.trees && id in s.trees && exists c :: c in d.trees[id] && s.trees[id] == [c]
  }

  /** The active directory of `u` is that of a table of `d`, with contents it had then. */
  ghost predicate OldActive(d: Disk, s: Disk, u: User)
    requires s.views != []
  {
    exists t :: t in d.views && SameActive(t, s.Root(), u) && (Active(u) in t ==> KeptContents(d, s, t[Active(u)]))
  }

  ghost predicate OldDatabase(d: Disk, s: Disk) {
    s.rows == d.rows && s.markers == d.markers
  }

  ghost predicate NewDatabase(d: Disk, s: Disk, u: User, rows: int, files: map<string, string>) {
    && s.rows == d.rows[u := rows] && u in s.markers && s.markers == d.markers[u := s.markers[u]]
    && !s.markers[u].edited && s.markers[u].files == files
  }

  /** What a crash inside a restore that began in `d` leaves to recovery. */
  ghost predicate Undecided(d: Disk, s: Disk, u: User, rows: int, files: map<string, string>) {
    && s.views != [] && s.views == [s.Root()]
    && ((OldDatabase(d, s) && (u !in d.markers ==> OldActive(d, s, u))) || NewDatabase(d, s, u, rows, files))
  }

  /** The rows and the files of `u` are both as they were when the restore began. */
  ghost predicate OldAgain(d: Disk, s: Disk, u: User) {
    && s.views != [] && OldDatabase(d, s)
    && (if u in d.markers then InPlace(s.Root(), u, d.markers[u]) else OldActive(d, s, u))
  }

  /** The rows and the files of `u` are both those of the backup. */
  ghost predicate NewNow(d: Disk, s: Disk, u: User, rows: int, files: map<string, string>) {
    && s.views != [] && NewDatabase(d, s, u, rows, files) && InPlace(s.Root(), u, s.markers[u])
    && Complete(s, s.markers[u])
  }

  lemma CrashLeavesUndecided(d: Disk, s: Disk, i: Disk, u: User, rows: int, files: map<string, string>)
    requires Inv(d) && Inv(s) && RestoreSafe(d, s, u, rows, files) && CrashImage(s, i)
    ensures Undecided(d, i, u, rows, files)
  {
    if StillOld(d, s, u) && u !in d.markers {
      var t := i.Root();
      var before := if t in d.views then t else d.Root();
      assert before in d.views && SameActive(before, t, u) && TableOk(d, before);
      if Active(u) in before {
        var id := before[Active(u)];
        assert s.trees[id] == d.trees[id];
        var c :| c in s.trees[id] && i.trees[id] == [c];
        assert KeptContents(d, i, id);
      }
    }
  }

  lemma RecoveryKeepsOldActive(d: Disk, i: Disk, s: Disk, u: User)
    requires i.views != [] && s.views != [] && KeptFor(i, s, u) && OldActive(d, i, u)
    ensures OldActive(d, s, u)
  {
    var t :| t in d.views && SameActive(t, i.Root(), u) && (Active(u) in t ==> KeptContents(d, i, t[Active(u)]));
    assert SameActive(t, s.Root(), u);
    if Active(u) in t {
      assert KeptContents(d, s, t[Active(u)]);
    }
  }

  /** A crash inside recovery leaves no less to the next one. */
  lemma StaysUndecided(d: Disk, i: Disk, s: Disk, j: Disk, u: User, rows: int, files: map<string, string>)
    requires Undecided(d, i, u, rows, files) && Recovering(i, s) && CrashImage(s, j)
    ensures Undecided(d, j, u, rows, files)
  {
    if OldDatabase(d, i) && u !in d.markers {
      assert KeptFor(i, s, u);
      var t :| t in d.views && SameActive(t, i.Root(), u) && (Active(u) in t ==> KeptContents(d, i, t[Active(u)]));
      assert SameActive(t, j.Root(), u);
      if Active(u) in t {
        var id := t[Active(u)];
        assert s.trees[id] == i.trees[id];
        assert KeptContents(d, j, id);
      }
    }
  }

  /** A recovery that reaches its end decides it. */
  lemma RecoveryDecides(d: Disk, i: Disk, s: Disk, u: User, rows: int, files: map<string, string>)
    requires Undecided(d, i, u, rows, files) && Recovering(i, s) && Inv(s)
    requires forall v :: v in s.markers ==> DurablyActive(s, v)
    ensures OldAgain(d, s, u) || NewNow(d, s, u, rows, files)
  {
    assert s.Root() in s.views;
    if OldDatabase(d, i) {
      if u !in d.markers {
        assert KeptFor(i, s, u);
        RecoveryKeepsOldActive(d, i, s, u);
      }
    } else {
      assert MarkerOk(s, u, s.markers[u]);
    }
  }
}

/**
 Restoring a backup: staging, the database commit, forward activation, retry and startup
 recovery.  Every method also says what holds in each state it passes through, because the
 process may stop in any of them.
 */
module AttachmentRestore {
  import opened AttachmentDisk
  import opened AttachmentRoot
  import opened AttachmentStaging

  datatype Activation = Done | CleanupOnly | RecoveryPending

  /** Beside the three names of generation `g` the user's entries are the same, too. */
  ghost predicate SameBeside(t: Table, t': Table, u: User, g: Generation) {
    forall n :: n != Active(u) && n != Stage(u, g) && n != Previous(u, g) ==>
      (n in t <==> n in t') && (n in t ==> t[n] == t'[n])
  }

  /** A state between `d` and the end of an activation for `u`. */
  ghost predicate Activating(d: Disk, s: Disk, u: User) {
    && Touches(d, s, u) && OldOrNew(d, s, u) && SameBeside(d.Root(), s.Root(), u, d.markers[u].gen) && NoneUndone(d, s, u)
    && s.markers == d.markers && s.rows == d.rows && s.next == d.next
  }

  lemma ActivatingTransitive(d: Disk, s: Disk, r: Disk, u: User)
    requires Inv(d) && Inv(s) && Activating(d, s, u) && Activating(s, r, u)
    ensures Activating(d, r, u)
  {
    assert TableOk(d, d.Root()) && TableOk(s, s.Root());
    TouchesTransitive(d, s, r, u);
    OldOrNewTransitive(d, s, r, u);
    NoneUndoneTransitive(d, s, r, u);
  }

  lemma SyncActivating(d: Disk, s: Disk, u: User)
    requires Inv(d) && Inv(s) && u in d.markers && s == d.(views := s.views) && s.Root() == d.Root()
    requires forall t :: t in s.views ==> t in d.views
    ensures Activating(d, s, u)
  {
  }

  lemma MovedBeside(t: Table, a: Name, b: Name, u: User, g: Generation)
    requires a in t
    requires a == Active(u) || a == Stage(u, g)
    requires b == Active(u) || b == Previous(u, g)
    ensures SameBeside(t, Moved(t, a, b), u, g) && SameElsewhere(t, Moved(t, a, b), u)
  {
  }

  lemma MovedDisplaceable(d: Disk, u: User, a: Name, b: Name)
    requires d.views != [] && u in d.markers && a in d.Root() && b !in d.Root()
    requires var g := d.markers[u].gen;
             (a == Active(u) && b == Previous(u, g)) || (a == Stage(u, g) && b == Active(u))
    ensures forall id :: Displaceable(d, u, id) ==> Displaceable(Pushed(d, Moved(d.Root(), a, b)), u, id)
  {
    forall id | Displaceable(d, u, id) ensures Displaceable(Pushed(d, Moved(d.Root(), a, b)), u, id) {
      assert d.Root() in d.views;
    }
  }

  lemma RenameUndoesNothing(d: Disk, u: User, a: Name, b: Name)
    requires Inv(d) && u in d.markers && !InPlace(d.Root(), u, d.markers[u])
    requires a in d.Root() && b !in d.Root()
    requires var g := d.markers[u].gen;
             (a == Active(u) && b == Previous(u, g)) || (a == Stage(u, g) && b == Active(u))
    ensures NoneUndone(d, Pushed(d, Moved(d.Root(), a, b)), u)
    ensures RenamesLeft(Moved(d.Root(), a, b), u, d.markers[u]) == RenamesLeft(d.Root(), u, d.markers[u]) - 1
  {
    assert MarkerOk(d, u, d.markers[u]);
    assert Located(d, d.Root(), u, d.markers[u]);
    RenamesProgress(d.Root(), u, d.markers[u]);
    var s := Pushed(d, Moved(d.Root(), a, b));
    assert forall t :: t in s.views ==> t in d.views || t == Moved(d.Root(), a, b);
  }

  /** A rename among the user's own entries, made while the marked tree is waiting. */
  lemma RenameActivating(d: Disk, u: User, a: Name, b: Name)
    requires Inv(d) && u in d.markers && !InPlace(d.Root(), u, d.markers[u])
    requires a in d.Root() && b !in d.Root()
    requires var g := d.markers[u].gen;
             (a == Active(u) && b == Previous(u, g)) || (a == Stage(u, g) && b == Active(u))
    ensures Activating(d, Pushed(d, Moved(d.Root(), a, b)), u)
    ensures RenamesLeft(Moved(d.Root(), a, b), u, d.markers[u]) == RenamesLeft(d.Root(), u, d.markers[u]) - 1
  {
    var s := Pushed(d, Moved(d.Root(), a, b));
    assert d.Root() in d.views && s.Root() == Moved(d.Root(), a, b);
    MovedBeside(d.Root(), a, b, u, d.markers[u].gen);
    assert !DurablyActive(d, u);
    MovedDisplaceable(d, u, a, b);
    RenameUndoesNothing(d, u, a, b);
    assert Touches(d, s, u);
    assert OldOrNew(d, s, u);
  }

  lemma RemovalActivating(d: Disk, s: Disk, n: Name, u: User)
    requires Inv(d) && s.views != [] && RemovalOf(d, n, s) && u in d.markers
    requires n == Previous(u, d.markers[u].gen) && DurablyActive(d, u)
    ensures Activating(d, s, u) && DurablyActive(s, u)
  {
    assert TableOk(d, d.Root());
    assert d.Root() in d.views;
    assert SameElsewhere(d.Root(), d.Root() - {n}, u);
    assert InPlace(d.Root(), u, d.markers[u]);
    forall t | t in s.views ensures InPlace(t, u, s.markers[u]) {
      if t in d.views { assert InPlace(t, u, d.markers[u]); }
    }
  }

  /** Journal `j` grew to `k` by states of an activation for `u`. */
  ghost predicate Progress(j: seq<Disk>, k: seq<Disk>, u: User) {
    && j != [] && j <= k
    && (forall i :: |j| - 1 <= i < |k| ==> Activating(j[|j| - 1], k[i], u))
  }

  lemma ProgressTransitive(j: seq<Disk>, k: seq<Disk>, l: seq<Disk>, u: User)
    requires Progress(j, k, u) && Progress(k, l, u)
    requires forall s :: s in l ==> Inv(s)
    ensures Progress(j, l, u)
  {
    var d, e := j[|j| - 1], k[|k| - 1];
    assert d == l[|j| - 1] && e == l[|k| - 1];
    forall i | |j| - 1 <= i < |l| ensures Activating(d, l[i], u) {
      if i < |k| {
        assert l[i] == k[i];
      } else {
        assert Activating(d, k[|k| - 1], u);
        ActivatingTransitive(d, e, l[i], u);
      }
    }
  }

  lemma ProgressHere(d: Disk, j: seq<Disk>, k: seq<Disk>, u: User)
    requires Inv(d) && u in d.markers && j != [] && j[|j| - 1] == d && j <= k
    requires forall i :: |j| <= i < |k| ==> Activating(d, k[i], u)
    ensures Progress(j, k, u)
  {
    SyncActivating(d, d, u);
  }

  /** The marked tree is recognised by its token, and nothing else is. */
  lemma TokenTellsPlace(d: Disk, u: User)
    requires Inv(d) && u in d.markers
    ensures var m := d.markers[u];
            Carries(d, Active(u), Token(m.gen)) <==> InPlace(d.Root(), u, m)
    ensures var m := d.markers[u];
            !InPlace(d.Root(), u, m) ==> Waiting(d, d.Root(), u, m) && Carries(d, Stage(u, m.gen), Token(m.gen))
    ensures !Carries(d, Active(u), Malformed)
  {
    var m := d.markers[u];
    assert MarkerOk(d, u, m) && TableOk(d, d.Root());
    assert Located(d, d.Root(), u, m);
    if Active(u) in d.Root() {
      assert d.Latest(d.Root()[Active(u)]) in d.trees[d.Root()[Active(u)]];
    }
  }

  lemma DisplaceStep(d: Disk, u: User)
    requires Inv(d) && u in d.markers && Active(u) in d.Root() && Waiting(d, d.Root(), u, d.markers[u])
    ensures var b := Previous(u, d.markers[u].gen); var t := Moved(d.Root(), Active(u), b); var s := Pushed(d, t);
            && b !in d.Root() && Inv(s) && Activating(d, s, u)
            && RenamesLeft(t, u, d.markers[u]) == RenamesLeft(d.Root(), u, d.markers[u]) - 1
            && Active(u) !in t && forall e: Disk :: e == d.(views := [t]) ==> Waiting(e, t, u, d.markers[u])
  {
    TokenTellsPlace(d, u);
    DisplaceKeepsInv(d, u);
    assert !InPlace(d.Root(), u, d.markers[u]);
    RenameActivating(d, u, Active(u), Previous(u, d.markers[u].gen));
  }

  lemma ActivateStep(d: Disk, u: User)
    requires Inv(d) && u in d.markers && Active(u) !in d.Root() && Waiting(d, d.Root(), u, d.markers[u])
    ensures var a := Stage(u, d.markers[u].gen); var t := Moved(d.Root(), a, Active(u)); var s := Pushed(d, t);
            Inv(s) && Activating(d, s, u) && InPlace(t, u, d.markers[u])
            && RenamesLeft(t, u, d.markers[u]) == RenamesLeft(d.Root(), u, d.markers[u]) - 1
  {
    ActivateKeepsInv(d, u);
    RenameActivating(d, u, Stage(u, d.markers[u].gen), Active(u));
  }

  lemma RemovalStaging(base: Disk, d: Disk, s: Disk, u: User, g: Generation)
    requires Staging(base, d, u) && RemovalOf(d, Stage(u, g), s) && g >= base.next
    requires Stage(u, g) in d.Root() ==> d.Root()[Stage(u, g)] !in base.trees
    ensures Staging(base, s, u)
  {
    assert BesideStages(d.Root(), d.Root() - {Stage(u, g)}, u, base.next);
  }

  lemma SettledAfter(d: Disk, s: Disk, u: User)
    requires Activating(d, s, u) && DurablyActive(s, u) && Previous(u, d.markers[u].gen) !in s.Root()
    ensures s.Root() == Settled(d.Root(), u, d.markers[u])
  {
    var m := d.markers[u];
    assert s.Root() in s.views && InPlace(s.Root(), u, m);
    var want := Settled(d.Root(), u, m);
    forall n ensures n in s.Root() <==> n in want {
      if n != Active(u) && n != Stage(u, m.gen) && n != Previous(u, m.gen) { }
    }
  }

  /** `attachmentRestorePlan`: the generation a restore wants active, on an open upload root. */
  class AttachmentRestorePlan {
    const root: UploadRoot
    const user: User
    const gen: Generation
    var stageNamed: bool
    var closed: bool

    constructor (root: UploadRoot, user: User, gen: Generation)
      ensures this.root == root && this.user == user && this.gen == gen && stageNamed && !closed
    {
      this.root, this.user, this.gen, stageNamed, closed := root, user, gen, true, false;
    }

    /** `validate`: the names are derived from user and generation, so only a cleared stage or
        the user number 0 can be wrong. */
    predicate IsValid()
      reads this
    {
      user != 0 && stageNamed
    }

    ghost predicate Concerns()
      reads root
    {
      && root.Consistent()
      && user in root.disk.markers && gen == root.disk.markers[user].gen
    }

    /** The renames between what running code sees and the plan's generation being active. */
    ghost function Left(): nat
      reads root
      requires Concerns()
    {
      RenamesLeft(root.disk.Root(), user, root.disk.markers[user])
    }

    /** `forward`: makes the plan's generation active, wherever an earlier attempt or a crash
        left it. */
    method Forward() returns (ok: bool)
      requires Concerns()
      modifies root`disk, root`journal
      ensures Concerns() && Progress(old(root.journal), root.journal, user)
      ensures root.disk == old(root.disk).(views := root.disk.views)
      ensures ok && !closed ==> |root.disk.views| == 1 && DurablyActive(root.disk, user) && Left() == 0
      ensures Left() <= old(Left())
      ensures !IsValid() && !closed ==> !ok
      ensures root.healthy && IsValid() ==> ok
    {
      if closed {
        ProgressHere(root.disk, root.journal, root.journal, user);
        return true;
      }
      if !IsValid() {
        ProgressHere(root.disk, root.journal, root.journal, user);
        return false;
      }
      TokenTellsPlace(root.disk, user);
      var active := root.ReadGeneration(Active(user));
      if active == Found(gen) {
        ok := SyncRoot();
      } else if active.Unreadable? {
        ProgressHere(root.disk, root.journal, root.journal, user);
        ok := false;
      } else {
        ok := MoveForward();
      }
    }

    method SyncRoot() returns (ok: bool)
      requires Concerns()
      modifies root`disk, root`journal
      ensures Concerns() && Progress(old(root.journal), root.journal, user)
      ensures root.disk == old(root.disk).(views := root.disk.views) && root.disk.Root() == old(root.disk).Root()
      ensures ok ==> root.disk.views == [root.disk.Root()]
      ensures DurablyActive(old(root.disk), user) ==> DurablyActive(root.disk, user)
      ensures root.healthy ==> ok
    {
      ghost var before := root.disk;
      ok := root.Sync();
      SyncActivating(before, root.disk, user);
      ProgressHere(before, old(root.journal), root.journal, user);
    }

    /** The part of `forward` after the active directory was found not to be the wanted one. */
    method MoveForward() returns (ok: bool)
      requires Concerns() && !InPlace(root.disk.Root(), user, root.disk.markers[user])
      modifies root`disk, root`journal
      ensures Concerns() && Progress(old(root.journal), root.journal, user)
      ensures root.disk == old(root.disk).(views := root.disk.views)
      ensures ok ==> |root.disk.views| == 1 && DurablyActive(root.disk, user)
      ensures root.healthy ==> ok
    {
      ProgressHere(root.disk, root.journal, root.journal, user);
      TokenTellsPlace(root.disk, user);
      var staged := root.ReadGeneration(Stage(user, gen));
      if staged != Found(gen) {
        return false;
      }
      var previous := root.DirectoryExists(Previous(user, gen));
      if previous == Failed {
        return false;
      }
      var active := root.DirectoryExists(Active(user));
      if active == Failed {
        return false;
      }
      if previous == Yes && active == Yes {
        return false;
      }
      if previous == No && active == Yes {
        ok := Displace();
        if !ok {
          return;
        }
      }
      ghost var between := root.journal;
      ok := ActivateStage();
      ProgressTransitive(old(root.journal), between, root.journal, user);
    }

    method Displace() returns (ok: bool)
      requires Concerns() && Active(user) in root.disk.Root()
      requires Waiting(root.disk, root.disk.Root(), user, root.disk.markers[user])
      modifies root`disk, root`journal
      ensures Concerns() && Progress(old(root.journal), root.journal, user)
      ensures root.disk == old(root.disk).(views := root.disk.views)
      ensures ok ==> Active(user) !in root.disk.Root()
                     && Waiting(root.disk, root.disk.Root(), user, root.disk.markers[user])
      ensures ok ==> Left() == old(Left()) - 1
      ensures ok ==> root.disk.views == [Moved(old(root.disk).Root(), Active(user), Previous(user, gen))]
      ensures root.healthy ==> ok
    {
      DisplaceStep(root.disk, user);
      ok := RenameAndSync(Active(user), Previous(user, gen));
    }

    method ActivateStage() returns (ok: bool)
      requires Concerns() && Active(user) !in root.disk.Root()
      requires Waiting(root.disk, root.disk.Root(), user, root.disk.markers[user])
      modifies root`disk, root`journal
      ensures Concerns() && Progress(old(root.journal), root.journal, user)
      ensures root.disk == old(root.disk).(views := root.disk.views)
      ensures ok ==> |root.disk.views| == 1 && DurablyActive(root.disk, user)
      ensures ok ==> Left() == old(Left()) - 1
      ensures ok ==> root.disk.views == [Moved(old(root.disk).Root(), Stage(user, gen), Active(user))]
      ensures root.healthy ==> ok
    {
      ActivateStep(root.disk, user);
      ok := RenameAndSync(Stage(user, gen), Active(user));
      if ok {
        TokenTellsPlace(root.disk, user);
        var active := root.ReadGeneration(Active(user));
        ok := active == Found(gen);
      }
    }

    method RenameAndSync(a: Name, b: Name) returns (ok: bool)
      requires Concerns() && a in root.disk.Root() && b !in root.disk.Root()
      requires Inv(Pushed(root.disk, Moved(root.disk.Root(), a, b)))
      requires Activating(root.disk, Pushed(root.disk, Moved(root.disk.Root(), a, b)), user)
      modifies root`disk, root`journal
      ensures Concerns() && Progress(old(root.journal), root.journal, user)
      ensures root.disk == old(root.disk).(views := root.disk.views)
      ensures ok ==> root.disk.views == [Moved(old(root.disk).Root(), a, b)]
      ensures root.healthy ==> ok
    {
      ghost var before := root.disk;
      ok := root.Rename(a, b);
      ProgressHere(before, old(root.journal), root.journal, user);
      if ok {
        ghost var between := root.journal;
        ok := SyncRoot();
        ProgressTransitive(old(root.journal), between, root.journal, user);
      }
    }
  
    /** `rollback`: takes the stage of an aborted restore away. */
    method Rollback(ghost base: Disk) returns (ok: bool)
      requires root.Consistent() && Staging(base, root.disk, user) && gen >= base.next
      requires Stage(user, gen) in root.disk.Root() ==>
                 Unmarked(root.disk, root.disk.Root()[Stage(user, gen)]) && root.disk.Root()[Stage(user, gen)] !in base.trees
      modifies root`disk, root`journal, `stageNamed, `closed
      ensures root.Consistent() && Staging(base, root.disk, user)
      ensures Recorded(old(root.journal), root.journal, base, user)
      ensures root.healthy && old(stageNamed && !closed) ==> Stage(user, gen) !in root.disk.Root()
    {
      if closed {
        return true;
      }
      ok := true;
      if stageNamed {
        ok := RollbackStage(base);
      }
      ghost var between := root.journal;
      var synced := root.Sync();
      RecordedTransitive(old(root.journal), between, root.journal, base, user);
      var closedWell := Close();
      ok := ok && synced && closedWell;
    }

    method RollbackStage(ghost base: Disk) returns (ok: bool)
      requires root.Consistent() && Staging(base, root.disk, user) && gen >= base.next
      requires Stage(user, gen) in root.disk.Root() ==>
                 Unmarked(root.disk, root.disk.Root()[Stage(user, gen)]) && root.disk.Root()[Stage(user, gen)] !in base.trees
      modifies root`disk, root`journal, `stageNamed
      ensures root.Consistent() && Staging(base, root.disk, user)
      ensures Recorded(old(root.journal), root.journal, base, user)
      ensures root.healthy ==> Stage(user, gen) !in root.disk.Root()
    {
      ghost var before := root.disk;
      ok := root.RemoveEntry(Stage(user, gen));
      if ok {
        stageNamed := false;
      }
      forall i | |old(root.journal)| <= i < |root.journal| ensures Staging(base, root.journal[i], user) {
        assert root.journal[i] in root.journal[|old(root.journal)|..];
        RemovalStaging(base, before, root.journal[i], user, gen);
      }
      RemovalStaging(base, before, root.disk, user, gen);
    }

    method Close() returns (ok: bool)
      modifies `closed
      ensures closed && (root.healthy ==> ok)
    {
      ok := true;
      if !closed {
        closed := true;
        ok := root.Attempt();
      }
    }

    /** `commit`: activate, then drop what was displaced.  Only a failure to activate is
        reported as a pending recovery. */
    method Commit() returns (r: Activation)
      requires Concerns()
      modifies root`disk, root`journal, `stageNamed, `closed
      ensures Concerns() && Progress(old(root.journal), root.journal, user)
      ensures r != RecoveryPending && !old(closed) ==> DurablyActive(root.disk, user)
      ensures r == Done && !old(closed) ==> root.disk.Root() == Settled(old(root.disk).Root(), user, root.disk.markers[user])
      ensures !old(IsValid()) && !old(closed) ==> r == RecoveryPending
      ensures root.healthy && old(IsValid()) ==> r == Done
      ensures closed
      ensures r == RecoveryPending ==> stageNamed == old(stageNamed)
    {
      if closed {
        ProgressHere(root.disk, root.journal, root.journal, user);
        return Done;
      }
      ghost var before := root.disk;
      var ok := Forward();
      if !ok {
        var _ := Close();
        return RecoveryPending;
      }
      ghost var between := root.journal;
      r := CleanUp();
      ProgressTransitive(old(root.journal), between, root.journal, user);
      if r == Done {
        SettledAfter(before, root.disk, user);
      }
    }

    /** The rest of `commit` once the generation is active: failures here only leave litter. */
    method CleanUp() returns (r: Activation)
      requires Concerns() && DurablyActive(root.disk, user)
      modifies root`disk, root`journal, `stageNamed, `closed
      ensures Concerns() && Progress(old(root.journal), root.journal, user)
      ensures DurablyActive(root.disk, user) && r != RecoveryPending
      ensures r == Done ==> Previous(user, gen) !in root.disk.Root()
      ensures root.healthy ==> r == Done
      ensures closed
    {
      var displacedGone := RemoveDisplaced();
      var stageGone := RemoveStage();
      ghost var between := root.journal;
      var synced := SyncRoot();
      ProgressTransitive(old(root.journal), between, root.journal, user);
      var closedWell := Close();
      r := if displacedGone && stageGone && synced && closedWell then Done else CleanupOnly;
    }

    /** The activated stage has no entry any more, so nothing is removed. */
    method RemoveStage() returns (ok: bool)
      requires Concerns() && DurablyActive(root.disk, user)
      modifies root`disk, root`journal, `stageNamed
      ensures root.disk == old(root.disk) && root.journal == old(root.journal)
      ensures root.healthy ==> ok
    {
      ok := true;
      if stageNamed {
        assert root.disk.Root() in root.disk.views && InPlace(root.disk.Root(), user, root.disk.markers[user]);
        ok := root.RemoveEntry(Stage(user, gen));
        if ok {
          stageNamed := false;
        }
      }
    }

    method RemoveDisplaced() returns (ok: bool)
      requires Concerns() && DurablyActive(root.disk, user)
      modifies root`disk, root`journal
      ensures Concerns() && Progress(old(root.journal), root.journal, user)
      ensures DurablyActive(root.disk, user)
      ensures ok ==> Previous(user, gen) !in root.disk.Root()
      ensures root.healthy ==> ok
    {
      ghost var before := root.disk;
      if Previous(user, gen) in root.disk.Root() {
        UnmarkedElsewhere(root.disk, Previous(user, gen));
      }
      ok := root.RemoveEntry(Previous(user, gen));
      forall i | |old(root.journal)| <= i < |root.journal|
        ensures Activating(before, root.journal[i], user)
      {
        assert root.journal[i] in root.journal[|old(root.journal)|..];
        RemovalActivating(before, root.journal[i], Previous(user, gen), user);
      }
      RemovalActivating(before, root.disk, Previous(user, gen), user);
      ProgressHere(before, old(root.journal), root.journal, user);
    }
  }
}

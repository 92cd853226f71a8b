/**
 The backup service: restore with every outcome of its database transaction, finalization
 with one retry, startup recovery, orphan cleanup, and the readers and writers that use the
 active directories in between.
 */
module AttachmentService {
  import opened AttachmentDisk
  import opened AttachmentRoot
  import opened AttachmentStaging
  import opened AttachmentRestore
  import opened AttachmentSafety

  /** What the database transaction did, and what its driver said about it. */
  datatype DbOutcome = Commits | Aborts | CommitsButReportsError

  datatype Attached = NotIncluded | Included(files: seq<BackupAttachment>)

  datatype ReadResult = Unavailable | NoDirectory | Opened(content: Content)

  datatype UploadResult = NotAvailable | NotStored | Stored(name: string)

  /** The files in the user's active directory. */
  function FilesOf(d: Disk, u: User): map<string, string>
  {
    if d.views != [] && Active(u) in d.Root() && d.Root()[Active(u)] in d.trees && d.trees[d.Root()[Active(u)]] != []
    then d.Latest(d.Root()[Active(u)]).files else map[]
  }

  /** Every marker names the generation it named. */
  ghost predicate SameGenerations(d: Disk, s: Disk) {
    forall v :: v in d.markers ==> v in s.markers && s.markers[v].gen == d.markers[v].gen
  }

  datatype RestoreResult = Restored | Rejected | PendingRecovery

  /** What the answer of a restore with files says.  A rejection changes nobody's availability, and while
      the storage works leaves no stage behind; a restore makes the user available.  Pending is answered
      only to a user who was pending, after an error whose outcome cannot be read, or after a commit
      whose files could not be moved. */
  ghost predicate Answered(pending: set<User>, pending': set<User>, healthy: bool, d: Disk, s: Disk, u: User,
                           db: DbOutcome, readable: bool, r: RestoreResult) {
    && d.views != [] && s.views != []
    && (r == Rejected ==> pending' == pending && u !in pending && (healthy ==> Stage(u, d.next) !in s.Root()))
    && (r == Restored ==> db != Aborts && u !in pending && pending' == pending - {u})
    && (r == PendingRecovery ==> pending' == (if u == 0 then pending else pending + {u}))
    && (r == PendingRecovery ==> u in pending || (db != Commits && !readable) || (db != Aborts && !healthy)
                                 || (u == 0 && !readable))
  }

  lemma StaysActive(j: seq<Disk>, k: seq<Disk>, u: User)
    requires Progress(j, k, u)
    ensures DurablyActive(j[|j| - 1], u) ==> DurablyActive(k[|k| - 1], u)
  {
    assert Activating(j[|j| - 1], k[|k| - 1], u);
  }

  class BackupService {
    const root: UploadRoot
    var pending: set<User>
    var serving: bool

    /** Every marked user who is not pending has the marked tree durably active. */
    ghost predicate Served()
      reads this, root
    {
      ServedOn(root.disk, pending)
    }

    ghost predicate Valid()
      reads this, root
    {
      root.Consistent() && (serving ==> Served())
    }

    constructor (root: UploadRoot)
      requires root.Consistent()
      ensures Valid() && this.root == root && !serving && pending == {}
    {
      this.root, pending, serving := root, {}, false;
    }

    /** `attachmentRestoreGenerationActive`, with any error read as not active. */
    method GenerationActive(plan: AttachmentRestorePlan) returns (active: bool)
      requires root.Consistent()
      ensures active ==> Carries(root.disk, Active(plan.user), Token(plan.gen))
    {
      active := root.Attempt();
      if active {
        var r := root.ReadGeneration(Active(plan.user));
        active := r == Found(plan.gen);
      }
    }

    /** `retryCommittedAttachmentRestore`: a second attempt with the first plan's names.  When
        the first attempt had already dropped its stage name the retry cannot succeed. */
    method Retry(plan: AttachmentRestorePlan) returns (r: Activation)
      requires plan.root == root && plan.Concerns()
      modifies root`disk, root`journal
      ensures plan.Concerns() && Progress(old(root.journal), root.journal, plan.user)
      ensures r != RecoveryPending ==> DurablyActive(root.disk, plan.user)
      ensures !plan.IsValid() ==> r == RecoveryPending
      ensures root.healthy && plan.IsValid() ==> r == Done
    {
      ProgressHere(root.disk, root.journal, root.journal, plan.user);
      var ok := root.Attempt();
      if !ok {
        return RecoveryPending;
      }
      var retry := new AttachmentRestorePlan(root, plan.user, plan.gen);
      retry.stageNamed := plan.stageNamed;
      r := retry.Commit();
    }

    /** `finalizeCommittedAttachmentRestore`: every success means the generation is active.  `first` is
        the outcome of the first attempt and `seen` whether the probe after it found the generation
        active.  Once an attempt has cleared the plan's stage name everything hangs on that probe: if
        it fails the user is left pending, although the generation is durably active.  `transient` says
        that what made the first attempt fail is over when the second begins; then the second succeeds. */
    method Finalize(plan: AttachmentRestorePlan, transient: bool) returns (ok: bool, ghost first: Activation, ghost seen: bool)
      requires plan.root == root && plan.Concerns() && !plan.closed
      modifies root`disk, root`journal, root`healthy, plan`stageNamed, plan`closed
      ensures plan.Concerns() && Progress(old(root.journal), root.journal, plan.user)
      ensures ok ==> DurablyActive(root.disk, plan.user)
      ensures old(root.healthy && plan.IsValid()) ==> ok
      ensures transient && plan.IsValid() ==> ok
      ensures first == Done || (first == CleanupOnly && seen) ==> ok
      ensures first != RecoveryPending ==> DurablyActive(root.disk, plan.user)
      ensures first == RecoveryPending ==> plan.stageNamed == old(plan.stageNamed)
      ensures !plan.stageNamed ==> (ok <==> first == Done || (first == CleanupOnly && seen))
    {
      var outcome, active := CommitAndProbe(plan);
      first, seen := outcome, active;
      ok := outcome == Done || (outcome == CleanupOnly && active);
      if ok {
        return;
      }
      if transient {
        root.healthy := true;
      }
      ghost var between := root.journal;
      ok := RetryAndProbe(plan);
      ProgressTransitive(old(root.journal), between, root.journal, plan.user);
    }

    /** The first half: an attempt, and unless it was done a look at what is active. */
    method CommitAndProbe(plan: AttachmentRestorePlan) returns (outcome: Activation, active: bool)
      requires plan.root == root && plan.Concerns() && !plan.closed
      modifies root`disk, root`journal, plan`stageNamed, plan`closed
      ensures plan.Concerns() && Progress(old(root.journal), root.journal, plan.user)
      ensures outcome != RecoveryPending ==> DurablyActive(root.disk, plan.user)
      ensures outcome == RecoveryPending ==> plan.stageNamed == old(plan.stageNamed)
      ensures root.healthy && old(plan.IsValid()) ==> outcome == Done
    {
      outcome := plan.Commit();
      active := true;
      if outcome != Done {
        var _ := plan.Close();
        active := GenerationActive(plan);
      }
    }

    /** The second half of `finalizeCommittedAttachmentRestore`. */
    method RetryAndProbe(plan: AttachmentRestorePlan) returns (ok: bool)
      requires plan.root == root && plan.Concerns()
      modifies root`disk, root`journal
      ensures plan.Concerns() && Progress(old(root.journal), root.journal, plan.user)
      ensures ok || DurablyActive(old(root.disk), plan.user) ==> DurablyActive(root.disk, plan.user)
      ensures !plan.IsValid() ==> !ok
      ensures root.healthy && plan.IsValid() ==> ok
    {
      ghost var before := root.journal;
      var second := Retry(plan);
      StaysActive(before, root.journal, plan.user);
      if second == Done {
        return true;
      }
      var active := GenerationActive(plan);
      ok := second != RecoveryPending && active;
    }
  
    /** The staging part of `prepareAttachmentRestore`, after the manifest's paths were accepted. */
    method PrepareAttachmentRestore(u: User, attachments: seq<BackupAttachment>)
        returns (plan: AttachmentRestorePlan?)
      requires root.Consistent()
      modifies root`disk, root`journal
      ensures root.Consistent() && Staging(old(root.disk), root.disk, u)
      ensures Recorded(old(root.journal), root.journal, old(root.disk), u)
      ensures plan != null ==>
                && fresh(plan) && plan.root == root && plan.user == u && plan.gen == old(root.disk).next
                && plan.stageNamed && !plan.closed
                && OwnStage(root.disk, u, plan.gen) && root.disk.views == [root.disk.Root()]
                && root.disk.trees[plan.gen] == [Content(Token(plan.gen), Manifest(attachments))]
      ensures plan != null ==> Restorable(attachments)
      ensures root.healthy && Restorable(attachments) ==> plan != null
      ensures root.healthy && !Restorable(attachments) ==>
                plan == null && Stage(u, old(root.disk).next) !in root.disk.Root()
    {
      ghost var base := root.disk;
      plan := null;
      var ok := root.Attempt();
      if !ok {
        return;
      }
      var candidate := MakeStage(u);
      ghost var between := root.journal;
      ok := FillStage(candidate, attachments, base);
      RecordedTransitive(old(root.journal), between, root.journal, base, u);
      if ok {
        plan := candidate;
      } else {
        between := root.journal;
        var _ := candidate.Rollback(base);
        RecordedTransitive(old(root.journal), between, root.journal, base, u);
      }
    }

    method MakeStage(u: User) returns (plan: AttachmentRestorePlan)
      requires root.Consistent()
      modifies root`disk, root`journal
      ensures root.Consistent() && Staging(old(root.disk), root.disk, u)
      ensures Recorded(old(root.journal), root.journal, old(root.disk), u)
      ensures fresh(plan) && plan.root == root && plan.user == u && plan.gen == old(root.disk).next
      ensures plan.stageNamed && !plan.closed && OwnStage(root.disk, u, plan.gen)
    {
      ghost var base := root.disk;
      var g := root.disk.next;
      assert TableOk(base, base.Root());
      MadeKeepsInv(root.disk, Stage(u, g));
      root.Record(Made(root.disk, Stage(u, g)));
      plan := new AttachmentRestorePlan(root, u, g);
    }

    method FillStage(plan: AttachmentRestorePlan, attachments: seq<BackupAttachment>, ghost base: Disk) returns (ok: bool)
      requires root.Consistent() && plan.root == root && OwnStage(root.disk, plan.user, plan.gen)
      requires plan.gen !in base.trees && Staging(base, root.disk, plan.user)
      modifies root`disk, root`journal
      ensures root.Consistent() && OwnStage(root.disk, plan.user, plan.gen) && Staging(base, root.disk, plan.user)
      ensures Recorded(old(root.journal), root.journal, base, plan.user)
      ensures ok ==> root.disk.views == [root.disk.Root()]
                     && root.disk.trees[plan.gen] == [Content(Token(plan.gen), Manifest(attachments))]
      ensures ok ==> Restorable(attachments)
      ensures root.healthy && Restorable(attachments) ==> ok
    {
      ok := root.Attempt();
      if !ok {
        return;
      }
      var stage := new StageRoot(root, plan.user, plan.gen);
      ok := stage.WriteGeneration(base);
      if !ok {
        return;
      }
      ghost var between := root.journal;
      ok := stage.WriteAttachments(attachments, base);
      RecordedTransitive(old(root.journal), between, root.journal, base, plan.user);
      if !ok {
        return;
      }
      between := root.journal;
      ok := SyncStage(plan, base);
      RecordedTransitive(old(root.journal), between, root.journal, base, plan.user);
    }

    method SyncStage(plan: AttachmentRestorePlan, ghost base: Disk) returns (ok: bool)
      requires root.Consistent() && OwnStage(root.disk, plan.user, plan.gen) && Staging(base, root.disk, plan.user)
      modifies root`disk, root`journal
      ensures root.Consistent() && OwnStage(root.disk, plan.user, plan.gen) && Staging(base, root.disk, plan.user)
      ensures Recorded(old(root.journal), root.journal, base, plan.user)
      ensures root.disk == old(root.disk).(views := root.disk.views)
      ensures ok ==> root.disk.views == [root.disk.Root()]
      ensures root.healthy ==> ok
    {
      ok := root.Sync();
    }
  
    /** `attachmentRestoreMarkerCommitted`. */
    method MarkerCommitted(plan: AttachmentRestorePlan, readable: bool) returns (known: bool, committed: bool)
      requires root.Consistent()
      ensures known == readable
      ensures known ==> (committed <==> plan.user in root.disk.markers && root.disk.markers[plan.user].gen == plan.gen)
    {
      known := readable;
      committed := plan.user in root.disk.markers && root.disk.markers[plan.user].gen == plan.gen;
    }

    /** `RestoreBackup`, after the backup was decoded and its manifest's paths accepted. */
    method RestoreBackup(u: User, rows: int, attached: Attached, db: DbOutcome, readable: bool, transient: bool)
        returns (r: RestoreResult)
      requires Valid() && serving
      modifies root`disk, root`journal, root`healthy, `pending
      ensures Valid()
      ensures attached.Included? ==> AllSafe(root.journal, old(root.disk), u, rows, Manifest(attached.files))
      ensures r == Restored ==> u in root.disk.rows && root.disk.rows == old(root.disk).rows[u := rows]
      ensures r == Restored && attached.Included? ==>
                u in root.disk.markers && DurablyActive(root.disk, u)
                && Complete(root.disk, root.disk.markers[u]) && root.disk.markers[u].files == Manifest(attached.files)
      ensures r == Rejected && attached.Included? ==> StillOld(old(root.disk), root.disk, u)
      ensures attached.Included? ==> Answered(old(pending), pending, old(root.healthy), old(root.disk), root.disk, u, db, readable, r)
      ensures u !in old(pending) && db == Aborts && readable ==> r == Rejected && pending == old(pending)
      ensures old(root.healthy) && u !in old(pending) && readable && attached.Included? ==>
                (r == Restored <==> u != 0 && Restorable(attached.files) && db != Aborts)
      ensures attached.NotIncluded? ==>
                && pending == old(pending)
                && r == (if u in old(pending) then PendingRecovery else if db == Commits then Restored else Rejected)
                && root.disk == (if u in old(pending) || db == Aborts then old(root.disk)
                                 else old(root.disk).(rows := old(root.disk).rows[u := rows]))
    {
      match attached
      case NotIncluded => r := RestoreRows(u, rows, db);
      case Included(files) => r := RestoreWithFiles(u, rows, files, db, readable, transient);
    }

    /** `RestoreBackup` with an attachment manifest.  `db` is what the transaction does and
        `readable` whether the marker row can be read back after an error. */
    method RestoreWithFiles(u: User, rows: int, files: seq<BackupAttachment>, db: DbOutcome, readable: bool, transient: bool)
        returns (r: RestoreResult)
      requires Valid() && serving
      modifies root`disk, root`journal, root`healthy, `pending
      ensures Valid()
      ensures AllSafe(root.journal, old(root.disk), u, rows, Manifest(files))
      ensures r == Restored ==> NowNew(old(root.disk), root.disk, u, rows, Manifest(files))
                                && u !in pending && DurablyActive(root.disk, u) && Complete(root.disk, root.disk.markers[u])
      ensures r == Rejected ==> StillOld(old(root.disk), root.disk, u)
      ensures r == Restored ==> && (forall i :: 0 <= i < |files| ==> files[i].intact)
                                && (forall i, j :: 0 <= i < j < |files| ==> files[i].path != files[j].path)
      ensures r == PendingRecovery && u != 0 ==> u in pending
      ensures old(root.healthy) && u != 0 && u !in old(pending) && Restorable(files) && db != Aborts && readable ==> r == Restored
      ensures Answered(old(pending), pending, old(root.healthy), old(root.disk), root.disk, u, db, readable, r)
      ensures u !in old(pending) && db == Aborts && readable ==> r == Rejected
      ensures old(root.healthy) && u !in old(pending) && readable ==> (r == Restored <==> u != 0 && Restorable(files) && db != Aborts)
    {
      ghost var base := root.disk;
      StagingIsSafe(base, base, u, rows, Manifest(files));
      root.Begin();
      if u in pending {
        return PendingRecovery;
      }
      var plan := PrepareAttachmentRestore(u, files);
      RecordedIsSafe(base, [base], root.journal, u, rows, Manifest(files));
      StagingServed(base, root.disk, u, pending);
      if plan == null {
        StagingIsSafe(base, root.disk, u, rows, Manifest(files));
        return Rejected;
      }
      var outcome := if plan.IsValid() then db else Aborts;
      if outcome == Aborts {
        r := AbandonRestore(plan, base, rows, Manifest(files), readable);
      } else {
        r := CommitRestore(plan, base, rows, Manifest(files), outcome, readable, transient);
      }
    }
  
    /** What a restore does when its transaction failed: unless the marker cannot be read back,
        the stage goes and nothing else has happened. */
    method AbandonRestore(plan: AttachmentRestorePlan, ghost base: Disk, ghost rows: int,
                          ghost files: map<string, string>, readable: bool)
        returns (r: RestoreResult)
      requires Valid() && plan.root == root && Inv(base)
      requires Staging(base, root.disk, plan.user) && OwnStage(root.disk, plan.user, plan.gen) && plan.gen == base.next
      requires AllSafe(root.journal, base, plan.user, rows, files) && ServedOn(base, pending)
      modifies root`disk, root`journal, `pending, plan`stageNamed, plan`closed
      ensures Valid() && StillOld(base, root.disk, plan.user)
      ensures AllSafe(root.journal, base, plan.user, rows, files)
      ensures readable ==> r == Rejected && pending == old(pending)
      ensures !readable ==> r == PendingRecovery && pending == if plan.user == 0 then old(pending) else old(pending) + {plan.user}
      ensures readable && root.healthy && old(plan.stageNamed && !plan.closed) ==> Stage(plan.user, plan.gen) !in root.disk.Root()
    {
      StagingIsSafe(base, root.disk, plan.user, rows, files);
      var known, committed := MarkerCommitted(plan, readable);
      if !known {
        MarkPending(plan.user);
        var _ := plan.Close();
        return PendingRecovery;
      }
      assert plan.user in base.markers ==> MarkerOk(base, plan.user, base.markers[plan.user]);
      assert !committed;
      assert plan.gen !in base.trees;
      ghost var between := root.journal;
      var _ := plan.Rollback(base);
      RecordedIsSafe(base, between, root.journal, plan.user, rows, files);
      StagingIsSafe(base, root.disk, plan.user, rows, files);
      StagingServed(base, root.disk, plan.user, pending);
      r := Rejected;
    }

    method MarkPending(u: User)
      modifies `pending
      ensures pending == if u == 0 then old(pending) else old(pending) + {u}
    {
      if u != 0 {
        pending := pending + {u};
      }
    }

    /** What a restore does once its transaction has committed. */
    method CommitRestore(plan: AttachmentRestorePlan, ghost base: Disk, rows: int,
                         files: map<string, string>, outcome: DbOutcome, readable: bool, transient: bool)
        returns (r: RestoreResult)
      requires root.Consistent() && plan.root == root && Inv(base) && outcome != Aborts
      requires plan.IsValid() && !plan.closed && plan.gen == base.next
      requires Staging(base, root.disk, plan.user) && OwnStage(root.disk, plan.user, plan.gen)
      requires root.disk.views == [root.disk.Root()] && root.disk.trees[plan.gen] == [Content(Token(plan.gen), files)]
      requires AllSafe(root.journal, base, plan.user, rows, files) && ServedOn(base, pending)
      modifies root`disk, root`journal, root`healthy, `pending, plan`stageNamed, plan`closed
      ensures root.Consistent() && Served() && NowNew(base, root.disk, plan.user, rows, files)
      ensures AllSafe(root.journal, base, plan.user, rows, files)
      ensures r == Restored ==> plan.user !in pending && DurablyActive(root.disk, plan.user)
                                && Complete(root.disk, root.disk.markers[plan.user])
      ensures r == Restored || (r == PendingRecovery && plan.user in pending)
      ensures pending == if r == Restored then old(pending) - {plan.user} else old(pending) + {plan.user}
      ensures (readable || outcome == Commits) && (old(root.healthy) || (transient && plan.stageNamed)) ==> r == Restored
    {
      ghost var staged := root.disk;
      ghost var m := Marker(plan.gen, plan.gen, files, false);
      StagedIsReady(base, staged, plan.user, plan.gen, files);
      CommitKeepsInv(staged, plan.user, rows, m);
      ghost var before := root.journal;
      CommitTransaction(plan, rows, files);
      ghost var j := root.journal;
      assert j[..|j| - 1] == before;
      ProgressHere(root.disk, j, j, plan.user);
      ProgressIsSafe(base, staged, j, j, plan.user, rows, m);
      if outcome == CommitsButReportsError {
        var known, committed := MarkerCommitted(plan, readable);
        if !known {
          MarkPending(plan.user);
          RestoredServed(base, root.disk, plan.user, old(pending), pending);
          var _ := plan.Close();
          return PendingRecovery;
        }
        assert committed;
      }
      r := FinishCommitted(plan, base, staged, rows, m, transient);
    }

    /** What follows the commit, known to have happened: the files are moved into place, or the user
        is marked as waiting for recovery. */
    method FinishCommitted(plan: AttachmentRestorePlan, ghost base: Disk, ghost staged: Disk, ghost rows: int,
                           ghost m: Marker, transient: bool) returns (r: RestoreResult)
      requires plan.root == root && plan.Concerns() && plan.IsValid() && !plan.closed && Inv(base)
      requires Staging(base, staged, plan.user) && staged.views == [staged.Root()]
      requires m.gen >= base.next && !m.edited && Inv(Committed(staged, plan.user, rows, m))
      requires root.disk == Committed(staged, plan.user, rows, m)
      requires AllSafe(root.journal[..|root.journal| - 1], base, plan.user, rows, m.files) && ServedOn(base, pending)
      modifies root`disk, root`journal, root`healthy, `pending, plan`stageNamed, plan`closed
      ensures root.Consistent() && Served() && NowNew(base, root.disk, plan.user, rows, m.files)
      ensures AllSafe(root.journal, base, plan.user, rows, m.files)
      ensures r == Restored ==> plan.user !in pending && DurablyActive(root.disk, plan.user)
                                && Complete(root.disk, root.disk.markers[plan.user])
      ensures r == Restored || (r == PendingRecovery && plan.user in pending)
      ensures pending == if r == Restored then old(pending) - {plan.user} else old(pending) + {plan.user}
      ensures old(root.healthy) || (transient && plan.stageNamed) ==> r == Restored
    {
      ghost var j := root.journal;
      var ok, _, _ := Finalize(plan, transient);
      if ok {
        pending := pending - {plan.user};
        r := Restored;
      } else {
        MarkPending(plan.user);
        r := PendingRecovery;
      }
      CommitOutcome(base, staged, j, root.journal, plan.user, rows, m, old(pending), pending, ok);
    }

    /** The transaction's one durable effect: the rows and the marker, together. */
    method CommitTransaction(plan: AttachmentRestorePlan, rows: int, files: map<string, string>)
      requires root.Consistent()
      requires Inv(Committed(root.disk, plan.user, rows, Marker(plan.gen, plan.gen, files, false)))
      modifies root`disk, root`journal
      ensures root.Consistent()
      ensures root.disk == Committed(old(root.disk), plan.user, rows, Marker(plan.gen, plan.gen, files, false))
      ensures root.journal == old(root.journal) + [root.disk]
    {
      root.Record(Committed(root.disk, plan.user, rows, Marker(plan.gen, plan.gen, files, false)));
    }
  
    /** `RestoreBackup` of a backup without file data: the rows change, the files stay, and an
        error reported after the commit is passed on. */
    method RestoreRows(u: User, rows: int, db: DbOutcome) returns (r: RestoreResult)
      requires Valid() && serving
      modifies root`disk, root`journal
      ensures Valid()
      ensures u in pending ==> r == PendingRecovery && root.disk == old(root.disk)
      ensures u !in pending ==>
                && root.disk == (if db == Aborts then old(root.disk) else old(root.disk).(rows := old(root.disk).rows[u := rows]))
                && r == if db == Commits then Restored else Rejected
    {
      root.Begin();
      if u in pending {
        return PendingRecovery;
      }
      if db != Aborts {
        RowsKeepInv(root.disk, u, rows);
        assert forall v :: v in root.disk.markers && DurablyActive(root.disk, v) ==>
                             DurablyActive(root.disk.(rows := root.disk.rows[u := rows]), v);
        root.Record(root.disk.(rows := root.disk.rows[u := rows]));
      }
      r := if db == Commits then Restored else Rejected;
    }

    // ---- startup recovery ----

    /** One user's share of `RecoverAttachmentRestores`: litter left behind by a generation that was seen to
        be active does not count as failure. */
    method RecoverUser(u: User) returns (ok: bool, ghost outcome: Activation, ghost seen: bool)
      requires root.Consistent() && u in root.disk.markers
      modifies root`disk, root`journal, `pending
      ensures root.Consistent() && Recovering(old(root.disk), root.disk)
      ensures Progress(old(root.journal), root.journal, u)
      ensures RecoveryKept(old(root.journal), root.journal, old(root.disk))
      ensures ok ==> DurablyActive(root.disk, u) && pending == old(pending) - {u}
      ensures !ok ==> pending == old(pending) + {u}
      ensures ok <==> outcome == Done || (outcome == CleanupOnly && seen)
      ensures outcome == CleanupOnly ==> DurablyActive(root.disk, u)
      ensures root.healthy ==> ok && root.disk.Root() == Settled(old(root.disk).Root(), u, root.disk.markers[u])
    {
      ghost var before := root.disk;
      assert MarkerOk(root.disk, u, root.disk.markers[u]);
      var plan := new AttachmentRestorePlan(root, u, root.disk.markers[u].gen);
      var r := plan.Commit();
      forall i | |old(root.journal)| <= i < |root.journal| ensures Recovering(before, root.journal[i]) {
        ActivatingRecovers(before, root.journal[i], u);
      }
      ActivatingRecovers(before, root.disk, u);
      var active := true;
      if r != Done {
        var _ := plan.Close();
        active := GenerationActive(plan);
      }
      ok := r == Done || (r != RecoveryPending && active);
      outcome, seen := r, active;
      if ok {
        pending := pending - {u};
      } else {
        pending := pending + {u};
      }
    }

    /** `cleanupOrphanAttachmentStages`: best effort, and blind to referenced stages. */
    method CleanupOrphanStages(referenced: set<Name>)
      requires root.Consistent()
      requires forall u :: u in root.disk.markers ==> Stage(u, root.disk.markers[u].gen) in referenced
      modifies root`disk, root`journal
      ensures root.Consistent() && Recovering(old(root.disk), root.disk)
      ensures RecoveryKept(old(root.journal), root.journal, old(root.disk))
      ensures forall n :: n in root.disk.Root() ==> n in old(root.disk).Root() && root.disk.Root()[n] == old(root.disk).Root()[n]
      ensures forall n :: n in old(root.disk).Root() && n !in root.disk.Root() ==> n.Stage? && n !in referenced
      ensures root.healthy ==> root.disk.Root() == old(root.disk).Root() - Orphans(old(root.disk).Root(), referenced)
    {
      ghost var before := root.disk;
      SyncRecovers(before, before);
      var ok := root.Attempt();
      if !ok {
        return;
      }
      var todo := Orphans(root.disk.Root(), referenced);
      ghost var orphans := todo;
      var removed := false;
      while todo != {}
        invariant root.Consistent() && Recovering(before, root.disk)
        invariant RecoveryKept(old(root.journal), root.journal, before)
        invariant todo <= orphans && root.disk.Root().Keys >= todo
        invariant forall n :: n in root.disk.Root() ==> n in before.Root() && root.disk.Root()[n] == before.Root()[n]
        invariant forall n :: n in before.Root() && n !in root.disk.Root() ==> n in orphans
        invariant root.healthy ==> root.disk.Root() == before.Root() - (orphans - todo)
      {
        var n :| n in todo;
        todo := todo - {n};
        ghost var reached, so := root.disk, root.journal;
        var gone := RemoveOrphan(n, before);
        RecoveryGoesOn(old(root.journal), so, root.journal, before, reached);
        removed := removed || gone;
      }
      if removed {
        ghost var between, so := root.disk, root.journal;
        var _ := root.Sync();
        SyncRecovers(between, root.disk);
        RecoveringTransitive(before, between, root.disk);
        RecoveryGoesOn(old(root.journal), so, root.journal, before, between);
      }
    }

    method RemoveOrphan(n: Name, ghost before: Disk) returns (gone: bool)
      requires root.Consistent() && n.Stage? && n in root.disk.Root()
      requires n.user in root.disk.markers ==> n.gen != root.disk.markers[n.user].gen
      requires Recovering(before, root.disk)
      modifies root`disk, root`journal
      ensures root.Consistent() && Recovering(before, root.disk)
      ensures RecoveryKept(old(root.journal), root.journal, old(root.disk))
      ensures root.disk.Root() == old(root.disk).Root() || root.disk.Root() == old(root.disk).Root() - {n}
      ensures root.healthy ==> root.disk.Root() == old(root.disk).Root() - {n}
    {
      UnmarkedElsewhere(root.disk, n);
      ghost var between := root.disk;
      gone := root.RemoveEntry(n);
      forall i | |old(root.journal)| <= i < |root.journal| ensures Recovering(between, root.journal[i]) {
        assert root.journal[i] in root.journal[|old(root.journal)|..];
        OrphanRemovalRecovers(between, root.journal[i], n);
      }
      OrphanRemovalRecovers(between, root.disk, n);
      RecoveringTransitive(before, between, root.disk);
    }

    /** `RecoverAttachmentRestores`, which must succeed before anything is served.  `loads` says whether
        the markers can be read from the database, `decodable` whose markers are valid. */
    method RecoverAttachmentRestores(hasStorage: bool, loads: bool, decodable: set<User>) returns (ok: bool)
      requires root.Consistent() && !serving
      modifies root`disk, root`journal, `pending
      ensures root.Consistent() && Recovering(old(root.disk), root.disk)
      ensures RecoveryKept(old(root.journal), root.journal, old(root.disk))
      ensures ok ==> forall u :: u in root.disk.markers ==> u !in pending && DurablyActive(root.disk, u)
      ensures ok ==> pending <= old(pending)
      ensures ok ==> loads && (hasStorage ==> root.disk.markers.Keys <= decodable)
      ensures root.healthy && hasStorage && loads && root.disk.markers.Keys <= decodable ==>
                ok && root.disk.Root() == Recovered(old(root.disk).Root(), root.disk.markers)
      ensures !loads ==> !ok && root.disk == old(root.disk) && pending == old(pending)
      ensures loads && !hasStorage ==> (ok <==> root.disk.markers == map[]) && root.disk == old(root.disk)
    {
      ghost var before := root.disk;
      SyncRecovers(before, before);
      if !loads {
        return false;
      }
      if !hasStorage {
        return root.disk.markers == map[];
      }
      var referenced;
      ok, referenced := RecoverMarkedUsers(decodable);
      if !ok {
        return;
      }
      ghost var settled, so := root.disk, root.journal;
      CleanupOrphanStages(referenced);
      RecoveringTransitive(before, settled, root.disk);
      RecoveryGoesOn(old(root.journal), so, root.journal, before, settled);
      RecoveringStaysActive(settled, root.disk);
      if root.healthy && root.disk.markers.Keys <= decodable {
        RecoveredIsCleanedUp(before.Root(), before.markers, settled.Root(), referenced);
      }
    }

    /** The marker loop of `RecoverAttachmentRestores`; the first failure ends it. */
    method RecoverMarkedUsers(decodable: set<User>) returns (ok: bool, referenced: set<Name>)
      requires root.Consistent()
      modifies root`disk, root`journal, `pending
      ensures root.Consistent() && Recovering(old(root.disk), root.disk)
      ensures RecoveryKept(old(root.journal), root.journal, old(root.disk))
      ensures ok ==> forall u :: u in root.disk.markers ==> u !in pending && DurablyActive(root.disk, u)
      ensures ok ==> pending <= old(pending)
      ensures ok ==> forall u :: u in root.disk.markers ==> Stage(u, root.disk.markers[u].gen) in referenced
      ensures forall n :: n in referenced ==> n.Stage? && n.user in root.disk.markers && n.gen == root.disk.markers[n.user].gen
      ensures ok ==> root.disk.markers.Keys <= decodable
      ensures root.healthy && root.disk.markers.Keys <= decodable ==>
                ok && root.disk.Root() == PartlySettled(old(root.disk).Root(), root.disk.markers, root.disk.markers.Keys)
    {
      ghost var before := root.disk;
      SyncRecovers(before, before);
      var todo := root.disk.markers.Keys;
      ghost var done: set<User> := {};
      referenced := {};
      assert PartlySettled(before.Root(), before.markers, done) == before.Root();
      while todo != {}
        invariant root.Consistent() && Recovering(before, root.disk)
        invariant RecoveryKept(old(root.journal), root.journal, before)
        invariant done + todo == before.markers.Keys && done !! todo && done <= decodable
        invariant pending <= old(pending)
        invariant forall u :: u in done ==> u !in pending && DurablyActive(root.disk, u)
        invariant forall u :: u in done ==> Stage(u, before.markers[u].gen) in referenced
        invariant forall n :: n in referenced ==> n.Stage? && n.user in done && n.gen == before.markers[n.user].gen
        invariant root.healthy ==> root.disk.Root() == PartlySettled(before.Root(), before.markers, done)
      {
        var u :| u in todo;
        if u !in decodable {
          return false, referenced;
        }
        referenced := referenced + {Stage(u, root.disk.markers[u].gen)};
        ghost var reached, so := root.disk, root.journal;
        ok := RecoverNext(u, before, done);
        RecoveryGoesOn(old(root.journal), so, root.journal, before, reached);
        done := done + {u};
        if !ok {
          return;
        }
        todo := todo - {u};
      }
      assert done == before.markers.Keys;
      ok := true;
    }

    method RecoverNext(u: User, ghost before: Disk, ghost done: set<User>) returns (ok: bool)
      requires root.Consistent() && u in root.disk.markers && Recovering(before, root.disk)
      requires done <= before.markers.Keys && u !in done
      requires forall v :: v in done ==> v !in pending && DurablyActive(root.disk, v)
      requires root.healthy ==> root.disk.Root() == PartlySettled(before.Root(), before.markers, done)
      modifies root`disk, root`journal, `pending
      ensures root.Consistent() && Recovering(before, root.disk)
      ensures RecoveryKept(old(root.journal), root.journal, old(root.disk))
      ensures ok ==> forall v :: v in done + {u} ==> v !in pending && DurablyActive(root.disk, v)
      ensures ok ==> pending <= old(pending)
      ensures root.healthy ==> ok && root.disk.Root() == PartlySettled(before.Root(), before.markers, done + {u})
    {
      ghost var between := root.disk;
      ghost var outcome, seen;
      ok, outcome, seen := RecoverUser(u);
      RecoveringTransitive(before, between, root.disk);
      RecoveringStaysActive(between, root.disk);
      if ok {
        forall v | v in done + {u} ensures v !in pending && DurablyActive(root.disk, v) {
          if v != u { assert v in between.markers && DurablyActive(between, v); }
        }
      }
      if root.healthy {
        SettleOneMore(before.Root(), before.markers, done, u);
      }
    }
  
    /** Startup: nothing is served unless recovery succeeded. */
    method Start(hasStorage: bool, loads: bool, decodable: set<User>) returns (ok: bool)
      requires root.Consistent() && !serving
      modifies root`disk, root`journal, `pending, `serving
      ensures Valid() && serving == ok && Recovering(old(root.disk), root.disk)
      ensures ok ==> pending <= old(pending) && forall u :: u in root.disk.markers ==> u !in pending
      ensures forall d :: d in root.journal ==> Recovering(old(root.disk), d)
      ensures root.healthy && hasStorage && loads && root.disk.markers.Keys <= decodable ==>
                ok && root.disk.Root() == Recovered(old(root.disk).Root(), root.disk.markers)
    {
      ghost var before := root.disk;
      SyncRecovers(before, before);
      root.Begin();
      ok := RecoverAttachmentRestores(hasStorage, loads, decodable);
      serving := ok;
      forall d | d in root.journal ensures Recovering(before, d) {
        var i :| 0 <= i < |root.journal| && root.journal[i] == d;
      }
    }

    // ---- the users of the active directories, under the shared barrier ----

    /** Any reader: the pending check, then the user's active directory. */
    method ReadAttachments(u: User) returns (r: ReadResult)
      requires Valid() && serving
      ensures r.Unavailable? <==> u in pending
      ensures u in root.disk.markers && u !in pending ==>
                var m := root.disk.markers[u];
                r.Opened? && r.content.token == Token(m.gen) && (!m.edited ==> r.content.files == m.files)
    {
      if u in pending {
        return Unavailable;
      }
      if u in root.disk.markers {
        TokenTellsPlace(root.disk, u);
        ServedIsActive(root.disk, u, pending);
        assert MarkerOk(root.disk, u, root.disk.markers[u]);
      }
      if Active(u) !in root.disk.Root() {
        return NoDirectory;
      }
      assert TableOk(root.disk, root.disk.Root());
      r := Opened(root.disk.Latest(root.disk.Root()[Active(u)]));
    }

    /** Any change of the files in the user's active directory, which exists. */
    method EditFiles(u: User, files: map<string, string>)
      requires Valid() && serving && u !in pending && Active(u) in root.disk.Root()
      modifies root`disk, root`journal
      ensures Valid() && root.disk.Root() == old(root.disk).Root() && root.disk.rows == old(root.disk).rows
      ensures SameGenerations(old(root.disk), root.disk)
      ensures FilesOf(root.disk, u) == files
    {
      assert TableOk(root.disk, root.disk.Root());
      var c := root.disk.Latest(root.disk.Root()[Active(u)]).(files := files);
      EditKeepsInv(root.disk, u, c);
      EditServed(root.disk, u, c, pending);
      root.Record(Edited(root.disk, u, c));
    }

    /** `Upload`: the data is written under a temporary name, in a directory that is made when it is
        missing, and published under the first of two names that is free.  Whatever fails, no file
        that was there is lost or overwritten, and no other user's directory is touched. */
    method Upload(u: User, names: seq<string>, temp: string, data: string, part: string) returns (r: UploadResult)
      requires Valid() && serving && |names| == 2 && temp !in names
      modifies root`disk, root`journal
      ensures Valid() && root.disk.rows == old(root.disk).rows && SameGenerations(old(root.disk), root.disk)
      ensures r == NotAvailable <==> u in pending
      ensures r == NotAvailable ==> root.disk == old(root.disk)
      ensures forall p :: p in FilesOf(old(root.disk), u) ==>
                p in FilesOf(root.disk, u) && FilesOf(root.disk, u)[p] == FilesOf(old(root.disk), u)[p]
      ensures r.Stored? ==>
                && r.name in names && r.name !in FilesOf(old(root.disk), u)
                && FilesOf(root.disk, u) == FilesOf(old(root.disk), u)[r.name := data]
      ensures root.healthy && u !in pending && temp !in FilesOf(old(root.disk), u) && names[0] !in FilesOf(old(root.disk), u) ==>
                r == Stored(names[0])
    {
      root.Begin();
      if u in pending {
        return NotAvailable;
      }
      var ok := root.Attempt();
      if !ok {
        return NotStored;
      }
      if Active(u) !in root.disk.Root() {
        MakeUserDirectory(u);
      }
      r := WriteUpload(u, names, temp, data, part);
    }

    /** The part of an upload after its directory is there. */
    method WriteUpload(u: User, names: seq<string>, temp: string, data: string, part: string) returns (r: UploadResult)
      requires Valid() && serving && u !in pending && Active(u) in root.disk.Root() && |names| == 2 && temp !in names
      modifies root`disk, root`journal
      ensures Valid() && root.disk.rows == old(root.disk).rows && SameGenerations(old(root.disk), root.disk)
      ensures r != NotAvailable
      ensures forall p :: p in FilesOf(old(root.disk), u) ==>
                p in FilesOf(root.disk, u) && FilesOf(root.disk, u)[p] == FilesOf(old(root.disk), u)[p]
      ensures r.Stored? ==>
                && r.name in names && r.name !in FilesOf(old(root.disk), u)
                && FilesOf(root.disk, u) == FilesOf(old(root.disk), u)[r.name := data]
      ensures root.healthy && temp !in FilesOf(old(root.disk), u) && names[0] !in FilesOf(old(root.disk), u) ==>
                r == Stored(names[0])
    {
      var files := FilesOf(root.disk, u);
      var ok := root.Attempt();
      if !ok || temp in files {
        return NotStored;
      }
      var copied := root.Attempt();
      EditFiles(u, files[temp := if copied then data else part]);
      var published := root.Attempt();
      if copied && published && names[0] !in files {
        r := Stored(names[0]);
        EditFiles(u, files[names[0] := data]);
      } else if copied && published && names[1] !in files {
        r := Stored(names[1]);
        EditFiles(u, files[names[1] := data]);
      } else {
        r := NotStored;
        var removed := root.Attempt();
        if removed {
          EditFiles(u, files);
        }
      }
    }

    method MakeUserDirectory(u: User)
      requires Valid() && serving && u !in pending && Active(u) !in root.disk.Root()
      modifies root`disk, root`journal
      ensures Valid() && Active(u) in root.disk.Root() && u !in root.disk.markers && FilesOf(root.disk, u) == map[]
      ensures root.disk.markers == old(root.disk).markers && root.disk.rows == old(root.disk).rows
    {
      if u in root.disk.markers {
        ServedIsActive(root.disk, u, pending);
      }
      MadeKeepsInv(root.disk, Active(u));
      MadeServed(root.disk, u, pending);
      root.Record(Made(root.disk, Active(u)));
    }

    // ---- crashes ----

    /** The process dies in some state it passed through; the disk keeps what it had made
        durable by then, and the memory of the process is gone. */
    method Crash()
      requires root.Consistent()
      modifies root`disk, root`journal, `pending, `serving
      ensures root.Consistent() && !serving && pending == {}
      ensures exists s :: s in old(root.journal) && CrashImage(s, root.disk)
      ensures forall u :: u in root.disk.markers && !root.disk.markers[u].edited ==> Complete(root.disk, root.disk.markers[u])
    {
      var j :| 0 <= j < |root.journal|;
      var s := root.journal[j];
      var image := PickImage(s);
      CrashKeepsInv(s, image);
      root.disk := image;
      root.journal := [image];
      pending, serving := {}, false;
    }

    method PickImage(s: Disk) returns (image: Disk)
      requires Inv(s)
      ensures CrashImage(s, image)
    {
      var k :| 0 <= k < |s.views|;
      var trees: map<TreeId, seq<Content>> := map[];
      var todo := s.trees.Keys;
      while todo != {}
        invariant todo <= s.trees.Keys && trees.Keys == s.trees.Keys - todo
        invariant forall id :: id in trees ==> exists c :: c in s.trees[id] && trees[id] == [c]
      {
        var id :| id in todo;
        var i :| 0 <= i < |s.trees[id]|;
        trees := trees[id := [s.trees[id][i]]];
        todo := todo - {id};
      }
      image := Disk([s.views[k]], trees, s.markers, s.rows, s.next);
      assert s.views[k] in s.views;
    }

    /** A restore that began on disk `d`, any number of crashes, the first anywhere inside the restore and
        the others anywhere inside the recovery attempts that followed, and then one start without
        failures: the rows and the files are both the old ones or both the new ones. */
    method SurviveCrashes(crashes: nat, ghost d: Disk, ghost u: User, ghost rows: int, ghost files: map<string, string>)
      requires root.Consistent() && !root.healthy && Inv(d) && AllSafe(root.journal, d, u, rows, files)
      modifies root, `pending, `serving
      ensures Valid() && serving && pending == {}
      ensures OldAgain(d, root.disk, u) || NewNow(d, root.disk, u, rows, files)
      ensures forall v :: v in root.disk.markers ==>
                DurablyActive(root.disk, v) && (!root.disk.markers[v].edited ==> Complete(root.disk, root.disk.markers[v]))
    {
      ghost var s := CrashSomewhere();
      CrashLeavesUndecided(d, s, root.disk, u, rows, files);
      for i := 0 to crashes
        invariant root.Consistent() && !root.healthy && !serving && pending == {}
        invariant Undecided(d, root.disk, u, rows, files)
      {
        ghost var before := root.disk;
        ghost var reached := AttemptAndCrash();
        StaysUndecided(d, before, reached, root.disk, u, rows, files);
      }
      root.healthy := true;
      ghost var before := root.disk;
      var ok := Start(true, true, root.disk.markers.Keys);
      forall v | v in root.disk.markers ensures DurablyActive(root.disk, v) {
      }
      RecoveryDecides(d, before, root.disk, u, rows, files);
      forall v | v in root.disk.markers && !root.disk.markers[v].edited ensures Complete(root.disk, root.disk.markers[v]) {
        assert MarkerOk(root.disk, v, root.disk.markers[v]);
      }
    }

    method CrashSomewhere() returns (ghost s: Disk)
      requires root.Consistent()
      modifies root`disk, root`journal, `pending, `serving
      ensures root.Consistent() && !serving && pending == {}
      ensures s in old(root.journal) && Inv(s) && CrashImage(s, root.disk)
    {
      Crash();
      s :| s in old(root.journal) && CrashImage(s, root.disk);
    }

    /** A recovery attempt that dies in state `reached`.  No rename that an earlier attempt made durable
        is undone, for anyone. */
    method AttemptAndCrash() returns (ghost reached: Disk)
      requires root.Consistent() && !serving && pending == {}
      modifies root`disk, root`journal, `pending, `serving
      ensures root.Consistent() && !serving && pending == {}
      ensures Recovering(old(root.disk), reached) && CrashImage(reached, root.disk)
      ensures |old(root.disk).views| == 1 ==>
                forall v :: v in root.disk.markers && v in old(root.disk).markers ==>
                  RenamesLeft(root.disk.Root(), v, old(root.disk).markers[v])
                  <= RenamesLeft(old(root.disk).Root(), v, old(root.disk).markers[v])
    {
      ghost var before := root.disk;
      var hasStorage: bool, loads: bool := *, *;
      var decodable := {};
      if * {
        decodable := root.disk.markers.Keys;
      }
      var _ := Start(hasStorage, loads, decodable);
      reached := CrashSomewhere();
      forall v | |before.views| == 1 && v in before.markers
        ensures RenamesLeft(root.disk.Root(), v, before.markers[v]) <= RenamesLeft(before.Root(), v, before.markers[v])
      {
        assert AdvancedFor(before, reached, v);
        assert root.disk.Root() in reached.views;
      }
    }

    /** A restore with any outcome, any number of crashes from within it on, and a clean start. */
    method RestoreAndSurvive(u: User, rows: int, files: seq<BackupAttachment>, db: DbOutcome, readable: bool, transient: bool,
                             crashes: nat)
      requires Valid() && serving
      modifies root, `pending, `serving
      ensures Valid() && serving && pending == {}
      ensures OldAgain(old(root.disk), root.disk, u) || NewNow(old(root.disk), root.disk, u, rows, Manifest(files))
    {
      ghost var d := root.disk;
      var _ := RestoreBackup(u, rows, Included(files), db, readable, transient);
      root.healthy := false;
      SurviveCrashes(crashes, d, u, rows, Manifest(files));
    }
  }
}

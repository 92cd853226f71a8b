/**
 The process-wide storage barrier under every interleaving of its users.

 Each method is one atomic step of one thread; the steps of different threads come in any order,
 and the process may crash and start again between any two of them.  A thread whose request is not
 granted keeps waiting.
 */
module AttachmentBarrier {
  import opened AttachmentDisk
  import opened AttachmentRoot
  import opened AttachmentStaging
  import opened AttachmentSafety
  import opened AttachmentService

  type Thread = nat

  class StorageBarrier {
    const service: BackupService
    var readers: set<Thread>
    var writer: set<Thread>  // empty, or the one thread that holds the barrier exclusively
    var checked: map<Thread, User>  // readers that passed the pending check, and for whom
    var disk: Disk  // what a thread would find now; while the writer works, any state it passes through

    ghost predicate Valid()
      reads this, service, service.root
    {
      && service.Valid() && |writer| <= 1
      && (readers != {} ==> writer == {})
      && (writer == {} ==> disk == service.root.disk)
      && checked.Keys <= readers
      && (forall t :: t in checked ==> service.serving && checked[t] !in service.pending)
    }

    constructor (service: BackupService)
      requires service.Valid() && !service.serving
      ensures Valid() && this.service == service && readers == {} && writer == {}
    {
      this.service, readers, writer, checked := service, {}, {}, map[];
      disk := service.root.disk;
    }

    method AcquireRead(t: Thread) returns (granted: bool)
      requires Valid()
      modifies `readers
      ensures Valid() && (granted <==> writer == {})
      ensures readers == if granted then old(readers) + {t} else old(readers)
    {
      granted := writer == {};
      if granted {
        readers := readers + {t};
      }
    }

    method AcquireWrite(t: Thread) returns (granted: bool)
      requires Valid()
      modifies `writer
      ensures Valid() && (granted <==> readers == {} && old(writer) == {})
      ensures writer == if granted then {t} else old(writer)
    {
      granted := readers == {} && writer == {};
      if granted {
        writer := {t};
      }
    }

    // ---- under the exclusive side ----

    lemma OneWriter()
      requires Valid() && writer != {}
      ensures readers == {} && checked == map[]
    {
      assert checked.Keys == {};
    }

    /** The writer restores a backup; the others see none of it before `ShowState` or `ReleaseWrite`. */
    method Restore(t: Thread, u: User, rows: int, attached: Attached, db: DbOutcome, readable: bool, transient: bool)
        returns (r: RestoreResult)
      requires Valid() && t in writer && service.serving
      modifies service`pending, service.root`disk, service.root`journal, service.root`healthy
      ensures Valid()
    {
      OneWriter();
      r := service.RestoreBackup(u, rows, attached, db, readable, transient);
    }

    /** Startup recovery, which takes the exclusive side before anything is served. */
    method Recover(t: Thread, hasStorage: bool, loads: bool, decodable: set<User>) returns (ok: bool)
      requires Valid() && t in writer && !service.serving
      modifies service`pending, service`serving, service.root`disk, service.root`journal
      ensures Valid() && service.serving == ok
    {
      OneWriter();
      ok := service.Start(hasStorage, loads, decodable);
    }

    /** At some moment of the writer's work the disk is in a state of its journal. */
    method ShowState(t: Thread, i: nat)
      requires Valid() && t in writer && i < |service.root.journal|
      modifies `disk
      ensures Valid() && disk == service.root.journal[i]
    {
      disk := service.root.journal[i];
    }

    /** The writer lets go when its operation has returned. */
    method ReleaseWrite(t: Thread)
      requires Valid() && t in writer
      modifies `writer, `disk
      ensures Valid() && writer == {}
    {
      writer, disk := {}, service.root.disk;
    }

    // ---- under the shared side ----

    /** `AttachmentStorageAvailable`, asked while holding the barrier. */
    method CheckAvailable(t: Thread, u: User) returns (available: bool)
      requires Valid() && t in readers && service.serving
      modifies `checked
      ensures Valid() && (available <==> u !in service.pending)
      ensures available ==> checked == old(checked)[t := u]
      ensures !available ==> checked == old(checked)
    {
      available := u !in service.pending;
      if available {
        checked := checked[t := u];
      }
    }

    /** A thread that passed the check makes the user's directory, as an upload does. */
    method MakeDirectory(t: Thread)
      requires Valid() && t in checked && Active(checked[t]) !in service.root.disk.Root()
      modifies `disk, service.root`disk, service.root`journal
      ensures Valid() && Active(checked[t]) in disk.Root()
    {
      service.MakeUserDirectory(checked[t]);
      disk := service.root.disk;
    }

    /** A thread that passed the check changes files of the user; an upload is a few of these steps,
        and those of concurrent uploads mix. */
    method Edit(t: Thread, files: map<string, string>)
      requires Valid() && t in checked && Active(checked[t]) in service.root.disk.Root()
      modifies `disk, service.root`disk, service.root`journal
      ensures Valid() && FilesOf(disk, checked[t]) == files
    {
      service.EditFiles(checked[t], files);
      disk := service.root.disk;
    }

    method ReleaseRead(t: Thread)
      requires Valid() && t in readers
      modifies `readers, `checked
      ensures Valid() && readers == old(readers) - {t}
      ensures checked == old(checked) - {t}
    {
      readers := readers - {t};
      checked := checked - {t};
    }

    /** The process dies, in the middle of a writer's work or not, and all its threads with it. */
    method Crash()
      requires Valid()
      modifies this, service`pending, service`serving, service.root`disk, service.root`journal
      ensures Valid() && readers == {} && writer == {} && !service.serving
    {
      service.Crash();
      readers, writer, checked := {}, {}, map[];
      disk := service.root.disk;
    }

    /** Whatever happened between the check and this observation, restores, recoveries, crashes and
        other threads' uploads included, a reader that passed the check finds the generation of the
        committed marker active, with the manifest's files until someone edits them, or there is no
        marker. */
    lemma ReaderSeesMarker(t: Thread)
      requires Valid() && t in checked
      ensures var u := checked[t]; u in disk.markers ==>
                disk.views != [] && InPlace(disk.Root(), u, disk.markers[u])
                && disk.markers[u].tree in disk.trees
                && (forall c :: c in disk.trees[disk.markers[u].tree] ==> c.token == Token(disk.markers[u].gen))
                && (!disk.markers[u].edited ==> FilesOf(disk, u) == disk.markers[u].files)
    {
      var u := checked[t];
      if u in disk.markers {
        ServedIsActive(disk, u, service.pending);
        assert MarkerOk(disk, u, disk.markers[u]);
      }
    }
  }
}

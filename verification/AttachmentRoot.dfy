/**
 The upload root as an object: the primitive operations of the restore protocol, each of
 which may fail, and a journal of every state the running operation has passed through.
 A crash may strike at any state of the journal.
 */
module AttachmentRoot {
  import opened AttachmentDisk

  datatype GenerationRead = Missing | Found(gen: Generation) | Unreadable
  datatype Probe = Yes | No | Failed

  /** Only the contents of `n`'s tree have changed. */
  ghost predicate Emptying(d: Disk, n: Name, s: Disk)
    requires d.views != [] && n in d.Root()
  {
    && s == d.(trees := s.trees) && s.trees.Keys == d.trees.Keys
    && (forall id :: id in d.trees && id != d.Root()[n] ==> s.trees[id] == d.trees[id])
  }

  /** What taking entry `n` away, completely or in part, can have made of disk `d`. */
  ghost predicate RemovalOf(d: Disk, n: Name, s: Disk)
    requires d.views != []
  {
    && s.views != [] && (s.Root() == d.Root() || s.Root() == d.Root() - {n})
    && (forall t :: t in s.views ==> t in d.views || t == d.Root() - {n})
    && s.trees.Keys == d.trees.Keys
    && (forall id :: id in d.trees && (n in d.Root() ==> id != d.Root()[n]) ==> s.trees[id] == d.trees[id])
    && s.markers == d.markers && s.rows == d.rows && s.next == d.next
  }

  lemma EmptyingGoesOn(d: Disk, n: Name, s: Disk, left: Content)
    requires d.views != [] && n in d.Root() && Emptying(d, n, s) && d.Root()[n] in s.trees
    ensures Emptying(d, n, Wrote(s, d.Root()[n], left))
  {
  }

  lemma EmptyingIsRemoval(d: Disk, n: Name, s: Disk)
    requires d.views != [] && n in d.Root() && Emptying(d, n, s)
    ensures RemovalOf(d, n, s) && RemovalOf(d, n, Pushed(s, s.Root() - {n}))
  {
  }

  /** The tree at entry `n`, if there is one, carries token `k`. */
  ghost predicate Carries(d: Disk, n: Name, k: Token)
    requires d.views != []
  {
    n in d.Root() && d.Root()[n] in d.trees && d.trees[d.Root()[n]] != [] && d.Latest(d.Root()[n]).token == k
  }

  class UploadRoot {
    var disk: Disk
    var journal: seq<Disk>
    var healthy: bool

    ghost predicate Consistent()
      reads this
    {
      && Inv(disk)
      && journal != [] && journal[|journal| - 1] == disk
      && forall s :: s in journal ==> Inv(s)
    }

    constructor (start: Disk)
      requires Inv(start)
      ensures Consistent() && disk == start && journal == [start]
    {
      disk, journal, healthy := start, [start], true;
    }

    /** A system call: while the storage is healthy it succeeds. */
    method Attempt() returns (ok: bool)
      ensures healthy ==> ok
    {
      ok := true;
      if !healthy {
        ok := *;
      }
    }

    method Record(next: Disk)
      requires Consistent() && Inv(next)
      modifies `disk, `journal
      ensures Consistent() && disk == next && journal == old(journal) + [next]
    {
      disk := next;
      journal := journal + [next];
    }

    /** Forgets the states before the operation that now starts. */
    method Begin()
      requires Consistent()
      modifies `journal
      ensures Consistent() && journal == [disk]
    {
      journal := [disk];
    }

    method Sync() returns (ok: bool)
      requires Consistent()
      modifies `disk, `journal
      ensures Consistent() && journal == old(journal) + [disk]
      ensures ok ==> disk == Synced(old(disk))
      ensures disk.Root() == old(disk.Root()) && disk == old(disk).(views := disk.views)
      ensures forall t :: t in disk.views ==> t in old(disk.views)
      ensures healthy ==> ok
    {
      ok := Attempt();
      var k: nat := |disk.views| - 1;
      if !ok {
        var j: nat :| j < |disk.views|;
        k := j;
      }
      SyncKeepsInv(disk, k);
      assert forall t :: t in disk.views[k..] ==> t in disk.views;
      Record(disk.(views := disk.views[k..]));
    }

    method Rename(a: Name, b: Name) returns (ok: bool)
      requires Consistent() && a in disk.Root() && b !in disk.Root()
      requires Inv(Pushed(disk, Moved(disk.Root(), a, b)))
      modifies `disk, `journal
      ensures Consistent()
      ensures ok ==> disk == Pushed(old(disk), Moved(old(disk.Root()), a, b)) && journal == old(journal) + [disk]
      ensures !ok ==> disk == old(disk) && journal == old(journal)
      ensures healthy ==> ok
    {
      ok := Attempt();
      if ok {
        Record(Pushed(disk, Moved(disk.Root(), a, b)));
      }
    }

    /** `readAttachmentRestoreGeneration`. */
    method ReadGeneration(n: Name) returns (r: GenerationRead)
      requires Consistent()
      ensures r.Found? ==> Carries(disk, n, Token(r.gen))
      ensures r.Missing? ==> n !in disk.Root() || Carries(disk, n, NoToken)
      ensures healthy && r.Unreadable? ==> Carries(disk, n, Malformed)
    {
      assert TableOk(disk, disk.Root());
      var ok := Attempt();
      if !ok {
        return Unreadable;
      }
      if n !in disk.Root() {
        return Missing;
      }
      match disk.Latest(disk.Root()[n]).token
      case NoToken => r := Missing;
      case Token(g) => r := Found(g);
      case Malformed => r := Unreadable;
    }

    /** `rootDirectoryExists`. */
    method DirectoryExists(n: Name) returns (r: Probe)
      requires Consistent()
      ensures r == Yes ==> n in disk.Root()
      ensures r == No ==> n !in disk.Root()
      ensures healthy ==> r != Failed
    {
      var ok := Attempt();
      r := if !ok then Failed else if n in disk.Root() then Yes else No;
    }

    /** Deletes the files below `n` one at a time; `ok` says that all of them are gone. */
    method EmptyTree(n: Name) returns (ok: bool)
      requires Consistent() && !n.Active? && n in disk.Root() && Unmarked(disk, disk.Root()[n])
      modifies `disk, `journal
      ensures Consistent() && old(journal) <= journal
      ensures disk.views == old(disk.views) && Emptying(old(disk), n, disk)
      ensures forall s :: s in journal[|old(journal)|..] ==> Emptying(old(disk), n, s)
      ensures healthy ==> ok
    {
      ghost var before := disk;
      assert TableOk(disk, disk.Root());
      var id := disk.Root()[n];
      var left := disk.Latest(id);
      assert left in disk.trees[id];
      var tokenToo: bool := *;
      if tokenToo {
        left := left.(token := NoToken);
      }
      ok := true;
      while ok && left.files != map[]
        invariant Consistent() && old(journal) <= journal
        invariant Emptying(before, n, disk)
        invariant forall s :: s in journal[|old(journal)|..] ==> Emptying(before, n, s)
        invariant left.token == NoToken || left.token == disk.Latest(id).token
        invariant healthy ==> ok
        decreases |left.files|, ok
      {
        ok := Attempt();
        if ok {
          ghost var was := disk;
          left := RemoveFile(id, left);
          EmptyingGoesOn(before, n, was, left);
        }
      }
    }

    method RemoveFile(id: TreeId, from: Content) returns (left: Content)
      requires Consistent() && id in disk.trees && disk.trees[id] != [] && Unmarked(disk, id)
      requires from.files != map[] && (from.token == NoToken || from.token == disk.Latest(id).token)
      modifies `disk, `journal
      ensures Consistent() && disk == Wrote(old(disk), id, left) && journal == old(journal) + [disk]
      ensures left.token == from.token && |left.files| < |from.files|
    {
      var file :| file in from.files.Keys;
      left := from.(files := from.files - {file});
      assert left.files.Keys == from.files.Keys - {file};
      assert disk.Latest(id) in disk.trees[id];
      WriteKeepsInv(disk, id, left);
      Record(Wrote(disk, id, left));
    }

    /** `removeRootEntry`: the files of the tree go one at a time, the entry itself last, and
        the call may give up anywhere in between. */
    method RemoveEntry(n: Name) returns (ok: bool)
      requires Consistent() && !n.Active?
      requires n in disk.Root() ==> Unmarked(disk, disk.Root()[n])
      modifies `disk, `journal
      ensures Consistent() && old(journal) <= journal
      ensures RemovalOf(old(disk), n, disk)
      ensures forall s :: s in journal[|old(journal)|..] ==> RemovalOf(old(disk), n, s)
      ensures ok ==> disk.Root() == old(disk.Root()) - {n}
      ensures n !in old(disk.Root()) ==> disk == old(disk) && journal == old(journal)
      ensures healthy ==> ok
    {
      ok := Attempt();
      if !ok || n !in disk.Root() {
        return;
      }
      ghost var before := disk;
      ok := EmptyTree(n);
      forall s | s in journal[|old(journal)|..] ensures RemovalOf(before, n, s) {
        EmptyingIsRemoval(before, n, s);
      }
      EmptyingIsRemoval(before, n, disk);
      if !ok {
        return;
      }
      ok := Attempt();
      if ok {
        Unlink(n);
      }
    }

    /** Takes the entry itself away. */
    method Unlink(n: Name)
      requires Consistent() && !n.Active? && n in disk.Root() && Unmarked(disk, disk.Root()[n])
      modifies `disk, `journal
      ensures Consistent() && disk == Pushed(old(disk), old(disk.Root()) - {n}) && journal == old(journal) + [disk]
    {
      UnlinkKeepsInv(disk, n);
      Record(Pushed(disk, disk.Root() - {n}));
    }
  }
}

/**
 Staging: writing a new generation beside the active tree, durably, without touching
 anything that was there before.
 */
module AttachmentStaging {
  import opened AttachmentDisk
  import opened AttachmentRoot

  /** A file of the manifest; `intact` says that its size and checksum fit its data. */
  datatype BackupAttachment = BackupAttachment(path: string, data: string, intact: bool)

  /** The files of a manifest whose paths are distinct. */
  function Manifest(attachments: seq<BackupAttachment>): map<string, string> {
    if attachments == [] then map[]
    else
      var last := attachments[|attachments| - 1];
      Manifest(attachments[..|attachments| - 1])[last.path := last.data]
  }

  /** Every file fits its checksum and no path occurs twice. */
  predicate Restorable(attachments: seq<BackupAttachment>) {
    && (forall i :: 0 <= i < |attachments| ==> attachments[i].intact)
    && (forall i, j :: 0 <= i < j < |attachments| ==> attachments[i].path != attachments[j].path)
  }

  lemma RestorableAppended(before: seq<BackupAttachment>, a: BackupAttachment)
    ensures Restorable(before + [a]) <==>
              Restorable(before) && a.intact && forall i :: 0 <= i < |before| ==> before[i].path != a.path
  {
    var more := before + [a];
    assert more[|before|] == a && forall i :: 0 <= i < |before| ==> more[i] == before[i];
  }

  lemma RestorablePrefix(attachments: seq<BackupAttachment>, n: nat)
    requires n <= |attachments| && Restorable(attachments)
    ensures Restorable(attachments[..n])
  {
  }

  lemma {:induction false} ManifestHas(attachments: seq<BackupAttachment>, p: string)
    ensures p in Manifest(attachments) <==> exists i :: 0 <= i < |attachments| && attachments[i].path == p
  {
    if attachments != [] {
      var n := |attachments| - 1;
      var init := attachments[..n];
      ManifestHas(init, p);
      assert (exists i :: 0 <= i < n && init[i].path == p) <==> exists i :: 0 <= i < n && attachments[i].path == p;
    }
  }

  /** A restorable manifest holds every file under its path. */
  lemma {:induction false} ManifestHolds(attachments: seq<BackupAttachment>, i: nat)
    requires Restorable(attachments) && i < |attachments|
    ensures attachments[i].path in Manifest(attachments) && Manifest(attachments)[attachments[i].path] == attachments[i].data
  {
    var n := |attachments| - 1;
    if i < n {
      RestorablePrefix(attachments, n);
      ManifestHolds(attachments[..n], i);
    }
  }

  lemma AppendManifest(attachments: seq<BackupAttachment>, n: nat)
    requires n < |attachments| && Restorable(attachments[..n])
    ensures var a := attachments[n]; var before := Manifest(attachments[..n]);
            && Manifest(attachments[..n + 1]) == before[a.path := a.data]
            && (Restorable(attachments[..n + 1]) <==> a.intact && a.path !in before)
            && (Restorable(attachments) ==> a.intact && a.path !in before)
  {
    var a := attachments[n];
    assert attachments[..n + 1] == attachments[..n] + [a];
    assert attachments[..n + 1][..n] == attachments[..n];
    ManifestHas(attachments[..n], a.path);
    RestorableAppended(attachments[..n], a);
    if Restorable(attachments) {
      RestorablePrefix(attachments, n + 1);
    }
  }

  /** `t'` differs from `t` at most in stages of `u` numbered `k` or later. */
  ghost predicate BesideStages(t: Table, t': Table, u: User, k: nat) {
    forall n: Name :: !(n.Stage? && n.user == u && n.gen >= k) ==>
      (n in t <==> n in t') && (n in t ==> t[n] == t'[n])
  }

  /** From `d` to `s` only new stages of `u` appeared or vanished. */
  ghost predicate Staging(d: Disk, s: Disk, u: User) {
    && d.views != [] && s.views != []
    && s.markers == d.markers && s.rows == d.rows && d.next <= s.next
    && (forall id :: id in d.trees ==> id in s.trees && s.trees[id] == d.trees[id])
    && BesideStages(d.Root(), s.Root(), u, d.next)
    && (forall t :: t in s.views ==> t in d.views || BesideStages(d.Root(), t, u, d.next))
  }

  /** All states that journal `k` has beyond journal `j` are staging states over `base`. */
  ghost predicate Recorded(j: seq<Disk>, k: seq<Disk>, base: Disk, u: User) {
    j <= k && forall i :: |j| <= i < |k| ==> Staging(base, k[i], u)
  }

  lemma RecordedTransitive(j: seq<Disk>, k: seq<Disk>, l: seq<Disk>, base: Disk, u: User)
    requires Recorded(j, k, base, u) && Recorded(k, l, base, u)
    ensures Recorded(j, l, base, u)
  {
    assert forall i :: |j| <= i < |k| ==> l[i] == k[i];
  }

  /** Stage `g` of `u` exists, holds tree number `g`, and nothing refers to that tree. */
  ghost predicate OwnStage(d: Disk, u: User, g: Generation) {
    && d.views != []
    && Stage(u, g) in d.Root() && d.Root()[Stage(u, g)] == g
    && g in d.trees && g < d.next
    && Unmarked(d, g) && NeverActive(d, g)
  }

  /** Making the contents of an unreferenced tree durable. */
  lemma ContentSyncKeepsInv(d: Disk, id: TreeId)
    requires Inv(d) && id in d.trees && d.trees[id] != [] && Unmarked(d, id)
    ensures Inv(d.(trees := d.trees[id := [d.Latest(id)]]))
  {
    var d' := d.(trees := d.trees[id := [d.Latest(id)]]);
    assert d.Latest(id) in d.trees[id];
    assert forall i, x :: i in d'.trees && x in d'.trees[i] ==> x in d.trees[i];
    forall t | t in d'.views ensures TableOk(d', t) { assert TableOk(d, t); }
    forall u | u in d'.markers ensures MarkerOk(d', u, d'.markers[u]) {
      var m := d.markers[u];
      assert MarkerOk(d, u, m);
      forall t | t in d'.views ensures Located(d', t, u, m) {
        assert Located(d, t, u, m);
        if Waiting(d, t, u, m) { assert Waiting(d', t, u, m); }
      }
    }
  }

  /** A staged, complete and synced generation is ready for the database to name it. */
  lemma StagedIsReady(base: Disk, d: Disk, u: User, g: Generation, files: map<string, string>)
    requires Inv(base) && Inv(d) && Staging(base, d, u) && OwnStage(d, u, g)
    requires u != 0 && g == base.next && d.views == [d.Root()]
    requires d.trees[g] == [Content(Token(g), files)]
    ensures Ready(d, u, Marker(g, g, files, false))
  {
    var m := Marker(g, g, files, false);
    assert TableOk(base, base.Root()) && TableOk(d, d.Root());
    assert !(Previous(u, g) in base.Root());
    if Active(u) in d.Root() {
      var id := d.Root()[Active(u)];
      assert Active(u) in base.Root() && base.Root()[Active(u)] == id && id in base.trees;
      assert d.trees[id] == base.trees[id];
      assert NoContentNames(d, id, g);
    }
    assert Waiting(d, d.Root(), u, m);
  }

  lemma StageContents(base: Disk, d: Disk, u: User, g: Generation, contents: seq<Content>)
    requires Staging(base, d, u) && OwnStage(d, u, g) && g !in base.trees
    ensures var s := d.(trees := d.trees[g := contents]); Staging(base, s, u) && OwnStage(s, u, g)
  {
  }

  /** The upload root opened at one stage directory. */
  class StageRoot {
    const root: UploadRoot
    const user: User
    const gen: Generation

    constructor (root: UploadRoot, user: User, gen: Generation)
      ensures this.root == root && this.user == user && this.gen == gen
    {
      this.root, this.user, this.gen := root, user, gen;
    }

    ghost predicate Holds()
      reads root
    {
      root.Consistent() && OwnStage(root.disk, user, gen)
    }

    /** One write into the stage, then possibly its sync. */
    method Write(c: Content, ghost base: Disk) returns (ok: bool)
      requires Holds() && (c.token.Token? ==> c.token.gen < root.disk.next)
      requires gen !in base.trees && Staging(base, root.disk, user)
      modifies root`disk, root`journal
      ensures Holds() && Staging(base, root.disk, user)
      ensures Recorded(old(root.journal), root.journal, base, user)
      ensures root.disk == old(root.disk).(trees := root.disk.trees)
      ensures root.disk.Latest(gen) == c
      ensures ok ==> root.disk.trees[gen] == [c]
      ensures root.healthy ==> ok
    {
      WriteKeepsInv(root.disk, gen, c);
      StageContents(base, root.disk, user, gen, root.disk.trees[gen] + [c]);
      root.Record(Wrote(root.disk, gen, c));
      ok := root.Attempt();
      if ok {
        ContentSyncKeepsInv(root.disk, gen);
        StageContents(base, root.disk, user, gen, [c]);
        root.Record(root.disk.(trees := root.disk.trees[gen := [root.disk.Latest(gen)]]));
      }
    }

    /** `writeAttachmentRestoreGeneration`: the file exists before it is complete. */
    method WriteGeneration(ghost base: Disk) returns (ok: bool)
      requires Holds() && gen !in base.trees && Staging(base, root.disk, user)
      modifies root`disk, root`journal
      ensures Holds() && Staging(base, root.disk, user)
      ensures Recorded(old(root.journal), root.journal, base, user)
      ensures root.disk == old(root.disk).(trees := root.disk.trees)
      ensures ok ==> root.disk.trees[gen] == [Content(Token(gen), map[])]
      ensures root.healthy ==> ok
    {
      ok := Write(Content(Malformed, map[]), base);
      if ok {
        ghost var between := root.journal;
        ok := Write(Content(Token(gen), map[]), base);
        RecordedTransitive(old(root.journal), between, root.journal, base, user);
      }
    }

    /** `writeRestoredAttachment`: a path that exists is refused, and the data is checked
        against the manifest after it was written. */
    method WriteAttachment(a: BackupAttachment, ghost base: Disk) returns (ok: bool)
      requires Holds() && gen !in base.trees && Staging(base, root.disk, user)
      requires root.disk.trees[gen] != [] && root.disk.Latest(gen).token == Token(gen)
      modifies root`disk, root`journal
      ensures Holds() && Staging(base, root.disk, user)
      ensures Recorded(old(root.journal), root.journal, base, user)
      ensures root.disk == old(root.disk).(trees := root.disk.trees)
      ensures var c := old(root.disk).Latest(gen);
              ok ==> a.intact && a.path !in c.files && root.disk.trees[gen] == [c.(files := c.files[a.path := a.data])]
      ensures root.healthy && a.intact && a.path !in old(root.disk).Latest(gen).files ==> ok
    {
      var c := root.disk.Latest(gen);
      if a.path in c.files {
        return false;
      }
      ok := root.Attempt();
      if !ok {
        return;
      }
      ok := Write(c.(files := c.files[a.path := ""]), base);
      if !ok {
        return;
      }
      ghost var between := root.journal;
      ok := Write(c.(files := c.files[a.path := a.data]), base);
      ok := ok && a.intact;
      RecordedTransitive(old(root.journal), between, root.journal, base, user);
    }

    /** The attachment loop of `prepareAttachmentRestore`. */
    method WriteAttachments(attachments: seq<BackupAttachment>, ghost base: Disk) returns (ok: bool)
      requires Holds() && gen !in base.trees && Staging(base, root.disk, user)
      requires root.disk.trees[gen] == [Content(Token(gen), map[])]
      modifies root`disk, root`journal
      ensures Holds() && Staging(base, root.disk, user)
      ensures Recorded(old(root.journal), root.journal, base, user)
      ensures root.disk == old(root.disk).(trees := root.disk.trees)
      ensures ok ==> root.disk.trees[gen] == [Content(Token(gen), Manifest(attachments))]
      ensures ok ==> Restorable(attachments)
      ensures root.healthy && Restorable(attachments) ==> ok
    {
      ok := true;
      for n := 0 to |attachments|
        invariant Holds() && Staging(base, root.disk, user) && ok
        invariant Recorded(old(root.journal), root.journal, base, user)
        invariant root.disk == old(root.disk).(trees := root.disk.trees)
        invariant root.disk.trees[gen] == [Content(Token(gen), Manifest(attachments[..n]))]
        invariant Restorable(attachments[..n])
      {
        AppendManifest(attachments, n);
        ghost var between := root.journal;
        ok := WriteAttachment(attachments[n], base);
        RecordedTransitive(old(root.journal), between, root.journal, base, user);
        if !ok {
          return;
        }
      }
      assert attachments[..|attachments|] == attachments;
    }
  }
}

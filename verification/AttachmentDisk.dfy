/**
 The upload root as the restore protocol sees it, and the crash invariant.

 A directory operation is visible at once but durable only after the root has been
 synced.  The disk therefore keeps every directory table since the last completed sync:
 the first is the durable one, the last is what running code observes, and a crash
 leaves any one of them.  File contents below a tree have a history of their own.
 */
module AttachmentDisk {

  type User = nat
  type Generation = nat
  type TreeId = nat

  /** The entries of the upload root that the protocol touches:
      `<user>`, `.restore-stage-<user>-<generation>`, `.restore-previous-<user>-<generation>`. */
  datatype Name = Active(user: User) | Stage(user: User, gen: Generation) | Previous(user: User, gen: Generation)

  /** What the generation file inside a tree says. */
  datatype Token = NoToken | Token(gen: Generation) | Malformed

  datatype Content = Content(token: Token, files: map<string, string>)

  type Table = map<Name, TreeId>

  /** The permanent marker row of a user.  The row holds `gen`; `tree` and `files` record which
      tree was staged for it and with what manifest, `edited` whether the user changed it since. */
  datatype Marker = Marker(gen: Generation, tree: TreeId, files: map<string, string>, edited: bool)

  /** Everything that survives the process: directory tables, tree contents and the database. */
  datatype Disk = Disk(
    views: seq<Table>,
    trees: map<TreeId, seq<Content>>,
    markers: map<User, Marker>,
    rows: map<User, int>,
    next: nat)
  {
    function Root(): Table
      requires views != []
    {
      views[|views| - 1]
    }

    function Latest(id: TreeId): Content
      requires id in trees && trees[id] != []
    {
      trees[id][|trees[id]| - 1]
    }
  }

  /** The manifest `m` is durably and completely stored in its tree. */
  ghost predicate Complete(d: Disk, m: Marker) {
    m.tree in d.trees && d.trees[m.tree] == [Content(Token(m.gen), m.files)]
  }

  /** In table `t` the tree of marker `m` is the user's active directory. */
  predicate InPlace(t: Table, u: User, m: Marker) {
    && Active(u) in t && t[Active(u)] == m.tree
    && Stage(u, m.gen) !in t
  }

  ghost predicate NoContentNames(d: Disk, id: TreeId, g: Generation) {
    id in d.trees && forall c :: c in d.trees[id] ==> c.token != Token(g)
  }

  /** In table `t` the tree of marker `m` still waits in its stage, and what is active, if
      anything, neither claims the generation nor stands beside an already displaced tree. */
  ghost predicate Waiting(d: Disk, t: Table, u: User, m: Marker) {
    && Stage(u, m.gen) in t && t[Stage(u, m.gen)] == m.tree
    && !m.edited
    && !(Active(u) in t && Previous(u, m.gen) in t)
    && (Active(u) in t ==> NoContentNames(d, t[Active(u)], m.gen))
  }

  ghost predicate Located(d: Disk, t: Table, u: User, m: Marker) {
    InPlace(t, u, m) || Waiting(d, t, u, m)
  }

  ghost predicate TableOk(d: Disk, t: Table) {
    && (forall n :: n in t ==> t[n] in d.trees && (n.Active? || n.gen < d.next))
    && (forall n, n' :: n in t && n' in t && t[n] == t[n'] ==> n == n')
    && (forall u, c :: Active(u) in t && c in d.trees[t[Active(u)]] ==> c.token != Malformed)
  }

  ghost predicate TreesOk(d: Disk) {
    && (forall id :: id in d.trees ==> id < d.next && d.trees[id] != [])
    && (forall id, c :: id in d.trees && c in d.trees[id] && c.token.Token? ==> c.token.gen < d.next)
  }

  ghost predicate MarkerOk(d: Disk, u: User, m: Marker) {
    && u != 0 && m.gen < d.next
    && m.tree in d.trees
    && (forall c :: c in d.trees[m.tree] ==> c.token == Token(m.gen))
    && (!m.edited ==> Complete(d, m))
    && (forall t {:trigger Located(d, t, u, m)} :: t in d.views ==> Located(d, t, u, m))
  }

  /** The crash invariant.  For every committed marker and every table a crash could leave,
      exactly one of the stage and the active directory is the complete tree the marker names. */
  ghost predicate Inv(d: Disk) {
    && d.views != []
    && TreesOk(d)
    && (forall t {:trigger TableOk(d, t)} :: t in d.views ==> TableOk(d, t))
    && (forall u {:trigger MarkerOk(d, u, d.markers[u])} :: u in d.markers ==> MarkerOk(d, u, d.markers[u]))
  }

  /** `after` is a state the disk can be in when the machine comes back up. */
  ghost predicate CrashImage(before: Disk, after: Disk) {
    && (exists t :: t in before.views && after.views == [t])
    && after.trees.Keys == before.trees.Keys
    && (forall id :: id in before.trees ==> exists c :: c in before.trees[id] && after.trees[id] == [c])
    && after.markers == before.markers && after.rows == before.rows && after.next == before.next
  }

  lemma CrashKeepsInv(before: Disk, after: Disk)
    requires Inv(before) && CrashImage(before, after)
    ensures Inv(after)
    ensures forall u :: u in before.markers && !before.markers[u].edited ==> Complete(after, after.markers[u])
  {
    var t :| t in before.views && after.views == [t];
    assert forall id, c :: id in after.trees && c in after.trees[id] ==> c in before.trees[id];
    assert TableOk(after, t) by { assert TableOk(before, t); }
    forall u | u in after.markers
      ensures MarkerOk(after, u, after.markers[u])
    {
      var m := after.markers[u];
      assert MarkerOk(before, u, m);
      assert Located(before, t, u, m);
      assert Located(after, t, u, m);
    }
  }

  /** Never both, never neither: the stage and the active directory exclude each other. */
  lemma ExactlyOnePlace(d: Disk, t: Table, u: User)
    requires Inv(d) && t in d.views && u in d.markers
    ensures var m := d.markers[u];
            (Active(u) in t && t[Active(u)] == m.tree) != (Stage(u, m.gen) in t && t[Stage(u, m.gen)] == m.tree)
    ensures var m := d.markers[u];
            !InPlace(t, u, m) ==> !(Active(u) in t && Previous(u, m.gen) in t) && Complete(d, m)
  {
    var m := d.markers[u];
    assert MarkerOk(d, u, m);
    assert TableOk(d, t);
    assert Located(d, t, u, m);
  }

  // ---- the steps a running process takes ----

  function Pushed(d: Disk, t: Table): Disk { d.(views := d.views + [t]) }

  function Synced(d: Disk): Disk
    requires d.views != []
  {
    d.(views := [d.Root()])
  }

  function Wrote(d: Disk, id: TreeId, c: Content): Disk
    requires id in d.trees
  {
    d.(trees := d.trees[id := d.trees[id] + [c]])
  }

  lemma PushKeepsInv(d: Disk, t: Table)
    requires Inv(d) && TableOk(d, t)
    requires forall u :: u in d.markers ==> Located(d, t, u, d.markers[u])
    ensures Inv(Pushed(d, t))
  {
    var d' := Pushed(d, t);
    forall t' | t' in d'.views ensures TableOk(d', t') {
      assert t' == t || t' in d.views;
      assert TableOk(d, t');
    }
    forall u | u in d'.markers ensures MarkerOk(d', u, d'.markers[u]) {
      var m := d.markers[u];
      assert MarkerOk(d, u, m);
      forall t' | t' in d'.views ensures Located(d', t', u, m) {
        assert t' == t || t' in d.views;
        assert Located(d, t', u, m);
        if Waiting(d, t', u, m) { assert Waiting(d', t', u, m); }
      }
    }
  }

  /** A completed sync drops every older table; an interrupted one drops some of them. */
  lemma SyncKeepsInv(d: Disk, k: nat)
    requires Inv(d) && k < |d.views|
    ensures Inv(d.(views := d.views[k..]))
  {
    var d' := d.(views := d.views[k..]);
    assert forall t :: t in d'.views ==> t in d.views;
    forall t | t in d'.views ensures TableOk(d', t) {
      assert TableOk(d, t);
    }
    forall u | u in d'.markers ensures MarkerOk(d', u, d'.markers[u]) {
      var m := d.markers[u];
      assert MarkerOk(d, u, m);
      forall t | t in d'.views ensures Located(d', t, u, m) {
        assert Located(d, t, u, m);
        if Waiting(d, t, u, m) { assert Waiting(d', t, u, m); }
      }
    }
  }

  ghost predicate NeverActive(d: Disk, id: TreeId) {
    forall t, u :: t in d.views && Active(u) in t ==> t[Active(u)] != id
  }

  ghost predicate Unmarked(d: Disk, id: TreeId) {
    forall u :: u in d.markers ==> d.markers[u].tree != id
  }

  /** A write into a tree that no marker names keeps the invariant when it introduces no new
      token, or when the tree has never been anyone's active directory. */
  lemma WriteKeepsInv(d: Disk, id: TreeId, c: Content)
    requires Inv(d) && id in d.trees && Unmarked(d, id)
    requires c.token.Token? ==> c.token.gen < d.next
    requires NeverActive(d, id) || c.token == NoToken || c.token == d.Latest(id).token
    ensures Inv(Wrote(d, id, c))
  {
    var d' := Wrote(d, id, c);
    assert d.Latest(id) in d.trees[id];
    assert forall i, x :: i in d'.trees && x in d'.trees[i] ==> x in d.trees[i] || (i == id && x == c);
    forall t | t in d'.views ensures TableOk(d', t) {
      assert TableOk(d, t);
    }
    forall u | u in d'.markers ensures MarkerOk(d', u, d'.markers[u]) {
      var m := d.markers[u];
      assert MarkerOk(d, u, m);
      forall t | t in d'.views ensures Located(d', t, u, m) {
        assert Located(d, t, u, m);
        if Waiting(d, t, u, m) {
          assert Waiting(d', t, u, m);
        }
      }
    }
  }

  // ---- renames, removals and the marker commit ----

  function Moved(t: Table, a: Name, b: Name): Table
    requires a in t
  {
    (t - {a})[b := t[a]]
  }

  lemma MovedTableOk(d: Disk, t: Table, a: Name, b: Name)
    requires TableOk(d, t) && a in t && b !in t
    requires !b.Active? ==> b.gen < d.next
    requires b.Active? ==> forall c :: c in d.trees[t[a]] ==> c.token != Malformed
    ensures TableOk(d, Moved(t, a, b))
  {
  }

  /** Names of one user say nothing about where another user's tree is. */
  lemma LocatedByOwnNames(d: Disk, t: Table, t': Table, u: User, m: Marker)
    requires Located(d, t, u, m)
    requires forall n: Name :: n.user == u ==> (n in t <==> n in t') && (n in t ==> t[n] == t'[n])
    ensures Located(d, t', u, m)
  {
    assert Active(u).user == u && Stage(u, m.gen).user == u && Previous(u, m.gen).user == u;
  }

  /** Moving the displaced tree aside: the marked tree keeps waiting. */
  lemma DisplaceKeepsInv(d: Disk, u: User)
    requires Inv(d) && u in d.markers
    requires var m := d.markers[u]; Waiting(d, d.Root(), u, m) && Active(u) in d.Root()
    ensures var m := d.markers[u]; var t := Moved(d.Root(), Active(u), Previous(u, m.gen));
            Waiting(d, t, u, m) && Active(u) !in t && Inv(Pushed(d, t))
  {
    var m := d.markers[u];
    var t := Moved(d.Root(), Active(u), Previous(u, m.gen));
    MovedTableOk(d, d.Root(), Active(u), Previous(u, m.gen));
    forall v | v in d.markers ensures Located(d, t, v, d.markers[v]) {
      assert MarkerOk(d, v, d.markers[v]);
      if v != u { LocatedByOwnNames(d, d.Root(), t, v, d.markers[v]); }
    }
    PushKeepsInv(d, t);
  }

  /** Activating the staged tree when nothing is active. */
  lemma ActivateKeepsInv(d: Disk, u: User)
    requires Inv(d) && u in d.markers
    requires var m := d.markers[u]; Waiting(d, d.Root(), u, m) && Active(u) !in d.Root()
    ensures var m := d.markers[u]; var t := Moved(d.Root(), Stage(u, m.gen), Active(u));
            InPlace(t, u, m) && Inv(Pushed(d, t))
  {
    var m := d.markers[u];
    var t := Moved(d.Root(), Stage(u, m.gen), Active(u));
    assert MarkerOk(d, u, m);
    MovedTableOk(d, d.Root(), Stage(u, m.gen), Active(u));
    forall v | v in d.markers ensures Located(d, t, v, d.markers[v]) {
      assert MarkerOk(d, v, d.markers[v]);
      if v != u { LocatedByOwnNames(d, d.Root(), t, v, d.markers[v]); }
    }
    PushKeepsInv(d, t);
  }

  /** Unlinking a stage or a displaced tree that no marker names. */
  lemma UnlinkKeepsInv(d: Disk, n: Name)
    requires Inv(d) && n in d.Root() && !n.Active? && Unmarked(d, d.Root()[n])
    ensures Inv(Pushed(d, d.Root() - {n}))
  {
    var t := d.Root() - {n};
    assert TableOk(d, t) by { assert TableOk(d, d.Root()); }
    forall u | u in d.markers ensures Located(d, t, u, d.markers[u]) {
      assert MarkerOk(d, u, d.markers[u]);
      assert Located(d, d.Root(), u, d.markers[u]);
    }
    PushKeepsInv(d, t);
  }

  /** A new empty tree under a new name: number `d.next` serves as generation and as tree. */
  function Made(d: Disk, n: Name): Disk
    requires d.views != []
  {
    Disk(d.views + [d.Root()[n := d.next]], d.trees[d.next := [Content(NoToken, map[])]],
         d.markers, d.rows, d.next + 1)
  }

  lemma MadeKeepsInv(d: Disk, n: Name)
    requires Inv(d) && n !in d.Root()
    requires n.Active? ==> n.user !in d.markers
    requires !n.Active? ==> n.gen == d.next
    ensures Inv(Made(d, n))
    ensures Unmarked(Made(d, n), d.next)
    ensures !n.Active? ==> NeverActive(Made(d, n), d.next)
  {
    var d' := Made(d, n);
    forall t | t in d.views ensures TableOk(d', t) && forall m :: m in t ==> t[m] < d.next {
      assert TableOk(d, t);
    }
    var r := d.Root()[n := d.next];
    assert TableOk(d', r) by { assert TableOk(d', d.Root()); }
    forall u | u in d.markers ensures MarkerOk(d', u, d.markers[u]) {
      var m := d.markers[u];
      assert MarkerOk(d, u, m);
      forall t | t in d'.views ensures Located(d', t, u, m) {
        if t in d.views {
          assert Located(d, t, u, m) && TableOk(d, t);
          if Waiting(d, t, u, m) { assert Waiting(d', t, u, m); }
        } else {
          assert Located(d, d.Root(), u, m) && TableOk(d, d.Root());
          if Waiting(d, d.Root(), u, m) { assert Waiting(d', t, u, m); }
        }
      }
    }
  }

  /** The database commit: the rows and the marker change together. */
  function Committed(d: Disk, u: User, rows: int, m: Marker): Disk {
    d.(rows := d.rows[u := rows], markers := d.markers[u := m])
  }

  /** The stage is ready to be named by a marker: its entry is the only durable table, its
      contents are durable and complete, and nothing else carries its generation. */
  ghost predicate Ready(d: Disk, u: User, m: Marker) {
    && d.views != [] && d.views == [d.Root()]
    && u != 0 && m.gen < d.next && !m.edited && Complete(d, m)
    && Waiting(d, d.Root(), u, m)
  }

  lemma CommitKeepsInv(d: Disk, u: User, rows: int, m: Marker)
    requires Inv(d) && Ready(d, u, m)
    ensures Inv(Committed(d, u, rows, m))
  {
    var d' := Committed(d, u, rows, m);
    forall t | t in d'.views ensures TableOk(d', t) { assert TableOk(d, t); }
    forall v | v in d'.markers ensures MarkerOk(d', v, d'.markers[v]) {
      if v == u {
        assert Waiting(d', d.Root(), u, m);
      } else {
        var w := d.markers[v];
        assert MarkerOk(d, v, w);
        forall t | t in d'.views ensures Located(d', t, v, w) {
          assert Located(d, t, v, w);
          if Waiting(d, t, v, w) { assert Waiting(d', t, v, w); }
        }
      }
    }
  }

  /** A user's own change to the active directory: contents change, the token does not. */
  function Edited(d: Disk, u: User, c: Content): Disk
    requires d.views != [] && Active(u) in d.Root() && d.Root()[Active(u)] in d.trees
  {
    var e := Wrote(d, d.Root()[Active(u)], c);
    if u in d.markers then e.(markers := d.markers[u := d.markers[u].(edited := true)]) else e
  }

  /** The user's marked tree is active in every table a crash could leave. */
  ghost predicate DurablyActive(d: Disk, u: User) {
    u in d.markers && forall t :: t in d.views ==> InPlace(t, u, d.markers[u])
  }

  /** A tree that is not where a marker's tree can be is not a marker's tree. */
  lemma UnmarkedElsewhere(d: Disk, n: Name)
    requires Inv(d) && n in d.Root()
    requires n.Active? ==> n.user !in d.markers
    requires n.Stage? ==> n.user in d.markers ==> n.gen != d.markers[n.user].gen
    ensures Unmarked(d, d.Root()[n])
  {
    assert TableOk(d, d.Root());
    forall u | u in d.markers ensures d.markers[u].tree != d.Root()[n] {
      assert MarkerOk(d, u, d.markers[u]);
      assert Located(d, d.Root(), u, d.markers[u]);
    }
  }

  lemma EditKeepsInv(d: Disk, u: User, c: Content)
    requires Inv(d) && Active(u) in d.Root()
    requires u in d.markers ==> DurablyActive(d, u)
    requires TableOk(d, d.Root()) && TreesOk(d)
    requires c.token == d.Latest(d.Root()[Active(u)]).token
    ensures Inv(Edited(d, u, c))
  {
    var id := d.Root()[Active(u)];
    assert d.Latest(id) in d.trees[id];
    if u !in d.markers {
      UnmarkedElsewhere(d, Active(u));
      WriteKeepsInv(d, id, c);
    } else {
      var d' := Edited(d, u, c);
      assert MarkerOk(d, u, d.markers[u]);
      assert forall i, x :: i in d'.trees && x in d'.trees[i] ==> x in d.trees[i] || (i == id && x == c);
      forall t | t in d'.views ensures TableOk(d', t) { assert TableOk(d, t); }
      forall v | v in d'.markers ensures MarkerOk(d', v, d'.markers[v]) {
        var m := d.markers[v];
        assert MarkerOk(d, v, m);
        if v != u {
          assert Located(d, d.Root(), v, m);
          assert m.tree != id;
          forall t | t in d'.views ensures Located(d', t, v, m) {
            assert Located(d, t, v, m);
            if Waiting(d, t, v, m) { assert Waiting(d', t, v, m); }
          }
        }
      }
    }
  }

  // ---- what one user's restore may do to the disk ----

  ghost predicate SameElsewhere(t: Table, t': Table, u: User) {
    forall n: Name :: n.user != u ==> (n in t <==> n in t') && (n in t ==> t[n] == t'[n])
  }

  /** From `d` to `s` only user `u` was served: nobody else's entry moved in any table, nobody
      else's tree changed, and nobody else's rows or marker changed. */
  ghost predicate Touches(d: Disk, s: Disk, u: User) {
    && d.views != [] && s.views != []
    && SameElsewhere(d.Root(), s.Root(), u)
    && (forall t :: t in s.views ==> t in d.views || SameElsewhere(d.Root(), t, u))
    && (forall n :: n in d.Root() && n.user != u && d.Root()[n] in d.trees ==>
         d.Root()[n] in s.trees && s.trees[d.Root()[n]] == d.trees[d.Root()[n]])
    && (forall v :: v != u ==>
         && (v in d.markers <==> v in s.markers) && (v in d.markers ==> d.markers[v] == s.markers[v])
         && (v in d.rows <==> v in s.rows) && (v in d.rows ==> d.rows[v] == s.rows[v]))
    && d.next <= s.next
  }

  lemma TouchesTransitive(d: Disk, s: Disk, r: Disk, u: User)
    requires Touches(d, s, u) && Touches(s, r, u)
    requires TableOk(d, d.Root()) && TableOk(s, s.Root())
    ensures Touches(d, r, u)
  {
    forall t | t in r.views ensures t in d.views || SameElsewhere(d.Root(), t, u) {
      if t !in s.views {
        assert SameElsewhere(s.Root(), t, u);
      }
    }
    forall n | n in d.Root() && n.user != u && d.Root()[n] in d.trees
      ensures d.Root()[n] in r.trees && r.trees[d.Root()[n]] == d.trees[d.Root()[n]]
    {
      assert n in s.Root() && s.Root()[n] == d.Root()[n];
    }
  }

  lemma OthersStayActive(d: Disk, s: Disk, u: User, v: User)
    requires Touches(d, s, u) && v != u && DurablyActive(d, v)
    ensures DurablyActive(s, v)
  {
    var m := d.markers[v];
    assert InPlace(d.Root(), v, m);
    forall t | t in s.views ensures InPlace(t, v, m) {
      if t !in d.views {
        assert Active(v).user == v && Stage(v, m.gen).user == v;
      }
    }
  }

  /** Tree `id` is where a restore keeps the tree it replaces, in every table. */
  ghost predicate Displaceable(d: Disk, u: User, id: TreeId) {
    && u in d.markers && id in d.trees
    && forall t :: t in d.views ==>
         || (Active(u) in t && t[Active(u)] == id)
         || (Previous(u, d.markers[u].gen) in t && t[Previous(u, d.markers[u].gen)] == id)
  }

  /** The old tree goes only after the new one is durably active. */
  ghost predicate OldOrNew(d: Disk, s: Disk, u: User) {
    && u in d.markers && u in s.markers && d.markers[u] == s.markers[u]
    && (DurablyActive(d, u) ==> DurablyActive(s, u))
    && (DurablyActive(s, u) ||
        forall id :: Displaceable(d, u, id) ==> Displaceable(s, u, id) && s.trees[id] == d.trees[id])
  }

  lemma OldOrNewTransitive(d: Disk, s: Disk, r: Disk, u: User)
    requires OldOrNew(d, s, u) && OldOrNew(s, r, u)
    ensures OldOrNew(d, r, u)
  {
  }

  /** Renames that activation still needs, seen from table `t`. */
  function RenamesLeft(t: Table, u: User, m: Marker): nat {
    if InPlace(t, u, m) then 0 else if Active(u) in t then 2 else 1
  }

  /** From `d` to `s` no rename of an activation for `u` was undone, in any table made since. */
  ghost predicate NoneUndone(d: Disk, s: Disk, u: User) {
    && u in d.markers && d.views != [] && s.views != []
    && RenamesLeft(s.Root(), u, d.markers[u]) <= RenamesLeft(d.Root(), u, d.markers[u])
    && forall t :: t in s.views ==> t in d.views || RenamesLeft(t, u, d.markers[u]) <= RenamesLeft(d.Root(), u, d.markers[u])
  }

  lemma NoneUndoneTransitive(d: Disk, s: Disk, r: Disk, u: User)
    requires NoneUndone(d, s, u) && NoneUndone(s, r, u) && d.markers[u] == s.markers[u]
    ensures NoneUndone(d, r, u)
  {
    forall t | t in r.views
      ensures t in d.views || RenamesLeft(t, u, d.markers[u]) <= RenamesLeft(d.Root(), u, d.markers[u])
    {
    }
  }

  /** Every rename of an activation brings it nearer to its end. */
  lemma RenamesProgress(t: Table, u: User, m: Marker)
    requires Stage(u, m.gen) in t && t[Stage(u, m.gen)] == m.tree
    ensures Active(u) in t ==>
              RenamesLeft(Moved(t, Active(u), Previous(u, m.gen)), u, m) == RenamesLeft(t, u, m) - 1
    ensures Active(u) !in t ==> RenamesLeft(Moved(t, Stage(u, m.gen), Active(u)), u, m) == 0 < RenamesLeft(t, u, m)
  {
  }

  /** What activation makes of table `t`: the marked tree is active, its stage and the tree it
      displaced are gone, everything else is where it was. */
  function Settled(t: Table, u: User, m: Marker): Table {
    map n | n in t.Keys + {Active(u)} && n != Stage(u, m.gen) && n != Previous(u, m.gen)
      :: if n == Active(u) then m.tree else t[n]
  }
}

/** Attachment paths that stay apart on any file system: valid segments, and sets without collisions. */
module PortablePaths {
  import opened Text
  import opened Decimal

  const MAX_PATH_BYTES := 4096
  const MAX_SEGMENTS := 32
  const MAX_SEGMENT_BYTES := 255

  // ---- one path ----

  function Utf8Length(c: char): nat {
    if c < '\U{80}' then 1 else if c < '\U{800}' then 2 else if c < '\U{10000}' then 3 else 4
  }

  function ByteLength(s: string): nat {
    if s == [] then 0 else Utf8Length(s[0]) + ByteLength(s[1..])
  }

  /** Upper case, as far as it leads to ASCII letters. */
  function UpperChar(c: char): char {
    if 'a' <= c <= 'z' then (c as int - 32) as char
    else if c == '\U{131}' then 'I'
    else if c == '\U{17F}' then 'S'
    else c
  }

  function Upper(s: string): string {
    seq(|s|, i requires 0 <= i < |s| => UpperChar(s[i]))
  }

  function TrimDotsAndBlanks(s: string): string {
    if s != [] && s[|s| - 1] in {' ', '.'} then TrimDotsAndBlanks(s[..|s| - 1]) else s
  }

  predicate IsReservedDeviceName(name: string) {
    || name in {"CON", "PRN", "AUX", "NUL", "CONIN$", "CONOUT$"}
    || (|name| == 4 && name[..3] in {"COM", "LPT"} && ('1' <= name[3] <= '9' || name[3] in {'\U{B9}', '\U{B2}', '\U{B3}'}))
  }

  predicate IsForbiddenChar(c: char) {
    c < ' ' || c == '\U{7F}' || c in {'<', '>', ':', '"', '/', '\\', '|', '?', '*'}
  }

  /** `isPortableBackupPathSegment`. */
  predicate IsPortableSegment(s: string) {
    && s != "" && s != "." && s != ".." && ByteLength(s) <= MAX_SEGMENT_BYTES
    && s[|s| - 1] != '.' && s[|s| - 1] != ' '
    && (forall i :: 0 <= i < |s| ==> !IsForbiddenChar(s[i]))
    && !IsReservedDeviceName(Upper(TrimDotsAndBlanks(s[..Find(s, '.')])))
  }

  /** `validatePortableBackupRelativePath`.  A path whose segments are all portable is relative and
      already clean. */
  predicate IsPortablePath(value: string) {
    && value != "" && ByteLength(value) <= MAX_PATH_BYTES
    && |Split(value, '/')| <= MAX_SEGMENTS
    && forall i :: 0 <= i < |Split(value, '/')| ==> IsPortableSegment(Split(value, '/')[i])
  }

  // ---- what portable means, part by part ----

  const DEVICE_NUMBERS: string := "123456789\U{B9}\U{B2}\U{B3}"

  /** The reserved names: six by themselves, and twice twelve with a number. */
  ghost predicate IsDevice(name: string) {
    || name == "CON" || name == "PRN" || name == "AUX" || name == "NUL" || name == "CONIN$" || name == "CONOUT$"
    || exists i :: 0 <= i < |DEVICE_NUMBERS| && (name == "COM" + [DEVICE_NUMBERS[i]] || name == "LPT" + [DEVICE_NUMBERS[i]])
  }

  /** The first `n` characters are a device's name in any case, followed by blanks up to `m` and then by
      nothing or a dot. */
  ghost predicate NamesDeviceUpTo(part: string, n: nat, m: nat) {
    && n <= m <= |part| && IsDevice(Upper(part[..n]))
    && (forall i :: n <= i < m ==> part[i] == ' ') && (m == |part| || part[m] == '.')
  }

  ghost predicate NamesDevice(part: string) {
    exists n: nat, m: nat :: NamesDeviceUpTo(part, n, m)
  }

  /** A part that every system can store under its own name. */
  ghost predicate PortablePart(part: string) {
    && part != "" && ByteLength(part) <= 255 && part[|part| - 1] != '.' && part[|part| - 1] != ' '
    && (forall k :: 0 <= k < |part| ==>
          ' ' <= part[k] && part[k] != '\U{7F}' && part[k] !in {'<', '>', ':', '"', '/', '\\', '|', '?', '*'})
    && !NamesDevice(part)
  }

  lemma NumberedDevice(name: string)
    requires |name| == 4
    ensures ('1' <= name[3] <= '9' || name[3] in {'\U{B9}', '\U{B2}', '\U{B3}'})
            <==> exists i :: 0 <= i < |DEVICE_NUMBERS| && name[3] == DEVICE_NUMBERS[i]
  {
    var c := name[3];
    if '1' <= c <= '9' {
      assert DEVICE_NUMBERS[c as int - '1' as int] == c;
    } else if c in {'\U{B9}', '\U{B2}', '\U{B3}'} {
      assert DEVICE_NUMBERS[9] == '\U{B9}' && DEVICE_NUMBERS[10] == '\U{B2}' && DEVICE_NUMBERS[11] == '\U{B3}';
    }
  }

  lemma DeviceNames(name: string)
    ensures IsReservedDeviceName(name) <==> IsDevice(name)
  {
    if |name| == 4 {
      NumberedDevice(name);
      assert name == name[..3] + [name[3]];
    }
  }

  lemma {:induction false} TrimmedBlanks(s: string)
    requires '.' !in s
    ensures var n := |TrimDotsAndBlanks(s)|;
            && n <= |s| && TrimDotsAndBlanks(s) == s[..n] && (forall i :: n <= i < |s| ==> s[i] == ' ')
            && (n > 0 ==> s[n - 1] != ' ')
  {
    if s != [] && s[|s| - 1] in {' ', '.'} {
      assert s[|s| - 1] == ' ';
      TrimmedBlanks(s[..|s| - 1]);
    } else {
      assert s == s[..|s|];
    }
  }

  lemma DevicesAreSolid(name: string)
    requires IsDevice(Upper(name))
    ensures name != "" && '.' !in name && name[|name| - 1] != ' '
  {
    var upper := Upper(name);
    assert upper[|upper| - 1] != ' ' && '.' !in upper;
    forall i | 0 <= i < |name| ensures name[i] != '.' {
      assert upper[i] == UpperChar(name[i]) && upper[i] in upper;
    }
  }

  lemma ReservedIsNamed(part: string)
    requires IsReservedDeviceName(Upper(TrimDotsAndBlanks(part[..Find(part, '.')])))
    ensures NamesDevice(part)
  {
    var m := Find(part, '.');
    var stem := part[..m];
    assert '.' !in stem;
    TrimmedBlanks(stem);
    var n := |TrimDotsAndBlanks(stem)|;
    assert stem[..n] == part[..n];
    DeviceNames(Upper(part[..n]));
    assert forall i :: n <= i < m ==> part[i] == stem[i];
    assert NamesDeviceUpTo(part, n, m);
  }

  lemma NamedIsReserved(part: string, n: nat, m: nat)
    requires NamesDeviceUpTo(part, n, m)
    ensures IsReservedDeviceName(Upper(TrimDotsAndBlanks(part[..Find(part, '.')])))
  {
    DevicesAreSolid(part[..n]);
    assert forall i :: 0 <= i < n ==> part[..n][i] == part[i] && part[..n][i] in part[..n];
    assert Find(part, '.') == m;
    var stem := part[..m];
    assert '.' !in stem;
    TrimmedBlanks(stem);
    var k := |TrimDotsAndBlanks(stem)|;
    assert part[..n][n - 1] == part[n - 1] == stem[n - 1];
    assert forall i :: n <= i < m ==> stem[i] == part[i];
    assert k == n;
    assert stem[..n] == part[..n];
    DeviceNames(Upper(part[..n]));
  }

  lemma SegmentMeans(part: string)
    ensures IsPortableSegment(part) <==> PortablePart(part)
  {
    if IsReservedDeviceName(Upper(TrimDotsAndBlanks(part[..Find(part, '.')]))) {
      ReservedIsNamed(part);
    } else if n: nat, m: nat :| NamesDeviceUpTo(part, n, m) {
      NamedIsReserved(part, n, m);
    }
  }

  /** A path is portable exactly if it has at most 4096 bytes and 32 parts, and each part has 1 to 255
      bytes, does not end in a dot or a blank, which rules out "." and "..", contains no control
      character and none of the characters that some system reserves, and names no device. */
  lemma PortablePathMeans(value: string)
    ensures IsPortablePath(value) <==>
              && ByteLength(value) <= 4096 && |Split(value, '/')| <= 32
              && forall i :: 0 <= i < |Split(value, '/')| ==> PortablePart(Split(value, '/')[i])
    ensures IsPortablePath(value) ==> forall i :: 0 <= i < |Split(value, '/')| ==>
              Split(value, '/')[i] != "" && Split(value, '/')[i] != "." && Split(value, '/')[i] != ".."
  {
    var parts := Split(value, '/');
    forall i | 0 <= i < |parts| ensures IsPortableSegment(parts[i]) <==> PortablePart(parts[i]) {
      SegmentMeans(parts[i]);
    }
    assert value == "" ==> parts[0] == "";
  }

  predicate IsDecimal(s: string) {
    s != "" && AllDigits(s)
  }

  // ---- sets of paths ----

  /** A path as its segments. */
  type Path = p: seq<string> | p != [] witness ["a"]

  type Key = seq<string>

  /** Case folding and normalisation work segment by segment. */
  function KeyOf(fold: string -> string, p: seq<string>): Key {
    seq(|p|, i requires 0 <= i < |p| => fold(p[i]))
  }

  /** `a` and `b` can exist side by side: different files, neither below the other, and no directory
      that one spells differently from the other. */
  ghost predicate Compatible(fold: string -> string, a: Path, b: Path) {
    && KeyOf(fold, a) != KeyOf(fold, b)
    && (forall k :: 0 < k < |b| ==> KeyOf(fold, a) != KeyOf(fold, b[..k]))
    && (forall k :: 0 < k < |a| ==> KeyOf(fold, b) != KeyOf(fold, a[..k]))
    && (forall k :: 0 < k < |a| && k < |b| && KeyOf(fold, a[..k]) == KeyOf(fold, b[..k]) ==> a[..k] == b[..k])
  }

  ghost predicate AllCompatible(fold: string -> string, paths: seq<Path>) {
    forall i, j {:trigger Compatible(fold, paths[i], paths[j])} :: 0 <= i < j < |paths| ==> Compatible(fold, paths[i], paths[j])
  }

  lemma CompatibleBothWays(fold: string -> string, a: Path, b: Path)
    ensures Compatible(fold, a, b) == Compatible(fold, b, a)
  {
  }

  lemma TwiceSomewhere(paths: seq<Path>, x: Path)
    requires multiset(paths)[x] >= 2
    ensures exists i, j :: 0 <= i < j < |paths| && paths[i] == x && paths[j] == x
  {
    var i :| 0 <= i < |paths| && paths[i] == x;
    var rest := paths[..i] + paths[i + 1..];
    assert paths == paths[..i] + [paths[i]] + paths[i + 1..];
    assert multiset(rest)[x] >= 1;
    var k :| 0 <= k < |rest| && rest[k] == x;
    var j := if k < i then k else k + 1;
    assert paths[j] == x && j != i;
    if i < j {
      assert 0 <= i < j < |paths|;
    } else {
      assert 0 <= j < i < |paths|;
    }
  }

  lemma TwiceIsTwice(paths: seq<Path>, i: nat, j: nat)
    requires i < j < |paths| && paths[i] == paths[j]
    ensures multiset(paths)[paths[i]] >= 2
  {
    assert paths == paths[..i] + [paths[i]] + paths[i + 1..j] + [paths[j]] + paths[j + 1..];
  }

  /** Whether a list of paths can coexist does not depend on its order. */
  lemma CompatibleInAnyOrder(fold: string -> string, a: seq<Path>, b: seq<Path>)
    requires multiset(a) == multiset(b) && AllCompatible(fold, a)
    ensures AllCompatible(fold, b)
  {
    forall i, j | 0 <= i < j < |b| ensures Compatible(fold, b[i], b[j]) {
      assert b[i] in multiset(a) && b[j] in multiset(a);
      if b[i] == b[j] {
        TwiceIsTwice(b, i, j);
        TwiceSomewhere(a, b[i]);
      } else {
        var i' :| 0 <= i' < |a| && a[i'] == b[i];
        var j' :| 0 <= j' < |a| && a[j'] == b[j];
        CompatibleBothWays(fold, b[i], b[j]);
      }
    }
  }

  /** Some path of the list has this directory below the root. */
  ghost predicate IsDirectoryOf(paths: seq<Path>, dir: seq<string>) {
    exists i, k :: 0 <= i < |paths| && 0 < k < |paths[i]| && paths[i][..k] == dir
  }

  type Files = map<Key, Path>
  type Directories = map<Key, seq<string>>

  ghost predicate FilesHold(fold: string -> string, files: Files, paths: seq<Path>) {
    && (forall i :: 0 <= i < |paths| ==> KeyOf(fold, paths[i]) in files)
    && (forall key :: key in files ==> files[key] in paths && KeyOf(fold, files[key]) == key)
  }

  ghost predicate DirectoriesHold(fold: string -> string, directories: Directories, paths: seq<Path>) {
    && (forall i, k :: 0 <= i < |paths| && 0 < k < |paths[i]| ==>
          KeyOf(fold, paths[i][..k]) in directories && directories[KeyOf(fold, paths[i][..k])] == paths[i][..k])
    && (forall key :: key in directories ==> IsDirectoryOf(paths, directories[key]) && KeyOf(fold, directories[key]) == key)
  }

  /** The maps are those of the paths added so far. */
  ghost predicate Holds(fold: string -> string, files: Files, directories: Directories, paths: seq<Path>) {
    AllCompatible(fold, paths) && FilesHold(fold, files, paths) && DirectoriesHold(fold, directories, paths)
  }

  /** What `add` checks of directory `p[..k]`. */
  predicate DirectoryFits(fold: string -> string, files: Files, directories: Directories, p: Path, k: int)
    requires 0 < k < |p|
  {
    var key := KeyOf(fold, p[..k]);
    key !in files && (key in directories ==> directories[key] == p[..k])
  }

  ghost predicate Fits(fold: string -> string, files: Files, directories: Directories, p: Path) {
    && KeyOf(fold, p) !in files && KeyOf(fold, p) !in directories
    && forall k :: 0 < k < |p| ==> DirectoryFits(fold, files, directories, p, k)
  }

  lemma FitsBesideEach(fold: string -> string, files: Files, directories: Directories, paths: seq<Path>, p: Path, i: int)
    requires Holds(fold, files, directories, paths) && Fits(fold, files, directories, p) && 0 <= i < |paths|
    ensures Compatible(fold, paths[i], p)
  {
    var q := paths[i];
    assert KeyOf(fold, q) in files;
    forall k | 0 < k < |p| ensures KeyOf(fold, q) != KeyOf(fold, p[..k]) {
      assert DirectoryFits(fold, files, directories, p, k);
    }
    forall k | 0 < k < |q| ensures KeyOf(fold, p) != KeyOf(fold, q[..k]) {
      assert KeyOf(fold, q[..k]) in directories;
    }
    forall k | 0 < k < |q| && k < |p| && KeyOf(fold, q[..k]) == KeyOf(fold, p[..k]) ensures q[..k] == p[..k] {
      assert DirectoryFits(fold, files, directories, p, k);
    }
  }

  lemma CompatibleFits(fold: string -> string, files: Files, directories: Directories, paths: seq<Path>, p: Path)
    requires Holds(fold, files, directories, paths) && forall i :: 0 <= i < |paths| ==> Compatible(fold, paths[i], p)
    ensures Fits(fold, files, directories, p)
  {
    forall key | key in files ensures key != KeyOf(fold, p) && forall k :: 0 < k < |p| ==> key != KeyOf(fold, p[..k]) {
      var i :| 0 <= i < |paths| && paths[i] == files[key];
      assert Compatible(fold, paths[i], p);
    }
    forall key | key in directories
      ensures key != KeyOf(fold, p)
      ensures forall k :: 0 < k < |p| && key == KeyOf(fold, p[..k]) ==> directories[key] == p[..k]
    {
      var i, j :| 0 <= i < |paths| && 0 < j < |paths[i]| && paths[i][..j] == directories[key];
      assert Compatible(fold, paths[i], p);
      assert |key| == j;
    }
  }

  /** `dirs'` is `dirs` with the directories `p[..k]`, `p[..k + 1]` and so on. */
  ghost predicate WithDirectories(fold: string -> string, dirs: Directories, dirs': Directories, p: Path, k: int) {
    && (forall j :: k <= j < |p| && 0 < j ==> KeyOf(fold, p[..j]) in dirs' && dirs'[KeyOf(fold, p[..j])] == p[..j])
    && (forall key :: key in dirs ==> key in dirs' && dirs'[key] == dirs[key])
    && (forall key :: key in dirs' && key !in dirs ==>
          exists j :: k <= j < |p| && 0 < j && key == KeyOf(fold, p[..j]))
  }

  lemma DirectoriesOneMore(fold: string -> string, directories: Directories, directories': Directories,
                           paths: seq<Path>, p: Path)
    requires DirectoriesHold(fold, directories, paths) && WithDirectories(fold, directories, directories', p, 1)
    ensures DirectoriesHold(fold, directories', paths + [p])
  {
    var more := paths + [p];
    forall key | key in directories' ensures IsDirectoryOf(more, directories'[key]) && KeyOf(fold, directories'[key]) == key {
      if key in directories {
        var i, k :| 0 <= i < |paths| && 0 < k < |paths[i]| && paths[i][..k] == directories[key];
        assert more[i] == paths[i];
      } else {
        var j :| 1 <= j < |p| && key == KeyOf(fold, p[..j]);
        assert more[|paths|][..j] == directories'[key];
      }
    }
    forall i, k | 0 <= i < |more| && 0 < k < |more[i]|
      ensures KeyOf(fold, more[i][..k]) in directories' && directories'[KeyOf(fold, more[i][..k])] == more[i][..k] {
      if i < |paths| {
        assert more[i] == paths[i];
      }
    }
  }

  lemma FilesOneMore(fold: string -> string, files: Files, paths: seq<Path>, p: Path)
    requires FilesHold(fold, files, paths)
    ensures FilesHold(fold, files[KeyOf(fold, p) := p], paths + [p])
  {
    assert (paths + [p])[|paths|] == p;
  }

  lemma HoldsOneMore(fold: string -> string, files: Files, directories: Directories, directories': Directories,
                     paths: seq<Path>, p: Path)
    requires Holds(fold, files, directories, paths) && Fits(fold, files, directories, p)
    requires WithDirectories(fold, directories, directories', p, 1)
    ensures Holds(fold, files[KeyOf(fold, p) := p], directories', paths + [p])
  {
    var more := paths + [p];
    DirectoriesOneMore(fold, directories, directories', paths, p);
    FilesOneMore(fold, files, paths, p);
    forall i, j | 0 <= i < j < |more| ensures Compatible(fold, more[i], more[j]) {
      if j == |paths| {
        FitsBesideEach(fold, files, directories, paths, p, i);
      } else {
        assert Compatible(fold, paths[i], paths[j]);
      }
    }
  }

  /** `portableAttachmentPathSet`. */
  class PathSet {
    const fold: string -> string
    var files: Files
    var directories: Directories

    constructor (fold: string -> string)
      ensures Holds(this.fold, files, directories, []) && this.fold == fold
    {
      this.fold := fold;
      files, directories := map[], map[];
    }

    /** `add`: a path is taken exactly if it is compatible with every path taken before.  After a
        refusal the set is of no further use. */
    method Add(p: Path, ghost paths: seq<Path>) returns (ok: bool)
      requires Holds(fold, files, directories, paths)
      modifies this
      ensures ok <==> forall i :: 0 <= i < |paths| ==> Compatible(fold, paths[i], p)
      ensures ok ==> Holds(fold, files, directories, paths + [p])
    {
      ghost var dirs := directories;
      if forall i :: 0 <= i < |paths| ==> Compatible(fold, paths[i], p) {
        CompatibleFits(fold, files, directories, paths, p);
      } else if Fits(fold, files, directories, p) {
        forall i | 0 <= i < |paths| ensures Compatible(fold, paths[i], p) {
          FitsBesideEach(fold, files, directories, paths, p, i);
        }
      }
      var fileKey := KeyOf(fold, p);
      if fileKey in files || fileKey in directories {
        return false;
      }
      ok := AddDirectories(p);
      if ok {
        HoldsOneMore(fold, files, dirs, directories, paths, p);
        files := files[fileKey := p];
      }
    }

    /** Walks from the parent directory up. */
    method AddDirectories(p: Path) returns (ok: bool)
      modifies `directories
      ensures ok <==> forall k :: 0 < k < |p| ==> DirectoryFits(fold, files, old(directories), p, k)
      ensures ok ==> WithDirectories(fold, old(directories), directories, p, 1)
    {
      var k := |p| - 1;
      while k > 0
        invariant 0 <= k < |p|
        invariant WithDirectories(fold, old(directories), directories, p, k + 1)
        invariant forall j :: k < j < |p| ==> DirectoryFits(fold, files, old(directories), p, j)
      {
        var directory := p[..k];
        var directoryKey := KeyOf(fold, directory);
        assert directoryKey in directories && directoryKey !in old(directories) ==> false;
        if directoryKey in files {
          assert !DirectoryFits(fold, files, old(directories), p, k);
          return false;
        }
        if directoryKey in directories && directories[directoryKey] != directory {
          assert !DirectoryFits(fold, files, old(directories), p, k);
          return false;
        }
        directories := directories[directoryKey := directory];
        k := k - 1;
      }
      ok := true;
    }
  }

  lemma IncompatibleStays(fold: string -> string, paths: seq<Path>, i: nat, k: nat)
    requires k < i < |paths| && !Compatible(fold, paths[k], paths[i])
    ensures !AllCompatible(fold, paths)
  {
  }

  /** Adding a list of paths one by one succeeds exactly if they can all coexist, hence in every order
      or in none. */
  method AddAll(fold: string -> string, paths: seq<Path>) returns (ok: bool)
    ensures ok <==> AllCompatible(fold, paths)
    ensures ok <==> AllDifferent(paths) && exists nodes :: Stores(fold, nodes, paths)
  {
    CompatibleIffStorable(fold, paths);
    var pathSet := new PathSet(fold);
    for i := 0 to |paths|
      invariant Holds(fold, pathSet.files, pathSet.directories, paths[..i]) && pathSet.fold == fold
    {
      ok := pathSet.Add(paths[i], paths[..i]);
      if !ok {
        RefusedForGood(fold, paths, i);
        return;
      }
      assert paths[..i + 1] == paths[..i] + [paths[i]];
    }
    HoldsCompatible(fold, pathSet.files, pathSet.directories, paths[..|paths|]);
    assert paths[..|paths|] == paths;
    ok := true;
  }

  lemma RefusedForGood(fold: string -> string, paths: seq<Path>, i: nat)
    requires i < |paths| && exists k :: 0 <= k < i && !Compatible(fold, paths[..i][k], paths[i])
    ensures !AllCompatible(fold, paths)
  {
    var k :| 0 <= k < i && !Compatible(fold, paths[..i][k], paths[i]);
    IncompatibleStays(fold, paths, i, k);
  }

  lemma HoldsCompatible(fold: string -> string, files: Files, directories: Directories, paths: seq<Path>)
    requires Holds(fold, files, directories, paths)
    ensures AllCompatible(fold, paths)
  {
  }

  // ---- compatible means: they fit into one directory tree ----

  datatype Node = FileNode(path: seq<string>) | DirectoryNode(path: seq<string>)

  /** A file system that does not tell keys apart holds every path as a file, and what leads to it as
      directories, all under their own spelling. */
  ghost predicate Stores(fold: string -> string, nodes: map<Key, Node>, paths: seq<Path>) {
    && (forall i :: 0 <= i < |paths| ==> KeyOf(fold, paths[i]) in nodes && nodes[KeyOf(fold, paths[i])] == FileNode(paths[i]))
    && (forall i, k :: 0 <= i < |paths| && 0 < k < |paths[i]| ==>
          KeyOf(fold, paths[i][..k]) in nodes && nodes[KeyOf(fold, paths[i][..k])] == DirectoryNode(paths[i][..k]))
  }

  ghost predicate AllDifferent(paths: seq<Path>) {
    forall i, j :: 0 <= i < j < |paths| ==> paths[i] != paths[j]
  }

  lemma StoredAreCompatible(fold: string -> string, nodes: map<Key, Node>, paths: seq<Path>)
    requires Stores(fold, nodes, paths) && AllDifferent(paths)
    ensures AllCompatible(fold, paths)
  {
    forall i, j | 0 <= i < j < |paths| ensures Compatible(fold, paths[i], paths[j]) {
      var a, b := paths[i], paths[j];
      forall k | 0 < k < |b| ensures KeyOf(fold, a) != KeyOf(fold, b[..k]) {
        assert nodes[KeyOf(fold, b[..k])] == DirectoryNode(b[..k]);
      }
      forall k | 0 < k < |a| ensures KeyOf(fold, b) != KeyOf(fold, a[..k]) {
        assert nodes[KeyOf(fold, a[..k])] == DirectoryNode(a[..k]);
      }
      forall k | 0 < k < |a| && k < |b| && KeyOf(fold, a[..k]) == KeyOf(fold, b[..k]) ensures a[..k] == b[..k] {
        assert nodes[KeyOf(fold, a[..k])] == DirectoryNode(a[..k]);
        assert nodes[KeyOf(fold, b[..k])] == DirectoryNode(b[..k]);
      }
    }
  }

  function AncestorKeys(fold: string -> string, p: Path): (keys: set<Key>)
    ensures forall k :: 0 < k < |p| ==> KeyOf(fold, p[..k]) in keys
    ensures forall key :: key in keys ==> 0 < |key| < |p| && key == KeyOf(fold, p[..|key|])
  {
    set k | 0 < k < |p| :: KeyOf(fold, p[..k])
  }

  function WithAncestors(fold: string -> string, directories: Directories, p: Path): Directories {
    directories + map key | key in AncestorKeys(fold, p) :: p[..if |key| < |p| then |key| else |p|]
  }

  lemma AncestorsAdded(fold: string -> string, files: Files, directories: Directories, p: Path)
    requires Fits(fold, files, directories, p)
    ensures WithDirectories(fold, directories, WithAncestors(fold, directories, p), p, 1)
  {
    var dirs := WithAncestors(fold, directories, p);
    forall j | 1 <= j < |p| ensures KeyOf(fold, p[..j]) in dirs && dirs[KeyOf(fold, p[..j])] == p[..j] {
      assert |KeyOf(fold, p[..j])| == j;
    }
    forall key | key in directories ensures key in dirs && dirs[key] == directories[key] {
      if key in AncestorKeys(fold, p) {
        assert DirectoryFits(fold, files, directories, p, |key|);
      }
    }
  }

  lemma {:induction false} CompatibleAreHeld(fold: string -> string, paths: seq<Path>) returns (files: Files, directories: Directories)
    requires AllCompatible(fold, paths)
    ensures Holds(fold, files, directories, paths)
  {
    if paths == [] {
      files, directories := map[], map[];
    } else {
      var n := |paths| - 1;
      var init, p := paths[..n], paths[n];
      forall i, j | 0 <= i < j < n ensures Compatible(fold, init[i], init[j]) {
        assert Compatible(fold, paths[i], paths[j]);
      }
      files, directories := CompatibleAreHeld(fold, init);
      forall i | 0 <= i < n ensures Compatible(fold, init[i], p) {
        assert Compatible(fold, paths[i], paths[n]);
      }
      CompatibleFits(fold, files, directories, init, p);
      AncestorsAdded(fold, files, directories, p);
      HoldsOneMore(fold, files, directories, WithAncestors(fold, directories, p), init, p);
      files, directories := files[KeyOf(fold, p) := p], WithAncestors(fold, directories, p);
      assert paths == init + [p];
    }
  }

  function NodesOf(files: Files, directories: Directories): map<Key, Node> {
    (map key | key in directories :: DirectoryNode(directories[key])) + map key | key in files :: FileNode(files[key])
  }

  lemma FileIsNoDirectory(fold: string -> string, paths: seq<Path>, i: nat, j: nat, k: nat)
    requires AllCompatible(fold, paths) && i < |paths| && j < |paths| && 0 < k < |paths[i]|
    ensures KeyOf(fold, paths[j]) != KeyOf(fold, paths[i][..k])
  {
    if i < j {
      assert Compatible(fold, paths[i], paths[j]);
    } else if j < i {
      assert Compatible(fold, paths[j], paths[i]);
    } else {
      assert |KeyOf(fold, paths[i])| != |KeyOf(fold, paths[i][..k])|;
    }
  }

  lemma HeldAreStored(fold: string -> string, files: Files, directories: Directories, paths: seq<Path>)
    requires Holds(fold, files, directories, paths)
    ensures Stores(fold, NodesOf(files, directories), paths)
  {
    forall i | 0 <= i < |paths| ensures files[KeyOf(fold, paths[i])] == paths[i] {
      var key := KeyOf(fold, paths[i]);
      var j :| 0 <= j < |paths| && paths[j] == files[key];
      assert i < j ==> Compatible(fold, paths[i], paths[j]);
      assert j < i ==> Compatible(fold, paths[j], paths[i]);
    }
    forall i, k, key | 0 <= i < |paths| && 0 < k < |paths[i]| && key in files ensures key != KeyOf(fold, paths[i][..k]) {
      var j :| 0 <= j < |paths| && paths[j] == files[key];
      FileIsNoDirectory(fold, paths, i, j, k);
    }
  }

  /** A list of paths is compatible exactly if they are all different and fit together into one
      directory tree of a file system that does not tell their keys apart. */
  lemma CompatibleIffStorable(fold: string -> string, paths: seq<Path>)
    ensures AllCompatible(fold, paths) <==> AllDifferent(paths) && exists nodes :: Stores(fold, nodes, paths)
  {
    if AllCompatible(fold, paths) {
      var files, directories := CompatibleAreHeld(fold, paths);
      HeldAreStored(fold, files, directories, paths);
      forall i, j | 0 <= i < j < |paths| ensures paths[i] != paths[j] {
        assert Compatible(fold, paths[i], paths[j]);
      }
    } else if AllDifferent(paths) && exists nodes :: Stores(fold, nodes, paths) {
      var nodes :| Stores(fold, nodes, paths);
      StoredAreCompatible(fold, nodes, paths);
    }
  }
}

/** Giving a backup to another user: all rows and references must agree on one owner, and every reference is moved. */
module BackupOwners {
  import opened Optional
  import opened Text
  import opened Decimal
  import opened PortablePaths
  import opened UploadReferences

  /** A text column with references: one, none, a JSON array of them, a comma-separated list, or JSON
      that is no array of strings. */
  datatype Stored = Single(text: string) | Blank(text: string) | JsonArray(paths: seq<string>)
                  | Commas(text: string) | BadJson

  function TrimEach(parts: seq<string>): (r: seq<string>)
    ensures |r| == |parts| && forall i :: 0 <= i < |parts| ==> r[i] == TrimSpace(parts[i])
  {
    seq(|parts|, i requires 0 <= i < |parts| => TrimSpace(parts[i]))
  }

  /** The texts that are parsed as references when the column is remapped. */
  function Entries(v: Stored): seq<string> {
    match v
    case Single(text) => [text]
    case JsonArray(paths) => paths
    case Commas(text) => TrimEach(Split(text, ','))
    case _ => []
  }

  /** The texts that are parsed when owners are collected. */
  function Visited(v: Stored): seq<string> {
    match v
    case Single(text) => [text]
    case JsonArray(paths) => TrimEach(paths)
    case Commas(text) => TrimEach(Split(text, ','))
    case _ => []
  }

  // ---- rebuilding a column from moved entries ----

  /** The column after `moved` has replaced its entries. */
  function Rebuilt(v: Stored, moved: seq<string>): Stored
    requires |moved| == |Entries(v)|
  {
    match v
    case Single(_) => Single(moved[0])
    case JsonArray(_) => JsonArray(moved)
    case Commas(_) => Commas(Join(moved, ','))
    case _ => v
  }

  /** What an entry of a comma-separated list looks like. */
  predicate CleanEntry(e: string) {
    ',' !in e && TrimSpace(e) == e
  }

  lemma NoCommaLeft(s: string)
    requires ',' !in s
    ensures ',' !in TrimSpace(s)
  {
    TrimLeftResult(s);
    TrimRightResult(TrimLeft(s));
  }

  lemma SplitEntry(v: Stored, i: nat)
    requires v.Commas? && i < |Entries(v)|
    ensures CleanEntry(Entries(v)[i])
  {
    var parts := Split(v.text, ',');
    SplitParts(v.text, ',');
    assert Entries(v)[i] == TrimSpace(parts[i]);
    NoCommaLeft(parts[i]);
    TrimTwice(parts[i]);
  }

  lemma RebuiltEntries(v: Stored, moved: seq<string>)
    requires |moved| == |Entries(v)| && (v.Commas? ==> forall i :: 0 <= i < |moved| ==> CleanEntry(moved[i]))
    ensures Entries(Rebuilt(v, moved)) == moved
  {
    if v.Commas? {
      SplitOfJoin(moved, ',');
    }
  }

  // ---- moving the entries of columns, by any partial function ----

  type Remapper = string -> Option<string>

  /** Moving an entry of a comma-separated list gives an entry of one. */
  ghost predicate KeepsClean(remap: Remapper) {
    forall e :: CleanEntry(e) && remap(e).Some? ==> CleanEntry(remap(e).value)
  }

  ghost predicate Movable(remap: Remapper, v: Stored) {
    forall i :: 0 <= i < |Entries(v)| ==> remap(Entries(v)[i]).Some?
  }

  /** The new column holds the moved entries, entry by entry, in the same form. */
  ghost predicate ColumnMoved(remap: Remapper, v: Stored, v': Stored) {
    && |Entries(v')| == |Entries(v)|
    && (forall i :: 0 <= i < |Entries(v)| ==> remap(Entries(v)[i]) == Some(Entries(v')[i]))
    && (v.Single? <==> v'.Single?) && (v.JsonArray? <==> v'.JsonArray?) && (v.Commas? <==> v'.Commas?)
    && (v.Blank? || v.BadJson? ==> v' == v)
  }

  /** Moves every entry; fails at the first that cannot be moved. */
  method RemapEach(remap: Remapper, entries: seq<string>) returns (ok: bool, moved: seq<string>)
    ensures ok <==> forall i :: 0 <= i < |entries| ==> remap(entries[i]).Some?
    ensures ok ==> |moved| == |entries| && forall i :: 0 <= i < |entries| ==> remap(entries[i]) == Some(moved[i])
  {
    moved := [];
    for i := 0 to |entries|
      invariant |moved| == i && forall k :: 0 <= k < i ==> remap(entries[k]) == Some(moved[k])
    {
      var remapped := remap(entries[i]);
      if remapped.None? {
        return false, moved;
      }
      moved := moved + [remapped.value];
    }
    ok := true;
  }

  lemma MovedAreClean(remap: Remapper, v: Stored, moved: seq<string>)
    requires KeepsClean(remap) && v.Commas? && |moved| == |Entries(v)|
    requires forall i :: 0 <= i < |moved| ==> remap(Entries(v)[i]) == Some(moved[i])
    ensures forall i :: 0 <= i < |moved| ==> CleanEntry(moved[i])
  {
    forall i | 0 <= i < |moved| ensures CleanEntry(moved[i]) {
      SplitEntry(v, i);
    }
  }

  /** `remapStoredUploadReferenceList`, or `remapStoredUploadReference` for a single one. */
  method RemapColumn(remap: Remapper, v: Stored) returns (ok: bool, v': Stored)
    requires KeepsClean(remap)
    ensures ok <==> Movable(remap, v)
    ensures ok ==> ColumnMoved(remap, v, v')
  {
    var moved;
    ok, moved := RemapEach(remap, Entries(v));
    v' := v;
    if ok {
      if v.Commas? {
        MovedAreClean(remap, v, moved);
      }
      RebuiltEntries(v, moved);
      v' := Rebuilt(v, moved);
    }
  }

  ghost predicate ColumnsMoved(remap: Remapper, columns: seq<Stored>, columns': seq<Stored>) {
    |columns'| == |columns| && forall i :: 0 <= i < |columns| ==> ColumnMoved(remap, columns[i], columns'[i])
  }

  method RemapColumns(remap: Remapper, columns: seq<Stored>) returns (ok: bool, moved: seq<Stored>)
    requires KeepsClean(remap)
    ensures ok <==> forall i :: 0 <= i < |columns| ==> Movable(remap, columns[i])
    ensures ok ==> ColumnsMoved(remap, columns, moved)
  {
    moved := [];
    for i := 0 to |columns|
      invariant |moved| == i && forall k :: 0 <= k < i ==> ColumnMoved(remap, columns[k], moved[k])
      invariant forall k :: 0 <= k < i ==> Movable(remap, columns[k])
    {
      var column;
      ok, column := RemapColumn(remap, columns[i]);
      if !ok {
        return;
      }
      moved := moved + [column];
    }
    ok := true;
  }

  // ---- collecting owners, for any way of visiting a column ----

  /** What the texts visited in a column parse as. */
  type Visitor = Stored -> seq<Parsed>

  function AllParsed(visit: Visitor, columns: seq<Stored>): seq<Parsed> {
    if columns == [] then []
    else AllParsed(visit, columns[..|columns| - 1]) + visit(columns[|columns| - 1])
  }

  /** The owner of a reference, 0 for free text. */
  function OwnerOf(p: Parsed): nat {
    if p.Reference? then p.owner else 0
  }

  function OwnersOf(parsed: seq<Parsed>): (r: seq<nat>)
    ensures |r| == |parsed| && forall i :: 0 <= i < |parsed| ==> r[i] == OwnerOf(parsed[i])
  {
    seq(|parsed|, i requires 0 <= i < |parsed| => OwnerOf(parsed[i]))
  }

  function RowOwners(rows: seq<Option<nat>>): (r: seq<nat>)
    ensures |r| == |rows| && forall i :: 0 <= i < |rows| ==> r[i] == if rows[i].Some? then rows[i].value else 0
  {
    seq(|rows|, i requires 0 <= i < |rows| => if rows[i].Some? then rows[i].value else 0)
  }

  /** Everyone named as an owner: by the declared source, by rows, and by references. */
  function Owners(visit: Visitor, declared: nat, rows: seq<Option<nat>>, columns: seq<Stored>): seq<nat> {
    [declared] + RowOwners(rows) + OwnersOf(AllParsed(visit, columns))
  }

  /** Any two owners named are the same. */
  ghost predicate Agreed(owners: seq<nat>) {
    forall i, j :: 0 <= i < |owners| && 0 <= j < |owners| && owners[i] != 0 && owners[j] != 0 ==> owners[i] == owners[j]
  }

  /** The first owner named, or 0. */
  function Common(owners: seq<nat>): nat {
    if owners == [] then 0
    else
      var earlier := Common(owners[..|owners| - 1]);
      if earlier != 0 then earlier else owners[|owners| - 1]
  }

  lemma {:induction false} CommonIsNamed(owners: seq<nat>)
    ensures Common(owners) == 0 <==> forall i :: 0 <= i < |owners| ==> owners[i] == 0
    ensures Common(owners) != 0 ==> exists i :: 0 <= i < |owners| && owners[i] == Common(owners)
  {
    if owners != [] {
      CommonIsNamed(owners[..|owners| - 1]);
    }
  }

  lemma AgreedIsCommon(owners: seq<nat>, o: nat)
    requires Agreed(owners) && o in owners && o != 0
    ensures o == Common(owners)
  {
    CommonIsNamed(owners);
  }

  lemma OneMoreOwner(owners: seq<nat>, o: nat)
    requires Agreed(owners)
    ensures Common(owners + [o]) == if Common(owners) != 0 then Common(owners) else o
    ensures Agreed(owners + [o]) <==> o == 0 || Common(owners) == 0 || o == Common(owners)
  {
    var more := owners + [o];
    assert more[..|owners|] == owners;
    CommonIsNamed(owners);
    if Agreed(more) && o != 0 && Common(owners) != 0 {
      var i :| 0 <= i < |owners| && owners[i] == Common(owners);
      assert more[i] == owners[i] && more[|owners|] == o;
    }
  }

  lemma DisagreementStays(owners: seq<nat>, more: seq<nat>)
    requires !Agreed(owners)
    ensures !Agreed(owners + more)
  {
    var i, j :| 0 <= i < |owners| && 0 <= j < |owners| && owners[i] != 0 && owners[j] != 0 && owners[i] != owners[j];
    assert (owners + more)[i] == owners[i] && (owners + more)[j] == owners[j];
  }

  ghost predicate NoneMalformed(parsed: seq<Parsed>) {
    forall i :: 0 <= i < |parsed| ==> !parsed[i].Malformed?
  }

  /** `acceptUserID`. */
  method AcceptUserID(source: nat, candidate: nat, ghost owners: seq<nat>) returns (ok: bool, sourceUserID: nat)
    requires Agreed(owners) && source == Common(owners)
    ensures ok <==> Agreed(owners + [candidate])
    ensures ok ==> sourceUserID == Common(owners + [candidate])
  {
    OneMoreOwner(owners, candidate);
    sourceUserID, ok := source, true;
    if candidate == 0 {
      return;
    }
    if source == 0 {
      sourceUserID := candidate;
      return;
    }
    ok := candidate == source;
  }

  /** Accepts one owner after the other; together with those before, they must agree. */
  method AcceptAll(source: nat, candidates: seq<nat>, ghost owners: seq<nat>) returns (ok: bool, sourceUserID: nat)
    requires Agreed(owners) && source == Common(owners)
    ensures ok <==> Agreed(owners + candidates)
    ensures ok ==> sourceUserID == Common(owners + candidates)
  {
    sourceUserID := source;
    assert candidates[..0] == [] && owners + [] == owners;
    for i := 0 to |candidates|
      invariant Agreed(owners + candidates[..i]) && sourceUserID == Common(owners + candidates[..i])
    {
      assert owners + candidates[..i + 1] == (owners + candidates[..i]) + [candidates[i]];
      ok, sourceUserID := AcceptUserID(sourceUserID, candidates[i], owners + candidates[..i]);
      if !ok {
        DisagreementStays(owners + candidates[..i + 1], candidates[i + 1..]);
        assert owners + candidates == (owners + candidates[..i + 1]) + candidates[i + 1..];
        return;
      }
    }
    assert candidates[..|candidates|] == candidates;
    ok := true;
  }

  method CollectRows(rows: seq<Option<nat>>) returns (ok: bool, owners: seq<nat>)
    ensures ok <==> forall i :: 0 <= i < |rows| ==> rows[i].Some?
    ensures ok ==> owners == RowOwners(rows)
  {
    owners := [];
    for i := 0 to |rows|
      invariant |owners| == i && forall k :: 0 <= k < i ==> rows[k].Some? && owners[k] == rows[k].value
    {
      if rows[i].None? {
        return false, owners;
      }
      owners := owners + [rows[i].value];
    }
    ok := true;
  }

  method CollectReferences(parsed: seq<Parsed>) returns (ok: bool, owners: seq<nat>)
    ensures ok <==> NoneMalformed(parsed)
    ensures ok ==> owners == OwnersOf(parsed)
  {
    owners := [];
    for i := 0 to |parsed|
      invariant |owners| == i && forall k :: 0 <= k < i ==> !parsed[k].Malformed? && owners[k] == OwnerOf(parsed[k])
    {
      if parsed[i].Malformed? {
        return false, owners;
      }
      owners := owners + [OwnerOf(parsed[i])];
    }
    ok := true;
  }

  /** `visitBackupStoredUploadReferences`, collecting what the visited texts parse as. */
  method VisitColumns(visit: Visitor, columns: seq<Stored>) returns (ok: bool, parsed: seq<Parsed>)
    ensures ok <==> forall i :: 0 <= i < |columns| ==> !columns[i].BadJson?
    ensures ok ==> parsed == AllParsed(visit, columns)
  {
    parsed := [];
    for i := 0 to |columns|
      invariant forall k :: 0 <= k < i ==> !columns[k].BadJson?
      invariant parsed == AllParsed(visit, columns[..i])
    {
      if columns[i].BadJson? {
        return false, parsed;
      }
      assert columns[..i + 1][..i] == columns[..i];
      parsed := parsed + visit(columns[i]);
    }
    assert columns[..|columns|] == columns;
    ok := true;
  }

  lemma {:induction false} ParsedIsCollected(visit: Visitor, columns: seq<Stored>, i: nat, p: Parsed)
    requires i < |columns| && p in visit(columns[i])
    ensures p in AllParsed(visit, columns)
  {
    var last := |columns| - 1;
    if i < last {
      assert columns[..last][i] == columns[i];
      ParsedIsCollected(visit, columns[..last], i, p);
    }
  }

  lemma CollectedOwner(visit: Visitor, declared: nat, rows: seq<Option<nat>>, columns: seq<Stored>, p: Parsed)
    requires Agreed(Owners(visit, declared, rows, columns)) && p in AllParsed(visit, columns) && OwnerOf(p) != 0
    ensures OwnerOf(p) == Common(Owners(visit, declared, rows, columns))
  {
    var n :| 0 <= n < |AllParsed(visit, columns)| && AllParsed(visit, columns)[n] == p;
    assert Owners(visit, declared, rows, columns)[1 + |rows| + n] == OwnerOf(p);
    AgreedIsCommon(Owners(visit, declared, rows, columns), OwnerOf(p));
  }
}

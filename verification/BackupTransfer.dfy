/** `normalizeBackupForRestore`: the check that a backup has one owner, and its transfer to the target. */
module BackupTransfer {
  import opened Optional
  import opened Text
  import opened Decimal
  import opened PortablePaths
  import opened UploadReferences
  import opened BackupOwners

  /** Moves references from `source` to `target`. */
  function To(source: nat, target: nat): Remapper {
    (e: string) => Remap(e, source, target)
  }

  lemma SuffixWithoutComma(e: string, owner: nat, suffix: string, absolute: bool)
    requires e == Print(owner, suffix, absolute) && ',' !in e
    ensures ',' !in suffix
  {
    forall i | 0 <= i < |suffix| ensures suffix[i] != ',' {
      assert e[|e| - |suffix| + i] == suffix[i];
    }
  }

  lemma PrintWithoutComma(owner: nat, suffix: string, absolute: bool)
    requires ',' !in suffix
    ensures ',' !in Print(owner, suffix, absolute)
  {
    var d := Digits(owner);
    forall i | 0 <= i < |d| ensures d[i] != ',' {
      assert IsDigit(d[i]);
    }
  }

  lemma MovedStaysClean(e: string, source: nat, target: nat)
    requires CleanEntry(e) && Remap(e, source, target).Some? && 0 < target <= MAX_OWNER
    ensures CleanEntry(Remap(e, source, target).value)
  {
    RemapSucceedsIff(e, source, target);
    if Parse(e).Reference? {
      var ref := Parse(e);
      RemapRoundTrip(e, source, target);
      ParsedIsPrinted(e);
      SuffixWithoutComma(e, ref.owner, ref.suffix, ref.absolute);
      PrintWithoutComma(target, ref.suffix, ref.absolute);
    }
  }

  lemma ToKeepsClean(source: nat, target: nat)
    requires 0 < target <= MAX_OWNER
    ensures KeepsClean(To(source, target))
  {
    forall e | CleanEntry(e) && To(source, target)(e).Some? ensures CleanEntry(To(source, target)(e).value) {
      MovedStaysClean(e, source, target);
    }
  }

  // ---- what the collected owners say about the entries ----

  function ParseEach(texts: seq<string>): (r: seq<Parsed>)
    ensures |r| == |texts| && forall i :: 0 <= i < |texts| ==> r[i] == Parse(texts[i])
  {
    seq(|texts|, i requires 0 <= i < |texts| => Parse(texts[i]))
  }

  function ParseColumn(v: Stored): seq<Parsed> { ParseEach(Visited(v)) }

  /** The owners named by a backup. */
  function Named(declared: nat, rows: seq<Option<nat>>, columns: seq<Stored>): seq<nat> {
    Owners(ParseColumn, declared, rows, columns)
  }

  /** An entry that parses as a reference is visited as it stands. */
  lemma EntryIsVisited(v: Stored, k: nat)
    requires k < |Entries(v)| && Parse(Entries(v)[k]).Reference?
    ensures Parse(Entries(v)[k]) in ParseColumn(v)
  {
    ParsedIsPrinted(Entries(v)[k]);
    assert Visited(v)[k] == Entries(v)[k];
    assert ParseColumn(v)[k] == Parse(Entries(v)[k]);
  }

  lemma EntryOwner(declared: nat, rows: seq<Option<nat>>, columns: seq<Stored>, i: nat, k: nat)
    requires Agreed(Named(declared, rows, columns)) && i < |columns| && k < |Entries(columns[i])|
    requires Parse(Entries(columns[i])[k]).Reference?
    ensures Parse(Entries(columns[i])[k]).owner == Common(Named(declared, rows, columns)) != 0
  {
    var p := Parse(Entries(columns[i])[k]);
    EntryIsVisited(columns[i], k);
    ParsedIsCollected(ParseColumn, columns, i, p);
    ParsedIsPrinted(Entries(columns[i])[k]);
    CollectedOwner(ParseColumn, declared, rows, columns, p);
  }

  /** No entry is text that looks like a reference but is none. */
  ghost predicate WellFormed(v: Stored) {
    forall k :: 0 <= k < |Entries(v)| ==> !Parse(Entries(v)[k]).Malformed?
  }

  lemma EntryMovable(declared: nat, rows: seq<Option<nat>>, columns: seq<Stored>, i: nat, k: nat, target: nat)
    requires Agreed(Named(declared, rows, columns)) && i < |columns| && k < |Entries(columns[i])|
    ensures To(Common(Named(declared, rows, columns)), target)(Entries(columns[i])[k]).Some?
            <==> !Parse(Entries(columns[i])[k]).Malformed?
  {
    RemapSucceedsIff(Entries(columns[i])[k], Common(Named(declared, rows, columns)), target);
    if Parse(Entries(columns[i])[k]).Reference? {
      EntryOwner(declared, rows, columns, i, k);
    }
  }

  lemma ColumnMovable(declared: nat, rows: seq<Option<nat>>, columns: seq<Stored>, i: nat, target: nat)
    requires Agreed(Named(declared, rows, columns)) && i < |columns|
    ensures Movable(To(Common(Named(declared, rows, columns)), target), columns[i]) <==> WellFormed(columns[i])
  {
    forall k | 0 <= k < |Entries(columns[i])|
      ensures To(Common(Named(declared, rows, columns)), target)(Entries(columns[i])[k]).Some?
              <==> !Parse(Entries(columns[i])[k]).Malformed?
    {
      EntryMovable(declared, rows, columns, i, k, target);
    }
  }

  /** Every entry that parses as a reference has this owner. */
  ghost predicate OwnedBy(v: Stored, owner: nat) {
    forall k :: 0 <= k < |Entries(v)| ==> OwnerIs(Entries(v)[k], owner)
  }

  ghost predicate OwnerIs(e: string, owner: nat) {
    Parse(e).Reference? ==> Parse(e).owner == owner
  }

  lemma MovedIsTargets(e: string, source: nat, target: nat)
    requires Remap(e, source, target).Some? && 0 < target <= MAX_OWNER
    ensures OwnerIs(Remap(e, source, target).value, target)
  {
    RemapSucceedsIff(e, source, target);
    if Parse(e).Reference? {
      RemapRoundTrip(e, source, target);
    }
  }

  lemma MovedColumnIsTargets(v: Stored, v': Stored, source: nat, target: nat)
    requires ColumnMoved(To(source, target), v, v') && 0 < target <= MAX_OWNER
    ensures OwnedBy(v', target)
  {
    forall k | 0 <= k < |Entries(v')| ensures OwnerIs(Entries(v')[k], target) {
      assert To(source, target)(Entries(v)[k]) == Some(Entries(v')[k]);
      MovedIsTargets(Entries(v)[k], source, target);
    }
  }

  /** Every entry that is a reference leads into the owner's directory and never out of it. */
  ghost predicate LeadsTo(v: Stored, owner: nat) {
    forall k :: 0 <= k < |Entries(v)| && Parse(Entries(v)[k]).Reference? ==> StaysBelow(Entries(v)[k], Digits(owner))
  }

  lemma OwnedLeadsTo(v: Stored, owner: nat)
    requires OwnedBy(v, owner)
    ensures LeadsTo(v, owner)
  {
    forall k | 0 <= k < |Entries(v)| && Parse(Entries(v)[k]).Reference? ensures StaysBelow(Entries(v)[k], Digits(owner)) {
      assert OwnerIs(Entries(v)[k], owner);
      ReferenceStaysBelow(Entries(v)[k]);
    }
  }

  lemma AllOwnedLeadTo(columns: seq<Stored>, owner: nat)
    requires forall i :: 0 <= i < |columns| ==> OwnedBy(columns[i], owner)
    ensures forall i :: 0 <= i < |columns| ==> LeadsTo(columns[i], owner)
  {
    forall i | 0 <= i < |columns| ensures LeadsTo(columns[i], owner) {
      OwnedLeadsTo(columns[i], owner);
    }
  }

  /** Without any owner there is nothing to move: no entry is a reference. */
  lemma NobodysColumn(declared: nat, rows: seq<Option<nat>>, columns: seq<Stored>, i: nat, target: nat)
    requires Agreed(Named(declared, rows, columns)) && Common(Named(declared, rows, columns)) == 0 && i < |columns|
    ensures OwnedBy(columns[i], target)
  {
    forall k | 0 <= k < |Entries(columns[i])| ensures OwnerIs(Entries(columns[i])[k], target) {
      if Parse(Entries(columns[i])[k]).Reference? {
        EntryOwner(declared, rows, columns, i, k);
      }
    }
  }

  // ---- the whole backup ----

  /** The backups that can be given to another user: no null record, no broken list, no broken
      reference, and a single owner. */
  ghost predicate Acceptable(declared: nat, rows: seq<Option<nat>>, columns: seq<Stored>) {
    && (forall i :: 0 <= i < |rows| ==> rows[i].Some?)
    && (forall i :: 0 <= i < |columns| ==> !columns[i].BadJson?)
    && NoneMalformed(AllParsed(ParseColumn, columns))
    && Agreed(Named(declared, rows, columns))
    && (Common(Named(declared, rows, columns)) != 0 ==> forall i :: 0 <= i < |columns| ==> WellFormed(columns[i]))
  }

  /** What the first half checks: everyone named as an owner can be found and agrees. */
  ghost predicate Collectable(declared: nat, rows: seq<Option<nat>>, columns: seq<Stored>) {
    && (forall i :: 0 <= i < |rows| ==> rows[i].Some?)
    && (forall i :: 0 <= i < |columns| ==> !columns[i].BadJson?)
    && NoneMalformed(AllParsed(ParseColumn, columns)) && Agreed(Named(declared, rows, columns))
  }

  /** Said without the list of owners: no record is null, no list and no trimmed text broken, and there
      is one owner whom everyone who is named names. */
  lemma CollectableMeans(declared: nat, rows: seq<Option<nat>>, columns: seq<Stored>)
    ensures Collectable(declared, rows, columns) <==>
              && (forall i :: 0 <= i < |rows| ==> rows[i].Some?)
              && (forall i :: 0 <= i < |columns| ==> !columns[i].BadJson?)
              && (forall i, k :: 0 <= i < |columns| && 0 <= k < |Visited(columns[i])| ==> !Parse(Visited(columns[i])[k]).Malformed?)
              && exists owner: nat :: NamesOnly(owner, declared, rows, columns)
  {
    NoneMalformedMeans(columns);
    if Agreed(Named(declared, rows, columns)) {
      AgreedNamesOnly(declared, rows, columns);
    } else if owner: nat :| NamesOnly(owner, declared, rows, columns) {
      NamesOnlyAgreed(owner, declared, rows, columns);
    }
  }

  /** Whoever is named, by the backup, a record or a reference, is `owner`. */
  ghost predicate NamesOnly(owner: nat, declared: nat, rows: seq<Option<nat>>, columns: seq<Stored>) {
    && (declared != 0 ==> declared == owner)
    && (forall i :: 0 <= i < |rows| && rows[i].Some? && rows[i].value != 0 ==> rows[i].value == owner)
    && (forall i, k :: 0 <= i < |columns| && 0 <= k < |Visited(columns[i])| && Parse(Visited(columns[i])[k]).Reference? ==>
          Parse(Visited(columns[i])[k]).owner == owner)
  }

  lemma {:induction false} ParsedAreVisited(columns: seq<Stored>)
    ensures forall p :: p in AllParsed(ParseColumn, columns) ==>
              exists i, k :: 0 <= i < |columns| && 0 <= k < |Visited(columns[i])| && Parse(Visited(columns[i])[k]) == p
  {
    if columns != [] {
      var last := |columns| - 1;
      ParsedAreVisited(columns[..last]);
      forall p | p in AllParsed(ParseColumn, columns)
        ensures exists i, k :: 0 <= i < |columns| && 0 <= k < |Visited(columns[i])| && Parse(Visited(columns[i])[k]) == p
      {
        if p in AllParsed(ParseColumn, columns[..last]) {
          var i, k :| 0 <= i < last && 0 <= k < |Visited(columns[..last][i])| && Parse(Visited(columns[..last][i])[k]) == p;
          assert columns[..last][i] == columns[i];
        } else {
          var k :| 0 <= k < |ParseColumn(columns[last])| && ParseColumn(columns[last])[k] == p;
          assert Parse(Visited(columns[last])[k]) == p;
        }
      }
    }
  }

  lemma DeclaredOwner(declared: nat, rows: seq<Option<nat>>, columns: seq<Stored>)
    requires Agreed(Named(declared, rows, columns)) && declared != 0
    ensures declared == Common(Named(declared, rows, columns))
  {
    assert Named(declared, rows, columns)[0] == declared;
    AgreedIsCommon(Named(declared, rows, columns), declared);
  }

  lemma RowOwner(declared: nat, rows: seq<Option<nat>>, columns: seq<Stored>, i: nat)
    requires Agreed(Named(declared, rows, columns)) && i < |rows| && rows[i].Some? && rows[i].value != 0
    ensures rows[i].value == Common(Named(declared, rows, columns))
  {
    assert Named(declared, rows, columns)[1 + i] == rows[i].value;
    AgreedIsCommon(Named(declared, rows, columns), rows[i].value);
  }

  lemma AgreedNamesOnly(declared: nat, rows: seq<Option<nat>>, columns: seq<Stored>)
    requires Agreed(Named(declared, rows, columns))
    ensures NamesOnly(Common(Named(declared, rows, columns)), declared, rows, columns)
  {
    var common := Common(Named(declared, rows, columns));
    if declared != 0 {
      DeclaredOwner(declared, rows, columns);
    }
    forall i | 0 <= i < |rows| && rows[i].Some? && rows[i].value != 0 ensures rows[i].value == common {
      RowOwner(declared, rows, columns, i);
    }
    forall i, k | 0 <= i < |columns| && 0 <= k < |Visited(columns[i])| && Parse(Visited(columns[i])[k]).Reference?
      ensures Parse(Visited(columns[i])[k]).owner == common
    {
      VisitedOwner(declared, rows, columns, i, k);
    }
  }

  lemma VisitedOwner(declared: nat, rows: seq<Option<nat>>, columns: seq<Stored>, i: nat, k: nat)
    requires Agreed(Named(declared, rows, columns)) && i < |columns| && k < |Visited(columns[i])|
    requires Parse(Visited(columns[i])[k]).Reference?
    ensures Parse(Visited(columns[i])[k]).owner == Common(Named(declared, rows, columns))
  {
    var p := Parse(Visited(columns[i])[k]);
    VisitedIsParsed(columns, i, k);
    ParsedIsPrinted(Visited(columns[i])[k]);
    CollectedOwner(ParseColumn, declared, rows, columns, p);
  }

  lemma VisitedIsParsed(columns: seq<Stored>, i: nat, k: nat)
    requires i < |columns| && k < |Visited(columns[i])|
    ensures Parse(Visited(columns[i])[k]) in AllParsed(ParseColumn, columns)
  {
    assert ParseColumn(columns[i])[k] == Parse(Visited(columns[i])[k]);
    ParsedIsCollected(ParseColumn, columns, i, ParseColumn(columns[i])[k]);
  }

  lemma NoneMalformedMeans(columns: seq<Stored>)
    ensures NoneMalformed(AllParsed(ParseColumn, columns)) <==>
              forall i, k :: 0 <= i < |columns| && 0 <= k < |Visited(columns[i])| ==> !Parse(Visited(columns[i])[k]).Malformed?
  {
    var parsed := AllParsed(ParseColumn, columns);
    ParsedAreVisited(columns);
    assert forall n :: 0 <= n < |parsed| ==> parsed[n] in parsed;
    forall i, k | 0 <= i < |columns| && 0 <= k < |Visited(columns[i])| ensures Parse(Visited(columns[i])[k]) in parsed {
      VisitedIsParsed(columns, i, k);
    }
  }

  lemma NamesOnlyAgreed(owner: nat, declared: nat, rows: seq<Option<nat>>, columns: seq<Stored>)
    requires NamesOnly(owner, declared, rows, columns)
    ensures Agreed(Named(declared, rows, columns))
  {
    var owners := Named(declared, rows, columns);
    var parsed := AllParsed(ParseColumn, columns);
    ParsedAreVisited(columns);
    forall n | 0 <= n < |owners| && owners[n] != 0 ensures owners[n] == owner {
      if 0 < n <= |rows| {
        assert owners[n] == RowOwners(rows)[n - 1];
      } else if n > |rows| {
        assert owners[n] == OwnersOf(parsed)[n - 1 - |rows|];
        assert parsed[n - 1 - |rows|] in parsed;
      }
    }
  }

  predicate PaddedEntry(e: string) {
    TrimSpace(e) != e && Parse(TrimSpace(e)).Reference?
  }

  /** A JSON array has an entry that is a reference with white space around it. */
  predicate Padded(v: Stored) {
    v.JsonArray? && exists k :: 0 <= k < |v.paths| && PaddedEntry(v.paths[k])
  }

  /** Owners are collected from trimmed texts, but entries are moved as they stand: of columns whose
      owners could be collected, exactly those with a padded reference cannot be moved. */
  lemma WellFormedIffNotPadded(columns: seq<Stored>, i: nat)
    requires i < |columns| && !columns[i].BadJson? && NoneMalformed(AllParsed(ParseColumn, columns))
    ensures WellFormed(columns[i]) <==> !Padded(columns[i])
  {
    var v := columns[i];
    forall k | 0 <= k < |Entries(v)|
      ensures Parse(Entries(v)[k]).Malformed? <==> v.JsonArray? && PaddedEntry(Entries(v)[k])
    {
      assert ParseColumn(v)[k] == Parse(Visited(v)[k]);
      ParsedIsCollected(ParseColumn, columns, i, ParseColumn(v)[k]);
      if TrimSpace(Entries(v)[k]) != Entries(v)[k] && v.JsonArray? {
        PaddedIsMalformedIff(Entries(v)[k]);
      }
    }
  }

  /** A padded reference names an owner. */
  lemma PaddedHasOwner(declared: nat, rows: seq<Option<nat>>, columns: seq<Stored>, i: nat)
    requires Agreed(Named(declared, rows, columns)) && i < |columns| && Padded(columns[i])
    ensures Common(Named(declared, rows, columns)) != 0
  {
    var k :| 0 <= k < |columns[i].paths| && PaddedEntry(columns[i].paths[k]);
    var p := Parse(TrimSpace(columns[i].paths[k]));
    assert ParseColumn(columns[i])[k] == p;
    ParsedIsCollected(ParseColumn, columns, i, p);
    ParsedIsPrinted(TrimSpace(columns[i].paths[k]));
    CollectedOwner(ParseColumn, declared, rows, columns, p);
  }

  /** A backup whose owner was found can be given to another user exactly if no JSON array has a
      reference with white space around it. */
  lemma AcceptableIffNotPadded(declared: nat, rows: seq<Option<nat>>, columns: seq<Stored>)
    requires Collectable(declared, rows, columns)
    ensures Acceptable(declared, rows, columns) <==> forall i :: 0 <= i < |columns| ==> !Padded(columns[i])
  {
    forall i | 0 <= i < |columns|
      ensures WellFormed(columns[i]) <==> !Padded(columns[i])
      ensures Padded(columns[i]) ==> Common(Named(declared, rows, columns)) != 0
    {
      WellFormedIffNotPadded(columns, i);
      if Padded(columns[i]) {
        PaddedHasOwner(declared, rows, columns, i);
      }
    }
  }

  lemma PlainPath()
    ensures IsPortablePath("a")
  {
    SplitOfPart("a", "", '/');
    assert "a" + "" == "a" && Split("", '/') == [""];
    assert Split("a", '/') == ["a"];
    assert Find("a", '.') == 1 && "a"[..1] == "a" && TrimDotsAndBlanks("a") == "a";
    assert Upper("a") == "A";
    assert ByteLength("a") == 1 + ByteLength("a"[1..]) == 1;
  }

  lemma BlankBeforeReference()
    ensures TrimSpace(" 1/a") == "1/a" && Parse("1/a") == Reference(1, "a", false)
  {
    SolidEndsStay("1/a");
    assert TrimLeft(" 1/a") == TrimLeft("1/a") == "1/a";
    PlainPath();
    ParsePrint(1, "a", false);
    assert Digits(1) == "1" && Print(1, "a", false) == "1/a";
  }

  lemma OneEntry(text: string, p: Parsed)
    requires Parse(TrimSpace(text)) == p
    ensures AllParsed(ParseColumn, [JsonArray([text])]) == [p]
  {
    var columns := [JsonArray([text])];
    assert ParseColumn(columns[0]) == [p];
    assert columns[..0] == [];
  }

  lemma OneOwner(text: string, owner: nat)
    requires PaddedEntry(text) && Parse(TrimSpace(text)).owner == owner
    ensures Named(owner, [Some(owner)], [JsonArray([text])]) == [owner, owner, owner]
  {
    var p := Parse(TrimSpace(text));
    OneEntry(text, p);
    assert RowOwners([Some(owner)]) == [owner] && OwnersOf([p]) == [owner];
  }

  lemma OneReferenceFails(text: string, owner: nat)
    requires PaddedEntry(text) && Parse(TrimSpace(text)).owner == owner
    ensures Collectable(owner, [Some(owner)], [JsonArray([text])])
    ensures !Acceptable(owner, [Some(owner)], [JsonArray([text])])
  {
    var p := Parse(TrimSpace(text));
    var rows, columns := [Some(owner)], [JsonArray([text])];
    OneEntry(text, p);
    OneOwner(text, owner);
    assert Collectable(owner, rows, columns);
    assert columns[0].paths[0] == text && Padded(columns[0]);
    AcceptableIffNotPadded(owner, rows, columns);
  }

  /** One reference of user 1 with a blank before it: the owner is found, and the transfer fails. */
  lemma PaddedReferenceFails()
    ensures Collectable(1, [Some(1)], [JsonArray([" 1/a"])]) && !Acceptable(1, [Some(1)], [JsonArray([" 1/a"])])
  {
    BlankBeforeReference();
    OneReferenceFails(" 1/a", 1);
  }

  /** The decoded backup, as far as owners and references go. */
  class Backup {
    var source: nat
    var rows: seq<Option<nat>>  // the owner of each record; a null record has none
    var columns: seq<Stored>

    constructor (source: nat, rows: seq<Option<nat>>, columns: seq<Stored>)
      ensures this.source == source && this.rows == rows && this.columns == columns
    {
      this.source, this.rows, this.columns := source, rows, columns;
    }

    /** The first half: everyone named as an owner, and whether they agree. */
    method FindOwner() returns (ok: bool, sourceUserID: nat)
      ensures ok <==> Collectable(source, rows, columns)
      ensures ok ==> sourceUserID == Common(Named(source, rows, columns))
    {
      var rowOwners, parsed, refOwners;
      sourceUserID := source;
      ok, rowOwners := CollectRows(rows);
      if !ok {
        return;
      }
      ok, parsed := VisitColumns(ParseColumn, columns);
      if !ok {
        return;
      }
      ok, refOwners := CollectReferences(parsed);
      if !ok {
        return;
      }
      ghost var before := [source] + rowOwners;
      assert [source][..0] == [];
      ok, sourceUserID := AcceptAll(source, rowOwners, [source]);
      if !ok {
        DisagreementStays(before, refOwners);
        return;
      }
      ok, sourceUserID := AcceptAll(sourceUserID, refOwners, before);
    }

    /** `normalizeBackupForRestore`: succeeds exactly for acceptable backups, and then every
        reference, and nothing else, has moved to the target.  Padded references are what the two
        halves disagree about. */
    method Normalize(target: nat) returns (ok: bool)
      requires 0 < target <= MAX_OWNER
      modifies this
      ensures rows == old(rows)
      ensures ok <==> Acceptable(old(source), rows, old(columns))
      ensures ok <==> Collectable(old(source), rows, old(columns))
                      && forall i :: 0 <= i < |old(columns)| ==> !Padded(old(columns)[i])
      ensures ok ==> source == Common(Named(old(source), rows, old(columns)))
      ensures ok && source == 0 ==> columns == old(columns)
      ensures ok && source != 0 ==> ColumnsMoved(To(source, target), old(columns), columns)
      ensures ok ==> forall i :: 0 <= i < |columns| ==> OwnedBy(columns[i], target) && LeadsTo(columns[i], target)
      ensures !ok ==> columns == old(columns)
    {
      var sourceUserID;
      ok, sourceUserID := FindOwner();
      if !ok {
        return;
      }
      AcceptableIffNotPadded(source, rows, columns);
      forall i | 0 <= i < |columns|
        ensures Movable(To(sourceUserID, target), columns[i]) <==> WellFormed(columns[i])
      {
        ColumnMovable(source, rows, columns, i, target);
      }
      if sourceUserID == 0 {
        forall i | 0 <= i < |columns| ensures OwnedBy(columns[i], target) {
          NobodysColumn(source, rows, columns, i, target);
        }
        AllOwnedLeadTo(columns, target);
        source := 0;
        return;
      }
      source := sourceUserID;
      var moved;
      ToKeepsClean(sourceUserID, target);
      ok, moved := RemapColumns(To(sourceUserID, target), columns);
      if ok {
        forall i | 0 <= i < |moved| ensures OwnedBy(moved[i], target) {
          MovedColumnIsTargets(columns[i], moved[i], sourceUserID, target);
        }
        AllOwnedLeadTo(moved, target);
        columns := moved;
      }
    }
  }
}

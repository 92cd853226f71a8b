/** The streaming check of a whole backup document: it accepts exactly the envelopes that may be restored. */
module BackupEnvelope {
  import opened JsonTree
  import opened BackupScanner
  import opened BackupPreflight
  import opened Optional

  datatype Envelope = Envelope(version: string, attachments: Presence, credentials: bool)

  /** The envelope remembers what the special fields said. */
  ghost predicate Reflects(e: Envelope, fields: seq<Field>) {
    && e.version == VersionOf(Lookup(fields, "version"))
    && e.attachments == PresenceOf(Lookup(fields, "attachments"))
    && (e.credentials <==> CredentialsIn(Lookup(fields, "notification_settings")))
  }

  ghost predicate SeenAre(seen: set<string>, fields: seq<Field>) {
    forall n :: n in seen <==> IsKnown(n) && Lookup(fields, n).Some?
  }

  /** What is known after the fields `done` have been scanned without objection. */
  ghost predicate Scanned(done: seq<Field>, e: Envelope, seen: set<string>, total: nat) {
    FieldsOk(done) && Reflects(e, done) && SeenAre(seen, done) && total == Records(done)
  }

  lemma PrefixOk(fields: seq<Field>, k: nat)
    requires k <= |fields| && FieldsOk(fields)
    ensures FieldsOk(fields[..k])
  {
    forall name | IsKnown(name) ensures Count(fields[..k], name) <= 1 {
      Grows(fields, k, name);
    }
    Grows(fields, k, "");
  }

  lemma {:induction false} Grows(fields: seq<Field>, k: nat, name: string)
    requires k <= |fields|
    ensures Count(fields[..k], name) <= Count(fields, name) && Records(fields[..k]) <= Records(fields)
    decreases |fields|
  {
    if k < |fields| {
      Grows(fields[..|fields| - 1], k, name);
      assert fields[..|fields| - 1][..k] == fields[..k];
    } else {
      assert fields[..k] == fields;
    }
  }

  lemma OneMoreEach(fields: seq<Field>, f: Field)
    ensures EachOk(fields + [f]) <==> EachOk(fields) && !IsImpostor(f.name) && ValueOk(f)
  {
    var longer := fields + [f];
    assert EachOk(longer) ==> !IsImpostor(longer[|fields|].name) && ValueOk(longer[|fields|]);
    forall i | 0 <= i < |fields| ensures longer[i] == fields[i] {
    }
  }

  lemma OneMoreName(fields: seq<Field>, f: Field)
    requires NoneRepeated(fields)
    ensures NoneRepeated(fields + [f]) <==> (IsKnown(f.name) ==> Lookup(fields, f.name).None?)
  {
    LookupFinds(fields, f.name);
    var longer := fields + [f];
    assert longer[..|fields|] == fields;
    if NoneRepeated(longer) && IsKnown(f.name) {
      assert Count(longer, f.name) <= 1;
    }
  }

  /** One more field in good order: not an impostor, not a repetition, its value and the total in bounds. */
  lemma OneMore(fields: seq<Field>, f: Field)
    requires FieldsOk(fields)
    ensures FieldsOk(fields + [f]) <==>
              && |fields| < MAX_FIELDS && !IsImpostor(f.name) && ValueOk(f)
              && (IsKnown(f.name) ==> Lookup(fields, f.name).None?) && Records(fields) + RecordsIn(f) <= MAX_TOTAL
  {
    OneMoreEach(fields, f);
    OneMoreName(fields, f);
    assert (fields + [f])[..|fields|] == fields;
  }

  /** The value of a top-level field whose name has been read and checked. */
  method ScanMember(d: Decoder, ghost f: Field, key: string, ghost rest: seq<Token>, e: Envelope, total: nat)
    returns (ok: bool, e': Envelope, totalAfter: nat)
    requires d.Valid() && d.Rest() == Flatten(f.value) + rest && total <= MAX_TOTAL && key == f.name
    modifies d`pos
    ensures d.Valid()
    ensures ok <==> ValueOk(f) && total + RecordsIn(f) <= MAX_TOTAL
    ensures ok ==> d.Rest() == rest && totalAfter == total + RecordsIn(f)
    ensures ok ==> forall fields :: Reflects(e, fields) ==> Reflects(e', fields + [f])
  {
    e', totalAfter := e, total;
    if key == "version" {
      var started, token := d.Next();
      ok := token.TextToken? && |token.text| <= 16;
      if ok {
        e' := e.(version := token.text);
      }
    } else if key == "attachments" {
      var presence;
      ok, presence, totalAfter := ScanCollection(d, f.value, rest, Limit(key).value, total);
      e' := e.(attachments := presence);
    } else if key == "notification_settings" {
      var credentials;
      ok, credentials := ScanNotificationSettings(d, f.value, rest);
      e' := e.(credentials := credentials);
    } else if Limit(key).Some? {
      var presence;
      ok, presence, totalAfter := ScanCollection(d, f.value, rest, Limit(key).value, total);
    } else {
      ok := d.Skip(1, f.value, rest);
    }
    if ok {
      forall fields | Reflects(e, fields) ensures Reflects(e', fields + [f]) {
        assert (fields + [f])[..|fields|] == fields;
      }
    }
  }

  /** The name and value of one top-level field. */
  method ScanTopLevel(d: Decoder, ghost done: seq<Field>, ghost f: Field, ghost rest: seq<Token>,
                      e: Envelope, seen: set<string>, total: nat)
    returns (ok: bool, e': Envelope, seen': set<string>, totalAfter: nat)
    requires d.Valid() && d.Rest() == [TextToken(f.name)] + (Flatten(f.value) + rest)
    requires Scanned(done, e, seen, total) && |done| < MAX_FIELDS
    modifies d`pos
    ensures d.Valid() && (ok <==> FieldsOk(done + [f]))
    ensures ok ==> d.Rest() == rest && Scanned(done + [f], e', seen', totalAfter)
  {
    OneMore(done, f);
    e', seen', totalAfter := e, seen, total;
    var named, key := d.Next();
    var canonical, known := CanonicalField(key.text);
    if known {
      if key.text != canonical || canonical in seen {
        return false, e', seen', totalAfter;
      }
      seen' := seen + {canonical};
    }
    assert known <==> IsKnown(f.name);
    ok, e', totalAfter := ScanMember(d, f, key.text, rest, e, total);
    assert (done + [f])[..|done|] == done;
  }

  method ScanFields(d: Decoder, ghost fields: seq<Field>, ghost rest: seq<Token>)
    returns (ok: bool, e: Envelope, seen: set<string>)
    requires d.Valid() && d.Rest() == FieldsFrom(fields, 0, rest)
    modifies d`pos
    ensures d.Valid() && (ok <==> FieldsOk(fields))
    ensures ok ==> d.Rest() == [CloseBrace] + rest && Reflects(e, fields) && SeenAre(seen, fields)
  {
    e, seen := Envelope("", Missing, false), {};
    var topLevelFields, total := 0, 0;
    MoreFields(fields, 0, rest);
    var more := d.More();
    while more
      invariant d.Valid() && topLevelFields <= |fields|
      invariant d.Rest() == FieldsFrom(fields, topLevelFields, rest)
      invariant more <==> topLevelFields < |fields|
      invariant Scanned(fields[..topLevelFields], e, seen, total)
      decreases |fields| - topLevelFields
    {
      if topLevelFields + 1 > MAX_FIELDS {
        return false, e, seen;
      }
      NextField(fields, topLevelFields, rest);
      assert fields[..topLevelFields + 1] == fields[..topLevelFields] + [fields[topLevelFields]];
      ok, e, seen, total := ScanTopLevel(d, fields[..topLevelFields], fields[topLevelFields],
                                         FieldsFrom(fields, topLevelFields + 1, rest), e, seen, total);
      if !ok {
        if FieldsOk(fields) {
          PrefixOk(fields, topLevelFields + 1);
        }
        return;
      }
      topLevelFields := topLevelFields + 1;
      MoreFields(fields, topLevelFields, rest);
      more := d.More();
    }
    assert fields[..topLevelFields] == fields;
    ok := true;
  }

  method HasAll(names: seq<string>, seen: set<string>) returns (all: bool)
    ensures all <==> forall i :: 0 <= i < |names| ==> names[i] in seen
  {
    for i := 0 to |names|
      invariant forall k :: 0 <= k < i ==> names[k] in seen
    {
      if names[i] !in seen {
        return false;
      }
    }
    all := true;
  }

  lemma SeenIsRequired(seen: set<string>, fields: seq<Field>, version: string)
    requires SeenAre(seen, fields)
    ensures HasRequired(fields, version) <==>
              && (forall i :: 0 <= i < |REQUIRED| ==> REQUIRED[i] in seen)
              && (version != "2.1" ==> forall i :: 0 <= i < |REQUIRED_LATER| ==> REQUIRED_LATER[i] in seen)
  {
    KnownNames();
    forall i | 0 <= i < |REQUIRED| ensures REQUIRED[i] in seen <==> Lookup(fields, REQUIRED[i]).Some? {
    }
    forall i | 0 <= i < |REQUIRED_LATER| ensures REQUIRED_LATER[i] in seen <==> Lookup(fields, REQUIRED_LATER[i]).Some? {
    }
  }

  /** The checks after the last token. */
  method CheckEnvelope(e: Envelope, seen: set<string>, ghost fields: seq<Field>) returns (ok: bool)
    requires FieldsOk(fields) && Reflects(e, fields) && SeenAre(seen, fields)
    ensures ok <==> Accepted(Object(fields))
  {
    SeenIsRequired(seen, fields, e.version);
    if !VersionRules(e.version, e.attachments, e.credentials) {
      return false;
    }
    ok := HasAll(REQUIRED, seen);
    if ok && e.version != "2.1" {
      ok := HasAll(REQUIRED_LATER, seen);
    }
  }

  /** `preflightBackupJSON`: a document passes exactly if it is one value, followed by nothing, that
      is an acceptable envelope. */
  method Preflight(d: Decoder, ghost root: JValue, ghost trailing: seq<Token>) returns (ok: bool, e: Envelope)
    requires d.Valid() && d.Rest() == Flatten(root) + trailing
    modifies d`pos
    ensures ok <==> Accepted(root) && trailing == []
    ensures ok ==> Reflects(e, root.fields)
  {
    e := Envelope("", Missing, false);
    if root.Object? {
      WholeObject(root.fields, trailing);
    }
    var started, opening := d.Next();
    if opening != OpenBrace {
      return false, e;
    }
    var seen;
    ok, e, seen := ScanFields(d, root.fields, trailing);
    if !ok {
      return;
    }
    var ended, closing := d.Next();
    var more, token := d.Next();
    if more {
      return false, e;
    }
    ok := CheckEnvelope(e, seen, root.fields);
  }
}

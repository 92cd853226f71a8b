/** What a backup envelope must look like, and the streaming check of it before anything is decoded. */
module BackupPreflight {
  import opened JsonTree
  import opened BackupScanner
  import opened Optional

  const MAX_FIELDS := 128

  /** The known top-level fields: the JSON name and the name of the decoded struct's field. */
  const KNOWN: seq<(string, string)> := [
    ("version", "Version"), ("exported_at", "ExportedAt"), ("source_user_id", "SourceUserID"),
    ("user_profile", "UserProfile"), ("accounts", "Accounts"), ("categories", "Categories"),
    ("transactions", "Transactions"), ("budgets", "Budgets"), ("reminders", "Reminders"),
    ("lendings", "Lendings"), ("lending_records", "LendingRecords"), ("templates", "Templates"),
    ("tags", "Tags"), ("family_members", "FamilyMembers"), ("ai_reports", "AIReports"),
    ("account_logs", "AccountLogs"), ("notification_logs", "NotificationLogs"),
    ("notification_settings", "NotificationSettings"), ("attachments", "Attachments")
  ]

  const CREDENTIALS: seq<string> := [
    "wecom_webhook", "WecomWebhook", "dingtalk_webhook", "DingtalkWebhook", "dingtalk_secret", "DingtalkSecret",
    "smtp_password", "SmtpPassword", "webhook_url", "WebhookURL", "webhook_secret", "WebhookSecret"
  ]

  const REQUIRED: seq<string> := [
    "accounts", "categories", "transactions", "budgets", "reminders", "lendings", "lending_records", "templates", "tags"
  ]

  const REQUIRED_LATER: seq<string> := ["family_members", "ai_reports", "account_logs", "notification_logs"]

  /** How many records a collection may have. */
  function Limit(name: string): Option<nat> {
    if name in {"transactions", "account_logs", "notification_logs"} then Some(100_000)
    else if name == "lending_records" then Some(50_000)
    else if name in {"accounts", "categories", "budgets", "reminders", "lendings", "templates", "tags",
                     "family_members", "ai_reports", "attachments"} then Some(10_000)
    else None
  }

  // ---- field names ----

  /** Simple case folding, as far as it leads to ASCII letters: the long s and the Kelvin sign fold
      to letters of the names below. */
  function FoldChar(c: char): char {
    if 'A' <= c <= 'Z' then (c as int + 32) as char
    else if c == '\U{17F}' then 's'
    else if c == '\U{212A}' then 'k'
    else c
  }

  predicate EqualFold(s: string, t: string) {
    |s| == |t| && forall i :: 0 <= i < |s| ==> FoldChar(s[i]) == FoldChar(t[i])
  }

  predicate Names(name: string, known: (string, string)) {
    name == known.0 || EqualFold(name, known.0) || EqualFold(name, known.1)
  }

  predicate IsKnown(name: string) {
    exists i :: 0 <= i < |KNOWN| && name == KNOWN[i].0
  }

  /** A name that a case-insensitive decoder would take for a known field it is not. */
  predicate IsImpostor(name: string) {
    !IsKnown(name) && exists i :: 0 <= i < |KNOWN| && Names(name, KNOWN[i])
  }

  /** `canonicalBackupJSONField`: exact names first, then folded ones. */
  method CanonicalField(value: string) returns (canonical: string, known: bool)
    ensures known && canonical == value <==> IsKnown(value)
    ensures known && canonical != value <==> IsImpostor(value)
  {
    for i := 0 to |KNOWN|
      invariant forall k :: 0 <= k < i ==> value != KNOWN[k].0
    {
      if value == KNOWN[i].0 {
        return value, true;
      }
    }
    for i := 0 to |KNOWN|
      invariant forall k :: 0 <= k < i ==> !EqualFold(value, KNOWN[k].0)
    {
      if EqualFold(value, KNOWN[i].0) {
        assert Names(value, KNOWN[i]);
        return KNOWN[i].0, true;
      }
    }
    for i := 0 to |KNOWN|
      invariant forall k :: 0 <= k < i ==> !EqualFold(value, KNOWN[k].1)
    {
      if EqualFold(value, KNOWN[i].1) {
        assert Names(value, KNOWN[i]);
        return KNOWN[i].0, true;
      }
    }
    return "", false;
  }

  ghost predicate IsCredential(name: string) {
    exists i :: 0 <= i < |CREDENTIALS| && EqualFold(name, CREDENTIALS[i])
  }

  method IsNotificationCredentialField(value: string) returns (found: bool)
    ensures found <==> IsCredential(value)
  {
    for i := 0 to |CREDENTIALS|
      invariant forall k :: 0 <= k < i ==> !EqualFold(value, CREDENTIALS[k])
    {
      if EqualFold(value, CREDENTIALS[i]) {
        return true;
      }
    }
    found := false;
  }

  // ---- what is accepted ----

  function Count(fields: seq<Field>, name: string): nat {
    if fields == [] then 0
    else Count(fields[..|fields| - 1], name) + if fields[|fields| - 1].name == name then 1 else 0
  }

  /** How many records a field contributes to the total. */
  function RecordsIn(f: Field): nat {
    if Limit(f.name).Some? && f.value.Array? then |f.value.items| else 0
  }

  function Records(fields: seq<Field>): nat {
    if fields == [] then 0 else Records(fields[..|fields| - 1]) + RecordsIn(fields[|fields| - 1])
  }

  function Lookup(fields: seq<Field>, name: string): Option<JValue> {
    if fields == [] then None
    else if fields[|fields| - 1].name == name then Some(fields[|fields| - 1].value)
    else Lookup(fields[..|fields| - 1], name)
  }

  ghost predicate ValueOk(f: Field) {
    if f.name == "version" then f.value.Text? && |f.value.text| <= 16
    else if f.name == "notification_settings" then
      f.value.Null? || (f.value.Object? && FieldsHeight(f.value.fields) <= MAX_DEPTH)
    else if Limit(f.name).Some? then
      || f.value.Null?
      || (f.value.Array? && |f.value.items| <= Limit(f.name).value && ItemsHeight(f.value.items) <= MAX_DEPTH)
    else Height(f.value) <= MAX_DEPTH
  }

  function VersionOf(v: Option<JValue>): string {
    if v.Some? && v.value.Text? then v.value.text else ""
  }

  function PresenceOf(v: Option<JValue>): Presence {
    if v.None? then Missing else if v.value.Array? then WasArray else WasNull
  }

  ghost predicate CredentialsIn(v: Option<JValue>) {
    v.Some? && v.value.Object? && exists i :: 0 <= i < |v.value.fields| && IsCredential(v.value.fields[i].name)
  }

  predicate VersionRules(version: string, attachments: Presence, credentials: bool) {
    if version == "2.1" then attachments != WasArray
    else if version == "2.2" then attachments == WasArray
    else (version == "2.3" || version == "2.4") && attachments != Missing && !credentials
  }

  ghost predicate HasRequired(fields: seq<Field>, version: string) {
    && (forall i :: 0 <= i < |REQUIRED| ==> Lookup(fields, REQUIRED[i]).Some?)
    && (version != "2.1" ==> forall i :: 0 <= i < |REQUIRED_LATER| ==> Lookup(fields, REQUIRED_LATER[i]).Some?)
  }

  ghost predicate EachOk(fields: seq<Field>) {
    forall i :: 0 <= i < |fields| ==> !IsImpostor(fields[i].name) && ValueOk(fields[i])
  }

  ghost predicate NoneRepeated(fields: seq<Field>) {
    forall name :: IsKnown(name) ==> Count(fields, name) <= 1
  }

  /** What is required of the fields one by one and together. */
  ghost predicate FieldsOk(fields: seq<Field>) {
    |fields| <= MAX_FIELDS && EachOk(fields) && NoneRepeated(fields) && Records(fields) <= MAX_TOTAL
  }

  /** The envelopes that may be restored. */
  ghost predicate Accepted(root: JValue) {
    && root.Object? && FieldsOk(root.fields)
    && var version := VersionOf(Lookup(root.fields, "version"));
      && VersionRules(version, PresenceOf(Lookup(root.fields, "attachments")),
                      CredentialsIn(Lookup(root.fields, "notification_settings")))
      && HasRequired(root.fields, version)
  }

  // ---- order does not matter ----

  ghost predicate SameFields(a: seq<Field>, b: seq<Field>) {
    multiset(a) == multiset(b)
  }

  lemma Appended(fields: seq<Field>, f: Field, name: string)
    ensures Count(fields + [f], name) == Count(fields, name) + if f.name == name then 1 else 0
    ensures Records(fields + [f]) == Records(fields) + RecordsIn(f)
  {
    assert (fields + [f])[..|fields|] == fields;
  }

  lemma {:induction false} RemovedCount(fields: seq<Field>, name: string, k: nat)
    requires k < |fields|
    ensures var rest := fields[..k] + fields[k + 1..];
            && Count(fields, name) == Count(rest, name) + (if fields[k].name == name then 1 else 0)
            && Records(fields) == Records(rest) + RecordsIn(fields[k])
  {
    var init, last := fields[..|fields| - 1], fields[|fields| - 1];
    assert fields == init + [last];
    Appended(init, last, name);
    if k == |init| {
      assert fields[..k] + fields[k + 1..] == init;
    } else {
      RemovedCount(init, name, k);
      Appended(init[..k] + init[k + 1..], last, name);
      assert fields[..k] == init[..k] && fields[k + 1..] == init[k + 1..] + [last];
      assert fields[..k] + fields[k + 1..] == (init[..k] + init[k + 1..]) + [last];
    }
  }

  lemma RemovedMultiset(fields: seq<Field>, k: nat)
    requires k < |fields|
    ensures multiset(fields[..k] + fields[k + 1..]) == multiset(fields) - multiset{fields[k]}
  {
    assert fields == fields[..k] + [fields[k]] + fields[k + 1..];
  }

  lemma {:induction false} SameCounts(a: seq<Field>, b: seq<Field>, name: string)
    requires SameFields(a, b)
    ensures |a| == |b| && Count(a, name) == Count(b, name) && Records(a) == Records(b)
    decreases |a|
  {
    assert |a| == |multiset(a)| && |b| == |multiset(b)|;
    if a != [] {
      var last := |a| - 1;
      assert a[last] in multiset(b);
      var k :| 0 <= k < |b| && b[k] == a[last];
      RemovedCount(a, name, last);
      RemovedCount(b, name, k);
      RemovedMultiset(a, last);
      RemovedMultiset(b, k);
      assert a[..last] + a[last + 1..] == a[..last];
      SameCounts(a[..last], b[..k] + b[k + 1..], name);
    }
  }

  lemma {:induction false} LookupFinds(fields: seq<Field>, name: string)
    ensures Lookup(fields, name).Some? ==> Field(name, Lookup(fields, name).value) in fields
    ensures Lookup(fields, name).None? <==> Count(fields, name) == 0
    ensures Lookup(fields, name).None? ==> forall f :: f in fields ==> f.name != name
  {
    if fields != [] {
      assert fields == fields[..|fields| - 1] + [fields[|fields| - 1]];
      LookupFinds(fields[..|fields| - 1], name);
    }
  }

  lemma {:induction false} OnlyOneNamed(fields: seq<Field>, f: Field)
    requires f in fields && Count(fields, f.name) <= 1
    ensures Lookup(fields, f.name) == Some(f.value)
  {
    var init, last := fields[..|fields| - 1], fields[|fields| - 1];
    assert fields == init + [last];
    LookupFinds(init, f.name);
    if last.name == f.name {
      assert Count(init, f.name) == 0;
    } else {
      OnlyOneNamed(init, f);
    }
  }

  lemma SameLookup(a: seq<Field>, b: seq<Field>, name: string)
    requires SameFields(a, b) && Count(a, name) <= 1
    ensures Lookup(a, name) == Lookup(b, name)
  {
    SameCounts(a, b, name);
    LookupFinds(a, name);
    LookupFinds(b, name);
    if Lookup(a, name).Some? {
      var f := Field(name, Lookup(a, name).value);
      assert f in multiset(a);
      OnlyOneNamed(b, f);
    }
  }

  lemma KnownNames()
    ensures IsKnown("version") && IsKnown("attachments") && IsKnown("notification_settings")
    ensures forall i :: 0 <= i < |REQUIRED| ==> IsKnown(REQUIRED[i])
    ensures forall i :: 0 <= i < |REQUIRED_LATER| ==> IsKnown(REQUIRED_LATER[i])
  {
    assert KNOWN[0].0 == "version" && KNOWN[18].0 == "attachments" && KNOWN[17].0 == "notification_settings";
    forall i | 0 <= i < |REQUIRED| ensures IsKnown(REQUIRED[i]) {
      assert KNOWN[i + 4].0 == REQUIRED[i];
    }
    forall i | 0 <= i < |REQUIRED_LATER| ensures IsKnown(REQUIRED_LATER[i]) {
      assert KNOWN[i + 13].0 == REQUIRED_LATER[i];
    }
  }

  /** Whether an envelope is accepted does not depend on the order of its fields. */
  lemma AcceptedInAnyOrder(a: seq<Field>, b: seq<Field>)
    requires SameFields(a, b) && Accepted(Object(a))
    ensures Accepted(Object(b))
  {
    SameCounts(a, b, "");
    forall i | 0 <= i < |b| ensures !IsImpostor(b[i].name) && ValueOk(b[i]) {
      assert b[i] in multiset(a);
      var k :| 0 <= k < |a| && a[k] == b[i];
    }
    forall name | IsKnown(name) ensures Count(b, name) <= 1 && Lookup(a, name) == Lookup(b, name) {
      SameCounts(a, b, name);
      SameLookup(a, b, name);
    }
    KnownNames();
  }

  /** Folding leaves the name alone. */
  predicate Folded(s: string) {
    forall i :: 0 <= i < |s| ==> FoldChar(s[i]) == s[i]
  }

  lemma ShortNamesAreFolded()
    ensures Folded("version") && Folded("accounts") && Folded("budgets") && Folded("tags")
    ensures Folded("reminders") && Folded("lendings") && Folded("templates")
  {
  }

  lemma MiddleNamesAreFolded()
    ensures Folded("exported_at") && Folded("categories") && Folded("ai_reports") && Folded("attachments")
    ensures Folded("user_profile")
  {
  }

  lemma LongNamesAreFolded()
    ensures Folded("source_user_id") && Folded("transactions") && Folded("lending_records") && Folded("account_logs")
  {
  }

  lemma LongestNamesAreFolded()
    ensures Folded("family_members") && Folded("notification_logs") && Folded("notification_settings")
  {
  }

  lemma KnownAreFolded(k: nat)
    requires k < |KNOWN|
    ensures Folded(KNOWN[k].0)
  {
    ShortNamesAreFolded();
    MiddleNamesAreFolded();
    LongNamesAreFolded();
    LongestNamesAreFolded();
  }

  lemma {:induction false} TwoNamed(fields: seq<Field>, i: nat, j: nat)
    requires i < j < |fields| && fields[i].name == fields[j].name
    ensures Count(fields, fields[i].name) >= 2
  {
    var last := |fields| - 1;
    if j < last {
      TwoNamed(fields[..last], i, j);
    } else {
      assert fields[i] in fields[..last];
      LookupFinds(fields[..last], fields[i].name);
    }
  }

  /** In an accepted envelope a decoder that ignores case finds at most one field for each known
      name, so the scan and the decoder cannot look at different values. */
  lemma NoAmbiguity(fields: seq<Field>, i: nat, j: nat, k: nat)
    requires Accepted(Object(fields)) && i < |fields| && j < |fields| && k < |KNOWN|
    requires EqualFold(fields[i].name, KNOWN[k].0) && EqualFold(fields[j].name, KNOWN[k].0)
    ensures i == j && fields[i].name == KNOWN[k].0
  {
    FoldedIsExact(fields, i, k);
    FoldedIsExact(fields, j, k);
    assert IsKnown(fields[i].name) && Count(fields, fields[i].name) <= 1;
    if i < j {
      TwoNamed(fields, i, j);
    } else if j < i {
      TwoNamed(fields, j, i);
    }
  }

  lemma FoldedIsExact(fields: seq<Field>, i: nat, k: nat)
    requires Accepted(Object(fields)) && i < |fields| && k < |KNOWN|
    requires EqualFold(fields[i].name, KNOWN[k].0)
    ensures fields[i].name == KNOWN[k].0
  {
    assert Names(fields[i].name, KNOWN[k]) && !IsImpostor(fields[i].name);
    var k' :| 0 <= k' < |KNOWN| && fields[i].name == KNOWN[k'].0;
    KnownAreFolded(k);
    KnownAreFolded(k');
  }

  // ---- the streaming check ----

  /** `scanBackupCollection`. */
  method ScanCollection(d: Decoder, ghost v: JValue, ghost rest: seq<Token>, limit: nat, total: nat)
    returns (ok: bool, presence: Presence, totalAfter: nat)
    requires d.Valid() && d.Rest() == Flatten(v) + rest && total <= MAX_TOTAL
    modifies d`pos
    ensures d.Valid()
    ensures ok <==> v.Null? || (v.Array? && |v.items| <= limit && total + |v.items| <= MAX_TOTAL
                                && ItemsHeight(v.items) <= MAX_DEPTH)
    ensures ok ==> && d.Rest() == rest && presence == PresenceOf(Some(v))
                   && totalAfter == total + if v.Array? then |v.items| else 0
  {
    if v.Array? {
      WholeArray(v.items, rest);
    }
    var started, opening := d.Next();
    presence, totalAfter := WasNull, total;
    if opening == NullToken {
      return true, WasNull, total;
    }
    if opening != OpenBracket {
      return false, Missing, total;
    }
    ok, totalAfter := ScanRecords(d, v.items, rest, limit, total);
    presence := WasArray;
  }

  /** Counts the elements before each is scanned, so the limits stop the scan early. */
  method ScanRecords(d: Decoder, ghost items: seq<JValue>, ghost rest: seq<Token>, limit: nat, total: nat)
    returns (ok: bool, totalAfter: nat)
    requires d.Valid() && d.Rest() == ItemsFrom(items, 0, rest) && total <= MAX_TOTAL
    modifies d`pos
    ensures d.Valid()
    ensures ok <==> |items| <= limit && total + |items| <= MAX_TOTAL && ItemsHeight(items) <= MAX_DEPTH
    ensures ok ==> d.Rest() == rest && totalAfter == total + |items|
  {
    var count := 0;
    totalAfter := total;
    MoreItems(items, 0, rest);
    var more := d.More();
    while more
      invariant d.Valid() && count <= |items| && count <= limit && totalAfter == total + count <= MAX_TOTAL
      invariant d.Rest() == ItemsFrom(items, count, rest)
      invariant more <==> count < |items|
      invariant forall k :: 0 <= k < count ==> Height(items[k]) <= MAX_DEPTH
      decreases |items| - count
    {
      if count + 1 > limit || totalAfter + 1 > MAX_TOTAL {
        return false, totalAfter;
      }
      NextItem(items, count, rest);
      ok := d.Skip(1, items[count], ItemsFrom(items, count + 1, rest));
      if !ok {
        ItemsHeightBound(items, MAX_DEPTH);
        return;
      }
      count, totalAfter := count + 1, totalAfter + 1;
      MoreItems(items, count, rest);
      more := d.More();
    }
    ItemsHeightBound(items, MAX_DEPTH);
    var ended, closing := d.Next();
    ok := ended && closing == CloseBracket;
  }

  /** `scanBackupNotificationSettings`. */
  method ScanNotificationSettings(d: Decoder, ghost v: JValue, ghost rest: seq<Token>)
    returns (ok: bool, credentials: bool)
    requires d.Valid() && d.Rest() == Flatten(v) + rest
    modifies d`pos
    ensures d.Valid()
    ensures ok <==> v.Null? || (v.Object? && FieldsHeight(v.fields) <= MAX_DEPTH)
    ensures ok ==> d.Rest() == rest && (credentials <==> CredentialsIn(Some(v)))
  {
    if v.Object? {
      WholeObject(v.fields, rest);
    }
    var started, opening := d.Next();
    if opening == NullToken {
      return true, false;
    }
    if opening != OpenBrace {
      return false, false;
    }
    ok, credentials := ScanSettings(d, v.fields, rest);
  }

  method ScanSettings(d: Decoder, ghost fields: seq<Field>, ghost rest: seq<Token>) returns (ok: bool, credentials: bool)
    requires d.Valid() && d.Rest() == FieldsFrom(fields, 0, rest)
    modifies d`pos
    ensures d.Valid() && (ok <==> FieldsHeight(fields) <= MAX_DEPTH)
    ensures ok ==> d.Rest() == rest
    ensures ok ==> (credentials <==> exists i :: 0 <= i < |fields| && IsCredential(fields[i].name))
  {
    credentials := false;
    ghost var i := 0;
    MoreFields(fields, 0, rest);
    var more := d.More();
    while more
      invariant d.Valid() && i <= |fields|
      invariant d.Rest() == FieldsFrom(fields, i, rest)
      invariant more <==> i < |fields|
      invariant forall k :: 0 <= k < i ==> Height(fields[k].value) <= MAX_DEPTH
      invariant credentials <==> exists k :: 0 <= k < i && IsCredential(fields[k].name)
      decreases |fields| - i
    {
      NextField(fields, i, rest);
      var found;
      ok, found := ScanSetting(d, fields[i], FieldsFrom(fields, i + 1, rest));
      if !ok {
        FieldsHeightBound(fields, MAX_DEPTH);
        return;
      }
      credentials := credentials || found;
      i := i + 1;
      MoreFields(fields, i, rest);
      more := d.More();
    }
    FieldsHeightBound(fields, MAX_DEPTH);
    var ended, closing := d.Next();
    ok := ended && closing == CloseBrace;
  }

  method ScanSetting(d: Decoder, ghost f: Field, ghost rest: seq<Token>) returns (ok: bool, found: bool)
    requires d.Valid() && d.Rest() == [TextToken(f.name)] + (Flatten(f.value) + rest)
    modifies d`pos
    ensures d.Valid() && (ok <==> Height(f.value) <= MAX_DEPTH)
    ensures ok ==> d.Rest() == rest && (found <==> IsCredential(f.name))
  {
    var named, key := d.Next();
    found := IsNotificationCredentialField(key.text);
    ok := d.Skip(1, f.value, rest);
  }
}

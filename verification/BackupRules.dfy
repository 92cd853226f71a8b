/** What an accepted backup looks like, field by field and with every number and name written out. */
module BackupRules {
  import opened JsonTree
  import opened BackupScanner
  import opened BackupPreflight
  import opened Optional

  // ---- nesting ----

  /** Some chain of `n` values, each a member of the one before, begins with `v`. */
  ghost predicate Nests(v: JValue, n: nat)
    decreases n
  {
    || n <= 1
    || (v.Array? && exists i :: 0 <= i < |v.items| && Nests(v.items[i], n - 1))
    || (v.Object? && exists i :: 0 <= i < |v.fields| && Nests(v.fields[i].value, n - 1))
  }

  lemma {:induction false} HeightIsNesting(v: JValue, n: nat)
    ensures Nests(v, n) <==> n <= Height(v)
    decreases n
  {
    if n > 1 {
      if v.Array? {
        ItemsHeightBound(v.items, n - 2);
        forall i | 0 <= i < |v.items| ensures Nests(v.items[i], n - 1) <==> n - 1 <= Height(v.items[i]) {
          HeightIsNesting(v.items[i], n - 1);
        }
      } else if v.Object? {
        FieldsHeightBound(v.fields, n - 2);
        forall i | 0 <= i < |v.fields| ensures Nests(v.fields[i].value, n - 1) <==> n - 1 <= Height(v.fields[i].value) {
          HeightIsNesting(v.fields[i].value, n - 1);
        }
      }
    }
  }

  // ---- names ----

  ghost predicate KnownName(name: string) {
    || name == "version" || name == "exported_at" || name == "source_user_id" || name == "user_profile"
    || name == "accounts" || name == "categories" || name == "transactions" || name == "budgets" || name == "reminders"
    || name == "lendings" || name == "lending_records" || name == "templates" || name == "tags"
    || name == "family_members" || name == "ai_reports" || name == "account_logs" || name == "notification_logs"
    || name == "notification_settings" || name == "attachments"
  }

  /** The names of the struct's fields. */
  ghost predicate StructField(known: string, field: string) {
    || (known == "version" && field == "Version") || (known == "exported_at" && field == "ExportedAt")
    || (known == "source_user_id" && field == "SourceUserID") || (known == "user_profile" && field == "UserProfile")
    || (known == "accounts" && field == "Accounts") || (known == "categories" && field == "Categories")
    || (known == "transactions" && field == "Transactions") || (known == "budgets" && field == "Budgets")
    || (known == "reminders" && field == "Reminders") || (known == "lendings" && field == "Lendings")
    || (known == "lending_records" && field == "LendingRecords") || (known == "templates" && field == "Templates")
    || (known == "tags" && field == "Tags") || (known == "family_members" && field == "FamilyMembers")
    || (known == "ai_reports" && field == "AIReports") || (known == "account_logs" && field == "AccountLogs")
    || (known == "notification_logs" && field == "NotificationLogs") || (known == "notification_settings" && field == "NotificationSettings")
    || (known == "attachments" && field == "Attachments")
  }

  /** A decoder that ignores case takes the name for that of a known field or of its struct field. */
  ghost predicate ReadsAsKnown(name: string) {
    exists known, field :: StructField(known, field) && (EqualFold(name, known) || EqualFold(name, field))
  }

  ghost predicate CredentialName(name: string) {
    || EqualFold(name, "wecom_webhook") || EqualFold(name, "WecomWebhook") || EqualFold(name, "dingtalk_webhook")
    || EqualFold(name, "DingtalkWebhook") || EqualFold(name, "dingtalk_secret") || EqualFold(name, "DingtalkSecret")
    || EqualFold(name, "smtp_password") || EqualFold(name, "SmtpPassword") || EqualFold(name, "webhook_url")
    || EqualFold(name, "WebhookURL") || EqualFold(name, "webhook_secret") || EqualFold(name, "WebhookSecret")
  }

  /** Characters that differ only in case: ASCII letters, and with them the long s and the Kelvin sign. */
  lemma FoldMeans(a: char, b: char)
    ensures FoldChar(a) == FoldChar(b) <==>
              || a == b
              || ('A' <= a <= 'Z' && b as int == a as int + 32) || ('A' <= b <= 'Z' && a as int == b as int + 32)
              || (a in {'s', 'S', '\U{17F}'} && b in {'s', 'S', '\U{17F}'})
              || (a in {'k', 'K', '\U{212A}'} && b in {'k', 'K', '\U{212A}'})
  {
  }

  lemma KnownAt(i: nat)
    requires i < |KNOWN|
    ensures KnownName(KNOWN[i].0) && StructField(KNOWN[i].0, KNOWN[i].1)
  {
    assert |KNOWN| == 19;
    if i < 6 { KnownAtFirst(i); } else if i < 13 { KnownAtMiddle(i); } else { KnownAtLast(i); }
  }

  lemma KnownAtFirst(i: nat)
    requires i < 6
    ensures i < |KNOWN| && KnownName(KNOWN[i].0) && StructField(KNOWN[i].0, KNOWN[i].1)
  {
  }

  lemma KnownAtMiddle(i: nat)
    requires 6 <= i < 13
    ensures i < |KNOWN| && KnownName(KNOWN[i].0) && StructField(KNOWN[i].0, KNOWN[i].1)
  {
  }

  lemma KnownAtLast(i: nat)
    requires 13 <= i < 19
    ensures i < |KNOWN| && KnownName(KNOWN[i].0) && StructField(KNOWN[i].0, KNOWN[i].1)
  {
  }

  lemma FieldPosition(known: string, field: string)
    requires StructField(known, field)
    ensures KnownName(known) && exists i :: 0 <= i < |KNOWN| && KNOWN[i] == (known, field)
  {
    assert KNOWN[0] == ("version", "Version");
    assert KNOWN[1] == ("exported_at", "ExportedAt");
    assert KNOWN[2] == ("source_user_id", "SourceUserID");
    assert KNOWN[3] == ("user_profile", "UserProfile");
    assert KNOWN[4] == ("accounts", "Accounts");
    assert KNOWN[5] == ("categories", "Categories");
    assert KNOWN[6] == ("transactions", "Transactions");
    assert KNOWN[7] == ("budgets", "Budgets");
    assert KNOWN[8] == ("reminders", "Reminders");
    assert KNOWN[9] == ("lendings", "Lendings");
    assert KNOWN[10] == ("lending_records", "LendingRecords");
    assert KNOWN[11] == ("templates", "Templates");
    assert KNOWN[12] == ("tags", "Tags");
    assert KNOWN[13] == ("family_members", "FamilyMembers");
    assert KNOWN[14] == ("ai_reports", "AIReports");
    assert KNOWN[15] == ("account_logs", "AccountLogs");
    assert KNOWN[16] == ("notification_logs", "NotificationLogs");
    assert KNOWN[17] == ("notification_settings", "NotificationSettings");
    assert KNOWN[18] == ("attachments", "Attachments");
  }

  lemma KnownPosition(name: string)
    requires KnownName(name)
    ensures exists i :: 0 <= i < |KNOWN| && KNOWN[i].0 == name
  {
    assert KNOWN[0].0 == "version" && KNOWN[1].0 == "exported_at" && KNOWN[2].0 == "source_user_id";
    assert KNOWN[3].0 == "user_profile" && KNOWN[4].0 == "accounts" && KNOWN[5].0 == "categories";
    assert KNOWN[6].0 == "transactions" && KNOWN[7].0 == "budgets" && KNOWN[8].0 == "reminders";
    assert KNOWN[9].0 == "lendings" && KNOWN[10].0 == "lending_records" && KNOWN[11].0 == "templates";
    assert KNOWN[12].0 == "tags" && KNOWN[13].0 == "family_members" && KNOWN[14].0 == "ai_reports";
    assert KNOWN[15].0 == "account_logs" && KNOWN[16].0 == "notification_logs";
    assert KNOWN[17].0 == "notification_settings" && KNOWN[18].0 == "attachments";
  }

  lemma KnownIsListed(name: string)
    ensures IsKnown(name) <==> KnownName(name)
  {
    if KnownName(name) {
      KnownPosition(name);
    } else if i :| 0 <= i < |KNOWN| && name == KNOWN[i].0 {
      KnownAt(i);
    }
  }

  lemma ImpostorIsListed(name: string)
    ensures !IsImpostor(name) <==> KnownName(name) || !ReadsAsKnown(name)
  {
    KnownIsListed(name);
    if !KnownName(name) {
      if IsImpostor(name) {
        var i :| 0 <= i < |KNOWN| && Names(name, KNOWN[i]);
        KnownAt(i);
      }
      if ReadsAsKnown(name) {
        var known, field :| StructField(known, field) && (EqualFold(name, known) || EqualFold(name, field));
        FieldPosition(known, field);
        var i :| 0 <= i < |KNOWN| && KNOWN[i] == (known, field);
        assert Names(name, KNOWN[i]);
      }
    }
  }

  lemma CredentialIsListed(name: string)
    ensures IsCredential(name) <==> CredentialName(name)
  {
    if CredentialName(name) {
      assert CREDENTIALS[0] == "wecom_webhook" && CREDENTIALS[1] == "WecomWebhook" && CREDENTIALS[2] == "dingtalk_webhook";
      assert CREDENTIALS[3] == "DingtalkWebhook" && CREDENTIALS[4] == "dingtalk_secret" && CREDENTIALS[5] == "DingtalkSecret";
      assert CREDENTIALS[6] == "smtp_password" && CREDENTIALS[7] == "SmtpPassword" && CREDENTIALS[8] == "webhook_url";
      assert CREDENTIALS[9] == "WebhookURL" && CREDENTIALS[10] == "webhook_secret" && CREDENTIALS[11] == "WebhookSecret";
    }
  }

  // ---- values ----

  /** A collection of at most `limit` records, each nested at most 64 deep, or null. */
  ghost predicate CollectionOf(v: JValue, limit: nat) {
    v.Null? || (v.Array? && |v.items| <= limit && forall i :: 0 <= i < |v.items| ==> !Nests(v.items[i], 65))
  }

  ghost predicate IsLarge(name: string) {
    name == "transactions" || name == "account_logs" || name == "notification_logs"
  }

  ghost predicate IsSmall(name: string) {
    || name == "accounts" || name == "categories" || name == "budgets" || name == "reminders" || name == "lendings"
    || name == "templates" || name == "tags" || name == "family_members" || name == "ai_reports" || name == "attachments"
  }

  /** The version is a short text, the settings are an object or null, a collection has its own limit, and
      nothing is nested more than 64 deep below the field, or below a record or setting of it. */
  ghost predicate Bounded(f: Field) {
    if f.name == "version" then f.value.Text? && |f.value.text| <= 16
    else if f.name == "notification_settings" then
      f.value.Null? || (f.value.Object? && forall i :: 0 <= i < |f.value.fields| ==> !Nests(f.value.fields[i].value, 65))
    else if IsLarge(f.name) then CollectionOf(f.value, 100_000)
    else if f.name == "lending_records" then CollectionOf(f.value, 50_000)
    else if IsSmall(f.name) then CollectionOf(f.value, 10_000)
    else !Nests(f.value, 65)
  }

  lemma LimitIsWritten(name: string)
    ensures Limit(name) == if IsLarge(name) then Some(100_000) else if name == "lending_records" then Some(50_000)
                           else if IsSmall(name) then Some(10_000) else None
  {
  }

  lemma CollectionBounds(v: JValue, limit: nat)
    ensures CollectionOf(v, limit) <==> v.Null? || (v.Array? && |v.items| <= limit && ItemsHeight(v.items) <= 64)
  {
    if v.Array? {
      ItemsHeightBound(v.items, 64);
      forall i | 0 <= i < |v.items| ensures Nests(v.items[i], 65) <==> 65 <= Height(v.items[i]) {
        HeightIsNesting(v.items[i], 65);
      }
    }
  }

  lemma SettingsBounds(v: JValue)
    requires v.Object?
    ensures (forall i :: 0 <= i < |v.fields| ==> !Nests(v.fields[i].value, 65)) <==> FieldsHeight(v.fields) <= 64
  {
    FieldsHeightBound(v.fields, 64);
    forall i | 0 <= i < |v.fields| ensures Nests(v.fields[i].value, 65) <==> 65 <= Height(v.fields[i].value) {
      HeightIsNesting(v.fields[i].value, 65);
    }
  }

  lemma ValueIsBounded(f: Field)
    ensures ValueOk(f) <==> Bounded(f)
  {
    LimitIsWritten(f.name);
    CollectionBounds(f.value, 100_000);
    CollectionBounds(f.value, 50_000);
    CollectionBounds(f.value, 10_000);
    HeightIsNesting(f.value, 65);
    if f.value.Object? {
      SettingsBounds(f.value);
    }
  }

  // ---- the fields together ----

  function RecordsOf(f: Field): nat
  {
    if f.value.Array? && f.name in {"transactions", "account_logs", "notification_logs", "lending_records", "accounts",
                                    "categories", "budgets", "reminders", "lendings", "templates", "tags",
                                    "family_members", "ai_reports", "attachments"}
    then |f.value.items| else 0
  }

  function TotalRecords(fields: seq<Field>): nat {
    if fields == [] then 0 else RecordsOf(fields[0]) + TotalRecords(fields[1..])
  }

  lemma {:induction false} TotalAppended(fields: seq<Field>, f: Field)
    ensures TotalRecords(fields + [f]) == TotalRecords(fields) + RecordsOf(f)
  {
    if fields == [] {
      assert fields + [f] == [f];
    } else {
      assert (fields + [f])[1..] == fields[1..] + [f];
      TotalAppended(fields[1..], f);
    }
  }

  lemma {:induction false} RecordsIsTotal(fields: seq<Field>)
    ensures Records(fields) == TotalRecords(fields)
  {
    if fields != [] {
      var init, last := fields[..|fields| - 1], fields[|fields| - 1];
      assert fields == init + [last];
      RecordsIsTotal(init);
      TotalAppended(init, last);
      LimitIsWritten(last.name);
    }
  }

  ghost predicate KnownOnce(fields: seq<Field>) {
    forall i, j :: 0 <= i < j < |fields| && KnownName(fields[i].name) ==> fields[i].name != fields[j].name
  }

  lemma {:induction false} CountedTwice(fields: seq<Field>, name: string)
    requires Count(fields, name) >= 2
    ensures exists i, j :: 0 <= i < j < |fields| && fields[i].name == name && fields[j].name == name
  {
    var n := |fields| - 1;
    var init := fields[..n];
    assert fields == init + [fields[n]];
    if fields[n].name == name {
      LookupFinds(init, name);
      var f := Field(name, Lookup(init, name).value);
      var i :| 0 <= i < n && init[i] == f;
      assert fields[i].name == name;
    } else {
      CountedTwice(init, name);
      var i, j :| 0 <= i < j < n && init[i].name == name && init[j].name == name;
      assert fields[i].name == name && fields[j].name == name;
    }
  }

  lemma NoneRepeatedIsOnce(fields: seq<Field>)
    ensures NoneRepeated(fields) <==> KnownOnce(fields)
  {
    if NoneRepeated(fields) {
      forall i, j | 0 <= i < j < |fields| && KnownName(fields[i].name) ensures fields[i].name != fields[j].name {
        KnownIsListed(fields[i].name);
        if fields[i].name == fields[j].name {
          TwoNamed(fields, i, j);
        }
      }
    } else {
      var name :| IsKnown(name) && Count(fields, name) > 1;
      KnownIsListed(name);
      CountedTwice(fields, name);
    }
  }

  /** What is required of every field. */
  ghost predicate Fine(f: Field) {
    (KnownName(f.name) || !ReadsAsKnown(f.name)) && Bounded(f)
  }

  lemma EachMeans(fields: seq<Field>)
    ensures EachOk(fields) <==> forall i :: 0 <= i < |fields| ==> Fine(fields[i])
  {
    forall i | 0 <= i < |fields| ensures !IsImpostor(fields[i].name) && ValueOk(fields[i]) <==> Fine(fields[i]) {
      ImpostorIsListed(fields[i].name);
      ValueIsBounded(fields[i]);
    }
  }

  lemma FieldsMean(fields: seq<Field>)
    ensures FieldsOk(fields) <==>
              && |fields| <= 128 && KnownOnce(fields) && TotalRecords(fields) <= 100_000
              && forall i :: 0 <= i < |fields| ==> Fine(fields[i])
  {
    NoneRepeatedIsOnce(fields);
    RecordsIsTotal(fields);
    EachMeans(fields);
  }

  // ---- the rules of the versions ----

  ghost predicate Has(fields: seq<Field>, name: string) {
    exists i :: 0 <= i < |fields| && fields[i].name == name
  }

  ghost predicate HasArray(fields: seq<Field>, name: string) {
    exists i :: 0 <= i < |fields| && fields[i].name == name && fields[i].value.Array?
  }

  ghost predicate TellsCredentials(fields: seq<Field>) {
    exists i, k :: 0 <= i < |fields| && fields[i].name == "notification_settings" && fields[i].value.Object?
                   && 0 <= k < |fields[i].value.fields| && CredentialName(fields[i].value.fields[k].name)
  }

  ghost predicate HasOriginalCollections(fields: seq<Field>) {
    && Has(fields, "accounts") && Has(fields, "categories") && Has(fields, "transactions") && Has(fields, "budgets")
    && Has(fields, "reminders") && Has(fields, "lendings") && Has(fields, "lending_records") && Has(fields, "templates")
    && Has(fields, "tags")
  }

  ghost predicate HasLaterCollections(fields: seq<Field>) {
    && Has(fields, "family_members") && Has(fields, "ai_reports") && Has(fields, "account_logs") && Has(fields, "notification_logs")
  }

  ghost predicate IsVersion(fields: seq<Field>, version: string) {
    exists i :: 0 <= i < |fields| && fields[i] == Field("version", Text(version))
  }

  /** Version 2.1 has no list of attachments; 2.2 has one; from 2.3 on there is one or an explicit null,
      and no credential.  All but 2.1 need the four collections that were added later. */
  ghost predicate RulesHold(fields: seq<Field>) {
    && HasOriginalCollections(fields)
    && (|| (IsVersion(fields, "2.1") && !HasArray(fields, "attachments"))
        || (IsVersion(fields, "2.2") && HasArray(fields, "attachments") && HasLaterCollections(fields))
        || ((IsVersion(fields, "2.3") || IsVersion(fields, "2.4"))
            && Has(fields, "attachments") && !TellsCredentials(fields) && HasLaterCollections(fields)))
  }

  lemma LookupHas(fields: seq<Field>, name: string)
    requires Count(fields, name) <= 1
    ensures Has(fields, name) <==> Lookup(fields, name).Some?
    ensures forall i :: 0 <= i < |fields| && fields[i].name == name ==> Lookup(fields, name) == Some(fields[i].value)
  {
    LookupFinds(fields, name);
    forall i | 0 <= i < |fields| && fields[i].name == name ensures Lookup(fields, name) == Some(fields[i].value) {
      assert fields[i] in fields;
      OnlyOneNamed(fields, fields[i]);
    }
  }

  lemma KnownLookupHas(fields: seq<Field>, name: string)
    requires NoneRepeated(fields) && KnownName(name)
    ensures Has(fields, name) <==> Lookup(fields, name).Some?
    ensures forall i :: 0 <= i < |fields| && fields[i].name == name ==> Lookup(fields, name) == Some(fields[i].value)
  {
    KnownIsListed(name);
    LookupHas(fields, name);
  }

  lemma RequiredIsListed(fields: seq<Field>, version: string)
    requires NoneRepeated(fields)
    ensures HasRequired(fields, version) <==> HasOriginalCollections(fields) && (version == "2.1" || HasLaterCollections(fields))
  {
    OriginalIsListed(fields);
    LaterIsListed(fields);
  }

  lemma OriginalIsListed(fields: seq<Field>)
    requires NoneRepeated(fields)
    ensures (forall i :: 0 <= i < |REQUIRED| ==> Lookup(fields, REQUIRED[i]).Some?) <==> HasOriginalCollections(fields)
  {
    assert REQUIRED[0] == "accounts" && REQUIRED[1] == "categories" && REQUIRED[2] == "transactions";
    assert REQUIRED[3] == "budgets" && REQUIRED[4] == "reminders" && REQUIRED[5] == "lendings";
    assert REQUIRED[6] == "lending_records" && REQUIRED[7] == "templates" && REQUIRED[8] == "tags" && |REQUIRED| == 9;
    forall i | 0 <= i < |REQUIRED| ensures Has(fields, REQUIRED[i]) <==> Lookup(fields, REQUIRED[i]).Some? {
      KnownLookupHas(fields, REQUIRED[i]);
    }
  }

  lemma LaterIsListed(fields: seq<Field>)
    requires NoneRepeated(fields)
    ensures (forall i :: 0 <= i < |REQUIRED_LATER| ==> Lookup(fields, REQUIRED_LATER[i]).Some?) <==> HasLaterCollections(fields)
  {
    assert REQUIRED_LATER[0] == "family_members" && REQUIRED_LATER[1] == "ai_reports";
    assert REQUIRED_LATER[2] == "account_logs" && REQUIRED_LATER[3] == "notification_logs" && |REQUIRED_LATER| == 4;
    forall i | 0 <= i < |REQUIRED_LATER| ensures Has(fields, REQUIRED_LATER[i]) <==> Lookup(fields, REQUIRED_LATER[i]).Some? {
      KnownLookupHas(fields, REQUIRED_LATER[i]);
    }
  }

  lemma VersionIsTold(fields: seq<Field>, version: string)
    requires NoneRepeated(fields) && version != ""
    ensures VersionOf(Lookup(fields, "version")) == version <==> IsVersion(fields, version)
  {
    KnownLookupHas(fields, "version");
  }

  lemma AttachmentsAreTold(fields: seq<Field>)
    requires NoneRepeated(fields)
    ensures PresenceOf(Lookup(fields, "attachments")) == WasArray <==> HasArray(fields, "attachments")
    ensures PresenceOf(Lookup(fields, "attachments")) != Missing <==> Has(fields, "attachments")
  {
    KnownLookupHas(fields, "attachments");
  }

  lemma CredentialsAreTold(fields: seq<Field>)
    requires NoneRepeated(fields)
    ensures CredentialsIn(Lookup(fields, "notification_settings")) <==> TellsCredentials(fields)
  {
    KnownLookupHas(fields, "notification_settings");
    var v := Lookup(fields, "notification_settings");
    if v.Some? && v.value.Object? {
      forall k | 0 <= k < |v.value.fields| ensures IsCredential(v.value.fields[k].name) <==> CredentialName(v.value.fields[k].name) {
        CredentialIsListed(v.value.fields[k].name);
      }
    }
  }

  /** The backups that may be restored, with every limit, name and rule written out. */
  lemma AcceptedMeans(fields: seq<Field>)
    ensures Accepted(Object(fields)) <==>
              && |fields| <= 128 && KnownOnce(fields) && TotalRecords(fields) <= 100_000
              && (forall i :: 0 <= i < |fields| ==> Fine(fields[i])) && RulesHold(fields)
  {
    FieldsMean(fields);
    if FieldsOk(fields) {
      OkHasRules(fields);
    }
  }

  lemma OkHasRules(fields: seq<Field>)
    requires FieldsOk(fields)
    ensures Accepted(Object(fields)) <==> RulesHold(fields)
  {
    RulesAreRules(fields);
  }

  lemma RulesAreRules(fields: seq<Field>)
    requires NoneRepeated(fields)
    ensures RulesHold(fields) <==>
              var version := VersionOf(Lookup(fields, "version"));
              && VersionRules(version, PresenceOf(Lookup(fields, "attachments")), CredentialsIn(Lookup(fields, "notification_settings")))
              && HasRequired(fields, version)
  {
    VersionIsTold(fields, "2.1");
    VersionIsTold(fields, "2.2");
    VersionIsTold(fields, "2.3");
    VersionIsTold(fields, "2.4");
    AttachmentsAreTold(fields);
    CredentialsAreTold(fields);
    RequiredIsListed(fields, VersionOf(Lookup(fields, "version")));
  }
}

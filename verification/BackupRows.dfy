/** Creating a backup of a user's rows and restoring it, with the schema's defaults in the way. */
module BackupRows {
  import opened Optional
  import opened BackupFormat

  type Table<B> = map<Id, Row<B>>

  /** The tables; a table is keyed by the rows' ids, across all users. */
  datatype Db = Db(
    accounts: Table<Plain>, categories: Table<Plain>, members: Table<Member>, transactions: Table<Transaction>,
    budgets: Table<Budget>, reminders: Table<Reminder>, lendings: Table<Lending>, records: Table<Record>,
    reports: Table<Report>)

  /** Rows in the order in which a query returned them or a backup lists them. */
  datatype Rows = Rows(
    accounts: seq<Row<Plain>>, categories: seq<Row<Plain>>, members: seq<Row<Member>>,
    transactions: seq<Row<Transaction>>, budgets: seq<Row<Budget>>, reminders: seq<Row<Reminder>>,
    lendings: seq<Row<Lending>>, records: seq<Row<Record>>, reports: seq<Row<Report>>)

  // ---- one table ----

  ghost predicate Keyed<B>(t: Table<B>) {
    forall id :: id in t ==> t[id].id == id
  }

  ghost predicate DistinctIds<B>(rows: seq<Row<B>>) {
    forall i, j :: 0 <= i < j < |rows| ==> rows[i].id != rows[j].id
  }

  /** `rows` are the user's rows of the table, tombstones included, each once. */
  ghost predicate Lists<B>(t: Table<B>, u: UserId, rows: seq<Row<B>>) {
    && DistinctIds(rows)
    && (forall i :: 0 <= i < |rows| ==> rows[i].id in t && t[rows[i].id] == rows[i] && rows[i].user == u)
    && (forall id :: id in t && t[id].user == u ==> t[id] in rows)
  }

  /** The rows of everyone else. */
  function Others<B>(t: Table<B>, u: UserId): Table<B> {
    map id | id in t && t[id].user != u :: t[id]
  }

  method SelectRows<B>(t: Table<B>, u: UserId) returns (rows: seq<Row<B>>)
    requires Keyed(t)
    ensures Lists(t, u, rows)
  {
    rows := [];
    var rest := t.Keys;
    while rest != {}
      invariant rest <= t.Keys && DistinctIds(rows)
      invariant forall i :: 0 <= i < |rows| ==> rows[i].id in t && rows[i].id !in rest && t[rows[i].id] == rows[i] && rows[i].user == u
      invariant forall id :: id in t && id !in rest && t[id].user == u ==> t[id] in rows
    {
      var id :| id in rest;
      if t[id].user == u {
        rows := rows + [t[id]];
      }
      rest := rest - {id};
    }
  }

  /** The table after inserting each row, owned by `u` and stored as `stored` says. */
  ghost predicate Inserted<B(!new)>(t: Table<B>, rows: seq<Row<B>>, u: UserId, stored: B -> B, t': Table<B>) {
    && (forall id :: id in t' <==> id in t || exists i :: 0 <= i < |rows| && rows[i].id == id)
    && (forall id :: id in t ==> id in t' && t'[id] == t[id])
    && (forall i :: 0 <= i < |rows| ==> rows[i].id in t' && t'[rows[i].id] == Row(rows[i].id, u, rows[i].deletedAt, stored(rows[i].body)))
  }

  /** No two rows have one id, and none has the id of a row that stays. */
  ghost predicate CanInsert<B>(t: Table<B>, rows: seq<Row<B>>) {
    DistinctIds(rows) && forall i :: 0 <= i < |rows| ==> rows[i].id !in t
  }

  function Insert<B>(t: Table<B>, rows: seq<Row<B>>, u: UserId, stored: B -> B): Table<B> {
    if rows == [] then t
    else
      var row := rows[|rows| - 1];
      Insert(t, rows[..|rows| - 1], u, stored)[row.id := Row(row.id, u, row.deletedAt, stored(row.body))]
  }

  lemma {:induction false} InsertKeys<B>(t: Table<B>, rows: seq<Row<B>>, u: UserId, stored: B -> B, id: Id)
    ensures id in Insert(t, rows, u, stored) <==> id in t || exists i :: 0 <= i < |rows| && rows[i].id == id
  {
    if rows != [] {
      var init := rows[..|rows| - 1];
      InsertKeys(t, init, u, stored, id);
      if i :| 0 <= i < |rows| && rows[i].id == id {
        assert i < |init| ==> init[i].id == id;
      }
    }
  }

  lemma {:induction false} InsertIsInserted<B(!new)>(t: Table<B>, rows: seq<Row<B>>, u: UserId, stored: B -> B)
    requires CanInsert(t, rows)
    ensures Inserted(t, rows, u, stored, Insert(t, rows, u, stored))
  {
    forall id ensures id in Insert(t, rows, u, stored) <==> id in t || exists i :: 0 <= i < |rows| && rows[i].id == id {
      InsertKeys(t, rows, u, stored, id);
    }
    if rows != [] {
      var init := rows[..|rows| - 1];
      assert forall i :: 0 <= i < |init| ==> init[i] == rows[i];
      InsertIsInserted(t, init, u, stored);
    }
  }

  /** Clears the user's rows and inserts the backup's: fails exactly if a primary key is taken. */
  method RestoreTable<B(!new)>(t: Table<B>, u: UserId, rows: seq<Row<B>>, stored: B -> B) returns (ok: bool, t': Table<B>)
    ensures ok <==> CanInsert(Others(t, u), rows)
    ensures ok ==> Inserted(Others(t, u), rows, u, stored, t')
  {
    ghost var others := Others(t, u);
    t' := Others(t, u);
    for i := 0 to |rows|
      invariant forall j, k :: 0 <= j < k < i ==> rows[j].id != rows[k].id
      invariant forall j :: 0 <= j < i ==> rows[j].id !in others
      invariant t' == Insert(others, rows[..i], u, stored)
    {
      var row := rows[i];
      InsertKeys(others, rows[..i], u, stored, row.id);
      if row.id in t' {
        return false, t';
      }
      forall j | 0 <= j < i ensures rows[j].id != row.id {
        assert rows[..i][j] == rows[j];
      }
      assert rows[..i + 1][..i] == rows[..i];
      t' := t'[row.id := Row(row.id, u, row.deletedAt, stored(row.body))];
    }
    assert rows[..|rows|] == rows;
    InsertIsInserted(others, rows, u, stored);
    ok := true;
  }

  // ---- what is stored for a row of the backup ----

  function Copied<B>(b: B): B { b }

  /** An insert replaces zero values of columns that have a default. */
  function InsertMember(m: Member): Member { m.(enabled := true) }

  function InsertTransaction(t: Transaction): Transaction { if t.source == "" then t.(source := "manual") else t }

  function InsertBudget(b: Budget): Budget {
    b.(period := if b.period == "" then "monthly" else b.period,
       alertThreshold := if b.alertThreshold == 0 then 80 else b.alertThreshold, active := true)
  }

  function InsertReminder(r: Reminder): Reminder {
    r.(loanType := if r.loanType == "" then "other" else r.loanType,
       advanceDays := if r.advanceDays == 0 then 3 else r.advanceDays, enabled := true)
  }

  function InsertReport(r: Report): Report { if r.status == "" then r.(status := "pending") else r }

  /** Some columns are then written again with the values of the backup. */
  function StoredMember(m: Member): Member { InsertMember(m).(enabled := m.enabled) }

  function StoredBudget(b: Budget): Budget {
    InsertBudget(b).(active := b.active, alertThreshold := b.alertThreshold, period := b.period)
  }

  function StoredReminder(r: Reminder): Reminder {
    InsertReminder(r).(enabled := r.enabled, advanceDays := r.advanceDays, loanType := r.loanType)
  }

  /** The second write undoes every substitution: switches that are off, empty names and zero days
      are stored as they are; transactions and reports have no second write. */
  lemma SecondWriteRestores()
    ensures forall m :: StoredMember(m) == m
    ensures forall b :: StoredBudget(b) == b
    ensures forall r :: StoredReminder(r) == r
    ensures forall t :: InsertTransaction(t) == t <==> t.source != ""
    ensures forall r :: InsertReport(r) == r <==> r.status != ""
  {
    forall t ensures InsertTransaction(t) == t <==> t.source != "" {
      if t.source == "" {
        assert InsertTransaction(t).source == "manual";
      }
    }
    forall r ensures InsertReport(r) == r <==> r.status != "" {
      if r.status == "" {
        assert InsertReport(r).status == "pending";
      }
    }
  }

  // ---- the whole backup ----

  datatype Backup = Backup(
    accounts: seq<Wire<Plain>>, categories: seq<Wire<Plain>>, members: seq<Wire<Member>>,
    transactions: seq<Wire<WireTransaction>>, budgets: seq<Wire<Budget>>, reminders: seq<Wire<Reminder>>,
    lendings: seq<Wire<Lending>>, records: seq<Wire<Record>>, reports: seq<Wire<WireReport>>)

  ghost predicate Complete<W>(wires: seq<Wire<W>>) {
    forall i :: 0 <= i < |wires| ==> wires[i].tombstone.Present?
  }

  ghost predicate AllComplete(b: Backup) {
    && Complete(b.accounts) && Complete(b.categories) && Complete(b.members) && Complete(b.transactions)
    && Complete(b.budgets) && Complete(b.reminders) && Complete(b.lendings) && Complete(b.records) && Complete(b.reports)
  }

  ghost predicate DecodedAs<B, W>(wires: seq<Wire<W>>, rows: seq<Row<B>>, body: W -> B) {
    Complete(wires) && |rows| == |wires| && forall i :: 0 <= i < |rows| ==> rows[i] == Decode(wires[i], body)
  }

  ghost predicate Decoded(b: Backup, r: Rows) {
    && DecodedAs(b.accounts, r.accounts, Copied) && DecodedAs(b.categories, r.categories, Copied)
    && DecodedAs(b.members, r.members, Copied) && DecodedAs(b.transactions, r.transactions, DecodeTransaction)
    && DecodedAs(b.budgets, r.budgets, Copied) && DecodedAs(b.reminders, r.reminders, Copied)
    && DecodedAs(b.lendings, r.lendings, Copied) && DecodedAs(b.records, r.records, Copied)
    && DecodedAs(b.reports, r.reports, DecodeReport)
  }

  ghost predicate EncodedAs<B, W>(rows: seq<Row<B>>, wires: seq<Wire<W>>, body: B -> W) {
    |wires| == |rows| && forall i :: 0 <= i < |rows| ==> wires[i] == Encode(rows[i], body)
  }

  ghost predicate Encoded(r: Rows, b: Backup) {
    && EncodedAs(r.accounts, b.accounts, Copied) && EncodedAs(r.categories, b.categories, Copied)
    && EncodedAs(r.members, b.members, Copied) && EncodedAs(r.transactions, b.transactions, EncodeTransaction)
    && EncodedAs(r.budgets, b.budgets, Copied) && EncodedAs(r.reminders, b.reminders, Copied)
    && EncodedAs(r.lendings, b.lendings, Copied) && EncodedAs(r.records, b.records, Copied)
    && EncodedAs(r.reports, b.reports, EncodeReport)
  }

  ghost predicate DbKeyed(db: Db) {
    && Keyed(db.accounts) && Keyed(db.categories) && Keyed(db.members) && Keyed(db.transactions) && Keyed(db.budgets)
    && Keyed(db.reminders) && Keyed(db.lendings) && Keyed(db.records) && Keyed(db.reports)
  }

  ghost predicate AllListed(db: Db, u: UserId, r: Rows) {
    && Lists(db.accounts, u, r.accounts) && Lists(db.categories, u, r.categories) && Lists(db.members, u, r.members)
    && Lists(db.transactions, u, r.transactions) && Lists(db.budgets, u, r.budgets)
    && Lists(db.reminders, u, r.reminders) && Lists(db.lendings, u, r.lendings) && Lists(db.records, u, r.records)
    && Lists(db.reports, u, r.reports)
  }

  /** `createBackupSnapshot` and the encoder. */
  method CreateBackup(db: Db, u: UserId) returns (b: Backup, rows: Rows)
    requires DbKeyed(db)
    ensures AllListed(db, u, rows) && Encoded(rows, b)
  {
    var accounts := SelectRows(db.accounts, u);
    var categories := SelectRows(db.categories, u);
    var transactions := SelectRows(db.transactions, u);
    var budgets := SelectRows(db.budgets, u);
    var reminders := SelectRows(db.reminders, u);
    var lendings := SelectRows(db.lendings, u);
    var records := SelectRows(db.records, u);
    var members := SelectRows(db.members, u);
    var reports := SelectRows(db.reports, u);
    rows := Rows(accounts, categories, members, transactions, budgets, reminders, lendings, records, reports);
    var a := EncodeAll(accounts, Copied);
    var c := EncodeAll(categories, Copied);
    var t := EncodeAll(transactions, EncodeTransaction);
    var bu := EncodeAll(budgets, Copied);
    var re := EncodeAll(reminders, Copied);
    var l := EncodeAll(lendings, Copied);
    var lr := EncodeAll(records, Copied);
    var m := EncodeAll(members, Copied);
    var ai := EncodeAll(reports, EncodeReport);
    b := Backup(a, c, m, t, bu, re, l, lr, ai);
  }

  method DecodeBackup(b: Backup) returns (ok: bool, r: Rows)
    ensures ok <==> AllComplete(b)
    ensures ok ==> Decoded(b, r)
  {
    r := Rows([], [], [], [], [], [], [], [], []);
    var a, c, m, t, bu, re, l, lr, ai;
    ok, a := DecodeAll(b.accounts, Copied);
    if !ok { return; }
    ok, c := DecodeAll(b.categories, Copied);
    if !ok { return; }
    ok, t := DecodeAll(b.transactions, DecodeTransaction);
    if !ok { return; }
    ok, bu := DecodeAll(b.budgets, Copied);
    if !ok { return; }
    ok, re := DecodeAll(b.reminders, Copied);
    if !ok { return; }
    ok, l := DecodeAll(b.lendings, Copied);
    if !ok { return; }
    ok, lr := DecodeAll(b.records, Copied);
    if !ok { return; }
    ok, m := DecodeAll(b.members, Copied);
    if !ok { return; }
    ok, ai := DecodeAll(b.reports, DecodeReport);
    r := Rows(a, c, m, t, bu, re, l, lr, ai);
  }

  ghost predicate AllInsertable(db: Db, u: UserId, r: Rows) {
    && CanInsert(Others(db.accounts, u), r.accounts) && CanInsert(Others(db.categories, u), r.categories)
    && CanInsert(Others(db.members, u), r.members) && CanInsert(Others(db.transactions, u), r.transactions)
    && CanInsert(Others(db.budgets, u), r.budgets) && CanInsert(Others(db.reminders, u), r.reminders)
    && CanInsert(Others(db.lendings, u), r.lendings) && CanInsert(Others(db.records, u), r.records)
    && CanInsert(Others(db.reports, u), r.reports)
  }

  /** The database after the restore: other users' rows, and the backup's as `u`'s. */
  ghost predicate Restored(db: Db, u: UserId, r: Rows, db': Db) {
    && Inserted(Others(db.accounts, u), r.accounts, u, Copied, db'.accounts)
    && Inserted(Others(db.categories, u), r.categories, u, Copied, db'.categories)
    && Inserted(Others(db.members, u), r.members, u, StoredMember, db'.members)
    && Inserted(Others(db.transactions, u), r.transactions, u, InsertTransaction, db'.transactions)
    && Inserted(Others(db.budgets, u), r.budgets, u, StoredBudget, db'.budgets)
    && Inserted(Others(db.reminders, u), r.reminders, u, StoredReminder, db'.reminders)
    && Inserted(Others(db.lendings, u), r.lendings, u, Copied, db'.lendings)
    && Inserted(Others(db.records, u), r.records, u, Copied, db'.records)
    && Inserted(Others(db.reports, u), r.reports, u, InsertReport, db'.reports)
  }

  /** The row part of the restore's database transaction: all tables, or none. */
  method RestoreRows(db: Db, u: UserId, r: Rows) returns (ok: bool, db': Db)
    ensures ok <==> AllInsertable(db, u, r)
    ensures ok ==> Restored(db, u, r, db')
    ensures !ok ==> db' == db
  {
    db' := db;
    var a, c, m, t, bu, re, l, lr, ai;
    ok, a := RestoreTable(db.accounts, u, r.accounts, Copied);
    if !ok { return; }
    ok, c := RestoreTable(db.categories, u, r.categories, Copied);
    if !ok { return; }
    ok, m := RestoreTable(db.members, u, r.members, StoredMember);
    if !ok { return; }
    ok, t := RestoreTable(db.transactions, u, r.transactions, InsertTransaction);
    if !ok { return; }
    ok, bu := RestoreTable(db.budgets, u, r.budgets, StoredBudget);
    if !ok { return; }
    ok, re := RestoreTable(db.reminders, u, r.reminders, StoredReminder);
    if !ok { return; }
    ok, l := RestoreTable(db.lendings, u, r.lendings, Copied);
    if !ok { return; }
    ok, lr := RestoreTable(db.records, u, r.records, Copied);
    if !ok { return; }
    ok, ai := RestoreTable(db.reports, u, r.reports, InsertReport);
    if !ok { return; }
    db' := Db(a, c, m, t, bu, re, l, lr, ai);
  }

  // ---- backup, then restore ----

  /** The table with `f` applied to the user's rows. */
  function Mapped<B>(t: Table<B>, u: UserId, f: B -> B): Table<B> {
    map id | id in t :: if t[id].user == u then t[id].(body := f(t[id].body)) else t[id]
  }

  /** The rows as they come out of the decoder. */
  ghost predicate CameBack<B, W>(rows: seq<Row<B>>, back: seq<Row<B>>, u: UserId, enc: B -> W, dec: W -> B) {
    |back| == |rows| && forall i :: 0 <= i < |rows| ==> back[i] == Row(rows[i].id, u, rows[i].deletedAt, dec(enc(rows[i].body)))
  }

  lemma SameIds<B(!new)>(t: Table<B>, u: UserId, rows: seq<Row<B>>, back: seq<Row<B>>, stored: B -> B, t': Table<B>, id: Id)
    requires Keyed(t) && Lists(t, u, rows) && Inserted(Others(t, u), back, u, stored, t')
    requires |back| == |rows| && forall i :: 0 <= i < |rows| ==> back[i].id == rows[i].id
    ensures id in t' <==> id in t
  {
    if id in t && t[id].user == u {
      var i :| 0 <= i < |rows| && rows[i] == t[id];
      assert t[rows[i].id] == t[id] && back[i].id == rows[i].id;
    }
  }

  lemma RowCameBack<B(!new), W>(t: Table<B>, u: UserId, rows: seq<Row<B>>, back: seq<Row<B>>,
                                enc: B -> W, dec: W -> B, stored: B -> B, t': Table<B>, id: Id)
    requires Keyed(t) && Lists(t, u, rows) && CameBack(rows, back, u, enc, dec) && Inserted(Others(t, u), back, u, stored, t')
    requires id in t
    ensures id in t'
    ensures t'[id] == if t[id].user == u then t[id].(body := stored(dec(enc(t[id].body)))) else t[id]
  {
    if t[id].user == u {
      var i :| 0 <= i < |rows| && rows[i] == t[id];
      assert back[i].id == id;
    } else {
      assert id in Others(t, u);
    }
  }

  lemma RowsCameBack<B, W>(u: UserId, rows: seq<Row<B>>, wires: seq<Wire<W>>, back: seq<Row<B>>, enc: B -> W, dec: W -> B)
    requires (forall i :: 0 <= i < |rows| ==> rows[i].user == u)
    requires EncodedAs(rows, wires, enc) && DecodedAs(wires, back, dec)
    ensures CameBack(rows, back, u, enc, dec)
  {
  }

  /** One table: whatever the order in which the rows were selected, they can be inserted again, and
      each comes back as encoding, decoding and storing make it; nothing else changes. */
  lemma TableRoundTrip<B(!new), W>(t: Table<B>, u: UserId, rows: seq<Row<B>>, wires: seq<Wire<W>>, back: seq<Row<B>>,
                                   enc: B -> W, dec: W -> B, stored: B -> B, f: B -> B, t': Table<B>)
    requires Keyed(t) && Lists(t, u, rows) && EncodedAs(rows, wires, enc) && DecodedAs(wires, back, dec)
    requires forall b :: stored(dec(enc(b))) == f(b)
    requires Inserted(Others(t, u), back, u, stored, t')
    ensures t' == Mapped(t, u, f)
  {
    RowsCameBack(u, rows, wires, back, enc, dec);
    TableCameBack(t, u, rows, back, enc, dec, stored, f, t');
  }

  lemma TableCameBack<B(!new), W>(t: Table<B>, u: UserId, rows: seq<Row<B>>, back: seq<Row<B>>,
                                  enc: B -> W, dec: W -> B, stored: B -> B, f: B -> B, t': Table<B>)
    requires Keyed(t) && Lists(t, u, rows) && CameBack(rows, back, u, enc, dec)
    requires forall b :: stored(dec(enc(b))) == f(b)
    requires Inserted(Others(t, u), back, u, stored, t')
    ensures t' == Mapped(t, u, f)
  {
    assert |back| == |rows| && forall i :: 0 <= i < |rows| ==> back[i].id == rows[i].id;
    forall id ensures id in t' <==> id in Mapped(t, u, f) {
      SameIds(t, u, rows, back, stored, t', id);
    }
    forall id | id in Mapped(t, u, f) ensures t'[id] == Mapped(t, u, f)[id] {
      RowCameBack(t, u, rows, back, enc, dec, stored, t', id);
    }
  }

  lemma TableFits<B, W>(t: Table<B>, u: UserId, rows: seq<Row<B>>, wires: seq<Wire<W>>, back: seq<Row<B>>, enc: B -> W, dec: W -> B)
    requires Lists(t, u, rows) && EncodedAs(rows, wires, enc) && DecodedAs(wires, back, dec)
    ensures CanInsert(Others(t, u), back)
  {
    assert |back| == |rows| && forall i :: 0 <= i < |rows| ==> back[i].id == rows[i].id;
  }

  /** A backup that was created has every tombstone, and where it was taken no primary key is in its way. */
  lemma BackupFits(db: Db, u: UserId, rows: Rows, b: Backup, back: Rows)
    requires DbKeyed(db) && AllListed(db, u, rows) && Encoded(rows, b)
    ensures AllComplete(b)
    ensures Decoded(b, back) ==> AllInsertable(db, u, back)
  {
    if Decoded(b, back) {
      TableFits(db.accounts, u, rows.accounts, b.accounts, back.accounts, Copied, Copied);
      TableFits(db.categories, u, rows.categories, b.categories, back.categories, Copied, Copied);
      TableFits(db.members, u, rows.members, b.members, back.members, Copied, Copied);
      TableFits(db.transactions, u, rows.transactions, b.transactions, back.transactions, EncodeTransaction, DecodeTransaction);
      TableFits(db.budgets, u, rows.budgets, b.budgets, back.budgets, Copied, Copied);
      TableFits(db.reminders, u, rows.reminders, b.reminders, back.reminders, Copied, Copied);
      TableFits(db.lendings, u, rows.lendings, b.lendings, back.lendings, Copied, Copied);
      TableFits(db.records, u, rows.records, b.records, back.records, Copied, Copied);
      TableFits(db.reports, u, rows.reports, b.reports, back.reports, EncodeReport, DecodeReport);
    }
  }

  /** What comes back of a transaction and of a report. */
  function TransactionBack(t: Transaction): Transaction { InsertTransaction(DecodeTransaction(EncodeTransaction(t))) }

  function ReportBack(r: Report): Report { InsertReport(DecodeReport(EncodeReport(r))) }

  lemma SameIfIdentity<B>(t: Table<B>, u: UserId)
    ensures Mapped(t, u, Copied) == t
  {
  }

  /** Restoring a created backup reproduces every table, tombstones, disabled switches and zero-day
      settings included, except for what transactions and reports lose; other users' rows stay. */
  lemma RestoreReproduces(db: Db, u: UserId, rows: Rows, b: Backup, back: Rows, db': Db)
    requires DbKeyed(db) && AllListed(db, u, rows) && Encoded(rows, b) && Decoded(b, back) && Restored(db, u, back, db')
    ensures db' == db.(transactions := Mapped(db.transactions, u, TransactionBack), reports := Mapped(db.reports, u, ReportBack))
  {
    SecondWriteRestores();
    TableRoundTrip(db.accounts, u, rows.accounts, b.accounts, back.accounts, Copied, Copied, Copied, Copied, db'.accounts);
    SameIfIdentity(db.accounts, u);
    TableRoundTrip(db.categories, u, rows.categories, b.categories, back.categories, Copied, Copied, Copied, Copied, db'.categories);
    SameIfIdentity(db.categories, u);
    TableRoundTrip(db.members, u, rows.members, b.members, back.members, Copied, Copied, StoredMember, Copied, db'.members);
    SameIfIdentity(db.members, u);
    TableRoundTrip(db.transactions, u, rows.transactions, b.transactions, back.transactions,
                   EncodeTransaction, DecodeTransaction, InsertTransaction, TransactionBack, db'.transactions);
    TableRoundTrip(db.budgets, u, rows.budgets, b.budgets, back.budgets, Copied, Copied, StoredBudget, Copied, db'.budgets);
    SameIfIdentity(db.budgets, u);
    TableRoundTrip(db.reminders, u, rows.reminders, b.reminders, back.reminders, Copied, Copied, StoredReminder, Copied, db'.reminders);
    SameIfIdentity(db.reminders, u);
    TableRoundTrip(db.lendings, u, rows.lendings, b.lendings, back.lendings, Copied, Copied, Copied, Copied, db'.lendings);
    SameIfIdentity(db.lendings, u);
    TableRoundTrip(db.records, u, rows.records, b.records, back.records, Copied, Copied, Copied, Copied, db'.records);
    SameIfIdentity(db.records, u);
    TableRoundTrip(db.reports, u, rows.reports, b.reports, back.reports, EncodeReport, DecodeReport, InsertReport, ReportBack, db'.reports);
  }

  /** A transaction loses its import fingerprint and a report its provider revision; they lose
      nothing else exactly if the source and the status are not empty. */
  lemma OnlyExcludedIsLost(t: Transaction, r: Report)
    ensures TransactionBack(t) == t.(importFingerprint := None) <==> t.source != ""
    ensures ReportBack(r) == r.(providerRevision := "") <==> r.status != ""
  {
    SecondWriteRestores();
    assert DecodeTransaction(EncodeTransaction(t)) == t.(importFingerprint := None);
    assert DecodeReport(EncodeReport(r)) == r.(providerRevision := "");
  }
}

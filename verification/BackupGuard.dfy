/** References between the rows of a backup, and the restore that insists on them. */
module BackupGuard {
  import opened Optional
  import opened BackupFormat
  import opened BackupRows

  datatype TableName = Accounts | Categories | Members | Reminders | Lendings | Transactions

  datatype Ref = Ref(table: TableName, id: Id)

  /** An absent or empty reference is none. */
  function RefTo(table: TableName, id: Option<Id>): set<Ref> {
    if id.Some? && id.value != "" then {Ref(table, id.value)} else {}
  }

  function TransactionRefs(t: Transaction): set<Ref> {
    RefTo(Accounts, Some(t.account)) + RefTo(Accounts, t.to) + RefTo(Categories, t.category) + RefTo(Members, t.member)
    + RefTo(Members, t.paidBy) + RefTo(Reminders, t.reminder) + RefTo(Lendings, t.lending)
  }

  function BudgetRefs(b: Budget): set<Ref> { RefTo(Categories, b.category) + RefTo(Members, b.member) }

  function ReminderRefs(r: Reminder): set<Ref> { RefTo(Accounts, r.account) }

  function LendingRefs(l: Lending): set<Ref> { RefTo(Accounts, l.account) }

  function RecordRefs(r: Record): set<Ref> {
    RefTo(Lendings, Some(r.lending)) + RefTo(Accounts, r.account) + RefTo(Transactions, r.transaction)
  }

  // ---- collecting ----

  function Included<B>(table: TableName, rows: seq<Row<B>>): set<Ref> {
    if rows == [] then {}
    else Included(table, rows[..|rows| - 1]) + RefTo(table, Some(rows[|rows| - 1].id))
  }

  function Referenced<B>(rows: seq<Row<B>>, refs: B -> set<Ref>): set<Ref> {
    if rows == [] then {}
    else Referenced(rows[..|rows| - 1], refs) + refs(rows[|rows| - 1].body)
  }

  function AllIncluded(r: Rows): set<Ref> {
    Included(Accounts, r.accounts) + Included(Categories, r.categories) + Included(Members, r.members)
    + Included(Reminders, r.reminders) + Included(Lendings, r.lendings) + Included(Transactions, r.transactions)
  }

  function AllReferenced(r: Rows): set<Ref> {
    Referenced(r.transactions, TransactionRefs) + Referenced(r.budgets, BudgetRefs)
    + Referenced(r.reminders, ReminderRefs) + Referenced(r.lendings, LendingRefs) + Referenced(r.records, RecordRefs)
  }

  /** `include`, for all rows of a table. */
  method IncludeAll<B>(table: TableName, rows: seq<Row<B>>, included: set<Ref>) returns (more: set<Ref>)
    ensures more == included + Included(table, rows)
  {
    more := included;
    for i := 0 to |rows|
      invariant more == included + Included(table, rows[..i])
    {
      assert rows[..i + 1][..i] == rows[..i];
      if rows[i].id != "" {
        more := more + {Ref(table, rows[i].id)};
      }
    }
    assert rows[..|rows|] == rows;
  }

  /** `reference`, for all references of the rows of a table. */
  method ReferenceAll<B>(rows: seq<Row<B>>, refs: B -> set<Ref>, referenced: set<Ref>) returns (more: set<Ref>)
    ensures more == referenced + Referenced(rows, refs)
  {
    more := referenced;
    for i := 0 to |rows|
      invariant more == referenced + Referenced(rows[..i], refs)
    {
      assert rows[..i + 1][..i] == rows[..i];
      more := more + refs(rows[i].body);
    }
    assert rows[..|rows|] == rows;
  }

  /** `rejectCrossUserBackupReferences`: accepts exactly the backups that contain every row they
      refer to, whoever owns the rows of the database. */
  method CheckReferences(r: Rows) returns (ok: bool)
    ensures ok <==> AllReferenced(r) <= AllIncluded(r)
  {
    var included := IncludeAll(Accounts, r.accounts, {});
    included := IncludeAll(Categories, r.categories, included);
    included := IncludeAll(Members, r.members, included);
    included := IncludeAll(Reminders, r.reminders, included);
    included := IncludeAll(Lendings, r.lendings, included);
    included := IncludeAll(Transactions, r.transactions, included);
    assert included == AllIncluded(r);
    var referenced := ReferenceAll(r.transactions, TransactionRefs, {});
    referenced := ReferenceAll(r.budgets, BudgetRefs, referenced);
    referenced := ReferenceAll(r.reminders, ReminderRefs, referenced);
    referenced := ReferenceAll(r.lendings, LendingRefs, referenced);
    referenced := ReferenceAll(r.records, RecordRefs, referenced);
    assert referenced == AllReferenced(r);
    ok := true;
    while referenced != {}
      invariant referenced <= AllReferenced(r) && AllReferenced(r) - referenced <= AllIncluded(r)
    {
      var ref :| ref in referenced;
      if ref !in included {
        return false;
      }
      referenced := referenced - {ref};
    }
  }

  // ---- what the check buys ----

  ghost predicate OwnedIn<B>(t: Table<B>, id: Id, u: UserId) {
    id in t && t[id].user == u
  }

  /** The row that the reference names exists and is the user's own. */
  ghost predicate Resolves(db: Db, u: UserId, ref: Ref) {
    match ref.table
    case Accounts => OwnedIn(db.accounts, ref.id, u)
    case Categories => OwnedIn(db.categories, ref.id, u)
    case Members => OwnedIn(db.members, ref.id, u)
    case Reminders => OwnedIn(db.reminders, ref.id, u)
    case Lendings => OwnedIn(db.lendings, ref.id, u)
    case Transactions => OwnedIn(db.transactions, ref.id, u)
  }

  lemma {:induction false} IncludedIsRow<B>(table: TableName, rows: seq<Row<B>>, ref: Ref)
    ensures ref in Included(table, rows) ==> ref.table == table && exists i :: 0 <= i < |rows| && rows[i].id == ref.id
  {
    if rows != [] && ref in Included(table, rows) {
      var init := rows[..|rows| - 1];
      IncludedIsRow(table, init, ref);
      if ref in Included(table, init) {
        var i :| 0 <= i < |init| && init[i].id == ref.id;
        assert rows[i].id == ref.id;
      } else {
        assert rows[|rows| - 1].id == ref.id;
      }
    }
  }

  lemma IncludedResolves<B(!new)>(table: TableName, t: Table<B>, rows: seq<Row<B>>, u: UserId, stored: B -> B, t': Table<B>, ref: Ref)
    requires Inserted(Others(t, u), rows, u, stored, t') && ref in Included(table, rows)
    ensures ref.table == table && OwnedIn(t', ref.id, u)
  {
    IncludedIsRow(table, rows, ref);
  }

  lemma AllIncludedResolve(db: Db, u: UserId, r: Rows, db': Db, ref: Ref)
    requires Restored(db, u, r, db') && ref in AllIncluded(r)
    ensures Resolves(db', u, ref)
  {
    if ref in Included(Accounts, r.accounts) {
      IncludedResolves(Accounts, db.accounts, r.accounts, u, Copied, db'.accounts, ref);
    } else if ref in Included(Categories, r.categories) {
      IncludedResolves(Categories, db.categories, r.categories, u, Copied, db'.categories, ref);
    } else if ref in Included(Members, r.members) {
      IncludedResolves(Members, db.members, r.members, u, StoredMember, db'.members, ref);
    } else if ref in Included(Reminders, r.reminders) {
      IncludedResolves(Reminders, db.reminders, r.reminders, u, StoredReminder, db'.reminders, ref);
    } else if ref in Included(Lendings, r.lendings) {
      IncludedResolves(Lendings, db.lendings, r.lendings, u, Copied, db'.lendings, ref);
    } else {
      IncludedResolves(Transactions, db.transactions, r.transactions, u, InsertTransaction, db'.transactions, ref);
    }
  }

  lemma {:induction false} RowsAreReferenced<B>(rows: seq<Row<B>>, refs: B -> set<Ref>, i: nat)
    requires i < |rows|
    ensures refs(rows[i].body) <= Referenced(rows, refs)
  {
    if i < |rows| - 1 {
      RowsAreReferenced(rows[..|rows| - 1], refs, i);
    }
  }

  ghost predicate TableResolves<B>(db: Db, u: UserId, t: Table<B>, refs: B -> set<Ref>) {
    forall id, ref :: id in t && t[id].user == u && ref in refs(t[id].body) ==> Resolves(db, u, ref)
  }

  /** A restored row's references were references of the backup: storing changes none. */
  lemma RestoredResolves<B(!new)>(db': Db, u: UserId, t: Table<B>, rows: seq<Row<B>>, stored: B -> B, t': Table<B>,
                                  refs: B -> set<Ref>, all: set<Ref>)
    requires Inserted(Others(t, u), rows, u, stored, t') && forall b :: refs(stored(b)) == refs(b)
    requires Referenced(rows, refs) <= all && forall ref :: ref in all ==> Resolves(db', u, ref)
    ensures TableResolves(db', u, t', refs)
  {
    assert forall id :: id in Others(t, u) ==> t'[id] == Others(t, u)[id] && t'[id].user != u;
    forall id, ref | id in t' && t'[id].user == u && ref in refs(t'[id].body) ensures Resolves(db', u, ref) {
      var i :| 0 <= i < |rows| && rows[i].id == id;
      RowsAreReferenced(rows, refs, i);
    }
  }

  /** After a restore that passed the check, every reference of a row of the user leads to a row of
      the same user. */
  ghost predicate Closed(db: Db, u: UserId) {
    && TableResolves(db, u, db.transactions, TransactionRefs) && TableResolves(db, u, db.budgets, BudgetRefs)
    && TableResolves(db, u, db.reminders, ReminderRefs) && TableResolves(db, u, db.lendings, LendingRefs)
    && TableResolves(db, u, db.records, RecordRefs)
  }

  lemma AcceptedIsClosed(db: Db, u: UserId, r: Rows, db': Db)
    requires AllReferenced(r) <= AllIncluded(r) && Restored(db, u, r, db')
    ensures Closed(db', u)
  {
    var all := AllIncluded(r);
    forall ref | ref in all ensures Resolves(db', u, ref) {
      AllIncludedResolve(db, u, r, db', ref);
    }
    RestoredResolves(db', u, db.transactions, r.transactions, InsertTransaction, db'.transactions, TransactionRefs, all);
    RestoredResolves(db', u, db.budgets, r.budgets, StoredBudget, db'.budgets, BudgetRefs, all);
    RestoredResolves(db', u, db.reminders, r.reminders, StoredReminder, db'.reminders, ReminderRefs, all);
    RestoredResolves(db', u, db.lendings, r.lendings, Copied, db'.lendings, LendingRefs, all);
    RestoredResolves(db', u, db.records, r.records, Copied, db'.records, RecordRefs, all);
  }

  // ---- closed, reference by reference ----

  ghost predicate OwnedOrNone<B>(t: Table<B>, id: Option<Id>, u: UserId) {
    id.Some? && id.value != "" ==> id.value in t && t[id.value].user == u
  }

  ghost predicate Of<B>(t: Table<B>, id: Id, u: UserId) { id in t && t[id].user == u }

  /** Said reference by reference: whatever a row of the user names, in any column, is a row of the user
      in the table that the column refers to. */
  lemma ClosedMeans(db: Db, u: UserId)
    ensures Closed(db, u) <==>
              && (forall id :: Of(db.transactions, id, u) ==>
                    var t := db.transactions[id].body;
                    && OwnedOrNone(db.accounts, Some(t.account), u) && OwnedOrNone(db.accounts, t.to, u)
                    && OwnedOrNone(db.categories, t.category, u) && OwnedOrNone(db.members, t.member, u)
                    && OwnedOrNone(db.members, t.paidBy, u) && OwnedOrNone(db.reminders, t.reminder, u)
                    && OwnedOrNone(db.lendings, t.lending, u))
              && (forall id :: Of(db.budgets, id, u) ==>
                    OwnedOrNone(db.categories, db.budgets[id].body.category, u) && OwnedOrNone(db.members, db.budgets[id].body.member, u))
              && (forall id :: Of(db.reminders, id, u) ==> OwnedOrNone(db.accounts, db.reminders[id].body.account, u))
              && (forall id :: Of(db.lendings, id, u) ==> OwnedOrNone(db.accounts, db.lendings[id].body.account, u))
              && (forall id :: Of(db.records, id, u) ==>
                    var r := db.records[id].body;
                    && OwnedOrNone(db.lendings, Some(r.lending), u) && OwnedOrNone(db.accounts, r.account, u)
                    && OwnedOrNone(db.transactions, r.transaction, u))
  {
    TransactionsClosed(db, u);
    BudgetsClosed(db, u);
    RemindersClosed(db, u);
    LendingsClosed(db, u);
    RecordsClosed(db, u);
  }

  /** One column of references. */
  ghost predicate ColumnMeets(db: Db, u: UserId, table: TableName, id: Option<Id>) {
    forall ref :: ref in RefTo(table, id) ==> Resolves(db, u, ref)
  }

  lemma RefIsOwned(db: Db, u: UserId, id: Option<Id>)
    ensures ColumnMeets(db, u, Accounts, id) <==> OwnedOrNone(db.accounts, id, u)
    ensures ColumnMeets(db, u, Categories, id) <==> OwnedOrNone(db.categories, id, u)
    ensures ColumnMeets(db, u, Members, id) <==> OwnedOrNone(db.members, id, u)
    ensures ColumnMeets(db, u, Reminders, id) <==> OwnedOrNone(db.reminders, id, u)
    ensures ColumnMeets(db, u, Lendings, id) <==> OwnedOrNone(db.lendings, id, u)
    ensures ColumnMeets(db, u, Transactions, id) <==> OwnedOrNone(db.transactions, id, u)
  {
    if id.Some? && id.value != "" {
      assert RefTo(Accounts, id) == {Ref(Accounts, id.value)} && RefTo(Categories, id) == {Ref(Categories, id.value)};
      assert RefTo(Members, id) == {Ref(Members, id.value)} && RefTo(Reminders, id) == {Ref(Reminders, id.value)};
      assert RefTo(Lendings, id) == {Ref(Lendings, id.value)} && RefTo(Transactions, id) == {Ref(Transactions, id.value)};
    }
  }

  lemma TransactionMeets(db: Db, u: UserId, t: Transaction)
    ensures (forall ref :: ref in TransactionRefs(t) ==> Resolves(db, u, ref)) <==>
              && OwnedOrNone(db.accounts, Some(t.account), u) && OwnedOrNone(db.accounts, t.to, u)
              && OwnedOrNone(db.categories, t.category, u) && OwnedOrNone(db.members, t.member, u)
              && OwnedOrNone(db.members, t.paidBy, u) && OwnedOrNone(db.reminders, t.reminder, u)
              && OwnedOrNone(db.lendings, t.lending, u)
  {
    RefIsOwned(db, u, Some(t.account));
    RefIsOwned(db, u, t.to);
    RefIsOwned(db, u, t.category);
    RefIsOwned(db, u, t.member);
    RefIsOwned(db, u, t.paidBy);
    RefIsOwned(db, u, t.reminder);
    RefIsOwned(db, u, t.lending);
    assert forall ref :: ref in TransactionRefs(t) <==>
             || ref in RefTo(Accounts, Some(t.account)) || ref in RefTo(Accounts, t.to) || ref in RefTo(Categories, t.category)
             || ref in RefTo(Members, t.member) || ref in RefTo(Members, t.paidBy) || ref in RefTo(Reminders, t.reminder)
             || ref in RefTo(Lendings, t.lending);
  }

  lemma TransactionsClosed(db: Db, u: UserId)
    ensures TableResolves(db, u, db.transactions, TransactionRefs) <==>
              forall id :: Of(db.transactions, id, u) ==>
                var t := db.transactions[id].body;
                && OwnedOrNone(db.accounts, Some(t.account), u) && OwnedOrNone(db.accounts, t.to, u)
                && OwnedOrNone(db.categories, t.category, u) && OwnedOrNone(db.members, t.member, u)
                && OwnedOrNone(db.members, t.paidBy, u) && OwnedOrNone(db.reminders, t.reminder, u)
                && OwnedOrNone(db.lendings, t.lending, u)
  {
    forall id | Of(db.transactions, id, u)
      ensures (forall ref :: ref in TransactionRefs(db.transactions[id].body) ==> Resolves(db, u, ref)) <==>
                var t := db.transactions[id].body;
                && OwnedOrNone(db.accounts, Some(t.account), u) && OwnedOrNone(db.accounts, t.to, u)
                && OwnedOrNone(db.categories, t.category, u) && OwnedOrNone(db.members, t.member, u)
                && OwnedOrNone(db.members, t.paidBy, u) && OwnedOrNone(db.reminders, t.reminder, u)
                && OwnedOrNone(db.lendings, t.lending, u)
    {
      TransactionMeets(db, u, db.transactions[id].body);
    }
    assert forall id :: Of(db.transactions, id, u) <==> id in db.transactions && db.transactions[id].user == u;
  }

  lemma BudgetsClosed(db: Db, u: UserId)
    ensures TableResolves(db, u, db.budgets, BudgetRefs) <==>
              forall id :: Of(db.budgets, id, u) ==>
                OwnedOrNone(db.categories, db.budgets[id].body.category, u) && OwnedOrNone(db.members, db.budgets[id].body.member, u)
  {
    forall id | Of(db.budgets, id, u)
      ensures (forall ref :: ref in BudgetRefs(db.budgets[id].body) ==> Resolves(db, u, ref)) <==>
                OwnedOrNone(db.categories, db.budgets[id].body.category, u) && OwnedOrNone(db.members, db.budgets[id].body.member, u)
    {
      RefIsOwned(db, u, db.budgets[id].body.category);
      RefIsOwned(db, u, db.budgets[id].body.member);
    }
  }

  lemma RemindersClosed(db: Db, u: UserId)
    ensures TableResolves(db, u, db.reminders, ReminderRefs) <==>
              forall id :: Of(db.reminders, id, u) ==> OwnedOrNone(db.accounts, db.reminders[id].body.account, u)
  {
    forall id | Of(db.reminders, id, u)
      ensures (forall ref :: ref in ReminderRefs(db.reminders[id].body) ==> Resolves(db, u, ref)) <==>
                OwnedOrNone(db.accounts, db.reminders[id].body.account, u)
    {
      RefIsOwned(db, u, db.reminders[id].body.account);
    }
  }

  lemma LendingsClosed(db: Db, u: UserId)
    ensures TableResolves(db, u, db.lendings, LendingRefs) <==>
              forall id :: Of(db.lendings, id, u) ==> OwnedOrNone(db.accounts, db.lendings[id].body.account, u)
  {
    forall id | Of(db.lendings, id, u)
      ensures (forall ref :: ref in LendingRefs(db.lendings[id].body) ==> Resolves(db, u, ref)) <==>
                OwnedOrNone(db.accounts, db.lendings[id].body.account, u)
    {
      RefIsOwned(db, u, db.lendings[id].body.account);
    }
  }

  lemma RecordsClosed(db: Db, u: UserId)
    ensures TableResolves(db, u, db.records, RecordRefs) <==>
              forall id :: Of(db.records, id, u) ==>
                var r := db.records[id].body;
                && OwnedOrNone(db.lendings, Some(r.lending), u) && OwnedOrNone(db.accounts, r.account, u)
                && OwnedOrNone(db.transactions, r.transaction, u)
  {
    forall id | Of(db.records, id, u)
      ensures (forall ref :: ref in RecordRefs(db.records[id].body) ==> Resolves(db, u, ref)) <==>
                var r := db.records[id].body;
                && OwnedOrNone(db.lendings, Some(r.lending), u) && OwnedOrNone(db.accounts, r.account, u)
                && OwnedOrNone(db.transactions, r.transaction, u)
    {
      var r := db.records[id].body;
      RefIsOwned(db, u, Some(r.lending));
      RefIsOwned(db, u, r.account);
      RefIsOwned(db, u, r.transaction);
    }
  }

  // ---- which users' backups can be restored ----

  lemma {:induction false} RowIsIncluded<B>(table: TableName, rows: seq<Row<B>>, i: nat)
    requires i < |rows| && rows[i].id != ""
    ensures Ref(table, rows[i].id) in Included(table, rows)
  {
    if i < |rows| - 1 {
      RowIsIncluded(table, rows[..|rows| - 1], i);
    }
  }

  /** What a created backup includes of a table are the user's rows of it. */
  lemma IncludedIsOwned<B, W>(table: TableName, t: Table<B>, u: UserId, rows: seq<Row<B>>, back: seq<Row<B>>,
                              enc: B -> W, dec: W -> B, ref: Ref)
    requires Lists(t, u, rows) && CameBack(rows, back, u, enc, dec) && Keyed(t) && ref.id != ""
    ensures ref in Included(table, back) <==> ref.table == table && OwnedIn(t, ref.id, u)
  {
    IncludedIsRow(table, back, ref);
    if ref.table == table && OwnedIn(t, ref.id, u) {
      var i :| 0 <= i < |rows| && rows[i] == t[ref.id];
      assert back[i].id == ref.id;
      RowIsIncluded(table, back, i);
    }
  }

  lemma {:induction false} ReferencedByRow<B>(rows: seq<Row<B>>, refs: B -> set<Ref>, ref: Ref)
    requires ref in Referenced(rows, refs)
    ensures exists i :: 0 <= i < |rows| && ref in refs(rows[i].body)
  {
    var last := |rows| - 1;
    if ref !in refs(rows[last].body) {
      ReferencedByRow(rows[..last], refs, ref);
      var i :| 0 <= i < last && ref in refs(rows[..last][i].body);
      assert ref in refs(rows[i].body);
    }
  }

  /** The references a created backup makes from one table are met exactly if those of the user's rows
      in the table are. */
  lemma ReferencedMet<B, W>(db: Db, t: Table<B>, u: UserId, rows: seq<Row<B>>, back: seq<Row<B>>,
                            enc: B -> W, dec: W -> B, refs: B -> set<Ref>, included: set<Ref>)
    requires Lists(t, u, rows) && CameBack(rows, back, u, enc, dec) && Keyed(t)
    requires forall b :: refs(dec(enc(b))) == refs(b)
    requires forall b, ref :: ref in refs(b) ==> ref.id != ""
    requires Meets(db, u, included)
    ensures Referenced(back, refs) <= included <==> TableResolves(db, u, t, refs)
  {
    if Referenced(back, refs) <= included {
      forall id, ref | id in t && t[id].user == u && ref in refs(t[id].body) ensures Resolves(db, u, ref) {
        var i :| 0 <= i < |rows| && rows[i] == t[id];
        RowsAreReferenced(back, refs, i);
        assert ref in refs(back[i].body);
      }
    }
    if TableResolves(db, u, t, refs) {
      forall ref | ref in Referenced(back, refs) ensures ref in included {
        ReferencedByRow(back, refs, ref);
        var i :| 0 <= i < |back| && ref in refs(back[i].body);
        assert rows[i].id in t && t[rows[i].id] == rows[i] && ref in refs(rows[i].body);
      }
    }
  }

  ghost predicate AllCameBack(rows: Rows, back: Rows, u: UserId) {
    && CameBack(rows.accounts, back.accounts, u, Copied, Copied) && CameBack(rows.categories, back.categories, u, Copied, Copied)
    && CameBack(rows.members, back.members, u, Copied, Copied) && CameBack(rows.budgets, back.budgets, u, Copied, Copied)
    && CameBack(rows.transactions, back.transactions, u, EncodeTransaction, DecodeTransaction)
    && CameBack(rows.reminders, back.reminders, u, Copied, Copied) && CameBack(rows.lendings, back.lendings, u, Copied, Copied)
    && CameBack(rows.records, back.records, u, Copied, Copied)
  }

  lemma CreatedCameBack(db: Db, u: UserId, rows: Rows, b: Backup, back: Rows)
    requires AllListed(db, u, rows) && Encoded(rows, b) && Decoded(b, back)
    ensures AllCameBack(rows, back, u)
  {
    RowsCameBack(u, rows.accounts, b.accounts, back.accounts, Copied, Copied);
    RowsCameBack(u, rows.categories, b.categories, back.categories, Copied, Copied);
    RowsCameBack(u, rows.members, b.members, back.members, Copied, Copied);
    RowsCameBack(u, rows.transactions, b.transactions, back.transactions, EncodeTransaction, DecodeTransaction);
    RowsCameBack(u, rows.budgets, b.budgets, back.budgets, Copied, Copied);
    RowsCameBack(u, rows.reminders, b.reminders, back.reminders, Copied, Copied);
    RowsCameBack(u, rows.lendings, b.lendings, back.lendings, Copied, Copied);
    RowsCameBack(u, rows.records, b.records, back.records, Copied, Copied);
  }

  lemma CreatedIncludes(db: Db, u: UserId, rows: Rows, back: Rows, ref: Ref)
    requires DbKeyed(db) && AllListed(db, u, rows) && AllCameBack(rows, back, u) && ref.id != ""
    ensures ref in AllIncluded(back) <==> Resolves(db, u, ref)
  {
    IncludedIsOwned(Accounts, db.accounts, u, rows.accounts, back.accounts, Copied, Copied, ref);
    IncludedIsOwned(Categories, db.categories, u, rows.categories, back.categories, Copied, Copied, ref);
    IncludedIsOwned(Members, db.members, u, rows.members, back.members, Copied, Copied, ref);
    IncludedIsOwned(Reminders, db.reminders, u, rows.reminders, back.reminders, Copied, Copied, ref);
    IncludedIsOwned(Lendings, db.lendings, u, rows.lendings, back.lendings, Copied, Copied, ref);
    IncludedIsOwned(Transactions, db.transactions, u, rows.transactions, back.transactions, EncodeTransaction, DecodeTransaction, ref);
  }

  lemma RefsHaveIds()
    ensures forall t, ref :: ref in TransactionRefs(t) ==> ref.id != ""
    ensures forall b, ref :: ref in BudgetRefs(b) ==> ref.id != ""
    ensures forall r, ref :: ref in ReminderRefs(r) ==> ref.id != ""
    ensures forall l, ref :: ref in LendingRefs(l) ==> ref.id != ""
    ensures forall r, ref :: ref in RecordRefs(r) ==> ref.id != ""
    ensures forall t :: TransactionRefs(DecodeTransaction(EncodeTransaction(t))) == TransactionRefs(t)
  {
  }

  /** The set holds exactly the references that are met. */
  ghost predicate Meets(db: Db, u: UserId, included: set<Ref>) {
    forall ref: Ref :: ref.id != "" ==> (ref in included <==> Resolves(db, u, ref))
  }

  lemma CreatedMeets(db: Db, u: UserId, rows: Rows, back: Rows)
    requires DbKeyed(db) && AllListed(db, u, rows) && AllCameBack(rows, back, u)
    ensures Meets(db, u, AllIncluded(back))
  {
    forall ref: Ref | ref.id != "" ensures ref in AllIncluded(back) <==> Resolves(db, u, ref) {
      CreatedIncludes(db, u, rows, back, ref);
    }
  }

  lemma TransactionsMet(db: Db, u: UserId, rows: Rows, back: Rows, all: set<Ref>)
    requires DbKeyed(db) && AllListed(db, u, rows) && AllCameBack(rows, back, u) && Meets(db, u, all)
    ensures Referenced(back.transactions, TransactionRefs) <= all <==> TableResolves(db, u, db.transactions, TransactionRefs)
  {
    RefsHaveIds();
    ReferencedMet(db, db.transactions, u, rows.transactions, back.transactions, EncodeTransaction, DecodeTransaction, TransactionRefs, all);
  }

  lemma BudgetsMet(db: Db, u: UserId, rows: Rows, back: Rows, all: set<Ref>)
    requires DbKeyed(db) && AllListed(db, u, rows) && AllCameBack(rows, back, u) && Meets(db, u, all)
    ensures Referenced(back.budgets, BudgetRefs) <= all <==> TableResolves(db, u, db.budgets, BudgetRefs)
  {
    RefsHaveIds();
    ReferencedMet(db, db.budgets, u, rows.budgets, back.budgets, Copied, Copied, BudgetRefs, all);
  }

  lemma RemindersMet(db: Db, u: UserId, rows: Rows, back: Rows, all: set<Ref>)
    requires DbKeyed(db) && AllListed(db, u, rows) && AllCameBack(rows, back, u) && Meets(db, u, all)
    ensures Referenced(back.reminders, ReminderRefs) <= all <==> TableResolves(db, u, db.reminders, ReminderRefs)
  {
    RefsHaveIds();
    ReferencedMet(db, db.reminders, u, rows.reminders, back.reminders, Copied, Copied, ReminderRefs, all);
  }

  lemma LendingsMet(db: Db, u: UserId, rows: Rows, back: Rows, all: set<Ref>)
    requires DbKeyed(db) && AllListed(db, u, rows) && AllCameBack(rows, back, u) && Meets(db, u, all)
    ensures Referenced(back.lendings, LendingRefs) <= all <==> TableResolves(db, u, db.lendings, LendingRefs)
  {
    RefsHaveIds();
    ReferencedMet(db, db.lendings, u, rows.lendings, back.lendings, Copied, Copied, LendingRefs, all);
  }

  lemma RecordsMet(db: Db, u: UserId, rows: Rows, back: Rows, all: set<Ref>)
    requires DbKeyed(db) && AllListed(db, u, rows) && AllCameBack(rows, back, u) && Meets(db, u, all)
    ensures Referenced(back.records, RecordRefs) <= all <==> TableResolves(db, u, db.records, RecordRefs)
  {
    RefsHaveIds();
    ReferencedMet(db, db.records, u, rows.records, back.records, Copied, Copied, RecordRefs, all);
  }

  lemma UnionWithin(a: set<Ref>, b: set<Ref>, c: set<Ref>, d: set<Ref>, e: set<Ref>, all: set<Ref>)
    ensures a + b + c + d + e <= all <==> a <= all && b <= all && c <= all && d <= all && e <= all
  {
  }

  /** A created backup contains every row it refers to exactly if, in the database, every reference of
      the user's rows leads to a row of the user. */
  lemma CreatedIsClosedIff(db: Db, u: UserId, rows: Rows, b: Backup, back: Rows)
    requires DbKeyed(db) && AllListed(db, u, rows) && Encoded(rows, b) && Decoded(b, back)
    ensures AllReferenced(back) <= AllIncluded(back) <==> Closed(db, u)
  {
    var all := AllIncluded(back);
    CreatedCameBack(db, u, rows, b, back);
    CreatedMeets(db, u, rows, back);
    TransactionsMet(db, u, rows, back, all);
    BudgetsMet(db, u, rows, back, all);
    RemindersMet(db, u, rows, back, all);
    LendingsMet(db, u, rows, back, all);
    RecordsMet(db, u, rows, back, all);
    UnionWithin(Referenced(back.transactions, TransactionRefs), Referenced(back.budgets, BudgetRefs),
                Referenced(back.reminders, ReminderRefs), Referenced(back.lendings, LendingRefs),
                Referenced(back.records, RecordRefs), all);
  }

  // ---- the database as an object ----

  class RowStore {
    var db: Db

    constructor (db: Db)
      ensures this.db == db
    {
      this.db := db;
    }

    /** The row part of `RestoreBackup`: decodes, checks and replaces the user's rows, or changes nothing. */
    method Restore(u: UserId, b: Backup) returns (ok: bool, ghost r: Rows)
      modifies this
      ensures ok ==> Decoded(b, r) && Restored(old(db), u, r, db) && Closed(db, u)
      ensures !ok ==> db == old(db)
      ensures AllComplete(b) ==> Decoded(b, r)
      ensures forall back :: Decoded(b, back) ==>
                (ok <==> AllReferenced(back) <= AllIncluded(back) && AllInsertable(old(db), u, back))
    {
      var rows;
      ok, rows := DecodeBackup(b);
      r := rows;
      if !ok {
        return;
      }
      forall back | Decoded(b, back) ensures back == rows {
        DecodedOnce(b, back, rows);
      }
      ok := CheckReferences(rows);
      if !ok {
        return;
      }
      var before := db;
      ok, db := RestoreRows(db, u, rows);
      if ok {
        AcceptedIsClosed(before, u, rows, db);
      }
    }
  }

  /** Backing a user up and restoring the backup at once: it succeeds exactly if every reference of the
      user's rows leads to a row of the user, and then it reproduces every table except for what
      transactions and reports lose. */
  method BackUpAndRestore(store: RowStore, u: UserId) returns (ok: bool)
    requires DbKeyed(store.db)
    modifies store
    ensures ok <==> Closed(old(store.db), u)
    ensures ok ==> store.db == old(store.db).(transactions := Mapped(old(store.db).transactions, u, TransactionBack),
                                              reports := Mapped(old(store.db).reports, u, ReportBack))
    ensures !ok ==> store.db == old(store.db)
  {
    ghost var db := store.db;
    var b, rows := CreateBackup(store.db, u);
    ghost var back;
    ok, back := store.Restore(u, b);
    BackupFits(db, u, rows, b, back);
    CreatedIsClosedIff(db, u, rows, b, back);
    if ok {
      RestoreReproduces(db, u, rows, b, back, store.db);
    }
  }

  /** User 1 has one transaction, from an account that no longer exists. */
  function Dangling(): Db {
    Db(map[], map[], map[],
       map["t" := Row("t", 1, None, Transaction("a", None, None, None, None, None, None, "manual", None, 0))],
       map[], map[], map[], map[], map[])
  }

  /** A backup of that user can be created, but not restored. */
  lemma DanglingIsNotClosed()
    ensures DbKeyed(Dangling()) && !Closed(Dangling(), 1)
  {
    var db := Dangling();
    assert Ref(Accounts, "a") in TransactionRefs(db.transactions["t"].body);
    assert !Resolves(db, 1, Ref(Accounts, "a"));
  }

  /** A closed database with an empty source and an empty status: the round trip, which succeeds, does
      not bring them back. */
  lemma DefaultsComeBack()
    ensures var t := Transaction("a", None, None, None, None, None, None, "", None, 0);
            var db := Db(map["a" := Row("a", 1, None, Plain(0))], map[], map[], map["t" := Row("t", 1, None, t)],
                         map[], map[], map[], map[], map["r" := Row("r", 1, None, Report("", "", 0))]);
            && DbKeyed(db) && Closed(db, 1)
            && Mapped(db.transactions, 1, TransactionBack)["t"].body == t.(source := "manual")
            && Mapped(db.reports, 1, ReportBack)["r"].body == Report("pending", "", 0)
  {
    var t := Transaction("a", None, None, None, None, None, None, "", None, 0);
    var db := Db(map["a" := Row("a", 1, None, Plain(0))], map[], map[], map["t" := Row("t", 1, None, t)],
                 map[], map[], map[], map[], map["r" := Row("r", 1, None, Report("", "", 0))]);
    assert TransactionRefs(t) == {Ref(Accounts, "a")};
    assert TableResolves(db, 1, db.transactions, TransactionRefs);
  }

  lemma SameDecoding<B, W>(wires: seq<Wire<W>>, a: seq<Row<B>>, b: seq<Row<B>>, body: W -> B)
    requires DecodedAs(wires, a, body) && DecodedAs(wires, b, body)
    ensures a == b
  {
  }

  lemma DecodedOnce(b: Backup, r: Rows, s: Rows)
    requires Decoded(b, r) && Decoded(b, s)
    ensures r == s
  {
    SameDecoding(b.accounts, r.accounts, s.accounts, Copied);
    SameDecoding(b.categories, r.categories, s.categories, Copied);
    SameDecoding(b.members, r.members, s.members, Copied);
    SameDecoding(b.transactions, r.transactions, s.transactions, DecodeTransaction);
    SameDecoding(b.budgets, r.budgets, s.budgets, Copied);
    SameDecoding(b.reminders, r.reminders, s.reminders, Copied);
    SameDecoding(b.lendings, r.lendings, s.lendings, Copied);
    SameDecoding(b.records, r.records, s.records, Copied);
    SameDecoding(b.reports, r.reports, s.reports, DecodeReport);
  }
}

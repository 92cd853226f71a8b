/** Rows of the database and their form in a 2.4 backup. */
module BackupFormat {
  import opened Optional

  type Id = string
  type UserId = nat

  /** A row of any table; `body` has the columns in which the tables differ. */
  datatype Row<B> = Row(id: Id, user: UserId, deletedAt: Option<int>, body: B)

  // The columns that restoring treats specially; `rest` stands for all those that are copied.

  datatype Plain = Plain(rest: nat)  // accounts and categories

  datatype Member = Member(enabled: bool, rest: nat)

  datatype Transaction = Transaction(
    account: Id, category: Option<Id>, to: Option<Id>, member: Option<Id>, paidBy: Option<Id>,
    reminder: Option<Id>, lending: Option<Id>, source: string, importFingerprint: Option<string>, rest: nat)

  datatype Budget = Budget(category: Option<Id>, member: Option<Id>, period: string, alertThreshold: int,
                           active: bool, rest: nat)

  datatype Reminder = Reminder(account: Option<Id>, loanType: string, advanceDays: int, enabled: bool, rest: nat)

  datatype Lending = Lending(account: Option<Id>, rest: nat)

  datatype Record = Record(lending: Id, account: Option<Id>, transaction: Option<Id>, rest: nat)

  datatype Report = Report(status: string, providerRevision: string, rest: nat)

  // ---- the backup's own records ----

  /** In JSON a missing tombstone is not the same as an explicit null. */
  datatype Tombstone = Absent | Present(deletedAt: Option<int>)

  datatype Wire<B> = Wire(id: Id, user: UserId, tombstone: Tombstone, body: B)

  datatype WireTransaction = WireTransaction(
    account: Id, category: Option<Id>, to: Option<Id>, member: Option<Id>, paidBy: Option<Id>,
    reminder: Option<Id>, lending: Option<Id>, source: string, rest: nat)

  datatype WireReport = WireReport(status: string, rest: nat)

  function EncodeTransaction(t: Transaction): WireTransaction {
    WireTransaction(t.account, t.category, t.to, t.member, t.paidBy, t.reminder, t.lending, t.source, t.rest)
  }

  function DecodeTransaction(w: WireTransaction): Transaction {
    Transaction(w.account, w.category, w.to, w.member, w.paidBy, w.reminder, w.lending, w.source, None, w.rest)
  }

  function EncodeReport(r: Report): WireReport { WireReport(r.status, r.rest) }

  function DecodeReport(w: WireReport): Report { Report(w.status, "", w.rest) }

  function Encode<B, W>(row: Row<B>, body: B -> W): Wire<W> {
    Wire(row.id, row.user, Present(row.deletedAt), body(row.body))
  }

  function Decode<B, W>(w: Wire<W>, body: W -> B): Row<B>
    requires w.tombstone.Present?
  {
    Row(w.id, w.user, w.tombstone.deletedAt, body(w.body))
  }

  /** `mapBackupSlice` with an encoder. */
  method EncodeAll<B, W>(rows: seq<Row<B>>, body: B -> W) returns (wires: seq<Wire<W>>)
    ensures |wires| == |rows| && forall i :: 0 <= i < |rows| ==> wires[i] == Encode(rows[i], body)
  {
    wires := [];
    for i := 0 to |rows|
      invariant |wires| == i && forall k :: 0 <= k < i ==> wires[k] == Encode(rows[k], body)
    {
      wires := wires + [Encode(rows[i], body)];
    }
  }

  /** `validateTombstones` and `mapBackupSlice` with a decoder: fails exactly if a tombstone is missing. */
  method DecodeAll<B, W>(wires: seq<Wire<W>>, body: W -> B) returns (ok: bool, rows: seq<Row<B>>)
    ensures ok <==> forall i :: 0 <= i < |wires| ==> wires[i].tombstone.Present?
    ensures ok ==> |rows| == |wires| && forall i :: 0 <= i < |rows| ==> rows[i] == Decode(wires[i], body)
  {
    rows := [];
    for i := 0 to |wires|
      invariant |rows| == i && forall k :: 0 <= k < i ==> wires[k].tombstone.Present? && rows[k] == Decode(wires[k], body)
    {
      if wires[i].tombstone.Absent? {
        return false, rows;
      }
      rows := rows + [Decode(wires[i], body)];
    }
    ok := true;
  }
}

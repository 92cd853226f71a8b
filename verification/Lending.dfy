/**
 One lending contract and the accounts its money moves through, under every interleaving of
 reading the contract and conditionally updating what was read.
 */
module Lending {
  import opened Optional
  import opened Money
  import Ledger

  type AccountId = nat
  type TxId = nat
  type Request = nat

  datatype Direction = LendOut | BorrowIn

  datatype Loan = Loan(direction: Direction, principal: int, balance: int, repaid: int, settled: bool)

  /** A repayment record names the transaction that was booked for it, if any. */
  datatype Record = Record(amount: int, tx: Option<TxId>)

  datatype LoanTx = LoanTx(account: AccountId, amount: int, repayment: bool)

  /** `without` is what the balance would be had nothing been booked for this loan. */
  datatype Account = Account(debt: bool, balance: int, without: int)

  /** `read` holds the row as each request last read it; transaction ids from `next` on are new. */
  datatype Book = Book(loan: Loan, records: seq<Record>, txs: map<TxId, LoanTx>,
                       accounts: map<AccountId, Account>, next: TxId, read: map<Request, Loan>)

  /** `via` is the account given, `booked` says whether a transaction was asked for. */
  datatype Op =
    | Read(r: Request)
    | Repay(r: Request, amount: int, via: Option<AccountId>, booked: bool)
    | DeleteTx(r: Request, tx: TxId)
    | Other(account: AccountId, cash: int)

  // ---- accounts ----

  /** Lending pays out and repayments come in; borrowing the other way round. */
  function CashFlow(d: Direction, amount: int, repayment: bool): int {
    if (d == LendOut) == repayment then amount else -amount
  }

  /** Moves an account's balance for this loan; a balance outside the exact range is refused. */
  function Move(accounts: map<AccountId, Account>, a: AccountId, cash: int): Option<map<AccountId, Account>> {
    if a !in accounts then None
    else
      var acc := accounts[a];
      var after := acc.balance + Ledger.BalanceDelta(acc.debt, cash);
      if InRange(after) then Some(accounts[a := acc.(balance := after)]) else None
  }

  // ---- the operations ----

  /** `Create`: the contract with its opening transaction, or nothing. */
  function Created(d: Direction, principal: int, accounts: map<AccountId, Account>,
                   via: Option<AccountId>, booked: bool): Option<Book> {
    if principal <= 0 || !InRange(principal) || (via.Some? && via.value !in accounts) then None
    else
      var loan := Loan(d, principal, principal, 0, false);
      if !booked || via.None? then Some(Book(loan, [], map[], accounts, 0, map[]))
      else
        var moved := Move(accounts, via.value, CashFlow(d, principal, false));
        if moved.None? then None
        else Some(Book(loan, [], map[0 := LoanTx(via.value, principal, false)], moved.value, 1, map[]))
  }

  /** The row after repaying `amount` from the row as read, if that is allowed. */
  function NextLoan(seen: Loan, amount: int): Option<Loan> {
    if amount <= 0 || !InRange(amount) || seen.settled || seen.balance <= 0 || amount > seen.balance then None
    else
      Some(Loan(seen.direction, seen.principal, seen.balance - amount, seen.repaid + amount,
                seen.settled || seen.balance - amount == 0))
  }

  /** The columns compared by the conditional update are as they were read. */
  predicate Unchanged(loan: Loan, seen: Loan) {
    loan.balance == seen.balance && loan.repaid == seen.repaid && loan.settled == seen.settled
  }

  /** `RecordRepayment`, after its read. */
  function RepayStep(b: Book, r: Request, amount: int, via: Option<AccountId>, booked: bool): Option<Book> {
    if r !in b.read then None
    else
      var next := NextLoan(b.read[r], amount);
      if next.None? || !Unchanged(b.loan, b.read[r]) || (via.Some? && via.value !in b.accounts) then None
      else
        var loan := b.loan.(balance := next.value.balance, repaid := next.value.repaid, settled := next.value.settled);
        if !booked || via.None? then Some(b.(loan := loan, records := b.records + [Record(amount, None)]))
        else
          var moved := Move(b.accounts, via.value, CashFlow(b.loan.direction, amount, true));
          if moved.None? then None
          else Some(b.(loan := loan, records := b.records + [Record(amount, Some(b.next))],
                       txs := b.txs[b.next := LoanTx(via.value, amount, true)],
                       accounts := moved.value, next := b.next + 1))
  }

  function Without(records: seq<Record>, tx: TxId): seq<Record> {
    if records == [] then []
    else Without(records[..|records| - 1], tx)
         + if records[|records| - 1].tx == Some(tx) then [] else [records[|records| - 1]]
  }

  /** The row after `revertLendingTransactionTx` on the row as read. */
  function RevertedLoan(seen: Loan, t: LoanTx): Loan {
    if t.repayment then
      var repaid := if seen.repaid - t.amount < 0 then 0 else seen.repaid - t.amount;
      var balance := seen.balance + t.amount;
      seen.(balance := balance, repaid := repaid, settled := seen.settled && !(balance > 0))
    else
      seen.(balance := if seen.balance - t.amount < 0 then 0 else seen.balance - t.amount)
  }

  /** Deleting a transaction of the loan: the account and the contract are taken back together. */
  function DeleteTxStep(b: Book, r: Request, tx: TxId): Option<Book> {
    if r !in b.read || tx !in b.txs || !Unchanged(b.loan, b.read[r]) then None
    else
      var t := b.txs[tx];
      var moved := Move(b.accounts, t.account, -CashFlow(b.loan.direction, t.amount, t.repayment));
      if moved.None? then None
      else
        var next := RevertedLoan(b.read[r], t);
        Some(b.(loan := b.loan.(balance := next.balance, repaid := next.repaid, settled := next.settled),
                records := if t.repayment then Without(b.records, tx) else b.records,
                txs := b.txs - {tx}, accounts := moved.value))
  }

  /** An operation that fails leaves everything as it was. */
  function Step(b: Book, op: Op): Book {
    match op
    case Read(r) => b.(read := b.read[r := b.loan])
    case Repay(r, amount, via, booked) =>
      var next := RepayStep(b, r, amount, via, booked); if next.Some? then next.value else b
    case DeleteTx(r, tx) =>
      var next := DeleteTxStep(b, r, tx); if next.Some? then next.value else b
    case Other(a, cash) =>
      if a !in b.accounts then b
      else
        var acc := b.accounts[a];
        var d := Ledger.BalanceDelta(acc.debt, cash);
        b.(accounts := b.accounts[a := acc.(balance := acc.balance + d, without := acc.without + d)])
  }

  function Run(b: Book, ops: seq<Op>): Book
    decreases |ops|
  {
    if ops == [] then b else Run(Step(b, ops[0]), ops[1..])
  }

  // ---- conservation ----

  function Sum(records: seq<Record>): int {
    if records == [] then 0 else Sum(records[..|records| - 1]) + records[|records| - 1].amount
  }

  /** What was recorded under a transaction. */
  function SumOf(records: seq<Record>, tx: TxId): int {
    if records == [] then 0
    else SumOf(records[..|records| - 1], tx)
         + if records[|records| - 1].tx == Some(tx) then records[|records| - 1].amount else 0
  }

  /** The contract adds up: what was lent is what is open and what was repaid, the latter is what was
      recorded, nothing is repaid twice over, and exactly the contracts with nothing open are settled. */
  ghost predicate Conserved(loan: Loan, records: seq<Record>) {
    && loan.principal == loan.balance + loan.repaid
    && loan.repaid == Sum(records)
    && loan.balance >= 0 && loan.repaid >= 0
    && (loan.settled <==> loan.balance == 0)
  }

  /** A live repayment transaction stands for its records; the opening one for the principal. */
  ghost predicate TxsOk(b: Book) {
    && (forall x :: x in b.txs ==> x < b.next && b.txs[x].amount > 0)
    && (forall x :: x in b.txs && b.txs[x].repayment ==> SumOf(b.records, x) == b.txs[x].amount)
    && (forall x :: x in b.txs && !b.txs[x].repayment ==> b.txs[x].amount == b.loan.principal)
    && (forall x :: x >= b.next ==> SumOf(b.records, x) == 0)
    && (forall i :: 0 <= i < |b.records| ==> b.records[i].amount > 0)
  }

  ghost predicate Inv(b: Book) {
    Conserved(b.loan, b.records) && TxsOk(b)
  }

  lemma {:induction false} WithoutSums(records: seq<Record>, tx: TxId)
    ensures Sum(Without(records, tx)) == Sum(records) - SumOf(records, tx)
    ensures forall x: TxId :: x != tx ==> SumOf(Without(records, tx), x) == SumOf(records, x)
    ensures forall r :: r in Without(records, tx) ==> r in records
  {
    if records != [] {
      var init, last := records[..|records| - 1], records[|records| - 1];
      assert records == init + [last];
      WithoutSums(init, tx);
      if last.tx != Some(tx) {
        RecordAdded(Without(init, tx), last);
      } else {
        assert Without(records, tx) == Without(init, tx);
      }
    }
  }

  lemma RecordAdded(records: seq<Record>, rec: Record)
    ensures Sum(records + [rec]) == Sum(records) + rec.amount
    ensures forall x: TxId :: SumOf(records + [rec], x) == SumOf(records, x) + if rec.tx == Some(x) then rec.amount else 0
  {
    assert (records + [rec])[..|records|] == records;
  }

  lemma {:induction false} SumOfBound(records: seq<Record>, tx: TxId)
    requires forall i :: 0 <= i < |records| ==> records[i].amount > 0
    ensures 0 <= SumOf(records, tx) <= Sum(records)
  {
    if records != [] {
      SumOfBound(records[..|records| - 1], tx);
    }
  }

  lemma CreateConserves(d: Direction, principal: int, accounts: map<AccountId, Account>, via: Option<AccountId>, booked: bool)
    requires Created(d, principal, accounts, via, booked).Some?
    ensures Inv(Created(d, principal, accounts, via, booked).value)
  {
  }

  lemma RepayKeepsTxs(b: Book, r: Request, amount: int, via: Option<AccountId>, booked: bool)
    requires Inv(b) && RepayStep(b, r, amount, via, booked).Some?
    ensures TxsOk(RepayStep(b, r, amount, via, booked).value)
  {
    var b' := RepayStep(b, r, amount, via, booked).value;
    var rec := b'.records[|b.records|];
    assert b'.records == b.records + [rec] && b'.loan.principal == b.loan.principal;
    RecordAdded(b.records, rec);
    forall x | x in b'.txs && b'.txs[x].repayment ensures SumOf(b'.records, x) == b'.txs[x].amount {
      if x in b.txs && x != b.next {
        assert b'.txs[x] == b.txs[x] && SumOf(b.records, x) == b.txs[x].amount;
      }
    }
  }

  lemma RepayConserves(b: Book, r: Request, amount: int, via: Option<AccountId>, booked: bool)
    requires Inv(b) && RepayStep(b, r, amount, via, booked).Some?
    ensures Inv(RepayStep(b, r, amount, via, booked).value)
    ensures RepayStep(b, r, amount, via, booked).value.loan.repaid == b.loan.repaid + amount
  {
    var b' := RepayStep(b, r, amount, via, booked).value;
    RecordAdded(b.records, b'.records[|b.records|]);
    RepayKeepsTxs(b, r, amount, via, booked);
  }

  lemma RollbackConserves(b: Book, r: Request, tx: TxId)
    requires Inv(b) && DeleteTxStep(b, r, tx).Some? && b.txs[tx].repayment
    ensures Inv(DeleteTxStep(b, r, tx).value)
    ensures DeleteTxStep(b, r, tx).value.loan.repaid == b.loan.repaid - b.txs[tx].amount
  {
    WithoutSums(b.records, tx);
    SumOfBound(b.records, tx);
    var b' := DeleteTxStep(b, r, tx).value;
    forall i | 0 <= i < |b'.records| ensures b'.records[i].amount > 0 {
      assert b'.records[i] in b.records;
    }
  }

  /** Deleting the opening transaction zeroes the open balance and touches neither principal nor
      settlement: the contract still adds up exactly if it had been repaid in full. */
  lemma OpeningRollback(b: Book, r: Request, tx: TxId)
    requires Inv(b) && DeleteTxStep(b, r, tx).Some? && !b.txs[tx].repayment
    ensures Conserved(DeleteTxStep(b, r, tx).value.loan, DeleteTxStep(b, r, tx).value.records) <==> b.loan.balance == 0
  {
  }

  /** Lending 100 from account 1, read by one request. */
  function LentHundred(): Book {
    Book(Loan(LendOut, 100, 100, 0, false), [], map[0 := LoanTx(1, 100, false)],
         map[1 := Account(false, 400, 500)], 1, map[0 := Loan(LendOut, 100, 100, 0, false)])
  }

  lemma LentHundredIsReached()
    ensures var book := Created(LendOut, 100, map[1 := Account(false, 500, 500)], Some(1), true);
            book.Some? && LentHundred() == Step(book.value, Read(0))
  {
    assert map[1 := Account(false, 500, 500)][1 := Account(false, 400, 500)] == map[1 := Account(false, 400, 500)];
  }

  /** Lending 100 and deleting the opening transaction: nothing is owed and nothing was repaid, yet
      the contract still names a principal of 100 and is not settled. */
  lemma OpeningDeleted()
    ensures Inv(LentHundred())
    ensures var end := Step(LentHundred(), DeleteTx(0, 0));
            end.loan == Loan(LendOut, 100, 0, 0, false) && 0 !in end.txs && !Conserved(end.loan, end.records)
  {
    var b := LentHundred();
    assert Move(b.accounts, 1, 100).Some?;
    assert RevertedLoan(b.read[0], b.txs[0]) == Loan(LendOut, 100, 0, 0, false);
  }

  /** The operation does not delete the loan's opening transaction while money is still owed. */
  predicate KeepsOpening(b: Book, op: Op) {
    op.DeleteTx? && op.tx in b.txs && !b.txs[op.tx].repayment ==> b.loan.balance == 0
  }

  predicate AllKeepOpening(b: Book, ops: seq<Op>)
    decreases |ops|
  {
    ops == [] || (KeepsOpening(b, ops[0]) && AllKeepOpening(Step(b, ops[0]), ops[1..]))
  }

  lemma StepConserves(b: Book, op: Op)
    requires Inv(b) && KeepsOpening(b, op)
    ensures Inv(Step(b, op))
  {
    match op
    case Repay(r, amount, via, booked) =>
      if RepayStep(b, r, amount, via, booked).Some? {
        RepayConserves(b, r, amount, via, booked);
      }
    case DeleteTx(r, tx) =>
      if DeleteTxStep(b, r, tx).Some? {
        if b.txs[tx].repayment {
          RollbackConserves(b, r, tx);
        } else {
          OpeningRollback(b, r, tx);
        }
      }
    case _ =>
  }

  lemma DeletionConserves(b: Book, r: Request, tx: TxId)
    requires Inv(b)
    ensures Inv(Step(b, DeleteTx(r, tx))) <==> DeleteTxStep(b, r, tx).None? || KeepsOpening(b, DeleteTx(r, tx))
  {
    if KeepsOpening(b, DeleteTx(r, tx)) {
      StepConserves(b, DeleteTx(r, tx));
    } else if DeleteTxStep(b, r, tx).Some? {
      OpeningRollback(b, r, tx);
    }
  }

  /** Over any interleaving of reads, repayments, rolled-back repayments and other bookings, however
      stale the rows that the requests read, the contract adds up. */
  lemma {:induction false} RunConserves(b: Book, ops: seq<Op>)
    requires Inv(b) && AllKeepOpening(b, ops)
    ensures Inv(Run(b, ops))
    decreases |ops|
  {
    if ops != [] {
      StepConserves(b, ops[0]);
      RunConserves(Step(b, ops[0]), ops[1..]);
    }
  }

  // ---- the account ----

  /** What a balance is worth: what is held, less what is owed. */
  function Worth(debt: bool, balance: int): int { if debt then -balance else balance }

  /** What the open balance is worth: others owe what was lent, the user owes what was borrowed. */
  function Claim(loan: Loan): int { if loan.direction == LendOut then loan.balance else -loan.balance }

  /** Account and claim together are worth what the account would be worth without the loan. */
  ghost predicate CarriesLoan(b: Book, a: AccountId) {
    && a in b.accounts
    && var acc := b.accounts[a];
      Worth(acc.debt, acc.balance) + Claim(b.loan) == Worth(acc.debt, acc.without)
  }

  /** Only account `a` has changed, and is worth `gain` more. */
  ghost predicate OnlyMoved(before: map<AccountId, Account>, after: map<AccountId, Account>, a: AccountId, gain: int) {
    && a in before && after.Keys == before.Keys && (forall x :: x in before && x != a ==> after[x] == before[x])
    && after[a].debt == before[a].debt && after[a].without == before[a].without
    && Worth(after[a].debt, after[a].balance) == Worth(before[a].debt, before[a].balance) + gain
  }

  /** A new contract is refused exactly for a principal that is no positive exact amount, an unknown
      account, or a balance that would leave the exact range.  Lending takes the principal from the
      account, borrowing brings it, whatever the type of the account. */
  lemma OpeningMoves(d: Direction, principal: int, accounts: map<AccountId, Account>, via: Option<AccountId>, booked: bool)
    ensures Created(d, principal, accounts, via, booked).Some? <==>
              && 0 < principal <= MAX_EXACT as int && (via.Some? ==> via.value in accounts)
              && (booked && via.Some? ==> var acc := accounts[via.value];
                    InRange(acc.balance + if acc.debt == (d == LendOut) then principal else -principal))
    ensures Created(d, principal, accounts, via, booked).Some? ==>
              var b := Created(d, principal, accounts, via, booked).value;
              && b.loan == Loan(d, principal, principal, 0, false) && b.records == []
              && (if booked && via.Some?
                  then OnlyMoved(accounts, b.accounts, via.value, if d == LendOut then -principal else principal)
                       && b.txs == map[0 := LoanTx(via.value, principal, false)]
                  else b.accounts == accounts && b.txs == map[])
  {
  }

  /** A repayment is refused exactly if the row as read is settled, owes less, or is no longer the row;
      or the amount is not positive, the account unknown or its balance out of range.  It brings the
      account what was lent out and takes from it what was borrowed. */
  lemma RepaymentMoves(b: Book, r: Request, amount: int, via: Option<AccountId>, booked: bool)
    requires Inv(b) && r in b.read
    ensures RepayStep(b, r, amount, via, booked).Some? <==>
              && !b.loan.settled && 0 < amount <= b.loan.balance && InRange(amount)
              && b.read[r].balance == b.loan.balance && b.read[r].repaid == b.loan.repaid && b.read[r].settled == b.loan.settled
              && (via.Some? ==> via.value in b.accounts)
              && (booked && via.Some? ==> var acc := b.accounts[via.value];
                    InRange(acc.balance + if acc.debt == (b.loan.direction == BorrowIn) then amount else -amount))
    ensures RepayStep(b, r, amount, via, booked).Some? ==>
              var b' := RepayStep(b, r, amount, via, booked).value;
              && b'.loan == b.loan.(balance := b.loan.balance - amount, repaid := b.loan.repaid + amount,
                                    settled := b.loan.balance == amount)
              && (if booked && via.Some?
                  then OnlyMoved(b.accounts, b'.accounts, via.value, if b.loan.direction == LendOut then amount else -amount)
                       && b'.txs == b.txs[b.next := LoanTx(via.value, amount, true)]
                       && b'.records == b.records + [Record(amount, Some(b.next))]
                  else b'.accounts == b.accounts && b'.txs == b.txs && b'.records == b.records + [Record(amount, None)])
  {
  }

  /** Deleting a transaction of the loan takes exactly what it brought, or brings what it took. */
  lemma DeletionMoves(b: Book, r: Request, tx: TxId)
    requires Inv(b) && r in b.read && tx in b.txs
    ensures var t := b.txs[tx]; var brought := t.repayment == (b.loan.direction == LendOut);
            && (DeleteTxStep(b, r, tx).Some? <==>
                  && b.read[r].balance == b.loan.balance && b.read[r].repaid == b.loan.repaid && b.read[r].settled == b.loan.settled
                  && t.account in b.accounts
                  && var acc := b.accounts[t.account]; InRange(acc.balance + if acc.debt == brought then t.amount else -t.amount))
            && (DeleteTxStep(b, r, tx).Some? ==>
                  var b' := DeleteTxStep(b, r, tx).value;
                  && OnlyMoved(b.accounts, b'.accounts, t.account, if brought then -t.amount else t.amount)
                  && b'.txs == b.txs - {tx}
                  && (if t.repayment
                      then b'.loan.balance == b.loan.balance + t.amount && b'.loan.repaid == b.loan.repaid - t.amount
                      else b'.loan.balance == 0 && b'.loan.repaid == b.loan.repaid && b'.records == b.records))
  {
    SumOfBound(b.records, tx);
  }

  /** Every booking goes through account `a`. */
  ghost predicate OnlyThrough(b: Book, a: AccountId) {
    forall x :: x in b.txs ==> b.txs[x].account == a
  }

  predicate Through(op: Op, a: AccountId) {
    op.Repay? ==> op.booked && op.via == Some(a)
  }

  lemma StepCarriesLoan(b: Book, op: Op, a: AccountId)
    requires Inv(b) && CarriesLoan(b, a) && OnlyThrough(b, a) && Through(op, a)
    requires op.DeleteTx? && op.tx in b.txs ==> b.txs[op.tx].repayment
    ensures CarriesLoan(Step(b, op), a) && OnlyThrough(Step(b, op), a)
  {
  }

  predicate AllThrough(b: Book, ops: seq<Op>, a: AccountId)
    decreases |ops|
  {
    ops == [] || (&& Through(ops[0], a)
                  && (ops[0].DeleteTx? && ops[0].tx in b.txs ==> b.txs[ops[0].tx].repayment)
                  && AllThrough(Step(b, ops[0]), ops[1..], a))
  }

  lemma {:induction false} RunCarriesLoan(b: Book, ops: seq<Op>, a: AccountId)
    requires Inv(b) && CarriesLoan(b, a) && OnlyThrough(b, a) && AllThrough(b, ops, a)
    ensures Inv(Run(b, ops)) && CarriesLoan(Run(b, ops), a)
    decreases |ops|
  {
    if ops != [] {
      StepConserves(b, ops[0]);
      StepCarriesLoan(b, ops[0], a);
      RunCarriesLoan(Step(b, ops[0]), ops[1..], a);
    }
  }

  /** Over a run without other bookings neither repayments nor their rollbacks change what account and
      claim are worth together. */
  lemma {:induction false} RunKeepsWorth(b: Book, ops: seq<Op>, a: AccountId)
    requires Inv(b) && CarriesLoan(b, a) && OnlyThrough(b, a) && AllThrough(b, ops, a)
    requires forall i :: 0 <= i < |ops| ==> !ops[i].Other?
    ensures a in Run(b, ops).accounts
    ensures var before, after := b.accounts[a], Run(b, ops).accounts[a];
            Worth(after.debt, after.balance) + Claim(Run(b, ops).loan) == Worth(before.debt, before.balance) + Claim(b.loan)
    decreases |ops|
  {
    if ops != [] {
      StepConserves(b, ops[0]);
      StepCarriesLoan(b, ops[0], a);
      assert Step(b, ops[0]).accounts[a].without == b.accounts[a].without
          && Step(b, ops[0]).accounts[a].debt == b.accounts[a].debt;
      RunKeepsWorth(Step(b, ops[0]), ops[1..], a);
    }
  }

  lemma CreateCarriesLoan(d: Direction, principal: int, accounts: map<AccountId, Account>, a: AccountId)
    requires a in accounts && accounts[a].balance == accounts[a].without
    requires Created(d, principal, accounts, Some(a), true).Some?
    ensures var b := Created(d, principal, accounts, Some(a), true).value; CarriesLoan(b, a) && OnlyThrough(b, a)
  {
    OpeningMoves(d, principal, accounts, Some(a), true);
  }

  lemma SettledIffBack(b: Book, a: AccountId)
    requires Inv(b) && CarriesLoan(b, a)
    ensures b.loan.settled <==> b.accounts[a].balance == b.accounts[a].without
  {
  }

  /** A loan booked and repaid through one account, of asset or debt type, however the repayments
      interleave with each other and with other bookings: whenever the loan is settled the account
      is back to where it would be without the loan. */
  lemma SettledLoanLeavesNoTrace(d: Direction, principal: int, accounts: map<AccountId, Account>, a: AccountId, ops: seq<Op>)
    requires a in accounts && accounts[a].balance == accounts[a].without
    requires Created(d, principal, accounts, Some(a), true).Some?
    requires AllThrough(Created(d, principal, accounts, Some(a), true).value, ops, a)
    ensures var b := Run(Created(d, principal, accounts, Some(a), true).value, ops);
            a in b.accounts && (b.loan.settled <==> b.accounts[a].balance == b.accounts[a].without)
  {
    CreateConserves(d, principal, accounts, Some(a), true);
    CreateCarriesLoan(d, principal, accounts, a);
    RunCarriesLoan(Created(d, principal, accounts, Some(a), true).value, ops, a);
    SettledIffBack(Run(Created(d, principal, accounts, Some(a), true).value, ops), a);
  }

  // ---- the tables ----

  /** The rows of one contract and the accounts.  Each method after `ReadLoan` is the rest of a
      request's database transaction: it updates everything or, on an error, nothing. */
  class LendingStore {
    var loan: Loan
    var records: seq<Record>
    var txs: map<TxId, LoanTx>
    var accounts: map<AccountId, Account>
    var next: TxId
    var read: map<Request, Loan>

    ghost function Now(): Book
      reads this
    {
      Book(loan, records, txs, accounts, next, read)
    }

    constructor (b: Book)
      requires Inv(b)
      ensures Now() == b
    {
      loan, records, txs, accounts, next, read := b.loan, b.records, b.txs, b.accounts, b.next, b.read;
    }

    method ReadLoan(r: Request)
      modifies `read
      ensures Now() == Step(old(Now()), Op.Read(r))
    {
      read := read[r := loan];
    }

    /** Updates the row if the columns are still as `seen`. */
    method UpdateIfUnchanged(seen: Loan, balance: int, repaid: int, settled: bool) returns (rowsAffected: nat)
      modifies `loan
      ensures rowsAffected == if Unchanged(old(loan), seen) then 1 else 0
      ensures loan == if rowsAffected == 1
                      then old(loan).(balance := balance, repaid := repaid, settled := settled) else old(loan)
    {
      rowsAffected := 0;
      if loan.balance == seen.balance && loan.repaid == seen.repaid && loan.settled == seen.settled {
        loan := loan.(balance := balance, repaid := repaid, settled := settled);
        rowsAffected := 1;
      }
    }

    /** Logs and makes the change of an account's balance. */
    method MutateBalance(a: AccountId, cash: int) returns (ok: bool)
      requires a in accounts
      modifies `accounts
      ensures ok <==> Move(old(accounts), a, cash).Some?
      ensures accounts == if ok then Move(old(accounts), a, cash).value else old(accounts)
    {
      var acc := accounts[a];
      var after := acc.balance + Ledger.BalanceDelta(acc.debt, cash);
      ok := InRange(after);
      if ok {
        accounts := accounts[a := acc.(balance := after)];
      }
    }

    method RecordRepayment(r: Request, amount: int, via: Option<AccountId>, booked: bool) returns (ok: bool)
      requires Inv(Now()) && r in read
      modifies this
      ensures Inv(Now()) && (ok <==> RepayStep(old(Now()), r, amount, via, booked).Some?)
      ensures Now() == Step(old(Now()), Op.Repay(r, amount, via, booked))
    {
      StepConserves(Now(), Op.Repay(r, amount, via, booked));
      ok := WriteRepayment(r, amount, via, booked);
    }

    /** The writes of a repayment, each depending on the ones before it. */
    method WriteRepayment(r: Request, amount: int, via: Option<AccountId>, booked: bool) returns (ok: bool)
      requires r in read
      modifies this
      ensures ok <==> RepayStep(old(Now()), r, amount, via, booked).Some?
      ensures Now() == if ok then RepayStep(old(Now()), r, amount, via, booked).value else old(Now())
    {
      var seen, loan0 := read[r], loan;
      if amount <= 0 || !InRange(amount) || seen.settled || seen.balance <= 0 || amount > seen.balance {
        return false;
      }
      var nextBalance, settled := seen.balance - amount, seen.settled;
      if nextBalance == 0 {
        settled := true;
      }
      var rowsAffected := UpdateIfUnchanged(seen, nextBalance, seen.repaid + amount, settled);
      if rowsAffected != 1 {
        return false;
      }
      if via.Some? && via.value !in accounts {
        loan := loan0;
        return false;
      }
      var transactionID := None;
      if booked && via.Some? {
        ok := MutateBalance(via.value, CashFlow(loan.direction, amount, true));
        if !ok {
          loan := loan0;
          return;
        }
        transactionID := Some(next);
        txs, next := txs[next := LoanTx(via.value, amount, true)], next + 1;
      }
      records := records + [Record(amount, transactionID)];
      ok := true;
    }

    /** Deletes the records of a transaction. */
    method DeleteRecords(tx: TxId)
      modifies `records
      ensures records == Without(old(records), tx)
    {
      var kept := [];
      for i := 0 to |records|
        invariant records == old(records) && kept == Without(records[..i], tx)
      {
        assert records[..i + 1][..i] == records[..i];
        if records[i].tx != Some(tx) {
          kept := kept + [records[i]];
        }
      }
      assert records[..|records|] == records;
      records := kept;
    }

    /** Deletes a transaction of the contract; the contract adds up afterwards exactly unless its
        opening transaction went while money was owed. */
    method DeleteTransaction(r: Request, tx: TxId) returns (ok: bool)
      requires Inv(Now()) && r in read && tx in txs
      modifies this
      ensures ok <==> DeleteTxStep(old(Now()), r, tx).Some?
      ensures Now() == Step(old(Now()), Op.DeleteTx(r, tx))
      ensures Inv(Now()) <==> !ok || KeepsOpening(old(Now()), Op.DeleteTx(r, tx))
    {
      DeletionConserves(Now(), r, tx);
      var t, accounts0 := txs[tx], accounts;
      if t.account !in accounts {
        return false;
      }
      ok := MutateBalance(t.account, -CashFlow(loan.direction, t.amount, t.repayment));
      if !ok {
        return;
      }
      var next := RevertedLoan(read[r], t);
      var rowsAffected := UpdateIfUnchanged(read[r], next.balance, next.repaid, next.settled);
      if rowsAffected != 1 {
        accounts := accounts0;
        return false;
      }
      if t.repayment {
        DeleteRecords(tx);
      }
      txs := txs - {tx};
    }
  }
}

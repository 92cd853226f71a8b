/**
 Payments on a debt reminder: how a payment is split, what it moves on the reminder, the paying
 account and the debt account, and when deleting its transaction takes it back.
 */
module Reminder {
  import opened Optional
  import opened Money
  import Ledger

  type AccountId = nat

  datatype Account = Account(debt: bool, balance: int, paid: int)

  /** `balance` is what is left to pay, if the reminder tracks it; `account` is the debt account. */
  datatype Row = Row(account: Option<AccountId>, total: int, interest: int, balance: Option<int>, paidOff: bool)

  /** A payment made; one with a source account can be rolled back by deleting its transaction. */
  datatype Payment = Payment(amount: int, principal: int, interest: int, source: Option<AccountId>)

  datatype Plan = Plan(row: Row, accounts: map<AccountId, Account>, payments: seq<Payment>)

  // ---- the split ----

  /** `normalizeReminderPaymentSplit`: principal and interest of a payment, or an error. */
  function Split(amount: int, principal: int, interest: int): Option<(int, int)> {
    if amount <= 0 || principal < 0 || interest < 0 then None
    else if principal == 0 && interest == 0 then Some((amount, 0))
    else
      var p := if principal == 0 then amount - interest else principal;
      var i := if interest == 0 then amount - p else interest;
      if p < 0 || i < 0 || p + i != amount then None else Some((p, i))
  }

  /** A payment is accepted exactly if the parts given, where zero means not given, leave a split of
      the amount into non-negative parts; it is then the only such split, interest being zero if
      neither part was given. */
  lemma SplitIsExact(amount: int, principal: int, interest: int)
    ensures Split(amount, principal, interest).Some? <==>
              && amount > 0 && principal >= 0 && interest >= 0
              && principal + interest <= amount && (principal > 0 && interest > 0 ==> principal + interest == amount)
    ensures Split(amount, principal, interest).Some? ==>
              var (p, i) := Split(amount, principal, interest).value;
              && p >= 0 && i >= 0 && p + i == amount
              && (principal > 0 ==> p == principal) && (interest > 0 ==> i == interest)
              && (principal == 0 && interest == 0 ==> i == 0)
  {
  }

  // ---- a payment ----

  /** Books the payment as an expense of the source account. */
  function Charge(accounts: map<AccountId, Account>, a: AccountId, amount: int): Option<map<AccountId, Account>> {
    if a !in accounts then None
    else
      var acc := accounts[a];
      var after := acc.balance + Ledger.BalanceDelta(acc.debt, -amount);
      if InRange(after) then Some(accounts[a := acc.(balance := after)]) else None
  }

  /** `applyDebtAccountPaymentTx`: the debt never goes below zero. */
  function PayDebt(acc: Account, principal: int): Account {
    if principal == 0 then acc
    else
      var next := acc.balance - principal;
      Account(acc.debt, if next < 0 then 0 else next, acc.paid + principal)
  }

  predicate Known(accounts: map<AccountId, Account>, a: Option<AccountId>) {
    a.Some? ==> a.value in accounts
  }

  /** The reminder's columns after the payment, from the row as read. */
  function NextRow(seen: Row, p: int, i: int): Row {
    var balance := if seen.balance.None? then None
                   else Some(if seen.balance.value - p < 0 then 0 else seen.balance.value - p);
    Row(seen.account, seen.total + p + i, seen.interest + i, balance, seen.paidOff || balance == Some(0))
  }

  predicate Storable(row: Row) {
    InRange(row.total) && InRange(row.interest) && (row.balance.Some? ==> InRange(row.balance.value))
  }

  predicate SameColumns(row: Row, seen: Row) {
    row.total == seen.total && row.interest == seen.interest && row.balance == seen.balance
  }

  /** `RecordPayment` after reading the row as `seen`, or nothing if it fails. */
  function Paid(s: Plan, seen: Row, amount: int, principal: int, interest: int, source: Option<AccountId>): Option<Plan> {
    var split := Split(amount, principal, interest);
    if split.None? || (source.Some? && source == seen.account) then None
    else
      var (p, i) := split.value;
      if seen.balance.Some? && p > seen.balance.value then None
      else if !Storable(NextRow(seen, p, i)) || !SameColumns(s.row, seen) then None
      else if !Known(s.accounts, source) || !Known(s.accounts, seen.account) then None
      else
        var charged := if source.Some? then Charge(s.accounts, source.value, amount) else Some(s.accounts);
        if charged.None? then None
        else
          var accounts := if seen.account.None? then charged.value
                          else charged.value[seen.account.value := PayDebt(charged.value[seen.account.value], p)];
          Some(Plan(NextRow(seen, p, i).(account := s.row.account), accounts, s.payments + [Payment(amount, p, i, source)]))
  }

  // ---- taking a payment back ----

  /** `revertReminderPaymentTx` reads a principal of zero as "all of it was principal". */
  function RevertedPrincipal(pay: Payment): int {
    if pay.principal == 0 then pay.amount else pay.principal
  }

  function AtLeastZero(x: int): int { if x < 0 then 0 else x }

  function RevertedRow(row: Row, pay: Payment): Row {
    var back := RevertedPrincipal(pay);
    var i := if pay.interest == 0 && pay.amount > back then pay.amount - back else pay.interest;
    var balance := if row.balance.None? then None else Some(row.balance.value + back);
    Row(row.account, AtLeastZero(row.total - pay.amount), AtLeastZero(row.interest - i), balance,
        row.paidOff && !(balance.Some? && balance.value > 0))
  }

  function RevertDebt(acc: Account, back: int): Account {
    Account(acc.debt, acc.balance + back, AtLeastZero(acc.paid - back))
  }

  /** Deleting the transaction of payment `k`, or nothing if it fails. */
  function RolledBack(s: Plan, k: nat): Option<Plan>
    requires k < |s.payments|
  {
    var pay := s.payments[k];
    if pay.source.None? || pay.source.value !in s.accounts || !Known(s.accounts, s.row.account) then None
    else
      var refunded := Charge(s.accounts, pay.source.value, -pay.amount);
      var row := RevertedRow(s.row, pay);
      if refunded.None? || !Storable(row) then None
      else if s.row.account.None? then Some(Plan(row, refunded.value, s.payments[..k] + s.payments[k + 1..]))
      else
        var debt := RevertDebt(refunded.value[s.row.account.value], RevertedPrincipal(pay));
        if !InRange(debt.balance) then None
        else Some(Plan(row, refunded.value[s.row.account.value := debt], s.payments[..k] + s.payments[k + 1..]))
  }

  // ---- running totals ----

  function Amounts(payments: seq<Payment>): int {
    if payments == [] then 0 else Amounts(payments[..|payments| - 1]) + payments[|payments| - 1].amount
  }

  function Principals(payments: seq<Payment>): int {
    if payments == [] then 0 else Principals(payments[..|payments| - 1]) + payments[|payments| - 1].principal
  }

  function Interests(payments: seq<Payment>): int {
    if payments == [] then 0 else Interests(payments[..|payments| - 1]) + payments[|payments| - 1].interest
  }

  predicate PaymentOk(pay: Payment) {
    pay.amount > 0 && pay.principal >= 0 && pay.interest >= 0 && pay.principal + pay.interest == pay.amount
  }

  /** The columns are the totals of the payments; what is left and the principal paid are the debt. */
  ghost predicate Inv(s: Plan, debt: int) {
    && (forall k :: 0 <= k < |s.payments| ==> PaymentOk(s.payments[k]))
    && s.row.total == Amounts(s.payments) && s.row.interest == Interests(s.payments)
    && (s.row.balance.Some? ==> s.row.balance.value >= 0 && s.row.balance.value + Principals(s.payments) == debt)
  }

  lemma {:induction false} PartsAddUp(payments: seq<Payment>)
    requires forall k :: 0 <= k < |payments| ==> PaymentOk(payments[k])
    ensures Principals(payments) + Interests(payments) == Amounts(payments)
    ensures Principals(payments) >= 0 && Interests(payments) >= 0
  {
    if payments != [] {
      PartsAddUp(payments[..|payments| - 1]);
    }
  }

  /** In the running totals principal and interest make up everything paid. */
  lemma TotalsAddUp(s: Plan, debt: int)
    requires Inv(s, debt) && s.row.balance.Some?
    ensures s.row.total - s.row.interest == debt - s.row.balance.value
  {
    PartsAddUp(s.payments);
  }

  lemma PaymentKeepsTotals(s: Plan, debt: int, seen: Row, amount: int, principal: int, interest: int, source: Option<AccountId>)
    requires Inv(s, debt) && Paid(s, seen, amount, principal, interest, source).Some?
    ensures Inv(Paid(s, seen, amount, principal, interest, source).value, debt)
  {
    SplitIsExact(amount, principal, interest);
    var s' := Paid(s, seen, amount, principal, interest, source).value;
    assert s'.payments[..|s.payments|] == s.payments;
  }

  lemma {:induction false} RemovedSums(payments: seq<Payment>, k: nat)
    requires k < |payments|
    ensures var rest := payments[..k] + payments[k + 1..];
            && Amounts(rest) == Amounts(payments) - payments[k].amount
            && Principals(rest) == Principals(payments) - payments[k].principal
            && Interests(rest) == Interests(payments) - payments[k].interest
  {
    var rest, last := payments[..k] + payments[k + 1..], |payments| - 1;
    if k == last {
      assert rest == payments[..last];
    } else {
      var init := payments[..last];
      RemovedSums(init, k);
      assert rest[..|rest| - 1] == init[..k] + init[k + 1..];
      assert rest[|rest| - 1] == payments[last];
    }
  }

  /** Taking a payment back keeps the totals exactly if it paid off some principal, or the reminder
      tracks no balance: a payment of interest alone is given back as if it had been principal. */
  lemma RollbackKeepsTotalsIff(s: Plan, debt: int, k: nat)
    requires Inv(s, debt) && k < |s.payments| && RolledBack(s, k).Some?
    ensures Inv(RolledBack(s, k).value, debt) <==> s.row.balance.None? || s.payments[k].principal > 0
  {
    var s' := RolledBack(s, k).value;
    RemovedSums(s.payments, k);
    forall j | 0 <= j < |s'.payments| ensures PaymentOk(s'.payments[j]) {
      assert s'.payments[j] in s.payments;
    }
    PartsAddUp(s'.payments);
    PartsAddUp(s.payments);
    assert PaymentOk(s.payments[k]);
  }

  // ---- accounts ----

  function Worth(acc: Account): int { Ledger.BalanceDelta(acc.debt, acc.balance) }

  /** A payment from one account towards another costs exactly its interest, exactly if no principal is
      paid, or a debt account still owes it.  What a debt account does not owe is lost.  An account
      that is not a debt account, which a reminder may name as well, is charged a second time. */
  lemma PaymentCostsInterestIff(s: Plan, seen: Row, amount: int, principal: int, interest: int, source: AccountId, debt: AccountId)
    requires seen.account == Some(debt) && debt in s.accounts
    requires Paid(s, seen, amount, principal, interest, Some(source)).Some?
    ensures source != debt && source in s.accounts
    ensures var s' := Paid(s, seen, amount, principal, interest, Some(source)).value;
            var (p, i) := Split(amount, principal, interest).value;
            && (forall a :: a in s.accounts && a != source && a != debt ==> a in s'.accounts && s'.accounts[a] == s.accounts[a])
            && (Worth(s'.accounts[source]) + Worth(s'.accounts[debt])
                == Worth(s.accounts[source]) + Worth(s.accounts[debt]) - i
                <==> p == 0 || (if s.accounts[debt].debt then p <= s.accounts[debt].balance
                                else p == -s.accounts[debt].balance))
  {
    SplitIsExact(amount, principal, interest);
  }

  /** What leaves the debt is counted as paid, and taking it back restores the debt, exactly if no more
      is paid than was owed; nobody ever owes less than nothing after a payment. */
  lemma DebtPaymentIsExactIff(acc: Account, principal: int)
    requires principal > 0 && acc.paid >= 0
    ensures var next := PayDebt(acc, principal);
            && next.balance >= 0 && next.debt == acc.debt
            && (next.balance + next.paid == acc.balance + acc.paid <==> principal <= acc.balance)
            && (RevertDebt(next, principal) == acc <==> principal <= acc.balance)
  {
  }

  ghost predicate SameState(s: Plan, t: Plan) {
    && s.row == t.row && s.payments == t.payments && s.accounts.Keys == t.accounts.Keys
    && forall a :: a in s.accounts ==> s.accounts[a].balance == t.accounts[a].balance
  }

  /** Paying and at once deleting the payment's transaction restores the reminder and every balance
      exactly if some principal was paid wherever principal is tracked, and not more than the debt
      account owed. */
  lemma RollbackRestoresIff(s: Plan, debt: int, amount: int, principal: int, interest: int, source: AccountId)
    requires Inv(s, debt) && (s.row.paidOff ==> s.row.balance == Some(0) || s.row.balance.None?)
    requires Paid(s, s.row, amount, principal, interest, Some(source)).Some?
    requires RolledBack(Paid(s, s.row, amount, principal, interest, Some(source)).value, |s.payments|).Some?
    ensures var (p, i) := Split(amount, principal, interest).value;
            SameState(RolledBack(Paid(s, s.row, amount, principal, interest, Some(source)).value, |s.payments|).value, s)
            <==> && (s.row.balance.Some? || s.row.account.Some? ==> p > 0)
                 && (s.row.account.Some? ==> p <= s.accounts[s.row.account.value].balance)
  {
    SplitIsExact(amount, principal, interest);
    PartsAddUp(s.payments);
    var s1 := Paid(s, s.row, amount, principal, interest, Some(source)).value;
    var s2 := RolledBack(s1, |s.payments|).value;
    assert s2.payments == s.payments;
    assert s2.accounts[source].balance == s.accounts[source].balance;
    if s.row.account.Some? {
      var d := s.row.account.value;
      assert s2.accounts[d].balance == PayDebt(s.accounts[d], Split(amount, principal, interest).value.0).balance
                                       + RevertedPrincipal(s1.payments[|s.payments|]);
    }
  }

  // ---- runs ----

  datatype Op =
    | Pay(seen: Row, amount: int, principal: int, interest: int, source: Option<AccountId>)
    | Rollback(k: nat)

  function Step(s: Plan, op: Op): Plan {
    match op
    case Pay(seen, amount, principal, interest, source) =>
      var next := Paid(s, seen, amount, principal, interest, source); if next.Some? then next.value else s
    case Rollback(k) =>
      if k < |s.payments| && RolledBack(s, k).Some? then RolledBack(s, k).value else s
  }

  function Run(s: Plan, ops: seq<Op>): Plan
    decreases |ops|
  {
    if ops == [] then s else Run(Step(s, ops[0]), ops[1..])
  }

  /** No payment of interest alone is taken back while a balance is tracked. */
  predicate RollsBackPrincipal(s: Plan, ops: seq<Op>)
    decreases |ops|
  {
    ops == [] || (&& (ops[0].Rollback? && ops[0].k < |s.payments| ==>
                        s.row.balance.None? || s.payments[ops[0].k].principal > 0)
                  && RollsBackPrincipal(Step(s, ops[0]), ops[1..]))
  }

  /** However stale the rows that payments were computed from, the running totals are those of the
      payments in force. */
  lemma {:induction false} RunKeepsTotals(s: Plan, debt: int, ops: seq<Op>)
    requires Inv(s, debt) && RollsBackPrincipal(s, ops)
    ensures Inv(Run(s, ops), debt)
    decreases |ops|
  {
    if ops != [] {
      match ops[0] {
        case Pay(seen, amount, principal, interest, source) =>
          if Paid(s, seen, amount, principal, interest, source).Some? {
            PaymentKeepsTotals(s, debt, seen, amount, principal, interest, source);
          }
        case Rollback(k) =>
          if k < |s.payments| && RolledBack(s, k).Some? {
            RollbackKeepsTotalsIff(s, debt, k);
          }
      }
      RunKeepsTotals(Step(s, ops[0]), debt, ops[1..]);
    }
  }

  // ---- what payments and rollbacks do, apart from how it is computed ----

  /** A payment is refused exactly if its parts do not fit, it would go from the debt account to itself, it
      pays off more than the row as read still tracks, an amount leaves the exact range, the row has
      changed since, or an account is unknown.  Otherwise exactly this changes: */
  lemma PaymentMeans(s: Plan, seen: Row, amount: int, principal: int, interest: int, source: Option<AccountId>)
    requires Split(amount, principal, interest).Some?
    ensures var (p, i) := Split(amount, principal, interest).value;
            Paid(s, seen, amount, principal, interest, source).Some? <==>
              && (source.Some? ==> source != seen.account && source.value in s.accounts)
              && (seen.account.Some? ==> seen.account.value in s.accounts)
              && (seen.balance.Some? ==> p <= seen.balance.value && InRange(seen.balance.value - p))
              && s.row.total == seen.total && s.row.interest == seen.interest && s.row.balance == seen.balance
              && InRange(seen.total + amount) && InRange(seen.interest + i)
              && (source.Some? ==> var acc := s.accounts[source.value];
                    InRange(if acc.debt then acc.balance + amount else acc.balance - amount))
    ensures var (p, i) := Split(amount, principal, interest).value;
            Paid(s, seen, amount, principal, interest, source).Some? ==>
              var s' := Paid(s, seen, amount, principal, interest, source).value;
              && s'.payments == s.payments + [Payment(amount, p, i, source)]
              && s'.row.account == s.row.account && s'.row.total == s.row.total + amount && s'.row.interest == s.row.interest + i
              && s'.row.balance == (if s.row.balance.Some? then Some(s.row.balance.value - p) else None)
              && (s'.row.paidOff <==> seen.paidOff || s'.row.balance == Some(0))
              && s'.accounts.Keys == s.accounts.Keys
              && forall a :: a in s.accounts ==>
                   var acc, acc' := s.accounts[a], s'.accounts[a];
                   && acc'.debt == acc.debt
                   && (Some(a) != source && Some(a) != seen.account ==> acc' == acc)
                   && (Some(a) == source ==>
                         acc'.paid == acc.paid && acc'.balance == if acc.debt then acc.balance + amount else acc.balance - amount)
                   && (Some(a) == seen.account ==>
                         && acc'.paid == acc.paid + p
                         && acc'.balance == if p == 0 then acc.balance else if p <= acc.balance then acc.balance - p else 0)
  {
    SplitIsExact(amount, principal, interest);
  }

  /** Deleting the transaction of a payment gives the amount back to the paying account, and to the reminder
      and the debt account the principal, or the whole amount if no principal was paid. */
  lemma RollbackMeans(s: Plan, k: nat)
    requires k < |s.payments| && PaymentOk(s.payments[k])
    ensures var pay := s.payments[k]; var back := if pay.principal == 0 then pay.amount else pay.principal;
            RolledBack(s, k).Some? ==>
              var s' := RolledBack(s, k).value;
              && pay.source.Some? && pay.source.value in s.accounts && (s.row.account.Some? ==> s.row.account.value in s.accounts)
              && s'.payments == s.payments[..k] + s.payments[k + 1..] && s'.row.account == s.row.account
              && s'.row.total == (if s.row.total < pay.amount then 0 else s.row.total - pay.amount)
              && s'.row.interest == (if s.row.interest < pay.interest then 0 else s.row.interest - pay.interest)
              && s'.row.balance == (if s.row.balance.Some? then Some(s.row.balance.value + back) else None)
              && (s'.row.paidOff <==> s.row.paidOff && (s'.row.balance.Some? ==> s'.row.balance.value <= 0))
              && s'.accounts.Keys == s.accounts.Keys
              && forall a :: a in s.accounts ==>
                   var acc, acc' := s.accounts[a], s'.accounts[a];
                   && (Some(a) != pay.source && Some(a) != s.row.account ==> acc' == acc)
                   && (Some(a) == pay.source && Some(a) != s.row.account ==>
                         acc' == acc.(balance := if acc.debt then acc.balance - pay.amount else acc.balance + pay.amount))
                   && (Some(a) == s.row.account && Some(a) != pay.source ==>
                         acc' == acc.(balance := acc.balance + back, paid := if acc.paid < back then 0 else acc.paid - back))
  {
  }

  /** A rollback is refused exactly if the payment was made without an account, an account is unknown, or an
      amount leaves the exact range. */
  lemma RollbackIsRefusedIff(s: Plan, k: nat)
    requires k < |s.payments| && PaymentOk(s.payments[k])
    requires s.payments[k].source.Some? && s.payments[k].source != s.row.account
    ensures var pay := s.payments[k]; var back := if pay.principal == 0 then pay.amount else pay.principal;
            RolledBack(s, k).Some? <==>
              && pay.source.value in s.accounts && (s.row.account.Some? ==> s.row.account.value in s.accounts)
              && InRange(if s.row.total < pay.amount then 0 else s.row.total - pay.amount)
              && InRange(if s.row.interest < pay.interest then 0 else s.row.interest - pay.interest)
              && (s.row.balance.Some? ==> InRange(s.row.balance.value + back))
              && (var acc := s.accounts[pay.source.value];
                  InRange(if acc.debt then acc.balance - pay.amount else acc.balance + pay.amount))
              && (s.row.account.Some? ==> InRange(s.accounts[s.row.account.value].balance + back))
  {
  }

  // ---- inputs that show the failures ----

  /** A reminder of 1000 with a payment of interest only, taken back: 1050 are left to pay. */
  lemma InterestOnlyRollback()
    ensures var start := Plan(Row(None, 0, 0, Some(1000), false), map[1 := Account(false, 500, 0)], []);
            var end := Run(start, [Pay(start.row, 50, 0, 50, Some(1)), Rollback(0)]);
            && Inv(start, 1000) && end.payments == [] && end.accounts == start.accounts
            && end.row.balance == Some(1050) && !Inv(end, 1000)
  {
    var start := Plan(Row(None, 0, 0, Some(1000), false), map[1 := Account(false, 500, 0)], []);
    var pay := Pay(start.row, 50, 0, 50, Some(1));
    var paid := Step(start, pay);
    assert paid == Plan(Row(None, 50, 50, Some(1000), false), map[1 := Account(false, 450, 0)], [Payment(50, 0, 50, Some(1))]);
    var end := Step(paid, Rollback(0));
    assert end == Plan(Row(None, 0, 0, Some(1050), false), map[1 := Account(false, 500, 0)], []);
    assert Run(start, [pay, Rollback(0)]) == end by {
      assert [pay, Rollback(0)][1..] == [Rollback(0)] && [Rollback(0)][1..] == [];
      assert Run(paid, [Rollback(0)]) == Run(end, []);
    }
  }

  /** Paying 50 of principal to account 2 from account 1. */
  function PaidFifty(to: Account): Plan
    requires InRange(to.balance)
  {
    var start := Plan(Row(Some(2), 0, 0, None, false), map[1 := Account(false, 500, 0), 2 := to], []);
    Step(start, Pay(start.row, 50, 0, 0, Some(1)))
  }

  /** A debt account that owes 30 ends at 0: 20 are lost.  An asset account that holds 100 ends at 50:
      all 50 are lost and 50 more. */
  lemma OverpaidAndAssetDebt()
    ensures PaidFifty(Account(true, 30, 0)).accounts == map[1 := Account(false, 450, 0), 2 := Account(true, 0, 50)]
    ensures PaidFifty(Account(false, 100, 0)).accounts == map[1 := Account(false, 450, 0), 2 := Account(false, 50, 50)]
  {
  }

  /** The overpaid debt account after the payment was taken back owes 50, not 30. */
  lemma OverpaidRollback()
    ensures var end := Step(PaidFifty(Account(true, 30, 0)), Rollback(0));
            end.payments == [] && end.accounts == map[1 := Account(false, 500, 0), 2 := Account(true, 50, 0)]
  {
    assert PaidFifty(Account(true, 30, 0)).payments == [Payment(50, 50, 0, Some(1))];
  }

  // ---- the tables ----

  class ReminderStore {
    var row: Row
    var accounts: map<AccountId, Account>
    var payments: seq<Payment>

    ghost function Now(): Plan
      reads this
    {
      Plan(row, accounts, payments)
    }

    constructor (s: Plan)
      ensures Now() == s
    {
      row, accounts, payments := s.row, s.accounts, s.payments;
    }

    /** Updates the reminder's payment columns if they are still as `seen`. */
    method UpdateIfUnchanged(seen: Row, next: Row) returns (rowsAffected: nat)
      modifies `row
      ensures rowsAffected == if SameColumns(old(row), seen) then 1 else 0
      ensures row == if rowsAffected == 1 then next.(account := old(row).account) else old(row)
    {
      rowsAffected := 0;
      if row.total == seen.total && row.interest == seen.interest && row.balance == seen.balance {
        row, rowsAffected := next.(account := row.account), 1;
      }
    }

    /** The expense transaction of a payment. */
    method CreatePaymentTransaction(a: AccountId, amount: int) returns (ok: bool)
      requires a in accounts
      modifies `accounts
      ensures ok <==> Charge(old(accounts), a, amount).Some?
      ensures accounts == if ok then Charge(old(accounts), a, amount).value else old(accounts)
    {
      var acc := accounts[a];
      var after := acc.balance + Ledger.BalanceDelta(acc.debt, -amount);
      ok := InRange(after);
      if ok {
        accounts := accounts[a := acc.(balance := after)];
      }
    }

    method ApplyDebtAccountPayment(a: AccountId, principalPaid: int)
      requires a in accounts
      modifies `accounts
      ensures accounts == old(accounts)[a := PayDebt(old(accounts)[a], principalPaid)]
      ensures principalPaid == 0 ==> accounts == old(accounts)
      ensures principalPaid > 0 ==>
                && accounts[a].balance >= 0 && accounts[a].paid == old(accounts)[a].paid + principalPaid
                && (accounts[a].balance == old(accounts)[a].balance - principalPaid <==> principalPaid <= old(accounts)[a].balance)
    {
      if principalPaid == 0 {
        return;
      }
      var nextBalance := accounts[a].balance - principalPaid;
      if nextBalance < 0 {
        nextBalance := 0;
      }
      accounts := accounts[a := accounts[a].(balance := nextBalance, paid := accounts[a].paid + principalPaid)];
    }

    /** `RecordPayment` in its database transaction: all of its updates or none. */
    method RecordPayment(seen: Row, amount: int, principal: int, interest: int, source: Option<AccountId>) returns (ok: bool)
      modifies this
      ensures ok <==> Paid(old(Now()), seen, amount, principal, interest, source).Some?
      ensures Now() == Step(old(Now()), Pay(seen, amount, principal, interest, source))
    {
      var split := Split(amount, principal, interest);
      if split.None? || (source.Some? && source == seen.account) {
        return false;
      }
      var principalPaid, interestPaid := split.value.0, split.value.1;
      if seen.balance.Some? && principalPaid > seen.balance.value {
        return false;
      }
      var row0, next := row, NextRow(seen, principalPaid, interestPaid);
      if !Storable(next) {
        return false;
      }
      var rowsAffected := UpdateIfUnchanged(seen, next);
      if rowsAffected != 1 {
        return false;
      }
      if !Known(accounts, source) || !Known(accounts, seen.account) {
        row := row0;
        return false;
      }
      if source.Some? {
        ok := CreatePaymentTransaction(source.value, amount);
        if !ok {
          row := row0;
          return;
        }
      }
      if seen.account.Some? {
        ApplyDebtAccountPayment(seen.account.value, principalPaid);
      }
      payments := payments + [Payment(amount, principalPaid, interestPaid, source)];
      ok := true;
    }
  }
}

/**
 Accounts, transactions and the log of balance changes: what creating, editing and deleting
 transactions keeps between balances, the transaction list and net worth.
 */
module Ledger {
  import opened Optional
  import Money

  type AccountId = nat
  type TxId = nat

  datatype Kind = Expense | Income | Transfer | Unknown

  /** A debt account's balance is what is owed. */
  datatype Account = Account(debt: bool, initial: int, balance: int)

  /** `system` marks opening balances, `managed` what was booked for a loan. */
  datatype Tx = Tx(kind: Kind, account: AccountId, to: Option<AccountId>, amount: int, date: int, deleted: bool,
                   system: bool, managed: bool)

  datatype Log = Log(account: AccountId, before: int, after: int)

  /** `order` lists the accounts; `logs` are in the order in which they were written. */
  datatype State = State(accounts: map<AccountId, Account>, order: seq<AccountId>, txs: seq<Tx>, logs: seq<Log>)

  // ---- cash flow ----

  /** Stored balances of debt accounts move against the flow of cash. */
  function BalanceDelta(debt: bool, cash: int): int {
    if debt then -cash else cash
  }

  /** The cash a transaction brings to an account. */
  function Cash(t: Tx, a: AccountId): int {
    if t.deleted then 0
    else
      (if t.account == a then (match t.kind case Income => t.amount case Expense => -t.amount case Transfer => -t.amount case Unknown => 0) else 0)
      + if t.kind == Transfer && t.to == Some(a) then t.amount else 0
  }

  function TotalCash(txs: seq<Tx>, a: AccountId): int {
    if txs == [] then 0 else TotalCash(txs[..|txs| - 1], a) + Cash(txs[|txs| - 1], a)
  }

  /** Income counts for, expense against; transfers and deleted transactions do not count. */
  function Earned(t: Tx): int {
    if t.deleted then 0 else match t.kind case Income => t.amount case Expense => -t.amount case _ => 0
  }

  function TotalEarned(txs: seq<Tx>): int {
    if txs == [] then 0 else TotalEarned(txs[..|txs| - 1]) + Earned(txs[|txs| - 1])
  }

  // ---- net worth ----

  /** What an account contributes to net worth. */
  function Worth(acc: Account): int {
    BalanceDelta(acc.debt, acc.balance)
  }

  function NetWorth(accounts: map<AccountId, Account>, order: seq<AccountId>): int {
    if order == [] then 0
    else
      var a := order[|order| - 1];
      NetWorth(accounts, order[..|order| - 1]) + if a in accounts then Worth(accounts[a]) else 0
  }

  // ---- sums over accounts and transactions ----

  function CashOver(order: seq<AccountId>, t: Tx): int {
    if order == [] then 0 else CashOver(order[..|order| - 1], t) + Cash(t, order[|order| - 1])
  }

  function TotalCashOver(order: seq<AccountId>, txs: seq<Tx>): int {
    if order == [] then 0 else TotalCashOver(order[..|order| - 1], txs) + TotalCash(txs, order[|order| - 1])
  }

  ghost predicate Distinct(order: seq<AccountId>) {
    forall i, j :: 0 <= i < j < |order| ==> order[i] != order[j]
  }

  /** The accounts a live transaction moves money on are all listed. */
  predicate Refers(order: seq<AccountId>, t: Tx) {
    t.deleted || (t.account in order && (t.kind == Transfer ==> t.to.Some? && t.to.value in order))
  }

  function Share(a: AccountId, x: AccountId, v: int): int { if a == x then v else 0 }

  function Shares(order: seq<AccountId>, x: AccountId, v: int): int {
    if order == [] then 0 else Shares(order[..|order| - 1], x, v) + Share(order[|order| - 1], x, v)
  }

  lemma {:induction false} OneShare(order: seq<AccountId>, x: AccountId, v: int)
    requires Distinct(order)
    ensures Shares(order, x, v) == if x in order then v else 0
  {
    if order != [] {
      var init, last := order[..|order| - 1], order[|order| - 1];
      assert order == init + [last];
      OneShare(init, x, v);
    }
  }

  lemma {:induction false} CashOverIsShares(order: seq<AccountId>, t: Tx)
    requires !t.deleted
    ensures CashOver(order, t)
         == Shares(order, t.account, (match t.kind case Income => t.amount case Expense => -t.amount case Transfer => -t.amount case Unknown => 0))
            + if t.kind == Transfer && t.to.Some? then Shares(order, t.to.value, t.amount) else 0
  {
    if order != [] {
      CashOverIsShares(order[..|order| - 1], t);
    }
  }

  lemma {:induction false} DeletedBringsNothing(order: seq<AccountId>, t: Tx)
    requires t.deleted
    ensures CashOver(order, t) == 0
  {
    if order != [] {
      DeletedBringsNothing(order[..|order| - 1], t);
    }
  }

  /** Over all accounts a transfer cancels, between any mixture of asset and debt accounts. */
  lemma CashIsEarned(order: seq<AccountId>, t: Tx)
    requires Distinct(order) && Refers(order, t)
    ensures CashOver(order, t) == Earned(t)
  {
    if t.deleted {
      DeletedBringsNothing(order, t);
    } else {
      CashOverIsShares(order, t);
      OneShare(order, t.account, t.amount);
      OneShare(order, t.account, -t.amount);
      OneShare(order, t.account, 0);
      if t.kind == Transfer {
        OneShare(order, t.to.value, t.amount);
      }
    }
  }

  lemma {:induction false} OneMoreTx(order: seq<AccountId>, txs: seq<Tx>, t: Tx)
    ensures TotalCashOver(order, txs + [t]) == TotalCashOver(order, txs) + CashOver(order, t)
  {
    if order != [] {
      OneMoreTx(order[..|order| - 1], txs, t);
      assert (txs + [t])[..|txs|] == txs;
    }
  }

  lemma {:induction false} NoTxs(order: seq<AccountId>)
    ensures TotalCashOver(order, []) == 0
  {
    if order != [] {
      NoTxs(order[..|order| - 1]);
    }
  }

  /** Summed over all accounts, the cash flows of any list of transactions are income minus expense. */
  lemma {:induction false} CashFlowsAreEarnings(order: seq<AccountId>, txs: seq<Tx>)
    requires Distinct(order) && forall i :: 0 <= i < |txs| ==> Refers(order, txs[i])
    ensures TotalCashOver(order, txs) == TotalEarned(txs)
  {
    if txs == [] {
      NoTxs(order);
    } else {
      var init, last := txs[..|txs| - 1], txs[|txs| - 1];
      assert txs == init + [last];
      CashFlowsAreEarnings(order, init);
      OneMoreTx(order, init, last);
      CashIsEarned(order, last);
    }
  }

  // ---- the aggregate over a period ----

  predicate Dated(t: Tx, from: int, to: int) { from <= t.date <= to }

  function Within(txs: seq<Tx>, from: int, to: int): seq<Tx> {
    if txs == [] then []
    else Within(txs[..|txs| - 1], from, to) + if Dated(txs[|txs| - 1], from, to) then [txs[|txs| - 1]] else []
  }

  /** One row of `SumBalanceDeltaByAccount`, before rows of zero and all but ten are dropped. */
  function DeltaRow(s: State, a: AccountId, from: int, to: int): int
    requires a in s.accounts
  {
    BalanceDelta(s.accounts[a].debt, TotalCash(Within(s.txs, from, to), a))
  }

  lemma {:induction false} WithinFrom(txs: seq<Tx>, from: int, to: int)
    ensures forall t :: t in Within(txs, from, to) <==> t in txs && Dated(t, from, to)
  {
    if txs != [] {
      var init, last := txs[..|txs| - 1], txs[|txs| - 1];
      assert txs == init + [last];
      WithinFrom(init, from, to);
    }
  }

  /** The rows of two adjacent periods add up to the row of both. */
  lemma {:induction false} PeriodsAddUp(txs: seq<Tx>, a: AccountId, from: int, mid: int, to: int)
    requires from <= mid <= to
    ensures TotalCash(Within(txs, from, to), a)
         == TotalCash(Within(txs, from, mid), a) + TotalCash(Within(txs, mid + 1, to), a)
  {
    if txs != [] {
      var init, last := txs[..|txs| - 1], txs[|txs| - 1];
      PeriodsAddUp(init, a, from, mid, to);
      AppendedCash(Within(init, from, to), last, a);
      AppendedCash(Within(init, from, mid), last, a);
      AppendedCash(Within(init, mid + 1, to), last, a);
      assert forall p, q :: Within(init, p, q) + [] == Within(init, p, q);
    }
  }

  lemma AppendedCash(txs: seq<Tx>, t: Tx, a: AccountId)
    ensures TotalCash(txs + [t], a) == TotalCash(txs, a) + Cash(t, a)
  {
    assert (txs + [t])[..|txs|] == txs;
  }

  // ---- the invariant ----

  /** The balance is the cash that the transactions `txs` brought, and what the log ends with. */
  ghost predicate BalanceOk(s: State, txs: seq<Tx>, a: AccountId)
    requires a in s.accounts
  {
    var acc := s.accounts[a];
    && Money.InRange(acc.balance)
    && acc.balance == BalanceDelta(acc.debt, TotalCash(txs, a))
    && acc.balance == LastAfter(s.logs, a, acc.initial)
  }

  ghost predicate BalancesOk(s: State, txs: seq<Tx>) {
    forall a {:trigger BalanceOk(s, txs, a)} :: a in s.accounts ==> BalanceOk(s, txs, a)
  }

  /** The balance after the account's latest log, or `initial` if it has none. */
  function LastAfter(logs: seq<Log>, a: AccountId, initial: int): int {
    if logs == [] then initial
    else if logs[|logs| - 1].account == a then logs[|logs| - 1].after
    else LastAfter(logs[..|logs| - 1], a, initial)
  }

  /** Each log starts from the balance that the account's previous log ended with. */
  ghost predicate Chained(s: State) {
    forall i :: 0 <= i < |s.logs| ==> ChainedAt(s.accounts, s.logs, i)
  }

  ghost predicate ChainedAt(accounts: map<AccountId, Account>, logs: seq<Log>, i: int)
    requires 0 <= i < |logs|
  {
    var l := logs[i];
    l.account in accounts && l.before == LastAfter(logs[..i], l.account, accounts[l.account].initial)
  }

  ghost predicate Inv(s: State) {
    && Distinct(s.order) && (forall a :: a in s.order <==> a in s.accounts)
    && (forall i :: 0 <= i < |s.txs| ==> Refers(s.order, s.txs[i]))
    && BalancesOk(s, s.txs) && Chained(s)
  }

  /** A signed balance is the cash that flowed in, whatever the type of the account. */
  lemma {:induction false} WorthIsCash(s: State, order: seq<AccountId>)
    requires BalancesOk(s, s.txs) && forall a :: a in order ==> a in s.accounts
    ensures NetWorth(s.accounts, order) == TotalCashOver(order, s.txs)
  {
    if order != [] {
      assert order == order[..|order| - 1] + [order[|order| - 1]];
      WorthIsCash(s, order[..|order| - 1]);
      assert BalanceOk(s, s.txs, order[|order| - 1]);
    }
  }

  /** Assets minus liabilities are all income ever booked minus all expense, opening balances
      included; transfers leave no trace. */
  lemma NetWorthIsEarnings(s: State)
    requires Inv(s)
    ensures NetWorth(s.accounts, s.order) == TotalEarned(s.txs)
  {
    WorthIsCash(s, s.order);
    CashFlowsAreEarnings(s.order, s.txs);
  }

  // ---- moving balances ----

  /** `applyAccountBalanceMutationTx`: logs the change and adds it, or fails and changes nothing.
      A sum that leaves the exact range cannot be stored. */
  function Mutate(s: State, a: AccountId, cash: int): Option<State> {
    if a !in s.accounts then None
    else
      var acc := s.accounts[a];
      var after := acc.balance + BalanceDelta(acc.debt, cash);
      if !Money.InRange(after) then None
      else Some(s.(accounts := s.accounts[a := acc.(balance := after)], logs := s.logs + [Log(a, acc.balance, after)]))
  }

  /** Every account the transaction names exists. */
  predicate Lockable(s: State, t: Tx) {
    t.account in s.accounts && (t.kind == Transfer && t.to.Some? ==> t.to.value in s.accounts)
  }

  /** `applyBalanceChangesTx`. */
  function Apply(s: State, t: Tx): Option<State> {
    if !Lockable(s, t) then None
    else match t.kind
      case Expense => Mutate(s, t.account, -t.amount)
      case Income => Mutate(s, t.account, t.amount)
      case Transfer =>
        if t.to.None? then None
        else
          var out := Mutate(s, t.account, -t.amount);
          if out.None? then None else Mutate(out.value, t.to.value, t.amount)
      case Unknown => Some(s)
  }

  /** `revertBalanceChangesTx`. */
  function Revert(s: State, t: Tx): Option<State> {
    if !Lockable(s, t) then None
    else match t.kind
      case Expense => Mutate(s, t.account, t.amount)
      case Income => Mutate(s, t.account, -t.amount)
      case Transfer =>
        var out := Mutate(s, t.account, t.amount);
        if out.None? || t.to.None? then out else Mutate(out.value, t.to.value, -t.amount)
      case Unknown => Some(s)
  }

  ghost predicate SameCash(v: seq<Tx>, w: seq<Tx>, x: AccountId, cash: int) {
    forall a {:trigger TotalCash(w, a)} :: TotalCash(w, a) == TotalCash(v, a) + Share(a, x, cash)
  }

  /** Nothing but balances and the log has changed. */
  ghost predicate SameBooks(s: State, s': State) {
    && s'.order == s.order && s'.txs == s.txs && s'.accounts.Keys == s.accounts.Keys
    && forall a :: a in s.accounts ==> s'.accounts[a].debt == s.accounts[a].debt && s'.accounts[a].initial == s.accounts[a].initial
  }

  lemma MutateMoves(s: State, a: AccountId, cash: int, v: seq<Tx>, w: seq<Tx>)
    requires BalancesOk(s, v) && Mutate(s, a, cash).Some? && SameCash(v, w, a, cash)
    ensures BalancesOk(Mutate(s, a, cash).value, w) && SameBooks(s, Mutate(s, a, cash).value)
  {
    var s' := Mutate(s, a, cash).value;
    forall b | b in s'.accounts ensures BalanceOk(s', w, b) {
      assert BalanceOk(s, v, b);
      assert s'.logs[..|s'.logs| - 1] == s.logs;
    }
  }

  lemma MutateKeepsChain(s: State, a: AccountId, cash: int, v: seq<Tx>)
    requires BalancesOk(s, v) && Chained(s) && Mutate(s, a, cash).Some?
    ensures Chained(Mutate(s, a, cash).value)
  {
    var s' := Mutate(s, a, cash).value;
    assert BalanceOk(s, v, a);
    forall i | 0 <= i < |s'.logs| ensures ChainedAt(s'.accounts, s'.logs, i) {
      if i < |s.logs| {
        assert ChainedAt(s.accounts, s.logs, i);
        assert s'.logs[..i] == s.logs[..i];
      } else {
        assert s'.logs[..i] == s.logs;
      }
    }
  }

  /** A transaction's own flow on its first account, and on the target of a transfer. */
  function Flow(t: Tx): int {
    match t.kind case Income => t.amount case Expense => -t.amount case Transfer => -t.amount case Unknown => 0
  }

  /** Stands for `cash` brought to account `a`. */
  function Booking(a: AccountId, cash: int): Tx { Tx(Income, a, None, cash, 0, false, false, false) }

  /** Two mutations that take `cash` to one account and away from another, or from the same. */
  lemma TransferMoves(s: State, x: AccountId, y: AccountId, cash: int, v: seq<Tx>, w: seq<Tx>)
    requires BalancesOk(s, v) && Chained(s)
    requires Mutate(s, x, cash).Some? && Mutate(Mutate(s, x, cash).value, y, -cash).Some?
    requires forall a {:trigger TotalCash(w, a)} ::
               TotalCash(w, a) == TotalCash(v, a) + Share(a, x, cash) + Share(a, y, -cash)
    ensures var s' := Mutate(Mutate(s, x, cash).value, y, -cash).value;
            BalancesOk(s', w) && Chained(s') && SameBooks(s, s')
  {
    var mid := v + [Booking(x, cash)];
    forall a ensures TotalCash(mid, a) == TotalCash(v, a) + Share(a, x, cash) {
      AppendedCash(v, Booking(x, cash), a);
    }
    MutateMoves(s, x, cash, v, mid);
    MutateKeepsChain(s, x, cash, v);
    var s1 := Mutate(s, x, cash).value;
    MutateMoves(s1, y, -cash, mid, w);
    MutateKeepsChain(s1, y, -cash, mid);
  }

  /** Applying a transaction moves every balance by its cash. */
  lemma ApplyMoves(s: State, t: Tx, v: seq<Tx>, w: seq<Tx>)
    requires BalancesOk(s, v) && Chained(s) && !t.deleted && Apply(s, t).Some?
    requires forall a {:trigger TotalCash(w, a)} :: TotalCash(w, a) == TotalCash(v, a) + Cash(t, a)
    ensures var s' := Apply(s, t).value;
            BalancesOk(s', w) && Chained(s') && SameBooks(s, s') && (t.kind == Transfer ==> t.to.Some?)
  {
    match t.kind
    case Transfer =>
      TransferMoves(s, t.account, t.to.value, -t.amount, v, w);
    case Unknown =>
      forall a | a in s.accounts ensures BalanceOk(s, w, a) {
        assert BalanceOk(s, v, a);
      }
    case _ =>
      MutateMoves(s, t.account, Flow(t), v, w);
      MutateKeepsChain(s, t.account, Flow(t), v);
  }

  /** Reverting a transaction moves every balance back by its cash. */
  lemma RevertMoves(s: State, t: Tx, v: seq<Tx>, w: seq<Tx>)
    requires BalancesOk(s, v) && Chained(s) && !t.deleted && Revert(s, t).Some?
    requires t.kind == Transfer ==> t.to.Some?
    requires forall a {:trigger TotalCash(w, a)} :: TotalCash(w, a) == TotalCash(v, a) - Cash(t, a)
    ensures var s' := Revert(s, t).value;
            BalancesOk(s', w) && Chained(s') && SameBooks(s, s')
  {
    match t.kind
    case Transfer =>
      TransferMoves(s, t.account, t.to.value, t.amount, v, w);
    case Unknown =>
      forall a | a in s.accounts ensures BalanceOk(s, w, a) {
        assert BalanceOk(s, v, a);
      }
    case _ =>
      MutateMoves(s, t.account, -Flow(t), v, w);
      MutateKeepsChain(s, t.account, -Flow(t), v);
  }

  lemma {:induction false} ReplacedCash(txs: seq<Tx>, i: nat, t: Tx, a: AccountId)
    requires i < |txs|
    ensures TotalCash(txs[i := t], a) == TotalCash(txs, a) - Cash(txs[i], a) + Cash(t, a)
  {
    var last := |txs| - 1;
    if i < last {
      assert txs[i := t][..last] == txs[..last][i := t];
      ReplacedCash(txs[..last], i, t, a);
    } else {
      assert txs[i := t][..last] == txs[..last];
    }
  }

  lemma {:induction false} ReplacedEarned(txs: seq<Tx>, i: nat, t: Tx)
    requires i < |txs|
    ensures TotalEarned(txs[i := t]) == TotalEarned(txs) - Earned(txs[i]) + Earned(t)
  {
    var last := |txs| - 1;
    if i < last {
      assert txs[i := t][..last] == txs[..last][i := t];
      ReplacedEarned(txs[..last], i, t);
    } else {
      assert txs[i := t][..last] == txs[..last];
    }
  }
}

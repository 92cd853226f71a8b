/** Runs of the ledger's operations, and what the log of a run says later about the balances of the past. */
module LedgerHistory {
  import opened Optional
  import opened Ledger
  import opened LedgerService
  import Money
  import History
  import Summary

  // ---- runs ----

  datatype Op =
    | Open(account: AccountId, debt: bool, initial: int, date: int)
    | Create(tx: Tx)
    | Update(i: nat, tx: Tx)
    | Delete(i: nat)

  /** An operation that cannot be called, or fails, changes nothing. */
  function Step(s: State, op: Op): State {
    match op
    case Open(a, debt, initial, date) =>
      if a in s.accounts || !Money.InRange(initial) then s else Opened(s, a, debt, initial, date)
    case Create(t) =>
      if t.deleted || Created(s, t).None? then s else Created(s, t).value
    case Update(i, t) =>
      if i >= |s.txs| || t.deleted || Updated(s, i, t).None? then s else Updated(s, i, t).value
    case Delete(i) =>
      if i >= |s.txs| || Deleted(s, i).None? then s else Deleted(s, i).value
  }

  function Run(s: State, ops: seq<Op>): State
    decreases |ops|
  {
    if ops == [] then s else Run(Step(s, ops[0]), ops[1..])
  }

  /** From `s` to `s'` accounts and log rows were only added, and no account changed its type or its
      initial balance. */
  ghost predicate Grew(s: State, s': State) {
    && s.order <= s'.order && s.logs <= s'.logs
    && forall a :: a in s.accounts ==>
         a in s'.accounts && s'.accounts[a].debt == s.accounts[a].debt && s'.accounts[a].initial == s.accounts[a].initial
  }

  lemma MutateGrows(s: State, a: AccountId, cash: int)
    requires Mutate(s, a, cash).Some?
    ensures Grew(s, Mutate(s, a, cash).value)
  {
  }

  lemma ApplyGrows(s: State, t: Tx)
    requires Apply(s, t).Some?
    ensures Grew(s, Apply(s, t).value)
  {
    if t.kind.Transfer? {
      MutateGrows(s, t.account, -t.amount);
      MutateGrows(Mutate(s, t.account, -t.amount).value, t.to.value, t.amount);
    }
  }

  lemma RevertGrows(s: State, t: Tx)
    requires Revert(s, t).Some?
    ensures Grew(s, Revert(s, t).value)
  {
    if t.kind.Transfer? {
      MutateGrows(s, t.account, t.amount);
      if t.to.Some? {
        MutateGrows(Mutate(s, t.account, t.amount).value, t.to.value, -t.amount);
      }
    }
  }

  lemma UpdateGrows(s: State, i: nat, t: Tx)
    requires i < |s.txs| && Updated(s, i, t).Some?
    ensures Grew(s, Updated(s, i, t).value)
  {
    RevertGrows(s, s.txs[i]);
    ApplyGrows(Revert(s, s.txs[i]).value, t);
  }

  lemma StepGrows(s: State, op: Op)
    ensures Grew(s, Step(s, op))
  {
    match op
    case Open(a, debt, initial, date) =>
    case Create(t) =>
      if Created(s, t).Some? {
        ApplyGrows(s, t);
      }
    case Update(i, t) =>
      if i < |s.txs| && Updated(s, i, t).Some? {
        UpdateGrows(s, i, t);
      }
    case Delete(i) =>
      if i < |s.txs| && Deleted(s, i).Some? {
        RevertGrows(s, s.txs[i]);
      }
  }

  lemma StepKeepsInv(s: State, op: Op)
    requires Inv(s)
    ensures Inv(Step(s, op))
  {
    match op
    case Open(a, debt, initial, date) =>
      if a !in s.accounts && Money.InRange(initial) {
        OpenKeepsInv(s, a, debt, initial, date);
      }
    case Create(t) =>
      if !t.deleted && Created(s, t).Some? {
        CreateKeepsInv(s, t);
      }
    case Update(i, t) =>
      if i < |s.txs| && !t.deleted && Updated(s, i, t).Some? {
        UpdateKeepsInv(s, i, t);
      }
    case Delete(i) =>
      if i < |s.txs| && Deleted(s, i).Some? {
        DeleteKeepsInv(s, i);
      }
  }

  lemma {:induction false} RunKeepsInv(s: State, ops: seq<Op>)
    requires Inv(s)
    ensures Inv(Run(s, ops)) && Grew(s, Run(s, ops))
    decreases |ops|
  {
    if ops != [] {
      StepKeepsInv(s, ops[0]);
      StepGrows(s, ops[0]);
      RunKeepsInv(Step(s, ops[0]), ops[1..]);
    }
  }

  // ---- the log as the query sees it ----

  /** The rows of the log table: the ledger's log, each entry with the time and id it was written with. */
  ghost predicate Stamped(rows: seq<History.Row>, logs: seq<Log>) {
    && |rows| == |logs|
    && forall i :: 0 <= i < |rows| ==>
         rows[i].account == logs[i].account && rows[i].before == logs[i].before && rows[i].after == logs[i].after
  }

  lemma {:induction false} EndedIsLastAfter(rows: seq<History.Row>, logs: seq<Log>, a: AccountId, initial: int)
    requires Stamped(rows, logs)
    ensures History.Ended(rows, a, initial) == LastAfter(logs, a, initial)
  {
    if rows != [] {
      EndedIsLastAfter(rows[..|rows| - 1], logs[..|logs| - 1], a, initial);
    }
  }

  lemma StampedIsChained(s: State, rows: seq<History.Row>, a: AccountId)
    requires Inv(s) && a in s.accounts && Stamped(rows, s.logs)
    ensures History.Chained(rows, a, s.accounts[a].initial)
    ensures History.Ended(rows, a, s.accounts[a].initial) == s.accounts[a].balance
  {
    var initial := s.accounts[a].initial;
    forall i | History.Of(rows, i, a) ensures rows[i].before == History.Ended(rows[..i], a, initial) {
      assert ChainedAt(s.accounts, s.logs, i);
      EndedIsLastAfter(rows[..i], s.logs[..i], a, initial);
    }
    EndedIsLastAfter(rows, s.logs, a, initial);
    assert BalanceOk(s, s.txs, a);
  }

  /** Later rows with later times do not show. */
  lemma {:induction false} LaterRowsDoNotCount(rows: seq<History.Row>, n: nat, a: AccountId, t: int, initial: int)
    requires n <= |rows| && forall i :: n <= i && History.Of(rows, i, a) ==> rows[i].time > t
    ensures History.Replayed(rows, a, t, initial) == History.Replayed(rows[..n], a, t, initial)
    decreases |rows|
  {
    if n < |rows| {
      var k := |rows| - 1;
      forall i | n <= i && History.Of(rows[..k], i, a) ensures rows[..k][i].time > t {
        assert History.Of(rows, i, a);
      }
      LaterRowsDoNotCount(rows[..k], n, a, t, initial);
      assert rows[..k][..n] == rows[..n];
      assert rows[k].account == a ==> History.Of(rows, k, a);
    } else {
      assert rows[..n] == rows;
    }
  }

  /** The account's rows are in order, and exactly those of the first `n` were written by time `t`. */
  ghost predicate SplitAt(rows: seq<History.Row>, n: nat, a: AccountId, t: int) {
    && History.Timed(rows, a) && History.TiesInOrder(rows, a)
    && forall i :: History.Of(rows, i, a) ==> (rows[i].time <= t <==> i < n)
  }

  /** What the query finds for time `t`, whenever it is asked, is the balance that the account had at
      time `t`: `now` is `past` grown by changes that were all logged after `t`. */
  lemma QueryFindsBalanceThen(past: State, now: State, rows: seq<History.Row>, a: AccountId, t: int, balance: int)
    requires Inv(past) && Inv(now) && Grew(past, now) && a in past.accounts
    requires Stamped(rows, now.logs) && SplitAt(rows, |past.logs|, a, t)
    ensures a in now.accounts
    ensures History.BalanceRead(rows, a, t, now.accounts[a].initial, balance) <==> balance == past.accounts[a].balance
  {
    var n, initial := |past.logs|, past.accounts[a].initial;
    var first := rows[..n];
    StampedIsChained(now, rows, a);
    History.BalanceReadIsReplayed(rows, a, t, initial, balance);
    LaterRowsDoNotCount(rows, n, a, t, initial);
    assert forall i :: 0 <= i < n ==> now.logs[i] == past.logs[i];
    StampedIsChained(past, first, a);
    assert forall i :: History.Of(first, i, a) ==> History.Of(rows, i, a);
    History.ReplayFollowsChain(first, a, t, initial);
  }

  /** However a run is cut in two, a query about the moment of the cut, asked at its end, finds every
      balance as it was past. */
  lemma HistoryIsKept(start: State, before: seq<Op>, after: seq<Op>, rows: seq<History.Row>, a: AccountId, t: int, balance: int)
    requires Inv(start) && a in Run(start, before).accounts
    requires Stamped(rows, Run(Run(start, before), after).logs)
    requires SplitAt(rows, |Run(start, before).logs|, a, t)
    ensures History.BalanceRead(rows, a, t, Run(start, before).accounts[a].initial, balance)
            <==> balance == Run(start, before).accounts[a].balance
  {
    RunKeepsInv(start, before);
    RunKeepsInv(Run(start, before), after);
    QueryFindsBalanceThen(Run(start, before), Run(Run(start, before), after), rows, a, t, balance);
  }

  // ---- net worth at an earlier time ----

  /** The account rows as they are now; the accounts of `past`, and no others, existed at time `t`. */
  ghost predicate Describes(accounts: seq<Summary.AccountRow>, past: State, now: State, t: int)
  {
    && |accounts| == |now.order|
    && forall i :: 0 <= i < |accounts| ==>
         && now.order[i] in now.accounts
         && var acc := now.accounts[now.order[i]];
            && accounts[i].id == now.order[i] && accounts[i].debt == acc.debt
            && accounts[i].initial.Exact? && accounts[i].initial.cents as int == acc.initial
            && (Summary.ExistedAt(accounts[i], t) <==> i < |past.order|)
  }

  /** The snapshots are what the query selects. */
  ghost predicate IsQueried(balances: map<nat, Money.Amount>, rows: seq<History.Row>, t: int) {
    forall a: nat ::
      && (a in balances <==> exists i :: History.Of(rows, i, a) && History.Selected(rows, i, t))
      && (a in balances ==>
            && balances[a].Exact?
            && exists i :: History.Of(rows, i, a) && History.Selected(rows, i, t) && rows[i].after == balances[a].cents as int)
  }

  /** The item the trend makes of an account is the account as it was. */
  lemma ItemThen(past: State, now: State, rows: seq<History.Row>, balances: map<nat, Money.Amount>, a: AccountId,
                 initial: Money.Amount, t: int)
    requires Inv(past) && Inv(now) && Grew(past, now) && a in past.accounts
    requires Stamped(rows, now.logs) && SplitAt(rows, |past.logs|, a, t) && IsQueried(balances, rows, t)
    requires initial.Exact? && initial.cents as int == past.accounts[a].initial
    ensures Money.InRange(past.accounts[a].balance)
    ensures (if a in balances then balances[a] else initial) == Money.Exact(past.accounts[a].balance as Money.int64)
  {
    var found := if a in balances then balances[a] else initial;
    assert BalanceOk(past, past.txs, a);
    QueryFindsBalanceThen(past, now, rows, a, t, found.cents as int);
    assert History.BalanceRead(rows, a, t, past.accounts[a].initial, found.cents as int);
  }

  ghost predicate AllSplit(past: State, rows: seq<History.Row>, t: int) {
    forall a :: a in past.accounts ==> SplitAt(rows, |past.logs|, a, t)
  }

  lemma ItemsAppended(s: State, n: nat)
    requires forall a :: a in s.order ==> a in s.accounts && Money.InRange(s.accounts[a].balance)
    requires 0 < n <= |s.order|
    ensures forall a :: a in s.order[..n] || a in s.order[..n - 1] ==> a in s.order
    ensures var acc := s.accounts[s.order[n - 1]];
            Summary.Items(s, s.order[..n])
            == Summary.Items(s, s.order[..n - 1]) + [Summary.Item(acc.debt, Money.Exact(acc.balance as Money.int64))]
  {
  }

  lemma PastUnfolds(accounts: seq<Summary.AccountRow>, balances: map<nat, Money.Amount>, t: int, n: nat)
    requires 0 < n <= |accounts|
    ensures var acc := accounts[n - 1];
            Summary.Past(accounts[..n], balances, t)
            == Summary.Past(accounts[..n - 1], balances, t)
               + if Summary.ExistedAt(acc, t)
                 then [Summary.Item(acc.debt, if acc.id in balances then balances[acc.id] else acc.initial)] else []
  {
    assert accounts[..n][..n - 1] == accounts[..n - 1] && accounts[..n][n - 1] == accounts[n - 1];
  }

  /** The result of the query: one snapshot for each row it selects. */
  ghost predicate QueryResult(snapshots: seq<Summary.Snapshot>, rows: seq<History.Row>, t: int) {
    && (forall k :: 0 <= k < |snapshots| ==>
          && snapshots[k].balance.Exact?
          && exists i :: History.Of(rows, i, snapshots[k].id) && History.Selected(rows, i, t)
                         && rows[i].after == snapshots[k].balance.cents as int)
    && (forall i, a :: History.Of(rows, i, a) && History.Selected(rows, i, t) ==>
          exists k :: 0 <= k < |snapshots| && snapshots[k].id == a)
  }

  lemma CollectedIsQueried(snapshots: seq<Summary.Snapshot>, rows: seq<History.Row>, t: int)
    requires QueryResult(snapshots, rows, t)
    ensures IsQueried(Summary.Collected(snapshots), rows, t)
  {
    forall a: nat
      ensures a in Summary.Collected(snapshots) <==> exists i :: History.Of(rows, i, a) && History.Selected(rows, i, t)
      ensures a in Summary.Collected(snapshots) ==>
                && Summary.Collected(snapshots)[a].Exact?
                && exists i :: History.Of(rows, i, a) && History.Selected(rows, i, t)
                               && rows[i].after == Summary.Collected(snapshots)[a].cents as int
    {
      Summary.CollectedFrom(snapshots, a);
    }
  }

  /** What the trend takes for account `a` is the account as it was. */
  ghost predicate TakenAsItWas(past: State, balances: map<nat, Money.Amount>, row: Summary.AccountRow, a: AccountId) {
    && a in past.accounts && Money.InRange(past.accounts[a].balance)
    && row.debt == past.accounts[a].debt
    && (if row.id in balances then balances[row.id] else row.initial) == Money.Exact(past.accounts[a].balance as Money.int64)
  }

  lemma {:induction false} PastIsThen(past: State, balances: map<nat, Money.Amount>, accounts: seq<Summary.AccountRow>, t: int, n: nat)
    requires forall a :: a in past.order ==> a in past.accounts && Money.InRange(past.accounts[a].balance)
    requires |past.order| <= |accounts| && n <= |accounts|
    requires forall i :: 0 <= i < |accounts| ==> (Summary.ExistedAt(accounts[i], t) <==> i < |past.order|)
    requires forall i :: 0 <= i < |past.order| ==> TakenAsItWas(past, balances, accounts[i], past.order[i])
    ensures var k := if n < |past.order| then n else |past.order|;
            Summary.Past(accounts[..n], balances, t) == Summary.Items(past, past.order[..k])
  {
    if n > 0 {
      PastIsThen(past, balances, accounts, t, n - 1);
      PastUnfolds(accounts, balances, t, n);
      if n <= |past.order| {
        assert TakenAsItWas(past, balances, accounts[n - 1], past.order[n - 1]);
        ItemsAppended(past, n);
      }
    }
  }

  lemma AccountTaken(past: State, now: State, rows: seq<History.Row>, balances: map<nat, Money.Amount>,
                     accounts: seq<Summary.AccountRow>, t: int, i: nat)
    requires Inv(past) && Inv(now) && Grew(past, now) && AllSplit(past, rows, t) && i < |past.order|
    requires Stamped(rows, now.logs) && IsQueried(balances, rows, t) && Describes(accounts, past, now, t)
    ensures i < |accounts| && TakenAsItWas(past, balances, accounts[i], past.order[i])
  {
    var a := past.order[i];
    assert a in past.order && now.order[i] == a;
    ItemThen(past, now, rows, balances, a, accounts[i].initial, t);
  }

  lemma BalancesInRange(s: State)
    requires Inv(s)
    ensures forall a :: a in s.order ==> a in s.accounts && Money.InRange(s.accounts[a].balance)
  {
    forall a | a in s.order ensures a in s.accounts && Money.InRange(s.accounts[a].balance) {
      assert BalanceOk(s, s.txs, a);
    }
  }

  /** The asset trend's figures for time `t`, computed at any later time from the log, differ by the
      net worth at time `t`: all income less all expense booked by then. */
  lemma TrendIsNetWorth(past: State, now: State, rows: seq<History.Row>, balances: map<nat, Money.Amount>,
                        accounts: seq<Summary.AccountRow>, t: int)
    requires Inv(past) && Inv(now) && Grew(past, now) && AllSplit(past, rows, t)
    requires Stamped(rows, now.logs) && IsQueried(balances, rows, t) && Describes(accounts, past, now, t)
    ensures var items := Summary.Past(accounts, balances, t);
            Summary.Assets(items) - Summary.Liabilities(items) == NetWorth(past.accounts, past.order) == TotalEarned(past.txs)
  {
    forall i | 0 <= i < |past.order| ensures TakenAsItWas(past, balances, accounts[i], past.order[i]) {
      AccountTaken(past, now, rows, balances, accounts, t, i);
    }
    BalancesInRange(past);
    PastIsThen(past, balances, accounts, t, |accounts|);
    assert accounts[..|accounts|] == accounts && past.order[..|past.order|] == past.order;
    Summary.SplitIsNetWorth(past, past.order);
    NetWorthIsEarnings(past);
  }

  /** The same over a run: the trend for the moment at which `before` was done, computed from the
      result of the query after `after`. */
  lemma RunTrendIsNetWorth(start: State, before: seq<Op>, after: seq<Op>, rows: seq<History.Row>,
                           snapshots: seq<Summary.Snapshot>, accounts: seq<Summary.AccountRow>, t: int)
    requires Inv(start)
    requires var past := Run(start, before); var now := Run(past, after);
             && AllSplit(past, rows, t) && Stamped(rows, now.logs)
             && QueryResult(snapshots, rows, t) && Describes(accounts, past, now, t)
    ensures var items := Summary.Past(accounts, Summary.Collected(snapshots), t);
            Summary.Assets(items) - Summary.Liabilities(items) == TotalEarned(Run(start, before).txs)
  {
    RunKeepsInv(start, before);
    RunKeepsInv(Run(start, before), after);
    CollectedIsQueried(snapshots, rows, t);
    TrendIsNetWorth(Run(start, before), Run(Run(start, before), after), rows, Summary.Collected(snapshots), accounts, t);
  }
}

/** Total assets and liabilities, now and at an earlier time, accumulated in exact-range amounts. */
module Summary {
  import opened Money
  import opened Optional
  import Ledger

  /** An account's type class and a balance of it. */
  datatype Item = Item(debt: bool, balance: Amount)

  datatype AccountRow = AccountRow(id: nat, debt: bool, initial: Amount, balance: Amount,
                                   created: Option<int>, deleted: Option<int>)

  /** `classifyAccountBalance` on amounts; an invalid balance has no sign and counts as nothing. */
  function Classify(item: Item): (Amount, Amount) {
    var positive := IsValid(item.balance) && item.balance.cents >= 0;
    if item.debt then if positive then (Exact(0), item.balance) else (Negate(item.balance), Exact(0))
    else if positive then (item.balance, Exact(0)) else (Exact(0), Negate(item.balance))
  }

  /** The exact totals that the accumulation is meant to compute. */
  function Assets(items: seq<Item>): nat {
    if items == [] then 0
    else
      var c := Cents(items[|items| - 1].balance) as int;
      Assets(items[..|items| - 1]) + if items[|items| - 1].debt then (if c < 0 then -c else 0) else (if c > 0 then c else 0)
  }

  function Liabilities(items: seq<Item>): nat {
    if items == [] then 0
    else
      var c := Cents(items[|items| - 1].balance) as int;
      Liabilities(items[..|items| - 1]) + if items[|items| - 1].debt then (if c > 0 then c else 0) else (if c < 0 then -c else 0)
  }

  /** A running total is exact until it first leaves the exact range. */
  ghost predicate Tracks(total: Amount, exact: nat) {
    && (total.Exact? ==> IsValid(total))
    && (exact <= MAX_EXACT as int ==> total == Exact(exact as int64))
  }

  lemma OneMoreItem(items: seq<Item>, item: Item, assets: Amount, liabilities: Amount)
    requires Tracks(assets, Assets(items)) && Tracks(liabilities, Liabilities(items))
    ensures Tracks(Add(assets, Classify(item).0), Assets(items + [item]))
    ensures Tracks(Add(liabilities, Classify(item).1), Liabilities(items + [item]))
  {
    assert (items + [item])[..|items|] == items;
  }

  /** What the loops make of a list of balances. */
  function Accumulated(items: seq<Item>): (Amount, Amount) {
    if items == [] then (Exact(0), Exact(0))
    else
      var (assets, liabilities) := Accumulated(items[..|items| - 1]);
      var (a, l) := Classify(items[|items| - 1]);
      (Add(assets, a), Add(liabilities, l))
  }

  lemma {:induction false} AccumulatedTracks(items: seq<Item>)
    ensures Tracks(Accumulated(items).0, Assets(items)) && Tracks(Accumulated(items).1, Liabilities(items))
  {
    if items != [] {
      var init, last := items[..|items| - 1], items[|items| - 1];
      AccumulatedTracks(init);
      OneMoreItem(init, last, Accumulated(init).0, Accumulated(init).1);
      assert items == init + [last];
    }
  }

  /** Whatever the balances and their order, a total shown is the exact total precisely if that is in
      the exact range: beyond it the accumulation ends invalid or, having forgotten that, too small. */
  lemma TotalIsRightIffInRange(items: seq<Item>)
    ensures Accumulated(items).0.Exact? && Accumulated(items).0.cents as int == Assets(items)
            <==> Assets(items) <= MAX_EXACT as int
    ensures Accumulated(items).1.Exact? && Accumulated(items).1.cents as int == Liabilities(items)
            <==> Liabilities(items) <= MAX_EXACT as int
  {
    AccumulatedTracks(items);
  }

  /** The largest exact balance, one cent and five: the summary shows five cents of assets. */
  lemma SummaryForgetsOverflow()
    ensures var items := [Item(false, Exact(MAX_EXACT)), Item(false, Exact(1)), Item(false, Exact(5))];
            Accumulated(items).0 == Exact(5) && Assets(items) == MAX_EXACT as int + 6
  {
    var items := [Item(false, Exact(MAX_EXACT)), Item(false, Exact(1)), Item(false, Exact(5))];
    assert items[..2] == [Item(false, Exact(MAX_EXACT)), Item(false, Exact(1))];
    assert items[..2][..1] == [Item(false, Exact(MAX_EXACT))] && items[..2][..1][..0] == [];
    assert Accumulated(items[..2][..1]).0 == Exact(MAX_EXACT);
    assert Accumulated(items[..2]).0 == Invalid;
    assert Assets(items[..2][..1]) == MAX_EXACT as int && Assets(items[..2]) == MAX_EXACT as int + 1;
    OverflowIsForgotten(Exact(MAX_EXACT), Exact(1), Exact(5));
  }

  /** Net worth is exact when both totals are. */
  lemma NetIsExact(assets: Amount, liabilities: Amount, a: nat, l: nat)
    requires Tracks(assets, a) && Tracks(liabilities, l) && a <= MAX_EXACT as int && l <= MAX_EXACT as int
    ensures IsValid(Sub(assets, liabilities)) && Sub(assets, liabilities).cents as int == a - l
  {
  }

  function Current(accounts: seq<AccountRow>): seq<Item> {
    seq(|accounts|, i requires 0 <= i < |accounts| => Item(accounts[i].debt, accounts[i].balance))
  }

  method GetSummary(accounts: seq<AccountRow>) returns (assets: Amount, liabilities: Amount, net: Amount)
    ensures (assets, liabilities) == Accumulated(Current(accounts))
    ensures Tracks(assets, Assets(Current(accounts))) && Tracks(liabilities, Liabilities(Current(accounts)))
    ensures net == Sub(assets, liabilities)
  {
    assets, liabilities := Exact(0), Exact(0);
    ghost var items := Current(accounts);
    for i := 0 to |accounts|
      invariant (assets, liabilities) == Accumulated(items[..i])
    {
      var acc := accounts[i];
      var (accountAssets, accountLiabilities) := Classify(Item(acc.debt, acc.balance));
      assert items[..i + 1][..i] == items[..i];
      assets := Add(assets, accountAssets);
      liabilities := Add(liabilities, accountLiabilities);
    }
    assert items[..|accounts|] == items;
    AccumulatedTracks(items);
    net := Sub(assets, liabilities);
  }

  /** The account existed at the time. */
  predicate ExistedAt(acc: AccountRow, at: int) {
    !(acc.created.Some? && acc.created.value > at) && !(acc.deleted.Some? && acc.deleted.value <= at)
  }

  /** The accounts that existed at the time, with the balance of their snapshot or else their
      initial balance. */
  function Past(accounts: seq<AccountRow>, balances: map<nat, Amount>, at: int): seq<Item> {
    if accounts == [] then []
    else
      var acc := accounts[|accounts| - 1];
      Past(accounts[..|accounts| - 1], balances, at)
      + if ExistedAt(acc, at) then [Item(acc.debt, if acc.id in balances then balances[acc.id] else acc.initial)] else []
  }

  /** An account counts exactly if it had been created by then and had not been deleted by then; one that
      was deleted later counts with the balance it had. */
  lemma PastCounts(accounts: seq<AccountRow>, acc: AccountRow, balances: map<nat, Amount>, at: int)
    ensures Past(accounts + [acc], balances, at)
            == Past(accounts, balances, at)
               + if (acc.created.None? || acc.created.value <= at) && (acc.deleted.None? || at < acc.deleted.value)
                 then [Item(acc.debt, if acc.id in balances then balances[acc.id] else acc.initial)] else []
  {
    assert (accounts + [acc])[..|accounts|] == accounts;
  }

  datatype Snapshot = Snapshot(id: nat, balance: Amount)

  /** The last snapshot of each account. */
  function Collected(snapshots: seq<Snapshot>): map<nat, Amount> {
    if snapshots == [] then map[]
    else
      var last := snapshots[|snapshots| - 1];
      Collected(snapshots[..|snapshots| - 1])[last.id := last.balance]
  }

  lemma {:induction false} CollectedFrom(snapshots: seq<Snapshot>, a: nat)
    ensures a in Collected(snapshots) <==> exists k :: 0 <= k < |snapshots| && snapshots[k].id == a
    ensures a in Collected(snapshots) ==> exists k :: 0 <= k < |snapshots| && snapshots[k] == Snapshot(a, Collected(snapshots)[a])
  {
    if snapshots != [] {
      var last := |snapshots| - 1;
      CollectedFrom(snapshots[..last], a);
      forall k | 0 <= k < last ensures snapshots[..last][k] == snapshots[k] {
      }
      assert snapshots[last].id == a ==> snapshots[last] == Snapshot(a, Collected(snapshots)[a]);
    }
  }

  /** `balancesFromAccountSnapshots`. */
  method BalancesFromAccountSnapshots(accounts: seq<AccountRow>, snapshots: seq<Snapshot>, at: int)
    returns (assets: Amount, debts: Amount)
    ensures Tracks(assets, Assets(Past(accounts, Collected(snapshots), at)))
    ensures Tracks(debts, Liabilities(Past(accounts, Collected(snapshots), at)))
  {
    var balances := map[];
    for i := 0 to |snapshots|
      invariant balances == Collected(snapshots[..i])
    {
      assert snapshots[..i + 1][..i] == snapshots[..i];
      balances := balances[snapshots[i].id := snapshots[i].balance];
    }
    assert snapshots[..|snapshots|] == snapshots;
    assets, debts := Exact(0), Exact(0);
    for i := 0 to |accounts|
      invariant Tracks(assets, Assets(Past(accounts[..i], balances, at)))
      invariant Tracks(debts, Liabilities(Past(accounts[..i], balances, at)))
    {
      var acc := accounts[i];
      assert accounts[..i + 1][..i] == accounts[..i];
      assert !ExistedAt(acc, at) ==> Past(accounts[..i + 1], balances, at) == Past(accounts[..i], balances, at);
      if acc.created.Some? && acc.created.value > at {
        continue;
      }
      if acc.deleted.Some? && !(acc.deleted.value > at) {
        continue;
      }
      var balance := acc.initial;
      if acc.id in balances {
        balance := balances[acc.id];
      }
      var (accountAssets, accountDebts) := Classify(Item(acc.debt, balance));
      OneMoreItem(Past(accounts[..i], balances, at), Item(acc.debt, balance), assets, debts);
      assets := Add(assets, accountAssets);
      debts := Add(debts, accountDebts);
    }
    assert accounts[..|accounts|] == accounts;
  }

  function Items(s: Ledger.State, order: seq<Ledger.AccountId>): seq<Item>
    requires forall a :: a in order ==> a in s.accounts && InRange(s.accounts[a].balance)
  {
    seq(|order|, i requires 0 <= i < |order| =>
      assert order[i] in order;
      var acc := s.accounts[order[i]];
      assert InRange(acc.balance);
      Item(acc.debt, Exact(acc.balance as int64)))
  }

  /** However balances are split into assets and liabilities, the difference is the net worth. */
  lemma {:induction false} SplitIsNetWorth(s: Ledger.State, order: seq<Ledger.AccountId>)
    requires forall a :: a in order ==> a in s.accounts && InRange(s.accounts[a].balance)
    ensures Assets(Items(s, order)) - Liabilities(Items(s, order)) == Ledger.NetWorth(s.accounts, order)
  {
    if order != [] {
      var init := order[..|order| - 1];
      assert order == init + [order[|order| - 1]];
      SplitIsNetWorth(s, init);
      assert Items(s, order)[..|order| - 1] == Items(s, init);
      assert order[|order| - 1] in order;
    }
  }

  /** For a ledger in good order the summary's totals differ by all income less all expense. */
  lemma SummaryIsEarnings(s: Ledger.State)
    requires Ledger.Inv(s)
    ensures forall a :: a in s.order ==> a in s.accounts && InRange(s.accounts[a].balance)
    ensures Assets(Items(s, s.order)) - Liabilities(Items(s, s.order)) == Ledger.TotalEarned(s.txs)
  {
    forall a | a in s.order ensures a in s.accounts && InRange(s.accounts[a].balance) {
      assert Ledger.BalanceOk(s, s.txs, a);
    }
    SplitIsNetWorth(s, s.order);
    Ledger.NetWorthIsEarnings(s);
  }
}

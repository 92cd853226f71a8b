/** Opening accounts and creating, editing and deleting transactions, each in one database transaction. */
module LedgerService {
  import opened Optional
  import opened Ledger
  import Money

  /** The system transaction that books an opening balance. */
  function Opening(a: AccountId, debt: bool, initial: int, date: int): Tx {
    var kind := if debt then (if initial > 0 then Expense else Income) else (if initial > 0 then Income else Expense);
    Tx(kind, a, None, if initial > 0 then initial else -initial, date, false, true, false)
  }

  /** A new account holds its opening balance, which is not logged; zero is not booked. */
  function Opened(s: State, a: AccountId, debt: bool, initial: int, date: int): State {
    State(s.accounts[a := Account(debt, initial, initial)], s.order + [a],
          if initial != 0 then s.txs + [Opening(a, debt, initial, date)] else s.txs, s.logs)
  }

  /** The state after a successful creation, or nothing if it fails. */
  function Created(s: State, t: Tx): Option<State> {
    var applied := Apply(s, t);
    if applied.None? then None else Some(applied.value.(txs := s.txs + [t]))
  }

  function Updated(s: State, i: nat, next: Tx): Option<State>
    requires i < |s.txs|
  {
    if s.txs[i].deleted || s.txs[i].system || s.txs[i].managed || !Lockable(s, s.txs[i]) || !Lockable(s, next) then None
    else
      var reverted := Revert(s, s.txs[i]);
      if reverted.None? then None
      else
        var applied := Apply(reverted.value, next);
        if applied.None? then None else Some(applied.value.(txs := s.txs[i := next]))
  }

  function Deleted(s: State, i: nat): Option<State>
    requires i < |s.txs|
  {
    if s.txs[i].deleted || s.txs[i].system then None
    else
      var reverted := Revert(s, s.txs[i]);
      if reverted.None? then None else Some(reverted.value.(txs := s.txs[i := s.txs[i].(deleted := true)]))
  }

  // ---- what each of them keeps ----

  lemma AppliedKeepsInv(s: State, s': State, txs: seq<Tx>)
    requires Inv(s) && SameBooks(s, s') && BalancesOk(s', txs) && Chained(s')
    requires forall i :: 0 <= i < |txs| ==> Refers(s.order, txs[i])
    ensures Inv(s'.(txs := txs))
  {
    var s'' := s'.(txs := txs);
    forall a | a in s''.accounts ensures BalanceOk(s'', txs, a) {
      assert BalanceOk(s', txs, a);
    }
    forall i | 0 <= i < |s''.logs| ensures ChainedAt(s''.accounts, s''.logs, i) {
      assert ChainedAt(s'.accounts, s'.logs, i);
    }
  }

  /** Net worth changes by the income or expense created; a transfer does not change it. */
  lemma CreateKeepsInv(s: State, t: Tx)
    requires Inv(s) && !t.deleted && Created(s, t).Some?
    ensures var s' := Created(s, t).value;
            Inv(s') && NetWorth(s'.accounts, s'.order) == NetWorth(s.accounts, s.order) + Earned(t)
  {
    var w := s.txs + [t];
    forall a ensures TotalCash(w, a) == TotalCash(s.txs, a) + Cash(t, a) {
      AppendedCash(s.txs, t, a);
    }
    ApplyMoves(s, t, s.txs, w);
    AppliedKeepsInv(s, Apply(s, t).value, w);
    NetWorthIsEarnings(s);
    NetWorthIsEarnings(Created(s, t).value);
    assert w[..|s.txs|] == s.txs;
  }

  lemma RevertedCash(txs: seq<Tx>, i: nat)
    requires i < |txs| && !txs[i].deleted
    ensures var w := txs[i := txs[i].(deleted := true)];
            forall a {:trigger TotalCash(w, a)} :: TotalCash(w, a) == TotalCash(txs, a) - Cash(txs[i], a)
  {
    var w := txs[i := txs[i].(deleted := true)];
    forall a ensures TotalCash(w, a) == TotalCash(txs, a) - Cash(txs[i], a) {
      ReplacedCash(txs, i, txs[i].(deleted := true), a);
    }
  }

  /** Deleting a transaction takes back what it did. */
  lemma DeleteKeepsInv(s: State, i: nat)
    requires Inv(s) && i < |s.txs| && Deleted(s, i).Some?
    ensures var s' := Deleted(s, i).value;
            Inv(s') && NetWorth(s'.accounts, s'.order) == NetWorth(s.accounts, s.order) - Earned(s.txs[i])
  {
    var t := s.txs[i];
    var w := s.txs[i := t.(deleted := true)];
    RevertedCash(s.txs, i);
    assert Refers(s.order, t);
    RevertMoves(s, t, s.txs, w);
    AppliedKeepsInv(s, Revert(s, t).value, w);
    NetWorthIsEarnings(s);
    NetWorthIsEarnings(Deleted(s, i).value);
    ReplacedEarned(s.txs, i, t.(deleted := true));
  }

  lemma EditedCash(txs: seq<Tx>, i: nat, next: Tx)
    requires i < |txs| && !txs[i].deleted
    ensures var v := txs[i := txs[i].(deleted := true)];
            var w := txs[i := next];
            forall a {:trigger TotalCash(w, a)} :: TotalCash(w, a) == TotalCash(v, a) + Cash(next, a)
  {
    var v := txs[i := txs[i].(deleted := true)];
    var w := txs[i := next];
    forall a ensures TotalCash(w, a) == TotalCash(v, a) + Cash(next, a) {
      ReplacedCash(txs, i, txs[i].(deleted := true), a);
      ReplacedCash(txs, i, next, a);
    }
  }

  /** Editing replaces one transaction's effect by another's, whatever accounts either names. */
  lemma UpdateKeepsInv(s: State, i: nat, next: Tx)
    requires Inv(s) && i < |s.txs| && !next.deleted && Updated(s, i, next).Some?
    ensures var s' := Updated(s, i, next).value;
            Inv(s') && NetWorth(s'.accounts, s'.order)
                    == NetWorth(s.accounts, s.order) - Earned(s.txs[i]) + Earned(next)
  {
    var t := s.txs[i];
    var v, w := s.txs[i := t.(deleted := true)], s.txs[i := next];
    RevertedCash(s.txs, i);
    EditedCash(s.txs, i, next);
    assert Refers(s.order, t);
    RevertMoves(s, t, s.txs, v);
    var s1 := Revert(s, t).value;
    ApplyMoves(s1, next, v, w);
    AppliedKeepsInv(s, Apply(s1, next).value, w);
    NetWorthIsEarnings(s);
    NetWorthIsEarnings(Updated(s, i, next).value);
    ReplacedEarned(s.txs, i, next);
  }

  lemma {:induction false} Unmentioned(order: seq<AccountId>, txs: seq<Tx>, a: AccountId)
    requires a !in order && forall i :: 0 <= i < |txs| ==> Refers(order, txs[i])
    ensures TotalCash(txs, a) == 0
  {
    if txs != [] {
      Unmentioned(order, txs[..|txs| - 1], a);
      assert Refers(order, txs[|txs| - 1]);
    }
  }

  lemma {:induction false} NoLogs(logs: seq<Log>, a: AccountId, initial: int)
    requires forall i :: 0 <= i < |logs| ==> logs[i].account != a
    ensures LastAfter(logs, a, initial) == initial
  {
    if logs != [] {
      NoLogs(logs[..|logs| - 1], a, initial);
    }
  }

  lemma OpenedBalances(s: State, a: AccountId, debt: bool, initial: int, date: int)
    requires Inv(s) && a !in s.accounts && Money.InRange(initial)
    ensures BalancesOk(Opened(s, a, debt, initial, date), Opened(s, a, debt, initial, date).txs)
  {
    var s' := Opened(s, a, debt, initial, date);
    var t := Opening(a, debt, initial, date);
    Unmentioned(s.order, s.txs, a);
    forall i | 0 <= i < |s.logs| ensures s.logs[i].account != a {
      assert ChainedAt(s.accounts, s.logs, i);
    }
    NoLogs(s.logs, a, initial);
    forall b | b in s'.accounts ensures BalanceOk(s', s'.txs, b) {
      AppendedCash(s.txs, t, b);
      if b != a {
        assert BalanceOk(s, s.txs, b);
      }
    }
  }

  lemma OpenedInv(s: State, a: AccountId, debt: bool, initial: int, date: int)
    requires Inv(s) && a !in s.accounts && Money.InRange(initial)
    ensures Inv(Opened(s, a, debt, initial, date))
  {
    var s' := Opened(s, a, debt, initial, date);
    OpenedBalances(s, a, debt, initial, date);
    forall i | 0 <= i < |s'.txs| ensures Refers(s'.order, s'.txs[i]) {
      if i < |s.txs| {
        assert Refers(s.order, s.txs[i]);
      }
    }
    forall i | 0 <= i < |s'.logs| ensures ChainedAt(s'.accounts, s'.logs, i) {
      assert ChainedAt(s.accounts, s.logs, i);
    }
  }

  /** An opening balance counts as income, what is owed at the start as expense. */
  lemma OpenKeepsInv(s: State, a: AccountId, debt: bool, initial: int, date: int)
    requires Inv(s) && a !in s.accounts && Money.InRange(initial)
    ensures var s' := Opened(s, a, debt, initial, date);
            Inv(s') && NetWorth(s'.accounts, s'.order) == NetWorth(s.accounts, s.order) + BalanceDelta(debt, initial)
  {
    var s' := Opened(s, a, debt, initial, date);
    OpenedInv(s, a, debt, initial, date);
    NetWorthIsEarnings(s);
    NetWorthIsEarnings(s');
    assert initial != 0 ==> s'.txs[..|s.txs|] == s.txs;
  }

  /** The balance aggregate over all time is the balance, so over a period it is the difference
      between the balances that the transactions dated up to its ends add up to; and the rows of
      all accounts, liabilities counted against, add up to income minus expense of the period. */
  lemma PeriodIsEarnings(s: State, from: int, to: int)
    requires Inv(s)
    ensures TotalCashOver(s.order, Within(s.txs, from, to)) == TotalEarned(Within(s.txs, from, to))
    ensures forall a :: a in s.accounts ==> BalanceDelta(s.accounts[a].debt, DeltaRow(s, a, from, to)) == TotalCash(Within(s.txs, from, to), a)
  {
    WithinFrom(s.txs, from, to);
    var part := Within(s.txs, from, to);
    forall i | 0 <= i < |part| ensures Refers(s.order, part[i]) {
      assert part[i] in s.txs;
    }
    CashFlowsAreEarnings(s.order, part);
  }

  lemma {:induction false} WithinAll(txs: seq<Tx>, from: int, to: int)
    requires forall i :: 0 <= i < |txs| ==> Dated(txs[i], from, to)
    ensures Within(txs, from, to) == txs
  {
    if txs != [] {
      WithinAll(txs[..|txs| - 1], from, to);
      assert txs == txs[..|txs| - 1] + [txs[|txs| - 1]];
    }
  }

  /** A period that contains every transaction gives each account's balance. */
  lemma AllTimeDeltaIsBalance(s: State, a: AccountId, from: int, to: int)
    requires Inv(s) && a in s.accounts && forall i :: 0 <= i < |s.txs| ==> Dated(s.txs[i], from, to)
    ensures DeltaRow(s, a, from, to) == s.accounts[a].balance
  {
    WithinAll(s.txs, from, to);
    assert BalanceOk(s, s.txs, a);
  }

  // ---- what each of them does, as a list of signed moves of cash ----

  /** Cash that comes to an account, or leaves it. */
  datatype Move = Move(account: AccountId, cash: int)

  function Moves(t: Tx): seq<Move> {
    match t.kind
    case Income => [Move(t.account, t.amount)]
    case Expense => [Move(t.account, -t.amount)]
    case Transfer => [Move(t.account, -t.amount)] + if t.to.Some? then [Move(t.to.value, t.amount)] else []
    case Unknown => []
  }

  function Backwards(moves: seq<Move>): seq<Move> {
    seq(|moves|, i requires 0 <= i < |moves| => Move(moves[i].account, -moves[i].cash))
  }

  /** Cash that comes to an account raises what it holds and lowers what it owes. */
  function Moved(acc: Account, cash: int): Account {
    acc.(balance := if acc.debt then acc.balance - cash else acc.balance + cash)
  }

  /** Every move finds its account, and no balance on the way leaves the exact range. */
  predicate Possible(accounts: map<AccountId, Account>, moves: seq<Move>)
    decreases |moves|
  {
    moves == [] ||
      (&& moves[0].account in accounts && Money.InRange(Moved(accounts[moves[0].account], moves[0].cash).balance)
       && Possible(accounts[moves[0].account := Moved(accounts[moves[0].account], moves[0].cash)], moves[1..]))
  }

  function Performed(accounts: map<AccountId, Account>, moves: seq<Move>): map<AccountId, Account>
    requires Possible(accounts, moves)
    decreases |moves|
  {
    if moves == [] then accounts
    else Performed(accounts[moves[0].account := Moved(accounts[moves[0].account], moves[0].cash)], moves[1..])
  }

  /** The accounts after a single move, and its row of the log. */
  lemma MutateMeans(s: State, a: AccountId, cash: int)
    ensures Mutate(s, a, cash).Some? <==> a in s.accounts && Money.InRange(Moved(s.accounts[a], cash).balance)
    ensures Mutate(s, a, cash).Some? ==>
              Mutate(s, a, cash).value
              == s.(accounts := s.accounts[a := Moved(s.accounts[a], cash)],
                    logs := s.logs + [Log(a, s.accounts[a].balance, Moved(s.accounts[a], cash).balance)])
  {
  }

  /** The accounts that a transaction names exist. */
  predicate Exist(s: State, t: Tx) {
    t.account in s.accounts && (t.kind == Transfer && t.to.Some? ==> t.to.value in s.accounts)
  }

  lemma TwoMoves(accounts: map<AccountId, Account>, a: AccountId, x: int, b: AccountId, y: int)
    requires a in accounts
    ensures var after := accounts[a := Moved(accounts[a], x)];
            && (Possible(accounts, [Move(a, x), Move(b, y)]) <==>
                  Money.InRange(Moved(accounts[a], x).balance) && b in after && Money.InRange(Moved(after[b], y).balance))
            && (Possible(accounts, [Move(a, x), Move(b, y)]) ==>
                  Performed(accounts, [Move(a, x), Move(b, y)]) == after[b := Moved(after[b], y)])
  {
    var moves := [Move(a, x), Move(b, y)];
    assert moves[0] == Move(a, x) && moves[1..] == [Move(b, y)];
    OneMove(accounts[a := Moved(accounts[a], x)], b, y);
  }

  lemma OneMove(accounts: map<AccountId, Account>, a: AccountId, x: int)
    ensures Possible(accounts, [Move(a, x)]) <==> a in accounts && Money.InRange(Moved(accounts[a], x).balance)
    ensures Possible(accounts, [Move(a, x)]) ==> Performed(accounts, [Move(a, x)]) == accounts[a := Moved(accounts[a], x)]
  {
    assert [Move(a, x)][1..] == [];
  }

  lemma ApplyPerforms(s: State, t: Tx)
    ensures Apply(s, t).Some? <==>
              Exist(s, t) && (t.kind == Transfer ==> t.to.Some?) && Possible(s.accounts, Moves(t))
    ensures Apply(s, t).Some? ==> Apply(s, t).value.accounts == Performed(s.accounts, Moves(t))
    ensures Apply(s, t).Some? ==> Apply(s, t).value.order == s.order && Apply(s, t).value.txs == s.txs
  {
    if Exist(s, t) {
      OneMove(s.accounts, t.account, t.amount);
      OneMove(s.accounts, t.account, -t.amount);
      if t.kind == Transfer && t.to.Some? {
        assert Moves(t) == [Move(t.account, -t.amount), Move(t.to.value, t.amount)];
        TwoMoves(s.accounts, t.account, -t.amount, t.to.value, t.amount);
      }
    }
  }

  lemma RevertPerforms(s: State, t: Tx)
    ensures Revert(s, t).Some? <==> Exist(s, t) && Possible(s.accounts, Backwards(Moves(t)))
    ensures Revert(s, t).Some? ==> Revert(s, t).value.accounts == Performed(s.accounts, Backwards(Moves(t)))
    ensures Revert(s, t).Some? ==> Revert(s, t).value.order == s.order && Revert(s, t).value.txs == s.txs
  {
    if Exist(s, t) {
      OneMove(s.accounts, t.account, t.amount);
      OneMove(s.accounts, t.account, -t.amount);
      match t.kind {
        case Income => assert Backwards(Moves(t)) == [Move(t.account, -t.amount)];
        case Expense => assert Backwards(Moves(t)) == [Move(t.account, t.amount)];
        case Transfer =>
          if t.to.Some? {
            assert Backwards(Moves(t)) == [Move(t.account, t.amount), Move(t.to.value, -t.amount)];
            TwoMoves(s.accounts, t.account, t.amount, t.to.value, -t.amount);
          } else {
            assert Backwards(Moves(t)) == [Move(t.account, t.amount)];
          }
        case Unknown => assert Backwards(Moves(t)) == [];
      }
    }
  }

  /** A transaction is created exactly if its accounts exist and its moves are possible, and then it is
      listed and they have been made. */
  lemma CreatedMeans(s: State, t: Tx)
    ensures Created(s, t).Some? <==>
              Exist(s, t) && (t.kind == Transfer ==> t.to.Some?) && Possible(s.accounts, Moves(t))
    ensures Created(s, t).Some? ==>
              var s' := Created(s, t).value;
              s'.accounts == Performed(s.accounts, Moves(t)) && s'.txs == s.txs + [t] && s'.order == s.order
  {
    ApplyPerforms(s, t);
  }

  /** A transaction is deleted exactly if it is neither deleted nor an opening balance, its accounts exist
      and its moves can be made backwards, and then it is marked and they have been. */
  lemma DeletedMeans(s: State, i: nat)
    requires i < |s.txs|
    ensures var t := s.txs[i];
            Deleted(s, i).Some? <==> !t.deleted && !t.system && Exist(s, t) && Possible(s.accounts, Backwards(Moves(t)))
    ensures Deleted(s, i).Some? ==>
              var s' := Deleted(s, i).value; var t := s.txs[i];
              && s'.accounts == Performed(s.accounts, Backwards(Moves(t)))
              && s'.txs == s.txs[i := t.(deleted := true)] && s'.order == s.order
  {
    RevertPerforms(s, s.txs[i]);
  }

  /** A transaction is edited exactly if it is neither deleted, an opening balance nor a loan's, the accounts
      of both versions exist, and the old moves can be made backwards and then the new ones. */
  lemma UpdatedMeans(s: State, i: nat, next: Tx)
    requires i < |s.txs|
    ensures var t := s.txs[i];
            Updated(s, i, next).Some? <==>
              && !t.deleted && !t.system && !t.managed && Exist(s, t) && Exist(s, next)
              && (next.kind == Transfer ==> next.to.Some?)
              && Possible(s.accounts, Backwards(Moves(t)))
              && Possible(Performed(s.accounts, Backwards(Moves(t))), Moves(next))
    ensures Updated(s, i, next).Some? ==>
              var s' := Updated(s, i, next).value; var t := s.txs[i];
              && s'.accounts == Performed(Performed(s.accounts, Backwards(Moves(t))), Moves(next))
              && s'.txs == s.txs[i := next] && s'.order == s.order
  {
    RevertPerforms(s, s.txs[i]);
    if Revert(s, s.txs[i]).Some? {
      ApplyPerforms(Revert(s, s.txs[i]).value, next);
      RevertKeepsAccounts(s, s.txs[i]);
    }
  }

  lemma RevertKeepsAccounts(s: State, t: Tx)
    requires Revert(s, t).Some?
    ensures Revert(s, t).value.accounts.Keys == s.accounts.Keys
  {
  }

  /** A new account holds its opening balance, which counts as income if it adds to what the user is worth
      and as expense if it takes from it. */
  lemma OpenedMeans(s: State, a: AccountId, debt: bool, initial: int, date: int)
    ensures var s' := Opened(s, a, debt, initial, date);
            && s'.accounts == s.accounts[a := Account(debt, initial, initial)] && s'.order == s.order + [a] && s'.logs == s.logs
            && (initial == 0 ==> s'.txs == s.txs)
            && (initial != 0 ==> exists t: Tx ::
                  && s'.txs == s.txs + [t] && t.system && !t.deleted && t.account == a && t.date == date && t.amount > 0
                  && (if (initial > 0) == debt then t.kind == Expense else t.kind == Income)
                  && t.amount == if initial > 0 then initial else -initial)
  {
    assert initial != 0 ==> Opened(s, a, debt, initial, date).txs == s.txs + [Opening(a, debt, initial, date)];
  }

  // ---- the service ----

  class LedgerStore {
    var accounts: map<AccountId, Account>
    var order: seq<AccountId>
    var txs: seq<Tx>
    var logs: seq<Log>

    ghost function Now(): State
      reads this
    {
      State(accounts, order, txs, logs)
    }

    constructor ()
      ensures Inv(Now()) && accounts == map[] && txs == []
    {
      accounts, order, txs, logs := map[], [], [], [];
    }

    /** `Create` of the account service. */
    method OpenAccount(a: AccountId, debt: bool, initial: int, date: int)
      requires Inv(Now()) && a !in accounts && Money.InRange(initial)
      modifies this
      ensures Inv(Now()) && Now() == Opened(old(Now()), a, debt, initial, date)
    {
      OpenKeepsInv(Now(), a, debt, initial, date);
      accounts, order := accounts[a := Account(debt, initial, initial)], order + [a];
      if initial != 0 {
        txs := txs + [Opening(a, debt, initial, date)];
      }
    }

    /** Logs the change of one balance and makes it. */
    method MutateBalance(a: AccountId, cash: int) returns (ok: bool)
      modifies `accounts, `logs
      ensures ok <==> Mutate(old(Now()), a, cash).Some?
      ensures Now() == if ok then Mutate(old(Now()), a, cash).value else old(Now())
    {
      if a !in accounts {
        return false;
      }
      var before := accounts[a].balance;
      var after := before + BalanceDelta(accounts[a].debt, cash);
      if !Money.InRange(after) {
        return false;
      }
      logs := logs + [Log(a, before, after)];
      accounts := accounts[a := accounts[a].(balance := after)];
      ok := true;
    }

    predicate CanLock(t: Tx)
      reads this
    {
      t.account in accounts && (t.kind == Transfer && t.to.Some? ==> t.to.value in accounts)
    }

    /** On failure the caller rolls the whole database transaction back. */
    method ApplyBalanceChanges(t: Tx) returns (ok: bool)
      modifies `accounts, `logs
      ensures ok <==> Apply(old(Now()), t).Some?
      ensures ok ==> Now() == Apply(old(Now()), t).value
    {
      if !CanLock(t) {
        return false;
      }
      match t.kind {
        case Expense => ok := MutateBalance(t.account, -t.amount);
        case Income => ok := MutateBalance(t.account, t.amount);
        case Transfer =>
          if t.to.None? {
            return false;
          }
          ok := MutateBalance(t.account, -t.amount);
          if ok {
            ok := MutateBalance(t.to.value, t.amount);
          }
        case Unknown => ok := true;
      }
    }

    method RevertBalanceChanges(t: Tx) returns (ok: bool)
      modifies `accounts, `logs
      ensures ok <==> Revert(old(Now()), t).Some?
      ensures ok ==> Now() == Revert(old(Now()), t).value
    {
      if !CanLock(t) {
        return false;
      }
      match t.kind {
        case Expense => ok := MutateBalance(t.account, t.amount);
        case Income => ok := MutateBalance(t.account, -t.amount);
        case Transfer =>
          ok := MutateBalance(t.account, t.amount);
          if ok && t.to.Some? {
            ok := MutateBalance(t.to.value, -t.amount);
          }
        case Unknown => ok := true;
      }
    }

    method Create(t: Tx) returns (ok: bool)
      requires Inv(Now()) && !t.deleted
      modifies this
      ensures Inv(Now()) && (ok <==> Created(old(Now()), t).Some?)
      ensures Now() == if ok then Created(old(Now()), t).value else old(Now())
    {
      var accounts0, logs0 := accounts, logs;
      ok := ApplyBalanceChanges(t);
      if ok {
        CreateKeepsInv(old(Now()), t);
        txs := txs + [t];
      } else {
        accounts, logs := accounts0, logs0;
      }
    }

    method Update(i: nat, next: Tx) returns (ok: bool)
      requires Inv(Now()) && i < |txs| && !next.deleted
      modifies this
      ensures Inv(Now()) && (ok <==> Updated(old(Now()), i, next).Some?)
      ensures Now() == if ok then Updated(old(Now()), i, next).value else old(Now())
    {
      if txs[i].deleted || txs[i].system || txs[i].managed || !CanLock(txs[i]) || !CanLock(next) {
        return false;
      }
      var accounts0, logs0 := accounts, logs;
      ok := RevertBalanceChanges(txs[i]);
      if ok {
        ok := ApplyBalanceChanges(next);
      }
      if ok {
        UpdateKeepsInv(old(Now()), i, next);
        txs := txs[i := next];
      } else {
        accounts, logs := accounts0, logs0;
      }
    }

    method Delete(i: nat) returns (ok: bool)
      requires Inv(Now()) && i < |txs|
      modifies this
      ensures Inv(Now()) && (ok <==> Deleted(old(Now()), i).Some?)
      ensures Now() == if ok then Deleted(old(Now()), i).value else old(Now())
    {
      if txs[i].deleted || txs[i].system {
        return false;
      }
      var accounts0, logs0 := accounts, logs;
      ok := RevertBalanceChanges(txs[i]);
      if ok {
        DeleteKeepsInv(old(Now()), i);
        txs := txs[i := txs[i].(deleted := true)];
      } else {
        accounts, logs := accounts0, logs0;
      }
    }
  }
}

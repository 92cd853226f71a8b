/** The balance of an account at an earlier time, read from the log of balance changes. */
module History {
  import opened Optional

  /** One row of the log; rows are listed in the order in which they were written. */
  datatype Row = Row(account: nat, before: int, after: int, time: int, id: nat)

  predicate Of(logs: seq<Row>, i: int, a: nat) {
    0 <= i < |logs| && logs[i].account == a
  }

  /** Row `n` counts as newer than row `l`: a later time, or the same time and a greater id. */
  predicate Newer(n: Row, l: Row) {
    n.time > l.time || (n.time == l.time && n.id > l.id)
  }

  /** The query selects row `i`: it was written by time `t`, and by then no newer row of its account. */
  ghost predicate Selected(logs: seq<Row>, i: int, t: int) {
    && 0 <= i < |logs| && logs[i].time <= t
    && !exists j :: Of(logs, j, logs[i].account) && logs[j].time <= t && Newer(logs[j], logs[i])
  }

  /** What the account's last row written by time `t` ends with. */
  function Latest(logs: seq<Row>, a: nat, t: int, initial: int): int {
    if logs == [] then initial
    else
      var last := logs[|logs| - 1];
      if last.account == a && last.time <= t then last.after
      else Latest(logs[..|logs| - 1], a, t, initial)
  }

  /** The balance after replaying the changes of the account made by time `t`: each row's change is
      added to what the initial balance has become. */
  function Replayed(logs: seq<Row>, a: nat, t: int, initial: int): int {
    if logs == [] then initial
    else
      var last := logs[|logs| - 1];
      Replayed(logs[..|logs| - 1], a, t, initial) + if last.account == a && last.time <= t then last.after - last.before else 0
  }

  /** What the account's last row of all ends with. */
  function Ended(logs: seq<Row>, a: nat, initial: int): int {
    if logs == [] then initial
    else if logs[|logs| - 1].account == a then logs[|logs| - 1].after
    else Ended(logs[..|logs| - 1], a, initial)
  }

  /** Each of the account's rows starts from the balance its previous row ended with. */
  ghost predicate Chained(logs: seq<Row>, a: nat, initial: int) {
    forall i {:trigger Of(logs, i, a)} :: Of(logs, i, a) ==> logs[i].before == Ended(logs[..i], a, initial)
  }

  /** Along the chain, replaying the changes made by `t` leads to the last of them, and at a time
      after all of them to where the log ends. */
  lemma {:induction false} ReplayFollowsChain(logs: seq<Row>, a: nat, t: int, initial: int)
    requires Chained(logs, a, initial)
    requires forall i, j :: i < j && Of(logs, i, a) && Of(logs, j, a) ==> logs[i].time <= logs[j].time
    ensures Replayed(logs, a, t, initial) == Latest(logs, a, t, initial)
    ensures (forall i :: Of(logs, i, a) ==> logs[i].time <= t) ==> Latest(logs, a, t, initial) == Ended(logs, a, initial)
  {
    if logs != [] {
      var k := |logs| - 1;
      var init := logs[..k];
      forall i ensures Of(init, i, a) ==> Of(logs, i, a) && init[..i] == logs[..i] {
      }
      ReplayFollowsChain(init, a, t, initial);
      if logs[k].account == a {
        assert Of(logs, k, a);
      }
    }
  }

  /** Row `i` is the last change of the account made by time `t`. */
  ghost predicate LastBy(logs: seq<Row>, i: int, a: nat, t: int) {
    && Of(logs, i, a) && logs[i].time <= t
    && forall j :: i < j && Of(logs, j, a) ==> logs[j].time > t
  }

  lemma {:induction false} LatestIsLast(logs: seq<Row>, a: nat, t: int, initial: int)
    ensures forall i :: LastBy(logs, i, a, t) ==> Latest(logs, a, t, initial) == logs[i].after
    ensures (exists i :: LastBy(logs, i, a, t)) <==> (exists i :: Of(logs, i, a) && logs[i].time <= t)
    ensures (forall i :: Of(logs, i, a) ==> logs[i].time > t) ==> Latest(logs, a, t, initial) == initial
  {
    if logs != [] {
      var k := |logs| - 1;
      var init := logs[..k];
      LatestIsLast(init, a, t, initial);
      if logs[k].account == a && logs[k].time <= t {
        assert LastBy(logs, k, a, t);
      } else {
        forall i ensures LastBy(logs, i, a, t) <==> LastBy(init, i, a, t) {
          forall j ensures i < j && Of(logs, j, a) && logs[j].time <= t <==> i < j && Of(init, j, a) && init[j].time <= t {
          }
          assert LastBy(init, i, a, t) ==> forall j :: i < j && Of(logs, j, a) ==> logs[j].time > t;
        }
        forall i ensures Of(logs, i, a) && logs[i].time <= t <==> Of(init, i, a) && init[i].time <= t {
        }
      }
    }
  }

  /** The account's log times never go back, and its rows have different ids. */
  ghost predicate Timed(logs: seq<Row>, a: nat) {
    forall i, j :: i < j && Of(logs, i, a) && Of(logs, j, a) ==> logs[i].time <= logs[j].time && logs[i].id != logs[j].id
  }

  /** Of the account's rows with one time, the last one written has the greatest id. */
  ghost predicate TiesInOrder(logs: seq<Row>, a: nat) {
    forall i, j :: i < j && Of(logs, i, a) && Of(logs, j, a) && LastBy(logs, j, a, logs[j].time) && logs[i].time == logs[j].time ==>
      logs[i].id < logs[j].id
  }

  /** At every time the query selects for the account exactly its last change made by then. */
  ghost predicate QueryReplays(logs: seq<Row>, a: nat) {
    forall i, t :: Of(logs, i, a) ==> (Selected(logs, i, t) <==> LastBy(logs, i, a, t))
  }

  lemma LastIsSelected(logs: seq<Row>, a: nat, i: int, t: int)
    requires Timed(logs, a) && TiesInOrder(logs, a) && LastBy(logs, i, a, t)
    ensures Selected(logs, i, t)
  {
    forall j | Of(logs, j, a) && logs[j].time <= t ensures !Newer(logs[j], logs[i]) {
      if j < i && logs[j].time == logs[i].time {
        forall k | i < k && Of(logs, k, a) ensures logs[k].time > logs[i].time {
        }
        assert LastBy(logs, i, a, logs[i].time);
      }
    }
  }

  lemma SelectedIsLast(logs: seq<Row>, a: nat, i: int, t: int)
    requires Timed(logs, a) && TiesInOrder(logs, a) && Of(logs, i, a) && Selected(logs, i, t)
    ensures LastBy(logs, i, a, t)
  {
    LatestIsLast(logs, a, t, 0);
    var l :| LastBy(logs, l, a, t);
    LastIsSelected(logs, a, l, t);
    OneSelected(logs, a, i, l, t);
  }

  /** No two rows of an account are both selected. */
  lemma OneSelected(logs: seq<Row>, a: nat, i: int, l: int, t: int)
    requires Timed(logs, a) && Of(logs, i, a) && Of(logs, l, a) && Selected(logs, i, t) && Selected(logs, l, t)
    ensures i == l
  {
    assert !Newer(logs[l], logs[i]) && !Newer(logs[i], logs[l]);
  }

  lemma QueryNeedsTies(logs: seq<Row>, a: nat)
    requires Timed(logs, a) && QueryReplays(logs, a)
    ensures TiesInOrder(logs, a)
  {
    forall i, j | i < j && Of(logs, i, a) && Of(logs, j, a) && LastBy(logs, j, a, logs[j].time) && logs[i].time == logs[j].time
      ensures logs[i].id < logs[j].id
    {
      assert Selected(logs, j, logs[j].time);
      assert !Newer(logs[i], logs[j]);
    }
  }

  /** The query is right at every time exactly if, among changes of the account logged with the
      same time, the last has the greatest id.  Ids are random, so this is left to chance unless
      the times of the account's changes differ. */
  lemma QueryIsRightIffTiesInOrder(logs: seq<Row>, a: nat)
    requires Timed(logs, a)
    ensures QueryReplays(logs, a) <==> TiesInOrder(logs, a)
  {
    if TiesInOrder(logs, a) {
      forall i, t | Of(logs, i, a) ensures Selected(logs, i, t) <==> LastBy(logs, i, a, t) {
        if LastBy(logs, i, a, t) {
          LastIsSelected(logs, a, i, t);
        } else if Selected(logs, i, t) {
          SelectedIsLast(logs, a, i, t);
        }
      }
    } else if QueryReplays(logs, a) {
      QueryNeedsTies(logs, a);
    }
  }

  /** What the trend uses for an account: a selected row's balance, else the initial balance. */
  ghost predicate BalanceRead(logs: seq<Row>, a: nat, t: int, initial: int, balance: int) {
    if exists i :: Of(logs, i, a) && Selected(logs, i, t)
    then exists i :: Of(logs, i, a) && Selected(logs, i, t) && logs[i].after == balance
    else balance == initial
  }

  /** While the account's times never go back, and its ties are in order, which they are if its times
      strictly increase, the balance read is the one obtained by replaying all changes up to that
      time along the chain of the log, and nothing else can be read. */
  lemma BalanceReadIsReplayed(logs: seq<Row>, a: nat, t: int, initial: int, balance: int)
    requires Chained(logs, a, initial)
    requires Timed(logs, a) && TiesInOrder(logs, a)
    ensures BalanceRead(logs, a, t, initial, balance) <==> balance == Replayed(logs, a, t, initial)
  {
    ReplayFollowsChain(logs, a, t, initial);
    LatestIsLast(logs, a, t, initial);
    if l :| LastBy(logs, l, a, t) {
      LastIsSelected(logs, a, l, t);
      forall i | Of(logs, i, a) && Selected(logs, i, t) ensures i == l {
        OneSelected(logs, a, i, l, t);
      }
    }
  }

  /** Two changes logged at one time, the later with the smaller id: the query returns the balance
      before the last change. */
  lemma TieGoesWrong()
    ensures var logs := [Row(1, 0, 100, 7, 5), Row(1, 100, 60, 7, 4)];
            Selected(logs, 0, 7) && !Selected(logs, 1, 7) && Replayed(logs, 1, 7, 0) == 60
  {
    var logs := [Row(1, 0, 100, 7, 5), Row(1, 100, 60, 7, 4)];
    assert Of(logs, 0, 1) && Newer(logs[0], logs[1]);
    assert logs[..1] == [Row(1, 0, 100, 7, 5)];
  }
}

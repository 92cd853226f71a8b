/** Lists of request times, filtered by a window, against the full history they summarise. */
module SlidingWindow {

  ghost predicate Ascending(s: seq<int>) {
    forall i, j :: 0 <= i < j < |s| ==> s[i] <= s[j]
  }

  /** The times less than `window` before `now`. */
  function Recent(s: seq<int>, now: int, window: int): (r: seq<int>)
    ensures |r| <= |s|
  {
    if s == [] then []
    else (if now - s[0] < window then [s[0]] else []) + Recent(s[1..], now, window)
  }

  lemma {:induction false} RecentAppended(s: seq<int>, t: int, now: int, window: int)
    ensures Recent(s + [t], now, window) == Recent(s, now, window) + if now - t < window then [t] else []
  {
    if s == [] {
      assert s + [t] == [t];
      assert Recent([t][1..], now, window) == [];
    } else {
      assert (s + [t])[1..] == s[1..] + [t];
      RecentAppended(s[1..], t, now, window);
    }
  }

  /** Of an ascending list something is kept exactly if its last time is in the window, and then that
      time is the last kept. */
  lemma {:induction false} LastDecides(s: seq<int>, now: int, window: int)
    requires s != [] && Ascending(s)
    ensures var r := Recent(s, now, window); var last := s[|s| - 1];
            (r != [] <==> now - last < window) && (r != [] ==> r[|r| - 1] == last)
  {
    if |s| > 1 {
      LastDecides(s[1..], now, window);
      assert s[1..][|s| - 2] == s[|s| - 1];
    } else {
      assert s[1..] == [];
    }
  }

  /** The loop that rebuilds a list without the times outside the window. */
  method Prune(s: seq<int>, now: int, window: int) returns (valid: seq<int>)
    ensures valid == Recent(s, now, window)
  {
    valid := [];
    for i := 0 to |s|
      invariant valid == Recent(s[..i], now, window)
    {
      RecentAppended(s[..i], s[i], now, window);
      assert s[..i + 1] == s[..i] + [s[i]];
      if now - s[i] < window {
        valid := valid + [s[i]];
      }
    }
    assert s[..|s|] == s;
  }

  /** `list` is the end of `history`, and all that is missing lies outside the window at `now`. */
  ghost predicate Covers(list: seq<int>, history: seq<int>, now: int, window: int) {
    && Ascending(history)
    && |list| <= |history| && list == history[|history| - |list|..]
    && (forall i :: 0 <= i < |history| - |list| ==> now - history[i] >= window)
    && (forall i :: 0 <= i < |history| ==> history[i] <= now)
  }

  /** Any `max + 1` consecutive requests of the history span at least one window. */
  ghost predicate Spaced(history: seq<int>, max: nat, window: int) {
    forall i :: 0 <= i < |history| - max ==> history[i + max] - history[i] >= window
  }

  lemma {:induction false} AllRecent(s: seq<int>, now: int, window: int)
    requires forall i :: 0 <= i < |s| ==> now - s[i] < window
    ensures Recent(s, now, window) == s
  {
    if s != [] {
      AllRecent(s[1..], now, window);
    }
  }

  /** In an ascending list the recent times are its end, and everything before it is old. */
  lemma AllRecentFrom(s: seq<int>, now: int, window: int)
    requires s != [] && Ascending(s) && now - s[0] < window
    ensures Recent(s, now, window) == s
  {
    forall i | 0 <= i < |s| ensures now - s[i] < window {
      assert i > 0 ==> s[0] <= s[i];
    }
    AllRecent(s, now, window);
  }

  lemma {:induction false} RecentIsSuffix(s: seq<int>, now: int, window: int)
    requires Ascending(s)
    ensures var k := |s| - |Recent(s, now, window)|;
            Recent(s, now, window) == s[k..] && forall i :: 0 <= i < k ==> now - s[i] >= window
  {
    if s != [] && now - s[0] < window {
      AllRecentFrom(s, now, window);
    } else if s != [] {
      var rest := s[1..];
      RecentIsSuffix(rest, now, window);
      var k := |rest| - |Recent(rest, now, window)|;
      assert Recent(s, now, window) == Recent(rest, now, window) == rest[k..] == s[k + 1..];
      forall i | 0 < i < k + 1 ensures now - s[i] >= window {
        assert s[i] == rest[i - 1];
      }
    }
  }

  lemma {:induction false} RecentSkipsOld(s: seq<int>, k: nat, now: int, window: int)
    requires k <= |s| && forall i :: 0 <= i < k ==> now - s[i] >= window
    ensures Recent(s[k..], now, window) == Recent(s, now, window)
  {
    if k > 0 {
      assert s[1..][k - 1..] == s[k..];
      RecentSkipsOld(s[1..], k - 1, now, window);
    }
  }

  /** The passing of time alone spoils nothing. */
  lemma CoversLater(list: seq<int>, history: seq<int>, before: int, now: int, window: int)
    requires Covers(list, history, before, window) && before <= now
    ensures Covers(list, history, now, window)
  {
    forall i | 0 <= i < |history| - |list| ensures now - history[i] >= window {
      assert before - history[i] >= window;
    }
  }

  /** Filtering any list that covers the history at an earlier time gives its recent part. */
  lemma PruneCovers(list: seq<int>, history: seq<int>, before: int, now: int, window: int)
    requires Covers(list, history, before, window) && before <= now
    ensures Recent(list, now, window) == Recent(history, now, window)
    ensures Covers(Recent(list, now, window), history, now, window)
  {
    CoversLater(list, history, before, now, window);
    RecentSkipsOld(history, |history| - |list|, now, window);
    RecentIsSuffix(history, now, window);
  }

  /** A request let through while fewer than `max` are in the window keeps the history spaced. */
  lemma AppendKeepsSpaced(list: seq<int>, history: seq<int>, now: int, max: nat, window: int)
    requires Covers(list, history, now, window) && |list| < max && Spaced(history, max, window)
    ensures Covers(list + [now], history + [now], now, window) && Spaced(history + [now], max, window)
  {
    var h := history + [now];
    assert (list + [now]) == h[|h| - |list + [now]|..];
    forall i | 0 <= i < |h| - max ensures h[i + max] - h[i] >= window {
      if i + max < |history| {
        assert history[i + max] - history[i] >= window;
      } else {
        assert h[i] == history[i] && i < |history| - |list|;
      }
    }
  }

  /** In a spaced history no window of the given length, wherever it starts, holds more than `max`
      requests: its `max + 1` requests from index `i` on do not all fall into it. */
  lemma NoWindowExceeds(history: seq<int>, max: nat, window: int, start: int, i: nat)
    requires Ascending(history) && Spaced(history, max, window) && i + max < |history|
    ensures !(forall j :: i <= j <= i + max ==> start <= history[j] < start + window)
  {
    assert history[i + max] - history[i] >= window;
  }
}

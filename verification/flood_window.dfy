/** The sliding-window flood check of `UserState` (`log_msg`, `_refresh_timestamps`,
    `is_flooding`) on integer timestamps. The clock reading `now`, the detection window
    and the messages-per-second rate are explicit parameters. */
module FloodWindow {

  /** `a` can be obtained from `b` by deleting elements (order is kept). */
  predicate IsSubsequence(a: seq<int>, b: seq<int>)
    decreases |b|
  {
    |a| == 0 || (|b| > 0 && ((a[0] == b[0] && IsSubsequence(a[1..], b[1..])) || IsSubsequence(a, b[1..])))
  }

  /** `_refresh_timestamps(now)`: keep the timestamps still inside the window. */
  function Refresh(timestamps: seq<int>, now: int, window: int): (kept: seq<int>)
    ensures |kept| <= |timestamps|
    ensures forall i :: 0 <= i < |kept| ==> kept[i] + window > now
    ensures forall t :: multiset(kept)[t] == if t + window > now then multiset(timestamps)[t] else 0
    ensures IsSubsequence(kept, timestamps)
    decreases |timestamps|
  {
    if |timestamps| == 0 then []
    else
      var t, rest := timestamps[0], Refresh(timestamps[1..], now, window);
      assert multiset(timestamps) == multiset{t} + multiset(timestamps[1..]) by {
        assert timestamps == [t] + timestamps[1..];
      }
      if t + window > now then
        assert ([t] + rest)[1..] == rest;
        [t] + rest
      else
        rest
  }

  /** `log_msg(now)`: drop stale timestamps, then record the new message. */
  function LogMsg(timestamps: seq<int>, now: int, window: int): (r: seq<int>)
    ensures |r| >= 1 && r[|r| - 1] == now
    ensures |r| <= |timestamps| + 1
    ensures forall i :: 0 <= i < |r| - 1 ==> r[i] + window > now
    ensures IsSubsequence(r[..|r| - 1], timestamps)
    ensures r[..|r| - 1] == Refresh(timestamps, now, window)
  {
    var kept := Refresh(timestamps, now, window);
    assert (kept + [now])[..|kept|] == kept;
    kept + [now]
  }

  /** The verdict of `is_flooding` and the pruned timestamps it leaves behind. */
  datatype FloodCheck = FloodCheck(flooding: bool, timestamps: seq<int>)

  /** `is_flooding`: prune, then compare the count with rate * window. */
  function IsFlooding(timestamps: seq<int>, now: int, window: int, rate: int): (r: FloodCheck)
    ensures IsSubsequence(r.timestamps, timestamps)
    ensures forall i :: 0 <= i < |r.timestamps| ==> r.timestamps[i] + window > now
    ensures r.flooding <==> |r.timestamps| > rate * window
    ensures r.timestamps == Refresh(timestamps, now, window)
  {
    var kept := Refresh(timestamps, now, window);
    FloodCheck(|kept| > rate * window, kept)
  }

  /** Messages logged one after the other at the given clock readings. */
  function LogAll(timestamps: seq<int>, times: seq<int>, window: int): (r: seq<int>)
    decreases |times|
  {
    if |times| == 0 then timestamps else LogAll(LogMsg(timestamps, times[0], window), times[1..], window)
  }

  /** Pruning distributes over concatenation. */
  lemma {:induction false} RefreshAppend(a: seq<int>, b: seq<int>, now: int, window: int)
    ensures Refresh(a + b, now, window) == Refresh(a, now, window) + Refresh(b, now, window)
    decreases |a|
  {
    if |a| == 0 {
      assert a + b == b;
    } else {
      assert (a + b)[1..] == a[1..] + b;
      RefreshAppend(a[1..], b, now, window);
    }
  }

  /** Pruning at `earlier` and then at `later` is pruning at `later` alone. */
  lemma {:induction false} RefreshLater(timestamps: seq<int>, earlier: int, later: int, window: int)
    requires earlier <= later
    ensures Refresh(Refresh(timestamps, earlier, window), later, window) == Refresh(timestamps, later, window)
    decreases |timestamps|
  {
    if |timestamps| > 0 {
      var t := timestamps[0];
      RefreshLater(timestamps[1..], earlier, later, window);
      if t + window > earlier {
        var rest := Refresh(timestamps[1..], earlier, window);
        assert Refresh(timestamps, earlier, window) == [t] + rest;
        assert ([t] + rest)[1..] == rest;
      }
    }
  }

  /** Refreshing twice with the same clock reading is refreshing once. */
  lemma RefreshIdempotent(timestamps: seq<int>, now: int, window: int)
    ensures Refresh(Refresh(timestamps, now, window), now, window) == Refresh(timestamps, now, window)
  {
    RefreshLater(timestamps, now, now, window);
  }

  /** A list whose every timestamp is inside the window is kept whole. */
  lemma {:induction false} RefreshKeepsRecent(timestamps: seq<int>, now: int, window: int)
    requires forall i :: 0 <= i < |timestamps| ==> timestamps[i] + window > now
    ensures Refresh(timestamps, now, window) == timestamps
    decreases |timestamps|
  {
    if |timestamps| > 0 {
      RefreshKeepsRecent(timestamps[1..], now, window);
    }
  }

  /** Logging prunes only what a later check would prune anyway: the window seen at
      `now` after a run of messages is the window over the whole history. */
  lemma {:induction false} LogAllWindow(timestamps: seq<int>, times: seq<int>, now: int, window: int)
    requires forall i :: 0 <= i < |times| ==> times[i] <= now
    ensures Refresh(LogAll(timestamps, times, window), now, window) == Refresh(timestamps + times, now, window)
    decreases |times|
  {
    if |times| > 0 {
      var t, rest := times[0], times[1..];
      var logged := LogMsg(timestamps, t, window);
      LogAllWindow(logged, rest, now, window);
      assert LogAll(timestamps, times, window) == LogAll(logged, rest, window);
      LogStepWindow(timestamps, t, rest, now, window);
      assert [t] + rest == times;
    } else {
      assert timestamps + times == timestamps;
    }
  }

  /** One step of `LogAllWindow`: logging a message at `t` before the rest of the run
      prunes nothing that pruning at a later `now` would keep. */
  lemma LogStepWindow(timestamps: seq<int>, t: int, rest: seq<int>, now: int, window: int)
    requires t <= now
    ensures Refresh(LogMsg(timestamps, t, window) + rest, now, window) == Refresh(timestamps + ([t] + rest), now, window)
  {
    var kept := Refresh(timestamps, t, window);
    assert LogMsg(timestamps, t, window) + rest == kept + ([t] + rest);
    RefreshAppend(kept, [t] + rest, now, window);
    RefreshLater(timestamps, t, now, window);
    RefreshAppend(timestamps, [t] + rest, now, window);
  }

  /** The flood verdict after a run of messages counts exactly the messages of the whole
      history that are inside the window at `now`. */
  lemma FloodVerdictCountsHistory(timestamps: seq<int>, times: seq<int>, now: int, window: int, rate: int)
    requires forall i :: 0 <= i < |times| ==> times[i] <= now
    ensures IsFlooding(LogAll(timestamps, times, window), now, window, rate).flooding
      <==> |Refresh(timestamps + times, now, window)| > rate * window
  {
    LogAllWindow(timestamps, times, now, window);
  }

  /** A burst of messages from a fresh user, all inside one window: the user is flooding
      exactly when the burst holds more than rate * window messages. */
  lemma BurstFloodsIffOverThreshold(times: seq<int>, now: int, window: int, rate: int)
    requires forall i :: 0 <= i < |times| ==> times[i] <= now < times[i] + window
    ensures IsFlooding(LogAll([], times, window), now, window, rate).flooding <==> |times| > rate * window
  {
    LogAllWindow([], times, now, window);
    assert [] + times == times;
    RefreshKeepsRecent(times, now, window);
  }
}

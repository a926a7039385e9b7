/** The current and best streak counters, and the two effects that update them when
    a round is decided. */
module Streak {

  /** The two counters the component keeps (and mirrors into local storage). */
  datatype Streaks = Streaks(current: int, best: int)

  /** How a decided round ended. */
  datatype Outcome = Win | Loss

  /** The counters of a fresh player: nothing stored yet reads as zero. */
  const Fresh: Streaks := Streaks(0, 0)

  /** Neither counter is negative and the best is never below the current one. */
  predicate Consistent(s: Streaks) {
    0 <= s.current <= s.best
  }

  /** Win effect: the streak grows by one, and the best is raised to it when the new
      streak exceeds the stored best. */
  function OnWin(s: Streaks): (r: Streaks)
    ensures r.current == s.current + 1
    ensures r.best >= s.best && r.best >= r.current
    ensures r.best == s.best || r.best == r.current
    ensures Consistent(s) ==> Consistent(r)
  {
    var next := s.current + 1;
    if next > s.best then Streaks(next, next) else Streaks(next, s.best)
  }

  /** Loss effect: the streak drops to zero and the best is left alone. */
  function OnLoss(s: Streaks): (r: Streaks)
    ensures r.current == 0 && r.best == s.best
    ensures s.best >= 0 ==> Consistent(r)
  {
    s.(current := 0)
  }

  /** One decided round applied to the counters. */
  function Settle(s: Streaks, o: Outcome): Streaks {
    match o
    case Win => OnWin(s)
    case Loss => OnLoss(s)
  }

  /** The counters after a history of decided rounds, oldest first. */
  function Replay(s: Streaks, history: seq<Outcome>): (r: Streaks)
    requires Consistent(s)
    ensures Consistent(r)
    ensures r.best >= s.best
    decreases |history|
  {
    if |history| == 0 then s
    else Settle(Replay(s, history[..|history| - 1]), history[|history| - 1])
  }

  /** Number of wins at the end of the history, back to the latest loss. */
  function TrailingWins(history: seq<Outcome>): (n: nat)
    ensures n <= |history|
  {
    if |history| == 0 || history[|history| - 1] == Loss then 0
    else TrailingWins(history[..|history| - 1]) + 1
  }

  /** Positions i .. i+k-1 of the history are all wins. */
  ghost predicate WinRunAt(history: seq<Outcome>, i: int, k: nat) {
    0 <= i && i + k <= |history| && forall j :: i <= j < i + k ==> history[j] == Win
  }

  /** The history holds k consecutive wins somewhere. */
  ghost predicate HasWinRun(history: seq<Outcome>, k: nat) {
    exists i :: WinRunAt(history, i, k)
  }

  /** The trailing wins form a run that ends at the end of the history. */
  lemma {:induction false} TrailingWinsIsRun(history: seq<Outcome>)
    ensures WinRunAt(history, |history| - TrailingWins(history), TrailingWins(history))
    decreases |history|
  {
    if |history| > 0 && history[|history| - 1] == Win {
      var front := history[..|history| - 1];
      TrailingWinsIsRun(front);
      forall j | |history| - TrailingWins(history) <= j < |history|
        ensures history[j] == Win
      {
        if j < |history| - 1 {
          assert history[j] == front[j];
        }
      }
    }
  }

  /** No run that reaches the end of the history is longer than its trailing wins. */
  lemma {:induction false} RunAtEndBounded(history: seq<Outcome>, i: int, k: nat)
    requires WinRunAt(history, i, k) && i + k == |history|
    ensures k <= TrailingWins(history)
    decreases k
  {
    if k > 0 {
      var front := history[..|history| - 1];
      assert history[|history| - 1] == Win;
      assert WinRunAt(front, i, k - 1) by {
        forall j | i <= j < i + k - 1
          ensures front[j] == Win
        {
          assert front[j] == history[j];
        }
      }
      RunAtEndBounded(front, i, k - 1);
    }
  }

  /** A run in a history extended by one round either lies in the old history or
      reaches the new end. */
  lemma RunInExtension(history: seq<Outcome>, o: Outcome, k: nat)
    requires HasWinRun(history + [o], k)
    ensures HasWinRun(history, k) || k <= TrailingWins(history + [o])
  {
    var h := history + [o];
    var i :| WinRunAt(h, i, k);
    if i + k == |h| {
      RunAtEndBounded(h, i, k);
    } else {
      assert WinRunAt(history, i, k) by {
        forall j | i <= j < i + k
          ensures history[j] == Win
        {
          assert history[j] == h[j];
        }
      }
    }
  }

  /** Starting from fresh counters, the current streak is the number of trailing
      wins, and the best streak is the longest run of consecutive wins ever played. */
  lemma {:induction false} ReplayFromFresh(history: seq<Outcome>)
    ensures Replay(Fresh, history).current == TrailingWins(history)
    ensures HasWinRun(history, Replay(Fresh, history).best)
    ensures forall k: nat :: HasWinRun(history, k) ==> k <= Replay(Fresh, history).best
    decreases |history|
  {
    var r := Replay(Fresh, history);
    if |history| == 0 {
      assert WinRunAt(history, 0, 0);
      forall k: nat | HasWinRun(history, k)
        ensures k <= r.best
      {
        var i :| WinRunAt(history, i, k);
      }
    } else {
      var front := history[..|history| - 1];
      var o := history[|history| - 1];
      assert history == front + [o];
      ReplayFromFresh(front);
      var p := Replay(Fresh, front);
      var pi :| WinRunAt(front, pi, p.best);
      assert WinRunAt(history, pi, p.best) by {
        forall j | pi <= j < pi + p.best
          ensures history[j] == Win
        {
          assert history[j] == front[j];
        }
      }
      if o == Win {
        TrailingWinsIsRun(history);
      }
      forall k: nat | HasWinRun(history, k)
        ensures k <= r.best
      {
        RunInExtension(front, o, k);
      }
    }
  }
}

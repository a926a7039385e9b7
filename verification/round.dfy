/** One round of Defuse: the bomb, the guess list and the streak counters, with the
    click transition and the win/loss effects that follow it. */
module Round {
  import opened Grid
  import opened Hint
  import opened Guesses
  import opened Streak

  /** The state the component holds for one round. The bomb is fixed when the round
      starts; the counters carry over from earlier rounds. */
  datatype Game = Game(bomb: Cell, guesses: seq<Cell>, streaks: Streaks)

  predicate Valid(g: Game) {
    OnBoard(g.bomb) && WellFormed(g.guesses) && Consistent(g.streaks)
  }

  /** The counters of a round are those it started with, updated once by the effect
      of its outcome if it has one. */
  predicate SettledFrom(g: Game, start: Streaks) {
    g.streaks == (if Won(g.bomb, g.guesses) then OnWin(start)
                  else if Lost(g.bomb, g.guesses) then OnLoss(start)
                  else start)
  }

  /** A fresh round around the given bomb, with no guesses yet. */
  function NewGame(bomb: Cell, streaks: Streaks): (g: Game)
    requires OnBoard(bomb) && Consistent(streaks)
    ensures g.bomb == bomb && g.streaks == streaks && g.guesses == []
    ensures Valid(g)
    ensures !Won(g.bomb, g.guesses) && !Lost(g.bomb, g.guesses)
    ensures TriesLeft(g.guesses) == MaxTries
    ensures SettledFrom(g, streaks)
  {
    Game(bomb, [], streaks)
  }

  /** A click followed by the effects it triggers: the win effect when `won` has just
      become true, the loss effect when `lost` has just become true. */
  function Click(g: Game, c: Cell): (r: Game)
    ensures r.bomb == g.bomb
    ensures r.guesses == HandleClick(g.guesses, c)
    ensures Valid(g) ==> Valid(r)
    ensures Won(g.bomb, g.guesses) ==> Won(r.bomb, r.guesses)
    ensures r.streaks != g.streaks ==>
              (!Won(g.bomb, g.guesses) && Won(r.bomb, r.guesses)) ||
              (!Lost(g.bomb, g.guesses) && Lost(r.bomb, r.guesses))
  {
    var guesses := HandleClick(g.guesses, c);
    assert WellFormed(g.guesses) ==> WellFormed(guesses) by {
      if WellFormed(g.guesses) {
        HandleClickWellFormed(g.guesses, c);
      }
    }
    assert Won(g.bomb, g.guesses) ==> Won(g.bomb, guesses) by {
      if Won(g.bomb, g.guesses) {
        WonIsStable(g.bomb, g.guesses, c);
      }
    }
    var next := g.(guesses := guesses);
    if !Won(g.bomb, g.guesses) && Won(g.bomb, guesses) then next.(streaks := OnWin(g.streaks))
    else if !Lost(g.bomb, g.guesses) && Lost(g.bomb, guesses) then next.(streaks := OnLoss(g.streaks))
    else next
  }

  /** The round after a sequence of clicks, applied left to right. */
  function Play(g: Game, clicks: seq<Cell>): (r: Game)
    requires Valid(g)
    ensures Valid(r)
    ensures r.bomb == g.bomb
    ensures r.guesses == ApplyClicks(g.guesses, clicks)
    decreases |clicks|
  {
    if |clicks| == 0 then g
    else Play(Click(g, clicks[0]), clicks[1..])
  }

  /** One click keeps a round settled: an effect fires only on the click that decides
      the round, and never again afterwards. */
  lemma ClickKeepsSettled(g: Game, c: Cell, start: Streaks)
    requires Valid(g) && SettledFrom(g, start)
    ensures SettledFrom(Click(g, c), start)
  {
  }

  /** Whatever is clicked, a round that starts with no guesses updates the counters at
      most once: by the win effect if it is won, by the loss effect if it is lost. */
  lemma {:induction false} PlaySettlesOnce(g: Game, clicks: seq<Cell>, start: Streaks)
    requires Valid(g) && SettledFrom(g, start)
    ensures SettledFrom(Play(g, clicks), start)
    decreases |clicks|
  {
    if |clicks| > 0 {
      ClickKeepsSettled(g, clicks[0], start);
      PlaySettlesOnce(Click(g, clicks[0]), clicks[1..], start);
    }
  }

  /** A whole round from its start: the counters it ends with are those of replaying
      its outcome, and the best streak never falls below the current one. */
  lemma RoundOutcome(bomb: Cell, streaks: Streaks, clicks: seq<Cell>)
    requires OnBoard(bomb) && Consistent(streaks)
    ensures var r := Play(NewGame(bomb, streaks), clicks);
            && (Won(r.bomb, r.guesses) ==> r.streaks == Settle(streaks, Win))
            && (Lost(r.bomb, r.guesses) ==> r.streaks == Settle(streaks, Loss))
            && (!Won(r.bomb, r.guesses) && !Lost(r.bomb, r.guesses) ==> r.streaks == streaks)
            && 0 <= r.streaks.current <= r.streaks.best
  {
    PlaySettlesOnce(NewGame(bomb, streaks), clicks, streaks);
  }

  /** Once won, a round stays won whatever is clicked next. */
  lemma WonStaysWon(g: Game, clicks: seq<Cell>)
    requires Valid(g) && Won(g.bomb, g.guesses)
    ensures Won(Play(g, clicks).bomb, Play(g, clicks).guesses)
  {
  }

  /** The click handler and both effects, as the component runs them on row and
      column numbers. */
  method ClickAt(g: Game, row: int, col: int) returns (r: Game)
    ensures r == Click(g, Cell(row, col))
  {
    var wonBefore, lostBefore := Flags(g.bomb, g.guesses);
    var guesses := HandleClickAt(g.guesses, row, col);
    var wonAfter, lostAfter := Flags(g.bomb, guesses);
    r := g.(guesses := guesses);
    if wonAfter && !wonBefore {
      r := r.(streaks := OnWin(g.streaks));
    } else if lostAfter && !lostBefore {
      r := r.(streaks := OnLoss(g.streaks));
    }
  }

  /** The worked round: bomb at (2,3); a cold miss at (0,0), a hot miss at (2,2),
      then the bomb. The round is won in three clicks and the streak grows by one. */
  lemma WinningRound()
    ensures GetHint(Cell(0, 0), Cell(2, 3)) == Cold
    ensures GetHint(Cell(2, 2), Cell(2, 3)) == Hot
    ensures GetHint(Cell(2, 3), Cell(2, 3)) == Exact
    ensures var r := Play(NewGame(Cell(2, 3), Streaks(4, 4)), [Cell(0, 0), Cell(2, 2), Cell(2, 3)]);
            && r.guesses == [Cell(0, 0), Cell(2, 2), Cell(2, 3)]
            && Won(r.bomb, r.guesses)
            && TriesLeft(r.guesses) == 2
            && r.streaks == Streaks(5, 5)
  {
  }

  /** Five misses use up the tries: the round is lost, the streak drops to zero, the
      best is kept, and a sixth click is ignored. */
  lemma LosingRound()
    ensures var r := Play(NewGame(Cell(0, 0), Streaks(3, 7)),
                          [Cell(4, 4), Cell(4, 3), Cell(3, 4), Cell(3, 3), Cell(2, 4)]);
            && Lost(r.bomb, r.guesses)
            && TriesLeft(r.guesses) == 0
            && r.streaks == Streaks(0, 7)
            && Click(r, Cell(0, 0)) == r
  {
    var cs := [Cell(4, 4), Cell(4, 3), Cell(3, 4), Cell(3, 3), Cell(2, 4)];
    var g0 := NewGame(Cell(0, 0), Streaks(3, 7));
    var g1 := Click(g0, cs[0]);
    assert g1.guesses == cs[..1];
    var g2 := Click(g1, cs[1]);
    assert g2.guesses == cs[..2];
    var g3 := Click(g2, cs[2]);
    assert g3.guesses == cs[..3];
    var g4 := Click(g3, cs[3]);
    assert g4.guesses == cs[..4];
    var g5 := Click(g4, cs[4]);
    assert g5.guesses == cs;
    assert !Won(g5.bomb, g5.guesses);
    assert cs[1..][1..][1..][1..][1..] == [];
  }

  /** A won round with tries left still accepts clicks: the guess is appended, the
      round stays won, and the streak is not counted twice. */
  lemma ClickAfterWin()
    ensures var r := Play(NewGame(Cell(1, 1), Streaks(0, 0)), [Cell(1, 1), Cell(3, 3)]);
            && r.guesses == [Cell(1, 1), Cell(3, 3)]
            && Won(r.bomb, r.guesses)
            && r.streaks == Streaks(1, 1)
  {
  }
}

# Defuse round engine in Dafny

A model of the game logic of the "Defuse" minigame component (`src/DefuseGame.js`).
A round hides a bomb on a 5x5 board. The player clicks cells, at most five of
them. Each revealed cell shows a proximity hint computed from the Manhattan
distance to the bomb. The round is won when a click hits the bomb, and lost
when the five tries run out without a hit. A current streak and a best streak
carry over from round to round: a win adds one to the streak and may raise the
best, and a loss resets the streak.

Modules, one per part of the component:

- `Grid` (`grid.dfy`): board size, cells, Manhattan distance.
- `Hint` (`hint.dfy`): `getHint` as a four-tier classification (`Exact`, `Hot`,
  `Warm`, `Cold`) in place of the emoji and colour it displays.
- `Guesses` (`guesses.dfy`): the append-only guess list, `handleClick`,
  the derived `triesLeft`, `won` and `lost`.
- `Streak` (`streak.dfy`): the win and loss effects on the two counters, and
  the counters over a history of rounds.
- `Round` (`round.dfy`): the whole round state (bomb, guesses, counters). A
  click is followed by the effect it triggers.

Behaviour as written, which differs from some descriptions of the game:

- "Hot" is Manhattan distance 1 or 2, not a king-move adjacency test. A cell two
  steps away in a straight line is Hot. The diagonal cell two steps away is Warm.
- The bomb is random per round. There is no date-derived bomb, no calendar-based
  streak continuity and no daily lockout.
- A click is rejected only when no tries are left or the cell was already
  guessed. After a win with tries remaining, further clicks are still appended.
  The round stays won, and the win effect does not fire again.
- The win effect compares the new streak with the best streak read back from
  storage. The model keeps the best streak as a state field. The source writes
  that field and the stored value together, so the two agree as long as no
  other page writes the stored best.

The React effects are modelled as one transition applied right after the click
that changes the flag. The win effect runs when `won` turns true, and the loss
effect runs when `lost` turns true. Both flags only ever go from false to true
(`WonIsStable`, `LostIsAbsorbing`), so each effect fires at most once per round
(`PlaySettlesOnce`).

## Model

| member | source | states |
|---|---|---|
| Grid.Abs | src/DefuseGame.js:36 | the absolute value of a coordinate difference is that difference or its negation, and never negative |
| Grid.Distance | src/DefuseGame.js:36 | the distance between two cells is zero exactly when they are the same cell |
| Grid.DistanceSymmetric | src/DefuseGame.js:36 | swapping the clicked cell and the bomb leaves the distance unchanged |
| Hint.GetHint | src/DefuseGame.js:35-41 | Exact exactly when the clicked cell is the bomb; a Hot cell is within two rows and two columns of the bomb; a Cold cell is at least three rows or three columns away |
| Hint.TierBands | src/DefuseGame.js:35-41 | each tier is exactly one band of distances: Exact 0, Hot 1..2, Warm 3..4, Cold 5 and more, in both directions |
| Hint.HintDependsOnlyOnDistance | src/DefuseGame.js:36 | cells at equal distance get the same tier, and the hint is symmetric in the clicked cell and the bomb |
| Hint.HintMonotone | src/DefuseGame.js:36-40 | a cell no farther from the bomb never gets a colder hint |
| Hint.HotIsManhattan | src/DefuseGame.js:38-39 | two steps in a straight line is Hot, one diagonal step is Hot, two diagonal steps is Warm, (4,4) from (0,0) is Cold |
| Guesses.HandleClick | src/DefuseGame.js:29-33 | the old list is kept as a prefix; the list grows by exactly one, with the clicked cell at the end, exactly when tries remain and the cell is not yet guessed; otherwise it is unchanged |
| Guesses.HandleClickRejects | src/DefuseGame.js:30-31 | a click leaves the list unchanged exactly when no tries are left or the cell was already guessed |
| Guesses.HandleClickWellFormed | src/DefuseGame.js:29-32 | a click keeps the list duplicate-free and no longer than the tries budget |
| Guesses.TriesLeftBounds | src/DefuseGame.js:27 | for a well-formed list, tries left lies in 0..5 and is 0 exactly when five cells are guessed |
| Guesses.NotWonAndLost | src/DefuseGame.js:43-44 | won and lost are never both true; when neither holds, tries remain |
| Guesses.WonIsStable | src/DefuseGame.js:43 | a won list stays won after any click |
| Guesses.LostIsAbsorbing | src/DefuseGame.js:44 | a lost well-formed list accepts no further click |
| Guesses.ApplyClicks | src/DefuseGame.js:26-32 | any sequence of clicks from a well-formed list, including the empty start, keeps it duplicate-free and within the budget, and only appends |
| Guesses.ApplyClicksOnlyClicked | src/DefuseGame.js:32 | every guess after a sequence of clicks was already there or was clicked |
| Guesses.ApplyClicksKeepsClicked | src/DefuseGame.js:30-32 | each click of a sequence leaves its cell guessed at the end, unless the list was already full (five guesses) when that click came: no accepted click is dropped |
| Guesses.Some | src/DefuseGame.js:30 | the scan reports true exactly when some guess has the given row and column |
| Guesses.HandleClickAt | src/DefuseGame.js:29-33 | the click handler on row and column numbers computes the click transition |
| Guesses.Flags | src/DefuseGame.js:43-44 | the computed won flag is "some guess is the bomb"; lost is "not won and at least five guesses"; they never both hold |
| Streak.OnWin | src/DefuseGame.js:47-57 | the streak grows by one; the best becomes the larger of the old best and the new streak; consistent counters stay consistent |
| Streak.OnLoss | src/DefuseGame.js:63-67 | the streak becomes zero and the best is unchanged, so best at least streak at least zero |
| Streak.Replay | src/DefuseGame.js:47-68 | over any history of decided rounds, counters that start consistent stay consistent and the best never decreases |
| Streak.ReplayFromFresh | src/DefuseGame.js:47-68 | from zero counters, the streak equals the wins since the latest loss and the best equals the longest run of consecutive wins |
| Round.NewGame | src/DefuseGame.js:19-26 | a new round has the given bomb and the carried-over counters, no guesses, all five tries, neither won nor lost, and a well-formed state |
| Round.Click | src/DefuseGame.js:29-68 | the bomb never changes, the guesses follow the click handler, validity and a win are kept, and the counters change only on the click that decides the round |
| Round.Play | src/DefuseGame.js:26-68 | any sequence of clicks keeps a round valid, with the bomb fixed and the guesses as the click handler builds them |
| Round.ClickKeepsSettled | src/DefuseGame.js:47-68 | after a click, the counters are still the starting ones updated once by the effect of the outcome, if there is one |
| Round.PlaySettlesOnce | src/DefuseGame.js:47-68 | the same holds after any sequence of clicks |
| Round.RoundOutcome | src/DefuseGame.js:47-68 | a round played from its start ends with the win effect applied if won, the loss effect if lost, the counters untouched if undecided, and best at least streak at least zero |
| Round.WonStaysWon | src/DefuseGame.js:43 | once won, a round stays won under any further clicks |
| Round.ClickAt | src/DefuseGame.js:29-68 | the handler plus both effects, run on row and column numbers, computes the click transition |
| Round.WinningRound | src/DefuseGame.js:35-57 | bomb at (2,3): (0,0) is Cold, (2,2) is Hot, (2,3) is Exact; the round is won in three clicks with two tries left and the streak goes from 4 to 5 |
| Round.LosingRound | src/DefuseGame.js:27-67 | five misses lose the round with no tries left, reset the streak to 0, keep the best, and a sixth click changes nothing |
| Round.ClickAfterWin | src/DefuseGame.js:30-60 | a click after a win with tries left is appended, the round stays won, and the streak is counted once |

## Left out

- Streak.OnWin: compares the new streak with the best-streak field, not with the value read back from storage. If another page raises the stored best, the source skips raising this page's best, and the page can show a streak above its best. The model assumes this page is the only writer of the stored best, and `best >= streak` is proved under that assumption.
- Local storage reads and writes. This covers the `parseInt(...) || 0` defaulting of a missing or corrupt stored best on a win. It also covers the initial loads, which default only a missing value to 0: a corrupt stored streak loads as NaN and stays NaN until a loss. The counters are plain state fields. A fresh player starts at zero.
- The random bomb placement. The bomb is a parameter that lies on the board.
- React state and effect scheduling. Each effect is one transition, applied right after the click that turns its flag true.
- Sharing the best streak through the clipboard, the `alert` and `prompt` fallbacks, and the page reload behind "Play Again". These are browser integrations. Starting a new round is `Round.NewGame` with the counters carried over.
- All rendering, and the emoji and colour strings of `getHint`. The hint is an enumerated tier.
- `src/App.js`, which only renders the component.

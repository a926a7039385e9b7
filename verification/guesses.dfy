/** The guess list of one round: `handleClick`, `triesLeft`, and the derived `won`
    and `lost` flags of the component. */
module Guesses {
  import opened Grid

  /** Number of clicks a round allows (`maxTries` in the component). */
  const MaxTries: int := 5

  /** Clicks still available; derived from the list, never stored. */
  function TriesLeft(guesses: seq<Cell>): int {
    MaxTries - |guesses|
  }

  /** True if some guess is the cell `c` (the component's `guesses.some(...)` test). */
  predicate Guessed(guesses: seq<Cell>, c: Cell) {
    exists i :: 0 <= i < |guesses| && guesses[i] == c
  }

  /** No cell appears twice in the list. */
  predicate NoDuplicates(guesses: seq<Cell>) {
    forall i, j :: 0 <= i < j < |guesses| ==> guesses[i] != guesses[j]
  }

  /** The shape every list built by clicks from an empty one has. */
  predicate WellFormed(guesses: seq<Cell>) {
    NoDuplicates(guesses) && |guesses| <= MaxTries
  }

  /** A click on `c`: ignored when no tries are left or `c` was already guessed,
      otherwise appended at the end of the list. */
  function HandleClick(guesses: seq<Cell>, c: Cell): (r: seq<Cell>)
    ensures |r| == |guesses| || |r| == |guesses| + 1
    ensures r[..|guesses|] == guesses
    ensures |r| == |guesses| + 1 <==> TriesLeft(guesses) != 0 && !Guessed(guesses, c)
    ensures |r| == |guesses| + 1 ==> r[|guesses|] == c
  {
    if TriesLeft(guesses) == 0 || Guessed(guesses, c) then guesses
    else guesses + [c]
  }

  /** The round is won once some guess hits the bomb. */
  predicate Won(bomb: Cell, guesses: seq<Cell>) {
    Guessed(guesses, bomb)
  }

  /** The round is lost when it is not won and the tries are used up. */
  predicate Lost(bomb: Cell, guesses: seq<Cell>) {
    !Won(bomb, guesses) && |guesses| >= MaxTries
  }

  /** A click keeps the list free of duplicates and within the tries budget. */
  lemma HandleClickWellFormed(guesses: seq<Cell>, c: Cell)
    requires WellFormed(guesses)
    ensures WellFormed(HandleClick(guesses, c))
  {
  }

  /** A rejected click changes nothing: both rejection reasons, and nothing else,
      leave the list as it was. */
  lemma HandleClickRejects(guesses: seq<Cell>, c: Cell)
    ensures HandleClick(guesses, c) == guesses <==> TriesLeft(guesses) == 0 || Guessed(guesses, c)
  {
  }

  /** In a well-formed list the derived tries count stays within 0 .. MaxTries. */
  lemma TriesLeftBounds(guesses: seq<Cell>)
    requires WellFormed(guesses)
    ensures 0 <= TriesLeft(guesses) <= MaxTries
    ensures TriesLeft(guesses) == 0 <==> |guesses| == MaxTries
  {
  }

  /** Won and lost are never both true. */
  lemma NotWonAndLost(bomb: Cell, guesses: seq<Cell>)
    ensures !(Won(bomb, guesses) && Lost(bomb, guesses))
    ensures Won(bomb, guesses) || Lost(bomb, guesses) || |guesses| < MaxTries
  {
  }

  /** A win survives every further click: the list only grows at its end. */
  lemma WonIsStable(bomb: Cell, guesses: seq<Cell>, c: Cell)
    requires Won(bomb, guesses)
    ensures Won(bomb, HandleClick(guesses, c))
  {
  }

  /** A lost round accepts no more clicks, so it stays lost and unchanged. */
  lemma LostIsAbsorbing(bomb: Cell, guesses: seq<Cell>, c: Cell)
    requires WellFormed(guesses) && Lost(bomb, guesses)
    ensures HandleClick(guesses, c) == guesses
  {
  }

  /** The list after a sequence of clicks, applied left to right. */
  function ApplyClicks(guesses: seq<Cell>, clicks: seq<Cell>): (r: seq<Cell>)
    requires WellFormed(guesses)
    ensures WellFormed(r)
    ensures |guesses| <= |r| && r[..|guesses|] == guesses
    decreases |clicks|
  {
    if |clicks| == 0 then guesses
    else
      HandleClickWellFormed(guesses, clicks[0]);
      ApplyClicks(HandleClick(guesses, clicks[0]), clicks[1..])
  }

  /** Every guess of the result was either already there or was clicked. */
  lemma {:induction false} ApplyClicksOnlyClicked(guesses: seq<Cell>, clicks: seq<Cell>, c: Cell)
    requires WellFormed(guesses)
    requires Guessed(ApplyClicks(guesses, clicks), c)
    ensures Guessed(guesses, c) || c in clicks
    decreases |clicks|
  {
    if |clicks| > 0 {
      HandleClickWellFormed(guesses, clicks[0]);
      var next := HandleClick(guesses, clicks[0]);
      ApplyClicksOnlyClicked(next, clicks[1..], c);
      if Guessed(next, c) && !Guessed(guesses, c) {
        var i :| 0 <= i < |next| && next[i] == c;
        assert next[..|guesses|] == guesses;
        assert c == clicks[0];
      }
    }
  }

  /** Conversely, a click on cell `clicks[k]` is never dropped: the cell is guessed
      at the end unless the list was already full when it was clicked. */
  lemma {:induction false} ApplyClicksKeepsClicked(guesses: seq<Cell>, clicks: seq<Cell>, k: int)
    requires WellFormed(guesses) && 0 <= k < |clicks|
    ensures Guessed(ApplyClicks(guesses, clicks), clicks[k])
            || |ApplyClicks(guesses, clicks[..k])| == MaxTries
    ensures Guessed(ApplyClicks(guesses, clicks), clicks[k])
            || |ApplyClicks(guesses, clicks)| == MaxTries
    decreases |clicks|
  {
    HandleClickWellFormed(guesses, clicks[0]);
    var next := HandleClick(guesses, clicks[0]);
    var r := ApplyClicks(next, clicks[1..]);
    assert r[..|next|] == next;
    if k == 0 {
      assert clicks[..k] == [];
      if Guessed(next, clicks[0]) {
        var i :| 0 <= i < |next| && next[i] == clicks[0];
        assert r[i] == clicks[0];
      } else {
        assert |guesses| == MaxTries;
      }
    } else {
      var front := clicks[..k];
      assert front[0] == clicks[0] && front[1..] == clicks[1..][..k - 1];
      assert ApplyClicks(guesses, front) == ApplyClicks(next, clicks[1..][..k - 1]);
      ApplyClicksKeepsClicked(next, clicks[1..], k - 1);
    }
  }

  /** `guesses.some(g => g.row === r && g.col === c)`, as a linear scan. */
  method Some(guesses: seq<Cell>, r: int, c: int) returns (found: bool)
    ensures found <==> Guessed(guesses, Cell(r, c))
  {
    found := false;
    var k := 0;
    while k < |guesses|
      invariant 0 <= k <= |guesses|
      invariant found <==> exists i :: 0 <= i < k && guesses[i] == Cell(r, c)
    {
      if guesses[k].row == r && guesses[k].col == c {
        found := true;
      }
      k := k + 1;
    }
  }

  /** The click handler as the component runs it, on row and column numbers. */
  method HandleClickAt(guesses: seq<Cell>, r: int, c: int) returns (next: seq<Cell>)
    ensures next == HandleClick(guesses, Cell(r, c))
  {
    var already := Some(guesses, r, c);
    if TriesLeft(guesses) == 0 || already {
      next := guesses;
    } else {
      next := guesses + [Cell(r, c)];
    }
  }

  /** The `won` and `lost` flags as the component derives them on each render. */
  method Flags(bomb: Cell, guesses: seq<Cell>) returns (won: bool, lost: bool)
    ensures won <==> Won(bomb, guesses)
    ensures lost <==> Lost(bomb, guesses)
    ensures !(won && lost)
  {
    won := Some(guesses, bomb.row, bomb.col);
    lost := !won && |guesses| >= MaxTries;
  }
}

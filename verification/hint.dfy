/** Proximity feedback shown on a revealed cell (`getHint` in the component). */
module Hint {
  import opened Grid

  /** The four feedback tiers. The component renders them as an emoji and a colour:
      Exact is the bomb itself, Hot is "fire/red", Warm is "thermometer/orange",
      Cold is "snowflake/blue". */
  datatype Tier = Exact | Hot | Warm | Cold

  /** How close a tier says the bomb is: a higher rank means closer. */
  function Rank(t: Tier): nat {
    match t
    case Exact => 3
    case Hot => 2
    case Warm => 1
    case Cold => 0
  }

  /** The tier for revealing `q` when the bomb sits at `bomb`; the first band that
      contains the Manhattan distance wins. */
  function GetHint(q: Cell, bomb: Cell): (t: Tier)
    ensures t == Exact <==> q == bomb
    ensures t == Hot ==> Abs(q.row - bomb.row) <= 2 && Abs(q.col - bomb.col) <= 2
    ensures t == Cold ==> Abs(q.row - bomb.row) >= 3 || Abs(q.col - bomb.col) >= 3
  {
    var d := Distance(q, bomb);
    if d == 0 then Exact
    else if d <= 2 then Hot
    else if d <= 4 then Warm
    else Cold
  }

  /** Each tier corresponds to exactly one band of Manhattan distances. */
  lemma TierBands(q: Cell, bomb: Cell)
    ensures GetHint(q, bomb) == Exact <==> Distance(q, bomb) == 0
    ensures GetHint(q, bomb) == Hot <==> 1 <= Distance(q, bomb) <= 2
    ensures GetHint(q, bomb) == Warm <==> 3 <= Distance(q, bomb) <= 4
    ensures GetHint(q, bomb) == Cold <==> 5 <= Distance(q, bomb)
  {
  }

  /** The hint only depends on |dr| + |dc|: cells at equal distance get the same tier,
      and the hint is symmetric in the query cell and the bomb. */
  lemma HintDependsOnlyOnDistance(q1: Cell, b1: Cell, q2: Cell, b2: Cell)
    requires Distance(q1, b1) == Distance(q2, b2)
    ensures GetHint(q1, b1) == GetHint(q2, b2)
    ensures GetHint(q1, b1) == GetHint(b1, q1)
  {
  }

  /** A cell no farther from the bomb never gets a colder hint. */
  lemma HintMonotone(q1: Cell, q2: Cell, bomb: Cell)
    requires Distance(q1, bomb) <= Distance(q2, bomb)
    ensures Rank(GetHint(q1, bomb)) >= Rank(GetHint(q2, bomb))
  {
  }

  /** "Hot" is a Manhattan test, not a king-move test: a cell two steps away in a
      straight line is Hot, while the diagonal cell two steps away is only Warm. */
  lemma HotIsManhattan()
    ensures GetHint(Cell(2, 0), Cell(0, 0)) == Hot
    ensures GetHint(Cell(1, 1), Cell(0, 0)) == Hot
    ensures GetHint(Cell(2, 2), Cell(0, 0)) == Warm
    ensures GetHint(Cell(4, 4), Cell(0, 0)) == Cold
  {
  }
}

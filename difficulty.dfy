/** The four difficulty levels and how many squares each removes from a solved grid. */
module Difficulties {

  datatype Difficulty = Easy | Medium | Hard | Expert {

    /** `cellsToRemove`: the number of solution squares blanked for this level. */
    function CellsToRemove(): (n: nat)
      ensures 30 <= n <= 60 && n % 10 == 0
      ensures n == 30 + 10 * Ordinal()
    {
      match this
      case Easy => 30
      case Medium => 40
      case Hard => 50
      case Expert => 60
    }

    /** Position of the level in declaration order. */
    function Ordinal(): (i: nat)
      ensures i < 4
    {
      match this
      case Easy => 0
      case Medium => 1
      case Hard => 2
      case Expert => 3
    }
  }

  /** Later levels remove strictly more squares, and no level removes more than the 81 there are. */
  lemma CellsToRemoveIncreasing(d1: Difficulty, d2: Difficulty)
    requires d1.Ordinal() < d2.Ordinal()
    ensures d1.CellsToRemove() < d2.CellsToRemove() <= 81
  {
  }

  /** Distinct levels have distinct declaration positions. */
  lemma OrdinalInjective(d1: Difficulty, d2: Difficulty)
    ensures d1.Ordinal() == d2.Ordinal() <==> d1 == d2
  {
  }
}

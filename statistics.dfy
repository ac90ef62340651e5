/** The aggregate statistics record and its per-difficulty accessors. */
module Stats {
  import opened Difficulties

  /** `Long.MAX_VALUE`, the "no record yet" best time. */
  const LongMax: int := 0x7FFF_FFFF_FFFF_FFFF

  datatype Statistics = Statistics(
    gamesPlayed: int,
    gamesCompleted: int,
    totalTime: int,
    bestTimeEasy: int,
    bestTimeMedium: int,
    bestTimeHard: int,
    bestTimeExpert: int,
    easyCompleted: int,
    mediumCompleted: int,
    hardCompleted: int,
    expertCompleted: int,
    currentStreak: int,
    longestStreak: int)
  {
    /** The best-time field of difficulty d: the four fields in the order the levels are declared. */
    function GetBestTime(d: Difficulty): (t: int)
      ensures t == [bestTimeEasy, bestTimeMedium, bestTimeHard, bestTimeExpert][d.Ordinal()]
    {
      match d
      case Easy => bestTimeEasy
      case Medium => bestTimeMedium
      case Hard => bestTimeHard
      case Expert => bestTimeExpert
    }

    /** The completed-games field of difficulty d: the four fields in the order the levels are declared. */
    function GetCompletedCount(d: Difficulty): (n: int)
      ensures n == [easyCompleted, mediumCompleted, hardCompleted, expertCompleted][d.Ordinal()]
    {
      match d
      case Easy => easyCompleted
      case Medium => mediumCompleted
      case Hard => hardCompleted
      case Expert => expertCompleted
    }

    /** The record with d's best-time field replaced: each difficulty owns its own field. */
    function WithBestTime(d: Difficulty, t: int): (st: Statistics)
      ensures st.GetBestTime(d) == t
      ensures forall e :: e != d ==> st.GetBestTime(e) == GetBestTime(e)
      ensures forall e :: st.GetCompletedCount(e) == GetCompletedCount(e)
      ensures st.gamesPlayed == gamesPlayed && st.gamesCompleted == gamesCompleted && st.totalTime == totalTime
      ensures st.currentStreak == currentStreak && st.longestStreak == longestStreak
    {
      match d
      case Easy => this.(bestTimeEasy := t)
      case Medium => this.(bestTimeMedium := t)
      case Hard => this.(bestTimeHard := t)
      case Expert => this.(bestTimeExpert := t)
    }

    /** The record with d's completed-games field replaced: each difficulty owns its own field. */
    function WithCompletedCount(d: Difficulty, n: int): (st: Statistics)
      ensures st.GetCompletedCount(d) == n
      ensures forall e :: e != d ==> st.GetCompletedCount(e) == GetCompletedCount(e)
      ensures forall e :: st.GetBestTime(e) == GetBestTime(e)
      ensures st.gamesPlayed == gamesPlayed && st.gamesCompleted == gamesCompleted && st.totalTime == totalTime
      ensures st.currentStreak == currentStreak && st.longestStreak == longestStreak
    {
      match d
      case Easy => this.(easyCompleted := n)
      case Medium => this.(mediumCompleted := n)
      case Hard => this.(hardCompleted := n)
      case Expert => this.(expertCompleted := n)
    }
  }

  /** `Statistics()`: no games, no time, no streaks, and no best time for any level. */
  function DefaultStatistics(): (st: Statistics)
    ensures st.gamesPlayed == 0 && st.gamesCompleted == 0 && st.totalTime == 0
    ensures st.currentStreak == 0 && st.longestStreak == 0
    ensures forall d :: st.GetBestTime(d) == LongMax && st.GetCompletedCount(d) == 0
  {
    Statistics(0, 0, 0, LongMax, LongMax, LongMax, LongMax, 0, 0, 0, 0, 0, 0)
  }

  /** Two records with the same accessors and the same shared fields are the same record. */
  lemma AccessorsDetermineRecord(a: Statistics, b: Statistics)
    requires forall d :: a.GetBestTime(d) == b.GetBestTime(d) && a.GetCompletedCount(d) == b.GetCompletedCount(d)
    requires a.gamesPlayed == b.gamesPlayed && a.gamesCompleted == b.gamesCompleted && a.totalTime == b.totalTime
    requires a.currentStreak == b.currentStreak && a.longestStreak == b.longestStreak
    ensures a == b
  {
    assert a.GetBestTime(Easy) == b.GetBestTime(Easy) && a.GetBestTime(Medium) == b.GetBestTime(Medium);
    assert a.GetBestTime(Hard) == b.GetBestTime(Hard) && a.GetBestTime(Expert) == b.GetBestTime(Expert);
    assert a.GetCompletedCount(Easy) == b.GetCompletedCount(Easy) && a.GetCompletedCount(Medium) == b.GetCompletedCount(Medium);
    assert a.GetCompletedCount(Hard) == b.GetCompletedCount(Hard) && a.GetCompletedCount(Expert) == b.GetCompletedCount(Expert);
  }
}

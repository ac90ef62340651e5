/** The persisted statistics store: a key/value record read with defaults and
    updated when a game starts, when a game is completed, and on reset. */
module StatisticsRepo {
  import opened Difficulties
  import opened Stats

  /** The thirteen preference keys of the store. */
  datatype Key =
    | GamesPlayed | GamesCompleted | TotalTime
    | BestTimeEasy | BestTimeMedium | BestTimeHard | BestTimeExpert
    | EasyCompleted | MediumCompleted | HardCompleted | ExpertCompleted
    | CurrentStreak | LongestStreak

  type Preferences = map<Key, int>

  function BestTimeKey(d: Difficulty): Key {
    match d
    case Easy => BestTimeEasy
    case Medium => BestTimeMedium
    case Hard => BestTimeHard
    case Expert => BestTimeExpert
  }

  function CompletedKey(d: Difficulty): Key {
    match d
    case Easy => EasyCompleted
    case Medium => MediumCompleted
    case Hard => HardCompleted
    case Expert => ExpertCompleted
  }

  /** `preferences[key] ?: default`. */
  function GetOr(p: Preferences, k: Key, default: int): int {
    if k in p then p[k] else default
  }

  /** The value a missing key reads as: `Long.MAX_VALUE` for best times, 0 otherwise. */
  function DefaultFor(k: Key): int {
    if k in {BestTimeEasy, BestTimeMedium, BestTimeHard, BestTimeExpert} then LongMax else 0
  }

  /** The field of a statistics record that key k is stored under. */
  function Field(st: Statistics, k: Key): int {
    match k
    case GamesPlayed => st.gamesPlayed
    case GamesCompleted => st.gamesCompleted
    case TotalTime => st.totalTime
    case BestTimeEasy => st.bestTimeEasy
    case BestTimeMedium => st.bestTimeMedium
    case BestTimeHard => st.bestTimeHard
    case BestTimeExpert => st.bestTimeExpert
    case EasyCompleted => st.easyCompleted
    case MediumCompleted => st.mediumCompleted
    case HardCompleted => st.hardCompleted
    case ExpertCompleted => st.expertCompleted
    case CurrentStreak => st.currentStreak
    case LongestStreak => st.longestStreak
  }

  /** The record with the field of key k replaced by v. */
  function SetField(st: Statistics, k: Key, v: int): Statistics {
    match k
    case GamesPlayed => st.(gamesPlayed := v)
    case GamesCompleted => st.(gamesCompleted := v)
    case TotalTime => st.(totalTime := v)
    case BestTimeEasy => st.(bestTimeEasy := v)
    case BestTimeMedium => st.(bestTimeMedium := v)
    case BestTimeHard => st.(bestTimeHard := v)
    case BestTimeExpert => st.(bestTimeExpert := v)
    case EasyCompleted => st.(easyCompleted := v)
    case MediumCompleted => st.(mediumCompleted := v)
    case HardCompleted => st.(hardCompleted := v)
    case ExpertCompleted => st.(expertCompleted := v)
    case CurrentStreak => st.(currentStreak := v)
    case LongestStreak => st.(longestStreak := v)
  }

  /** The `statisticsFlow` mapping from stored preferences to a record. */
  function Read(p: Preferences): Statistics {
    Statistics(
      GetOr(p, GamesPlayed, 0),
      GetOr(p, GamesCompleted, 0),
      GetOr(p, TotalTime, 0),
      GetOr(p, BestTimeEasy, LongMax),
      GetOr(p, BestTimeMedium, LongMax),
      GetOr(p, BestTimeHard, LongMax),
      GetOr(p, BestTimeExpert, LongMax),
      GetOr(p, EasyCompleted, 0),
      GetOr(p, MediumCompleted, 0),
      GetOr(p, HardCompleted, 0),
      GetOr(p, ExpertCompleted, 0),
      GetOr(p, CurrentStreak, 0),
      GetOr(p, LongestStreak, 0))
  }

  /** Every field reads its stored value, or its default when the key is missing. */
  lemma ReadField(p: Preferences, k: Key)
    ensures Field(Read(p), k) == if k in p then p[k] else DefaultFor(k)
  {
  }

  /** Each difficulty's accessors read that difficulty's own keys. */
  lemma ReadAccessors(p: Preferences, d: Difficulty)
    ensures Read(p).GetBestTime(d) == GetOr(p, BestTimeKey(d), LongMax)
    ensures Read(p).GetCompletedCount(d) == GetOr(p, CompletedKey(d), 0)
  {
  }

  /** An empty store reads as the default record. */
  lemma ReadEmpty()
    ensures Read(map[]) == DefaultStatistics()
  {
  }

  /** Two stores holding the same keys read the same exactly when they hold the same values. */
  lemma ReadDeterminesStore(p: Preferences, q: Preferences)
    requires p.Keys == q.Keys
    ensures Read(p) == Read(q) <==> p == q
  {
    if Read(p) == Read(q) {
      forall k | k in p ensures p[k] == q[k] {
        ReadField(p, k);
        ReadField(q, k);
      }
    }
  }

  function Min(a: int, b: int): int { if a <= b then a else b }
  function Max(a: int, b: int): int { if a >= b then a else b }

  /** What a completed game does to the statistics: one more game played and completed,
      the time added to the total, the streak extended and the longest streak kept as the
      maximum seen; the level's best time kept as the minimum and its count increased,
      every other level untouched. */
  function RecordCompletion(st: Statistics, d: Difficulty, time: int): (r: Statistics)
    ensures r.gamesPlayed == st.gamesPlayed + 1 && r.gamesCompleted == st.gamesCompleted + 1
    ensures r.totalTime == st.totalTime + time
    ensures r.currentStreak == st.currentStreak + 1
    ensures r.longestStreak == Max(st.longestStreak, st.currentStreak + 1)
    ensures r.GetBestTime(d) == Min(st.GetBestTime(d), time)
    ensures r.GetCompletedCount(d) == st.GetCompletedCount(d) + 1
    ensures forall e :: e != d ==> r.GetBestTime(e) == st.GetBestTime(e) && r.GetCompletedCount(e) == st.GetCompletedCount(e)
  {
    st.(gamesPlayed := st.gamesPlayed + 1,
        gamesCompleted := st.gamesCompleted + 1,
        totalTime := st.totalTime + time,
        currentStreak := st.currentStreak + 1,
        longestStreak := Max(st.longestStreak, st.currentStreak + 1))
      .WithBestTime(d, Min(st.GetBestTime(d), time))
      .WithCompletedCount(d, st.GetCompletedCount(d) + 1)
  }

  lemma FieldsDetermineRecord(a: Statistics, b: Statistics)
    requires forall k :: Field(a, k) == Field(b, k)
    ensures a == b
  {
    assert Field(a, GamesPlayed) == Field(b, GamesPlayed) && Field(a, GamesCompleted) == Field(b, GamesCompleted);
    assert Field(a, TotalTime) == Field(b, TotalTime) && Field(a, CurrentStreak) == Field(b, CurrentStreak);
    assert Field(a, LongestStreak) == Field(b, LongestStreak);
    assert Field(a, BestTimeEasy) == Field(b, BestTimeEasy) && Field(a, BestTimeMedium) == Field(b, BestTimeMedium);
    assert Field(a, BestTimeHard) == Field(b, BestTimeHard) && Field(a, BestTimeExpert) == Field(b, BestTimeExpert);
    assert Field(a, EasyCompleted) == Field(b, EasyCompleted) && Field(a, MediumCompleted) == Field(b, MediumCompleted);
    assert Field(a, HardCompleted) == Field(b, HardCompleted) && Field(a, ExpertCompleted) == Field(b, ExpertCompleted);
  }

  /** RecordCompletion key by key. */
  lemma RecordCompletionField(st: Statistics, d: Difficulty, time: int, k: Key)
    ensures Field(RecordCompletion(st, d, time), k) ==
      if k == GamesPlayed then st.gamesPlayed + 1
      else if k == GamesCompleted then st.gamesCompleted + 1
      else if k == TotalTime then st.totalTime + time
      else if k == CurrentStreak then st.currentStreak + 1
      else if k == LongestStreak then Max(st.longestStreak, st.currentStreak + 1)
      else if k == BestTimeKey(d) then Min(st.GetBestTime(d), time)
      else if k == CompletedKey(d) then st.GetCompletedCount(d) + 1
      else Field(st, k)
  {
    var r := RecordCompletion(st, d, time);
    match k
    case BestTimeEasy => assert r.GetBestTime(Easy) == r.bestTimeEasy;
    case BestTimeMedium => assert r.GetBestTime(Medium) == r.bestTimeMedium;
    case BestTimeHard => assert r.GetBestTime(Hard) == r.bestTimeHard;
    case BestTimeExpert => assert r.GetBestTime(Expert) == r.bestTimeExpert;
    case EasyCompleted => assert r.GetCompletedCount(Easy) == r.easyCompleted;
    case MediumCompleted => assert r.GetCompletedCount(Medium) == r.mediumCompleted;
    case HardCompleted => assert r.GetCompletedCount(Hard) == r.hardCompleted;
    case ExpertCompleted => assert r.GetCompletedCount(Expert) == r.expertCompleted;
    case _ =>
  }

  /** RecordCompletion as the sequence of single-field writes the store performs. */
  lemma CompletionAsWrites(st: Statistics, d: Difficulty, time: int)
    ensures RecordCompletion(st, d, time) ==
      var s1 := SetField(SetField(SetField(SetField(st, GamesPlayed, st.gamesPlayed + 1),
                  GamesCompleted, st.gamesCompleted + 1), TotalTime, st.totalTime + time), CurrentStreak, st.currentStreak + 1);
      var s2 := if st.currentStreak + 1 > st.longestStreak then SetField(s1, LongestStreak, st.currentStreak + 1) else s1;
      var s3 := if time < st.GetBestTime(d) then SetField(s2, BestTimeKey(d), time) else s2;
      SetField(s3, CompletedKey(d), st.GetCompletedCount(d) + 1)
  {
  }

  /** A single `preferences[key] = value` reads as the record with that one field replaced. */
  lemma ReadAfterWrite(p: Preferences, k: Key, v: int)
    ensures Read(p[k := v]) == SetField(Read(p), k, v)
  {
    forall k' ensures Field(Read(p[k := v]), k') == Field(SetField(Read(p), k, v), k') {
      ReadField(p, k');
      ReadField(p[k := v], k');
    }
    FieldsDetermineRecord(Read(p[k := v]), SetField(Read(p), k, v));
  }

  /** The edit transaction of `updateStatisticsOnGameComplete`, applied to the stored
      preferences: the level-independent writes, then the level's writes. */
  function CompletionEdit(p: Preferences, d: Difficulty, time: int): (q: Preferences)
    ensures q.Keys == p.Keys + {GamesPlayed, GamesCompleted, TotalTime, CurrentStreak}
      + (if GetOr(p, CurrentStreak, 0) + 1 > GetOr(p, LongestStreak, 0) then {LongestStreak} else {})
      + (if time < GetOr(p, BestTimeKey(d), LongMax) then {BestTimeKey(d)} else {})
      + {CompletedKey(d)}
  {
    var p2 := TotalsEdit(p, time);
    assert GetOr(p2, BestTimeKey(d), LongMax) == GetOr(p, BestTimeKey(d), LongMax);
    LevelEdit(p2, d, time)
  }

  /** The counts, the total time and the streak are always written; the longest streak only
      when the new streak exceeds it. */
  function TotalsEdit(p: Preferences, time: int): (q: Preferences)
    ensures q.Keys == p.Keys + {GamesPlayed, GamesCompleted, TotalTime, CurrentStreak}
      + (if GetOr(p, CurrentStreak, 0) + 1 > GetOr(p, LongestStreak, 0) then {LongestStreak} else {})
    ensures forall k :: k !in {GamesPlayed, GamesCompleted, TotalTime, CurrentStreak, LongestStreak} ==>
      GetOr(q, k, DefaultFor(k)) == GetOr(p, k, DefaultFor(k))
  {
    var gamesPlayed := GetOr(p, GamesPlayed, 0) + 1;
    var gamesCompleted := GetOr(p, GamesCompleted, 0) + 1;
    var totalTime := GetOr(p, TotalTime, 0) + time;
    var currentStreak := GetOr(p, CurrentStreak, 0) + 1;
    var longestStreak := GetOr(p, LongestStreak, 0);
    var p1 := p[GamesPlayed := gamesPlayed][GamesCompleted := gamesCompleted][TotalTime := totalTime][CurrentStreak := currentStreak];
    if currentStreak > longestStreak then p1[LongestStreak := currentStreak] else p1
  }

  /** The level's best time only when the new time is smaller; the level's count always. */
  function LevelEdit(p: Preferences, d: Difficulty, time: int): (q: Preferences)
    ensures q.Keys == p.Keys
      + (if time < GetOr(p, BestTimeKey(d), LongMax) then {BestTimeKey(d)} else {})
      + {CompletedKey(d)}
  {
    var bestTime := GetOr(p, BestTimeKey(d), LongMax);
    var p3 := if time < bestTime then p[BestTimeKey(d) := time] else p;
    var completed := GetOr(p3, CompletedKey(d), 0);
    p3[CompletedKey(d) := completed + 1]
  }

  /** Every key the completion edit does not write keeps its stored value. */
  lemma CompletionEditKeepsOthers(p: Preferences, d: Difficulty, time: int, k: Key)
    requires k !in {GamesPlayed, GamesCompleted, TotalTime, CurrentStreak, LongestStreak, BestTimeKey(d), CompletedKey(d)}
    ensures (k in CompletionEdit(p, d, time) <==> k in p)
    ensures k in p ==> CompletionEdit(p, d, time)[k] == p[k]
  {
  }

  lemma TotalsEditReads(p: Preferences, time: int)
    ensures var st := Read(p);
      var s1 := SetField(SetField(SetField(SetField(st, GamesPlayed, st.gamesPlayed + 1),
                GamesCompleted, st.gamesCompleted + 1), TotalTime, st.totalTime + time), CurrentStreak, st.currentStreak + 1);
      Read(TotalsEdit(p, time)) == if st.currentStreak + 1 > st.longestStreak then SetField(s1, LongestStreak, st.currentStreak + 1) else s1
  {
    var st := Read(p);
    var p1a := p[GamesPlayed := st.gamesPlayed + 1];
    var p1b := p1a[GamesCompleted := st.gamesCompleted + 1];
    var p1c := p1b[TotalTime := st.totalTime + time];
    var p1 := p1c[CurrentStreak := st.currentStreak + 1];
    ReadAfterWrite(p, GamesPlayed, st.gamesPlayed + 1);
    ReadAfterWrite(p1a, GamesCompleted, st.gamesCompleted + 1);
    ReadAfterWrite(p1b, TotalTime, st.totalTime + time);
    ReadAfterWrite(p1c, CurrentStreak, st.currentStreak + 1);
    ReadAfterWrite(p1, LongestStreak, st.currentStreak + 1);
    assert TotalsEdit(p, time) == if st.currentStreak + 1 > st.longestStreak then p1[LongestStreak := st.currentStreak + 1] else p1;
  }

  lemma LevelEditReads(p: Preferences, d: Difficulty, time: int)
    ensures var st := Read(p);
      var s3 := if time < st.GetBestTime(d) then SetField(st, BestTimeKey(d), time) else st;
      Read(LevelEdit(p, d, time)) == SetField(s3, CompletedKey(d), st.GetCompletedCount(d) + 1)
  {
    var st := Read(p);
    ReadAccessors(p, d);
    var p3 := if time < st.GetBestTime(d) then p[BestTimeKey(d) := time] else p;
    ReadAfterWrite(p, BestTimeKey(d), time);
    assert GetOr(p3, CompletedKey(d), 0) == st.GetCompletedCount(d);
    ReadAfterWrite(p3, CompletedKey(d), st.GetCompletedCount(d) + 1);
    assert LevelEdit(p, d, time) == p3[CompletedKey(d) := st.GetCompletedCount(d) + 1];
  }

  /** The edit transaction reads back as the completion record of what was stored. */
  lemma CompletionEditReads(p: Preferences, d: Difficulty, time: int)
    ensures Read(CompletionEdit(p, d, time)) == RecordCompletion(Read(p), d, time)
  {
    var st := Read(p);
    var p2 := TotalsEdit(p, time);
    TotalsEditReads(p, time);
    LevelEditReads(p2, d, time);
    ReadAccessors(p, d);
    ReadAccessors(p2, d);
    CompletionAsWrites(st, d, time);
  }

  /** The DataStore of statistics preferences. */
  class StatisticsRepository {
    var preferences: Preferences

    /** A store holding whatever was persisted before. */
    constructor (stored: Preferences)
      ensures preferences == stored
    {
      preferences := stored;
    }

    /** The record the store currently reads as. */
    function Current(): Statistics
      reads this
    {
      Read(preferences)
    }

    /** `updateStatisticsOnGameComplete`: the store is committed with the completion edit, and
        its record afterwards is the completion record of the record before. */
    method UpdateStatisticsOnGameComplete(difficulty: Difficulty, time: int)
      modifies this
      ensures preferences == CompletionEdit(old(preferences), difficulty, time)
      ensures Read(preferences) == RecordCompletion(Read(old(preferences)), difficulty, time)
    {
      CompletionEditReads(preferences, difficulty, time);
      preferences := CompletionEdit(preferences, difficulty, time);
    }

    /** `incrementGamesPlayed`: one more game played; nothing else changes. */
    method IncrementGamesPlayed()
      modifies this
      ensures preferences == old(preferences)[GamesPlayed := GetOr(old(preferences), GamesPlayed, 0) + 1]
      ensures Read(preferences) == Read(old(preferences)).(gamesPlayed := Read(old(preferences)).gamesPlayed + 1)
    {
      var gamesPlayed := GetOr(preferences, GamesPlayed, 0) + 1;
      preferences := preferences[GamesPlayed := gamesPlayed];
    }

    /** `resetStatistics`: clears the store, which then reads as the default record. */
    method ResetStatistics()
      modifies this
      ensures preferences == map[]
      ensures Read(preferences) == DefaultStatistics()
    {
      preferences := map[];
    }
  }

  /** A game started and then completed counts as two games played but one completed. */
  method StartThenComplete(repo: StatisticsRepository, d: Difficulty, time: int)
    modifies repo
    ensures repo.Current().gamesPlayed == old(repo.Current().gamesPlayed) + 2
    ensures repo.Current().gamesCompleted == old(repo.Current().gamesCompleted) + 1
  {
    repo.IncrementGamesPlayed();
    repo.UpdateStatisticsOnGameComplete(d, time);
  }
}

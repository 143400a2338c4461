/**
 * The progress store of the focus-therapy app: the lifetime aggregate of
 * points, games played, level, streak, unlocked achievements and the history
 * of finished sessions, and the fold that merges one finished game into it.
 */
module Progress {
  import opened Common

  /** The five mini-games, by the identifiers the app stores in a session. */
  datatype GameId = ColorMemory | SelectiveAttention | SustainedFocus | Puzzle | WeeklyChallenge

  /** One finished game. `accuracy` is a percentage; `date` is the ISO time stamp taken from the clock. */
  datatype GameSession = GameSession(gameId: GameId, score: int, duration: nat, accuracy: real, date: string)

  datatype UserProgress = UserProgress(
    totalPoints: int,
    gamesPlayed: nat,
    achievements: seq<string>,
    sessions: seq<GameSession>,
    level: int,
    streak: int)

  /** Achievement keys that the fold can unlock. */
  const First100: string := "first100"
  const Dedicated: string := "dedicated"
  /** Shown in the achievements list, but no operation ever unlocks it. */
  const Master: string := "master"

  /** Points needed per level. */
  const PointsPerLevel: int := 500

  /** Level reached with `points` lifetime points: one more than the number of whole 500-point steps. */
  function LevelFor(points: int): (lvl: int)
    ensures points >= 0 ==> lvl >= 1
    ensures (lvl - 1) * PointsPerLevel <= points < lvl * PointsPerLevel
  {
    // Dafny's division by a positive divisor rounds down, as Math.floor of the quotient does.
    points / PointsPerLevel + 1
  }

  /** Sum of the scores of `ss`. */
  function SumScores(ss: seq<GameSession>): int {
    if ss == [] then 0 else SumScores(ss[..|ss| - 1]) + ss[|ss| - 1].score
  }

  /** Some recorded session scored more than 100 points. */
  predicate SomeScoreOver100(ss: seq<GameSession>) {
    exists i :: 0 <= i < |ss| && ss[i].score > 100
  }

  /**
   * The aggregate as the fold builds it from the zero state: the counters and the level agree
   * with the history, and each achievement is held, once, exactly when its threshold was met.
   */
  ghost predicate Valid(p: UserProgress) {
    && p.gamesPlayed == |p.sessions|
    && p.totalPoints == SumScores(p.sessions)
    && p.level == LevelFor(p.totalPoints)
    && p.streak == 0
    && NoDuplicates(p.achievements)
    && (forall i :: 0 <= i < |p.achievements| ==> p.achievements[i] in {First100, Dedicated})
    && (First100 in p.achievements <==> SomeScoreOver100(p.sessions))
    && (Dedicated in p.achievements <==> p.gamesPlayed >= 10)
  }

  /**
   * What the running app keeps of `Valid` when a late fold writes into an achievements list that
   * a newer aggregate shares: the counters and the level agree with the history, only the two
   * keys the fold writes occur, none twice, and each achievement whose threshold was met is held.
   */
  ghost predicate Sound(p: UserProgress) {
    && p.gamesPlayed == |p.sessions|
    && p.totalPoints == SumScores(p.sessions)
    && p.level == LevelFor(p.totalPoints)
    && p.streak == 0
    && NoDuplicates(p.achievements)
    && (forall i :: 0 <= i < |p.achievements| ==> p.achievements[i] in {First100, Dedicated})
    && (SomeScoreOver100(p.sessions) ==> First100 in p.achievements)
    && (p.gamesPlayed >= 10 ==> Dedicated in p.achievements)
  }

  /** The initial progress and the one the user's "reset progress" confirmation writes. */
  function ZeroProgress(): (p: UserProgress)
    ensures Valid(p)
    ensures p.sessions == [] && p.achievements == [] && p.totalPoints == 0 && p.level == 1
  {
    UserProgress(0, 0, [], [], 1, 0)
  }

  /** The achievement checks of the fold: `key` is appended when `unlock` holds and it is absent. */
  function Unlock(achievements: seq<string>, key: string, unlock: bool): (r: seq<string>)
    ensures achievements <= r && |r| <= |achievements| + 1
    ensures forall k :: k in r <==> k in achievements || (unlock && k == key)
    ensures NoDuplicates(achievements) ==> NoDuplicates(r)
  {
    if unlock && key !in achievements then achievements + [key] else achievements
  }

  /**
   * Merges one finished session into the aggregate: the score is added, one more game is
   * counted, the session is appended, the level is recomputed from the new total and the
   * achievements are re-checked against their thresholds; the streak is left as it was.
   */
  function Fold(p: UserProgress, s: GameSession): (q: UserProgress)
    ensures q.totalPoints == p.totalPoints + s.score
    ensures q.gamesPlayed == p.gamesPlayed + 1
    ensures q.sessions == p.sessions + [s]
    ensures q.level == LevelFor(q.totalPoints) && q.streak == p.streak
    ensures s.score >= 0 ==> q.totalPoints >= p.totalPoints
    // achievements only grow, keep their order, and gain exactly the keys whose thresholds are met
    ensures p.achievements <= q.achievements
    ensures forall k :: k in q.achievements <==>
      (k in p.achievements || (k == First100 && s.score > 100) || (k == Dedicated && q.gamesPlayed >= 10))
    ensures NoDuplicates(p.achievements) ==> NoDuplicates(q.achievements)
  {
    var totalPoints := p.totalPoints + s.score;
    var gamesPlayed := p.gamesPlayed + 1;
    var withFirst := Unlock(p.achievements, First100, s.score > 100);
    var withDedicated := Unlock(withFirst, Dedicated, gamesPlayed >= 10);
    UserProgress(totalPoints, gamesPlayed, withDedicated, p.sessions + [s], LevelFor(totalPoints), p.streak)
  }

  /** Folds the sessions of `ss` into `p`, oldest first. */
  function FoldAll(p: UserProgress, ss: seq<GameSession>): UserProgress
    decreases |ss|
  {
    if ss == [] then p else FoldAll(Fold(p, ss[0]), ss[1..])
  }

  lemma {:induction false} SumScoresAppend(ss: seq<GameSession>, s: GameSession)
    ensures SumScores(ss + [s]) == SumScores(ss) + s.score
  {
    assert (ss + [s])[..|ss|] == ss;
  }

  /** The fold keeps the aggregate consistent with its history. */
  lemma {:induction false} FoldPreservesValid(p: UserProgress, s: GameSession)
    requires Valid(p)
    ensures Valid(Fold(p, s))
  {
    var q := Fold(p, s);
    SumScoresAppend(p.sessions, s);
    assert SomeScoreOver100(q.sessions) <==> SomeScoreOver100(p.sessions) || s.score > 100 by {
      if SomeScoreOver100(p.sessions) {
        var i :| 0 <= i < |p.sessions| && p.sessions[i].score > 100;
        assert q.sessions[i] == p.sessions[i];
      }
      if s.score > 100 {
        assert q.sessions[|p.sessions|] == s;
      }
      if SomeScoreOver100(q.sessions) {
        var i :| 0 <= i < |q.sessions| && q.sessions[i].score > 100;
        if i < |p.sessions| {
          assert p.sessions[i] == q.sessions[i];
        }
      }
    }
    forall i | 0 <= i < |q.achievements|
      ensures q.achievements[i] in {First100, Dedicated}
    {
      if i < |p.achievements| {
        assert q.achievements[i] == p.achievements[i];
      } else {
        assert q.achievements[i] in q.achievements;
      }
    }
  }

  /** Folding a list of sessions keeps the aggregate consistent with its history. */
  lemma {:induction false} FoldAllPreservesValid(p: UserProgress, ss: seq<GameSession>)
    requires Valid(p)
    ensures Valid(FoldAll(p, ss))
    decreases |ss|
  {
    if ss != [] {
      FoldPreservesValid(p, ss[0]);
      FoldAllPreservesValid(Fold(p, ss[0]), ss[1..]);
    }
  }

  /** Folding a list of sessions adds their scores and their count and appends them in order. */
  lemma {:induction false} FoldAllTotals(p: UserProgress, ss: seq<GameSession>)
    ensures FoldAll(p, ss).totalPoints == p.totalPoints + SumScores(ss)
    ensures FoldAll(p, ss).gamesPlayed == p.gamesPlayed + |ss|
    ensures FoldAll(p, ss).sessions == p.sessions + ss
    ensures FoldAll(p, ss).streak == p.streak
    decreases |ss|
  {
    if ss != [] {
      var q := Fold(p, ss[0]);
      FoldAllTotals(q, ss[1..]);
      SumScoresPrepend(ss[0], ss[1..]);
      assert [ss[0]] + ss[1..] == ss;
      assert p.sessions + [ss[0]] + ss[1..] == p.sessions + ss;
    }
  }

  lemma {:induction false} SumScoresPrepend(s: GameSession, ss: seq<GameSession>)
    ensures SumScores([s] + ss) == s.score + SumScores(ss)
    decreases |ss|
  {
    if ss != [] {
      var init := ss[..|ss| - 1];
      assert ([s] + ss)[..|ss|] == [s] + init;
      SumScoresPrepend(s, init);
    }
  }

  lemma ValidIsSound(p: UserProgress)
    requires Valid(p)
    ensures Sound(p)
  {
  }

  /** The fold keeps the weaker invariant too. */
  lemma {:induction false} FoldPreservesSound(p: UserProgress, s: GameSession)
    requires Sound(p)
    ensures Sound(Fold(p, s))
  {
    var q := Fold(p, s);
    SumScoresAppend(p.sessions, s);
    if SomeScoreOver100(q.sessions) && s.score <= 100 {
      var i :| 0 <= i < |q.sessions| && q.sessions[i].score > 100;
      assert i < |p.sessions| && p.sessions[i] == q.sessions[i];
    }
    forall i | 0 <= i < |q.achievements|
      ensures q.achievements[i] in {First100, Dedicated}
    {
      if i < |p.achievements| {
        assert q.achievements[i] == p.achievements[i];
      } else {
        assert q.achievements[i] in q.achievements;
      }
    }
  }

  /**
   * Replacing the achievements by a longer list that starts with them, holds no key twice and
   * only the fold's keys keeps the weaker invariant: what was held is still held.
   */
  lemma SharedListKeepsSound(p: UserProgress, shared: seq<string>)
    requires Sound(p) && p.achievements <= shared && NoDuplicates(shared)
    requires forall i :: 0 <= i < |shared| ==> shared[i] in {First100, Dedicated}
    ensures Sound(p.(achievements := shared))
  {
    if First100 in p.achievements {
      var i :| 0 <= i < |p.achievements| && p.achievements[i] == First100;
      assert shared[i] == First100;
    }
    if Dedicated in p.achievements {
      var i :| 0 <= i < |p.achievements| && p.achievements[i] == Dedicated;
      assert shared[i] == Dedicated;
    }
  }

  /** Achievements are never removed: every key held before a run of folds is held after it. */
  lemma {:induction false} AchievementsOnlyGrow(p: UserProgress, ss: seq<GameSession>, k: string)
    requires k in p.achievements
    ensures k in FoldAll(p, ss).achievements
    decreases |ss|
  {
    if ss != [] {
      AchievementsOnlyGrow(Fold(p, ss[0]), ss[1..], k);
    }
  }

  /**
   * From the zero state: `first100` is held exactly when some session scored more than 100,
   * `dedicated` exactly when ten or more games were played, no key is held twice, `master`
   * is never held, and the level is the one the lifetime total earns.
   */
  lemma HistoryDeterminesProgress(ss: seq<GameSession>)
    ensures var p := FoldAll(ZeroProgress(), ss);
      && (First100 in p.achievements <==> SomeScoreOver100(ss))
      && (Dedicated in p.achievements <==> |ss| >= 10)
      && Master !in p.achievements
      && NoDuplicates(p.achievements)
      && p.totalPoints == SumScores(ss)
      && p.level == LevelFor(SumScores(ss))
  {
    FoldAllPreservesValid(ZeroProgress(), ss);
    FoldAllTotals(ZeroProgress(), ss);
    var p := FoldAll(ZeroProgress(), ss);
    assert p.sessions == ss;
  }
}

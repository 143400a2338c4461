/**
 * The app as a state machine: every user action and timer callback that changes the
 * session state is an event, `Step` applies its handler, and `Enabled` says when the
 * screen can deliver it (which buttons are rendered for the active game). `Consistent`
 * is the invariant every delivered event preserves.
 */
module Events {
  import opened Common
  import opened Progress
  import opened SlidingPuzzle
  import opened Session

  datatype Event =
    | StartColorMemoryClicked(newColor: Color)
    | PlaybackFinished
    | ColorClicked(color: Color, date: string)
    | NextRoundTimer(newColor: Color)
    | StartSelectiveAttentionClicked(target: Shape)
    | ShapeClicked(shape: Shape, date: string)
    | StartSustainedFocusClicked
    | StartPuzzleClicked(board: Board)
    | PieceClicked(pieceId: int)
    | PuzzleTimerFired(clicked: GameState, shared: seq<string>, date: string)
    | StartWeeklyChallengeClicked
    | CompleteChallengeClicked(date: string)
    | TimerTick
    | PauseClicked
    | ResetGameClicked
    | ResetProgressConfirmed

  /**
   * The state after one event. The round timer set by a completed colour round builds the next
   * sequence from the state it fires in; the puzzle timer reads the state its click captured and
   * the achievements array that state's progress refers to. Apart from the confirmed reset, the
   * progress changes only when a game ends.
   */
  function Step(s: GameState, e: Event): (r: GameState)
    ensures !e.ResetProgressConfirmed? && r.progress != s.progress ==> !r.isPlaying && r.activeGame == None
  {
    match e
    case StartColorMemoryClicked(c) => StartColorMemory(s, c)
    case PlaybackFinished => EndPlayback(s)
    case ColorClicked(c, date) => HandleColorClick(s, c, date)
    case NextRoundTimer(c) => GenerateColorSequence(s, s, c)
    case StartSelectiveAttentionClicked(target) => StartSelectiveAttention(s, target)
    case ShapeClicked(shape, date) => HandleShapeClick(s, shape, date)
    case StartSustainedFocusClicked => StartSustainedFocus(s)
    case StartPuzzleClicked(board) => StartPuzzle(s, board)
    case PieceClicked(id) => HandlePuzzleClick(s, id)
    case PuzzleTimerFired(clicked, shared, date) => PuzzleTimeout(clicked, s, shared, date)
    case StartWeeklyChallengeClicked => StartWeeklyChallenge(s)
    case CompleteChallengeClicked(date) => CompleteWeeklyChallenge(s, date)
    case TimerTick => Tick(s)
    case PauseClicked => TogglePause(s)
    case ResetGameClicked => ResetGame(s)
    case ResetProgressConfirmed => ResetProgress(s)
  }

  /** The colour input so far is a proper prefix of the sequence. */
  ghost predicate ColorInputIsPrefix(s: GameState) {
    |s.playerSequence| < |s.colorSequence| && s.playerSequence == s.colorSequence[..|s.playerSequence|]
  }

  /** The puzzle board is valid and the score is 0 until completion, then the score of the moves before the last. */
  ghost predicate PuzzleConsistent(s: GameState) {
    && ValidBoard(s.puzzlePieces)
    && (!s.puzzleCompleted ==> s.gameScore == 0)
    && (s.puzzleCompleted ==>
          s.puzzleMoves >= 1 && Completed(s.puzzlePieces) && s.gameScore == PuzzleScore(s.puzzleMoves - 1))
  }

  /** The invariant of the session state. */
  ghost predicate Consistent(s: GameState) {
    && s.gameScore >= 0
    && Sound(s.progress)
    && (s.activeGame == Some(ColorMemory) ==> ColorInputIsPrefix(s))
    && (s.activeGame == Some(SelectiveAttention) ==> s.correctClicks < HitsToFinish)
    && (s.activeGame == Some(Puzzle) ==> PuzzleConsistent(s))
  }

  /**
   * When the screen can deliver `e`: the game list (start buttons) only while no game is active,
   * a game's buttons only while that game is active, pause and back-to-menu only during a game,
   * the challenge button only while the challenge is not completed, a puzzle start only with a
   * shuffled board, and the puzzle timer only after a click that completed an active puzzle.
   * The array the timer's captured progress refers to only ever grows by the fold's pushes, so it
   * starts with the captured achievements and holds only the fold's keys, none twice.
   */
  ghost predicate Enabled(s: GameState, e: Event) {
    match e
    case StartColorMemoryClicked(_) => s.activeGame == None
    case StartSelectiveAttentionClicked(_) => s.activeGame == None
    case StartSustainedFocusClicked => s.activeGame == None
    case StartWeeklyChallengeClicked => s.activeGame == None
    case StartPuzzleClicked(board) => s.activeGame == None && ValidBoard(board)
    case ColorClicked(_, _) => s.activeGame == Some(ColorMemory)
    case ShapeClicked(_, _) => s.activeGame == Some(SelectiveAttention)
    case PieceClicked(_) => s.activeGame == Some(Puzzle)
    case CompleteChallengeClicked(_) => s.activeGame == Some(WeeklyChallenge) && !s.weeklyChallenge.completed
    case PauseClicked => s.activeGame.Some?
    case ResetGameClicked => s.activeGame.Some?
    case PuzzleTimerFired(clicked, shared, _) =>
      && Consistent(clicked) && clicked.activeGame == Some(Puzzle) && !clicked.puzzleCompleted
      && (exists id :: HandlePuzzleClick(clicked, id).puzzleCompleted)
      && clicked.progress.achievements <= shared && NoDuplicates(shared)
      && (forall i :: 0 <= i < |shared| ==> shared[i] in {First100, Dedicated})
    case PlaybackFinished => true
    case NextRoundTimer(_) => true
    case TimerTick => true
    case ResetProgressConfirmed => true
  }

  lemma InitialStateConsistent()
    ensures Consistent(InitialState())
  {
    ValidIsSound(InitialState().progress);
  }

  /** Ending a game from a consistent capture leaves a consistent state: no game is active any more. */
  lemma {:induction false} EndGameKeepsConsistent(captured: GameState, current: GameState, game: GameId, finalScore: int, date: string)
    requires Sound(captured.progress) && current.gameScore >= 0
    ensures Consistent(EndGame(captured, current, game, finalScore, date))
  {
    FoldPreservesSound(captured.progress, GameSession(game, finalScore, captured.gameTime, Accuracy(captured, game), date));
  }

  lemma {:induction false} ColorClickKeepsConsistent(s: GameState, c: Color, date: string)
    requires Consistent(s) && s.activeGame == Some(ColorMemory)
    ensures Consistent(HandleColorClick(s, c, date))
  {
    if !s.showingSequence && s.isPlaying {
      var entered := s.(playerSequence := s.playerSequence + [c]);
      if !ColorMatches(s, c) {
        EndGameKeepsConsistent(s, entered, ColorMemory, s.gameScore, date);
      } else if |s.playerSequence| + 1 < |s.colorSequence| {
        var k := |s.playerSequence|;
        assert entered.playerSequence == s.colorSequence[..k] + [s.colorSequence[k]];
        assert entered.playerSequence == s.colorSequence[..k + 1];
      }
    }
  }

  lemma {:induction false} ShapeClickKeepsConsistent(s: GameState, shape: Shape, date: string)
    requires Consistent(s) && s.activeGame == Some(SelectiveAttention)
    ensures Consistent(HandleShapeClick(s, shape, date))
  {
    if s.isPlaying && shape == s.targetShape {
      var hit := s.(gameScore := s.gameScore + HitPoints, correctClicks := s.correctClicks + 1);
      if s.correctClicks + 1 >= HitsToFinish {
        EndGameKeepsConsistent(s, hit, SelectiveAttention, s.gameScore + HitPoints, date);
      } else {
        assert HandleShapeClick(s, shape, date) == hit;
      }
    }
  }

  lemma {:induction false} PieceClickKeepsConsistent(s: GameState, id: int)
    requires Consistent(s) && s.activeGame == Some(Puzzle)
    ensures Consistent(HandlePuzzleClick(s, id))
  {
    PuzzleClickOutcomes(s, id);
  }

  /** Every event the screen can deliver keeps the session state consistent. */
  lemma {:induction false} StepKeepsConsistent(s: GameState, e: Event)
    requires Consistent(s) && Enabled(s, e)
    ensures Consistent(Step(s, e))
  {
    match e
    case ColorClicked(c, date) => ColorClickKeepsConsistent(s, c, date);
    case ShapeClicked(shape, date) => ShapeClickKeepsConsistent(s, shape, date);
    case PieceClicked(id) => PieceClickKeepsConsistent(s, id);
    case PuzzleTimerFired(clicked, shared, date) =>
      SharedListKeepsSound(clicked.progress, shared);
      var captured := clicked.(progress := clicked.progress.(achievements := shared));
      EndGameKeepsConsistent(captured, s, Puzzle, PuzzleScore(clicked.puzzleMoves), date);
    case CompleteChallengeClicked(date) =>
      if s.isPlaying {
        var done := s.(gameScore := ChallengePoints, weeklyChallenge := s.weeklyChallenge.(completed := true));
        EndGameKeepsConsistent(s, done, WeeklyChallenge, ChallengePoints, date);
      }
    case NextRoundTimer(c) =>
      if s.activeGame == Some(ColorMemory) {
        var r := Step(s, e);
        assert r.colorSequence[..|r.playerSequence|] == s.colorSequence[..|s.playerSequence|];
      }
    case _ =>
  }

  /** The state after a run of events. */
  function Run(s: GameState, es: seq<Event>): GameState
    decreases |es|
  {
    if es == [] then s else Run(Step(s, es[0]), es[1..])
  }

  /** Each event of the run can be delivered in the state it arrives in. */
  ghost predicate AllEnabled(s: GameState, es: seq<Event>)
    decreases |es|
  {
    es == [] || (Enabled(s, es[0]) && AllEnabled(Step(s, es[0]), es[1..]))
  }

  /** Runs of deliverable events keep the session state consistent. */
  lemma {:induction false} RunKeepsConsistent(s: GameState, es: seq<Event>)
    requires Consistent(s) && AllEnabled(s, es)
    ensures Consistent(Run(s, es))
    decreases |es|
  {
    if es != [] {
      StepKeepsConsistent(s, es[0]);
      RunKeepsConsistent(Step(s, es[0]), es[1..]);
    }
  }

  /**
   * From the start of the app, whatever the user does: the running score is never negative,
   * the level is the one the lifetime total earns, `first100` is held when some game scored
   * over 100, `dedicated` when ten games were played, no achievement is held twice and `master`
   * never. The converse directions do not hold: see `UnearnedFirst100`.
   */
  lemma ReachableStates(es: seq<Event>)
    requires AllEnabled(InitialState(), es)
    ensures var s := Run(InitialState(), es);
      && s.gameScore >= 0
      && s.progress.level == LevelFor(s.progress.totalPoints)
      && s.progress.totalPoints == SumScores(s.progress.sessions)
      && (SomeScoreOver100(s.progress.sessions) ==> First100 in s.progress.achievements)
      && (s.progress.gamesPlayed >= 10 ==> Dedicated in s.progress.achievements)
      && NoDuplicates(s.progress.achievements)
      && Master !in s.progress.achievements
  {
    InitialStateConsistent();
    RunKeepsConsistent(InitialState(), es);
  }

  /**
   * Lifetime points never go down: no finished game adds a negative score. The exceptions are the
   * confirmed progress reset and the puzzle timer, which folds into the progress its click captured.
   */
  lemma {:induction false} PointsNeverDecrease(s: GameState, e: Event)
    requires s.gameScore >= 0
    ensures e.PuzzleTimerFired? ==> Step(s, e).progress.totalPoints >= e.clicked.progress.totalPoints
    ensures !e.PuzzleTimerFired? && !e.ResetProgressConfirmed? ==>
      Step(s, e).progress.totalPoints >= s.progress.totalPoints
    ensures !e.PuzzleTimerFired? && !e.ResetProgressConfirmed? ==>
      Step(s, e).progress.gamesPlayed in {s.progress.gamesPlayed, s.progress.gamesPlayed + 1}
  {
  }

  // ----- the stale puzzle timer -----

  /** A puzzle one click from solved: piece 8 sits in cell 5 and piece 5 in the blank cell 8. */
  function OneMoveFromSolved(): Board {
    SwapPositions(InitialBoard(), 5, 8)
  }

  /** Clicking piece 8 on `b` is accepted and solves the puzzle. */
  ghost predicate SolvedByOneClick(b: Board) {
    ValidBoard(b) && TryMove(b, 8).Some? && Completed(TryMove(b, 8).value)
  }

  lemma OneClickSolves()
    ensures SolvedByOneClick(OneMoveFromSolved())
  {
    var init, b := InitialBoard(), OneMoveFromSolved();
    SwapKeepsValid(init, 5, 8);
    MoveAccepted(b, 8);
    MoveExchanges(b, 8);
    var e := FindBlank(b).value;
    assert b[e].position == BlankCell;
    assert e == 5;
    var r := TryMove(b, 8).value;
    assert r == SwapPositions(b, 8, 5);
    forall k | 0 <= k < |r|
      ensures r[k].position == r[k].correctPosition
    {
      if k != 5 && k != 8 {
        assert r[k] == init[k];
      }
    }
  }

  /** The puzzle on `board` as the completing click captures it: 80 moves made (worth 100 points), no progress yet. */
  function StaleClick(board: Board): GameState {
    GameState(ZeroProgress(), Some(Puzzle), 0, 0, true, [], [], false, Circle, 0, 100.0,
              board, 80, false, Challenge("", "", false))
  }

  /**
   * The state in which the puzzle timer fires: within its second the user went back to the menu,
   * started the weekly challenge and completed it. That fold spread the zero progress, so it pushed
   * `first100` into the very array the click's captured progress refers to.
   */
  function ChallengeEnded(): GameState {
    GameState(UserProgress(200, 1, [First100], [GameSession(WeeklyChallenge, ChallengePoints, 0, 100.0, "d")], 1, 0),
              None, ChallengePoints, 0, false, [], [], false, Circle, 0, 100.0,
              InitialBoard(), 81, true, Challenge("", "", true))
  }

  /** The timer fires with the shared array holding the challenge's `first100`. */
  function StaleTimer(board: Board): Event {
    PuzzleTimerFired(StaleClick(board), [First100], "d")
  }

  /** `ChallengeEnded` is what the handlers produce after the completing click, back, start and complete. */
  lemma ChallengeEndedAfterClick()
    ensures ChallengeEnded() ==
      CompleteWeeklyChallenge(StartWeeklyChallenge(ResetGame(HandlePuzzleClick(StaleClick(OneMoveFromSolved()), 8))), "d")
  {
    var b := OneMoveFromSolved();
    OneClickSolves();
    MoveExchanges(b, 8);
    CompletedIsInitial(TryMove(b, 8).value);
    var clicked := HandlePuzzleClick(StaleClick(b), 8);
    assert clicked.puzzlePieces == InitialBoard() && clicked.puzzleCompleted && clicked.puzzleMoves == 81;
    var started := StartWeeklyChallenge(ResetGame(clicked));
    assert started.progress == ZeroProgress() && started.gameTime == 0 && started.isPlaying;
    var session := GameSession(WeeklyChallenge, ChallengePoints, 0, 100.0, "d");
    assert Fold(ZeroProgress(), session) == ChallengeEnded().progress by {
      assert Unlock([], First100, true) == [First100];
      assert LevelFor(200) == 1;
    }
  }

  /** The state after the challenge satisfies the invariant. */
  lemma ChallengeEndedConsistent()
    ensures Consistent(ChallengeEnded())
  {
    var challenge := GameSession(WeeklyChallenge, ChallengePoints, 0, 100.0, "d");
    assert SumScores([challenge]) == 200;
    assert SomeScoreOver100([challenge]) by {
      assert [challenge][0].score > 100;
    }
  }

  /** The puzzle timer of a completing click can be delivered in any state. */
  lemma TimerEnabled(s: GameState, clicked: GameState, shared: seq<string>, date: string, id: int)
    requires Consistent(clicked) && clicked.activeGame == Some(Puzzle) && !clicked.puzzleCompleted
    requires HandlePuzzleClick(clicked, id).puzzleCompleted
    requires clicked.progress.achievements <= shared && NoDuplicates(shared)
    requires forall i :: 0 <= i < |shared| ==> shared[i] in {First100, Dedicated}
    ensures Enabled(s, PuzzleTimerFired(clicked, shared, date))
  {
  }

  /** On a board one click from solved, the stale timer can be delivered in the state after the challenge. */
  lemma StaleTimerEnabled(board: Board)
    requires SolvedByOneClick(board)
    ensures Enabled(ChallengeEnded(), StaleTimer(board))
  {
    var clicked := StaleClick(board);
    assert PuzzleConsistent(clicked);
    ValidIsSound(ZeroProgress());
    assert HandlePuzzleClick(clicked, 8).puzzleCompleted;
    var shared := [First100];
    assert NoDuplicates(shared);
    forall i | 0 <= i < |shared|
      ensures shared[i] in {First100, Dedicated}
    {
      assert shared[i] == First100;
    }
    TimerEnabled(ChallengeEnded(), clicked, shared, "d", 8);
  }

  /** What the stale timer writes: the captured, empty history plus its own 100-point session. */
  lemma StaleTimerProgress(board: Board)
    ensures Step(ChallengeEnded(), StaleTimer(board)).progress ==
      UserProgress(100, 1, [First100], [GameSession(Puzzle, 100, 0, 0.0, "d")], 1, 0)
  {
    var session := GameSession(Puzzle, 100, 0, 0.0, "d");
    assert PuzzleScore(80) == 100 && Accuracy(StaleClick(board), Puzzle) == 0.0;
    assert Fold(ZeroProgress().(achievements := [First100]), session).achievements == [First100];
  }

  /** What the stale timer leaves: `first100` with no session over 100, and 100 points where there were 200. */
  lemma StaleTimerOutcome(board: Board)
    ensures var s, r := ChallengeEnded(), Step(ChallengeEnded(), StaleTimer(board));
      && First100 in r.progress.achievements && !SomeScoreOver100(r.progress.sessions)
      && r.progress.totalPoints < s.progress.totalPoints && s.progress.sessions[0] !in r.progress.sessions
  {
    StaleTimerProgress(board);
    var r := Step(ChallengeEnded(), StaleTimer(board));
    assert r.progress.sessions == [GameSession(Puzzle, 100, 0, 0.0, "d")];
  }

  /**
   * The shared array lets a game that ended while the puzzle timer was pending leave its
   * achievement behind: after the challenge pushed `first100`, the timer records only its own
   * 100-point session on top of the captured, empty history, so `first100` is held although no
   * recorded session scored over 100.
   */
  lemma UnearnedFirst100()
    ensures exists s: GameState, e: Event ::
      && Consistent(s) && Enabled(s, e)
      && First100 in Step(s, e).progress.achievements
      && !SomeScoreOver100(Step(s, e).progress.sessions)
  {
    var board := OneMoveFromSolved();
    OneClickSolves();
    ChallengeEndedConsistent();
    StaleTimerEnabled(board);
    StaleTimerOutcome(board);
    var s, e := ChallengeEnded(), StaleTimer(board);
    assert Consistent(s) && Enabled(s, e)
      && First100 in Step(s, e).progress.achievements && !SomeScoreOver100(Step(s, e).progress.sessions);
  }

  /**
   * The same timer loses the challenge: the fold starts from the captured history, so the
   * challenge's session and its 200 points are gone and lifetime points drop from 200 to 100.
   */
  lemma StaleTimerLosesPoints()
    ensures exists s: GameState, e: Event ::
      && Consistent(s) && Enabled(s, e) && !e.ResetProgressConfirmed?
      && Step(s, e).progress.totalPoints < s.progress.totalPoints
      && |s.progress.sessions| > 0 && s.progress.sessions[0] !in Step(s, e).progress.sessions
  {
    var board := OneMoveFromSolved();
    OneClickSolves();
    ChallengeEndedConsistent();
    StaleTimerEnabled(board);
    StaleTimerOutcome(board);
    var s, e := ChallengeEnded(), StaleTimer(board);
    assert Consistent(s) && Enabled(s, e) && !e.ResetProgressConfirmed?
      && Step(s, e).progress.totalPoints < s.progress.totalPoints
      && |s.progress.sessions| > 0 && s.progress.sessions[0] !in Step(s, e).progress.sessions;
  }
}

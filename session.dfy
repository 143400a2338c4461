/**
 * The session controller of the focus-therapy app: the component state shared by the
 * mini-games and every event handler that changes it.
 *
 * A handler reads the state as it was when the handler was created (its "captured" state)
 * and queues setter calls; the result of a handler here is the state after all of its
 * setter calls have been applied. Setters given a value computed from the captured state
 * keep that value even where a setter queued earlier in the same handler changed the field.
 */
module Session {
  import opened Common
  import opened Progress
  import opened SlidingPuzzle

  datatype Color = Red | Blue | Green | Yellow | Purple | Pink
  datatype Shape = Circle | Square | Triangle

  datatype Challenge = Challenge(title: string, description: string, completed: bool)

  datatype GameState = GameState(
    progress: UserProgress,
    activeGame: Option<GameId>,
    gameScore: int,
    gameTime: nat,
    isPlaying: bool,
    // colour-sequence recall
    colorSequence: seq<Color>,
    playerSequence: seq<Color>,
    showingSequence: bool,
    // selective attention
    targetShape: Shape,
    correctClicks: nat,
    // sustained focus
    focusAccuracy: real,
    // sliding puzzle
    puzzlePieces: Board,
    puzzleMoves: nat,
    puzzleCompleted: bool,
    weeklyChallenge: Challenge)

  /** Points for completing a colour sequence, per element. */
  const PointsPerColor: int := 10
  /** Points for clicking the target shape, and the penalty for clicking another one. */
  const HitPoints: int := 15
  const MissPenalty: int := 5
  /** Hits after which the selective-attention game ends. */
  const HitsToFinish: nat := 20
  /** Points for completing the weekly challenge. */
  const ChallengePoints: int := 200

  /** The state when the app is first shown, before anything is loaded. */
  function InitialState(): (s: GameState)
    ensures Valid(s.progress) && s.progress.sessions == []
    ensures s.activeGame == None && !s.isPlaying && s.gameScore == 0 && s.gameTime == 0
    ensures s.colorSequence == [] && s.playerSequence == [] && s.puzzlePieces == []
  {
    GameState(ZeroProgress(), None, 0, 0, false, [], [], false, Circle, 0, 100.0, [], 0, false,
              Challenge("", "", false))
  }

  /** The four weekly challenge templates. */
  function WeeklyChallenges(): (cs: seq<Challenge>)
    ensures |cs| == 4
  {
    [ Challenge("Artista da Semana", "Complete 3 jogos de memória sem errar", false),
      Challenge("Mestre da Concentração", "Alcance 500 pontos em um único jogo", false),
      Challenge("Explorador Dedicado", "Jogue todos os jogos disponíveis", false),
      Challenge("Campeão da Precisão", "Consiga 95% de precisão em qualquer jogo", false) ]
  }

  /**
   * The weekly challenge at start-up: the stored one if there is one, otherwise the template
   * at the randomly drawn index `pick`.
   */
  function LoadChallenge(stored: Option<Challenge>, pick: nat): (c: Challenge)
    requires pick < |WeeklyChallenges()|
    ensures stored.Some? ==> c == stored.value
    ensures stored.None? ==> c in WeeklyChallenges() && !c.completed
  {
    match stored
    case Some(saved) => saved
    case None => WeeklyChallenges()[pick]
  }

  /** The part every start handler shares: the game becomes active, score and time restart, play begins. */
  function StartGame(s: GameState, game: GameId): (r: GameState)
    ensures r.activeGame == Some(game) && r.gameScore == 0 && r.gameTime == 0 && r.isPlaying
    ensures r.(activeGame := s.activeGame, gameScore := s.gameScore, gameTime := s.gameTime, isPlaying := s.isPlaying) == s
  {
    s.(activeGame := Some(game), gameScore := 0, gameTime := 0, isPlaying := true)
  }

  /**
   * The accuracy recorded for a finished game, read from the captured state: the focus accuracy,
   * the share of 20 hits, 100 or 0 for the puzzle by its completed flag, 100 for the challenge,
   * and the sequence length as a share of 10 for colour recall.
   */
  function Accuracy(captured: GameState, game: GameId): (a: real)
    ensures game == SustainedFocus ==> a == captured.focusAccuracy
    ensures game == SelectiveAttention ==> a == 5.0 * captured.correctClicks as real
    ensures game == Puzzle ==> (a == 100.0 <==> captured.puzzleCompleted) && (a == 0.0 <==> !captured.puzzleCompleted)
    ensures game == WeeklyChallenge ==> a == 100.0
    ensures game == ColorMemory ==> a == 10.0 * |captured.colorSequence| as real
  {
    match game
    case SustainedFocus => captured.focusAccuracy
    case SelectiveAttention => captured.correctClicks as real / 20.0 * 100.0
    case Puzzle => if captured.puzzleCompleted then 100.0 else 0.0
    case WeeklyChallenge => 100.0
    case ColorMemory => |captured.colorSequence| as real / 10.0 * 100.0
  }

  /**
   * The colour-recall accuracy is a percentage only up to ten colours: from the eleventh colour of
   * the sequence on, it exceeds 100.
   */
  lemma ColorAccuracyOver100(captured: GameState)
    ensures Accuracy(captured, ColorMemory) <= 100.0 <==> |captured.colorSequence| <= 10
  {
  }

  /**
   * Ends the game: play stops, no game is active, and the session (built from the captured
   * duration and accuracy) is folded into the captured progress. `current` carries the setter
   * calls the caller queued before.
   */
  function EndGame(captured: GameState, current: GameState, game: GameId, finalScore: int, date: string): (r: GameState)
    ensures !r.isPlaying && r.activeGame == None
    ensures r.progress.sessions == captured.progress.sessions + [GameSession(game, finalScore, captured.gameTime, Accuracy(captured, game), date)]
    ensures r.progress.totalPoints == captured.progress.totalPoints + finalScore
    ensures r.progress == Fold(captured.progress, GameSession(game, finalScore, captured.gameTime, Accuracy(captured, game), date))
    ensures r.(isPlaying := current.isPlaying, activeGame := current.activeGame, progress := current.progress) == current
  {
    var session := GameSession(game, finalScore, captured.gameTime, Accuracy(captured, game), date);
    current.(isPlaying := false, activeGame := None, progress := Fold(captured.progress, session))
  }

  /** The back-to-menu button: play stops, no game is active, score and time go back to zero. */
  function ResetGame(s: GameState): (r: GameState)
    ensures !r.isPlaying && r.activeGame == None && r.gameScore == 0 && r.gameTime == 0
    ensures r.(isPlaying := s.isPlaying, activeGame := s.activeGame, gameScore := s.gameScore, gameTime := s.gameTime) == s
  {
    s.(isPlaying := false, activeGame := None, gameScore := 0, gameTime := 0)
  }

  /** The confirmed "reset progress" button in the settings: the progress goes back to the zero state. */
  function ResetProgress(s: GameState): (r: GameState)
    ensures Valid(r.progress) && r.progress.totalPoints == 0 && r.progress.sessions == []
    ensures r.(progress := s.progress) == s
  {
    s.(progress := ZeroProgress())
  }

  /** One second of the game timer, which runs while a game is active and playing. */
  function Tick(s: GameState): (r: GameState)
    ensures r.gameTime == if s.isPlaying && s.activeGame.Some? then s.gameTime + 1 else s.gameTime
    ensures r.(gameTime := s.gameTime) == s
  {
    if s.isPlaying && s.activeGame.Some? then s.(gameTime := s.gameTime + 1) else s
  }

  /** The pause/resume button. */
  function TogglePause(s: GameState): (r: GameState)
    ensures r.isPlaying != s.isPlaying && r.(isPlaying := s.isPlaying) == s
  {
    s.(isPlaying := !s.isPlaying)
  }

  // ----- colour-sequence recall -----

  /**
   * Appends `newColor` to the sequence as the captured state had it and starts showing the
   * sequence. `newColor` stands for the randomly drawn colour.
   */
  function GenerateColorSequence(captured: GameState, current: GameState, newColor: Color): (r: GameState)
    ensures r.colorSequence == captured.colorSequence + [newColor] && r.showingSequence
    ensures r.(colorSequence := current.colorSequence, showingSequence := current.showingSequence) == current
  {
    current.(colorSequence := captured.colorSequence + [newColor], showingSequence := true)
  }

  /**
   * Starts colour recall. The sequence is cleared, but the new sequence is built from the
   * sequence the handler captured, so that clearing is overwritten.
   */
  function StartColorMemory(s: GameState, newColor: Color): (r: GameState)
    ensures r.activeGame == Some(ColorMemory) && r.isPlaying && r.gameScore == 0 && r.gameTime == 0
    ensures r.colorSequence == s.colorSequence + [newColor] && r.playerSequence == [] && r.showingSequence
    ensures r.(activeGame := s.activeGame, isPlaying := s.isPlaying, gameScore := s.gameScore, gameTime := s.gameTime,
               colorSequence := s.colorSequence, playerSequence := s.playerSequence, showingSequence := s.showingSequence) == s
  {
    var cleared := StartGame(s, ColorMemory).(colorSequence := [], playerSequence := []);
    GenerateColorSequence(s, cleared, newColor)
  }

  /** The last playback timer: the sequence is no longer shown. */
  function EndPlayback(s: GameState): (r: GameState)
    ensures !r.showingSequence && r.(showingSequence := s.showingSequence) == s
  {
    s.(showingSequence := false)
  }

  /** The player's next colour matches the sequence element at the same index. */
  predicate ColorMatches(s: GameState, color: Color) {
    var k := |s.playerSequence|;
    k < |s.colorSequence| && s.colorSequence[k] == color
  }

  /**
   * A click on a colour. Ignored while the sequence is shown or play is stopped. A colour that
   * does not match ends the game with the captured score; a colour that completes the sequence
   * adds ten points per element and clears the player's input.
   */
  function HandleColorClick(s: GameState, color: Color, date: string): (r: GameState)
    ensures r.colorSequence == s.colorSequence
    ensures r.gameScore >= s.gameScore
    ensures r.isPlaying ==> r.progress == s.progress
    // only the input, the score and, when the game ends, the play flag, the game and the progress change
    ensures r.(playerSequence := s.playerSequence, gameScore := s.gameScore, isPlaying := s.isPlaying,
               activeGame := s.activeGame, progress := s.progress) == s
  {
    if s.showingSequence || !s.isPlaying then s
    else
      var entered := s.(playerSequence := s.playerSequence + [color]);
      if !ColorMatches(s, color) then EndGame(s, entered, ColorMemory, s.gameScore, date)
      else if |entered.playerSequence| == |s.colorSequence| then
        entered.(gameScore := s.gameScore + |s.colorSequence| * PointsPerColor, playerSequence := [])
      else entered
  }

  /** The three outcomes of a colour click, and its ignored case. */
  lemma ColorClickOutcomes(s: GameState, color: Color, date: string)
    ensures s.showingSequence || !s.isPlaying ==> HandleColorClick(s, color, date) == s
    ensures !s.showingSequence && s.isPlaying && !ColorMatches(s, color) ==>
      var r := HandleColorClick(s, color, date);
      && !r.isPlaying && r.activeGame == None && r.gameScore == s.gameScore
      && r.progress == Fold(s.progress, GameSession(ColorMemory, s.gameScore, s.gameTime, Accuracy(s, ColorMemory), date))
      && r.playerSequence == s.playerSequence + [color]
      && r.(isPlaying := s.isPlaying, activeGame := s.activeGame, progress := s.progress, playerSequence := s.playerSequence) == s
    ensures !s.showingSequence && s.isPlaying && ColorMatches(s, color) ==>
      var r := HandleColorClick(s, color, date);
      && r.isPlaying && r.progress == s.progress && r.colorSequence == s.colorSequence
      && if |s.playerSequence| + 1 == |s.colorSequence|
         then r.gameScore == s.gameScore + PointsPerColor * |s.colorSequence| && r.playerSequence == []
         else r.gameScore == s.gameScore && r.playerSequence == s.playerSequence + [color]
    ensures !s.showingSequence && s.isPlaying && ColorMatches(s, color) ==>
      var r := HandleColorClick(s, color, date);
      r.(gameScore := s.gameScore, playerSequence := s.playerSequence) == s
  {
  }

  /** The state after the player clicks `colors` one after another. */
  function ClickColors(s: GameState, colors: seq<Color>, date: string): GameState
    decreases |colors|
  {
    if colors == [] then s else ClickColors(HandleColorClick(s, colors[0], date), colors[1..], date)
  }

  /**
   * Entering the rest of the sequence correctly, starting with a correct prefix entered,
   * completes the round: ten points per element, the input cleared, play goes on.
   */
  lemma {:induction false} EnterRestOfSequence(s: GameState, date: string)
    requires s.isPlaying && !s.showingSequence
    requires |s.playerSequence| < |s.colorSequence|
    requires s.playerSequence == s.colorSequence[..|s.playerSequence|]
    ensures var r := ClickColors(s, s.colorSequence[|s.playerSequence|..], date);
      && r.gameScore == s.gameScore + PointsPerColor * |s.colorSequence|
      && r.playerSequence == [] && r.colorSequence == s.colorSequence
      && r.isPlaying && r.progress == s.progress
    decreases |s.colorSequence| - |s.playerSequence|
  {
    var k := |s.playerSequence|;
    var rest := s.colorSequence[k..];
    var t := HandleColorClick(s, rest[0], date);
    assert ColorMatches(s, rest[0]);
    if k + 1 < |s.colorSequence| {
      assert t.playerSequence == s.colorSequence[..k + 1];
      assert rest[1..] == s.colorSequence[k + 1..];
      EnterRestOfSequence(t, date);
    } else {
      assert rest[1..] == [];
    }
  }

  /** Entering a shown sequence of length N element for element, from an empty input, awards 10·N points. */
  lemma EnterWholeSequence(s: GameState, date: string)
    requires s.isPlaying && !s.showingSequence && s.playerSequence == [] && s.colorSequence != []
    ensures var r := ClickColors(s, s.colorSequence, date);
      && r.gameScore == s.gameScore + PointsPerColor * |s.colorSequence|
      && r.playerSequence == [] && r.isPlaying
  {
    EnterRestOfSequence(s, date);
  }

  /** Restarting colour recall continues the previous game's sequence, one colour longer. */
  lemma RestartKeepsOldSequence(s: GameState, c: Color)
    ensures StartColorMemory(s, c).colorSequence == s.colorSequence + [c]
    ensures StartColorMemory(s, c).playerSequence == []
    ensures StartColorMemory(InitialState(), c).colorSequence == [c]
  {
  }

  // ----- selective attention -----

  /** Starts selective attention with the randomly drawn `target` shape; the shape layout is not modelled. */
  function StartSelectiveAttention(s: GameState, target: Shape): (r: GameState)
    ensures r.activeGame == Some(SelectiveAttention) && r.isPlaying && r.gameScore == 0 && r.gameTime == 0
    ensures r.correctClicks == 0 && r.targetShape == target
    ensures r.(activeGame := s.activeGame, isPlaying := s.isPlaying, gameScore := s.gameScore, gameTime := s.gameTime,
               correctClicks := s.correctClicks, targetShape := s.targetShape) == s
  {
    StartGame(s, SelectiveAttention).(correctClicks := 0, targetShape := target)
  }

  /**
   * A click on a shape. Ignored while play is stopped. The target shape adds 15 points and a
   * hit, and ends the game when this was the 20th hit; any other shape takes 5 points away,
   * never going below zero.
   */
  function HandleShapeClick(s: GameState, shape: Shape, date: string): (r: GameState)
    ensures s.gameScore >= 0 ==> r.gameScore >= 0
    ensures !s.isPlaying ==> r == s
    // only the score, the hits and, when the game ends, the play flag, the game and the progress change
    ensures r.(gameScore := s.gameScore, correctClicks := s.correctClicks, isPlaying := s.isPlaying,
               activeGame := s.activeGame, progress := s.progress) == s
  {
    if !s.isPlaying then s
    else if shape == s.targetShape then
      var hit := s.(gameScore := s.gameScore + HitPoints, correctClicks := s.correctClicks + 1);
      if s.correctClicks + 1 >= HitsToFinish then EndGame(s, hit, SelectiveAttention, s.gameScore + HitPoints, date)
      else hit
    else s.(gameScore := if s.gameScore - MissPenalty > 0 then s.gameScore - MissPenalty else 0)
  }

  /** The outcomes of a shape click: ignored while stopped, otherwise a hit or a miss. */
  lemma ShapeClickOutcomes(s: GameState, shape: Shape, date: string)
    ensures !s.isPlaying ==> HandleShapeClick(s, shape, date) == s
    ensures s.isPlaying ==>
      var r := HandleShapeClick(s, shape, date);
      && (shape == s.targetShape ==>
            && r.gameScore == s.gameScore + HitPoints && r.correctClicks == s.correctClicks + 1
            && (r.isPlaying <==> s.correctClicks + 1 < HitsToFinish)
            && (!r.isPlaying ==> r.progress.totalPoints == s.progress.totalPoints + s.gameScore + HitPoints)
            && (!r.isPlaying ==>
                  r.activeGame == None
                  && r.progress == Fold(s.progress, GameSession(SelectiveAttention, s.gameScore + HitPoints, s.gameTime,
                                                                Accuracy(s, SelectiveAttention), date)))
            && (r.isPlaying ==> r.activeGame == s.activeGame && r.progress == s.progress)
            && r.(gameScore := s.gameScore, correctClicks := s.correctClicks, isPlaying := s.isPlaying,
                  activeGame := s.activeGame, progress := s.progress) == s)
      && (shape != s.targetShape ==>
            && r.gameScore == (if s.gameScore >= MissPenalty then s.gameScore - MissPenalty else 0)
            && r.isPlaying && r.correctClicks == s.correctClicks
            && r.activeGame == s.activeGame && r.progress == s.progress
            && r.(gameScore := s.gameScore) == s)
  {
  }

  /** The state after `n` clicks on the target shape. */
  function HitTarget(s: GameState, n: nat, date: string): GameState
    decreases n
  {
    if n == 0 then s else HitTarget(HandleShapeClick(s, s.targetShape, date), n - 1, date)
  }

  /**
   * Hitting the target again and again ends the game exactly at the 20th hit; until then each hit
   * adds 15 points.
   */
  lemma {:induction false} HitsUntilEnd(s: GameState, n: nat, date: string)
    requires s.isPlaying && s.correctClicks < HitsToFinish && s.correctClicks + n <= HitsToFinish
    ensures var r := HitTarget(s, n, date);
      && r.gameScore == s.gameScore + HitPoints * n
      && r.correctClicks == s.correctClicks + n
      && (r.isPlaying <==> s.correctClicks + n < HitsToFinish)
      && r.targetShape == s.targetShape
    decreases n
  {
    if n > 0 {
      var t := HandleShapeClick(s, s.targetShape, date);
      if n > 1 {
        HitsUntilEnd(t, n - 1, date);
      }
    }
  }

  // ----- sustained focus -----

  /** Starts sustained focus; the moving target and the mouse tracking are not modelled. */
  function StartSustainedFocus(s: GameState): (r: GameState)
    ensures r.activeGame == Some(SustainedFocus) && r.isPlaying && r.gameScore == 0 && r.gameTime == 0
    ensures r.focusAccuracy == 100.0
    ensures r.(activeGame := s.activeGame, isPlaying := s.isPlaying, gameScore := s.gameScore, gameTime := s.gameTime,
               focusAccuracy := s.focusAccuracy) == s
  {
    StartGame(s, SustainedFocus).(focusAccuracy := 100.0)
  }

  // ----- sliding puzzle -----

  /** Starts the puzzle on the shuffled `board`: no moves yet, not completed. */
  function StartPuzzle(s: GameState, board: Board): (r: GameState)
    ensures r.activeGame == Some(Puzzle) && r.isPlaying && r.gameScore == 0 && r.gameTime == 0
    ensures r.puzzleMoves == 0 && !r.puzzleCompleted && r.puzzlePieces == board
    ensures r.(activeGame := s.activeGame, isPlaying := s.isPlaying, gameScore := s.gameScore, gameTime := s.gameTime,
               puzzleMoves := s.puzzleMoves, puzzleCompleted := s.puzzleCompleted, puzzlePieces := s.puzzlePieces) == s
  {
    StartGame(s, Puzzle).(puzzleMoves := 0, puzzleCompleted := false, puzzlePieces := board)
  }

  /** Starts the puzzle on a board shuffled with the random indices `picks`. */
  method StartPuzzleGame(s: GameState, picks: seq<nat>) returns (r: GameState)
    requires |picks| == CellCount && forall i :: 0 <= i < |picks| ==> picks[i] <= i
    ensures r == StartPuzzle(s, Shuffled(picks))
    ensures ValidBoard(r.puzzlePieces)
  {
    var board := ShuffledBoard(picks);
    r := StartPuzzle(s, board);
  }

  /**
   * A click on a puzzle piece. Ignored while play is stopped or once the puzzle is completed,
   * and when the move is rejected. An accepted move counts one more move; if it completes the
   * board, the score becomes the puzzle score for the move count read before this move.
   */
  function HandlePuzzleClick(s: GameState, pieceId: int): (r: GameState)
    ensures r.puzzleMoves == s.puzzleMoves || r.puzzleMoves == s.puzzleMoves + 1
    ensures r.(puzzlePieces := s.puzzlePieces, puzzleMoves := s.puzzleMoves, puzzleCompleted := s.puzzleCompleted,
               gameScore := s.gameScore) == s
    ensures r.puzzleCompleted != s.puzzleCompleted ==> r.puzzleCompleted && r.gameScore == PuzzleScore(s.puzzleMoves)
    ensures r.puzzleCompleted == s.puzzleCompleted ==> r.gameScore == s.gameScore
  {
    if !s.isPlaying || s.puzzleCompleted then s
    else match TryMove(s.puzzlePieces, pieceId)
      case None => s
      case Some(board) =>
        var moved := s.(puzzlePieces := board, puzzleMoves := s.puzzleMoves + 1);
        if Completed(board) then moved.(puzzleCompleted := true, gameScore := PuzzleScore(s.puzzleMoves))
        else moved
  }

  /**
   * The timer set by the completing click: ends the game with the points computed at the click,
   * reading the state `clicked` as the click handler captured it. Each fold spreads the old
   * progress object into the new one, so they share one achievements array, and the fold pushes
   * into it. `shared` is what that array of the captured progress holds when the timer fires:
   * the captured achievements followed by whatever games ended since appended.
   */
  function PuzzleTimeout(clicked: GameState, current: GameState, shared: seq<string>, date: string): (r: GameState)
    ensures !r.isPlaying && r.activeGame == None
    ensures r.progress.sessions == clicked.progress.sessions + [GameSession(Puzzle, PuzzleScore(clicked.puzzleMoves), clicked.gameTime, Accuracy(clicked, Puzzle), date)]
    ensures r.progress.totalPoints == clicked.progress.totalPoints + PuzzleScore(clicked.puzzleMoves)
    ensures r.progress.gamesPlayed == clicked.progress.gamesPlayed + 1
    ensures r.progress.level == LevelFor(r.progress.totalPoints) && r.progress.streak == clicked.progress.streak
    ensures shared <= r.progress.achievements
    ensures forall k :: k in r.progress.achievements <==>
      (k in shared || (k == First100 && PuzzleScore(clicked.puzzleMoves) > 100) || (k == Dedicated && r.progress.gamesPlayed >= 10))
    ensures r.progress == Fold(clicked.progress.(achievements := shared),
                               GameSession(Puzzle, PuzzleScore(clicked.puzzleMoves), clicked.gameTime, Accuracy(clicked, Puzzle), date))
    ensures r.(isPlaying := current.isPlaying, activeGame := current.activeGame, progress := current.progress) == current
  {
    var captured := clicked.(progress := clicked.progress.(achievements := shared));
    EndGame(captured, current, Puzzle, PuzzleScore(clicked.puzzleMoves), date)
  }

  /** The outcomes of a puzzle click on a valid board. */
  lemma PuzzleClickOutcomes(s: GameState, pieceId: int)
    requires ValidBoard(s.puzzlePieces)
    ensures var r := HandlePuzzleClick(s, pieceId);
      && (!s.isPlaying || s.puzzleCompleted ==> r == s)
      && (s.isPlaying && !s.puzzleCompleted ==>
            if 0 <= pieceId < CellCount && IsAdjacent(s.puzzlePieces[pieceId].position, BlankCell)
            then r.puzzleMoves == s.puzzleMoves + 1 && ValidBoard(r.puzzlePieces)
              && r.puzzlePieces == TryMove(s.puzzlePieces, pieceId).value
              && (r.puzzleCompleted <==> Completed(r.puzzlePieces))
              && (r.puzzleCompleted ==> r.gameScore == PuzzleScore(r.puzzleMoves - 1))
            else r == s)
  {
    MoveAccepted(s.puzzlePieces, pieceId);
    if s.isPlaying && !s.puzzleCompleted && TryMove(s.puzzlePieces, pieceId).Some? {
      MoveExchanges(s.puzzlePieces, pieceId);
      var board := TryMove(s.puzzlePieces, pieceId).value;
      var r := HandlePuzzleClick(s, pieceId);
      assert r.puzzlePieces == board && r.puzzleMoves == s.puzzleMoves + 1;
      assert r.puzzleCompleted <==> Completed(board);
    }
  }

  /** The session the completion timer records always reports accuracy 0: the click captured the puzzle as not completed. */
  lemma PuzzleSessionAccuracy(clicked: GameState, current: GameState, shared: seq<string>, date: string)
    requires !clicked.puzzleCompleted
    ensures var sessions := PuzzleTimeout(clicked, current, shared, date).progress.sessions;
      && sessions[|sessions| - 1].accuracy == 0.0
      && 100 <= sessions[|sessions| - 1].score <= 500
  {
  }

  // ----- weekly challenge -----

  function StartWeeklyChallenge(s: GameState): (r: GameState)
    ensures r.activeGame == Some(WeeklyChallenge) && r.isPlaying && r.gameScore == 0 && r.gameTime == 0
    ensures r.(activeGame := s.activeGame, isPlaying := s.isPlaying, gameScore := s.gameScore, gameTime := s.gameTime) == s
  {
    StartGame(s, WeeklyChallenge)
  }

  /** Completing the weekly challenge: 200 points, the challenge marked completed, and the game ends. */
  function CompleteWeeklyChallenge(s: GameState, date: string): (r: GameState)
    ensures s.isPlaying ==> r.weeklyChallenge == s.weeklyChallenge.(completed := true)
    ensures s.isPlaying ==> r.gameScore == ChallengePoints && !r.isPlaying && r.activeGame == None
    ensures s.isPlaying ==> r.progress.sessions == s.progress.sessions + [GameSession(WeeklyChallenge, ChallengePoints, s.gameTime, 100.0, date)]
    ensures s.isPlaying ==> r.progress.totalPoints == s.progress.totalPoints + ChallengePoints
    ensures s.isPlaying ==> r.progress.gamesPlayed == s.progress.gamesPlayed + 1 && r.progress.level == LevelFor(r.progress.totalPoints)
    // the challenge's 200 points always pass the `first100` threshold
    ensures s.isPlaying ==> First100 in r.progress.achievements && s.progress.achievements <= r.progress.achievements
    ensures s.isPlaying ==> r.progress == Fold(s.progress, GameSession(WeeklyChallenge, ChallengePoints, s.gameTime, 100.0, date))
    ensures s.isPlaying ==> r.(weeklyChallenge := s.weeklyChallenge, gameScore := s.gameScore, isPlaying := s.isPlaying,
                               activeGame := s.activeGame, progress := s.progress) == s
    ensures !s.isPlaying ==> r == s
  {
    if !s.isPlaying then s
    else
      var done := s.(gameScore := ChallengePoints, weeklyChallenge := s.weeklyChallenge.(completed := true));
      EndGame(s, done, WeeklyChallenge, ChallengePoints, date)
  }
}

# Focus-therapy games: a Dafny model of the session controller

The app is a single-page set of attention-training mini-games: colour-sequence recall,
selective attention (click the target shape), sustained focus, a 3×3 sliding puzzle and a
weekly challenge. One component holds the whole state. Every finished game becomes a *session*. `endGame` folds that session into the
user's lifetime *progress*: total points, games played, level (one per 500 points) and the
`first100` / `dedicated` achievements. This project models that component and proves what
its handlers guarantee.

The model is split into these modules:

- `Common` holds `Option` and `NoDuplicates`.
- `Progress` covers the session record and the lifetime progress aggregate.
  - `Fold` is the progress half of `endGame`, and `ZeroProgress` is the initial and reset state.
  - `Valid` ties an aggregate built by folds to its history exactly: each achievement is held iff it was earned.
  - `Sound` is the weaker form that the running app keeps: each earned achievement is held.
- `SlidingPuzzle` covers the puzzle's pieces, adjacency, move and completion test.
  - It also holds the move-count score.
  - The in-place Fisher–Yates shuffle is a `method` over an `array`.
  - It is proved to deal exactly the board of a functional reference, `Shuffled(picks)`, and that board is proved valid: a permutation of the nine cells.
- `TimeFormat` covers `formatTime` (`m:ss`) and an independent parser.
  - It pins the minutes and seconds fields.
  - It proves that parsing a formatted time gives the seconds back.
- `Session` holds the component state (`GameState`) and every handler as a function of the state the handler captured.
  - React closures read the state of the render that created them, and setters are applied afterwards.
  - So `EndGame(captured, current, …)` takes its progress, duration and accuracy from `captured`, and the already-queued setter results from `current`.
- `Events` treats the app as a state machine: one event per button or timer callback, and `Enabled` for when the screen can deliver it.
  - `Consistent` is an invariant preserved by every deliverable event and by every run from the initial state.

The model keeps these behaviours of the code as they are:

- **The puzzle blank.** The empty square is "the piece whose position is 8", and a move gives the clicked piece position 8.
  - So the blank cell is always cell 8, and only the pieces in cells 5, 7 and 8 ever move.
  - A shuffle that moved any other piece can never be completed (`OnlyCellsNearBlankMove`, `SolvableOnlyIfOuterPiecesHome`).
- **Stale state in the puzzle.**
  - The completion score is computed from the move count before the winning move.
  - The session recorded by the completion timer has accuracy 0, because its closure captured `puzzleCompleted == false` (`PuzzleSessionAccuracy`).
- **The shared achievements array.**
  - `endGame` spreads the old progress object into the new one, so both refer to one achievements array, and the achievement tests push into it.
  - The puzzle timer folds into the progress its click captured, and so into that shared array, as it is when the timer fires (`PuzzleTimeout`).
  - So a game ended in that second can leave `first100` behind with no session over 100 on record (`UnearnedFirst100`).
  - The running app therefore keeps only "earned ⇒ held" (`Sound`, `ReachableStates`).
- **Stale state in colour recall.** Starting colour recall clears the sequence, but the new sequence is built from the captured old one, so a restart continues the previous sequence (`RestartKeepsOldSequence`).
- **Lost games under the stale timer.** The same timer also drops any game that ended within its second.
  - It folds into the captured history, which does not have that game's session.
  - So `Events.PointsNeverDecrease` has to exempt the puzzle timer: lifetime points can fall, from 200 to 100 in `StaleTimerLosesPoints`.
- **Colour-recall accuracy.** The recorded accuracy is 10 per colour of the sequence, so it passes 100 from the eleventh colour on (`ColorAccuracyOver100`).
- **The `master` achievement.** It is listed in the UI but never awarded (`HistoryDeterminesProgress`, `ReachableStates`).
- **Sustained focus.** The game never ends through `endGame`.

## Model

| member | source | states |
|---|---|---|
| Progress.LevelFor | src/app/page.tsx:402 | the level is the one with `(level-1)·500 <= points < level·500`, at least 1 for non-negative points |
| Progress.ZeroProgress | src/app/page.tsx:994-1001 | the reset (and initial) progress is valid: no points, no sessions, no achievements, level 1 |
| Progress.Unlock | src/app/page.tsx:406-411 | a guarded push: the old list is a prefix of the result, at most one key is added, the keys held are the old ones plus `key` exactly when `unlock`, and no duplicate is created |
| Progress.Fold | src/app/page.tsx:397-411 | adds the score and one game, appends the session, sets the level from the new total and keeps the streak. Achievements only grow (old list is a prefix). A key is held afterwards iff it was held, or it is `first100` with score > 100, or `dedicated` with ≥ 10 games. No key is added twice. Points do not drop for a non-negative score |
| Progress.SumScoresAppend | src/app/page.tsx:399-401 | the total of the history grows by exactly the appended session's score |
| Progress.FoldPreservesValid | src/app/page.tsx:397-411 | a fold keeps the aggregate consistent with its history: totals, count, level, achievements iff thresholds, no duplicates |
| Progress.FoldAllPreservesValid | src/app/page.tsx:397-411 | any sequence of finished games keeps the aggregate consistent |
| Progress.FoldAllTotals | src/app/page.tsx:397-403 | folding a list of sessions adds their scores and their count, appends them in order, leaves the streak |
| Progress.SumScoresPrepend | src/app/page.tsx:399 | the total of a history is the first score plus the total of the rest |
| Progress.AchievementsOnlyGrow | src/app/page.tsx:405-411 | an achievement once held is never removed by later games |
| Progress.HistoryDeterminesProgress | src/app/page.tsx:397-411 | from the zero state, folds alone give: `first100` iff some session scored over 100, `dedicated` iff ≥ 10 games, `master` never, no duplicates, total and level from the history |
| Progress.ValidIsSound | src/app/page.tsx:397-411 | the exact invariant implies the weaker one; this is how the zero progress (initial state, reset, the timer witnesses' captured progress) enters `Consistent` |
| Progress.FoldPreservesSound | src/app/page.tsx:397-411 | a fold keeps counters, total and level in line with the history, keys within `first100`/`dedicated`, no duplicates, and every earned achievement held |
| Progress.SharedListKeepsSound | src/app/page.tsx:397-410 | reading the achievements from a shared array that has grown since, without duplicates and with only the fold's keys, keeps the weaker invariant |
| SlidingPuzzle.IsAdjacent | src/app/page.tsx:325-332 | adjacent cells are distinct |
| SlidingPuzzle.AdjacentIffNeighbour | src/app/page.tsx:325-332 | the row/column adjacency test agrees with the table of a 3×3 grid's orthogonal neighbours |
| SlidingPuzzle.Range | src/app/page.tsx:299-303 | the cell list 0..n-1 |
| SlidingPuzzle.InitialBoard | src/app/page.tsx:299-303 | the unshuffled board is valid and solved |
| SlidingPuzzle.SwapPositions | src/app/page.tsx:308-310 | pieces i and j trade positions (for i = j the board is unchanged), every other piece is unchanged |
| SlidingPuzzle.SwapKeepsPositions | src/app/page.tsx:308-310 | exchanging two positions keeps the multiset of positions |
| SlidingPuzzle.SwapKeepsValid | src/app/page.tsx:306-311 | exchanging two positions keeps a valid board valid |
| SlidingPuzzle.SwapKeepsMultiset | src/app/page.tsx:308-310 | exchanging two elements of a sequence keeps its multiset |
| SlidingPuzzle.ShuffleFrom | src/app/page.tsx:306-311 | the functional reference for the shuffle loop (steps i down to 1, step k exchanging pieces k and picks[k]) keeps the board's length; `ShuffleFromValid` proves it keeps validity and `ShuffledBoard` proves that the loop computes it |
| SlidingPuzzle.ShuffleFromValid | src/app/page.tsx:306-311 | any run of shuffle steps keeps a board valid |
| SlidingPuzzle.ShuffledValid | src/app/page.tsx:298-313 | for any picks `j <= i` the dealt board is valid: ids and home cells 0..8, positions a permutation of 0..8 |
| SlidingPuzzle.IdlePicksDealSolvedBoard | src/app/page.tsx:306-311 | picks that never exchange two pieces deal the solved board back |
| SlidingPuzzle.ShuffledBoard | src/app/page.tsx:298-313 | the in-place array shuffle deals exactly the reference board `Shuffled(picks)`, which is valid |
| SlidingPuzzle.Find | src/app/page.tsx:319-320 | `find` returns the first index whose piece matches, or none when no piece does; the lookups `FindById` (by id, line 319) and `FindBlank` (the piece in cell 8, line 320) are its two uses |
| SlidingPuzzle.FindByIdOnValidBoard | src/app/page.tsx:319 | on a board where piece k has id k, the piece with a given id is found exactly when the id is in range |
| SlidingPuzzle.Exchange | src/app/page.tsx:336-344 | ids and home cells stay; the clicked piece takes the blank's position, the blank piece the clicked one's, every other piece is unchanged |
| SlidingPuzzle.TryMove | src/app/page.tsx:319-346 | a move happens iff both lookups (`FindById`, `FindBlank`) succeed and the two cells are adjacent, and then it is the exchange of those two pieces |
| SlidingPuzzle.OccupiedCells | src/app/page.tsx:320 | on a valid board, the occupied cells are exactly 0..8 |
| SlidingPuzzle.ValidBoardCells | src/app/page.tsx:320-322 | on a valid board every position is a cell and the piece in cell 8 is always found |
| SlidingPuzzle.AdjacentToBlankCell | src/app/page.tsx:325-332 | only cells 5 and 7 are adjacent to cell 8 |
| SlidingPuzzle.MoveAccepted | src/app/page.tsx:316-334 | a move is accepted iff the piece exists and is adjacent to the piece in cell 8, i.e. it sits in cell 5 or 7 |
| SlidingPuzzle.MoveExchanges | src/app/page.tsx:334-346 | an accepted move exchanges the positions of the clicked piece and the blank piece (two distinct pieces) and keeps the board valid |
| SlidingPuzzle.MoveOnValidBoard | src/app/page.tsx:316-347 | acceptance iff, plus the exchange: the clicked piece moves to cell 8, the blank piece to the clicked cell, the rest stay |
| SlidingPuzzle.OnlyCellsNearBlankMove | src/app/page.tsx:316-347 | along any sequence of clicks the board stays valid and every piece that started outside cells 5, 7, 8 never moves |
| SlidingPuzzle.SolvableOnlyIfOuterPiecesHome | src/app/page.tsx:298-350 | a shuffled board can be completed only if every piece outside cells 5, 7, 8 was shuffled to its home cell |
| SlidingPuzzle.CompletedIsInitial | src/app/page.tsx:350 | on a valid board the completion test `Completed` (every piece on its home cell) holds exactly for the solved board |
| SlidingPuzzle.PuzzleScore | src/app/page.tsx:353 | the score is between 100 and 500, `500 - 5·moves` below 80 moves, and 100 exactly from 80 moves on |
| TimeFormat.Digit | src/app/page.tsx:427 | a digit below ten is a decimal character of that value |
| TimeFormat.DigitValue | src/app/page.tsx:427 | a decimal character's value is below ten |
| TimeFormat.NatToString | src/app/page.tsx:427 | the decimal rendering is a non-empty string of digits, one digit exactly for numbers below ten, with a leading `0` only for zero |
| TimeFormat.NatToStringValue | src/app/page.tsx:427 | the decimal rendering reads back as the number |
| TimeFormat.PadStart2 | src/app/page.tsx:427 | `padStart(2, '0')`: length max(2, \|s\|), ends with `s`, zeros before it |
| TimeFormat.FormatTime | src/app/page.tsx:424-428 | the text is a minutes field, `:`, and a two-digit seconds field. The minutes digits read as ⌊n/60⌋ with no leading zero (a `0` only as the whole field). The seconds digits read as n mod 60 |
| TimeFormat.ParseTime | src/app/page.tsx:424-428 | the reference reading of `m:ss` accepts only text with a colon before two final characters |
| TimeFormat.PaddedSecondsValue | src/app/page.tsx:426-427 | the padded seconds field is two digits reading back as the seconds |
| TimeFormat.ParseJoined | src/app/page.tsx:427 | minutes digits, a colon and two digits below 60 read back as minutes·60 + seconds |
| TimeFormat.ParseFormatTime | src/app/page.tsx:424-428 | formatting loses nothing: parsing `formatTime(n)` gives `n` back for every n |
| Session.InitialState | src/app/page.tsx:42-89 | no game active, not playing, score and time 0, empty sequences and board, and a valid empty progress |
| Session.WeeklyChallenges | src/app/page.tsx:94-99 | there are four challenge templates |
| Session.LoadChallenge | src/app/page.tsx:113-121 | the stored challenge is kept; without one, a not-completed template is chosen |
| Session.StartGame | src/app/page.tsx:146-150 | the game becomes active and playing with score and time 0; nothing else changes |
| Session.Accuracy | src/app/page.tsx:389-393 | focus accuracy; 5 per hit; 100 iff the captured puzzle was completed, else 0; 100 for the challenge; 10 per colour of the sequence |
| Session.ColorAccuracyOver100 | src/app/page.tsx:393 | the colour-recall accuracy stays within 100 iff the sequence has at most ten colours |
| Session.EndGame | src/app/page.tsx:382-415 | play stops and no game is active. The progress is the captured one folded with the session, which carries the captured duration and accuracy. Every other field is the one the caller's queued setters left |
| Session.ResetGame | src/app/page.tsx:417-422 | play stops, no game is active, score and time are zero, every other field (progress, sequences, board, counters) stays |
| Session.ResetProgress | src/app/page.tsx:992-1002 | the progress becomes the valid zero state and nothing else changes |
| Session.Tick | src/app/page.tsx:135-143 | time advances by one second exactly while a game is active and playing, nothing else changes |
| Session.TogglePause | src/app/page.tsx:604-606 | the playing flag flips and nothing else changes |
| Session.GenerateColorSequence | src/app/page.tsx:156-163 | the new sequence is the captured one plus the drawn colour, and it is being shown. Everything else, including the player's input, stays as the caller left it |
| Session.StartColorMemory | src/app/page.tsx:146-154 | colour recall is active and playing with score and time 0, the input is empty, the shown sequence is the old one plus the drawn colour; nothing else changes |
| Session.EndPlayback | src/app/page.tsx:170-173 | the sequence is no longer shown; nothing else changes |
| Session.HandleColorClick | src/app/page.tsx:179-199 | a colour click never changes the sequence or lowers the score, and leaves the progress alone unless it ends the game. Only the input, the score and, at the end of the game, the play flag, the active game and the progress can change |
| Session.ColorClickOutcomes | src/app/page.tsx:179-199 | ignored while shown or stopped. A colour that fails `ColorMatches` (the next element of the sequence) is appended to the input and ends the game with the captured score folded in; nothing else changes. A matching colour keeps playing and changes only the input and the score: the last one of the sequence adds 10 per element and clears the input, any other is appended |
| Session.EnterRestOfSequence | src/app/page.tsx:179-199 | entering the rest of the sequence correctly completes the round with 10 points per element and the input cleared |
| Session.EnterWholeSequence | src/app/page.tsx:179-199 | entering a sequence of length N from an empty input awards exactly 10·N points |
| Session.RestartKeepsOldSequence | src/app/page.tsx:146-163 | a restart yields the old sequence plus one colour (one colour only at the very first start) and an empty input |
| Session.StartSelectiveAttention | src/app/page.tsx:202-211 | selective attention is active and playing with score, time and hits 0 and the drawn target; nothing else changes |
| Session.HandleShapeClick | src/app/page.tsx:224-239 | ignored while play is stopped; the score never becomes negative; only the score, the hits and, at the end of the game, the play flag, the active game and the progress can change |
| Session.ShapeClickOutcomes | src/app/page.tsx:224-239 | a hit adds 15 points and a hit, and ends the game (adding the score to the total) exactly at the 20th hit. At the 20th hit no game is active any more and the progress is the fold of the session (score plus 15, captured duration, accuracy of the hits before this one). A miss takes 5 points away but not below 0. A miss or an earlier hit keeps the progress and the active game. A hit changes nothing but these fields and a miss nothing but the score. Ignored while play is stopped |
| Session.HitsUntilEnd | src/app/page.tsx:224-235 | n hits in a row add 15·n points and n hits, and play stops exactly when the 20th hit is reached |
| Session.StartSustainedFocus | src/app/page.tsx:242-249 | sustained focus is active and playing with score and time 0 and accuracy 100; nothing else changes |
| Session.StartPuzzle | src/app/page.tsx:290-296 | the puzzle is active and playing on the given board with score, time and moves 0, not completed; nothing else changes |
| Session.StartPuzzleGame | src/app/page.tsx:290-314 | the puzzle starts on exactly the board the shuffle deals for the picks, which is valid |
| Session.HandlePuzzleClick | src/app/page.tsx:316-358 | a click changes only the board, the move count (by at most one), the completed flag and the score; completion sets the flag once, with the score of the moves counted before this move; a click that does not complete the puzzle keeps the score |
| Session.PuzzleClickOutcomes | src/app/page.tsx:316-358 | ignored when stopped or completed or for a rejected move. An accepted move counts one move on a valid board, completion iff solved, and the score is that of the moves before the winning one |
| Session.PuzzleTimeout | src/app/page.tsx:352-357 | the game ends. The progress is the fold of the puzzle session into the captured progress read through the shared array: the captured history plus the session worth the points computed at the click, one more game, the level of the new total, the streak kept. The achievements are the shared array's contents at firing time plus `first100`/`dedicated` exactly when their thresholds are met. Every other field is the current one |
| Session.PuzzleSessionAccuracy | src/app/page.tsx:353-355 | the completion timer's session always has accuracy 0 and a score between 100 and 500 |
| Session.StartWeeklyChallenge | src/app/page.tsx:361-366 | the challenge is active and playing with score and time 0; nothing else changes |
| Session.CompleteWeeklyChallenge | src/app/page.tsx:368-379 | while playing: the challenge (same title and description) is marked completed, the score is 200, the game ends with no game active, the progress is the fold of the challenge session (accuracy 100): session appended, 200 added, one more game, the level of the new total, old achievements kept and `first100` always held since 200 > 100. Every other field stays. When not playing, nothing changes |
| Events.Step | src/app/page.tsx:135-1002 | apart from the confirmed reset, an event changes the progress only when it ends the game |
| Events.InitialStateConsistent | src/app/page.tsx:42-89 | the initial state satisfies the invariant |
| Events.EndGameKeepsConsistent | src/app/page.tsx:382-415 | ending any game from a sound capture leaves a consistent state |
| Events.ColorClickKeepsConsistent | src/app/page.tsx:179-199 | a colour click keeps the input a proper prefix of the sequence and the progress sound |
| Events.ShapeClickKeepsConsistent | src/app/page.tsx:224-239 | a shape click keeps the score non-negative, the hit count below 20 while the game runs, the progress sound |
| Events.PieceClickKeepsConsistent | src/app/page.tsx:316-358 | a piece click keeps the board valid and the score 0 until completion, then the score of the winning count |
| Events.StepKeepsConsistent | src/app/page.tsx:135-1002 | every event the screen can deliver keeps the session state consistent, including the puzzle timer folding into the grown shared array |
| Events.RunKeepsConsistent | src/app/page.tsx:135-1002 | every run of deliverable events keeps the session state consistent |
| Events.ReachableStates | src/app/page.tsx:382-415 | whatever the user does: the score is non-negative, and level and total agree with the history. An earned `first100`/`dedicated` is held. No key is held twice, and `master` never |
| Events.ChallengeEndedAfterClick | src/app/page.tsx:316-379 | the witness state is the one the handlers give after the completing click, back to the menu, challenge start and challenge completion |
| Events.UnearnedFirst100 | src/app/page.tsx:355-410 | the converse fails: a consistent state and a deliverable puzzle timer (its click completed a puzzle one move from solved) lead to `first100` held with no session over 100 |
| Events.StaleTimerLosesPoints | src/app/page.tsx:355-410 | a consistent state and a deliverable puzzle timer, not a reset, lead to fewer lifetime points and to a recorded session disappearing |
| Events.PointsNeverDecrease | src/app/page.tsx:397-402 | lifetime points never drop and the game count grows by at most one per event, except for the confirmed reset and the puzzle timer. The timer folds into its captured progress and never goes below it, but it can go below the current one (`StaleTimerLosesPoints`) |

## Left out

- Local storage:
  - Saving and loading of progress, settings and the weekly challenge (lines 101-132, 376) is I/O.
  - The loaded challenge is a parameter of `LoadChallenge`.
  - Loaded progress is not validated, so the invariant is stated from the initial state.
  - A parsed progress object also gets an achievements array of its own, which the model does not track.
- Randomness: `Math.random` draws (colours, target shape, shuffle indices, challenge index) are parameters.
- Events.Step:
  - The interval, the playback timeouts and the completion timeouts are events.
  - The model's round timer, after a completed colour round, builds the next sequence from the sequence of the state it fires in.
  - The program's closure reads the sequence of the render in which the round was completed. The two agree unless, within that second, another round is completed or the game is restarted.
  - Example: finish a one-colour round twice. The program then ends with `[c1, y]`, the model with `[c1, x, y]`.
- Events.Enabled:
  - The puzzle timer's `shared` (what the captured progress's achievements array holds when it fires) is a parameter of the event.
  - It is constrained only to extend the captured achievements with the fold's keys, none twice.
  - The model does not pin it to the current state's list when no progress reset happened since the click.
  - The captured state is likewise any consistent, active, not yet completed puzzle state on which some click completes the puzzle.
- Events.ReachableStates: the program keeps only "earned ⇒ held" for `first100` and `dedicated`. The puzzle timer folds into an achievements array that a game ended in between already pushed into, so a key can be held without having been earned (`UnearnedFirst100`). The same happens to `dedicated`. So the converse is not claimed.
- Events.StepKeepsConsistent: `Consistent` carries the one-way `Sound` progress for the reason given under `Events.ReachableStates`, not the exact `Valid`.
- Events.RunKeepsConsistent: the same one-way invariant as `Events.StepKeepsConsistent`, over whole runs.
- Progress.Fold: computes the new aggregate as a value. The array it shares with the old progress object is modelled only where a stale closure reads that old object: the puzzle timer (`PuzzleTimeout`'s `shared`).
- Sustained focus:
  - The mouse handler (lines 265-287) and the moving target (251-263) compute with floating-point distances, so they are left out.
  - The focus accuracy only enters through `Accuracy`.
- Shape layout: `generateShapes` (positions on screen) is left out. Only the clicked shape's kind matters to the score.
- Display state: `currentColorIndex` and the cursor position are display state only.
- Session.Accuracy:
  - It is computed on exact rationals (`real`). IEEE rounding of the JavaScript numbers is left out.
  - The date is a parameter (the clock).
- Integer widths: scores, points and times are unbounded integers. JavaScript's float precision limits are never reached in play.
- Settings and other screens:
  - The settings sliders, the statistics tab and the rendering are not part of this model.
  - The login page and the Supabase client are not part of this model.
- Navigation: the confirmation dialog before the progress reset is modelled by the event being the confirmed one.

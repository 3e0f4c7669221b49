# ebitris, modelled in Dafny

This project models the core of ebitris, a falling-blocks game written in Go, and proves
properties of the model. The model covers:

- **The tetromino catalogue** (`Shapes`): seven shape kinds, each with its rotation
  states of four cell offsets.
- **Pieces** (`Pieces`): the `Piece` object with its colour, position and rotation index.
  Its in-place rotation and moves are proved against the value functions `Rotated` and
  `Shifted`.
- **The board** (`Boards`): a height x width grid of colour codes. It has:
  - a collision test;
  - locking a piece into the grid in place;
  - the bottom-up scan that removes full rows, shifts the rows above down and re-checks
    the same row;
  - the game-over test on row 0.

  Each method of the `Board` class is proved against a function on the grid value. The
  properties of those functions are proved as lemmas: after a clear no row is full, the
  kept rows keep their order, as many empty rows appear on top as rows were cleared, and
  colours stay in 0..7.
- **The game state** (`Scoring`, `Game`): the frame counter and gravity, locking and
  promoting the next piece, scoring, the level and the gravity delay.
  - `Engine` is the value of a game, and `UpdateStep`, `GravityStep`, `LockStep` and
    `HardDropStep` say what each operation does to it.
  - Every method of the `GameState` class is proved to perform that step on its board and
    pieces.
  - The steps keep the game well formed: grid dimensions, colours in 0..7, in-range
    rotations and a consistent score, line count and delay. Score and line count never
    fall, and the delay stays within [10, 48] and never rises.
- **Smaller cores**, each with its external calls lifted to parameters:
  - the high-score stores, current and older (`Ranking`, `ScorePages`, `LegacyScores`);
  - the two scene managers (`Scenes`, `LegacyScenes`);
  - the two deferred event buses (`Delivery`, `EventBus`, `LegacyEventBus`);
  - the key-repeat counter (`Input`);
  - the menu focus (`Menus`).

Go's truncating `/` and `%` appear in the model explicitly, as `GoInts.TruncDiv` and
`GoInts.TruncRem`.

## Where the model follows the code rather than the description

- A cell above row 0 counts as a collision (`Boards.Collides`). Locking, by contrast,
  skips cells that lie off the grid (`Boards.Lock`).
- `Pause` and `Resume` are unconditional. `Resume` therefore takes a finished game back to
  playing, so the game-over status is not final.
- The game ends when row 0 is occupied after the next piece is promoted. There is no
  check that the new piece can spawn.
- Clearing n rows for any n outside 1..4 scores 0 points but still adds n to the line
  count. The score multiplier is the level before the clear, plus one.
- There is no rule against drawing the same shape twice. The shape of each new piece is
  a parameter.
- The guarded moves, the guarded rotation and the hard drop appear only in the game's
  tests. They are modelled as the tests use them:
  - a blocked move or rotation returns false and leaves the piece unchanged;
  - `HardDrop` moves the piece down to its resting row but does not lock it, since the
    tests check afterwards that the same piece can no longer move down.
- Some test expectations disagree with the geometry of the square in
  `internal/tetris/shape.go`, whose cells sit at offsets 1..2. The model follows the
  shape table:
  - the tests expect a hard-dropped square to rest on row 18, but it rests on row 17
    (`Game.SquareHardDropRow`);
  - the tests expect a square at column 0 to be blocked from moving left, but it can
    still move left (`Game.SquareAtTheWalls`).

## Model

| member | source | states |
|---|---|---|
| GoInts.TruncRemPeriodic | internal/tetris/piece.go:83 | for a non-negative dividend, adding the divisor leaves Go's remainder unchanged |
| GoInts.TruncRem | internal/tetris/piece.go:83 | Go's remainder for a positive divisor: smaller than the divisor in magnitude, with the sign of the dividend, and the dividend itself when that is already smaller |
| GoInts.TruncRemPeriodicNeg | internal/tetris/piece.go:83 | for a non-positive dividend, taking away the divisor leaves Go's remainder unchanged |
| GoInts.TruncRemOdd | internal/render/menu.go:26 | Go's remainder of a negated dividend is the negated remainder |
| GoInts.TruncDiv | internal/tetris/state.go:27-29 | Go's quotient for a positive divisor rounds toward zero: what is left over lies in [0, d) on the side of the dividend |
| GoInts.TruncDivOdd | internal/tetris/state.go:27-29 | Go's quotient of a negated dividend is the negated quotient |
| GoInts.TruncDivRem | internal/tetris/piece.go:83 | Go's `/` and `%` satisfy a == n * (a / n) + a % n for every dividend, which fixes the remainder's value everywhere |
| Shapes.FromOrdinal | internal/tetris/shape.go:5-13 | the kind numbered n (0..6) has ordinal n |
| Shapes.OrdinalBijection | internal/tetris/shape.go:5-13 | the numbering 0..6 of the seven kinds is a bijection |
| Shapes.States | internal/tetris/shape.go:15-68 | every kind has one to four rotation states, each of four cells |
| Shapes.StateWellFormed | internal/tetris/shape.go:16-67 | every rotation state is four pairwise distinct cells with offsets in 0..3 |
| Shapes.RotationCounts | internal/tetris/shape.go:15-68 | I has 2 states, O 1, T 4, S 2, Z 2, J 4 and L 4 |
| Shapes.SquareIsCentredBlock | internal/tetris/shape.go:22-25 | O's only state is exactly the 2x2 block at offsets 1..2 |
| Pieces.ShapeColor | internal/tetris/piece.go:7-26 | each kind's colour is in 1..7 and is never the shadow colour 8 |
| Pieces.ShapeColorsDistinct | internal/tetris/piece.go:18-26 | the seven kinds get seven different colours |
| Pieces.NextIndex | internal/tetris/piece.go:83 | one step through n states adds one to an in-range index, wrapping from the last state to 0 |
| Pieces.StepsCompose | internal/tetris/piece.go:82-84 | a + b steps are a steps followed by b steps |
| Pieces.StepsClimb | internal/tetris/piece.go:82-84 | below the last state, k steps add k to the index |
| Pieces.StepsCycle | internal/tetris/piece.go:82-84 | n steps through n states bring an in-range index back to itself |
| Pieces.StepsPeriodic | internal/tetris/piece.go:82-84 | stepping through n states repeats with period n |
| Pieces.NextRotation | internal/tetris/piece.go:82-84 | an in-range rotation index stays in range and wraps from the last state to 0 |
| Pieces.RotationCycle | internal/tetris/piece.go:82-84 | as many rotations as the shape has states restore the rotation |
| Pieces.RotationPeriodic | internal/tetris/piece.go:82-84 | a piece's rotations repeat with the shape's state count as period |
| Pieces.PieceValue.Cells | internal/tetris/piece.go:78-80 | the occupied offsets are the catalogue entry for the shape and rotation, and form a well-formed state |
| Pieces.NewPiece | internal/tetris/piece.go:58-66 | the colour comes from the kind; position and rotation are stored as given, unreduced |
| Pieces.Rotated | internal/tetris/piece.go:82-84 | rotation changes only the rotation index and keeps it in range |
| Pieces.ShiftInverse | internal/tetris/piece.go:86-105 | moving back by the opposite offset restores the piece, and moves keep validity |
| Pieces.Piece.constructor | internal/tetris/piece.go:58-66 | the new object holds NewPiece's value |
| Pieces.Piece.Clone | internal/tetris/piece.go:68-76 | a fresh object with the same field values |
| Pieces.Piece.GetCells | internal/tetris/piece.go:78-80 | needs an in-range rotation; returns a well-formed rotation state |
| Pieces.Piece.Rotate | internal/tetris/piece.go:82-84 | the piece's new value is Rotated of its old value |
| Pieces.Piece.MoveLeft | internal/tetris/piece.go:86-88 | x decreases by one; nothing else changes |
| Pieces.Piece.MoveRight | internal/tetris/piece.go:90-92 | x increases by one; nothing else changes |
| Pieces.Piece.MoveDown | internal/tetris/piece.go:94-96 | y increases by one; nothing else changes |
| Pieces.Piece.MoveUp | internal/tetris/piece.go:98-100 | y decreases by one; nothing else changes |
| Pieces.Piece.Move | internal/tetris/piece.go:102-105 | the position moves by (dx, dy); nothing else changes |
| Boards.EmptyRows | internal/tetris/board.go:9-19 | k rows of w zeros |
| Boards.Board.constructor | internal/tetris/board.go:9-19 | a height x width grid of zeros |
| Boards.Board.IsColliding | internal/tetris/board.go:21-39 | true iff some shifted cell is left, right, above or below the grid, or on a non-zero cell; never changes the board |
| Boards.Lock | internal/tetris/board.go:41-49 | every in-bounds covered cell takes the colour, every other cell keeps its value, and the dimensions are kept |
| Boards.LockKeepsColors | internal/tetris/board.go:45-46 | locking a colour in 1..7 keeps every cell in 0..7 |
| Boards.Board.LockPiece | internal/tetris/board.go:41-49 | the new grid is Lock of the old grid with the piece's cells, position and colour |
| Boards.CountFull | internal/tetris/board.go:65-72 | the number of full rows is at most the number of rows |
| Boards.Kept | internal/tetris/board.go:54-59 | the kept rows number the rows minus the full ones |
| Boards.KeptRows | internal/tetris/board.go:54-59 | every kept row is a row of the grid, and none of them is full |
| Boards.KeptAppend | internal/tetris/board.go:54-59 | kept rows and full-row counts distribute over joining two grids, so the kept rows keep their order |
| Boards.ClearedRows | internal/tetris/board.go:74-79 | after a clear the top rows are empty, as many as were full, and the kept rows follow in order |
| Boards.ClearedShape | internal/tetris/board.go:74-79 | a clear keeps the grid's dimensions and its colours in 0..7 |
| Boards.ClearedHasNoFullRow | internal/tetris/board.go:51-72 | with width > 0, no row is full after a clear |
| Boards.ClearedIdentity | internal/tetris/board.go:54-59 | a grid with no full row is unchanged by a clear |
| Boards.ScanGridEnds | internal/tetris/board.go:51-63 | the scan's intermediate grid equals the input before the scan and the cleared grid after it |
| Boards.ClearStepFull | internal/tetris/board.go:55-58 | removing a full row at the scan position advances the scan state |
| Boards.Board.ClearFullLines | internal/tetris/board.go:51-63 | the new grid is ClearedGrid of the old one, and the result is the number of rows that were full |
| Boards.Board.IsLineFull | internal/tetris/board.go:65-72 | true iff no cell of the row is 0 |
| Boards.Board.RemoveLine | internal/tetris/board.go:74-79 | the rows above the line shift down by one and row 0 becomes a fresh empty row |
| Boards.Board.IsGameOver | internal/tetris/board.go:81-88 | true iff some cell in row 0 is non-zero |
| Scoring.Level | internal/tetris/state.go:27-29 | the level is lines / 10: 10·level ≤ lines < 10·level + 10 |
| Scoring.Points | internal/tetris/state.go:96-101 | the points are in 0..800, and positive exactly for 1..4 rows |
| Scoring.GravityFor | internal/tetris/state.go:107-110 | the delay for a level is in [10, 48] |
| Scoring.GravityMonotone | internal/tetris/state.go:107-110 | a higher level never has a slower gravity, and is strictly faster above the floor |
| Scoring.AddScore | internal/tetris/state.go:95-111 | adds points·(old level + 1) to the score and n to the lines; the delay changes only when the level rises and stays in [10, 48] without rising; the totals stay consistent |
| Scoring.AddScoreExamples | internal/tetris/state_test.go:97-141 | single, double, triple and four-row clears at level 0, and the tenth line lowering the delay to 46 |
| Game.Start | internal/tetris/state.go:39-52 | a new game is well formed, with zero totals, delay 48, playing and frame count 0 |
| Game.LockedGrid | internal/tetris/state.go:77 | locking the falling piece keeps the dimensions and colours in 0..7 |
| Game.LockStep | internal/tetris/state.go:76-93 | lock, clear and score only if rows were cleared; promote the next piece and spawn a new one; game over iff row 0 is occupied; no full row remains; totals monotone |
| Game.GravityStep | internal/tetris/state.go:67-74 | the piece moves down one row if that is free, and is locked otherwise; the game stays well formed |
| Game.UpdateStep | internal/tetris/state.go:54-65 | no change unless playing; otherwise counts the frame and applies gravity once the delay is reached; totals monotone, delay within [10, 48]; a status change can only be to game over |
| Game.FloorBlocks | internal/tetris/board.go:30-32 | a piece placed below the last row collides |
| Game.RestRow | internal/tetris/state_test.go:312-323 | the resting row is the first row from which one row further down collides; every row in between is free |
| Game.RestRowUnique | internal/tetris/state_test.go:312-323 | any row with those two properties is the resting row |
| Game.HardDropStep | internal/tetris/state_test.go:312-323 | only the falling piece's row changes, downward, onto its resting row, from which moving down is blocked |
| Game.SquareHardDropRow | internal/tetris/state_test.go:312-321 | on an empty 10 x 20 board a square dropped from row 0 rests on row 17 |
| Game.SquareAtTheWalls | internal/tetris/state_test.go:157-229 | on an empty board a square at column 0 can still move left, while one at column 8 cannot move right |
| Game.GameState.Level | internal/tetris/state.go:27-29 | the level is the line count divided by ten |
| Game.GameState.constructor | internal/tetris/state.go:39-47 | a new game's value is Start, with fresh board and pieces |
| Game.GameState.Pause | internal/tetris/state.go:31-33 | the status becomes paused, whatever it was |
| Game.GameState.Resume | internal/tetris/state.go:35-37 | the status becomes playing, whatever it was |
| Game.GameState.Update | internal/tetris/state.go:54-65 | the game's new value is UpdateStep of its old value |
| Game.GameState.ApplyGravity | internal/tetris/state.go:67-74 | the game's new value is GravityStep of its old value |
| Game.GameState.LockCurrentPiece | internal/tetris/state.go:76-93 | the game's new value is LockStep of its old value; the next piece object becomes current and a fresh one is next |
| Game.GameState.SettleBoard | internal/tetris/state.go:77-80 | the board afterwards is the cleared locked grid, and the count is its number of full rows |
| Game.GameState.ScoreCleared | internal/tetris/state.go:81-83 | the totals are scored only when rows were cleared |
| Game.GameState.PromoteNext | internal/tetris/state.go:86-87 | the next piece object becomes the falling one, and a fresh piece at the spawn column is next |
| Game.GameState.AddScore | internal/tetris/state.go:95-111 | the fields become Scoring.AddScore of their old values |
| Game.GameState.MoveLeft | internal/tetris/state_test.go:157-192 | moves one column left and returns true iff that does not collide; otherwise the piece is unchanged |
| Game.GameState.MoveRight | internal/tetris/state_test.go:194-229 | moves one column right and returns true iff that does not collide; otherwise the piece is unchanged |
| Game.GameState.MoveDown | internal/tetris/state_test.go:231-266 | moves one row down and returns true iff that does not collide; otherwise the piece is unchanged |
| Game.GameState.Rotate | internal/tetris/state_test.go:268-310 | keeps the rotation step and returns true iff the rotated piece does not collide; otherwise restores the rotation |
| Game.GameState.HardDrop | internal/tetris/state_test.go:312-323 | the game's new value is HardDropStep of its old value |
| Game.GameState.DropToRest | internal/tetris/state_test.go:312-323 | the falling piece moves down row by row onto RestRow, and nothing else about it changes |
| Ranking.CompareDates | internal/pkg/score/score.go:75 | negative iff the first date is earlier, zero iff equal |
| Ranking.Compare | internal/pkg/score/score.go:71-76 | the comparator is non-positive exactly when the first entry may come first: higher score, or equal score and no later date |
| Ranking.Insert | internal/pkg/score/score.go:71-76 | inserting adds exactly the one entry |
| Ranking.InsertSorted | internal/pkg/score/score.go:71-76 | inserting into an ordered list keeps it ordered |
| Ranking.Sort | internal/pkg/score/score.go:71-76 | the result is ordered by score descending, then date ascending, and is a permutation of the input |
| Ranking.SortKeepsSorted | internal/pkg/score/score.go:71-76 | an already ordered list is left as it is |
| Ranking.SortLeaderIsBest | internal/pkg/score/score_test.go:41-48 | the first entry after sorting has the highest score |
| Ranking.OlderFirstOnTie | internal/pkg/score/score_test.go:57-67 | of two equal scores the older entry is listed first |
| ScorePages.PageOf | internal/pkg/score/score.go:78-88 | past the end the page is empty with no more; otherwise it is the clamped window [page·size, page·size+size), at most size long, and there is more iff the window ends before the list |
| ScorePages.HasMoreIffNextPageNonEmpty | internal/pkg/score/score.go:83-88 | there is more after a page exactly when the next page is non-empty |
| ScorePages.PagesTile | internal/pkg/score/score.go:78-88 | the first k pages together are exactly the first k·size entries: nothing is lost or repeated |
| ScorePages.FiveEntryPages | internal/pkg/score/score_test.go:41-83 | the test pages of a five-entry board, including an exact fit reporting no more |
| ScorePages.ScoreManager.constructor | internal/pkg/score/score.go:38-53 | the store holds the loaded entries |
| ScorePages.ScoreManager.SaveScore | internal/pkg/score/score.go:55-63 | exactly one entry with the given fields and time is appended; earlier entries are untouched |
| ScorePages.ScoreManager.GetPage | internal/pkg/score/score.go:70-89 | the stored list is sorted in place (a permutation), and the result is PageOf the sorted list |
| LegacyScores.LegacyPageOf | internal/persistence/score.go:59-69 | same entries as the current store; more is reported iff the window starts inside the list and ends at or before its end |
| LegacyScores.StoresDisagreeOnlyOnExactFit | internal/persistence/score.go:64-69 | the two stores return the same entries and disagree on "more" exactly on an exact fit |
| LegacyScores.ExactFitClaimsMore | internal/persistence/score.go:64-69 | five entries in pages of five: more is reported but the next page is empty |
| LegacyScores.ScoreManager.constructor | internal/persistence/score.go:24-34 | the store holds the loaded entries |
| LegacyScores.ScoreManager.SaveScore | internal/persistence/score.go:36-49 | exactly one entry with the given fields and time is appended |
| LegacyScores.ScoreManager.GetPage | internal/persistence/score.go:51-70 | the stored list is sorted in place, and the result is LegacyPageOf the sorted list |
| Scenes.SwitchToStep | internal/pkg/scene/scene.go:50-52 | only the scheduled scene changes |
| Scenes.SwitchBackStep | internal/pkg/scene/scene.go:54-58 | schedules the previous scene if there is one, otherwise changes nothing |
| Scenes.QuitStep | internal/pkg/scene/scene.go:87-89 | sets the quit flag |
| Scenes.Transition | internal/pkg/scene/scene.go:65-73 | a scheduled scene replaces the current one, which becomes the previous one; calls are the old scene's exit (if any) then the new scene's enter; the schedule is cleared |
| Scenes.UpdateStep | internal/pkg/scene/scene.go:60-79 | with quit set: termination and no calls; otherwise the transition, then the current scene's update and its result, or nothing |
| Scenes.EntersAppend | internal/pkg/scene/scene_test.go:66-84 | enter counts over a joined call log add up |
| Scenes.TransitionAppliedOnce | internal/pkg/scene/scene.go:72 | the Update after a switch enters nothing and only updates the new scene |
| Scenes.QuitSticky | internal/pkg/scene/scene.go:61-63 | once quit is set, switching, going back and updating never clear it, and Update terminates without calling any scene |
| Scenes.SwitchBackRestores | internal/pkg/scene/scene_test.go:66-84 | forward to a, then b, then back: a is current again, b is previous, and a was entered twice |
| Scenes.SwitchBackWithoutHistory | internal/pkg/scene/scene_test.go:86-95 | going back with no history schedules nothing and runs no scene |
| Scenes.SceneManager.constructor | internal/pkg/scene/scene.go:46-48 | no scenes, not quitting, no calls |
| Scenes.SceneManager.SwitchTo | internal/pkg/scene/scene.go:50-52 | the value becomes SwitchToStep of the old value; no scene is called |
| Scenes.SceneManager.SwitchBack | internal/pkg/scene/scene.go:54-58 | the value becomes SwitchBackStep of the old value; no scene is called |
| Scenes.SceneManager.Quit | internal/pkg/scene/scene.go:87-89 | the value becomes QuitStep of the old value |
| Scenes.SceneManager.Update | internal/pkg/scene/scene.go:60-79 | value, result and calls are those of UpdateStep |
| LegacyScenes.SwitchToStep | internal/scene/manager.go:14-16 | schedules the scene, replacing any scheduled one |
| LegacyScenes.UpdateStep | internal/scene/manager.go:18-32 | the scheduled scene becomes current and the schedule is cleared; the result is the current scene's, or nothing |
| LegacyScenes.AgreesWithCurrentManager | internal/scene/manager.go:18-32 | the older Update behaves like the current one without quit, history aside |
| LegacyScenes.LastSwitchWins | internal/scene/manager.go:14-25 | of two switches before an Update only the second is entered, after the old scene's exit |
| LegacyScenes.NoReentry | internal/scene/manager.go:25 | the Update after a switch only updates the scene |
| LegacyScenes.Manager.constructor | internal/scene/manager.go:10-12 | no scenes and no calls |
| LegacyScenes.Manager.SwitchTo | internal/scene/manager.go:14-16 | the value becomes SwitchToStep of the old value |
| LegacyScenes.Manager.Update | internal/scene/manager.go:18-32 | value, result and calls are those of UpdateStep |
| Delivery.Subscribe | internal/pkg/event/eventbus.go:21-23 | the handler is appended to its type's list; other types' lists are unchanged |
| Delivery.CallsFor | internal/pkg/event/eventbus.go:32-34 | an event reaches each handler of its type, in subscription order |
| Delivery.DeliveriesAppend | internal/pkg/event/eventbus.go:30-35 | events are delivered in emission order: all calls for earlier events come first |
| Delivery.DeliveredIff | internal/pkg/event/eventbus.go:30-35 | a handler is called with an event iff the event was queued and the handler is subscribed to its type |
| Delivery.UnhandledSkipped | internal/pkg/event/eventbus.go:32 | events of types without handlers cause no calls |
| EventBus.EventManager.constructor | internal/pkg/event/eventbus.go:17-19 | no handlers and an empty queue |
| EventBus.EventManager.Subscribe | internal/pkg/event/eventbus.go:21-23 | the handlers become Delivery.Subscribe of the old ones; the queue is untouched |
| EventBus.EventManager.Emit | internal/pkg/event/eventbus.go:25-27 | the event is appended to the queue and no handler runs |
| EventBus.EventManager.Dispatch | internal/pkg/event/eventbus.go:29-37 | the calls made are Deliveries of the queue; afterwards the queue is empty and the handlers are unchanged |
| LegacyEventBus.Bus.constructor | internal/eventbus/eventbus.go:17-19 | no handlers and an empty queue |
| LegacyEventBus.Bus.Subscribe | internal/eventbus/eventbus.go:21-23 | the handlers become Delivery.Subscribe of the old ones; the queue is untouched |
| LegacyEventBus.Bus.Emit | internal/eventbus/eventbus.go:25-27 | the event is appended to the queue and no handler runs |
| LegacyEventBus.Bus.Dispatch | internal/eventbus/eventbus.go:29-36 | the calls made are Deliveries of the queue; afterwards the queue is empty |
| Input.Query | internal/input/input.go:31-49 | just pressed: moves and resets the counter; held: the counter grows by one and it moves iff the counter has reached 15 with a multiple of 3 beyond it; released: resets and does not move |
| Input.HeldCountGrows | internal/input/input.go:37-38 | each held query adds exactly one to the counter |
| Input.HeldMoveSchedule | internal/input/input.go:12-15 | the k-th held query after a press moves iff k ≥ 15 and (k − 15) mod 3 = 0 |
| Input.RepeatTiming | internal/input/input.go:32-43 | after a press, held queries 1..14 do not move, the 15th does, the 16th and 17th do not, the 18th does |
| Input.RepeatPeriodic | internal/input/input.go:39-42 | past the initial delay the moves repeat every 3 queries |
| Input.InputManager.constructor | internal/input/input.go:17-21 | no counters |
| Input.InputManager.ShouldMove | internal/input/input.go:31-49 | only the queried key's counter changes, to Query's counter, and the result is Query's move |
| Menus.FocusStaysInRange | internal/render/menu.go:20-27 | with n > 0 items, a focus in [0, n) stays in [0, n) |
| Menus.DownStep | internal/render/menu.go:22-24 | Down moves to the next item, wrapping from the last to the first |
| Menus.UpStep | internal/render/menu.go:25-27 | Up moves to the previous item, wrapping from the first to the last |
| Menus.DownUpCancel | internal/render/menu.go:22-27 | Down and Up in the same input cancel out |
| Menus.Menu.constructor | internal/render/menu.go:15-17 | the given items with focus 0 |
| Menus.Menu.HandleInput | internal/render/menu.go:20-29 | the focus becomes NextFocus of the old focus, and the result is the Enter flag |
| Menus.Menu.Selected | internal/render/menu.go:32-34 | returns the focus and changes nothing |

## Left out

- File and JSON persistence of the scores, the score-file directory and `time.Now()` are
  not modelled. A store is constructed from the loaded list, and `SaveScore` receives the
  time as an integer timestamp.
- The random choice of a new piece's shape is not modelled. Every operation that spawns
  a piece takes the shape as a parameter.
- Rendering (`Draw` methods, `GetPieceColor`, the RGBA colour table, fonts) is not
  modelled, and neither is audio or music. They are output only.
- Scene and UI wiring (gameplay, pause, game-over, scoreboard and main-menu scenes, the
  game loop) is not modelled. It only turns key presses into the calls modelled here.
- Scenes and event handlers are identified by numbers. Their own behaviour is not
  modelled: the managers record the calls they make, and a scene's update result is
  reported as "the result of that scene".
- Event payloads are opaque. A handler's side effects, and events emitted by a handler
  during `Dispatch`, are not modelled. (The queue truncation at the end of `Dispatch`
  drops such events.)
- Key queries (`IsKeyJustPressed`, `IsKeyPressed`) are parameters.
- The integer enumeration of event types is not modelled; the type is kept as an
  unconstrained integer.
- Go's aliasing of row slices while `removeLine` shifts rows down is not modelled. The
  grid is a value, which gives the same final contents because row 0 is replaced by a
  fresh row.
- Ranking.Sort: the order of entries that compare equal (same score and same date) is
  the one an insertion sort gives. The library sort the stores call is not stable, so its
  order for such ties is unspecified.
- Ranking.Compare: integers are unbounded, so the overflow of `b.Score - a.Score` for
  extreme scores is not modelled.
- Boards.Board.ClearFullLines: requires width > 0. With width 0 every row is vacuously
  full and the scan never ends.
- Game.GameState.constructor: requires width > 0 and height > 0. With width 0 the
  line-clearing scan that runs after each lock (internal/tetris/board.go:51-63) never
  ends; with height 0 the game-over test indexes a missing row 0.
- Pieces.Piece.GetCells: requires a rotation index within the shape's table, which the
  table lookup needs.
- ScorePages.ScoreManager.GetPage and LegacyScores.ScoreManager.GetPage: require a page
  request whose slice bounds are valid: the page starts at or past the end, or it starts
  inside the list with a non-negative size.
- Menus.Menu.HandleInput: requires a non-empty item list. With no items the remainder
  divides by zero.
- Game.GameState.AddScore: requires n ≥ 0. Its only caller passes a positive count of
  cleared rows.
- The `HardDrop` test's expectation of row 18 is not encoded. The model proves row 17
  for that situation (`Game.SquareHardDropRow`).

## Findings

| source | as written | input that shows it | evidently intended | confidence | as-written member | corrected member |
|---|---|---|---|---|---|---|
| internal/persistence/score.go:64-69 | the older store reports more entries whenever the window is not clamped, including a window ending exactly at the last entry | five entries, page 0 of size 5: more is reported, yet page 1 is empty | more is reported exactly when the next page is non-empty, as the current store (internal/pkg/score/score.go:84) and its exact-fit test do | high; not executed | LegacyScores.ExactFitClaimsMore | ScorePages.HasMoreIffNextPageNonEmpty |

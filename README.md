# Mill game-state store

A model of the game-state store of a two-player mill game played on a 24-point
board. The store is bookkeeping only: it records whose turn it is, how many
pieces each side still has to lose, how many placements Black has made, a phase
tag, and the 24 board points (occupant and a boolean highlight). Its five
actions (`setPhase`, `addPiece`, `highlightPiece`, `unhighlightAllPieces`,
`removePiece`) commit their effect through small mutations that each update
one field (`setPhase`, `toggleMove`, `setBoard`, `playPiece`,
`removeWhitePiece`, `removeBlackPiece`). All actions but `setPhase`, which
commits only the phase, first compute a new board and commit it with the rest.

The project has two modules:

- `Game` (game_state.dfy): the snapshot record, the `Command` type naming the
  five actions, the transition `Apply` for one command and `Run` for a
  sequence, and the lemmas about them: each action's frame condition
  (`SetPhaseEffect`, `AddPieceEffect`, `HighlightPieceEffect`,
  `UnhighlightAllEffect`, `RemovePieceEffect`), the capture attribution rule,
  idempotence of clearing highlights, and what holds
  over every run (counters never grow, `piecesPlaced` never shrinks, the turn
  flips exactly on placements, `piecesPlaced` is half the placements from the
  initial state, each side stays at or below 9).
- `Store` (store.dfy): the class `MillStore` with the store's six fields, one
  method per mutation and per action. Each action performs its mutations in
  the order the store commits them, states its whole new state field by field,
  and ends with `State() == Apply(old(State()), cmd)`. `Dispatch` performs the
  action a command names, and `PlayAll` performs a whole sequence of commands
  on a new store; it is proved to end in `Run(Initial(), cmds)`, so the `Game`
  run lemmas hold of the store after any sequence of actions. `Valid()` is the
  invariant every action keeps: 24 points, each counter at most 9,
  `piecesPlaced` non-negative. `OpeningScenario` plays a short opening through
  the class and states the resulting board, turn and counters.

Modelling choices:

- The side is an enum (`White | Black`). The phase is a datatype
  `Place | Other(tag: string)`: `Place` is the initial phase and `Other`
  carries any other tag a caller sets. The colour and phase constants of the
  store's constants module are abstract values here. The initial side is
  written as the literal `'W'` in src/store.js:14 and is taken to be White.
- A point's occupant is `Option<Color>`; `None` stands for `null`.
- Counters are unbounded integers. The store never guards its decrements, so a
  destroying removal can drive a counter below zero; the model allows this.
- A destroying removal on an empty point takes a piece from Black, as the
  `else` branch of src/store.js:84-88 does.
- `highlightPiece` takes only a location and sets the flag to `true`.

## Model

| member | source | states |
|---|---|---|
| Game.Toggled | src/store.js:28-30 | the side after `toggleMove` is never the side before it |
| Game.ToggleTwice | src/store.js:28-30 | toggling twice restores the original side |
| Game.InitialState | src/store.js:13-23 | the initial snapshot `Game.Initial()`, the model of the state record: White to move, 9 and 9 pieces, 0 placed, phase PLACE, 24 empty unhighlighted points |
| Game.Unhighlighted | src/store.js:72-75 | the mapped board has the same length, every occupant kept and every highlight false |
| Game.Apply | src/store.js:45-92 | no action changes the number of board points when its location is on the board |
| Game.Run | src/store.js:45-92 | no sequence of in-range actions changes the number of board points |
| Game.SetPhaseEffect | src/store.js:45-47 | `setPhase` sets the phase to its argument and leaves the board, turn, both counters and `piecesPlaced` unchanged |
| Game.AddPieceEffect | src/store.js:48-61 | `addPiece` writes the mover's colour, unhighlighted, at the location and nowhere else; `piecesPlaced` grows by one iff Black placed; counters and phase untouched; turn flips |
| Game.HighlightPieceEffect | src/store.js:62-70 | `highlightPiece` sets only the target's flag to true; its occupant, the other points, turn, counters and phase are unchanged |
| Game.UnhighlightAllEffect | src/store.js:71-78 | `unhighlightAllPieces` keeps the board length and every occupant, clears every highlight, and leaves the turn, both counters, `piecesPlaced` and the phase unchanged |
| Game.UnhighlightIdempotent | src/store.js:71-78 | clearing all highlights twice equals clearing them once |
| Game.HighlightThenUnhighlight | src/store.js:62-78 | clearing all highlights after highlighting a point equals clearing them without it |
| Game.RemovePieceEffect | src/store.js:79-92 | `removePiece` empties the location and nowhere else; with destroy, White loses a piece iff White stood there and Black loses one otherwise, and exactly one piece is lost in all, so the other side keeps its count; without destroy no counter changes; turn, placements and phase untouched |
| Game.AddThenRemoveRestoresBoard | src/store.js:48-92 | placing on an empty point and then removing without destroy restores the board and both counters, with the turn passed |
| Game.StepBounds | src/store.js:24-92 | per action: counters never grow, at most one shrinks and by one, exactly on a destroying removal; `piecesPlaced` grows by at most one; the turn flips iff the action is a placement; only `setPhase` changes the phase |
| Game.RunMonotone | src/store.js:34-42 | over any sequence of actions the counters never increase and `piecesPlaced` never decreases |
| Game.RunTurns | src/store.js:55-60 | over any sequence the turn is flipped once per placement and by nothing else, and `piecesPlaced` grows by the number of those placements that were Black's |
| Game.FromInitial | src/store.js:13-92 | from the initial state: 24 points, each side at most 9 and together at most 18, White to move iff the placements are even, `piecesPlaced` is half the placements |
| Store.MillStore.constructor | src/store.js:13-23 | the store starts in the initial snapshot with the invariant established |
| Store.MillStore.WritePhase | src/store.js:25-27 | the `setPhase` mutation replaces the phase and nothing else |
| Store.MillStore.ToggleMove | src/store.js:28-30 | the `toggleMove` mutation swaps the side to move and nothing else |
| Store.MillStore.SetBoard | src/store.js:31-33 | the `setBoard` mutation installs the given board and nothing else |
| Store.MillStore.PlayPiece | src/store.js:34-36 | the `playPiece` mutation adds one to `piecesPlaced` and nothing else |
| Store.MillStore.RemoveWhitePiece | src/store.js:37-39 | the `removeWhitePiece` mutation takes one from White's counter and nothing else |
| Store.MillStore.RemoveBlackPiece | src/store.js:40-42 | the `removeBlackPiece` mutation takes one from Black's counter and nothing else |
| Store.MillStore.SetPhase | src/store.js:45-47 | the `setPhase` action changes only the phase, keeps the invariant and follows `Game.Apply` |
| Store.MillStore.AddPiece | src/store.js:48-61 | the whole new state of `addPiece`: one point written with the old mover, placements counted for Black, turn toggled, the rest unchanged; follows `Game.Apply` |
| Store.MillStore.HighlightPiece | src/store.js:62-70 | the whole new state of `highlightPiece`: the target's flag set, its occupant kept, the rest unchanged; follows `Game.Apply` |
| Store.MillStore.UnhighlightAllPieces | src/store.js:71-78 | every point keeps its occupant and loses its highlight; the rest unchanged; follows `Game.Apply` |
| Store.MillStore.RemovePiece | src/store.js:79-92 | the whole new state of `removePiece`: the point emptied, the destroy attribution read from the point before clearing, turn and placements unchanged, invariant kept; follows `Game.Apply` |
| Store.Dispatch | src/store.js:44-93 | performing the action a command names keeps the invariant and takes the store to `Game.Apply` of its old state and that command |
| Store.PlayAll | src/store.js:13-93 | a new store after any in-range sequence of actions is in `Run(Initial(), cmds)`, keeps the invariant, holds at most 18 pieces in all, has White to move iff the placements are even, and counts half the placements |
| Store.OpeningScenario | src/store.js:48-92 | placing at 0 (White) and 1 (Black) then capturing at 0 leaves point 0 empty, point 1 Black, White to move, 1 placement, 8 White and 9 Black pieces |

## Left out

- The Vue/Vuex wiring (src/store.js:1-12): plugin registration, store construction, the `commit` dispatch mechanism, reactivity and subscriptions. Each action is one method that performs its mutations in sequence.
- The constants module `./lib/constants` is not part of this model; its colour and phase values are abstract enum values.
- Out-of-range locations: every location-taking action here requires `location < 24`. In the source, `addPiece` and a non-destroying `removePiece` given a location of 24 or more grow the board array (lines 50 and 81), and given a negative one add a named property to it instead; `highlightPiece` (line 65) and a destroying `removePiece` (line 84) read the colour of a missing point and throw before anything is committed.
- A reset action and colour-tag highlighting: neither exists in src/store.js.
- Move legality, mill detection and win conditions: the store has none.
- JavaScript numbers are modelled as unbounded integers; the counters stay far inside the range where doubles are exact.
- Copy-on-write of the board (`[...state.board]`): the board is a value sequence, so the copy and its aliasing are not modelled.

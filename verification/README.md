# Mario expert agent: decision logic in Dafny

This project models the decision logic of the hand-coded Super Mario Land agent in
`scripts/mario_expert.py`. On every frame the agent does the following:

- It receives the game area, a grid of tile ids, from the environment.
- It locates Mario's tile (id 1) by a row-major scan (`findMario`).
- It runs two ordered rule chains over a few cells at fixed offsets from that tile.
  `entityRespondY` is the vertical chain: enemies above and ahead, a FLY in row 11, a
  hole in row 15, and ground ahead. `entityRespondX` is the horizontal chain on
  Mario's row and the row below.
- It picks between the two chains with an override window (`choose_action`).
- It replaces an action repeated five times with a recovery press (UP).
- It hands the action to the controller. The controller presses the action's buttons
  together, holds them for `act_freq` ticks and releases them (`run_action`).

Modules, one per part of the program:

- `Outcome`: `Result` (`Ok` or `IndexError`) and `Option`.
- `Grid`: the tile grid and numpy-style reads. A negative index counts from the end.
  An index out of range is an `IndexError`, not a precondition.
- `Tiles`: the `icons` and `actions` enumerations. It also defines the action sum type
  `Single(code) | Combo(codes)`, a bare int or a tuple of buttons pressed together.
- `Locate`: `findMario`.
- `Rules`: an independent reference reading of an if-chain. It is an ordered table of
  (probe cell, tile, decision) rules, evaluated first-match-wins with lazy reads.
- `Respond`: the two rule chains, written as in the source, plus the lemmas that tie
  them to their rule tables.
- `Controller`: `prevActions` bookkeeping, Python's `==` between the remembered value
  and a new action, and the press/tick/release event trace.
- `Agent`: `choose_action` and `step`.
- `Play`: the play loop as a run over a sequence of grids, and the stuck counter over
  whole runs.

Two consequences of the source, proved here:

- `run_action` stores a bare int action as the list `[a]`. A list never equals an int
  in Python, so a repeated bare int action never counts as a repeat. Only a tuple
  chosen over and over can trigger the recovery press.
- `ARCHER` and `PIPE` share tile id 14. So the PIPE test in `entityRespondX` can never
  decide.

## Model

| member | source | states |
|---|---|---|
| Grid.AtNegativeAlias | scripts/mario_expert.py:163-165 | A row index below 0 (as `marioY-3` can be) reads the row counted from the bottom. It is the same cell as index `r` for `r - rows`. |
| Locate.ScanFrom | scripts/mario_expert.py:151-154 | Scanning on from cell (i, j) finds a marker at or after (i, j) in row-major order, and no marker of the window lies between (i, j) and it. Finding nothing means no marker at or after (i, j). |
| Locate.FindMario | scripts/mario_expert.py:149-156 | If a marker lies in rows 0..rows-2 × columns 0..cols-2, the result is such a cell and holds 1, and no marker of that window precedes it in row-major order. Otherwise the result is (5, 5). |
| Locate.FindMarioCharacterised | scripts/mario_expert.py:150-156 | Converse: every first marker of the window is exactly what the scan returns. |
| Locate.EdgeMarkerIgnored | scripts/mario_expert.py:151-152 | A marker only in the last row or last column is not found, and the result is (5, 5). |
| Locate.FindMarioUpdate | scripts/mario_expert.py:149-156 | Overwriting a non-marker cell with a non-marker value does not move the found position. |
| Locate.FindMarioBounds | scripts/mario_expert.py:149-156 | The found position is (5, 5) or lies inside the scanned window. |
| Rules.FirstMatch | scripts/mario_expert.py:165-188 | Evaluating an ordered rule table has three outcomes. The first rule whose cell holds its tile decides. A rule reached whose read is out of range raises IndexError. If every rule is read and none matches, the fallback decides. |
| Rules.FirstMatchFrame | scripts/mario_expert.py:196-219 | First-match evaluation depends only on the cells its rules probe. |
| Rules.Shadowed | scripts/mario_expert.py:201-212 | A rule that probes the same cell for the same tile as an earlier rule is never the first to fire. |
| Respond.EntityRespondY | scripts/mario_expert.py:158-188 | If the marker column is > 14, the result is (LEFT, False) whatever the grid holds. On a grid of at least 16 × 19 no read raises. The action is LEFT, (LEFT, RIGHT) or (A, RIGHT). Resetting `initialStep` implies the flag. Without the flag the result is (LEFT, False) with no reset. |
| Respond.EntityRespondYFollowsRules | scripts/mario_expert.py:163-188 | The if-chain is first-match over the table in this order: GOOMBA at +3, GOOMBA at +2, FLY at row 11, EMPTY at row 15, GROUND at +3. It sits behind the column > 14 guard. |
| Respond.EntityRespondYPriority | scripts/mario_expert.py:165-188 | The first Y rule that fires decides the result, whatever later rules would say. |
| Respond.OverrideFlagIffRuleFired | scripts/mario_expert.py:161-188 | The returned flag is True exactly when one of the five rules fired. |
| Respond.RestartIffGoomba | scripts/mario_expert.py:165-174 | `initialStep := stepCount` happens exactly when a GOOMBA sits at +3 or +2 on row `marioY-3`. |
| Respond.EntityRespondYReadsOnlyProbes | scripts/mario_expert.py:163-188 | For a given marker position, the result depends only on four cells: row `marioY-3` at `marioX+3` and `marioX+2`, row 11 at `marioX+4`, and row 15 at `marioX+2`. |
| Respond.EntityRespondYIgnoresOtherCells | scripts/mario_expert.py:159-188 | Changing any other cell leaves the result unchanged, as long as the change creates or removes no marker. |
| Respond.EntityRespondX | scripts/mario_expert.py:190-219 | If the marker column is > 14, the result is RIGHT (2). On a grid of at least 16 × 19 no read raises. The result is always (A, RIGHT), A or RIGHT. It is A exactly when KOOPA is on the marker row at `marioX+2` and the cell below is neither GOOMBA nor FLY. |
| Respond.EntityRespondXFollowsRules | scripts/mario_expert.py:196-219 | The if-chain is first-match over the table in this order: GOOMBA below, ARCHER level, FLY below, KOOPA level, PIPE level, GROUND below, EMPTY below. Every rule reads column `marioX+2` only. |
| Respond.EntityRespondXReadsOnlyProbes | scripts/mario_expert.py:196-219 | For a given marker position, the result depends only on column `marioX+2` of the marker row and the row below. |
| Respond.PipeRuleNeverFires | scripts/mario_expert.py:201-212 | Since ARCHER aliases PIPE (14), the PIPE rule is never the first to fire. |
| Controller.Store | scripts/mario_expert.py:79-94 | The remembered value holds the action's buttons. It is a list exactly when the action was a bare int, and a tuple otherwise. |
| Controller.StoredEqualsOnlyRepeatedCombo | scripts/mario_expert.py:254-258 | Under Python `==`, a remembered action equals a new one exactly when both are the same tuple. |
| Controller.RunAction | scripts/mario_expert.py:71-92 | The controller emits one press per button in the action's order, then exactly `act_freq` ticks, then one release per button in the same order. |
| Controller.RunActionHoldsButtonsTogether | scripts/mario_expert.py:83-92 | During every one of the `act_freq` ticks, all buttons of the action are held at once, whatever their number. After the release none is held, and there are exactly `act_freq` ticks. |
| Agent.RecoveryIsNotARuleAction | scripts/mario_expert.py:260-262 | The recovery press (3) is never an action the rules choose. |
| Agent.InitialPrevMatchesNoRuleAction | scripts/mario_expert.py:33 | The initial `prevActions` `(0,0)` equals no action the rules choose, so the first step never counts as a repeat. |
| Agent.InitialValid | scripts/mario_expert.py:235-237 | The start state (step 0, `initialStep` 0, counter 0) satisfies the run invariant. |
| Agent.Select | scripts/mario_expert.py:246-252 | While `stepCount - initialStep <= 10` or the Y flag is set, the chosen action is the Y action. Otherwise it is `entityRespondX`'s action. `initialStep` is the one `entityRespondY` left. The action is always defined. |
| Agent.Debounce | scripts/mario_expert.py:254-264 | The counter increments when `prevActions == action` and resets to 0 otherwise. Reaching 5 returns 3 and resets the counter. A counter below 5 stays below 5. |
| Agent.SingleResetsCounter | scripts/mario_expert.py:254-258 | A bare int action always resets the counter and is returned unchanged. |
| Agent.ChooseAction | scripts/mario_expert.py:240-264 | The rule-chosen action and the new `initialStep` are what the window/flag selection yields. The new counter and the returned action are what the stuck filter yields for that choice, so 3 is returned exactly on the fifth repeat. The step count and `prevActions` are untouched. |
| Agent.Step | scripts/mario_expert.py:267-276 | The step count rises by one before choosing. `initialStep` becomes the new step count exactly when a GOOMBA rule fired, and is kept otherwise. Inside the window or with the Y flag set the Y action is chosen; otherwise `entityRespondX` decides. Recovery is returned exactly when the remembered value equals the choice and the counter was 4. The events are exactly `run_action` of the returned action, and `prevActions` becomes its stored form. The invariant `0 <= initialStep <= stepCount`, `0 <= counter < 5` is kept. |
| Play.Run | scripts/mario_expert.py:292-296 | A run takes one step per grid and advances the step count by the number of grids. It keeps the invariant and never lowers `initialStep`. On well-shaped grids it never raises. |
| Play.WindowKeepsVerticalRules | scripts/mario_expert.py:246-249 | While the override window stays open, every step uses the Y action. This holds for the first ten steps and for ten steps after a GOOMBA rule fired. |
| Play.Admit | scripts/mario_expert.py:254-264 | Each choice sent through the stuck filter emits itself or the recovery press, and the emitted action is what gets remembered. |
| Play.RunDebounces | scripts/mario_expert.py:254-264 | A run's returned actions are exactly the stuck filter applied to its rule choices. |
| Play.RepeatsAreCounted | scripts/mario_expert.py:254-255 | Choosing the last-sent tuple n < 5 more times counts n repeats and sends it each time. |
| Play.FiveRepeatsRecoverOnce | scripts/mario_expert.py:254-262 | Choosing the last-sent tuple five more times sends it four times, then the recovery press with the counter back at 0. A sixth choice is sent again. |
| Play.SinglesPassThrough | scripts/mario_expert.py:254-258 | A sequence of bare int actions passes through unchanged, leaving the counter at 0. |
| Play.CounterTracksRepeats | scripts/mario_expert.py:254-262 | After any sequence of choices, the counter is at most the number of trailing choices that are one and the same tuple. |
| Play.RecoveryNeedsFiveEqualCombos | scripts/mario_expert.py:254-262 | From any remembered value, the recovery press is emitted only after the same tuple was chosen five times in a row. |
| Play.TrailingRun | scripts/mario_expert.py:254-258 | From the initial `prevActions` `(0,0)`, a counter of c means the last c + 1 choices were one and the same action, because the first choice of a run is never a repeat. |
| Play.RecoveryFromStartNeedsSix | scripts/mario_expert.py:254-262 | From the initial `prevActions`, the recovery press is emitted only after six equal tuple choices in a row: one to be remembered, then five repeats. |
| Play.RunRecoveryNeedsRepeats | scripts/mario_expert.py:254-264 | In any run from the start, step k returns 3 only if k >= 5 and steps k-5..k all chose the same tuple. |

## Left out

- The emulator calls (`send_input`, `tick`) are modelled as an abstract trace of press, tick and release events. Nothing is sent anywhere.
- `MarioEnvironment` is not part of this model. `game_area` is an input grid. `game_state`, `grab_frame`, `get_game_over` and `reset` are left out. The game-over test of the play loop is the end of the grid sequence.
- `play`, `start_video` and `stop_video` are left out. Video encoding, the JSON results file and logging are I/O.
- `print(game_area)` and the unused imports are left out.
- An `IndexError` ends the run. In the program it would propagate as an uncaught exception.
- The environment's `overRideFlag` is not part of the state. It is overwritten by every `choose_action` before it is read.
- Respond.EntityRespondY: the contract gives a sufficient grid shape (16 rows, 19 columns) under which no read raises. It does not state the exact set of grids that raise.
- Respond.EntityRespondX: the contract gives the same sufficient shape, not the exact set of grids that raise.
- A tuple action is a set of buttons pressed together for `act_freq` ticks (`run_action`, lines 83-92). It is not modelled as a (code, repeat count) pair.

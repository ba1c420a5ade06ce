# picopix-puzzle in Dafny

A model of the game logic of picopix-puzzle, a small browser puzzle. The
player walks over a grid of tiles and pushes boulders. Walls block
movement. Ice keeps an actor sliding. Numbered buttons rewrite a target
tile while something stands on them. A level is won at the end of a tick
in which some actor came to rest, if the floor under the player is then
the exit.

The model covers:

- the `Room` of `picopix-puzzle.js`: its construction from a level's rows
  of glyphs, `object_at`, `set_floor` and `move_to`;
- the `Actor` record;
- the game's `update` rules: which held direction the player takes up, the
  collision and push rule, the per-tick advance that snaps an actor into
  the next cell, the sweep over the list of moving actors and the win
  check;
- the scene changes on the space key, and the key-down and key-up
  handling of the direction keys;
- from `game-core.js`: `Array.prototype.eradicate`, `EventList.push`, and
  the frame loop (`run` / `_update`), reduced to the loading counter and
  whether an animation frame is pending.

Modules:

- `RoomState` (`room_state.dfy`) describes a room as a value. A `State`
  holds the floor glyph and occupant of every cell, the button bindings
  and the fields (`Pose`) of every actor. `Paint`, `Place`, `Settle`,
  `Vacate` and `MoveSpec` say what `set_floor` and the three steps of
  `move_to` do to that value. `State.Valid` says five things: both grids
  are `width` columns of `height` cells; every button's target is inside
  the grid and its on and off glyphs are bound; the floor holds only
  bound button digits; every actor recorded in the grid is homed at that
  cell; and every actor is inside the grid, a moving actor's next cell is
  inside the grid too, and a resting actor has no direction.
  `Press`, `Release` and `Vacate` keep the floor well formed, and so does
  `Paint` of a bound glyph.
  `Place` and `Settle` keep only the weaker `HomedBut`, because the cell
  just left may still name the actor that moved on (`PlaceHomed`,
  `StopHomed`). `Vacate` restores full homing (`VacateHomed`), so the
  whole of `move_to`, `MoveSpec`, keeps `State.Valid`.
- `PuzzleRoom` (`room.dfy`) holds the imperative `Room` class, with the
  grids as columns (`floor[x][y]`) as in the source. Its constructor scans
  the level column by column. Every method is proved to move
  `Snapshot()`, the room seen as a `State`, exactly as the matching
  function says.
- `RoomFacts` (`room_facts.dfy`) proves what the scan and `move_to`
  promise. Boulders are listed in scan order, the player is the last `^`
  found, ice keeps an actor moving only when the cell ahead is free,
  stopping on a button presses it, leaving a button releases it, and the
  old cell is cleared only when its occupant has left it.
- `PuzzleRules` (`game_rules.dfy`) gives the discrete rules of `update` as
  functions on `State`. `Begin` starts a move, `Advance` and `Commit`
  carry one actor through one tick, `SweepFrom` runs the tick loop over
  the moving list, and `PlayStep` does the whole playing-scene update.
- `PuzzleGame` (`game.dfy`) holds the `Game` class (scenes, levels,
  pause, the player's events, the moving list) and proves each handler
  against those functions.
- `Collections` (`collections.dfy`) gives `eradicate` and the
  duplicate-free `EventList`. `FrameLoop` (`frame_loop.dfy`) gives the
  loading counter and the pending animation frame.

## Model

| member | source | states |
|---|---|---|
| Collections.IndexOf | game-core.js:8 | the index found is -1 exactly when the value is absent; otherwise it holds the value and is its first occurrence |
| Collections.WithoutExcludes | game-core.js:5-14 | after removal, the value no longer occurs in the list |
| Collections.WithoutCounts | game-core.js:5-14 | removal deletes every occurrence of the value and keeps every other element with its multiplicity |
| Collections.WithoutAbsent | game-core.js:5-14 | removing an absent value leaves the list as it was |
| Collections.WithoutAppend | game-core.js:5-14 | removal distributes over concatenation, so order is kept |
| Collections.WithoutDistinct | game-core.js:5-14 | removal keeps a duplicate-free list duplicate-free |
| Collections.CutKeepsWithout | game-core.js:8-10 | splicing out one found occurrence leaves the same list-without-the-value |
| Collections.CutDistinct | game-core.js:8-10 | splicing out one element keeps a duplicate-free list duplicate-free |
| Collections.EventList.Eradicate | game-core.js:5-14 | on any list, the loop that splices out the first occurrence until none is left ends with the list minus every occurrence of the value, order kept; a list without duplicates stays without duplicates |
| Collections.Pushed | game-core.js:39-41 | `push` appends a value only when it is absent; the value is present afterwards |
| Collections.PushedDistinct | game-core.js:39-41 | `push` keeps the event list free of duplicates |
| Collections.PushedIdempotent | game-core.js:39-41 | pushing the same value twice is the same as pushing it once |
| Collections.EventList.constructor | game-core.js:37-38 | a new event list is empty |
| Collections.EventList.Push | game-core.js:39-41 | the list becomes `Pushed` of the old one and stays duplicate-free |
| FrameLoop.Loop.constructor | game-core.js:221-222 | the loading counter starts at 0 with no frame requested |
| FrameLoop.Loop.BeginLoad | picopix-puzzle.js:131 | a started load raises the loading counter by one and requests nothing |
| FrameLoop.Loop.Run | game-core.js:228-235 | while loads are outstanding `run` only counts one down; otherwise a frame is pending afterwards, requested only if none was, so at most one is ever outstanding |
| FrameLoop.Loop.Deliver | game-core.js:237-246 | after a frame, another is requested exactly when `update` did not report done |
| RoomState.ButtonId | picopix-puzzle.js:99 | `parseInt` of a digit glyph is a button index below 10 |
| RoomState.Classify | picopix-puzzle.js:66-86 | `set_floor` keeps exit, wall, ice and digit glyphs and turns every other glyph into a blank floor |
| RoomState.Actor.constructor | picopix-puzzle.js:120-125 | a new actor stands at its cell with zero offsets, zero direction and not moving |
| RoomState.Paint | picopix-puzzle.js:66-86 | the painted cell is a wall exactly for `#` and otherwise free; its floor keeps the glyph exactly when it is terrain and is blank otherwise; no other cell changes; every actor still recorded was recorded in the same cell before; bound button digits stay bound |
| RoomState.Press | picopix-puzzle.js:97-101 | pressing a button keeps size, buttons and actors, records no actor in a cell it did not hold before, and keeps every button digit bound (what it paints is stated by `RoomFacts.StopPresses`) |
| RoomState.Release | picopix-puzzle.js:110-114 | releasing a button gives the same guarantees for its `off` glyph |
| RoomState.Place | picopix-puzzle.js:89-92 | the first step of `move_to` records the actor at its new cell and zeroes its offsets, changing nothing else |
| RoomState.Settle | picopix-puzzle.js:93-101 | the terrain check: a sliding actor is left alone; otherwise it stops (direction zeroed, not moving) and, on a digit, its button is pressed; grid contents are otherwise kept |
| RoomState.Vacate | picopix-puzzle.js:102-117 | the old cell is cleared, and its button released, only when its occupant has moved away; the floor stays well formed |
| RoomState.PlaceHomed | picopix-puzzle.js:88-92 | after `Place`, every actor except the moved one is still homed, and the moved one is at its new cell |
| RoomState.StopHomed | picopix-puzzle.js:93-97 | stopping an actor keeps the homing invariant |
| RoomState.VacateHomed | picopix-puzzle.js:102-117 | clearing the left cell restores the full homing invariant |
| RoomState.SettlePoses | picopix-puzzle.js:88-101 | after `Place` the moved actor's next cell, if it slides, is inside the grid |
| RoomState.SettleHomed | picopix-puzzle.js:88-101 | the floor glyph under the new cell is a bound button, and the terrain check keeps the invariants |
| RoomState.MoveSpec | picopix-puzzle.js:88-118 | `move_to` keeps the room valid, keeps the actor set and the buttons, moves only the given actor, and leaves it at the target cell with zero offsets |
| PuzzleRoom.ScanStep | picopix-puzzle.js:21-34 | handling one cell of the construction scan keeps the scan invariant: the grids match the glyphs read so far, and the boulder list and player match the scan order |
| PuzzleRoom.ScanValid | picopix-puzzle.js:3-37 | a complete scan of a well-formed level yields a valid room |
| PuzzleRoom.Room.constructor | picopix-puzzle.js:3-37 | size and buttons come from the level; every cell holds its classified glyph; boulders are listed in scan order; the player is the last `^` scanned; every actor rests at its cell; the room is valid |
| PuzzleRoom.Room.ScanCell | picopix-puzzle.js:21-34 | one cell of the scan extends the scanned prefix by that cell and creates only new actors |
| PuzzleRoom.Room.Spawn | picopix-puzzle.js:23-33 | a `^` or `*` makes a new resting actor at the cell, records it there, and adds it to the boulder list or makes it the player |
| PuzzleRoom.Room.ObjectAt | picopix-puzzle.js:60-64 | a cell outside the grid reads as a wall; a cell inside reads as its occupant |
| PuzzleRoom.Room.SetFloor | picopix-puzzle.js:66-86 | the cell's floor becomes the classified glyph and its occupant a wall for `#` and free otherwise; the lists are untouched |
| PuzzleRoom.Room.MoveTo | picopix-puzzle.js:88-118 | the room afterwards is `MoveSpec` of the room before, and stays valid |
| PuzzleRoom.Room.Place | picopix-puzzle.js:89-92 | the room afterwards is `Place` of the room before |
| PuzzleRoom.Room.SettleOn | picopix-puzzle.js:93-101 | the room afterwards is `Settle` of the room before, on the floor glyph of the new cell |
| PuzzleRoom.Room.Vacate | picopix-puzzle.js:102-117 | the room afterwards is `Vacate` of the room before |
| RoomFacts.ScanOrderSound | picopix-puzzle.js:18-36 | every cell listed by the scan holds the glyph looked for |
| RoomFacts.ScanOrderComplete | picopix-puzzle.js:18-36 | every cell with that glyph is listed by the scan |
| RoomFacts.ScanOrderSorted | picopix-puzzle.js:18-36 | the scan lists cells column by column, top to bottom |
| RoomFacts.ScanFinds | picopix-puzzle.js:18-36 | the scan finds a glyph exactly when some cell of the level holds it |
| RoomFacts.BouldersInScanOrder | picopix-puzzle.js:29-32 | each boulder stands on a `*` cell, the boulders appear in column-major order, and every `*` cell has one |
| RoomFacts.FloorUnderActors | picopix-puzzle.js:22-32 | a cell holding an actor was a `^` or `*` glyph and has blank floor; a cell holds a wall exactly when its floor is `#` |
| RoomFacts.IceRule | picopix-puzzle.js:93-97 | after `move_to` an actor keeps moving exactly when it lands on ice with the next cell in its direction free |
| RoomFacts.StopPresses | picopix-puzzle.js:97-101 | an actor that stops on a digit paints the `on` glyph of that button at its target |
| RoomFacts.LeaveReleases | picopix-puzzle.js:102-117 | a cell whose occupant moved away is cleared, and its button's `off` glyph is painted when it is a digit |
| RoomFacts.GuardKeeps | picopix-puzzle.js:103-106 | a cell still holding an actor that stands there, or holding a wall or nothing, is left unchanged |
| RoomFacts.MoveRecords | picopix-puzzle.js:88-92 | outside button targets, the new cell holds the moved actor after `move_to` |
| RoomFacts.MoveFreesOldCell | picopix-puzzle.js:88-110 | the cell an actor left holds no actor afterwards, even when a button pressed on arrival targets it |
| RoomFacts.MoveKeepsNewcomer | picopix-puzzle.js:103-108 | outside button targets, an actor that already moved into the left cell stays recorded there |
| RoomFacts.PushPlayerFirst | picopix-puzzle.js:304-310 | outside button targets, the player is handled before the boulder it pushes; when the player commits onto the boulder's cell, that cell records the player, while the boulder's own pose is untouched and still names that cell |
| PuzzleRules.Delta | picopix-puzzle.js:250-277 | every move event is a unit step along exactly one axis |
| PuzzleRules.KeyEvent | picopix-puzzle.js:176-227 | arrows and A, W, D, S (37/65, 38/87, 39/68, 40/83) map to left, up, right and down, and no other key maps to an event |
| PuzzleRules.Begin | picopix-puzzle.js:281-303 | setting off changes only poses, keeps the room valid, and only appends actors of the room to the moving list |
| PuzzleRules.Shove | picopix-puzzle.js:286-295 | pushing a boulder keeps the room valid and only appends actors of the room |
| PuzzleRules.BlockedMoveChangesNothing | picopix-puzzle.js:284-289 | a wall ahead, or a boulder ahead with anything but a free cell behind it, leaves room and list unchanged |
| PuzzleRules.PushQueuesBoulderFirst | picopix-puzzle.js:286-302 | a boulder with a free cell behind it is set off in the player's direction, then the player; both are appended in that order; nothing else changes |
| PuzzleRules.FreeStepQueuesPlayer | picopix-puzzle.js:297-302 | a free cell ahead sets only the player off and appends only the player |
| PuzzleRules.Commit | picopix-puzzle.js:308-310 | an actor is moved to the next cell in its direction, with zero offsets, exactly when an offset reached a tile; otherwise the room is unchanged |
| PuzzleRules.Advance | picopix-puzzle.js:305-310 | one actor's share of a tick keeps the room valid and keeps its size, buttons and set of actors |
| PuzzleRules.AdvanceStep | picopix-puzzle.js:305-310 | a tick moves no other actor; it carries this one at most one cell, in its own direction, and leaves its offsets below a tile; short of a tile only the offsets change |
| PuzzleRules.AdvanceKeepsSmall | picopix-puzzle.js:305-310 | offsets below a tile stay below a tile for every actor |
| PuzzleRules.IdleAdvance | picopix-puzzle.js:306-308 | a tick of length zero changes nothing |
| PuzzleRules.SweepFrom | picopix-puzzle.js:304-315 | the tick loop keeps the room valid; the list left holds only handled actors and is shorter exactly when some actor stopped |
| PuzzleRules.KeptWereMoving | picopix-puzzle.js:311-314 | an actor stays in the list exactly when it is still moving after its tick, ahead of the entries handled before it; otherwise it is spliced out and a win check is due |
| PuzzleRules.Started | picopix-puzzle.js:246-303 | taking up a held key keeps the room valid and queues only actors of the room |
| PuzzleRules.PlayStep | picopix-puzzle.js:245-321 | the playing-scene update keeps the room valid and every queued actor in it, and reports a win only with the player on the exit |
| PuzzleRules.WinRule | picopix-puzzle.js:313-321 | the level is won exactly when some actor left the moving list in this tick and the player stands on an exit cell |
| PuzzleRules.NoIntentNoStart | picopix-puzzle.js:246-281 | while the player is moving, or no key is held, nothing is set off |
| PuzzleGame.SelectIntent | picopix-puzzle.js:246-280 | the loop over held events, last first, picks the most recently pressed direction exactly when the player is idle; the move flag is set when the player is busy or some key is held |
| PuzzleGame.StartMove | picopix-puzzle.js:281-303 | the room and the moving list afterwards are those `Begin` gives |
| PuzzleGame.Push | picopix-puzzle.js:286-302 | the push branch does what `Begin` gives for a boulder with free space behind it |
| PuzzleGame.StepOff | picopix-puzzle.js:297-302 | the free-cell branch does what `Begin` gives |
| PuzzleGame.Tick | picopix-puzzle.js:305-310 | the room afterwards is `Advance` of the room before; lists and actors are untouched |
| PuzzleGame.CommitMove | picopix-puzzle.js:308-310 | the room afterwards is `Commit` of the room before |
| PuzzleGame.Sweep | picopix-puzzle.js:304-315 | the loop over the moving list, last entry first, ends where `SweepFrom` says |
| PuzzleGame.SetOff | picopix-puzzle.js:246-303 | room and moving list afterwards are those `Started` gives |
| PuzzleGame.PlayRoom | picopix-puzzle.js:245-321 | room, list and win flag afterwards are those `PlayStep` gives |
| PuzzleGame.NewRoom | picopix-puzzle.js:147-151 | `new Room(lv)`: a new valid room with the level's size and buttons, every cell classified from its glyph, every actor resting where it was found, the boulders in scan order and the player, one of its actors, at the last `^` (`Built`) |
| PuzzleGame.Game.constructor | picopix-puzzle.js:129-133 | a new game is in scene 0, unpaused, with no events and, once construction's own `run` has consumed the load it started, no frame pending |
| PuzzleGame.Game.Run | game-core.js:228-235 | with no load outstanding a frame is pending afterwards; otherwise the counter drops by one and the pending flag is untouched |
| PuzzleGame.Game.Reset | picopix-puzzle.js:147-154 | a fresh valid room built from `levels[level]` (`Built`), its player as the game's player, an empty event list and an empty moving list; scene, level and pause are kept |
| PuzzleGame.Game.Play | picopix-puzzle.js:245-321 | the playing scene follows `PlayStep`, and moves to scene 2 exactly when the level is won |
| PuzzleGame.Game.Update | picopix-puzzle.js:233-328 | scene 0 starts level 0 in scene 1 with a fresh room built from `levels[0]`, no events and no moving actors; scene 1 follows `PlayStep` and reports done when paused or won; scenes 2 and 3 report done and leave the scene, level, room and its contents, player, events and moving list as they were |
| PuzzleGame.Game.KeyHit | picopix-puzzle.js:158-203 | a direction key is handled and, in scene 1, pushes its event, leaving the player as it was; space restarts the level in scene 1 with a fresh room built from `levels[level]`, or in scene 2 advances to the next level (a fresh room built from it) or to the end scene 3, and then runs the loop; every other key, and space in scenes 0 and 3, changes neither the game, its player nor the frame loop |
| PuzzleGame.Game.Restart | picopix-puzzle.js:161-164 | space in scene 1 rebuilds the level's room from `levels[level]` (`Built`) with no events and no moving actors, then runs the loop: a frame is pending when nothing is loading, and otherwise the counter drops by one |
| PuzzleGame.Game.NextLevel | picopix-puzzle.js:165-174 | space in scene 2 raises the level; scene 1 with a fresh room built from the new level when levels remain, scene 3 with room and lists kept otherwise; then the loop runs as for `Run` |
| PuzzleGame.Game.KeyUp | picopix-puzzle.js:205-229 | releasing a direction key in scene 1 removes every occurrence of its event; other keys and scenes change nothing |
| PuzzleGame.Game.Blur | picopix-puzzle.js:137 | losing focus pauses the game; scene, level, room, player, events and moving list are unchanged |
| PuzzleGame.Game.Focus | picopix-puzzle.js:138-143 | regaining focus unpauses and keeps scene, level, room, player, events and moving list; the loop runs as for `Run` only when the game was paused, and is untouched otherwise |
| PuzzleGame.Game.Frame | game-core.js:237-246 | after a frame, another is pending exactly when `update` did not report done |

## Left out

- Rendering is not modelled: `Room.prototype.draw`, `Game.prototype.render`, the canvas painting in `set_floor` and the colours.
- Canvas placement is not modelled: `room.x` and `room.y`, and the canvas sizes.
- Resource loading is not part of this model. This covers `Resource`, `load_data` and `BGM`. The levels are handed to `Game.constructor`, and a finished load is `Game.Run`.
- `Object.assign` and `Math.TAU` do not affect the game logic.
- DOM listeners are modelled by what they call: `KeyHit`, `KeyUp`, `Blur` and `Focus`. `preventDefault` and `stopPropagation` appear only as the `handled` result.
- `e.which || e.keyCode` is given as one integer key code.
- Timestamps and the `dt_max` cap are not modelled.
- PuzzleGame.Game.Update: takes the distance of a tick as an integer `step`. This stands for the floating-point `spd*dt`. The pixel offsets are integers, so rounding is not modelled.
- PuzzleGame.Game.Frame: states only the frame-pending flag. What the frame does to the game is the contract of `Game.Update`.
- The player's `events` list is a field of the game, not of the player. `reset` always replaces both together.
- `charAt` past the end of a short row yields the empty string. The model reads a blank `' '` there. `set_floor` treats the two alike, and neither is a player or boulder glyph.
- PuzzleRoom.Room.constructor: requires `LevelOk`. The level must have a first row, every digit on the grid and in a button glyph must be bound, and every button target must lie inside the grid. The model requires all of this up front. The source fails in three cases only:
  - a level without rows (`tiles[0]`, picopix-puzzle.js:6);
  - an actor stops on or leaves a digit that has no binding (picopix-puzzle.js:99-100, 113-114);
  - a pressed or released button's target column lies outside the grid.
  A target row outside its column is written without error (picopix-puzzle.js:69, 82). A digit that no actor stops on or leaves is never looked up.
- PuzzleGame.NewRoom: requires a level with a player (`Playable`). `reset` fails on a level without one.
- The room constructor applies no button glyphs. A button's target starts with the glyph written in the level's own grid. Button glyphs are written only when an actor stops on a button or leaves it.
- The loop variable `i` in `update` is an undeclared global in the source. The model keeps it local.

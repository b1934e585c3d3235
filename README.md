# Wolf Run, modelled in Dafny

Wolf Run is a small endless-runner game written with pygame. A wolf stands at
a fixed x position on the ground. The player makes it jump with SPACE, and
each accepted jump scores 10 points. Rocks scroll in from the right edge. The
run ends when the wolf's rectangle overlaps a rock's rectangle.

The model covers the logic under the drawing and input code:

- `config.dfy`: the game's constants.
- `geometry.dfy`: integer rectangles, and `Rect.colliderect` as a stated overlap predicate.
- `player.dfy`: the `Wolf` class, with `jump`, `update` (gravity and landing) and `animate`.
- `obstacles.dfy`: the `Rock` class (`update`, `is_off_screen`) and `new_rock`. It also holds the loop that updates every rock, and the list comprehension that prunes the list.
- `rock_queue.dfy`: the rock list seen as a sequence of x positions. One frame moves every rock, prunes and spawns. The lemmas prove that the list is never empty when the spawn step reads `rocks[-1]`, and that consecutive rocks stay a fixed distance apart.
- `game.dfy`: one run of the game.
  - Each frame's event batch updates the score.
  - The frame then updates the wolf and the rocks, prunes, spawns and checks collisions.
  - The `while game_active` loop repeats the frame.
  - The same frame and loop also exist on values, as `PlayFrame` and `Run`. `Step` and `Play` are proved to leave the objects exactly where those functions say, and the lemmas about `Run` say where a run stops and what it leaves.
  - The run's state is the `GameState` class. Its invariant ties the rock objects to the well-spaced position list. It also carries the count of accepted jumps, which the score always equals 10 times. That equation holds by construction; the score fact with content is `HandleEvents`' contract, where the score rises by 10 exactly when a jump is accepted.

Three facts about the code that the proofs bring out:

- **Rock spacing.** A rock spawns in the first frame in which the previous one has travelled more than `ROCK_SPACING` (500) from the spawn point. Rocks move 7 per frame, so consecutive rocks are 72 × 7 = 504 apart. `RockQueue.SpawnGap` is that constant; `RockQueue.FramePreservesWellSpaced` and `RockQueue.RunNeverEmpties` prove the gap is kept frame after frame.
- **List order.** Rocks are appended at the right edge, so x increases along the list (`RockQueue.WellSpacedIncreasing`).
- **Collision at a shared edge.** `colliderect` does not count rectangles that only share an edge: two rectangles collide exactly when some pixel lies in both (`Geometry.OverlapsIffSharedPixel`).

## Model

| member | source | states |
|---|---|---|
| Player.Wolf.constructor | main.py:38-47 | A new wolf stands on the ground at y = 250 with zero velocity. It is not jumping, and its animation starts at image 0 with timer 0. |
| Player.Physics | main.py:50-57 | A grounded wolf does not move. An airborne wolf lands iff its new position y + v + gravity, made a pixel row, reaches the ground line. If it stays airborne, its velocity is increased by gravity, its y is moved by that velocity, and it ends above the ground line. If it lands, it sits at y = 250 with velocity 0. A wolf not below the ground stays so. If the old state rests on the ground with velocity 0 whenever it is not jumping, so does the new one. |
| Player.Wolf.Jump | main.py:68-73 | A jump is accepted iff the wolf was not jumping. An accepted jump sets `is_jumping` and a velocity of -12. A refused jump leaves the velocity unchanged. |
| Player.Wolf.Update | main.py:49-59 | The height, velocity and jump flag become `Physics` of their old values, and the animation advances as `Animated` says. The wolf's invariant is kept: never below the ground, and resting on it when not jumping. |
| Player.Wolf.Animate | main.py:61-66 | The timer and the image index become exactly `Animated` of their old values, and both stay in range. |
| Player.Animated | main.py:61-66 | The image index stays in [0, 4) and the timer in [0, 1). The timer resets to 0 iff timer + 0.1 reaches 1, and then the index advances by one, wrapping 3 to 0. Otherwise the index is unchanged. |
| Geometry.OverlapsIffSharedPixel | main.py:186 | Two rectangles overlap iff some pixel lies in both. Rectangles that only share an edge, and empty rectangles, never overlap. |
| Obstacles.Rock.constructor | main.py:79-83 | A rock is created at the given x. Its y is fixed at 250. |
| Obstacles.Rock.Update | main.py:85-86 | x decreases by exactly 7. A rock that was off screen is still off screen. |
| Obstacles.Rock.IsOffScreen | main.py:91-92 | Holds iff x < -50, the rock's width to the left of 0. |
| RockQueue.OffScreen | main.py:91-92 | Holds iff the rock's right edge x + 50 is left of 0. |
| Obstacles.NewRockX | main.py:212-215 | A new rock is placed at the given position, or at the right edge (800) when none is given. |
| Obstacles.UpdateRocks | main.py:173-174 | After the loop, each rock of the list has moved exactly once. The positions are the old ones, each minus 7. |
| Obstacles.Pruned | main.py:177 | The comprehension keeps only rocks taken from the list. Their positions are exactly `Kept` of the old positions, so they are the on-screen rocks in their original order. |
| RockQueue.Kept | main.py:177 | Pruning never lengthens the list. An on-screen last rock survives as the last rock. |
| RockQueue.KeptMembers | main.py:177 | A position survives pruning iff it was in the list and is not off screen, that is x ≥ -50. |
| RockQueue.KeptAppend | main.py:177 | Pruning distributes over concatenation, so the kept rocks keep their relative order. |
| RockQueue.KeptAllOnScreen | main.py:177 | A list with no off-screen rock is kept whole. |
| RockQueue.OffScreenStaysOffScreen | main.py:85-92 | Moving never brings an off-screen rock back. |
| RockQueue.Spawn | main.py:180-182 | The spawn step fails exactly on an empty list, where `rocks[-1]` raises. Otherwise it appends one rock at `last_rock_x` only when the last rock is more than 500 from it. `last_rock_x` is read back unchanged. Afterwards the last rock is within 500 of `last_rock_x`. |
| RockQueue.Frame | main.py:172-182 | One frame of the rock list: move, prune, spawn. `last_rock_x` is read back unchanged, and the list grows by at most one rock. |
| RockQueue.FrameRocks | main.py:172-182 | A frame fails at `rocks[-1]` iff every rock is off screen after moving. Otherwise every rock afterwards is an old one moved left by 7 and still on screen, or the new one at `last_rock_x`. |
| RockQueue.GappedDistance | main.py:180-182 | In a gapped list, rocks k positions apart are k × 504 apart. |
| RockQueue.KeptGapped | main.py:177 | Pruning a gapped list leaves it gapped, because only a prefix can leave the screen. |
| RockQueue.MovedGapped | main.py:173-174 | Moving all rocks alike keeps the gaps. |
| RockQueue.WellSpacedIncreasing | main.py:180-182 | Along a well-spaced list, x strictly increases. |
| RockQueue.WellSpacedAtMostTwo | main.py:180-182 | A well-spaced list never holds more than two rocks. |
| RockQueue.FramePreservesWellSpaced | main.py:172-182 | One frame of a well-spaced list never reaches the empty-list failure, and the result is well spaced again. This means: `last_rock_x` is still 800, the list is non-empty, consecutive rocks are 504 apart, and the last rock is within 500 of 800. It grows by at most one rock. |
| RockQueue.FramesOneMore | main.py:158-182 | Frame n + 1 is the frame applied to the list that frame n left. |
| RockQueue.RunNeverEmpties | main.py:158-182 | From any well-spaced list, no number of frames reaches the empty-list failure, and the list stays well spaced. |
| RockQueue.StartWellSpaced | main.py:153-155 | A fresh run's single rock at 800, with `last_rock_x` = 800, is well spaced. |
| Game.CheckCollisions | main.py:185-187 | The flag stays set iff it was set and no rock of the list overlaps the wolf's box. Every rock is tested, and nothing else changes. |
| Game.PlayFrame | main.py:159-187 | One frame on values. The frame stops after the events iff the batch holds a quit. A frame that ran reports a hit iff a rock overlaps the wolf's new box. The wolf's animation stays in range. |
| Game.PlayFrameQuit | main.py:159-169 | On a quit, the rocks, `last_rock_x` and the wolf's height are as before. The wolf is jumping iff it was, or a SPACE press came. |
| Game.PlayFrameScore | main.py:163-166 | Every frame that does not crash raises the score by 10 iff a jump was accepted, and by nothing otherwise. |
| Game.PlayFrameKeepsWellSpaced | main.py:172-182 | From well-spaced rocks a frame never reaches the empty-list failure. The rocks stay well spaced, and a frame that ran leaves exactly `Frame` of the old rocks. |
| Game.Run | main.py:157-187 | The outcome of the `while game_active` loop after n batches. After at least one frame, a run that played its last frame reports a hit iff a rock overlaps the wolf's box. The wolf's animation stays in range. |
| Game.RunFrame | main.py:157-187 | The outcome once batch i is handled. A frame that ran reports a hit iff a rock overlaps the wolf's box. |
| Game.RunOneMore | main.py:157-187 | A run that went on through n batches, with no quit and no hit, takes batch n as one more `PlayFrame` from where it stands. |
| Game.RunStep | main.py:157-187 | Suppose the run through n batches stands at `before` and still goes on. If batch n's frame takes `before` to `after`, then the run through n + 1 batches ends exactly there. |
| Game.ContinuesBefore | main.py:157-158 | A run that goes on after n batches went on after every earlier batch. |
| Game.ContinuesNoQuit | main.py:159-162 | A run that goes on after n batches met no quit in any of them. |
| Game.RunKeepsWellSpaced | main.py:157-182 | From well-spaced rocks, no run ever reaches `rocks[-1]` on an empty list, and the rocks stay well spaced. |
| Game.StopsAt | main.py:157-169 | Suppose every frame before the last went on. Then a run that quit did so on a quit in its last batch. Otherwise none of its batches held a quit. |
| Game.RunFrames | main.py:157-182 | Suppose every frame before the last went on. Then the rock positions after the run are `Frames` of the starting ones, one frame per batch that moved the rocks: every batch except a final quitting one. |
| Game.RunEnds | main.py:157-187 | What the loop's end state says. A quit lies in the last batch, and no batch holds one when `running` is still set. With `running` set after at least one frame, `game_active` is false iff a rock overlaps the wolf. The rocks are `Frames` of the starting ones, one per frame that moved them. |
| Game.GameState.constructor | main.py:151-155 | A run starts with a grounded wolf, a single rock at 800, `last_rock_x` = 800 and score 0. The run invariant holds. |
| Game.GameState.HandleEvents | main.py:159-166 | `running` becomes false iff the batch holds a quit. The wolf is jumping afterwards iff it was, or a SPACE press came. Its velocity becomes -12 iff a jump was accepted, which needs a grounded wolf and a SPACE press, and is otherwise unchanged. The score rises by 10 iff a jump was accepted, and by no more, because later presses are refused. The wolf's position and animation are untouched. |
| Game.GameState.Step | main.py:159-187 | One frame on the objects. `running` is false iff the batch holds a quit, and then so is `game_active`. The new wolf, rock positions, `last_rock_x` and score are exactly `PlayFrame` of the old ones, and `game_active` is false exactly when `PlayFrame` reports a hit. The run invariant is kept. |
| Game.GameState.StepRun | main.py:158-187 | One pass of the loop body keeps the loop invariant `Tracks`. The objects hold the outcome of `Run` through one more batch, and every earlier frame let the run go on. |
| Game.GameState.Advance | main.py:171-187 | The wolf's height, velocity, jump flag and animation become exactly `Wolf.update` of the old ones. The rocks are then moved, pruned and spawned as `Frame` says, and the result is false iff a rock overlaps the wolf's new box. The run invariant is kept. |
| Game.GameState.AdvanceRocks | main.py:173-182 | The rock objects' positions become exactly `Frame` of the old ones, and the list stays well spaced. Every rock is either an old one or new. |
| Game.GameState.Prune | main.py:177 | The positions become `Kept` of the old ones. Every rock kept was already in the list. |
| Game.GameState.SpawnIfDue | main.py:180-182 | The rock list is either unchanged or the old list plus one new rock. The positions and `last_rock_x` are what `Spawn` computes. |
| Game.GameState.Play | main.py:157-187 | The `while game_active` loop, given one event batch per frame. After `frames` frames, the wolf, the rock positions, `last_rock_x` and the score are exactly the values `Run` gives for that many batches. `running` and `game_active` are its quit and hit. Every frame but the last went on, and the loop only runs out of batches while still active. A quit stops it in the first batch that holds one. After at least one frame with `running` set, `game_active` is false iff a rock overlaps the wolf, so a collision ends the run. The rock positions are what the value-level frames predict, and the run invariant still holds. |

## Left out

- Drawing, asset loading, display setup, fonts, `display.flip` and `Ground`. These are purely visual.
- `clock.tick(60)`. Frame timing does not affect the game logic.
- The blocking loops of `start_screen` and `game_over_screen`, and the `exit()` calls in them. The restart they lead to is modelled as a fresh `GameState`. The outer `while running` loop is not modelled.
- Event polling. Each frame's events arrive as a parameter, a sequence of `Quit`, `KeyDown(key)` or other events. `Play` takes a finite sequence of such batches, so it can also stop because the batches run out, which the game itself never does.
- Player.Wolf.Update: velocity and the animation timer are exact reals, not IEEE doubles. In Python, ten additions of 0.1 fall just short of 1 and the eleventh reaches it, so the real game changes image every 11 frames where the model changes it every 10, and the real game falls one more frame behind at each change. Its jump arc may also differ by rounding.
- Player.Wolf.Update: pygame's conversion of the float `rect.y + y_velocity` to the integer it stores is the wolf's `toPixel` function, fixed when the wolf is created and not otherwise constrained.
- Geometry.Overlaps: rectangles of zero or negative size never overlap. The game builds only rectangles of positive size, and the library's own handling of other sizes is not modelled.
- Obstacles.UpdateRocks: requires the rocks to be distinct objects. Within a run this always holds, because their x positions strictly increase.
- The unused `random` and `os` imports.

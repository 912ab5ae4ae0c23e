# SuperMario test harness: path corpus, input generators and behaviour oracles

This project models the core of the SuperMario testflows harness. That harness drives a
pygame Super Mario clone with generated key inputs, grows a corpus of promising input
paths, and checks every frame against behaviour models (oracles).

The model covers:

- **The path corpus** (`actions/paths.py`), in module `Paths`:
  - a `GamePath` records, tick by tick, the keys pressed, a score, a hash of the inputs so far and a death flag;
  - `GamePaths` adds paths (with backtracked "split" paths), sorts them by last score, deletes them, and selects one to replay.
- **Input generators** (`actions/moves.py`), in module `Moves`: the random bit-flip walk `fuzzy`, the scripted constant moves, and the `move` registry.
- **Key plumbing** (`actions/game.py`), in module `Game`:
  - the `PressedKeys` struct and the `Keys` dictionary of held key codes;
  - the KEYDOWN/KEYUP diff that `press_keys` posts;
  - the non-manual key update of the event loop.
- **Rectangle geometry** (`actions/vision.py`), in module `Vision`: `collides`, the four touch predicates with tolerance, and `adjust_box`.
- **Oracle queries** (`models/base.py`, `models/level.py`), in modules `Base` and `Level`: element lookup, positions, level boundaries, viewport visibility, one-pixel contact and collision tests, and the direction rule.
- **Mario's movement oracles**:
  - `models/mario.py` in module `Mario`, with its backward counting loops;
  - `models/mario/movement.py` in module `Movement`: the motion extracted from the last three frames, the propositions, the causal, liveness and safety checks, and `Movement.expect`.

Modelling choices:

- Python lists are `seq`s and dictionaries are `map`s.
- State the source changes in place is a class with `modifies` clauses: `GamePath`, `GamePaths`, `Keys`, the `move` registry.
- Loops in the source are methods with loop invariants. Each is proved equal to a recursive specification function, and lemmas state what that function means:
  - `fuzzy`;
  - `press_keys` and the event loop;
  - `was_in_transition` and `running_pressed_recently`;
  - the still-frame counter of `check_starts_moving`;
  - `has_started_moving_after_standing` and `has_maintained_inertia`;
  - the `move` registrations when the moves module loads.
- Everything else is a function or a predicate.
- An assertion of the harness becomes a boolean or a `Verdict`:
  - `Pass`;
  - `Fail(check)`, for a failed assertion, labelled by the check;
  - `Crash(reason)`, for a Python exception.

Interfaces that are parameters:

- Python's `hash` of an input tuple is a function parameter `hash: seq<PressedKeys> -> int`.
- The random draws of `fuzzy` are a parameter `draws` that gives, for every tick, the set of fields whose draw fell below the flip probability.
- The weighted random index of `select` is a parameter `draw`.

Fixed constants:

- pygame 2 key codes: `K_RETURN` = 13, `K_a` = 97, `K_s` = 115, `K_RIGHT` = 1073741903, `K_LEFT` = 1073741904, `K_DOWN` = 1073741905, `K_KP_ENTER` = 1073741912.
- pygame 2 key names, which `key_code` looks up: "right", "left", "a", "s" and "down" name the keys bound to those fields; "enter" names keypad Enter, and the main Enter key `K_RETURN` is "return".
- pygame 2's `Rect.colliderect`: a rectangle of zero width or height collides with nothing; otherwise negative sizes are normalised and the open interiors must intersect.

Where the code and the harness's own description differ, the model follows the code:

- The score is `level * 100000 + x_pos`, with no time term. A missing level counts as 1. A level of 0 is kept, because the code tests `is not None`.
- Duplicate paths are found by structural equality of the whole struct, not by a terminal hash.
- Backtracking needs at least twice as many inputs as frames to cut.
- Splitting uses a strict `>` and cuts before the first maximum.
- Derived paths get a fresh `deaths == [False]`.
- There is no corpus clean-up operation and no per-tick time list.
- `BehaviorState` never stores the viewport it is given, so `is_visible_in_viewport` always sees none in the harness. The model keeps the viewport as an optional field so the query itself can be stated.

## Model

| member | source | states |
|---|---|---|
| Vision.Element.constructor | SuperMario/tests/actions/vision.py:6-10 | an element is its name, box and id; the oracle compares elements by identity |
| Vision.CollidesSymmetric | SuperMario/tests/actions/vision.py:168-184 | `collides(b1, b2)` iff `collides(b2, b1)` |
| Vision.CollidesWithItself | SuperMario/tests/actions/vision.py:168-184 | a box collides with itself iff its width and height are positive |
| Vision.CollidesIffOverlaps | SuperMario/tests/actions/vision.py:168-184 | for boxes of positive size, collision is a strictly positive overlap on both axes |
| Vision.TouchDuality | SuperMario/tests/actions/vision.py:93-166 | `right_touch(b1, b2, t)` iff `left_touch(b2, b1, t)`; `bottom_touch(b1, b2, t)` iff `top_touch(b2, b1, t)` |
| Vision.TouchMonotone | SuperMario/tests/actions/vision.py:93-166 | each touch predicate that holds at tolerance t holds at every larger tolerance |
| Vision.CornerIsNoTouch | SuperMario/tests/actions/vision.py:93-166 | boxes that meet only at a corner touch on no side, whatever the tolerance |
| Vision.AdjustBox | SuperMario/tests/actions/vision.py:186-200 | y and h kept; a box left of the viewport starts at 0 and keeps its right edge; otherwise x is translated to x′ = x − viewport.x and the width is min(w, viewport.x + viewport.w − x′), so it never grows |
| Vision.AdjustBoxOverrunsViewport | SuperMario/tests/actions/vision.py:196 | on a scrolled viewport, a box inside it can end past the viewport's right edge |
| Vision.AdjustBoxClipped | SuperMario/tests/actions/vision.py:186-200 | corrected width bound min(w, viewport.w − x′): a box starting inside the viewport ends inside it; equal to the original off-scroll and for boxes left of the viewport |
| Vision.ColliderRectAgreesWithCollides | SuperMario/tests/actions/vision.py:168-184 | `colliderect` is symmetric, agrees with `collides` on boxes of positive size, as the comment says, and a box of zero width or height collides with nothing |
| Vision.ZeroWidthCollidesOnlyForCollides | SuperMario/tests/actions/vision.py:168-184 | on a zero-width box inside another, `collides` reports an overlap and `colliderect` does not |
| Game.Make | SuperMario/tests/actions/game.py:28-34 | a PressedKeys holds exactly the six field values it is built from |
| Game.HashAgreesWithEquality | SuperMario/tests/actions/game.py:36-40 | two structs have the same six-field tuple iff they are equal, so equal structs hash equally |
| Game.KeyCodeInjective | SuperMario/tests/actions/game.py:15-22 | the six fields are bound to six distinct key codes |
| Game.Keys.constructor | SuperMario/tests/actions/game.py:76-77 | a new key dictionary is empty |
| Game.Keys.Item | SuperMario/tests/actions/game.py:88-91 | an absent code reads False; a present code reads its stored value |
| Game.Keys.SetItem | SuperMario/tests/actions/game.py:93-94 | the dictionary is updated at one code and nowhere else |
| Game.Keys.DelItem | SuperMario/tests/actions/game.py:96-97 | deleting a present code removes exactly that code |
| Game.IsKeyPressed | SuperMario/tests/actions/game.py:204-206 | corrected read: 1 iff the key bound to the field is held, else 0 (for enter the binding `K_RETURN`, see Left out) |
| Game.GetPressedKeys | SuperMario/tests/actions/game.py:209-219 | corrected read: every field is 1 iff the key bound to it in `keys` is held (jump is "a", action is "s", enter is `K_RETURN`), else 0 |
| Game.GetPressedKeysAsWritten | SuperMario/tests/actions/game.py:204-219 | as written: every field is 1 iff the code of its key name is held; equal to the corrected read on every field but enter |
| Game.NameCodeAgrees | SuperMario/tests/actions/game.py:15-22 | the code of each field's key name is its binding exactly for the fields other than enter, and the code read for enter is bound to no field |
| Game.Normalize | SuperMario/tests/actions/game.py:227-233 | every field becomes 1 when truthy and 0 otherwise |
| Game.MatchesReadsBack | SuperMario/tests/actions/game.py:204-219 | a key dictionary matches a struct iff reading its pressed keys gives the struct's truth values |
| Game.PressKeys | SuperMario/tests/actions/game.py:222-233 | the posted events are the field-by-field diff of `press` against the given keys, or against the held keys when none are given |
| Game.FieldOfKeyCode | SuperMario/tests/actions/game.py:15-22 | every KEYDOWN or KEYUP of a bound code names its field and that field's position |
| Game.DiffOverRanks | SuperMario/tests/actions/game.py:227-233 | over the first n fields, at most n events, ordered by field position |
| Game.DiffOverMembership | SuperMario/tests/actions/game.py:227-233 | KEYDOWN exactly for fields set in `press` but not current; KEYUP exactly for the reverse |
| Game.PressKeysEvents | SuperMario/tests/actions/game.py:227-233 | at most six events, one per field, in the order right, left, jump, action, down, enter; KEYDOWN and KEYUP exactly on disagreeing fields |
| Game.ApplyEventsAppend | SuperMario/tests/actions/game.py:146-167 | applying two event batches in turn is applying their concatenation |
| Game.EventLoop | SuperMario/tests/actions/game.py:146-167 | non-manual mode: KEYDOWN holds the key, KEYUP releases it only if held; quit is set iff a QUIT event occurs |
| Game.ApplyDiffPrefix | SuperMario/tests/actions/game.py:157-167 | after the diff over the first n fields, those fields are held iff `press` sets them; other fields and unbound codes are untouched |
| Game.PressKeysRoundTrip | SuperMario/tests/actions/game.py:157-167 | the diff events applied to keys matching the current struct yield keys matching `press`, which the corrected read gives back as `press`'s 0/1 form; unbound codes are untouched |
| Game.ApplyEventsKeepsReleased | SuperMario/tests/actions/game.py:146-167 | a key code not held and never pressed by a KEYDOWN in the queue is still not held afterwards |
| Game.EnterNeverReadsBack | SuperMario/tests/actions/game.py:209-233 | as written, with keypad Enter not held: `press_keys` posts KEYDOWN `K_RETURN` iff enter is wanted, never posts KEYUP `K_RETURN`, and after the event loop enter still reads 0 |
| Base.AndThen | SuperMario/tests/models/base.py:366-371 | two assertions in a row pass iff both pass; the first failure decides |
| Base.AssertWithSuccess | SuperMario/tests/models/base.py:366-371 | fails, with the given message, exactly when the condition is false |
| Base.GetElement | SuperMario/tests/models/base.py:28-32 | None iff the name is missing or its list is empty; otherwise the first element of the list |
| Base.PressedKeysAgree | SuperMario/tests/models/base.py:38-46 | the model's pressed-key flags agree with `get_pressed_keys` of the game for right, left, jump, action and down |
| Base.GetPosition | SuperMario/tests/models/base.py:48-55 | the x or y of the "player" box, and None iff there is no player box |
| Base.BoundaryTrichotomy | SuperMario/tests/models/base.py:61-75 | at and past a boundary exclude each other; on each side exactly one of at, past or inside holds |
| Base.VisibleIsInView | SuperMario/tests/models/base.py:77-93 | an element of positive size visible in a viewport is `in_view`: the viewport's `colliderect` with it holds |
| Base.GatherMembership | SuperMario/tests/models/base.py:95-216 | the boxes gathered for a list of object names are exactly those listed under one of the names |
| Base.NothingElseNoContact | SuperMario/tests/models/base.py:95-305 | with no listed box other than the element itself, no touch and no collision query holds |
| Base.VerticalCollisionIsCollision | SuperMario/tests/models/base.py:188-305 | a top or bottom collision is a collision |
| Base.SideCollisionIsOverlap | SuperMario/tests/models/base.py:218-268 | for boxes of positive width, a right or left collision holds iff another listed box `colliderect`s the element at its current or previous y |
| Base.BottomTouchIsEdgeContact | SuperMario/tests/models/base.py:165-186 | for boxes of positive size, a bottom touch means another listed box whose top is at most one pixel above the element's bottom |
| Base.HorizontalPipeIsTopCollision | SuperMario/tests/models/base.py:319-338 | colliding with a horizontal pipe is a top collision with a pipe |
| Base.Direction | SuperMario/tests/models/base.py:340-364 | None iff neither side is pressed; the single pressed side; with both pressed, right in the air and left on the ground |
| Level.LevelBounds | SuperMario/tests/models/level.py:16-33 | at left iff x = 0, past left iff x < 0; at right iff x + w = 9086, past right iff x + w > 9086; at and past exclude each other |
| Level.AgreesWithBase | SuperMario/tests/models/level.py:11-33 | the level model answers as the base queries do for start 0 and end 9086 |
| Mario.StandingOrMoving | SuperMario/tests/models/mario.py:17-33 | standing, moving right and moving left are exclusive and one of them always holds |
| Mario.MovementBounds | SuperMario/tests/models/mario.py:66-95 | `assert_movement` passes iff the directional movement is in (0, max_speed]; `assert_max_speed` passes iff it is at most max_speed |
| Mario.StandingChain | SuperMario/tests/models/mario.py:97-116 | the standing run counted back from a frame never exceeds the frames before it |
| Mario.StandingChainMeaning | SuperMario/tests/models/mario.py:97-116 | the run's frames share one x with the key held, and the frame before it breaks the run |
| Mario.HasStartedMovingAfterStanding | SuperMario/tests/models/mario.py:97-116 | the loop returns whether 1 plus the standing run back from right-before reaches the threshold |
| Mario.InertiaChain | SuperMario/tests/models/mario.py:118-153 | the inertia run never exceeds the frames before it |
| Mario.InertiaChainMeaning | SuperMario/tests/models/mario.py:118-153 | the run's steps have the key released and the previous movement, and the step before it breaks the run |
| Mario.HasMaintainedInertia | SuperMario/tests/models/mario.py:118-153 | the loop returns whether 1 plus the inertia run reaches the threshold |
| Mario.AssertInertiaMovement | SuperMario/tests/models/mario.py:155-213 | passes iff there are fewer than 3 frames, or there is no reversal, no acceleration, and a slowdown once inertia was maintained |
| Mario.InertiaSlowsDown | SuperMario/tests/models/mario.py:155-213 | a passing inertia check means 0 ≤ current ≤ previous movement, strictly less when the threshold is 1 or less |
| Mario.ExpectMove | SuperMario/tests/models/mario.py:215-262 | the decision tree of `expect_move`, with the nested loops and asserts it calls |
| Mario.ExpectMoveConsequences | SuperMario/tests/models/mario.py:215-262 | key held while moving: passes iff the move is 1 to 6 px; key released while not moving: passes iff there is no move that way; standing under the delay: passes |
| Movement.Init | SuperMario/tests/models/mario/movement.py:12-65 | None iff there are fewer than 3 frames or one of the last three has no player, a dead player or no player box; otherwise velocity = before − right_before and actual movement = velocity_now = now − before on both axes |
| Movement.InitMarioAlive | SuperMario/tests/models/mario/movement.py:16-41 | after a successful init, Mario is not dead and the last three frames are usable |
| Movement.WasInTransition | SuperMario/tests/models/mario/movement.py:82-88 | true iff one of the last 55 frames lacks a player or is in a state other than standing, walk, jump, fall or fly |
| Movement.RunningPressedRecently | SuperMario/tests/models/mario/movement.py:123-131 | true iff one of the last 45 frames holds action together with left or right |
| Movement.MovementPropositions | SuperMario/tests/models/mario/movement.py:202-212 | moved right and moved left exclude each other; moved is one of them; stayed in place is movement 0 and excludes moved; a one-pixel step is neither |
| Movement.SpeedLimits | SuperMario/tests/models/mario/movement.py:253-261 | at tolerance 1 the walk limit fails iff \|v\| > 7, the run limit iff \|v\| > 13, the vertical limit iff \|v\| > 12 |
| Movement.CheckRightMovement | SuperMario/tests/models/mario/movement.py:266-277 | fails iff Mario moved right with no rightward velocity and no right key |
| Movement.CheckLeftMovement | SuperMario/tests/models/mario/movement.py:279-290 | fails iff Mario moved left with no leftward velocity and no left key |
| Movement.CheckStayedInPlace | SuperMario/tests/models/mario/movement.py:292-333 | fails, and never raises, iff Mario stayed in place with a side key held and \|velocity\| ≥ 2, and there is no left touch or left boundary under a leftward velocity and no right touch or right boundary under a rightward one |
| Movement.StayedInPlaceAsWritten | SuperMario/tests/models/mario/movement.py:142-162 | as written, the check raises exactly when it reaches a touch call: stayed in place, a side key held, velocity not tiny |
| Movement.StayedInPlaceCrashesAtBoundary | SuperMario/tests/models/mario/movement.py:292-333 | at the right boundary with velocity 3 and right held, the written check raises where the intended one passes |
| Movement.StayedInPlaceVersionsAgree | SuperMario/tests/models/mario/movement.py:292-333 | whenever the written check does not raise, it agrees with the corrected one |
| Movement.CheckFall | SuperMario/tests/models/mario/movement.py:335-346 | fails iff Mario moved down although he was on the ground before |
| Movement.CheckStopFall | SuperMario/tests/models/mario/movement.py:348-363 | fails iff a fall stopped in the air without ground now or an enemy stomped before |
| Movement.CheckJump | SuperMario/tests/models/mario/movement.py:365-381 | fails iff Mario moved up with no grounded jump key, no stomp and no upward velocity |
| Movement.RunBack | SuperMario/tests/models/mario/movement.py:396-421 | the count back from pair n never exceeds n, and reaches n only when every one of those pairs is still |
| Movement.RunBackTrue | SuperMario/tests/models/mario/movement.py:396-421 | the last r pairs before n are all still when the count back from n is r |
| Movement.PairStatus | SuperMario/tests/models/mario/movement.py:400-419 | one pass of the loop body yields the status of that pair: None where the position subtraction raises, false where the loop breaks, true where it counts |
| Movement.CountRun | SuperMario/tests/models/mario/movement.py:396-421 | the counting loop, newest pair first, returns the run of still pairs, or None when it reaches a frame without a player box |
| Movement.CountStill | SuperMario/tests/models/mario/movement.py:388-421 | the still-frame count of the last 47 frames equals the still run of that window |
| Movement.StillRunBelowWindow | SuperMario/tests/models/mario/movement.py:388-421 | a nonzero still run counts fewer pairs than the window has frames |
| Movement.CheckStartsMoving | SuperMario/tests/models/mario/movement.py:386-429 | the liveness check's verdict as a function of direction and still run |
| Movement.StillRunSteps | SuperMario/tests/models/mario/movement.py:396-421 | every counted pair is still: not moved, same direction, path clear; the count is below the number of frames |
| Movement.StartsMovingAsWritten | SuperMario/tests/models/mario/movement.py:386-429 | as written, the check never fails: it passes without a direction or when the newest pair moved or changed direction, and raises otherwise |
| Movement.StartsMovingCrashesWhenNotMoving | SuperMario/tests/models/mario/movement.py:232-242 | as written, every checked frame with a direction held and a step of at most one pixel raises in `path_is_clear` |
| Movement.StartsMovingVersionsAgree | SuperMario/tests/models/mario/movement.py:386-429 | wherever the written check does not raise, it agrees with the corrected one |
| Movement.StartsMovingFailsOnlyOnFullWindow | SuperMario/tests/models/mario/movement.py:386-429 | passes without a direction; a failure needs 47 frames and a still run over all 46 pairs |
| Movement.CheckNotPastLeftBoundary | SuperMario/tests/models/mario/movement.py:435-441 | passes iff Mario's x is not below the level start |
| Movement.CheckNotPastRightBoundary | SuperMario/tests/models/mario/movement.py:443-449 | passes iff Mario's right edge is not beyond the level end |
| Movement.CheckMaxVelocity | SuperMario/tests/models/mario/movement.py:451-464 | passes iff \|velocity_now\| ≤ 13 after recent running, else ≤ 7 |
| Movement.CheckMaxVerticalVelocity | SuperMario/tests/models/mario/movement.py:466-473 | passes iff \|vertical velocity_now\| ≤ 12 |
| Movement.Chain | SuperMario/tests/models/mario/movement.py:495-511 | a run of checks passes iff each passes; otherwise the first non-passing one decides |
| Movement.Expect | SuperMario/tests/models/mario/movement.py:484-511 | the method returns the verdict of init, the transition skip and the eleven checks in order, with the touch queries corrected (Findings) |
| Movement.ExpectPassGuarantees | SuperMario/tests/models/mario/movement.py:484-511 | a passing frame stays within the level bounds and the speed limits, and every move of more than one pixel has a cause |
| Movement.ExpectSkips | SuperMario/tests/models/mario/movement.py:484-493 | no check fails with fewer than 3 frames or during a transition |
| Movement.ChainCrash | SuperMario/tests/models/mario/movement.py:495-511 | if only one check can raise, a raising chain raised there |
| Movement.ExpectCrashesOnlyInStartsMoving | SuperMario/tests/models/mario/movement.py:484-511 | with the touch queries corrected (Findings) and `start_x`/`end_x` present, `expect` raises only in `check_starts_moving`, when a frame of the still window lacks a player box |
| Movement.ChecksRaiseOnlyInStartsMoving | SuperMario/tests/models/mario/movement.py:495-511 | with the touch queries corrected (Findings) and `start_x`/`end_x` present, every check other than `check_starts_moving` ends in pass or fail |
| Moves.Toggle | SuperMario/tests/actions/moves.py:34-36 | a flip sends a truthy field to 0 and a falsy one to 1 |
| Moves.Step | SuperMario/tests/actions/moves.py:30-39 | flipped fields are toggled and the others copied |
| Moves.StartKeys | SuperMario/tests/actions/moves.py:26-27 | with no starting keys, each field is 1 iff the code of its key name is held, else 0 (enter read through keypad Enter, as `get_pressed_keys` does) |
| Moves.Fuzzy | SuperMario/tests/actions/moves.py:17-43 | exactly `length` structs (none for negative lengths); the i-th is the walk after i + 1 ticks from the starting keys, or, with no starting keys, from the held keys read as written (enter through keypad Enter) |
| Moves.FieldsDetermineKeys | SuperMario/tests/actions/moves.py:30-39 | two structs agreeing on all six fields are equal |
| Moves.UnflippedFieldKept | SuperMario/tests/actions/moves.py:30-39 | a field no draw flipped keeps its starting value |
| Moves.NoFlipsNoChange | SuperMario/tests/actions/moves.py:34-36 | with no draw below the flip probability, every output equals the starting keys |
| Moves.BinaryPreserved | SuperMario/tests/actions/moves.py:33-36 | starting from 0/1 fields, every output field is 0 or 1 |
| Moves.FlipTwiceRestores | SuperMario/tests/actions/moves.py:34-36 | on 0/1 fields a flip negates the field, and two identical flips restore the struct |
| Moves.Repeat | SuperMario/tests/actions/moves.py:46-103 | `[k] * length` has `length` copies of k, none for non-positive lengths |
| Moves.ScriptedMoveKeys | SuperMario/tests/actions/moves.py:46-103 | the stay-still moves hold nothing; every other move holds exactly its named keys |
| Moves.ScriptedMoveLengths | SuperMario/tests/actions/moves.py:46-103 | default lengths 30, 5, 30, 30, 30, 30, 60, 60, 60, 60, 60 and 5 |
| Moves.Registry.constructor | SuperMario/tests/actions/moves.py:7 | the registry starts empty |
| Moves.Registry.Register | SuperMario/tests/actions/moves.py:10-13 | `move` appends the function and returns it unchanged |
| Moves.Registry.RegisterAll | SuperMario/tests/actions/moves.py:10-103 | loading the module appends the 13 moves in definition order |
| Moves.RegistryContents | SuperMario/tests/actions/moves.py:10-103 | 13 distinct moves, `fuzzy` first |
| Paths.PostInit | SuperMario/tests/actions/paths.py:21-31 | every empty list gets its one-entry default; non-empty lists are kept |
| Paths.FreshPath | SuperMario/tests/actions/paths.py:16-31 | a fresh path is all-zero keys, score 0, hash 0 and not dead, and keeps every path invariant |
| Paths.Death | SuperMario/tests/actions/paths.py:43-48 | dead iff there is a player and the player is dead |
| Paths.ScoreEncodesProgress | SuperMario/tests/actions/paths.py:50-64 | with x in [0, 100000), score / 100000 is the level (1 when missing, 0 kept) and score % 100000 is x |
| Paths.ScoreOrdersProgress | SuperMario/tests/actions/paths.py:50-64 | a higher level always scores more; on one level the score orders by x |
| Paths.GamePath.constructor | SuperMario/tests/actions/paths.py:13-31 | a new path holds its lists after `__post_init__` |
| Paths.GamePath.Append | SuperMario/tests/actions/paths.py:33-41 | each list grows by one entry (score, hash of the whole new input list, death), earlier entries unchanged; validity, hash consistency and equal lengths are kept |
| Paths.BacktrackPath | SuperMario/tests/actions/paths.py:70-87 | None iff fewer than 2 × frames inputs; otherwise a well-formed path with deaths [False] |
| Paths.BacktrackKeepsPrefix | SuperMario/tests/actions/paths.py:80-87 | for frames > 0, the first n − frames inputs, scores and hashes (at least `frames` of them), with hashes still consistent; frames = 0 gives a fresh path |
| Paths.SplitPath | SuperMario/tests/actions/paths.py:89-115 | a split, when there is one, is well formed with deaths [False] |
| Paths.SplitPathMeaning | SuperMario/tests/actions/paths.py:99-115 | a split needs a non-empty corpus, a backtrack and a peak above the last score; it keeps the scores before the first peak, all below it, or is a fresh path when the peak comes first |
| Paths.SplitPathPrefix | SuperMario/tests/actions/paths.py:99-115 | on an aligned path with frames > 0: a split exists iff the corpus is not empty, backtracking succeeds and the scores peak above their last; a split at k > 0 is the first k inputs, scores and hashes of the path, aligned and hash-consistent |
| Paths.SplitKeepsPrefix | SuperMario/tests/actions/paths.py:107-114 | cutting the backtracked prefix at k cuts all three lists of the path at k |
| Paths.SplitPathShorter | SuperMario/tests/actions/paths.py:102-114 | on an aligned path with frames > 0, the split is shorter than the path, so it is never the path itself |
| Paths.SplitIgnoresCorpusContents | SuperMario/tests/actions/paths.py:99-100 | the split depends on the corpus only through its emptiness |
| Paths.AddedBounds | SuperMario/tests/actions/paths.py:117-131 | at most two new paths, none ending dead; nothing for a present path; the path itself is last when new and alive |
| Paths.AddKeepsDistinct | SuperMario/tests/actions/paths.py:117-131 | adding an aligned path keeps the corpus free of duplicates |
| Paths.AddIdempotent | SuperMario/tests/actions/paths.py:117-131 | adding the same path a second time adds nothing |
| Paths.Insert | SuperMario/tests/actions/paths.py:144-146 | inserting adds exactly one entry |
| Paths.SortByScore | SuperMario/tests/actions/paths.py:144-146 | the sort keeps length and contents |
| Paths.SortByScoreCorrect | SuperMario/tests/actions/paths.py:144-146 | best last score first, a permutation, and paths with equal last scores keep their order (stable) |
| Paths.RemoveFirstCorrect | SuperMario/tests/actions/paths.py:148-152 | `remove` deletes exactly the first equal entry and keeps the rest in order; no change without one |
| Paths.SelectWeights | SuperMario/tests/actions/paths.py:154-172 | over the end scores of the sorted corpus: the first is the largest, the last the smallest, and the uniform-weight case (max == min) holds iff the first equals the last, iff every path ends on the same score |
| Paths.GamePaths.constructor | SuperMario/tests/actions/paths.py:67-68 | a new corpus is empty |
| Paths.GamePaths.Add | SuperMario/tests/actions/paths.py:117-131 | the corpus becomes old corpus + the added paths; nothing stored is removed or moved |
| Paths.GamePaths.Sort | SuperMario/tests/actions/paths.py:144-146 | the corpus becomes its stable sort by last score, best first |
| Paths.GamePaths.Delete | SuperMario/tests/actions/paths.py:148-152 | the first equal path is removed, if any |
| Paths.GamePaths.Select | SuperMario/tests/actions/paths.py:154-187 | the corpus is left sorted; empty corpus gives None (the IndexError); otherwise the drawn entry, a member of the corpus |

## Left out

- Frame capture, overlays, video and sprite detection (`Vision.overlay`, `get_visible`, `detect`, `save_video`, `overlay`): these are drawing and engine introspection.
- The pygame main loop, `start`, `setup`, `wait_ready`, `simulate_keypress`, `play` and the `press_*` helpers: these are live-engine I/O and float timing. Only the dictionary update of the event loop is kept.
- The manual-mode branch of the event loop: it reads the real keyboard.
- `GamePaths.load`/`save` and the module-level `load`/`save` steps: msgspec JSON file I/O.
- The exponential weighting of `select` (`math.exp`, `random.choices`): floating point and randomness. The drawn index is the parameter `draw`.
- Paths.GamePaths.Select: requires `draw` to be in range. The weighted draw always is.
- `fuzzy`'s random numbers and flip probability: the parameter `draws` gives, per tick, the set of fields whose draw fell below it.
- Python's `hash`: an uninterpreted function parameter.
- Aliasing: `GamePaths` stores path values. A `GamePath` object appended to after being added would change the stored entry in Python, and the model does not capture that.
- `autonomous_play.py`, the scenario scripts and `run.py`: orchestration over the live game. It also calls functions that do not exist in the paths module.
- The dispatchers `models/game.py`, `models/mario/model.py` and `models/mario/__init__.py`: models/game.py passes a `level=` argument that neither Mario model accepts.
- `Mario.get_position` abstracts positions as frames. As written, mario.py calls `self.get_mario(state)` (mario.py:14-15, 272), and neither models/mario.py nor models/base.py defines `get_mario`, so every position read in mario.py raises AttributeError. Besides, the package `models/mario/` shadows the module `models/mario.py` on `import models.mario`, so the class there is not reachable by that name. The model takes the player's box as the position `get_mario` was evidently meant to give.
- `expect_jump` and `Mario.expect`: `expect_jump` calls `has_collision` with a direction argument that the base query does not take. `Mario.expect` runs it after the two `expect_move` calls.
- `has_*_collision_adjustment`: they read engine fields that the snapshot does not carry.
- testflows logging (`note`, `debug`) and the text of assertion messages: a failing check is labelled, not formatted.
- `Behavior.init` leaves some attributes set when it fails part-way. The model returns None instead.
- `Player` attributes other than position, state, big, fire and dead.
- pygame's key-name table and `Rect.colliderect`: pygame's source is not part of this model. The model takes the name codes and the collision rule listed under "Fixed constants".
- GetPressedKeys: reads enter through its binding `K_RETURN`, not through `key_code("enter")` as written. The as-written read is GetPressedKeysAsWritten (see Findings).
- PressKeysRoundTrip: stated for the corrected read of enter. With the read as written, enter never reads back (EnterNeverReadsBack).
- PressKeys: with no current keys given, reads them with the corrected GetPressedKeys.
- IsKeyPressed: reads each field through its binding in `keys`, so for enter it reads `K_RETURN`, the corrected read. `is_key_pressed(game, "enter")` as written reads `key_code("enter")`, which is keypad Enter; that read is GetPressedKeysAsWritten (see Findings).
- BehaviorState: every frame is taken to carry the level's `start_x` and `end_x` (integers), so the model does not capture a game state without them. There `BehaviorState` keeps None (game.py:112-126); `is_past_left_boundary`, `is_past_right_boundary` and `is_at_right_boundary` then raise TypeError, as does the message of `check_does_not_move_past_right_boundary` even on a pass, while `is_at_left_boundary` returns False. ExpectCrashesOnlyInStartsMoving and ChecksRaiseOnlyInStartsMoving hold under this assumption.
- SideCollisionIsOverlap: stated for boxes of positive width. `colliderect` normalises a negative width, and the side condition then does not follow from the overlap.
- BottomTouchIsEdgeContact: stated for boxes of positive size, for the same reason.

## Findings

| source | as written | input that shows it | evidently intended | confidence | as-written member | corrected member |
|---|---|---|---|---|---|---|
| SuperMario/tests/actions/vision.py:196 | the width bound `viewport.x + viewport.w - x` uses the already translated x, so it mixes world and screen coordinates | box (250, 0, 100, 10), viewport (100, 0, 200, 100): the result is (150, 0, 100, 10), ending at 250, past the viewport width 200 | bound the width by the visible width `viewport.w - x` | medium, not executed | Vision.AdjustBoxOverrunsViewport | Vision.AdjustBoxClipped |
| SuperMario/tests/models/mario/movement.py:142-162 | `left_touch`/`right_touch` call the three-argument base queries `has_left_touch`/`has_right_touch` (models/base.py:95, 120) with two arguments, which raises TypeError whenever they are reached (the `path_is_clear` site is the next row) | a frame where Mario stayed in place with velocity 3, right held, at the right boundary | pass Mario as his own previous element, so that the stayed-in-place check passes at the boundary | high, not executed | Movement.StayedInPlaceAsWritten | Movement.CheckStayedInPlace |
| SuperMario/tests/models/mario/movement.py:232-242 | `path_is_clear` evaluates `right_touching`/`left_touching` first, and these raise TypeError, so `check_starts_moving` raises on the newest pair whenever Mario has not moved and keeps his direction | any checked frame with right held and Mario standing still, for example against a wall | pass Mario as his own previous element, so that the still frames are counted | high, not executed | Movement.StartsMovingAsWritten | Movement.CheckStartsMoving |
| SuperMario/tests/actions/game.py:218 | `get_pressed_keys` reads enter as `key_code("enter")`, which pygame's name table gives to keypad Enter, while `press_keys` posts `keys["enter"]`, that is `K_RETURN` | no key held, `press_keys` with `PressedKeys(enter=1)`: `K_RETURN` becomes held, enter still reads 0, and no later call ever posts its KEYUP | read enter through its binding `K_RETURN` (the name "return") | medium (depends on pygame's name table), not executed | Game.EnterNeverReadsBack | Game.PressKeysRoundTrip |

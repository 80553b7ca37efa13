# Flappy Bird game state, in Dafny

This project models the game-state core of a small Flappy Bird clone written
with pygame (`main.py`). It covers:
- the bird's fixed-timestep fall, flap and tilt;
- the sprite-animation counter;
- the pipes, each with a randomly placed gap, scrolling left;
- the two-tile ground strip that leap-frogs to look endless;
- the main loop's per-frame work: handling events, moving everything, scoring, spawning and removing pipes, and stopping on a collision or on ground contact.

The modules follow the program's classes:
- `Screen` (`screen.dfy`): window and start-position constants, and the image sizes (`Assets`) the game reads from its image files.
- `Kinematics` (`bird.dfy`): class `Bird`. The motion and animation are also written as pure functions on values (`Motion`, `Anim`), which the lemmas reason about. The methods are proved to follow those functions.
- `Obstacle` (`pipe.dfy`): class `Pipe`.
- `Ground` (`base.dfy`): class `Base`, with the pure scroll step `Scrolled`.
- `PipeList` (`pipelist.dfy`): the list operations the frame loop performs:
  - picking out the pipes that left the window (`Gone`) and those that stay (`Kept`);
  - Python's `list.remove` (`RemoveFirst`);
  - removing a set of entries one by one (`Drop`).
- `Session` (`session.dfy`): class `Game`, holding the main loop's variables `bird`, `base`, `pipes`, `score` and `run`. It includes the event handling, the pipe loop (`ScanPipes`) and one frame of play (`Frame`).

The bird's height, its flap height and the displacement are exact `real`s; x positions, velocities, tilt and counters are `int`s, as in the source. `DisplacementInQuarters` shows that every displacement is a whole number of quarter pixels. So the source's floating-point arithmetic computes the same values as long as the magnitudes stay far below 2^50.

The model follows the code exactly, including where it behaves differently from what one might expect of such a game:
- Tilt:
  - One might expect the tilt to stay within [-90, 25].
  - The code lowers the tilt by 20 while it is above -90, so it reaches -95 (`TiltPassesDiveLimit`).
  - The bound that holds is (-110, 25] (`TiltBand`).
- Displacement bias:
  - One might expect an extra downward bias on falling displacements.
  - The code subtracts 2 from *upward* displacements (`Displacement`).
- Reset:
  - One might expect a reset to restore a single pre-spawned pipe, as a new game has.
  - The code empties the pipe list.
  - A new pipe is only spawned when an existing one is passed. So after a reset the list stays empty and the score stays put (`Game.UpdatePipes`, and over any number of frames `PlayAfterReset`).
- Pipe speed: `Pipe` declares a speed of 5 (`Vel`), but `move` subtracts 4 (`Step`).
- Game over: there is no game-over state that keeps reading input. Once `run` is false the loop ends, and a reset does not set `run` back.

## Model

| member | source | states |
|---|---|---|
| Kinematics.Displacement | main.py:49-55 | the displacement is at most 10; it is exactly 10 when the raw value v·t + 0.75·t² reaches 10; it is negative exactly when the raw value is, and then it is the raw value minus 2; it is never negative without a flap |
| Kinematics.DisplacementStep | main.py:50-55 | with no flap or after a flap, from the third tick on the displacement never decreases from one tick to the next |
| Kinematics.DisplacementInQuarters | main.py:50-55 | 4 × displacement equals an integer-only computation, so every displacement is a whole number of quarter pixels |
| Kinematics.NextTilt | main.py:59-64 | the new tilt is the old one, 25, or the old one minus 20; it rises to 25 exactly when it is below 25 and the bird is rising or within 50 of the flap height; it drops exactly when the tilt is above -90, the bird is not rising and it is at least 50 below the flap height; it stays within (-110, 25] |
| Kinematics.Moved | main.py:48-64 | a tick advances the counter by one, keeps the velocity term and flap height, moves down by at most 10, and never moves up without a flap |
| Kinematics.JumpIdempotent | main.py:43-46 | flapping twice is the same as flapping once (no stacking) |
| Kinematics.NoFlapNeverRises | main.py:48-57 | without a flap the height never decreases over any number of ticks, and the velocity term is kept |
| Kinematics.TerminalVelocity | main.py:50-53 | from the fourth tick without a flap the displacement is the cap, 10 |
| Kinematics.FreeFall | main.py:33-57 | a new bird at 350 that never flaps is at 330.5 + 10n after n ≥ 3 ticks |
| Kinematics.TiltBand | main.py:59-64 | a tilt within (-110, 25] stays within it over any number of ticks |
| Kinematics.TiltPassesDiveLimit | main.py:59-64 | a new bird that never flaps has tilt -95 after 12 ticks, below -90 |
| Kinematics.Animated | main.py:66-83 | the counter stays in [0, 20] and the sprite index in {0, 1, 2}; a tilt of -80 or less freezes the state at counter 10, sprite 1; otherwise the counter advances by one, picking sprite 0, 1, 2, 1 in blocks of five ticks (`WingBeat`), and wraps from 20 to 0 with sprite 0 |
| Kinematics.AnimationCycle | main.py:67-80 | from a fresh counter, at a fixed tilt above -80, after n ticks the counter is n mod 21 and the sprite follows the wing-beat pattern 0,1,2,1 in blocks of five |
| Kinematics.Bird.constructor | main.py:33-41 | a new bird has tilt 0, counter 0, velocity term 0, flap height equal to its start height, and sprite 0 |
| Kinematics.Bird.Jump | main.py:43-46 | sets the velocity term to -5, restarts the tick counter and records the current height; nothing else changes |
| Kinematics.Bird.Move | main.py:48-64 | the new motion state is `Moved` of the old one; the invariant is kept; the animation is untouched |
| Kinematics.Bird.Animate | main.py:66-83 | the new animation state is `Animated` of the old one; the invariant is kept; the motion is untouched |
| Obstacle.Edges | main.py:106-109 | the top image's lower edge sits at the gap height, and the bottom image starts 200 below it |
| Obstacle.Pipe.constructor | main.py:96-109 | a new pipe is not yet passed, has its gap height in [50, 450) and has its two halves placed by `Edges` |
| Obstacle.Pipe.Move | main.py:111-112 | the pipe moves 4 left and nothing else changes |
| Ground.Scrolled | main.py:144-150 | both tiles move 5 left; a tile whose right edge would be left of the window goes right of the other (the first tile is checked first), and otherwise it stays where it moved to; the tiles stay one width apart; with a width of at least 5 both stay on screen |
| Ground.ScrollFromStart | main.py:139-150 | from the initial layout the tiles stay one width apart, and on screen, after any number of steps |
| Ground.Base.constructor | main.py:139-142 | the tiles start at 0 and at one tile width |
| Ground.Base.Move | main.py:144-150 | the new layout is `Scrolled` of the old one, and the invariant is kept |
| PipeList.Select | main.py:228-229 | picks no more entries than the list has, and only entries of the list |
| PipeList.SelectMember | main.py:228-229 | in a list without repeats, a pipe is picked exactly when its right edge is on the picked side of the window's left border |
| PipeList.SelectDistinct | main.py:228-229 | picking from a list without repeats gives a list without repeats |
| PipeList.Drop | main.py:240-241 | the entries left are exactly those not in the removed set |
| PipeList.RemoveFirst | main.py:241 | removes one occurrence: one entry shorter, and the same multiset minus that entry |
| PipeList.DropRemove | main.py:240-241 | removing one more pipe from a list without repeats equals dropping it along with the others |
| PipeList.RemoveStep | main.py:240-241 | the next pipe to remove is still present, and removing it extends the removed set by one |
| PipeList.DropGone | main.py:223-241 | removing every pipe that left the window leaves exactly the pipes that stay, in order |
| Session.EventsOutcome | main.py:200-218 | without a button press, a batch of events leaves the bird flapped once (if space was pressed) or unchanged; with a press, it is a new bird, flapped at most once |
| Session.NewlyPassedSome | main.py:230-232 | a pipe is scored exactly when some pipe not yet passed lies left of the bird |
| Session.Visit | main.py:230-233 | a pipe is marked passed exactly when it was unpassed and left of the bird, and then moves 4 left |
| Session.ScanPipes | main.py:223-233 | the collision flag is set exactly when some pipe collides; the add flag is exactly `NewlyPassed`; the removal list is exactly the pipes that had left the window, in order; every pipe moved 4 left and has its passed flag updated |
| Session.AfterRemoval | main.py:235-241 | appending the spawned pipe and then dropping the gone pipes leaves the kept pipes followed by the spawned one, with no repeats |
| Session.Game.constructor | main.py:188-198 | a new bird at (230, 350), a new ground at 730 in its initial layout, one new pipe at x 700, score 0, running |
| Session.Game.Reset | main.py:207-218 | a fresh bird and ground, no pipes, score 0; the running flag is unchanged |
| Session.Game.HandleEvents | main.py:200-218 | the loop stops exactly when a quit event arrives; the bird follows `AfterEvents`; without a button press nothing else changes; with one, the session is reset: a new bird, the ground back at its start line and layout, no pipes, score 0 |
| Session.Game.RemovePipes | main.py:240-241 | the list afterwards is the old list with the listed pipes dropped |
| Session.Game.UpdatePipes | main.py:223-241 | the score goes up by one exactly when a pipe was newly passed; the list becomes the kept pipes in order, plus one new unpassed pipe at x 700 with the drawn gap height when one was passed; an empty list stays empty with the score unchanged; every old pipe moved 4 left; every pipe listed afterwards was listed before or is new |
| Session.Game.Frame | main.py:220-246 | the bird moved one tick and advanced its animation; the ground scrolled one step at the same height; the loop keeps running exactly when it was running, no pipe collided and the bird is above the ground line; the score rises by at most one; an empty pipe list stays empty with the score unchanged; every pipe listed afterwards was listed before or is new; the invariant is kept |
| Session.Game.EndFrame | main.py:227-246 | the loop keeps running exactly when it was running, no pipe collided and the bird is above the ground line; the animation advances one tick and the motion is untouched |
| Session.PlayAfterReset | main.py:188-246 | a new session that plays a frame, has its reset button pressed and then plays any number of frames ends with no pipes and score 0 |

## Left out

- Drawing is not modelled: `draw_window`, `Pipe.draw` and `Base.draw`, the rotation and blitting in `Bird.draw`, the score text and `pygame.display.update`. Only the sprite choice in `Bird.draw` is modelled, as `Animate`.
- Pixel-mask collision is not modelled: `Bird.get_mask` and `Pipe.collide`, including its `round(bird.y)`. Instead, a parameter `hits` gives each pipe's collision answer for the frame.
- Event polling, mouse positions and `collidepoint` are abstracted. An event arrives as `Quit`, `SpaceKey`, `ButtonClick` or `Other`. The reset and restart buttons run the same code, so both map to `ButtonClick`.
- `random.randrange(50, 450)` is not modelled: the gap height becomes a parameter `h`, required to lie in [50, 450).
- Image loading and scaling, `pygame.init` and the fonts are not modelled. The image sizes the game reads from its images are the parameters in `Assets`.
- `clock.tick`, the outer `while run` loop and what follows it are not modelled. The model covers one event batch (`HandleEvents`) and one frame (`Frame`); the loop repeats them, as `PlayAfterReset` does for a fixed number of frames.
- `Pipe.set_height` is not a separate method. It is only called from `Pipe.__init__`, so the gap geometry is set once in the constructor (through `Edges`) and held in constant fields.
- Session.ScanPipes: it returns the collision flag, and the caller clears `run` after the loop rather than inside it. Nothing in the loop reads `run`, so the end state is the same.
- Session.Game.Frame: its contract states the bird, ground, running-flag and invariant effects, the score bound and the empty-list case. Which pipes are kept and spawned is stated by `Session.Game.UpdatePipes`, which it calls.
- Kinematics.AnimationCycle: it holds the tilt fixed above -80. A tilt that changes between ticks is covered by `Animated` one tick at a time, whose contract fixes the counter and the sprite of each tick.

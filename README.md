# FPS-GAME gameplay core in Dafny

This project models the gameplay state of the `FPSGame` class of a browser first-person shooter (`script.js`). The class holds a score, a magazine of at most 30 rounds, ten box targets, a list of live bullets, a game-over flag and the player's jump state. The model covers:

- firing (`shoot`) and reloading (`reload`);
- the hit test made when a shot is fired (`checkBulletHits`);
- the bullet pass of each animation frame (`animate`): bullets move, hit targets or leave range;
- win detection (`gameOver`);
- jumping and gravity (`startJump` and the gravity step of `animate`).

Files:

- `geometry.dfy` (module `Geometry`): points and bullets over exact reals. A distance test `distance < r` is written as "squared distance < r²", and `distance > r` as "squared distance > r²". No square root is taken.
- `splice.dfy` (module `Splice`): `Remove`, the list that `array.splice(i, 1)` leaves, and the subsequence and multiset facts about it.
- `instant_hits.dfy` (module `InstantHits`): the fire-time hit pass. `Survivors` is a reference definition of its outcome, stated on the original target list. `PassUnderWay` is the loop invariant of the imperative pass.
- `bullet_sweep.dfy` (module `BulletSweep`): the bullet pass of one frame. `SweepBullets` is a reference definition of its outcome. `SweepUnderWay` is the loop invariant of the imperative pass.
- `jump.dfy` (module `Jump`): the vertical state `(isJumping, velocityY, camera height)`, one gravity step `Fall`, and a jump's duration.
- `ammo.dfy` (module `Ammo`): the magazine transition of one shot or reload, and sequences of them.
- `game.dfy` (module `Game`): `class FPSGame`. It holds the mutable fields `score`, `ammo`, `isGameOver`, `targets`, `bullets`, `isJumping`, `velocityY` and `cameraY`, plus a constant `health`. Its methods are modelled on the source's methods. `Valid()` is the session invariant. The constructor establishes it, and `Shoot`, `Reload`, `StartJump` and `Animate` preserve it; these are the entry points the game's input handlers and frame loop call. The helpers `CheckBulletHits`, `UpdateBullets`, `ApplyGravity`, `FindContact` and `GameOver` are stated without it; `GameOver` called while targets remain would break it, and the code only calls it once the target list is empty. The invariant says:
  - ammo is in [0, 30];
  - `score == 10 * (10 - |targets|)`;
  - `isGameOver` holds exactly when no target is left;
  - the camera is never below the ground;
  - when not jumping, the player rests on the ground with zero vertical speed.

## How a `forEach` with `splice` behaves

JavaScript's `forEach` fixes the number of slots when it starts. It then visits slot `k` only while `k` is still smaller than the current length. When the callback splices out the element at `k`, the next element moves into slot `k`, and the pass moves on to slot `k + 1`. That element is never visited.

The imperative methods `CheckBulletHits` and `UpdateBullets` follow this literally: they loop over the original length and check the current length at each slot. The reference functions state the outcome on the original list:

- `Survivors`: a target in range is removed, and the target right behind it is kept without a test.
- `SweepBullets`: a bullet that leaves (it hit or it is out of range) is dropped, and the bullet right behind it stays exactly as it was. It is not moved and not tested in that frame.

The lemmas `SurvivorsSkipNext` and `SweepSkipsNext` state this effect outright.

Three behaviours of the code that are easy to miss:

- In the frame pass, the target removed is the one with the highest index in contact, because the scan runs from the end of the list. It is not the first one in list order.
- A bullet beyond 100 units is not always removed on the next frame. The bullet right behind a removed bullet is skipped.
- The game-over flag does not stop the simulation. `animate` keeps running, and `shoot` and `reload` keep working (for example from the mobile buttons). After a win the target list is empty, so the score no longer changes.

## Model

| member | source | states |
|---|---|---|
| `Splice.Remove` | script.js:284 | `splice(i, 1)`: the list is one shorter, elements before i are unchanged, later ones shift down by one |
| `Splice.RemoveIsSubsequence` | script.js:394 | removing one element keeps the others in their relative order |
| `Splice.MultisetRemove` | script.js:405 | removing slot i takes exactly one copy of that element out of the list |
| `InstantHits.PassVisits` | script.js:277-285 | one visit of the fire-time pass: a target within distance 2 is spliced out, any other is kept, and the index moves on either way; this preserves the pass invariant that ties the loop to `Survivors` |
| `InstantHits.PassEnds` | script.js:277 | once the slot count fixed at the start is used up, the list is exactly `Survivors` of the original |
| `InstantHits.SurvivorsKeepOrder` | script.js:277-285 | the targets that survive the fire-time pass keep their relative order |
| `InstantHits.SurvivorsKeepMisses` | script.js:279-284 | only targets within distance 2 are removed: every target out of range survives with all its copies, and no target is gained |
| `InstantHits.SurvivorsFirstHitRemoved` | script.js:277-284 | if any target is within distance 2, at least one is removed |
| `InstantHits.SurvivorsRemovalBound` | script.js:277-284 | the pass removes at most every other target: at most half, rounded up |
| `InstantHits.SurvivorsWhenNoneHit` | script.js:281 | with no target within distance 2, the targets are unchanged |
| `InstantHits.SurvivorsSkipNext` | script.js:277-284 | the target that shifts into a removed slot is kept untested, even when it is in range |
| `BulletSweep.LastContact` | script.js:389-391 | the inner scan's answer: the highest index of a target within distance 1 of the bullet, or -1 when there is none |
| `BulletSweep.SweepVisits` | script.js:385-414 | one visit of the frame pass: the bullet moves; a bullet that hits loses its target and is itself spliced out; one that misses and is beyond 100 units is spliced out; this preserves the invariant that ties the loop to `SweepBullets` |
| `BulletSweep.SweepEnds` | script.js:385 | after the slot count fixed at the start, bullets and targets are exactly `SweepBullets` of the originals |
| `BulletSweep.SweepKeepsTargetOrder` | script.js:389-394 | targets that survive a frame keep their relative order |
| `BulletSweep.SweepOneTargetPerBullet` | script.js:389-406 | each bullet removes at most one target per frame, and a bullet that removes one is removed too: targets lost never outnumber bullets lost |
| `BulletSweep.SweepKeepsUntouched` | script.js:391-394 | a target that no bullet of the list, once moved by `delta`, comes within distance 1 of survives the frame with all its copies |
| `BulletSweep.SweepAllFlying` | script.js:385-386 | when no bullet hits or goes out of range, every bullet moves exactly once, in place, and the targets are unchanged |
| `BulletSweep.SweepSkipsNext` | script.js:385-414 | when the first bullet leaves, the one behind it becomes first exactly as it was: not moved and not tested |
| `Jump.Launch` | script.js:320-325 | starting a jump while airborne changes nothing; from the ground it sets the jump flag and the launch speed 0.3, and keeps the state settled |
| `Jump.Fall` | script.js:372-380 | a step that would end below the ground lands: the player is put on the ground with speed 0 and the jump flag cleared; a step that stays in the air lowers the speed by 0.01 and moves the height by the new speed; the camera is never below the ground when it started on or above it; a settled player on the ground does not move |
| `Jump.JumpLastsSixtyFrames` | script.js:372-380 | with launch speed 0.3 and gravity 0.01, a jump from the ground stays airborne for frames 1 to 59 and lands, at rest, on frame 60 |
| `Ammo.AmmoAfter` | script.js:239-301 | one shot or reload keeps a legal magazine within [0, 30] |
| `Ammo.AmmoStaysInRange` | script.js:239-301 | from any magazine in [0, 30], any sequence of shots and reloads keeps it in [0, 30] |
| `Ammo.FiringDrains` | script.js:240-254 | n shots spend n rounds while any are left; once the magazine is empty it stays at 0 |
| `Ammo.RefillIdempotent` | script.js:295-301 | reloading twice is the same as reloading once |
| `Game.SpawnAt` | script.js:229-233 | a target placed from random draws in [0, 1) lies in [-40, 40) on both horizontal axes, at height 2 |
| `Game.FPSGame.constructor` | script.js:10-22 | the session starts with score 0, health 100, a full magazine, no bullets, not over, the player on the ground at rest, and ten targets placed from the draws; `Valid()` holds |
| `Game.FPSGame.CreateTargets` | script.js:223-236 | appends exactly ten targets, in draw order, behind the existing ones |
| `Game.FPSGame.Shoot` | script.js:239-271 | with ammo <= 0 nothing changes. Otherwise ammo drops by exactly 1, exactly one bullet is appended at the camera with velocity aim × 50, the targets become `Survivors` from the muzzle, score grows by 10 per removed target, and the game is over exactly when no target is left; `Valid()` is preserved |
| `Game.FPSGame.CheckBulletHits` | script.js:273-293 | the targets become `Survivors` of the old list; score grows by exactly 10 per removed target; the game-over flag is set exactly when a removal empties the list |
| `Game.FPSGame.Reload` | script.js:295-301 | with ammo < 30 the magazine becomes exactly 30; otherwise nothing changes; nothing but ammo changes; `Valid()` is preserved |
| `Game.FPSGame.GameOver` | script.js:309-310 | sets the game-over flag, and it stays set if called again; no other field changes |
| `Game.FPSGame.StartJump` | script.js:320-325 | a no-op while jumping; otherwise sets the jump flag and the speed 0.3; `Valid()` is preserved |
| `Game.FPSGame.ApplyGravity` | script.js:372-381 | the vertical state becomes `Fall` of the old one: never below the ground when it started on or above it, landing with speed 0 and the jump flag cleared |
| `Game.FPSGame.FindContact` | script.js:389-391 | the downward scan returns the highest index of a target within distance 1, or -1 if none |
| `Game.FPSGame.UpdateBullets` | script.js:385-415 | bullets and targets become `SweepBullets` of the old lists; score grows by exactly 10 per removed target |
| `Game.FPSGame.Animate` | script.js:327-423 | one frame: the gravity step runs only when enabled; the bullet pass uses the camera after that step; score stays 10 × targets removed; the game is over exactly when no target is left; ammo is untouched; `Valid()` is preserved |

## Left out

- Rendering, audio and the DOM (scene, lights, walls, floor, renderer, sound loading and playback, `updateUI`, the game-over screen, `location.reload`). These are calls into the browser and the rendering library with no gameplay logic. Playing a sound is modelled as nothing happening.
- Keyboard, pointer-lock and joystick input (`setupControls`, `setupEventListeners`, `setupMobileControls`). Of the gameplay methods, these call only `shoot`, `reload` and `startJump`, which are modelled. They also set the movement flags and lock or unlock the pointer (script.js:133, 148-151, 183, 190); the lock state enters the model only as `Animate`'s `gravityActive` parameter. The Space-key guard repeats `startJump`'s own check.
- Horizontal movement and camera rotation (script.js:333-369): float trigonometry, a normalisation, and calls into the pointer-lock library. The camera's horizontal position and the aim direction are parameters of `Shoot` and `Animate`. Whether the gravity step runs in a frame (desktop view with the pointer locked) is the parameter `gravityActive`.
- Timing: `requestAnimationFrame` and the frame time from `performance.now`. The frame time `delta` is a parameter of `Animate`. The animation frame the constructor starts is the caller's first `Animate`.
- `Math.random`: target placement takes the random draws as parameters.
- `gameOver`'s `isWin` argument only selects the heading text of the game-over screen, so `GameOver` takes no argument. On the mobile view `this.controls` is undefined, so `gameOver` throws right after setting the flag. In `checkBulletHits` this skips only DOM updates. In `animate`, once no target is left, every frame throws at script.js:418, so `this.prevTime = time` (script.js:421) and the render call are skipped too. Each later frame's time step is then measured from a stale time, and bullets move farther per frame. The exception itself is not modelled; `Animate` takes the frame time `delta` as a free parameter, so those larger steps are covered by its contract.
- `checkBulletHits` computes a normalised bullet direction that it never uses. It is not modelled.
- `health` is set to 100 and only displayed. It is a constant field of the class. The code has no enemy fire and no damage, so none is modelled.
- Floating point: positions, speeds and distances are exact reals. The distance tests compare squared distances, so the rounding of the square root in double precision is not modelled.
- `Jump.JumpLastsSixtyFrames`: holds over exact reals. In double precision, rounding of the repeated subtraction of 0.01 can move the landing by a frame.
- Object identity: bullets and targets are values, not shared objects. In the source, each list element is a mesh object referenced only from its list and the scene, so no aliasing is lost.

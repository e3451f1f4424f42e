# gcore game-engine core in Dafny

This project models the integer and boolean core of the `gcore` Java game
engine (package `com.saifkhichi.apis.gcore`) and proves properties of that
model. It covers four components:

- **Animation** (`Animation.dfy`, module `Animations`): a frame-based
  animation timeline.
  - `addFrame` appends frames whose end times are cumulative.
  - `update(elapsed)` accumulates time. At the end of the timeline it wraps
    the time with `%` (repeating) or clamps it (not repeating), and it records
    the loop.
  - `update` then scans the current frame forward while the time is past the
    frame's end, and pauses by itself on a pause target.
  - The value `Timeline` and the function `Step` specify `update`. The class
    `Animation` keeps the same state in fields. Its `Update` method runs the
    source's `while` loop and is proved equal to `Step`.
- **Scene registry** (`SceneCollection.dfy`, module `Render`): a map from a
  scene's class to the scene, plus a nullable current class.
  - `addScene` rejects `null` and a class that is already registered.
  - `setCurrentScene` and `getScene` reject a class that is not registered.
  - `listScenes` returns every registered class exactly once.
  - `Register`/`RegisterAll` model `addScene`, and a run of `addScene` calls,
    on the map alone. The class `SceneCollection` holds the map in a field
    and updates it in place.
- **Game lifecycle** (`BaseGame.dfy`, module `Game`): two flags, `isOver` and
  `isPaused`, with guarded `pause`/`resume`/`end`.
  - `start()` checks its configuration and registers the scenes. It then
    calls `onStart()`, resets the flags, starts the initial scene and starts
    the loop thread.
  - `update`/`onDraw` are handed to the current scene.
  - `getUpdateInterval` is `1000 / fps`.
  - Every callback the game makes is appended to an event trace. The value
    `GameState` and the `...Spec` functions specify the operations. The class
    `BaseGame` holds the state in fields and is proved against them.
- **Size** (`Size.dfy`, module `Physics`): width, height and radius.
  `set(w, h)` derives the radius as half the larger side, using Java's
  truncating division.

Two supporting modules:

- `JavaInt.dfy` gives Java's truncating `/` and `%`. Dafny's own operators are
  Euclidean and would differ on negative operands.
- `Wrappers.dfy` gives `Option`, `Result` and `Outcome`:
  - `None` stands for Java `null`.
  - `Fail(e)` stands for the exception a `void` method throws.

Where a Java method throws partway through, the model returns `Fail` together
with the state at the point of the throw. For example, `start()` keeps the
scenes it registered before the failing one.

**`start()` reopens an ended game.** `end()` only guards against a second
call while the game is over (BaseGame.java:179). `start()` sets `isOver` back
to `false` (BaseGame.java:136). So an ended game that is started again can
end, and fire `onOver()`, a second time. The model follows the code:

- `Game.AtMostOneOver` and `Game.OverIsFinalWithoutStart` prove the
  at-most-once property for every call sequence that contains no `start()`.
- `Game.StartReopensEndedGame` shows the second `onOver()` after a restart.

## Model

| member | source | states |
|---|---|---|
| `JavaInt.Div` | src/main/java/com/saifkhichi/apis/gcore/BaseGame.java:77 | Java's `/`: the quotient of the magnitudes. It is non-negative when the signs agree and non-positive when they differ. |
| `JavaInt.Rem` | src/main/java/com/saifkhichi/apis/gcore/Animation.java:212 | Java's `%`: `a == (a / b) * b + r`, `r` is smaller than `b` in magnitude, and `r` is zero or has the sign of `a`. |
| `Physics.Half` | src/main/java/com/saifkhichi/apis/gcore/physics/Size.java:39 | `x / 2` rounds toward zero. For `x >= 0` the result is the largest `h` with `2h <= x`. For negative `x` it is the smallest `h` with `2h >= x`. |
| `Physics.HalfMonotone` | src/main/java/com/saifkhichi/apis/gcore/physics/Size.java:39 | Halving preserves the order of two sides. |
| `Physics.DerivedRadius` | src/main/java/com/saifkhichi/apis/gcore/physics/Size.java:36-40 | The radius `set(w, h)` derives: the larger of the two halves. It is within one unit of half the larger side, rounded toward zero. |
| `Physics.Size.constructor` | src/main/java/com/saifkhichi/apis/gcore/physics/Size.java:12-16 | The default size is all zero. |
| `Physics.Size.Uniform` | src/main/java/com/saifkhichi/apis/gcore/physics/Size.java:18-20 | `Size(r)` has width, height and radius all equal to `r`. |
| `Physics.Size.Sides` | src/main/java/com/saifkhichi/apis/gcore/physics/Size.java:22-24 | `Size(w, h)` stores the sides and derives the radius. |
| `Physics.Size.All` | src/main/java/com/saifkhichi/apis/gcore/physics/Size.java:26-28 | `Size(w, h, r)` stores all three values as given. |
| `Physics.Size.SetUniform` | src/main/java/com/saifkhichi/apis/gcore/physics/Size.java:30-34 | `set(r)` sets width, height and radius to `r`. |
| `Physics.Size.SetSides` | src/main/java/com/saifkhichi/apis/gcore/physics/Size.java:36-40 | `set(w, h)` stores the sides, and the radius becomes `DerivedRadius(w, h)`. |
| `Physics.Size.SetAll` | src/main/java/com/saifkhichi/apis/gcore/physics/Size.java:42-46 | `set(w, h, r)` stores all three verbatim and derives nothing. |
| `Physics.Size.SetWidth` | src/main/java/com/saifkhichi/apis/gcore/physics/Size.java:52-54 | Only the width changes; the radius is not recomputed. |
| `Physics.Size.SetHeight` | src/main/java/com/saifkhichi/apis/gcore/physics/Size.java:60-62 | Only the height changes; the radius is not recomputed. |
| `Physics.Size.SetRadius` | src/main/java/com/saifkhichi/apis/gcore/physics/Size.java:68-70 | Only the radius changes. |
| `Animations.CumulativeAt` | src/main/java/com/saifkhichi/apis/gcore/Animation.java:76-79 | Frame `i`, as built by `addFrame`, ends at the sum of the first `i + 1` durations. |
| `Animations.CumulativeSorted` | src/main/java/com/saifkhichi/apis/gcore/Animation.java:76-79 | With no negative frame duration, the end times never decrease and none is below 0. |
| `Animations.CumulativeAppend` | src/main/java/com/saifkhichi/apis/gcore/Animation.java:76-79 | Appending a frame that ends at the new total keeps the frame list cumulative. |
| `Animations.ImageAt` | src/main/java/com/saifkhichi/apis/gcore/Animation.java:108-112 | Gives the image of frame `i` for an index in range, and the sentinel -1 otherwise. |
| `Animations.Scan` | src/main/java/com/saifkhichi/apis/gcore/Animation.java:219-221 | The frame scan stops at an index between its start and the number of frames, one past the last frame when every frame is over. |
| `Animations.ScanFindsFirst` | src/main/java/com/saifkhichi/apis/gcore/Animation.java:219-221 | The frame scan stops at the first frame, from its start on, that is not over. Every frame it passes is over. |
| `Animations.Settle` | src/main/java/com/saifkhichi/apis/gcore/Animation.java:209-218 | Wrapping or clamping the time never changes the frames, the duration, the repeat flag, the play flag or the pause target. It keeps the cursor in range. |
| `Animations.Seek` | src/main/java/com/saifkhichi/apis/gcore/Animation.java:219-228 | The scan and the auto-pause change neither the time nor the frames. They leave the cursor between 0 and the frame count. |
| `Animations.Step` | src/main/java/com/saifkhichi/apis/gcore/Animation.java:205-231 | `update` never changes the frames, the total duration or the repeat flag. |
| `Animations.StepIdle` | src/main/java/com/saifkhichi/apis/gcore/Animation.java:206-208 | `update` on a paused timeline, or on one with fewer than two frames, changes nothing. |
| `Animations.StepDivisionByZero` | src/main/java/com/saifkhichi/apis/gcore/Animation.java:209-212 | `update` throws `ArithmeticException` exactly when it advances a repeating timeline of total duration 0 to a time at or past 0. |
| `Animations.StepInBounds` | src/main/java/com/saifkhichi/apis/gcore/Animation.java:219-221 | With a non-negative duration and the cursor on a frame, the scan never runs past the last frame, and the cursor stays on a frame. |
| `Animations.StepWraps` | src/main/java/com/saifkhichi/apis/gcore/Animation.java:210-217 | While playing with at least two frames, reaching the end of a repeating timeline whose total duration is positive makes the time `(elapsed + delta) % duration`, in `[0, duration)`. It sets `hasLooped` and rescans from frame 0. |
| `Animations.StepClamps` | src/main/java/com/saifkhichi/apis/gcore/Animation.java:210-221 | Reaching the end of a non-repeating timeline clamps the time to the duration and sets `hasLooped`. The cursor only moves forward. |
| `Animations.ClampLandsOnLastFrame` | src/main/java/com/saifkhichi/apis/gcore/Animation.java:214-221 | With sorted frames and a last frame of positive length, clamping leaves the cursor on the last frame. |
| `Animations.StepForward` | src/main/java/com/saifkhichi/apis/gcore/Animation.java:209-221 | Before the end is reached, the time grows by exactly `delta`, the cursor only moves forward and the loop flag is left as it was. |
| `Animations.StepLoopFlag` | src/main/java/com/saifkhichi/apis/gcore/Animation.java:209-218 | `update` sets the loop flag exactly when it advances the timeline to its end without throwing the division-by-zero exception, and never clears it. |
| `Animations.SeekSynced` | src/main/java/com/saifkhichi/apis/gcore/Animation.java:219-221 | From a start before which every frame is over, the scan lands on the first frame that is not over. |
| `Animations.SettleReadyToSeek` | src/main/java/com/saifkhichi/apis/gcore/Animation.java:209-218 | From a synced timeline, wrapping or clamping leaves the scan a valid start. Every frame before the cursor is over, and the time is within the animation. |
| `Animations.StepKeepsSynced` | src/main/java/com/saifkhichi/apis/gcore/Animation.java:205-231 | On sorted frames, an `update` with a non-negative delta that returns normally keeps the cursor frame the first frame not yet over. |
| `Animations.RestartSynced` | src/main/java/com/saifkhichi/apis/gcore/Animation.java:162-167 | After `restart()` of a timeline with at least one frame, whose first frame ends at or after time 0, the cursor frame matches the time. |
| `Animations.NegativeDeltaDesyncs` | src/main/java/com/saifkhichi/apis/gcore/Animation.java:207-221 | An example: two frames ending at 100 and 250, time 110 on frame 1, and a delta of -50. The time goes back to 60 but the cursor stays on frame 1, so it no longer matches the time. |
| `Animations.NegativeDeltaStaysBehind` | src/main/java/com/saifkhichi/apis/gcore/Animation.java:207-221 | For every synced timeline on sorted frames, a negative delta that takes the time back to or before the end of the previous frame leaves the cursor where it was, and the timeline is no longer synced. |
| `Animations.AutoPauseFires` | src/main/java/com/saifkhichi/apis/gcore/Animation.java:225-228 | Landing on the pause target stops playback and clears the target. Every later `update` is then a no-op. |
| `Animations.PauseOnlyOnTarget` | src/main/java/com/saifkhichi/apis/gcore/Animation.java:225-228 | `update` stops playback and clears the target exactly when it returns normally on the pause target. Otherwise it keeps the play flag and any pending target. |
| `Animations.NoTargetNoPause` | src/main/java/com/saifkhichi/apis/gcore/Animation.java:225-228 | Without a pause target, `update` never changes the play flag, so the auto-pause fires at most once per target. |
| `Animations.FullTurnLoops` | src/main/java/com/saifkhichi/apis/gcore/Animation.java:209-221 | From time 0, while playing with at least two frames, one full duration on a repeating timeline of positive total duration whose first frame ends at or after 0 sets `hasLooped` and returns to time 0 and frame 0. |
| `Animations.TwoFrameScenario` | src/main/java/com/saifkhichi/apis/gcore/Animation.java:205-231 | A two-frame timeline ending at 100 and 250, ticked by 50, 60 and 150, shows frames 1, 2, then wraps to time 10 on frame 0. |
| `Animations.Animation.constructor` | src/main/java/com/saifkhichi/apis/gcore/Animation.java:9-63 | A new animation has no frames, is playing and repeating, has not looped, and has no pause target. |
| `Animations.Animation.AddFrame` | src/main/java/com/saifkhichi/apis/gcore/Animation.java:76-79 | Appends exactly one frame, ending at the new total, which is the old total plus `d`. Nothing else changes. |
| `Animations.Animation.SetCurrentFrame` | src/main/java/com/saifkhichi/apis/gcore/Animation.java:97-100 | Moves the cursor only to an index that names a frame; otherwise nothing changes. |
| `Animations.Animation.GetFrameImage` | src/main/java/com/saifkhichi/apis/gcore/Animation.java:108-112 | The image at an index, or -1 out of range (see `ImageAt`). |
| `Animations.Animation.GetCurrentFrameImage` | src/main/java/com/saifkhichi/apis/gcore/Animation.java:119-121 | `getFrameImage(currentFrame)`. |
| `Animations.Animation.HasLooped` | src/main/java/com/saifkhichi/apis/gcore/Animation.java:146-148 | Reports the loop flag of the timeline, which `Animations.StepLoopFlag` characterises. |
| `Animations.Animation.SetRepeating` | src/main/java/com/saifkhichi/apis/gcore/Animation.java:137-139 | Only the repeat flag changes. |
| `Animations.Animation.Start` | src/main/java/com/saifkhichi/apis/gcore/Animation.java:155-157 | Only the play flag changes, to playing. |
| `Animations.Animation.Restart` | src/main/java/com/saifkhichi/apis/gcore/Animation.java:162-167 | Sets time 0, frame 0, looped false and playing. Nothing else changes. |
| `Animations.Animation.Pause` | src/main/java/com/saifkhichi/apis/gcore/Animation.java:172-174 | Only the play flag changes, to paused. |
| `Animations.Animation.PauseAt` | src/main/java/com/saifkhichi/apis/gcore/Animation.java:181-187 | Sets the pause target to the frame, or to 0 when the index names no frame. |
| `Animations.Animation.Update` | src/main/java/com/saifkhichi/apis/gcore/Animation.java:205-231 | The fields after `update` are exactly `Step` of the fields before, including the exception and the state it leaves. The frame invariant is kept. |
| `Animations.Animation.AdvanceClock` | src/main/java/com/saifkhichi/apis/gcore/Animation.java:209-218 | Advancing and wrapping or clamping the time is `Settle`, unless it divides by zero. |
| `Animations.Animation.ScanForward` | src/main/java/com/saifkhichi/apis/gcore/Animation.java:219-228 | The `while` scan and the auto-pause are `Seek`, out-of-bounds case included. |
| `Render.Register` | src/main/java/com/saifkhichi/apis/gcore/render/SceneCollection.java:36-46 | `addScene` fails on `null` and on a registered class. Otherwise it adds exactly one entry, and the old entries are unchanged. |
| `Render.RegisterKeyedByClass` | src/main/java/com/saifkhichi/apis/gcore/render/SceneCollection.java:41-45 | Every scene stays filed under its own class. |
| `Render.RegisterAll` | src/main/java/com/saifkhichi/apis/gcore/BaseGame.java:128-130 | A run of `addScene` calls never loses or changes an entry that was already there. |
| `Render.RegisterAllPasses` | src/main/java/com/saifkhichi/apis/gcore/BaseGame.java:128-130 | The run returns normally exactly when no scene is null, no class repeats and no class is already registered. |
| `Render.RegisterAllKeys` | src/main/java/com/saifkhichi/apis/gcore/BaseGame.java:128-130 | After a normal run, the registered classes are the old ones plus those of the list. |
| `Render.RegisterAllEntries` | src/main/java/com/saifkhichi/apis/gcore/BaseGame.java:128-130 | After a normal run, every listed scene is registered under its class. |
| `Render.RegisterAllTwiceFails` | src/main/java/com/saifkhichi/apis/gcore/render/SceneCollection.java:41-43 | Registering the same list again fails on its first scene and adds nothing. |
| `Render.SceneCollection.constructor` | src/main/java/com/saifkhichi/apis/gcore/render/SceneCollection.java:19-27 | A new collection is empty and has no current scene. |
| `Render.SceneCollection.AddScene` | src/main/java/com/saifkhichi/apis/gcore/render/SceneCollection.java:36-46 | The map becomes `Register`'s result, or stays unchanged on an exception. The current scene is unchanged and the invariant is kept. |
| `Render.SceneCollection.GetCurrentScene` | src/main/java/com/saifkhichi/apis/gcore/render/SceneCollection.java:53-55 | `null` until a scene is current, then the scene mapped to the current class. |
| `Render.SceneCollection.SetCurrentScene` | src/main/java/com/saifkhichi/apis/gcore/render/SceneCollection.java:64-70 | Succeeds exactly for a registered class and makes it current. Otherwise it fails and leaves the current scene unchanged. |
| `Render.SceneCollection.GetScene` | src/main/java/com/saifkhichi/apis/gcore/render/SceneCollection.java:79-85 | The scene registered under the class, which has that class. Fails for an unknown class. |
| `Render.SceneCollection.ListScenes` | src/main/java/com/saifkhichi/apis/gcore/render/SceneCollection.java:92-94 | Every registered class exactly once, and nothing else. |
| `Game.Initial` | src/main/java/com/saifkhichi/apis/gcore/BaseGame.java:23-53 | A new game has no scenes, no current scene, no callbacks, and is neither over nor paused. |
| `Game.UpdateInterval` | src/main/java/com/saifkhichi/apis/gcore/BaseGame.java:76-78 | `1000 / fps` in Java's arithmetic; `fps == 0` throws. |
| `Game.PauseSpec` | src/main/java/com/saifkhichi/apis/gcore/BaseGame.java:152-157 | `pause()` changes only the paused flag and the trace. The game is paused afterwards unless it is over, and at most one callback is appended. |
| `Game.ResumeSpec` | src/main/java/com/saifkhichi/apis/gcore/BaseGame.java:165-170 | `resume()` changes only the paused flag and the trace. The game stays paused only if it is over, and at most one callback is appended; `Game.ResumeOnlyWhenPaused` names it as `onResume`. |
| `Game.EndSpec` | src/main/java/com/saifkhichi/apis/gcore/BaseGame.java:178-185 | `end()` changes only the two flags and the trace. The game is over afterwards, and paused only if it was already over and paused. At most one callback is appended. |
| `Game.StartSceneSpec` | src/main/java/com/saifkhichi/apis/gcore/BaseGame.java:92-104 | `startScene` changes only the current class and the trace. On failure nothing changes. At most one callback is appended; `Game.StartSceneMakesCurrent` names it as the scene's `onStart`. |
| `Game.UpdateSpec` | src/main/java/com/saifkhichi/apis/gcore/BaseGame.java:84-86 | `update` changes only the trace, by at most one callback. On failure nothing changes. |
| `Game.DrawSpec` | src/main/java/com/saifkhichi/apis/gcore/BaseGame.java:88-90 | `onDraw` changes only the trace, by at most one callback. On failure nothing changes. |
| `Game.StartSpec` | src/main/java/com/saifkhichi/apis/gcore/BaseGame.java:115-144 | `start()` only appends to the trace, never unregisters a scene, and never clears the loop-started flag. |
| `Game.UpdateIntervalBounds` | src/main/java/com/saifkhichi/apis/gcore/BaseGame.java:76-78 | For `fps > 0`, the interval is the largest `q` with `q * fps <= 1000`. |
| `Game.UpdateIntervalNegative` | src/main/java/com/saifkhichi/apis/gcore/BaseGame.java:76-78 | For `fps < 0`, the interval is rounded toward zero. |
| `Game.CurrentScene` | src/main/java/com/saifkhichi/apis/gcore/BaseGame.java:64-66 | The scene of the current class, if one is set. |
| `Game.PauseOnce` | src/main/java/com/saifkhichi/apis/gcore/BaseGame.java:152-157 | `pause` acts exactly when the game is neither over nor paused, and then appends exactly `onPaused` to the trace. A second `pause` does nothing, so `onPaused` fires once. |
| `Game.ResumeOnlyWhenPaused` | src/main/java/com/saifkhichi/apis/gcore/BaseGame.java:165-170 | `resume` acts exactly when the game is paused and not over, and then appends exactly `onResume` to the trace. Afterwards the game is running. |
| `Game.PauseThenResume` | src/main/java/com/saifkhichi/apis/gcore/BaseGame.java:152-170 | A `pause` followed by a `resume` restores the flags and records `onPaused` and then `onResume`. |
| `Game.EndOnce` | src/main/java/com/saifkhichi/apis/gcore/BaseGame.java:178-185 | `end` is idempotent: the game is over and `onOver` has fired once more, or not at all if the game was already over. A consistent game reports running afterwards. |
| `Game.OverIgnoresPauseAndResume` | src/main/java/com/saifkhichi/apis/gcore/BaseGame.java:152-170 | Once over, `pause` and `resume` do nothing. |
| `Game.OperationsKeepConsistent` | src/main/java/com/saifkhichi/apis/gcore/BaseGame.java:115-185 | No operation makes a game paused while over. |
| `Game.ApplyWithoutStart` | src/main/java/com/saifkhichi/apis/gcore/BaseGame.java:84-185 | Across any call other than `start()`, the recorded callbacks only grow (the old trace is a prefix of the new one). Only `end()` makes the game over or fires `onOver`. |
| `Game.AtMostOneOver` | src/main/java/com/saifkhichi/apis/gcore/BaseGame.java:178-185 | Without `start()`, `onOver` fires at most once over any call sequence, and never once the game is over. |
| `Game.OverIsFinalWithoutStart` | src/main/java/com/saifkhichi/apis/gcore/BaseGame.java:178-185 | Without `start()`, an ended game stays over and its recorded callbacks only grow, with no further `onOver`. |
| `Game.RunKeepsConsistent` | src/main/java/com/saifkhichi/apis/gcore/BaseGame.java:136-185 | No call sequence makes a game paused while over. |
| `Game.StartChecksFirst` | src/main/java/com/saifkhichi/apis/gcore/BaseGame.java:116-125 | With no scenes or no initial scene, `start` throws before registering anything or calling back. |
| `Game.StartPasses` | src/main/java/com/saifkhichi/apis/gcore/BaseGame.java:115-144 | `start` returns normally exactly when the scenes are non-empty, non-null and of new, distinct classes, the initial class is registered, and the loop has never started. |
| `Game.StartRegisters` | src/main/java/com/saifkhichi/apis/gcore/BaseGame.java:128-130 | A successful `start` registers every scene beside the earlier ones. |
| `Game.StartEffect` | src/main/java/com/saifkhichi/apis/gcore/BaseGame.java:133-143 | A successful `start` makes the initial scene current, clears both flags, and calls `onStart`, the scene's `onStart` and the loop, in that order. |
| `Game.StartRegistrationFails` | src/main/java/com/saifkhichi/apis/gcore/BaseGame.java:128-133 | A failing registration aborts `start` before `onStart`. It keeps the scenes added before the failure and changes nothing else. |
| `Game.StartUnknownInitialScene` | src/main/java/com/saifkhichi/apis/gcore/BaseGame.java:133-140 | An unregistered initial class makes `start` throw after `onStart` and the flag reset, and before the loop starts. |
| `Game.StartTwiceFails` | src/main/java/com/saifkhichi/apis/gcore/BaseGame.java:128-133 | A second `start` with the same scenes throws on the first duplicate, before any callback, and changes nothing. |
| `Game.StartReopensEndedGame` | src/main/java/com/saifkhichi/apis/gcore/BaseGame.java:136-137 | `start` clears `isOver`, so an ended game started again with a new scene can fire `onOver` a second time. |
| `Game.StartSceneMakesCurrent` | src/main/java/com/saifkhichi/apis/gcore/BaseGame.java:92-104 | `startScene` succeeds exactly for a registered class. It then makes that scene current and appends exactly that scene's `onStart` to the trace. An unknown class changes nothing. |
| `Game.UpdateAndDrawDelegate` | src/main/java/com/saifkhichi/apis/gcore/BaseGame.java:84-90 | `update`/`onDraw` throw exactly when no scene is current. Otherwise they reach the current scene and change nothing else. |
| `Game.UpdateBeforeStartFails` | src/main/java/com/saifkhichi/apis/gcore/BaseGame.java:84-86 | Before any scene is current, `update` and `onDraw` throw. |
| `Game.BaseGame.constructor` | src/main/java/com/saifkhichi/apis/gcore/BaseGame.java:50-53 | A new game object is in the `Initial` state with its own new registry. |
| `Game.BaseGame.GetCurrentScene` | src/main/java/com/saifkhichi/apis/gcore/BaseGame.java:64-66 | The registry's current scene, i.e. `CurrentScene` of the state. |
| `Game.BaseGame.GetUpdateInterval` | src/main/java/com/saifkhichi/apis/gcore/BaseGame.java:76-78 | `getUpdateInterval()` is `UpdateInterval(fps)`, whose bounds `Game.UpdateIntervalBounds` states. |
| `Game.BaseGame.IsOver` | src/main/java/com/saifkhichi/apis/gcore/BaseGame.java:192-194 | Reports the over flag. |
| `Game.BaseGame.IsRunning` | src/main/java/com/saifkhichi/apis/gcore/BaseGame.java:201-203 | Reports not paused, whether or not the game is over. |
| `Game.BaseGame.Pause` | src/main/java/com/saifkhichi/apis/gcore/BaseGame.java:152-157 | The new state is `PauseSpec` of the old one. |
| `Game.BaseGame.Resume` | src/main/java/com/saifkhichi/apis/gcore/BaseGame.java:165-170 | The new state is `ResumeSpec` of the old one. |
| `Game.BaseGame.End` | src/main/java/com/saifkhichi/apis/gcore/BaseGame.java:178-185 | The new state is `EndSpec` of the old one. |
| `Game.BaseGame.Update` | src/main/java/com/saifkhichi/apis/gcore/BaseGame.java:84-86 | The new state and the outcome are `UpdateSpec` of the old state. |
| `Game.BaseGame.OnDraw` | src/main/java/com/saifkhichi/apis/gcore/BaseGame.java:88-90 | The new state and the outcome are `DrawSpec` of the old state. |
| `Game.BaseGame.StartScene` | src/main/java/com/saifkhichi/apis/gcore/BaseGame.java:92-104 | The new state and the outcome are `StartSceneSpec` of the old state. |
| `Game.BaseGame.AddScenes` | src/main/java/com/saifkhichi/apis/gcore/BaseGame.java:128-130 | The registry and the outcome after the loop are `RegisterAll` of the registry before it. |
| `Game.BaseGame.Start` | src/main/java/com/saifkhichi/apis/gcore/BaseGame.java:115-144 | The new state and the outcome are `StartSpec` of the old state, with the given scene list and initial class. |

## Left out

- The speed factor: `update` multiplies the elapsed time by a `float` and
  truncates the product. The model takes the already-scaled integer delta as
  input, and `setSpeed` is not modelled.
- `Animation`'s position and size come from its `Object2D` superclass, which is
  float physics. Its `onDraw`/`draw` are empty, and its `(width, height)`
  constructor only passes them to that superclass. The private `getFrame(i)`
  is sequence indexing.
- The `Frame` image ids: an image id of -1 cannot be told apart from the
  sentinel that `getFrameImage` returns for an index out of range.
- `synchronized` on `Animation.update`: concurrency is out of scope.
- Java `int`/`long` overflow: every integer is unbounded. Durations, times,
  sizes and `fps` are not bounded to 32 or 64 bits.
- `Animations.StepKeepsSynced` and `Animations.StepInBounds` assume a
  non-negative delta or duration. A negative speed or frame duration can leave
  the cursor unsynced or scan it off the end. `NegativeDeltaStaysBehind` proves
  the first in general and `NegativeDeltaDesyncs` gives an example;
  `FrameIndexOutOfBounds` models the second.
- The game loop (`GameLoop`): its clock, sleep and `synchronized` block are out
  of scope. Starting it is recorded as a `LoopStart` event. Starting the same
  thread twice throws `IllegalThreadStateException`, modelled as
  `LoopAlreadyStarted`.
- The order of a callback relative to its flag updates: `pause()` and `end()`
  set the flags and then call back (BaseGame.java:155-156, :181-184), while
  `resume()` and `start()` call back first (BaseGame.java:168-169, :133-137).
  The trace records which callbacks fire and in what order, but not the flag
  values a callback would observe.
- Callbacks are not modelled by their code. The game's `onStart`, `onPaused`,
  `onResume` and `onOver`, and the scenes' callbacks, belong to the game's
  author and are recorded as events.
  - If one of them throws, that exception is not modelled.
  - The one exception the core handles is a scene's `onStart` throwing inside
    `startScene`. It is swallowed, so it cannot change the game's state, and
    the model records the call and returns normally either way.
- `getScenes()` and `getInitialScene()` are abstract. `Start` takes their
  results as arguments. A `null` scene list (a `NullPointerException` in
  `isEmpty`) is not modelled.
- Scene classes are keys of type `string`. A `null` key passed to
  `setCurrentScene` or `getScene` fails in Java exactly like an unregistered
  class, and it is not a separate input in the model.
- `getActiveScene()` returns the same as `getCurrentScene()`, and
  `Game.BaseGame.GetCurrentScene` models both.
- The `Size` getters are plain field reads (`Width`, `Height`, `Radius`) and
  need no contract.
- Physics and geometry (vectors, velocity, bounding boxes), sprites, animated
  views and the `Drawable`, `Scene` and callback interfaces are float
  arithmetic or interfaces without logic, and are not part of this model.

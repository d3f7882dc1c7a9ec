# Santa study tracker: a Dafny model of its core

The application is a Christmas-themed study tracker built with Next.js and React.
Its core has three parts:

- **The 3D tree scene.** Particle groups (leaves, two kinds of ornaments, a spiral ribbon)
  move between two target layouts: an assembled cone (`Tree`) and a scattered spherical
  shell (`Explode`). Each frame, every instance covers 5 % of the remaining way to its
  target. The state flips on a click or on a hand gesture read from the camera: a pinch
  asks for `Tree` and an open hand asks for `Explode`. Moving an open hand sideways turns
  the tree. A star sits on top and spins, bobs and pulses.
- **The Pomodoro timers.** The app-wide provider counts one minute down and stops at zero.
  The stand-alone hook counts 25 minutes down, reports the end of a session and starts
  over. It saves itself with a timestamp, and on mount it restores by subtracting the whole
  seconds elapsed. Its save effect runs before its restore effect, so at mount the restore
  reads back the record just written. What an earlier page stored is lost (see Findings).
  `formatTime` renders seconds as `m:ss`.
- **The task lists.** The landing page adds, toggles, deletes and clears tasks. The
  dashboard does four things:
  - It reads the tasks back from storage and normalises every field.
  - It shows journey progress: finished tasks plus the running session, out of the task
    count plus one.
  - When a Pomodoro ends, it marks the current task complete. Then it either celebrates or
    restarts the timer.
  - It keeps the current task pointing at the first unfinished one.

  The task path places markers at equal fractions of the path. The study context counts
  sessions.

Each source file maps to one Dafny module: `scene_state`, `hand_gesture`,
`gesture_control`, `tree_scene`, `particles`, `tree_leaves`, `tree_decorations`,
`spiral_ribbon`, `star_topper`, `christmas_tree`, `pomodoro_context`, `use_pomodoro`,
`time_format`, `pomodoro_timer`, `home_tasks`, `task_path`, `dashboard` and
`study_context`. `Wrappers` holds `Option` and `Result`.

How the source's constructs are represented:

- **State.** A component whose state or refs change becomes a class with those fields.
  Handlers and effects become methods.
- **Particle arrays.** The particle position arrays are Dafny arrays. The frame loops
  update them in place and are proved against the pure function `FrameStep`.
- **Trigonometry.** `Math.cos` and `Math.sin` are function-valued parameters (`Trig`).
  Where a proof needs it, the identity sin² + cos² = 1 is a precondition on the angles
  involved.
- **Randomness.** The `Math.random` draws are a sequence of reals, consumed in the order
  the source calls it: six per leaf, five per ornament and three per ribbon segment.
- **Timers and storage.** Clock readings and stored values are parameters. Timer intervals
  and timeouts become explicit tick and restart methods.
- **Effects.** A React effect is modelled as a method that runs after the event that
  changes its inputs.

`TreeScene.tsx` and the stand-alone `App.tsx` have identical state, click handling and
gesture wiring, so one class, `TreeScene.GestureScene`, models both. `App.nogesture.tsx` is
modelled by `TreeScene.ClickOnlyScene`.

The dashboard takes its Pomodoro length from the app-wide provider, which is 60 seconds.
The 1500 seconds belong only to the stand-alone hook.

Completing a task on an empty list counts as finishing the list, because `every` holds for
an empty array. So a timer that ends while the dashboard has no tasks shows the
celebration. `Dashboard.DashboardPage.CompleteTask` states this.

## Model

| member | source | states |
|---|---|---|
| SceneState.Toggle | my-app/src/components/tree/TreeScene.tsx:18-22 | a click always changes the state, and the new state is Tree exactly when the old one was Explode |
| SceneState.ToggleTwice | my-app/src/components/tree/christmas-tree-3d/src/App.tsx:13-15 | two clicks in a row restore the state |
| SceneState.StatusLabel | my-app/src/components/tree/christmas-tree-3d/src/App.nogesture.tsx:66 | the indicator reads "🎄 Tree Mode" exactly in Tree and "💥 Explode Mode" exactly in Explode |
| HandGesture.PinchIffHypotBelowThreshold | my-app/src/components/tree/christmas-tree-3d/src/hooks/useHandGesture.ts:123-131 | a hand is a pinch exactly when the planar thumb-index distance is strictly below 0.05, whatever the other fingers do; 0.05 itself is no pinch |
| HandGesture.OpenIffFingersAboveIndexBase | my-app/src/components/tree/christmas-tree-3d/src/hooks/useHandGesture.ts:133-143 | without a pinch, the hand is open exactly when all four fingertips are strictly above the index base, and it is 'none' exactly otherwise |
| HandGesture.ClassificationIgnoresDepth | my-app/src/components/tree/christmas-tree-3d/src/hooks/useHandGesture.ts:111-144 | two hands whose landmarks agree in x and y classify alike: depth plays no part |
| HandGesture.HandTracker.constructor | my-app/src/components/tree/christmas-tree-3d/src/hooks/useHandGesture.ts:12-14 | the tracker starts with no gesture, the hand at (0.5, 0.5) and not ready |
| HandGesture.HandTracker.ProcessHandResults | my-app/src/components/tree/christmas-tree-3d/src/hooks/useHandGesture.ts:94-109 | with a hand, the position becomes its wrist and the gesture its classification; without one, the gesture is 'none' and the position is kept |
| GestureControl.RequestedState | my-app/src/components/tree/christmas-tree-3d/src/components/GestureControl.tsx:19-25 | the effect asks for Tree exactly on a pinch in Explode, asks for Explode exactly on an open hand in Tree, and never asks for the current state |
| GestureControl.SyncSettles | my-app/src/components/tree/christmas-tree-3d/src/components/GestureControl.tsx:19-25 | after one run the state matches the gesture (pinch gives Tree, open gives Explode, none keeps it), and a second run asks for nothing |
| GestureControl.RotationStep | my-app/src/components/tree/christmas-tree-3d/src/components/GestureControl.tsx:28-38 | the refs change only for an open hand at a new x; an open hand's x becomes the last x; the rotation grows by 8 times the change in the last x |
| GestureControl.ReplayTelescopes | my-app/src/components/tree/christmas-tree-3d/src/components/GestureControl.tsx:28-38 | over any run of samples, the accumulated rotation is 8 times the net horizontal hand motion |
| GestureControl.ClosedHandSamplesKeepRefs | my-app/src/components/tree/christmas-tree-3d/src/components/GestureControl.tsx:29 | samples without an open hand leave both refs unchanged |
| GestureControl.OpenHandExample | my-app/src/components/tree/christmas-tree-3d/src/components/GestureControl.tsx:28-38 | illustration of ReplayTelescopes, not a separate property: an open hand at x = 0.5, 0.6, 0.6 from the start gives rotation 0.8 |
| GestureControl.GestureController.constructor | my-app/src/components/tree/christmas-tree-3d/src/components/GestureControl.tsx:15-16 | the refs start at last x 0.5 and rotation 0 |
| GestureControl.GestureController.OnHandMove | my-app/src/components/tree/christmas-tree-3d/src/components/GestureControl.tsx:28-38 | the refs follow RotationStep; `onRotationChange` is called exactly when they change, and with the new rotation; rotation = 8·(last x − 0.5) is kept |
| TreeScene.GestureScene.constructor | my-app/src/components/tree/TreeScene.tsx:14-16 | the scene starts in Tree with user rotation 0 and fresh gesture-control state |
| TreeScene.GestureScene.SyncState | my-app/src/components/tree/TreeScene.tsx:50-54 | the host's state becomes the requested state if there is one |
| TreeScene.GestureScene.Click | my-app/src/components/tree/TreeScene.tsx:18-22 | a click toggles the state, but a gesture still held wins: with no gesture the state flips, with an open hand it is Explode, with a pinch it is Tree; the user rotation is untouched |
| TreeScene.GestureScene.DetectionTick | my-app/src/components/tree/christmas-tree-3d/src/App.tsx:59-63 | one detection updates the tracker (the hand position becomes the first hand's wrist, or is kept when there is no hand), then the rotation refs, then the state; the user rotation always equals the controller's rotation |
| TreeScene.ClickOnlyScene.constructor | my-app/src/components/tree/christmas-tree-3d/src/App.nogesture.tsx:9-10 | the click-only scene starts in Tree with rotation 0 |
| TreeScene.ClickOnlyScene.Click | my-app/src/components/tree/christmas-tree-3d/src/App.nogesture.tsx:12-14 | a click flips the state; the rotation stays 0 |
| TreeScene.ClickOnlyScene.Status | my-app/src/components/tree/christmas-tree-3d/src/App.nogesture.tsx:64-68 | the indicator shows the Tree label exactly in Tree |
| Particles.IndexFraction | my-app/src/components/tree/christmas-tree-3d/src/components/TreeLeaves.tsx:22 | the layout parameter i / COUNT of every instance (leaves here, ribbon segments at SpiralRibbon.tsx line 24) is in [0, 1) |
| Particles.LerpScalar | my-app/src/components/tree/christmas-tree-3d/src/components/TreeLeaves.tsx:81 | one lerp step with factor α leaves (1 − α) of the offset to the target |
| Particles.LerpScalarBetween | my-app/src/components/tree/christmas-tree-3d/src/components/TreeLeaves.tsx:81 | with α in [0, 1] a step lands between the start and the target: it never overshoots |
| Particles.LerpAtTarget | my-app/src/components/tree/christmas-tree-3d/src/components/TreeLeaves.tsx:81 | an instance at its target stays there |
| Particles.ScalarFramesClosedForm | my-app/src/components/tree/christmas-tree-3d/src/components/TreeLeaves.tsx:79-81 | after k frames toward a fixed target b, a coordinate is b − 0.95^k (b − a) |
| Particles.PowBounds | my-app/src/components/tree/christmas-tree-3d/src/components/TreeLeaves.tsx:81 | the remaining fraction 0.95^k lies in (0, 1] and is below 1 after any frame, so instances approach their target without reaching it |
| Particles.FramesClosedForm | my-app/src/components/tree/christmas-tree-3d/src/components/SpiralRibbon.tsx:58-59 | after k frames instance i is at T − 0.95^k (T − P), independently of the other instances |
| Particles.SphericalPointNorm | my-app/src/components/tree/christmas-tree-3d/src/components/TreeLeaves.tsx:33-42 | an explode target built from radius r and two angles is at distance r from the origin |
| Particles.OnCircleNorm | my-app/src/components/tree/christmas-tree-3d/src/components/SpiralRibbon.tsx:31-35 | a tree target built from an angle and a radius is at that radius from the vertical axis and at the given height |
| Particles.ParticleGroup.Target | my-app/src/components/tree/christmas-tree-3d/src/components/TreeLeaves.tsx:77 | the frame's targets are one of the group's two target arrays |
| Particles.ParticleGroup.Frame | my-app/src/components/tree/christmas-tree-3d/src/components/TreeLeaves.tsx:75-99 | the loop moves every current position 5 % of the way to the target of the current state, and leaves both target arrays unchanged |
| TreeLeaves.Height | my-app/src/components/tree/christmas-tree-3d/src/components/TreeLeaves.tsx:23 | leaves sit at heights in [−8.5, 6.5) |
| TreeLeaves.Radius | my-app/src/components/tree/christmas-tree-3d/src/components/TreeLeaves.tsx:25 | the cone radius is in (0.9, 6.7] |
| TreeLeaves.LayoutMonotone | my-app/src/components/tree/christmas-tree-3d/src/components/TreeLeaves.tsx:22-25 | later leaves are strictly higher on a strictly narrower cone |
| TreeLeaves.ShellRadius | my-app/src/components/tree/christmas-tree-3d/src/components/TreeLeaves.tsx:36 | a draw in [0, 1) gives an explode radius in [15, 25) |
| TreeLeaves.TreeTarget | my-app/src/components/tree/christmas-tree-3d/src/components/TreeLeaves.tsx:22-31 | a leaf's tree target has the height of its index |
| TreeLeaves.ExplodeTargetInShell | my-app/src/components/tree/christmas-tree-3d/src/components/TreeLeaves.tsx:33-42 | every leaf's explode target lies in the shell 15 ≤ \|p\| < 25 |
| TreeLeaves.Build | my-app/src/components/tree/christmas-tree-3d/src/components/TreeLeaves.tsx:15-49 | the loop fills 5000 tree and explode targets from each leaf's own six draws, and starts every leaf at its tree target |
| TreeDecorations.Height | my-app/src/components/tree/christmas-tree-3d/src/components/TreeDecorations.tsx:25 | an ornament's height is in [base, base + 17), with base −10 for cubes and −9 for icosahedra (line 63) |
| TreeDecorations.Radius | my-app/src/components/tree/christmas-tree-3d/src/components/TreeDecorations.tsx:26 | an ornament's cone radius is in (0, 4.8] for cubes and (0, 4.5] for icosahedra (line 64) |
| TreeDecorations.TreeLayoutBounds | my-app/src/components/tree/christmas-tree-3d/src/components/TreeDecorations.tsx:23-27 | cubes span heights [−10, 7) and icosahedra [−9, 8), with radii up to 4.8 and 4.5 |
| TreeDecorations.ShellRadius | my-app/src/components/tree/christmas-tree-3d/src/components/TreeDecorations.tsx:39 | explode radii are in [20, 35) for cubes and [18, 30) for icosahedra (line 77) |
| TreeDecorations.TreeTargetOnCone | my-app/src/components/tree/christmas-tree-3d/src/components/TreeDecorations.tsx:24-35 | an ornament's tree target lies on its cone: at its height and exactly its radius from the axis |
| TreeDecorations.Build | my-app/src/components/tree/christmas-tree-3d/src/components/TreeDecorations.tsx:18-53 | each generation loop fills 1000 targets from five draws per ornament, and starts every ornament at its tree target |
| TreeDecorations.Decorations.constructor | my-app/src/components/tree/christmas-tree-3d/src/components/TreeDecorations.tsx:17-91 | the two groups own disjoint arrays and start at their tree targets |
| TreeDecorations.Decorations.Frame | my-app/src/components/tree/christmas-tree-3d/src/components/TreeDecorations.tsx:93-141 | each frame callback lerps its own group toward the targets of the same state; no target array changes |
| SpiralRibbon.Height | my-app/src/components/tree/christmas-tree-3d/src/components/SpiralRibbon.tsx:27 | ribbon heights are in [−7, 7) |
| SpiralRibbon.Radius | my-app/src/components/tree/christmas-tree-3d/src/components/SpiralRibbon.tsx:28 | ribbon radii are in (1, 4.5] |
| SpiralRibbon.HelixMonotone | my-app/src/components/tree/christmas-tree-3d/src/components/SpiralRibbon.tsx:24-28 | the helix climbs and narrows strictly along the ribbon |
| SpiralRibbon.ShellRadius | my-app/src/components/tree/christmas-tree-3d/src/components/SpiralRibbon.tsx:40 | explode radii are in [25, 35) |
| SpiralRibbon.TreeTargetOnHelix | my-app/src/components/tree/christmas-tree-3d/src/components/SpiralRibbon.tsx:26-35 | segment i lies on the helix, at its height and its radius from the axis |
| SpiralRibbon.Build | my-app/src/components/tree/christmas-tree-3d/src/components/SpiralRibbon.tsx:14-52 | the loop fills 300 deterministic helix targets and random shell targets, and starts every segment on the helix |
| StarTopper.VertexAngleStep | my-app/src/components/tree/christmas-tree-3d/src/components/StarTopper.tsx:16 | consecutive vertices are π/5 apart, and the ten vertices go once around |
| StarTopper.VertexRadius | my-app/src/components/tree/christmas-tree-3d/src/components/StarTopper.tsx:17 | even vertices are tips at radius 1.2, and odd vertices are notches at 0.5 |
| StarTopper.BuildOutline | my-app/src/components/tree/christmas-tree-3d/src/components/StarTopper.tsx:15-24 | the outline is one move to vertex 0, lines to vertices 1 to 9 in order, and one final close |
| StarTopper.BobHeight | my-app/src/components/tree/christmas-tree-3d/src/components/StarTopper.tsx:39-40 | the star bobs within [7.8, 8.2] |
| StarTopper.PulseScale | my-app/src/components/tree/christmas-tree-3d/src/components/StarTopper.tsx:42 | the star's scale pulses within [0.9, 1.1] |
| StarTopper.StarMesh.Frame | my-app/src/components/tree/christmas-tree-3d/src/components/StarTopper.tsx:35-44 | an unmounted star is untouched; a mounted one spins 0.01, bobs and pulses with the clock |
| ChristmasTree.NextRotation | my-app/src/components/tree/christmas-tree-3d/src/components/ChristmasTree.tsx:18-31 | one frame's rotation is 0.9·(r + 0.1·delta) + 0.1·user, so the offset from the user rotation shrinks to 0.9 of its drifted value |
| ChristmasTree.RotationFixedPoint | my-app/src/components/tree/christmas-tree-3d/src/components/ChristmasTree.tsx:25-29 | without drift, a group at the user rotation stays there |
| ChristmasTree.StillFramesClosedForm | my-app/src/components/tree/christmas-tree-3d/src/components/ChristmasTree.tsx:25-29 | without drift, after k frames the rotation is user − 0.9^k (user − r) |
| ChristmasTree.TreeRoot.constructor | my-app/src/components/tree/christmas-tree-3d/src/components/ChristmasTree.tsx:33-45 | the root holds the four animated children with pairwise disjoint arrays; leaves, ribbon, cubes and icosahedra each start at their tree layout |
| ChristmasTree.TreeRoot.Frame | my-app/src/components/tree/christmas-tree-3d/src/components/ChristmasTree.tsx:18-45 | a frame turns a mounted group by NextRotation, lerps every particle group toward the targets of the one shared state, and runs the star's frame: an unmounted star is unchanged, a mounted one spins by 0.01, bobs to BobHeight and pulses to PulseScale |
| PomodoroContext.TickValue | my-app/src/context/PomodoroContext.tsx:30-37 | the countdown goes down by one and stops at 0, never below |
| PomodoroContext.TicksToZero | my-app/src/context/PomodoroContext.tsx:29-38 | a countdown from t ≥ 1 ends after exactly t ticks, so a full minute lasts 60 ticks |
| PomodoroContext.PomodoroProvider.constructor | my-app/src/context/PomodoroContext.tsx:21-23 | the timer starts at 60 s, stopped, with no session |
| PomodoroContext.PomodoroProvider.IntervalTick | my-app/src/context/PomodoroContext.tsx:26-41 | a running timer counts down; on its last second it stops at 0 and ends the session; a stopped timer is untouched; 0 ≤ time ≤ 60 is kept |
| PomodoroContext.PomodoroProvider.ToggleTimer | my-app/src/context/PomodoroContext.tsx:43-46 | a toggle flips running, marks the session active and keeps the time |
| PomodoroContext.PomodoroProvider.ResetTimer | my-app/src/context/PomodoroContext.tsx:48-51 | a reset stops the timer at 60 s and leaves the session flag alone |
| PomodoroContext.UsePomodoro | my-app/src/context/PomodoroContext.tsx:71-77 | the hook gives the provider when one is in scope, and fails with the exact message otherwise |
| UsePomodoro.TickUpdate | my-app/src/hooks/usePomodoro.ts:42-50 | a tick reports completion exactly when at most one second is left, and then starts over at 1500; otherwise it counts down and stays ≥ 1 |
| UsePomodoro.ElapsedSeconds | my-app/src/hooks/usePomodoro.ts:27 | the elapsed seconds are the floor of the millisecond gap over 1000, and nonnegative for a timestamp in the past |
| UsePomodoro.RestoredTime | my-app/src/hooks/usePomodoro.ts:28 | the restored time is nonnegative, equals saved − elapsed when positive, and never exceeds the saved time for a past timestamp |
| UsePomodoro.RestoreAfterSave | my-app/src/hooks/usePomodoro.ts:22-31 | saving and restoring k whole seconds later (plus less than one) gives the saved time less k, floored at 0 |
| UsePomodoro.PomodoroHook.constructor | my-app/src/hooks/usePomodoro.ts:6-8 | the hook starts at 1500 s, stopped, with no session |
| UsePomodoro.PomodoroHook.Snapshot | my-app/src/hooks/usePomodoro.ts:11-19 | the saved record holds the three fields and the current time |
| UsePomodoro.MountedTimeAsWritten | my-app/src/hooks/usePomodoro.ts:11-36 | with the effects in their written order, a mount restored within a second of its own save keeps the initial time, whatever was stored before |
| UsePomodoro.MountedTimeIntended | my-app/src/hooks/usePomodoro.ts:22-31 | restoring before saving gives the time restored from the earlier page's record, or the initial time when there is none |
| UsePomodoro.MountIgnoresPreviousSave | my-app/src/hooks/usePomodoro.ts:11-36 | a page left at 300 s and mounted a minute later shows 1500 s as written; restoring first gives 240 s |
| UsePomodoro.IntendedMountResumes | my-app/src/hooks/usePomodoro.ts:22-31 | with restore first, mounting k whole seconds after a save of t seconds shows t − k, floored at 0 |
| UsePomodoro.PomodoroHook.Mount | my-app/src/hooks/usePomodoro.ts:11-36 | the two mount effects in written order: storage gets the fresh state, and the time left is restored from that record and the timer stopped |
| UsePomodoro.PomodoroHook.MountRestoringFirst | my-app/src/hooks/usePomodoro.ts:11-36 | the corrected mount: the earlier record is restored first, then the restored state is stored |
| UsePomodoro.PomodoroHook.Restore | my-app/src/hooks/usePomodoro.ts:22-36 | a stored record sets the restored time and stops the timer; no record changes nothing; the session flag is never restored |
| UsePomodoro.PomodoroHook.IntervalTick | my-app/src/hooks/usePomodoro.ts:38-54 | the completion callback fires exactly on the last second of a running timer, which then stops and resets to 1500 |
| UsePomodoro.PomodoroHook.ToggleTimer | my-app/src/hooks/usePomodoro.ts:56-59 | a toggle flips running and marks the session active |
| UsePomodoro.PomodoroHook.ResetTimer | my-app/src/hooks/usePomodoro.ts:61-64 | a reset stops the timer at 1500 s |
| TimeFormat.NatToString | my-app/src/lib/utils.ts:11 | `String(n)` is a nonempty digit string, one character exactly below 10, with no leading zero |
| TimeFormat.NatToStringValue | my-app/src/lib/utils.ts:11 | reading the digits of `String(n)` gives back n |
| TimeFormat.PadStart | my-app/src/lib/utils.ts:11 | padding keeps long strings and puts fill characters before short ones up to the width |
| TimeFormat.SecondsFieldValue | my-app/src/lib/utils.ts:10-11 | a seconds value below 60 shows as exactly two digits that read back as that value |
| TimeFormat.FormatTime | my-app/src/lib/utils.ts:8-12 | the text is minutes with no leading zero, a colon and two digits; the seconds field is below 60, and minutes·60 + seconds reads back as the input |
| TimeFormat.CanonicalDigits | my-app/src/lib/utils.ts:11 | a digit string without a leading zero is `String` of its value |
| TimeFormat.FormatTimeUnique | my-app/src/lib/utils.ts:8-12 | the formatted time is the only text meeting the contract of FormatTime, so the minutes field is exactly `String(⌊s/60⌋)` |
| TimeFormat.FormatTimeExamples | my-app/src/lib/utils.ts:8-12 | illustration, not a separate property: 0 s shows "0:00", 1500 s "25:00" and 65 s "1:05" |
| PomodoroTimer.Split | my-app/src/components/timer/PomodoroTimer.tsx:11-12 | minutes·60 + seconds is the duration, with seconds below 60 |
| PomodoroTimer.Render | my-app/src/components/timer/PomodoroTimer.tsx:16-18 | the component shows exactly the `formatTime` text of its duration |
| PomodoroTimer.DefaultRendersTwentyFiveMinutes | my-app/src/components/timer/PomodoroTimer.tsx:8 | illustration of Render, not a separate property: with no duration the component shows "25:00" |
| HomeTasks.Toggled | my-app/src/app/page.tsx:65-71 | toggling keeps length and order, flips completion on the tasks with that id, and leaves every other task as it was |
| HomeTasks.ToggleTwice | my-app/src/app/page.tsx:65-71 | toggling the same id twice restores the list |
| HomeTasks.Removed | my-app/src/app/page.tsx:73-75 | a task survives deletion exactly when it was in the list with another id |
| HomeTasks.DeleteConcat | my-app/src/app/page.tsx:74 | deletion distributes over concatenation, so survivors keep their order |
| HomeTasks.DeleteAbsent | my-app/src/app/page.tsx:74 | deleting an id no task carries changes nothing |
| HomeTasks.DeleteUndoesAdd | my-app/src/app/page.tsx:52-75 | adding a task with a fresh id and deleting that id restores the list |
| HomeTasks.Home.constructor | my-app/src/app/page.tsx:20-23 | the page starts with no tasks, an empty input and the form closed |
| HomeTasks.Home.AddTask | my-app/src/app/page.tsx:52-63 | a blank input changes nothing; otherwise exactly one incomplete task with the untrimmed text is appended, the input is cleared and the list counts as created |
| HomeTasks.Home.ToggleTask | my-app/src/app/page.tsx:65-71 | the stored list becomes the toggled list |
| HomeTasks.Home.DeleteTask | my-app/src/app/page.tsx:73-75 | the stored list becomes the list without that id |
| HomeTasks.Home.ClearAllTasks | my-app/src/app/page.tsx:77-83 | a confirmed clear empties the list, closes the form and resets the created flag; a declined one changes nothing |
| TaskPath.Progress | my-app/src/components/task-path.tsx:70 | marker i of n is at (i + 1)/(n + 1) of the path, strictly inside (0, 100) % |
| TaskPath.ProgressIncreasing | my-app/src/components/task-path.tsx:70 | later tasks sit strictly further along the path |
| TaskPath.IconFor | my-app/src/components/task-path.tsx:97-101 | the check icon shows exactly for completed tasks, and the gift otherwise |
| TaskPath.SessionLabel | my-app/src/components/task-path.tsx:105 | the caption is "Session " followed by the digits of i + 1 with no leading zero, which by TimeFormat.CanonicalDigits is exactly `String(i + 1)` |
| TaskPath.MarkersLayout | my-app/src/components/task-path.tsx:69-110 | every marker is inside the path, markers advance in list order, and each shows its own task's text and completion |
| Dashboard.OrElse | my-app/src/app/dashboard/page.tsx:34-37 | a nonempty stored string is kept, and anything falsy gives the fallback |
| Dashboard.Normalise | my-app/src/app/dashboard/page.tsx:33-38 | a loaded task always has a nonempty id, text and emoji; it is completed exactly when the stored value is the literal true; each field is kept when stored nonempty, otherwise falls back: id to String(i), text to the stored name and then to "Task i+1", emoji to gift i mod 20 |
| Dashboard.NormaliseDefaults | my-app/src/app/dashboard/page.tsx:34-37 | an empty record i gets id String(i), text "Task i+1", completed false and gift emoji i mod 20 |
| Dashboard.LoadTasks | my-app/src/app/dashboard/page.tsx:25-46 | only a nonempty array without null elements loads, element by element in order; anything else gives the empty list |
| Dashboard.CompletedCount | my-app/src/app/dashboard/page.tsx:150 | the completed count is at most the length, and equals it exactly when every task is done |
| Dashboard.JourneyProgress | my-app/src/app/dashboard/page.tsx:148-157 | the progress is 0 for no tasks; otherwise it is (completed + session fraction)/(n + 1)·100 |
| Dashboard.JourneyProgressBounds | my-app/src/app/dashboard/page.tsx:150-156 | with the time left within one Pomodoro, the progress is within [0, 100] |
| Dashboard.JourneyProgressAdvancesWithTime | my-app/src/app/dashboard/page.tsx:151-153 | during a session, less time left means strictly more progress |
| Dashboard.MarkComplete | my-app/src/app/dashboard/page.tsx:167-169 | only the task at the current index becomes completed; the length and the other tasks are unchanged |
| Dashboard.MarkCompleteCount | my-app/src/app/dashboard/page.tsx:167-169 | marking adds one to the completed count exactly when the current task was unfinished |
| Dashboard.FirstIncomplete | my-app/src/app/dashboard/page.tsx:189 | the result is −1 exactly when all tasks are done; otherwise it is an unfinished task with every earlier task done |
| Dashboard.NodeProgresses | my-app/src/app/dashboard/page.tsx:298-308 | there is one node per task, each strictly inside (0, 100) % |
| Dashboard.NodeProgressesIncreasing | my-app/src/app/dashboard/page.tsx:299 | nodes advance strictly along the path in list order |
| Dashboard.LastTaskCelebrates | my-app/src/app/dashboard/page.tsx:165-184 | completing the last unfinished task finishes the list and raises the count by one |
| Dashboard.DashboardPage.constructor | my-app/src/app/dashboard/page.tsx:60-62 | the page starts with the loaded tasks, index 0 and no celebration |
| Dashboard.DashboardPage.AllTasksCompleted | my-app/src/app/dashboard/page.tsx:196 | the journey is complete exactly when the list is nonempty and every task is counted as done |
| Dashboard.DashboardPage.CurrentTaskText | my-app/src/app/dashboard/page.tsx:343 | the caption is the current task's text when it exists and is nonempty, and "No Task" otherwise |
| Dashboard.DashboardPage.CompleteTask | my-app/src/app/dashboard/page.tsx:165-184 | the current task is marked; a finished list celebrates, and otherwise the timer restart is scheduled |
| Dashboard.DashboardPage.AutoRestart | my-app/src/app/dashboard/page.tsx:176-179 | the scheduled restart leaves the timer running a fresh full session |
| Dashboard.DashboardPage.ObserveTimer | my-app/src/app/dashboard/page.tsx:121-125 | a finished session (0 left, stopped, inactive) completes the current task, then celebrates a finished list or otherwise schedules the restart; no other timer state changes anything |
| Dashboard.DashboardPage.SyncCurrentIndex | my-app/src/app/dashboard/page.tsx:187-194 | the index moves to the first unfinished task when one exists, and stays otherwise |
| Dashboard.DashboardPage.Reload | my-app/src/app/dashboard/page.tsx:99-111 | the list is reloaded; when it is nonempty, the index is the first unfinished task (0 if none) and a finished list celebrates |
| Dashboard.DashboardPage.StartNewJourney | my-app/src/app/dashboard/page.tsx:228-234 | the list is emptied, the celebration hidden, the index reset and the timer stopped at a full Pomodoro |
| StudyContext.StudyProvider.constructor | my-app/src/context/StudyContext.tsx:18-19 | the study context starts with 0 sessions and no tasks |
| StudyContext.StudyProvider.AddSession | my-app/src/context/StudyContext.tsx:21 | the session count goes up by exactly one, and the tasks are untouched |
| StudyContext.StudyProvider.AddTask | my-app/src/context/StudyContext.tsx:22 | the task is appended at the end, earlier tasks are kept, and the count is untouched |
| StudyContext.UseStudy | my-app/src/context/StudyContext.tsx:33-36 | the hook gives the provider when one is in scope, and fails with the exact message otherwise |

## Findings

| source | as written | input that shows it | evidently intended | confidence | as-written member | corrected member |
|---|---|---|---|---|---|---|
| my-app/src/hooks/usePomodoro.ts:11-36 | the save effect is declared before the restore effect, so at mount it overwrites the stored record with the fresh state, and the restore reads that back | a page left at 300 s, running; the next page mounts 60 s later and shows 1500 s | the earlier page's record is restored, so 240 s is shown | not executed; follows from React running a component's effects in declaration order | UsePomodoro.PomodoroHook.Mount, UsePomodoro.MountIgnoresPreviousSave | UsePomodoro.PomodoroHook.MountRestoringFirst, UsePomodoro.IntendedMountResumes |

## Left out

- MediaPipe and the camera are not modelled: model loading, `getUserMedia`, video readiness, the `requestAnimationFrame` detection loop and teardown. The landmarks of a detection are an input, and the model requires at least 21 of them; the source never checks that count.
- The hook's own `lastHandXRef` is written but never read, so it is not modelled. The same goes for the cursor-position effect of the gesture panel, which is display only.
- Three.js rendering is not modelled: instance matrices, materials, bloom, canvas, sparkles, the extruded star geometry, and the camera controller.
- The random initial rotation and scale of the leaves are not modelled. Neither are the per-frame rotation and scale of instances driven by `Date.now`. None of them affects positions.
- Numbers: throughout the model, mathematical reals stand in for JavaScript's IEEE doubles. Rounding is therefore not modelled anywhere. This covers `lerp` and the particle closed forms (Particles.LerpScalar, Particles.FramesClosedForm, ChristmasTree.StillFramesClosedForm), `Math.hypot`, the trigonometric functions, and the progress divisions of the task path and the dashboard (TaskPath.Progress, Dashboard.JourneyProgress).
- Trigonometry is uninterpreted. Statements about distances assume sin² + cos² = 1 at the angles used.
- StarTopper.BuildOutline: the `THREE.Shape` is modelled as the sequence of commands issued on it. Extrusion is not modelled.
- Browser I/O is not modelled: `localStorage`, `JSON.parse` and `JSON.stringify`, router navigation, and the focus and visibility listeners. Stored data is the `Stored` datatype, and the handlers are `Reload`.
- The save effects of the landing page and the dashboard are not modelled. The timer hook's save effect is modelled as `Snapshot` and at mount only; its re-runs on later changes are not modelled. Neither is the removal of the stored list on a new journey.
- HomeTasks.Home.AddTask: the new id comes from `Math.random().toString()` and is a parameter here. The source does not guarantee that it is unique.
- The landing page's mount-time load from storage and its loading flag are not modelled. The same goes for the setters that only open or close the form and edit the input.
- HomeTasks.Home.ClearAllTasks: the confirmation dialog is modelled as a boolean parameter.
- Dashboard.Normalise: a stored field is a string or a falsy value. A truthy non-string value (a number, an object) would flow into the task unchanged in the source and is not modelled.
- The dashboard's sleigh position is not modelled: SVG path measurement, the `atan2` heading, and the node coordinates.
- Dashboard.DashboardPage.ObserveTimer: the effect is modelled as running once per change of the timer's three fields. React's dependency tracking and batching are not modelled.
- Timer intervals and the 500 ms restart timeout are modelled as explicit `IntervalTick` and `AutoRestart` calls.
- Races between a click and a gesture in the same render are not modelled. Events are a sequence of discrete method calls.
- PomodoroContext.PomodoroProvider: the raw setters the provider exposes are not modelled. These are `setTimeLeft`, `setIsRunning` and `setSessionActive`.
- UsePomodoro.PomodoroHook: the same goes for the hook's raw setters.
- UsePomodoro.PomodoroHook.Restore: a stored record is modelled with integer fields. Malformed JSON, or fields of other types, become `None`.
- TimeFormat.FormatTime: it is modelled on natural numbers of seconds, which is what its callers pass. Negative or fractional inputs are not modelled.

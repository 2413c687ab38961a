# Driving mini-game: bots, barriers, score and keyboard, in Dafny

This project models the small discrete state machines of a browser driving game
built on three.js and cannon-es:

- the **bot car** (`BotCar`), which drives round a cyclic list of waypoints and slows
  down for a while after touching a car;
- the **barrier box** (`BarrierBox`), which takes one point from the shared score when
  a car touches it, with a 2000 ms grace after it is built and a 1000 ms cooldown
  between penalties;
- the **score counter** (`Score`);
- the **keyboard state** (`KeyboardControls`), a map from key name to "held".

Each of these is a Dafny `class` whose fields the methods update in place, with a
`Valid()` invariant where there is one, beside pure functions and lemmas that state
what a sequence of operations does.

Files and modules:

| file | module | models |
|---|---|---|
| collision.dfy | `Collision` | the `userData.type` tag both collision handlers test |
| bot_car.dfy | `Bot` | src/components/BotCar.ts |
| barrier_box.dfy | `Barrier` | src/components/BarrierBox.ts |
| score.dfy | `Scoring` | src/components/Score.ts, plus `reduce` (see below) |
| keyboard_controls.dfy | `Controls` | src/controls/KeyboardControls.ts |

Abstractions:

- Time is an explicit parameter: `Date.now()` becomes the `now: int` (milliseconds)
  passed to the `BarrierBox` constructor and to `OnCollision`.
- The bot's `setTimeout(…, 1000)` restore becomes a counter of scheduled restores,
  `pendingRestores`, and an explicit `Expire()` event that the host fires when the
  timer runs out. The invariant says at most one restore is ever scheduled, and only
  while the bot is stopped.
- The frame's vector maths is supplied by the caller of `BotCar.Update`: the distance
  from the mesh to the current target, the normalised planar direction towards it,
  and the body orientation after the slerp. The model does the rest of the frame
  itself: the position step `direction * velocity` on x and z, and the mesh mirror
  with its −0.48 y offset.
- Coordinates and speeds are `real`, not IEEE doubles.

Behaviour of the code that the model keeps as written:

- The bot moves while the distance is greater than 1 and advances to the next
  waypoint otherwise, so it advances at a distance of at most 1
  (src/components/BotCar.ts:46).
- A bot collision leaves the score alone and sets the speed to 0.015
  (src/components/BotCar.ts:28).
- Both collision handlers test `userData.type === 'car'`
  (src/components/BotCar.ts:20, src/components/BarrierBox.ts:25).
- `BarrierBox` calls `score.reduce(1)` (src/components/BarrierBox.ts:32), but the
  `Score` class in src/components/Score.ts defines only `add`. As written, that call
  throws a TypeError, so the hit marker and the `lastCollisionTime` update after it
  never run and the barrier never takes a point. The model follows the call's evident
  meaning instead: `Scoring.Score.Reduce` is declared separately and subtracts its
  argument.

Beyond what the code promises for several calls, the model proves that any two
penalties from one barrier, not only successive ones, are more than 1000 ms apart.
This holds even without assuming the clock is monotone, because each penalty is
measured against the previous penalty's time. It also proves that `k` arrivals move
the bot's target `k` places round the cycle (mod the number of waypoints).

## Model

| member | source | states |
|---|---|---|
| Bot.NextWaypointIndex | src/components/BotCar.ts:64-68 | arriving at waypoint `i` of `n` targets `(i+1) mod n`: the last index wraps to 0, and the result is always a valid index |
| Bot.IndexAfterArrivals | src/components/BotCar.ts:64-68 | any number of arrivals keeps the target index in `[0, n)` |
| Bot.ArrivalsAdvanceModulo | src/components/BotCar.ts:64-68 | `k` arrivals from index `i` give index `(i+k) mod n` |
| Bot.FullLap | src/components/BotCar.ts:64-68 | after `n` arrivals the bot targets the waypoint it started from |
| Bot.EveryWaypointTargeted | src/components/BotCar.ts:64-68 | within one lap of fewer than `n` arrivals, every waypoint becomes the target |
| Bot.BotCar.constructor | src/components/BotCar.ts:8-14 | a new bot targets waypoint 0 at cruise speed 0.05, not stopped, with no restore scheduled |
| Bot.BotCar.OnCollision | src/components/BotCar.ts:19-23 | a body not tagged `'car'` leaves all bot state unchanged; a car triggers the stop |
| Bot.BotCar.StopForCollision | src/components/BotCar.ts:25-33 | while already stopped it changes nothing (no new speed, no second restore); otherwise it sets stopped, speed 0.015 and schedules exactly one restore |
| Bot.BotCar.Expire | src/components/BotCar.ts:29-32 | the restore clears the stopped flag and puts the speed back to 0.05 |
| Bot.BotCar.Update | src/components/BotCar.ts:36-71 | with no waypoints nothing changes; beyond distance 1 the index stays and the body moves by `direction * velocity` on x and z with the mesh mirroring it 0.48 lower; at distance ≤ 1 the index becomes `(i+1) mod n` and body and mesh stay where they were; the index stays in range |
| Collision.IsCar | src/components/BotCar.ts:20 | true exactly when the other body's tag is `'car'`; the same guard stands at src/components/BarrierBox.ts:25 |
| Barrier.Penalizes | src/components/BarrierBox.ts:25-31 | a collision costs a point exactly when the other body is a car, at least 2000 ms have passed since construction and strictly more than 1000 ms have passed since the last penalty |
| Barrier.SpacedPair | src/components/BarrierBox.ts:31-34 | if successive penalties are more than 1000 ms apart, so are any two |
| Barrier.PenaltiesPairwiseApart | src/components/BarrierBox.ts:31-34 | all pairs of penalties in the log are more than 1000 ms apart |
| Barrier.BarrierBox.constructor | src/components/BarrierBox.ts:8-21 | the start time is the construction time, the last penalty time is 0, the body is tagged `'BarrierBox'` |
| Barrier.BarrierBox.OnCollision | src/components/BarrierBox.ts:24-37 | when the guard holds, the score drops by exactly 1, `lastCollisionTime` becomes `now` and the penalty is logged; otherwise nothing changes; the invariant keeps every penalty at least 2000 ms after construction and successive penalties more than 1000 ms apart (`gameStartTime` is a constant) |
| Scoring.Score.constructor | src/components/Score.ts:6-7 | a new score is 0 |
| Scoring.Score.Add | src/components/Score.ts:20-21 | `add(p)` makes the score exactly `old + p` |
| Scoring.Score.Reduce | src/components/BarrierBox.ts:32 | `reduce(p)`, not defined in Score.ts, makes the score `old - p` |
| Scoring.AddTwiceIsAddOfSum | src/components/Score.ts:20-21 | `add(a)` then `add(b)` leaves the same score as one `add(a+b)` |
| Scoring.AddZeroIsNoOp | src/components/Score.ts:20-21 | `add(0)` leaves the score unchanged |
| Controls.Apply | src/controls/KeyboardControls.ts:9-15 | a key-down marks its key held, a key-up marks it released; every other key keeps its entry and its state |
| Controls.Pressed | src/controls/KeyboardControls.ts:17-19 | a stored key reads its stored value and an unset key reads false (the `or false` default of the lookup) |
| Controls.NeverSeenIsReleased | src/controls/KeyboardControls.ts:2-18 | starting from the empty map, a key that no event in the history touched reads as not pressed |
| Controls.KeyDownIdempotent | src/controls/KeyboardControls.ts:9-11 | two key-downs of a key give the same map as one |
| Controls.ReplayAppend | src/controls/KeyboardControls.ts:9-15 | delivering `a` then `b` is delivering `a + b` |
| Controls.ReplayKeepsUntouched | src/controls/KeyboardControls.ts:9-15 | events about other keys never change whether a key reads as pressed |
| Controls.LastEventDecides | src/controls/KeyboardControls.ts:9-18 | whatever came before, the last event about a key decides whether it reads as pressed |
| Controls.KeyboardControls.constructor | src/controls/KeyboardControls.ts:2 | the map starts empty |
| Controls.KeyboardControls.OnKeyDown | src/controls/KeyboardControls.ts:9-11 | afterwards the key reads as pressed and every other key is as before |
| Controls.KeyboardControls.IsKeyPressed | src/controls/KeyboardControls.ts:17-19 | `isKeyPressed`: a stored key reads its stored value, an unset key reads false |
| Controls.KeyboardControls.OnKeyUp | src/controls/KeyboardControls.ts:13-15 | afterwards the key reads as released and every other key is as before |

## Left out

- Bot movement maths (vector length, normalisation, `atan2` heading, quaternion slerp by 0.1): these are floating-point three.js operations, so their results are inputs to `Update`.
- Floating point: positions and speeds are exact reals. Score values and key names are exact integers and strings.
- The waypoint list is treated as fixed after construction. `BotCar` keeps a reference to the caller's array, and a caller that shrank it later would make the target lookup read `undefined`; no visible caller does this.
- Real timers: the bot's one-second `setTimeout` is the `Expire()` event, so the model does not bound how long the bot stays slow.
- `HitMarker.show('-1')` in the barrier handler and `Score.updateDisplay`: these are DOM side effects with no state the model needs.
- The `window` keydown/keyup listener registration and the physics `collide` listener registration: these are host wiring. The handlers are modelled as methods called with the event's `key` or the other body's tag.
- JavaScript prototype keys: `keys[key] || false` on a plain object would return an inherited member, such as `constructor`, for a key never stored. The model treats `keys` as a plain map with no inherited entries.
- Physics bodies and shapes (mass, box sizes, the barrier's position), asset loading, rendering, scene setup, camera controls, the GUI, the wave notification and the player car: these are the rendering and physics glue around the modelled logic.
- Wave thresholds, bot spawning, reverse scoring and bot score penalties: the modelled sources contain no code for them.

# Safe teleoperation arbiter — a Dafny model

This project models `SafeTeleop`, the velocity arbiter of a teleoperated mobile robot.
Keyboard commands (move forward or backward, rotate, stop, raise or lower a speed) set
a dialled-in speed and a commanded velocity. A 10 Hz control loop (`run`) reads that
state and the latest laser scan and publishes one `(linear, angular)` command per
iteration. It publishes `(0, 0)` when the last command is older than one second. It
vetoes the linear part whenever the matching sector of the scan holds a reading closer
than 0.5 m. When the object is destroyed, it publishes one final `(0, 0)`.

The model has three modules:

- `Safety` covers `checkSafety`, the simulation variant with a 128-entry scan. Index 0
  is -180 degrees. Moving forward (velocity zero or positive) inspects indices [58, 70).
  Moving backward inspects [0, 6) and [122, 128). `IsSafe` states the verdict as
  quantifiers. `CheckSafety` is the source's three early-return loops, proved equal
  to `IsSafe`.
- `Commands` covers the `Velocities` value, which holds the five shared fields
  (`linear_speed_`, `angular_speed_`, `linear_vel_`, `angular_vel_`,
  `last_command_timestamp_`). `Apply` gives the effect of each of the nine handlers.
- `Teleop` holds the class `SafeTeleop`, whose methods update those fields step by
  step. Each method is proved to produce `Apply` of the old state. `Tick` is one loop
  iteration, proved to produce `TickState`. `Operate` runs a sequence of interleaved
  commands and iterations and then publishes the destructor's `(0, 0)`; it is proved
  against `Final` and `Output`.

Where the code and its design description disagree, the model follows the code:

- The compiled `checkSafety` has no `> 0.0` guard. A reading of 0.0 inside the
  inspected window counts as an obstacle (`ZeroReadingIsObstacle`). The variant that
  has the guard is commented out.
- `increaseLinearSpeed` adds the increment whenever the speed is below the maximum. So
  it can overshoot: 0.98 becomes 1.03 (`IncreaseLinearCanOvershoot`). The proved bound
  is "below maximum plus one increment" (`ApplyPreservesBounded`). Starting from a stop,
  later commands never leave [0, maximum] in exact arithmetic
  (`CommandsAfterStopStayWithinMax`).
- When `increaseAngularSpeed` is already at the angular maximum, it sets `linear_speed_`
  to the linear maximum and leaves the angular speed alone
  (`IncreaseAngularOverflowSetsLinear`).
- Speed changes do not rescale a velocity that is already commanded. They take effect
  at the next direction command (`SpeedCommandsKeepVelocities`).
- The obstacle veto also zeroes the stored linear velocity, not only the published
  command. After the obstacle clears, motion resumes only at the next direction
  command (`VetoLatches`).
- A stale tick zeroes the stored velocities, not only the published command
  (`TickWhenStale`). The speeds are kept, so a new direction command resumes at the
  dialled-in speed (`StaleThenResume`).

Time (`ros::Time::now().toSec()`) is a parameter `now`. Publishing becomes a returned
`Twist` or an output sequence. The latest scan is an input sequence. `double` becomes
`real`. The configuration values are the constants of the constructor's initializer
list. `linear_speed_` and `angular_speed_` are not in the constructor's initializer
list (lines 12-24), so the constructor takes their initial values as parameters.

A scan is either empty or long enough for the indices the check reads. Forward (velocity
zero or positive) reads up to index 69, so it needs 70 entries. Backward reads up to
index 127, so it needs 128 entries (`Readable`). A stale iteration does not call the
check, so it makes no demand on the scan (`TickReadable`). A run is `Admissible` when
every iteration's scan meets the demand in the state that iteration meets. Runs whose
scans are all empty or 128 entries long are admissible from any state
(`FullScansAdmissible`).

## Model

| member | source | states |
|---|---|---|
| `Safety.CheckSafety` | src/safe_teleop.cpp:209-250 | the loop version returns exactly the quantified verdict `IsSafe`: false on an empty scan, otherwise true iff the window(s) of the direction of travel have no reading below 0.5 |
| `Safety.EmptyScanUnsafe` | src/safe_teleop.cpp:220-224 | an empty scan is unsafe for every velocity |
| `Safety.ForwardVerdict` | src/safe_teleop.cpp:227-234 | for velocity >= 0 and a scan of at least 70 entries, unsafe iff some index in [58, 70) holds a reading below 0.5 |
| `Safety.BackwardVerdict` | src/safe_teleop.cpp:235-247 | for velocity < 0, unsafe iff some index in [0, 6) or [122, 128) holds a reading below 0.5 |
| `Safety.OnlyWindowsMatter` | src/safe_teleop.cpp:226-249 | two non-empty readable scans that agree on the inspected window(s) get the same verdict; other entries never matter |
| `Safety.ZeroReadingIsObstacle` | src/safe_teleop.cpp:229-246 | a 0.0 reading inside the inspected window makes the check fail (no positive-value guard) |
| `Safety.ClearScanSafe` | src/safe_teleop.cpp:226-249 | a full-size scan with every reading >= 0.5 is safe in both directions |
| `Commands.EveryCommandStamps` | src/safe_teleop.cpp:84-205 | every handler sets the command timestamp to `now` |
| `Commands.DirectionCommands` | src/safe_teleop.cpp:84-138 | forward/backward set the linear velocity to +/- the speed's magnitude and zero the angular velocity; clockwise/counter-clockwise do the same for rotation and zero the linear velocity; speeds unchanged |
| `Commands.StopResets` | src/safe_teleop.cpp:140-148 | stop leaves both speeds and both velocities exactly 0 from any state and stamps the time |
| `Commands.SpeedCommandsKeepVelocities` | src/safe_teleop.cpp:151-205 | the four speed handlers change neither velocity |
| `Commands.DecreaseFloorsAtZero` | src/safe_teleop.cpp:165-205 | decreasing a speed never leaves it negative, never raises a non-negative speed, and leaves the other speed alone |
| `Commands.IncreaseLinearOvershootThenClamp` | src/safe_teleop.cpp:151-163 | from a speed <= max, one increase stays below max + increment, and a second increase once at or above max clamps to max |
| `Commands.IncreaseLinearCanOvershoot` | src/safe_teleop.cpp:153-156 | from 0.98 one increase gives 1.03, above the maximum |
| `Commands.IncreaseAngularOverflowSetsLinear` | src/safe_teleop.cpp:179-191 | at or above the angular maximum, increasing the angular speed leaves it unchanged and sets the linear speed to its maximum |
| `Commands.ApplyPreservesBounded` | src/safe_teleop.cpp:84-205 | every handler keeps speeds in [0, max + increment), velocity magnitudes below max + increment, and at least one velocity zero |
| `Commands.OnGridWithinMax` | src/safe_teleop.cpp:151-205 | a speed that is a whole number (0..20) of increments lies in [0, max] |
| `Commands.StopOnGrid` | src/safe_teleop.cpp:140-148 | the state after stop has both speeds on the increment grid |
| `Commands.ApplyKeepsGrid` | src/safe_teleop.cpp:140-205 | every handler keeps both speeds on the increment grid |
| `Commands.CommandsAfterStopStayWithinMax` | src/safe_teleop.cpp:140-205 | from a grid state (e.g. after stop), any command sequence keeps both speeds in [0, max] |
| `Commands.ForwardThenBackward` | src/safe_teleop.cpp:84-110 | with speed 0.3, forward then backward commands linear velocity -0.3 and no rotation |
| `Teleop.TickWhenStale` | src/safe_teleop.cpp:52-61 | a command older than 1 s zeroes both velocities and publishes (0, 0) without reading the scan; speeds and timestamp are kept |
| `Teleop.TickWhenFresh` | src/safe_teleop.cpp:62-72 | a fresh command keeps the angular velocity; the linear velocity is kept iff the check passes or it is already 0, and otherwise becomes 0; speeds untouched |
| `Teleop.TickPublishesOnlySafeMotion` | src/safe_teleop.cpp:52-78 | a published non-zero linear velocity passed the check for its own direction on a non-empty scan and comes from a fresh command; published rotation comes from a fresh command |
| `Teleop.TickIdempotent` | src/safe_teleop.cpp:52-72 | a second iteration at the same time on the same scan changes nothing |
| `Teleop.TickPreservesBounded` | src/safe_teleop.cpp:52-72 | an iteration keeps the bounded state |
| `Teleop.OneOutputPerTick` | src/safe_teleop.cpp:47-82 | over any event sequence exactly one command is published per loop iteration |
| `Teleop.RunPreservesBounded` | src/safe_teleop.cpp:47-82 | handlers and iterations interleaved in any order keep the bounded state |
| `Teleop.ObstacleScenario` | src/safe_teleop.cpp:62-78 | after a forward command at speed 0.3, an iteration with 0.3 m readings in the forward window publishes (0, 0), and the same iteration on a clear 2.0 m scan publishes (0.3, 0) |
| `Teleop.VetoLatches` | src/safe_teleop.cpp:62-78 | after that veto, an iteration on a clear 2.0 m scan still publishes (0, 0), because line 69 zeroed the stored velocity; a new forward command followed by an iteration publishes (0.3, 0) again |
| `Teleop.FullScansAdmissible` | src/safe_teleop.cpp:209-247 | a run whose scans are all empty or 128 entries long never makes the check read past the end of a scan, from any state |
| `Teleop.StaleThenResume` | src/safe_teleop.cpp:52-96 | after 1.5 s without commands an iteration publishes (0, 0) but keeps the speed, and a new forward command resumes at 0.3 |
| `Teleop.SafeTeleop.constructor` | src/safe_teleop.cpp:12-24 | both velocities and the timestamp start at 0; the speeds start at the given values |
| `Teleop.SafeTeleop.MoveForward` | src/safe_teleop.cpp:84-96 | the new fields are `Apply` of the old ones for moveForward |
| `Teleop.SafeTeleop.MoveBackward` | src/safe_teleop.cpp:98-110 | the new fields are `Apply` of the old ones for moveBackward |
| `Teleop.SafeTeleop.RotateClockwise` | src/safe_teleop.cpp:112-124 | the new fields are `Apply` of the old ones for rotateClockwise |
| `Teleop.SafeTeleop.RotateCounterClockwise` | src/safe_teleop.cpp:126-138 | the new fields are `Apply` of the old ones for rotateCounterClockwise |
| `Teleop.SafeTeleop.Stop` | src/safe_teleop.cpp:140-148 | the new fields are `Apply` of the old ones for stop |
| `Teleop.SafeTeleop.IncreaseLinearSpeed` | src/safe_teleop.cpp:151-163 | the new fields are `Apply` of the old ones for increaseLinearSpeed |
| `Teleop.SafeTeleop.DecreaseLinearSpeed` | src/safe_teleop.cpp:165-177 | the new fields are `Apply` of the old ones for decreaseLinearSpeed |
| `Teleop.SafeTeleop.IncreaseAngularSpeed` | src/safe_teleop.cpp:179-191 | the new fields are `Apply` of the old ones for increaseAngularSpeed |
| `Teleop.SafeTeleop.DecreaseAngularSpeed` | src/safe_teleop.cpp:193-205 | the new fields are `Apply` of the old ones for decreaseAngularSpeed |
| `Teleop.SafeTeleop.Tick` | src/safe_teleop.cpp:52-78 | one loop iteration, which calls the loop version of the check: the new fields are `TickState` of the old ones, and the returned command is the new (linear, angular) pair |
| `Teleop.SafeTeleop.Operate` | src/safe_teleop.cpp:35-82 | a session of interleaved commands and iterations ends in `Final` of the start state and publishes `Output` (one command per iteration) followed by the destructor's final (0, 0) |

## Left out

- Publisher and subscriber setup (lines 26-29) is not modelled. Publishing is modelled as a returned value or an output sequence.
- `ros::ok()`, `ros::Rate` and `sleep` (lines 49-50, 80) are not modelled. Time is an input, and the loop is a sequence of `Tick` events.
- The background thread, `is_shutdown_` and `join` (lines 31, 37-39) are not modelled. Handlers and iterations run one after another in the order of the event sequence; no interleaving inside one handler or one iteration is modelled.
- TickPublishesOnlySafeMotion holds only because handlers and iterations run one after another. In the threaded source, a handler that runs between the check (line 65) and the publish (line 76) can change `linear_vel_` after the check. For example, a moveBackward that arrives after a forward check is published for one iteration, and its rear windows were never inspected.
- The throttled warning (line 70) and `displayCurrentSpeeds` are not modelled; they are console output only, and the body of `displayCurrentSpeeds` is not part of this model.
- `getLaserScan` and `laserScanCallback` (and any locking they do) are not part of this model. The scan is a parameter.
- The commented-out Turtlebot variant of `checkSafety` (lines 252-312) is not modelled, because it is not compiled.
- `laser_safety_check_angle_` and `min_safety_impact_time_` are not modelled; they are initialised but never read.
- IEEE-754 rounding of `double` is not modelled; speeds and readings are `real`. In particular, twenty additions of 0.05 in `double` need not give exactly 1.0, so `CommandsAfterStopStayWithinMax` holds for exact arithmetic only.
- A fresh iteration on a scan too short for its check is excluded by the precondition `TickReadable`. A backward check on a non-empty scan shorter than 128 entries reads past the end of the vector, and so does any check on a non-empty scan shorter than 70 entries. That is undefined behaviour. Stale iterations and forward checks on scans of 70 to 127 entries are modelled.

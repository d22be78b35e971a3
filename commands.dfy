/** The user-intent state of the teleoperation arbiter and the nine command handlers
    that change it (SafeTeleop::moveForward ... SafeTeleop::decreaseAngularSpeed).
    Each handler is a function from the old state to the new one; `now` stands for
    ros::Time::now().toSec(). */
module Commands {

  /** Limits and increments, fixed in the constructor's initializer list. */
  const MaxLinearVel: real := 1.0
  const MaxAngularVel: real := 1.0
  const LinearVelIncrement: real := 0.05
  const AngularVelIncrement: real := 0.05

  /** The discrete intents the keyboard side can deliver. */
  datatype Command =
    | MoveForward
    | MoveBackward
    | RotateClockwise
    | RotateCounterClockwise
    | Stop
    | IncreaseLinearSpeed
    | DecreaseLinearSpeed
    | IncreaseAngularSpeed
    | DecreaseAngularSpeed

  /** The five fields the handlers and the control loop share: the dialled-in speed
      magnitudes, the signed velocities to publish, and the time of the last command. */
  datatype Velocities = Velocities(
    linearSpeed: real,
    angularSpeed: real,
    linearVel: real,
    angularVel: real,
    lastCommandTimestamp: real)

  function Abs(x: real): (r: real)
    ensures r >= 0.0 && (r == x || r == -x)
  {
    if x < 0.0 then -x else x
  }

  /** The effect of one handler. */
  function Apply(s: Velocities, c: Command, now: real): (r: Velocities)
  {
    match c
    case MoveForward =>
      s.(linearVel := if s.linearSpeed < 0.0 then -s.linearSpeed else s.linearSpeed,
         angularVel := 0.0, lastCommandTimestamp := now)
    case MoveBackward =>
      s.(linearVel := if s.linearSpeed > 0.0 then -s.linearSpeed else s.linearSpeed,
         angularVel := 0.0, lastCommandTimestamp := now)
    case RotateClockwise =>
      s.(angularVel := if s.angularSpeed < 0.0 then -s.angularSpeed else s.angularSpeed,
         linearVel := 0.0, lastCommandTimestamp := now)
    case RotateCounterClockwise =>
      s.(angularVel := if s.angularSpeed > 0.0 then -s.angularSpeed else s.angularSpeed,
         linearVel := 0.0, lastCommandTimestamp := now)
    case Stop =>
      Velocities(0.0, 0.0, 0.0, 0.0, now)
    case IncreaseLinearSpeed =>
      s.(linearSpeed := if s.linearSpeed < MaxLinearVel then s.linearSpeed + LinearVelIncrement
                        else MaxLinearVel,
         lastCommandTimestamp := now)
    case DecreaseLinearSpeed =>
      s.(linearSpeed := if s.linearSpeed >= LinearVelIncrement then s.linearSpeed - LinearVelIncrement
                        else 0.0,
         lastCommandTimestamp := now)
    case IncreaseAngularSpeed =>
      // as written: the overflow branch assigns the linear speed, not the angular one
      if s.angularSpeed < MaxAngularVel then
        s.(angularSpeed := s.angularSpeed + AngularVelIncrement, lastCommandTimestamp := now)
      else
        s.(linearSpeed := MaxLinearVel, lastCommandTimestamp := now)
    case DecreaseAngularSpeed =>
      s.(angularSpeed := if s.angularSpeed >= AngularVelIncrement then s.angularSpeed - AngularVelIncrement
                         else 0.0,
         lastCommandTimestamp := now)
  }

  /** Every handler stamps the command time. */
  lemma EveryCommandStamps(s: Velocities, c: Command, now: real)
    ensures Apply(s, c, now).lastCommandTimestamp == now
  {
  }

  /** The direction handlers: the velocity in the chosen sense gets the magnitude of
      the dialled-in speed and the other velocity is zeroed (no arc motion); the
      speeds themselves are left alone. */
  lemma DirectionCommands(s: Velocities, now: real)
    ensures var r := Apply(s, MoveForward, now);
      r.linearVel == Abs(s.linearSpeed) && r.angularVel == 0.0 &&
      r.linearSpeed == s.linearSpeed && r.angularSpeed == s.angularSpeed
    ensures var r := Apply(s, MoveBackward, now);
      r.linearVel == -Abs(s.linearSpeed) && r.angularVel == 0.0 &&
      r.linearSpeed == s.linearSpeed && r.angularSpeed == s.angularSpeed
    ensures var r := Apply(s, RotateClockwise, now);
      r.angularVel == Abs(s.angularSpeed) && r.linearVel == 0.0 &&
      r.linearSpeed == s.linearSpeed && r.angularSpeed == s.angularSpeed
    ensures var r := Apply(s, RotateCounterClockwise, now);
      r.angularVel == -Abs(s.angularSpeed) && r.linearVel == 0.0 &&
      r.linearSpeed == s.linearSpeed && r.angularSpeed == s.angularSpeed
  {
  }

  /** stop is a full reset, whatever the prior state. */
  lemma StopResets(s: Velocities, now: real)
    ensures var r := Apply(s, Stop, now);
      r.linearSpeed == 0.0 && r.angularSpeed == 0.0 &&
      r.linearVel == 0.0 && r.angularVel == 0.0 && r.lastCommandTimestamp == now
  {
  }

  /** The four speed handlers never touch the velocities: a new speed only takes
      effect at the next direction command. */
  lemma SpeedCommandsKeepVelocities(s: Velocities, c: Command, now: real)
    requires c.IncreaseLinearSpeed? || c.DecreaseLinearSpeed? ||
             c.IncreaseAngularSpeed? || c.DecreaseAngularSpeed?
    ensures Apply(s, c, now).linearVel == s.linearVel
    ensures Apply(s, c, now).angularVel == s.angularVel
  {
  }

  /** decreaseLinearSpeed / decreaseAngularSpeed never leave a negative speed, from
      any prior state, and never raise a non-negative one. */
  lemma DecreaseFloorsAtZero(s: Velocities, now: real)
    ensures var r := Apply(s, DecreaseLinearSpeed, now);
      r.linearSpeed >= 0.0 && r.angularSpeed == s.angularSpeed &&
      (s.linearSpeed >= 0.0 ==> r.linearSpeed <= s.linearSpeed)
    ensures var r := Apply(s, DecreaseAngularSpeed, now);
      r.angularSpeed >= 0.0 && r.linearSpeed == s.linearSpeed &&
      (s.angularSpeed >= 0.0 ==> r.angularSpeed <= s.angularSpeed)
  {
  }

  /** increaseLinearSpeed from a speed not above the maximum stays below maximum plus
      one increment, and a second call once at or above the maximum clamps back to it. */
  lemma IncreaseLinearOvershootThenClamp(s: Velocities, now: real)
    requires s.linearSpeed <= MaxLinearVel
    ensures var r1 := Apply(s, IncreaseLinearSpeed, now);
      r1.linearSpeed < MaxLinearVel + LinearVelIncrement &&
      (r1.linearSpeed >= MaxLinearVel ==>
         Apply(r1, IncreaseLinearSpeed, now).linearSpeed == MaxLinearVel)
  {
  }

  /** The overshoot is real: from 0.98 one increase yields 1.03, above the maximum. */
  lemma IncreaseLinearCanOvershoot(s: Velocities, now: real)
    requires s.linearSpeed == 0.98
    ensures Apply(s, IncreaseLinearSpeed, now).linearSpeed == 1.03 > MaxLinearVel
  {
  }

  /** increaseAngularSpeed at or above the angular maximum leaves the angular speed
      where it is and sets the linear speed to its maximum instead. */
  lemma IncreaseAngularOverflowSetsLinear(s: Velocities, now: real)
    requires s.angularSpeed >= MaxAngularVel
    ensures var r := Apply(s, IncreaseAngularSpeed, now);
      r.angularSpeed == s.angularSpeed && r.linearSpeed == MaxLinearVel &&
      r.linearVel == s.linearVel && r.angularVel == s.angularVel
  {
  }

  /** The state the handlers keep, from any start inside it: speeds non-negative and
      below maximum plus one increment, velocities no larger in magnitude, and never
      both velocities non-zero (no arc movement). */
  ghost predicate Bounded(s: Velocities) {
    0.0 <= s.linearSpeed < MaxLinearVel + LinearVelIncrement &&
    0.0 <= s.angularSpeed < MaxAngularVel + AngularVelIncrement &&
    Abs(s.linearVel) < MaxLinearVel + LinearVelIncrement &&
    Abs(s.angularVel) < MaxAngularVel + AngularVelIncrement &&
    (s.linearVel == 0.0 || s.angularVel == 0.0)
  }

  lemma ApplyPreservesBounded(s: Velocities, c: Command, now: real)
    requires Bounded(s)
    ensures Bounded(Apply(s, c, now))
  {
  }

  /** The speeds reachable from a stop: whole multiples of the increment, up to the maximum. */
  function LinearGrid(k: nat): real {
    k as real * LinearVelIncrement
  }

  function AngularGrid(k: nat): real {
    k as real * AngularVelIncrement
  }

  const GridSteps: nat := 20

  ghost predicate OnGrid(s: Velocities) {
    (exists k: nat :: k <= GridSteps && LinearGrid(k) == s.linearSpeed) &&
    (exists k: nat :: k <= GridSteps && AngularGrid(k) == s.angularSpeed)
  }

  /** On the grid the speeds stay within [0, maximum]: the overshoot cannot happen. */
  lemma OnGridWithinMax(s: Velocities)
    requires OnGrid(s)
    ensures 0.0 <= s.linearSpeed <= MaxLinearVel
    ensures 0.0 <= s.angularSpeed <= MaxAngularVel
  {
    var k: nat :| k <= GridSteps && LinearGrid(k) == s.linearSpeed;
    var j: nat :| j <= GridSteps && AngularGrid(j) == s.angularSpeed;
  }

  /** Every handler keeps the speeds on the grid (in exact arithmetic). */
  lemma ApplyKeepsGrid(s: Velocities, c: Command, now: real)
    requires OnGrid(s)
    ensures OnGrid(Apply(s, c, now))
  {
    var k: nat :| k <= GridSteps && LinearGrid(k) == s.linearSpeed;
    var j: nat :| j <= GridSteps && AngularGrid(j) == s.angularSpeed;
    var r := Apply(s, c, now);
    match c
    case Stop =>
      assert LinearGrid(0) == r.linearSpeed && AngularGrid(0) == r.angularSpeed;
    case IncreaseLinearSpeed =>
      var k' := if k < GridSteps then k + 1 else GridSteps;
      assert LinearGrid(k') == r.linearSpeed && AngularGrid(j) == r.angularSpeed;
    case DecreaseLinearSpeed =>
      var k' := if k >= 1 then k - 1 else 0;
      assert LinearGrid(k') == r.linearSpeed && AngularGrid(j) == r.angularSpeed;
    case IncreaseAngularSpeed =>
      if j < GridSteps {
        assert LinearGrid(k) == r.linearSpeed && AngularGrid(j + 1) == r.angularSpeed;
      } else {
        assert LinearGrid(GridSteps) == r.linearSpeed && AngularGrid(j) == r.angularSpeed;
      }
    case DecreaseAngularSpeed =>
      var j' := if j >= 1 then j - 1 else 0;
      assert LinearGrid(k) == r.linearSpeed && AngularGrid(j') == r.angularSpeed;
    case _ =>
      assert LinearGrid(k) == r.linearSpeed && AngularGrid(j) == r.angularSpeed;
  }

  /** The state after stop is on the grid. */
  lemma StopOnGrid(s: Velocities, now: real)
    ensures OnGrid(Apply(s, Stop, now))
  {
    assert LinearGrid(0) == 0.0 && AngularGrid(0) == 0.0;
  }

  /** Applying a sequence of handlers in order. */
  function ApplyAll(s: Velocities, cs: seq<Command>, now: real): Velocities
    decreases |cs|
  {
    if cs == [] then s else ApplyAll(Apply(s, cs[0], now), cs[1..], now)
  }

  /** After a stop, no sequence of commands (in particular no number of
      increaseLinearSpeed calls) takes either speed above its maximum or below zero. */
  lemma {:induction false} CommandsAfterStopStayWithinMax(s: Velocities, cs: seq<Command>, now: real)
    requires OnGrid(s)
    ensures OnGrid(ApplyAll(s, cs, now))
    ensures 0.0 <= ApplyAll(s, cs, now).linearSpeed <= MaxLinearVel
    ensures 0.0 <= ApplyAll(s, cs, now).angularSpeed <= MaxAngularVel
    decreases |cs|
  {
    if cs != [] {
      ApplyKeepsGrid(s, cs[0], now);
      CommandsAfterStopStayWithinMax(Apply(s, cs[0], now), cs[1..], now);
    } else {
      OnGridWithinMax(s);
    }
  }

  /** With speed 0.3 dialled in, moveForward then moveBackward
      commands -0.3 and no rotation. */
  lemma ForwardThenBackward(s: Velocities, t1: real, t2: real)
    requires s.linearSpeed == 0.3
    ensures var r := Apply(Apply(s, MoveForward, t1), MoveBackward, t2);
      r.linearVel == -0.3 && r.angularVel == 0.0 && r.linearSpeed == 0.3
  {
  }
}

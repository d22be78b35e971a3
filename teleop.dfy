/** The arbiter object SafeTeleop: its fields, the command handlers as methods that
    update them, one iteration of the 10 Hz control loop (run), and a sequential
    run of interleaved commands and loop iterations that ends with the destructor's
    final zero command. */
module Teleop {
  import opened Safety
  import C = Commands

  /** max_cmd_vel_age_: a command older than this many seconds is stale. */
  const MaxCmdVelAge: real := 1.0

  /** One published geometry_msgs::Twist: linear.x and angular.z. */
  datatype Twist = Twist(linear: real, angular: real)

  /** What reaches the arbiter, in order: a command handler call at time `at`, or a
      loop iteration at time `at` that sees the latest scan. */
  datatype Event =
    | Cmd(cmd: C.Command, at: real)
    | Iteration(at: real, scan: seq<real>)

  predicate Stale(s: C.Velocities, now: real) {
    now - s.lastCommandTimestamp > MaxCmdVelAge
  }

  /** What an iteration demands of the scan: a stale iteration does not look at it;
      a fresh one runs the check for the stored linear velocity. */
  predicate TickReadable(s: C.Velocities, now: real, scan: seq<real>) {
    !Stale(s, now) ==> Readable(s.linearVel, scan)
  }

  /** The stored state after one loop iteration. */
  function TickState(s: C.Velocities, now: real, scan: seq<real>): (r: C.Velocities)
    requires TickReadable(s, now, scan)
  {
    if Stale(s, now) then s.(linearVel := 0.0, angularVel := 0.0)
    else if !IsSafe(s.linearVel, scan) then s.(linearVel := 0.0)
    else s
  }

  function Published(s: C.Velocities): Twist {
    Twist(s.linearVel, s.angularVel)
  }

  predicate CanStep(s: C.Velocities, e: Event) {
    e.Iteration? ==> TickReadable(s, e.at, e.scan)
  }

  function Step(s: C.Velocities, e: Event): (r: C.Velocities)
    requires CanStep(s, e)
  {
    match e
    case Cmd(c, at) => C.Apply(s, c, at)
    case Iteration(at, scan) => TickState(s, at, scan)
  }

  /** Every iteration of the run, in the state it meets, can read its scan. */
  predicate Admissible(s: C.Velocities, events: seq<Event>)
    decreases |events|
  {
    events == [] || (CanStep(s, events[0]) && Admissible(Step(s, events[0]), events[1..]))
  }

  /** The state after a sequence of events. */
  function Final(s: C.Velocities, events: seq<Event>): (r: C.Velocities)
    requires Admissible(s, events)
    decreases |events|
  {
    if events == [] then s else Final(Step(s, events[0]), events[1..])
  }

  /** The commands the loop publishes during a sequence of events, one per iteration. */
  function Output(s: C.Velocities, events: seq<Event>): (out: seq<Twist>)
    requires Admissible(s, events)
    decreases |events|
  {
    if events == [] then []
    else
      var s' := Step(s, events[0]);
      (if events[0].Iteration? then [Published(s')] else []) + Output(s', events[1..])
  }

  function TickCount(events: seq<Event>): nat {
    if events == [] then 0 else (if events[0].Iteration? then 1 else 0) + TickCount(events[1..])
  }

  /** Runs whose scans are all empty or of the scanner's full 128 entries are
      admissible from any state. */
  lemma {:induction false} FullScansAdmissible(s: C.Velocities, events: seq<Event>)
    requires forall i :: 0 <= i < |events| ==> (events[i].Iteration? ==> WellSized(events[i].scan))
    ensures Admissible(s, events)
    decreases |events|
  {
    if events != [] {
      assert events[0].Iteration? ==> WellSized(events[0].scan);
      forall i | 0 <= i < |events[1..]|
        ensures events[1..][i].Iteration? ==> WellSized(events[1..][i].scan)
      {
        assert events[1..][i] == events[i + 1];
      }
      FullScansAdmissible(Step(s, events[0]), events[1..]);
    }
  }

  /** A stale command: both velocities are zeroed and (0, 0) is published whatever
      the scan (it is not read); the speeds and the timestamp are kept, so a new
      direction command resumes at the dialled-in speed. */
  lemma TickWhenStale(s: C.Velocities, now: real, scan: seq<real>)
    requires Stale(s, now)
    ensures var r := TickState(s, now, scan);
      r.linearVel == 0.0 && r.angularVel == 0.0 && Published(r) == Twist(0.0, 0.0) &&
      r.linearSpeed == s.linearSpeed && r.angularSpeed == s.angularSpeed &&
      r.lastCommandTimestamp == s.lastCommandTimestamp
  {
  }

  /** A fresh command: rotation always passes through, and the linear velocity is
      vetoed exactly when the check on it fails; nothing else changes. */
  lemma TickWhenFresh(s: C.Velocities, now: real, scan: seq<real>)
    requires Readable(s.linearVel, scan) && !Stale(s, now)
    ensures var r := TickState(s, now, scan);
      r.angularVel == s.angularVel &&
      (r.linearVel == s.linearVel <==> (IsSafe(s.linearVel, scan) || s.linearVel == 0.0)) &&
      (r.linearVel != s.linearVel ==> r.linearVel == 0.0) &&
      r.linearSpeed == s.linearSpeed && r.angularSpeed == s.angularSpeed &&
      r.lastCommandTimestamp == s.lastCommandTimestamp
  {
  }

  /** The safety guarantee of a single iteration: a published non-zero linear
      velocity passed the obstacle check for its own direction and comes from a fresh
      command; published rotation comes from a fresh command. */
  lemma TickPublishesOnlySafeMotion(s: C.Velocities, now: real, scan: seq<real>)
    requires TickReadable(s, now, scan)
    ensures var out := Published(TickState(s, now, scan));
      (out.linear != 0.0 ==> Readable(out.linear, scan) && IsSafe(out.linear, scan) &&
                             !Stale(s, now) && |scan| != 0) &&
      (out.angular != 0.0 ==> !Stale(s, now))
  {
  }

  /** A second iteration at the same time on the same scan changes nothing more. */
  lemma TickIdempotent(s: C.Velocities, now: real, scan: seq<real>)
    requires TickReadable(s, now, scan)
    ensures TickReadable(TickState(s, now, scan), now, scan)
    ensures TickState(TickState(s, now, scan), now, scan) == TickState(s, now, scan)
  {
  }

  lemma TickPreservesBounded(s: C.Velocities, now: real, scan: seq<real>)
    requires TickReadable(s, now, scan) && C.Bounded(s)
    ensures C.Bounded(TickState(s, now, scan))
  {
  }

  /** Exactly one command is published per loop iteration. */
  lemma {:induction false} OneOutputPerTick(s: C.Velocities, events: seq<Event>)
    requires Admissible(s, events)
    ensures |Output(s, events)| == TickCount(events)
    decreases |events|
  {
    if events != [] {
      OneOutputPerTick(Step(s, events[0]), events[1..]);
    }
  }

  /** The handlers and the loop together keep the bounded state (speeds below
      maximum plus one increment, no arc movement) over any run. */
  lemma {:induction false} RunPreservesBounded(s: C.Velocities, events: seq<Event>)
    requires Admissible(s, events) && C.Bounded(s)
    ensures C.Bounded(Final(s, events))
    decreases |events|
  {
    if events != [] {
      match events[0] {
        case Cmd(c, at) => C.ApplyPreservesBounded(s, c, at);
        case Iteration(at, scan) => TickPreservesBounded(s, at, scan);
      }
      RunPreservesBounded(Step(s, events[0]), events[1..]);
    }
  }

  /** A forward command followed, within the command age, by an iteration whose
      forward window holds a 0.3 m reading publishes (0, 0); the same iteration on a
      clear 2.0 m scan publishes the dialled-in speed. */
  lemma ObstacleScenario(s: C.Velocities, t: real)
    requires s.linearSpeed == 0.3
    ensures var blocked := seq(ScanSize, i => if ForwardLo <= i < ForwardHi then 0.3 else 2.0);
      var clear := seq(ScanSize, i => 2.0);
      var moving := C.Apply(s, C.MoveForward, t);
      Published(TickState(moving, t, blocked)) == Twist(0.0, 0.0) &&
      Published(TickState(moving, t, clear)) == Twist(0.3, 0.0)
  {
    var blocked := seq(ScanSize, i => if ForwardLo <= i < ForwardHi then 0.3 else 2.0);
    assert blocked[ForwardLo] == 0.3;
  }

  /** The veto latches: it zeroes the stored linear velocity, so once the obstacle
      has cleared the next iteration still publishes (0, 0); motion resumes only at
      the next direction command. */
  lemma VetoLatches(s: C.Velocities, t: real)
    requires s.linearSpeed == 0.3
    ensures var blocked := seq(ScanSize, i => if ForwardLo <= i < ForwardHi then 0.3 else 2.0);
      var clear := seq(ScanSize, i => 2.0);
      var vetoed := TickState(C.Apply(s, C.MoveForward, t), t, blocked);
      Published(TickState(vetoed, t + 0.1, clear)) == Twist(0.0, 0.0) &&
      Published(TickState(C.Apply(vetoed, C.MoveForward, t + 0.2), t + 0.2, clear)) == Twist(0.3, 0.0)
  {
    var blocked := seq(ScanSize, i => if ForwardLo <= i < ForwardHi then 0.3 else 2.0);
    assert blocked[ForwardLo] == 0.3;
  }

  /** No command for longer than the command age after moving forward: (0, 0) is
      published while the speed is kept, and a new forward command resumes at it. */
  lemma StaleThenResume(s: C.Velocities, t: real, scan: seq<real>)
    requires s.linearSpeed == 0.3
    ensures var idle := TickState(C.Apply(s, C.MoveForward, t), t + 1.5, scan);
      Published(idle) == Twist(0.0, 0.0) && idle.linearSpeed == 0.3 &&
      C.Apply(idle, C.MoveForward, t + 1.6).linearVel == 0.3
  {
  }

  /** The arbiter object: the five fields the handlers and the loop share. */
  class SafeTeleop {
    var linearSpeed: real
    var angularSpeed: real
    var linearVel: real
    var angularVel: real
    var lastCommandTimestamp: real

    function State(): C.Velocities
      reads this
    {
      C.Velocities(linearSpeed, angularSpeed, linearVel, angularVel, lastCommandTimestamp)
    }

    /** The two speeds are not in the constructor's initializer list; they are given here. */
    constructor (initialLinearSpeed: real, initialAngularSpeed: real)
      ensures State() == C.Velocities(initialLinearSpeed, initialAngularSpeed, 0.0, 0.0, 0.0)
    {
      linearSpeed := initialLinearSpeed;
      angularSpeed := initialAngularSpeed;
      linearVel := 0.0;
      angularVel := 0.0;
      lastCommandTimestamp := 0.0;
    }

    method MoveForward(now: real)
      modifies this
      ensures State() == C.Apply(old(State()), C.MoveForward, now)
    {
      if linearSpeed < 0.0 {
        linearVel := -1.0 * linearSpeed;
      } else {
        linearVel := linearSpeed;
      }
      angularVel := 0.0;
      lastCommandTimestamp := now;
    }

    method MoveBackward(now: real)
      modifies this
      ensures State() == C.Apply(old(State()), C.MoveBackward, now)
    {
      if linearSpeed > 0.0 {
        linearVel := -1.0 * linearSpeed;
      } else {
        linearVel := linearSpeed;
      }
      angularVel := 0.0;
      lastCommandTimestamp := now;
    }

    method RotateClockwise(now: real)
      modifies this
      ensures State() == C.Apply(old(State()), C.RotateClockwise, now)
    {
      if angularSpeed < 0.0 {
        angularVel := -1.0 * angularSpeed;
      } else {
        angularVel := angularSpeed;
      }
      linearVel := 0.0;
      lastCommandTimestamp := now;
    }

    method RotateCounterClockwise(now: real)
      modifies this
      ensures State() == C.Apply(old(State()), C.RotateCounterClockwise, now)
    {
      if angularSpeed > 0.0 {
        angularVel := -1.0 * angularSpeed;
      } else {
        angularVel := angularSpeed;
      }
      linearVel := 0.0;
      lastCommandTimestamp := now;
    }

    method Stop(now: real)
      modifies this
      ensures State() == C.Apply(old(State()), C.Stop, now)
    {
      linearSpeed := 0.0;
      angularSpeed := 0.0;
      linearVel := linearSpeed;
      angularVel := angularSpeed;
      lastCommandTimestamp := now;
    }

    method IncreaseLinearSpeed(now: real)
      modifies this
      ensures State() == C.Apply(old(State()), C.IncreaseLinearSpeed, now)
    {
      if linearSpeed < C.MaxLinearVel {
        linearSpeed := linearSpeed + C.LinearVelIncrement;
      } else {
        linearSpeed := C.MaxLinearVel;
      }
      lastCommandTimestamp := now;
    }

    method DecreaseLinearSpeed(now: real)
      modifies this
      ensures State() == C.Apply(old(State()), C.DecreaseLinearSpeed, now)
    {
      if linearSpeed >= C.LinearVelIncrement {
        linearSpeed := linearSpeed - C.LinearVelIncrement;
      } else {
        linearSpeed := 0.0;
      }
      lastCommandTimestamp := now;
    }

    method IncreaseAngularSpeed(now: real)
      modifies this
      ensures State() == C.Apply(old(State()), C.IncreaseAngularSpeed, now)
    {
      if angularSpeed < C.MaxAngularVel {
        angularSpeed := angularSpeed + C.AngularVelIncrement;
      } else {
        linearSpeed := C.MaxLinearVel;
      }
      lastCommandTimestamp := now;
    }

    method DecreaseAngularSpeed(now: real)
      modifies this
      ensures State() == C.Apply(old(State()), C.DecreaseAngularSpeed, now)
    {
      if angularSpeed >= C.AngularVelIncrement {
        angularSpeed := angularSpeed - C.AngularVelIncrement;
      } else {
        angularSpeed := 0.0;
      }
      lastCommandTimestamp := now;
    }

    /** Dispatches one command to its handler. */
    method Handle(c: C.Command, now: real)
      modifies this
      ensures State() == C.Apply(old(State()), c, now)
    {
      match c
      case MoveForward => MoveForward(now);
      case MoveBackward => MoveBackward(now);
      case RotateClockwise => RotateClockwise(now);
      case RotateCounterClockwise => RotateCounterClockwise(now);
      case Stop => Stop(now);
      case IncreaseLinearSpeed => IncreaseLinearSpeed(now);
      case DecreaseLinearSpeed => DecreaseLinearSpeed(now);
      case IncreaseAngularSpeed => IncreaseAngularSpeed(now);
      case DecreaseAngularSpeed => DecreaseAngularSpeed(now);
    }

    /** One iteration of the control loop: the staleness policy, the obstacle veto,
        and the one command published. */
    method Tick(now: real, scan: seq<real>) returns (cmd: Twist)
      requires TickReadable(State(), now, scan)
      modifies this
      ensures State() == TickState(old(State()), now, scan)
      ensures cmd == Published(State())
    {
      var lastCmdVelAge := now - lastCommandTimestamp;
      if lastCmdVelAge > MaxCmdVelAge {
        linearVel := 0.0;
        angularVel := 0.0;
      } else {
        var isSafe := CheckSafety(linearVel, scan);
        if !isSafe {
          linearVel := 0.0;
        }
      }
      cmd := Twist(linearVel, angularVel);
    }

    /** A whole session: the events in order, then the destructor's final (0, 0). */
    method Operate(events: seq<Event>) returns (out: seq<Twist>)
      requires Admissible(State(), events)
      modifies this
      ensures State() == Final(old(State()), events)
      ensures out == Output(old(State()), events) + [Twist(0.0, 0.0)]
    {
      ghost var s0 := State();
      out := [];
      var n := 0;
      while n < |events|
        invariant 0 <= n <= |events|
        invariant Admissible(State(), events[n..])
        invariant Final(s0, events) == Final(State(), events[n..])
        invariant Output(s0, events) == out + Output(State(), events[n..])
      {
        var e := events[n];
        assert events[n..][0] == e && events[n..][1..] == events[n + 1..];
        match e {
          case Cmd(c, at) =>
            Handle(c, at);
          case Iteration(at, scan) =>
            var cmd := Tick(at, scan);
            out := out + [cmd];
        }
        n := n + 1;
      }
      out := out + [Twist(0.0, 0.0)];
    }
  }
}

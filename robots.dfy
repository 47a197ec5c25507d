/** The robot state machine: the physics step toward a target, task hand-over and
    task completion.  Each operation is a function on a value snapshot of a robot
    (RobotState) and a method of class Robot that updates the fields in place and
    is specified by that function. */
module Robots {
  import opened Geometry

  datatype Option<T> = None | Some(value: T)

  datatype RobotStatus = Idle | Moving | Working | Charging | Maintenance

  datatype TaskType = Pickup | Delivery | Inspection | Cleaning

  /** A work item.  `assignedRobot` is filled in when a robot takes the task over.
      The creation timestamp is a wall-clock read and is not modelled. */
  datatype Task = Task(id: string, taskType: TaskType, startPos: Position, endPos: Position,
                       priority: int, estimatedDuration: real, assignedRobot: Option<string>)

  /** Battery level below or at which a robot refuses to move. */
  const LowBattery: real := 5.0
  /** Distance below which a robot counts as having reached its target. */
  const ArrivalTolerance: real := 0.5
  /** Battery units drained per unit of distance moved. */
  const DrainRate: real := 0.1
  /** Speed of a newly built robot. */
  const DefaultSpeed: real := 2.0

  /** Everything the core reads or writes of one robot. */
  datatype RobotState = RobotState(
    id: string,
    position: Position,
    status: RobotStatus,
    battery: real,
    maxBattery: real,
    speed: real,
    currentTask: Option<Task>,
    targetPosition: Option<Position>,
    totalDistance: real,
    tasksCompleted: nat)

  /** The outcome of one physics step: the new state and whether the target was reached. */
  datatype Step = Step(state: RobotState, arrived: bool)

  function InitialState(id: string, pos: Position, maxBattery: real): RobotState
  {
    RobotState(id, pos, Idle, maxBattery, maxBattery, DefaultSpeed, None, None, 0.0, 0)
  }

  predicate BatteryInRange(s: RobotState)
  {
    0.0 <= s.battery <= s.maxBattery
  }

  /** One call of the physics step toward `target` over `dt` seconds.  The battery
      test comes first, then the arrival test, then the move itself. */
  function Move(s: RobotState, target: Position, dt: real, dist: Metric): Step
  {
    if s.battery <= LowBattery then
      Step(s.(status := Charging), false)
    else
      var d := dist(s.position, target);
      if d < ArrivalTolerance then
        Step(s.(position := target), true)
      else
        Step(Stride(s, target, dt, d), false)
  }

  /** The move itself, `d` being the distance to `target`: the robot covers
      m = min(speed * dt, d) units toward it, adds m to its odometer and drains
      its battery for m units. */
  function Stride(s: RobotState, target: Position, dt: real, d: real): RobotState
    requires d > 0.0
  {
    var m := Min(s.speed * dt, d);
    s.(position := Advance(s.position, target, d, m),
       totalDistance := s.totalDistance + m,
       battery := Drain(s.battery, m))
  }

  /** The battery left after moving `m` units: 0.1 per unit, never below zero. */
  function Drain(battery: real, m: real): real
  {
    Max(0.0, battery - m * DrainRate)
  }

  /** Hands `t` over to the robot: it owns the task, heads for its start position
      and the task records the robot's id. */
  function Assign(s: RobotState, t: Task): RobotState
  {
    s.(currentTask := Some(t.(assignedRobot := Some(s.id))),
       status := Moving,
       targetPosition := Some(t.startPos))
  }

  /** Completes the current task, if there is one; otherwise nothing changes. */
  function Complete(s: RobotState): RobotState
  {
    if s.currentTask.Some? then
      s.(tasksCompleted := s.tasksCompleted + 1, currentTask := None,
         status := Idle, targetPosition := None)
    else s
  }

  /** The fields a physics step never touches. */
  predicate SameIdentity(s: RobotState, r: RobotState)
  {
    r.id == s.id && r.maxBattery == s.maxBattery && r.speed == s.speed &&
    r.currentTask == s.currentTask && r.targetPosition == s.targetPosition &&
    r.tasksCompleted == s.tasksCompleted
  }

  // ---------------------------------------------------------------------------
  // Properties of the physics step

  /** With battery at or below 5 the robot switches to Charging and does not move. */
  lemma MoveLowBattery(s: RobotState, target: Position, dt: real, dist: Metric)
    requires s.battery <= LowBattery
    ensures var st := Move(s, target, dt, dist);
      !st.arrived && st.state.status == Charging &&
      st.state.position == s.position && st.state.battery == s.battery &&
      st.state.totalDistance == s.totalDistance && SameIdentity(s, st.state)
  {
  }

  /** Close enough to the target, the robot snaps exactly onto it; nothing else changes. */
  lemma MoveSnap(s: RobotState, target: Position, dt: real, dist: Metric)
    requires s.battery > LowBattery && dist(s.position, target) < ArrivalTolerance
    ensures var st := Move(s, target, dt, dist);
      st.arrived && st.state.position == target && st.state.status == s.status &&
      st.state.battery == s.battery && st.state.totalDistance == s.totalDistance &&
      SameIdentity(s, st.state)
  {
  }

  /** Otherwise the robot covers m = min(speed * dt, distance) units, at most the
      distance; the odometer grows by exactly m and the battery drops by 0.1 * m,
      never below zero. */
  lemma MoveStep(s: RobotState, target: Position, dt: real, dist: Metric)
    requires s.battery > LowBattery && dist(s.position, target) >= ArrivalTolerance
    ensures var st := Move(s, target, dt, dist);
      var m := st.state.totalDistance - s.totalDistance;
      !st.arrived && st.state.status == s.status &&
      m <= dist(s.position, target) && (m == s.speed * dt || m == dist(s.position, target)) &&
      m <= s.speed * dt &&
      st.state.battery == Max(0.0, s.battery - m * DrainRate) && st.state.battery >= 0.0 &&
      SameIdentity(s, st.state)
  {
  }

  /** The step reports arrival exactly when the battery allows moving and the robot
      is within the arrival tolerance; on arrival it stands on the target. */
  lemma MoveArrivedIff(s: RobotState, target: Position, dt: real, dist: Metric)
    ensures var st := Move(s, target, dt, dist);
      (st.arrived <==> s.battery > LowBattery && dist(s.position, target) < ArrivalTolerance) &&
      (st.arrived ==> st.state.position == target)
  {
  }

  /** With a non-negative speed and time step, a step keeps the battery within
      [0, maxBattery] and never raises it. */
  lemma MoveKeepsBatteryInRange(s: RobotState, target: Position, dt: real, dist: Metric)
    requires BatteryInRange(s) && s.speed >= 0.0 && dt >= 0.0
    ensures var r := Move(s, target, dt, dist).state;
      BatteryInRange(r) && r.battery <= s.battery && r.totalDistance >= s.totalDistance
  {
    var d := dist(s.position, target);
    if s.battery > LowBattery && d >= ArrivalTolerance {
      var m := Min(s.speed * dt, d);
      assert m >= 0.0;
      assert s.battery - m * DrainRate <= s.battery;
    }
  }

  /** When the whole remaining distance fits in one step, the robot lands exactly on
      the target, and (if the battery still allows moving) the next step reports
      arrival. */
  lemma MoveReachesTarget(s: RobotState, target: Position, dt: real, dist: Metric)
    requires s.battery > LowBattery
    requires dist(s.position, target) >= ArrivalTolerance
    requires s.speed * dt >= dist(s.position, target)
    ensures var r := Move(s, target, dt, dist).state;
      r.position == target &&
      (r.battery > LowBattery ==> Move(r, target, dt, dist) == Step(r, true))
  {
    var d := dist(s.position, target);
    assert Min(s.speed * dt, d) == d;
    var r := Move(s, target, dt, dist).state;
    assert r.position == target;
    assert dist(r.position, target) == 0.0;
  }

  // ---------------------------------------------------------------------------
  // Properties of hand-over and completion

  /** Taking a task over makes the robot Moving toward the task's start, holding
      the task stamped with its own id; position, battery and counters are kept. */
  lemma AssignTaskEffect(s: RobotState, t: Task)
    ensures var r := Assign(s, t);
      r.status == Moving && r.targetPosition == Some(t.startPos) &&
      r.currentTask.Some? && r.currentTask.value.assignedRobot == Some(s.id) &&
      r.currentTask.value.(assignedRobot := t.assignedRobot) == t &&
      r.position == s.position && r.battery == s.battery &&
      r.tasksCompleted == s.tasksCompleted && r.totalDistance == s.totalDistance &&
      r.id == s.id && r.maxBattery == s.maxBattery && r.speed == s.speed
  {
  }

  /** Completing a held task counts it exactly once and leaves the robot Idle with
      neither task nor target; without a task nothing changes. */
  lemma CompleteEffect(s: RobotState)
    ensures var r := Complete(s);
      if s.currentTask.Some? then
        r.tasksCompleted == s.tasksCompleted + 1 && r.currentTask.None? &&
        r.targetPosition.None? && r.status == Idle &&
        r.position == s.position && r.battery == s.battery &&
        r.totalDistance == s.totalDistance && r.id == s.id &&
        r.maxBattery == s.maxBattery && r.speed == s.speed
      else r == s
  {
  }

  /** A robot updated in place.  Its fields are those of the source's Robot; the
      unused planned path and the maintenance timestamp are not modelled. */
  class Robot {
    const id: string
    const maxBattery: real
    var position: Position
    var status: RobotStatus
    var battery: real
    var speed: real
    var currentTask: Option<Task>
    var targetPosition: Option<Position>
    var totalDistance: real
    var tasksCompleted: nat

    /** The robot's current state as a value. */
    function State(): RobotState
      reads this
    {
      RobotState(id, position, status, battery, maxBattery, speed, currentTask,
                 targetPosition, totalDistance, tasksCompleted)
    }

    constructor (robotId: string, initialPos: Position, maxBattery: real := 100.0)
      ensures State() == InitialState(robotId, initialPos, maxBattery)
    {
      id := robotId;
      this.maxBattery := maxBattery;
      position := initialPos;
      status := Idle;
      battery := maxBattery;
      speed := DefaultSpeed;
      currentTask := None;
      targetPosition := None;
      totalDistance := 0.0;
      tasksCompleted := 0;
    }

    method MoveTowardsTarget(target: Position, dt: real, dist: Metric) returns (arrived: bool)
      modifies this
      ensures Step(State(), arrived) == Move(old(State()), target, dt, dist)
    {
      ghost var s := State();
      if battery <= LowBattery {
        status := Charging;
        return false;
      }
      var distance := dist(position, target);
      if distance < ArrivalTolerance {
        position := Position(target.x, target.y);
        return true;
      }
      var moveDistance := Min(speed * dt, distance);
      assert s.position == position && moveDistance == Min(s.speed * dt, distance);
      ghost var moved := Stride(s, target, dt, distance);
      assert Move(s, target, dt, dist) == Step(moved, false);
      assert moved.position == Advance(position, target, distance, moveDistance);
      assert moved.totalDistance == totalDistance + moveDistance;
      assert moved.battery == Drain(battery, moveDistance);
      position := Advance(position, target, distance, moveDistance);
      totalDistance := totalDistance + moveDistance;
      battery := Drain(battery, moveDistance);
      return false;
    }

    method AssignTask(task: Task)
      modifies this
      ensures State() == Assign(old(State()), task)
    {
      currentTask := Some(task.(assignedRobot := Some(id)));
      status := Moving;
      targetPosition := Some(task.startPos);
    }

    method CompleteCurrentTask()
      modifies this
      ensures State() == Complete(old(State()))
    {
      if currentTask.Some? {
        tasksCompleted := tasksCompleted + 1;
        currentTask := None;
        status := Idle;
        targetPosition := None;
      }
    }
  }

  /** The states of a list of robots, in list order. */
  function StatesOf(robots: seq<Robot>): (r: seq<RobotState>)
    reads robots
    ensures |r| == |robots|
  {
    seq(|robots|, i reads robots requires 0 <= i < |robots| => robots[i].State())
  }
}

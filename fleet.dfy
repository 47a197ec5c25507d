/** The fleet manager: one simulation tick (at most one dispatch, then a
    status-dependent update of every robot, then the fleet metrics), the read-only
    status snapshot, and the fleet-wide commands (emergency stop, speed scaling,
    send to charge). */
module Fleet {
  import opened Geometry
  import opened Robots
  import opened Scheduler

  /** Battery units gained per second at a charging station. */
  const ChargeRate: real := 20.0
  /** Fraction of the maximum battery at which charging ends. */
  const ChargedFraction: real := 0.9
  /** Battery below which "send all to charge" sends a robot. */
  const ChargeAllThreshold: real := 90.0
  /** The fixed charging stations of a fleet. */
  const DefaultStations: seq<Position> := [Position(5.0, 5.0), Position(45.0, 5.0), Position(25.0, 25.0)]

  // ---------------------------------------------------------------------------
  // The nearest charging station

  /** Python's `min(stations, key=distance)` scanned from index `i` on, with `best`
      the index of the first nearest station among those before `i`. */
  function NearestFrom(stations: seq<Position>, p: Position, dist: Metric, i: nat, best: nat): (k: nat)
    requires best < i <= |stations|
    requires forall j :: 0 <= j < i ==> dist(p, stations[best]) <= dist(p, stations[j])
    requires forall j :: 0 <= j < best ==> dist(p, stations[best]) < dist(p, stations[j])
    decreases |stations| - i
    ensures k < |stations|
    ensures forall j :: 0 <= j < |stations| ==> dist(p, stations[k]) <= dist(p, stations[j])
    ensures forall j :: 0 <= j < k ==> dist(p, stations[k]) < dist(p, stations[j])
  {
    if i == |stations| then best
    else NearestFrom(stations, p, dist, i + 1,
                     if dist(p, stations[i]) < dist(p, stations[best]) then i else best)
  }

  /** The index of the first station at minimal distance from `p`. */
  function NearestStation(stations: seq<Position>, p: Position, dist: Metric): nat
    requires |stations| > 0
  {
    NearestFrom(stations, p, dist, 1, 0)
  }

  /** The station picked is at minimal distance, and no earlier station is as near. */
  lemma NearestStationIsFirstMinimum(stations: seq<Position>, p: Position, dist: Metric)
    requires |stations| > 0
    ensures var k := NearestStation(stations, p, dist);
      k < |stations| &&
      (forall j :: 0 <= j < |stations| ==> dist(p, stations[k]) <= dist(p, stations[j])) &&
      (forall j :: 0 <= j < k ==> dist(p, stations[k]) < dist(p, stations[j]))
  {
  }

  // ---------------------------------------------------------------------------
  // One robot's update within a tick

  /** The status-dependent update a tick applies to one robot. */
  function TickRobot(s: RobotState, dt: real, stations: seq<Position>, dist: Metric): RobotState
    requires |stations| > 0
  {
    if s.status == Moving && s.targetPosition.Some? then
      var st := Move(s, s.targetPosition.value, dt, dist);
      var r := st.state;
      if !st.arrived then r
      else if r.currentTask.Some? then
        if r.targetPosition.value == r.currentTask.value.startPos then
          r.(targetPosition := Some(r.currentTask.value.endPos), status := Working)
        else Complete(r)
      else r.(status := Idle)
    else if s.status == Working && s.targetPosition.Some? then
      var st := Move(s, s.targetPosition.value, dt, dist);
      if st.arrived then Complete(st.state) else st.state
    else if s.status == Charging then
      var s0 := if s.targetPosition.None?
                then s.(targetPosition := Some(stations[NearestStation(stations, s.position, dist)]))
                else s;
      var st := Move(s0, s0.targetPosition.value, dt, dist);
      if st.arrived then
        var r := st.state.(battery := Min(st.state.maxBattery, st.state.battery + ChargeRate * dt));
        if r.battery >= r.maxBattery * ChargedFraction then r.(status := Idle, targetPosition := None)
        else r
      else st.state
    else s
  }

  /** Idle and Maintenance robots are left exactly as they are. */
  lemma TickIdleUntouched(s: RobotState, dt: real, stations: seq<Position>, dist: Metric)
    requires |stations| > 0 && (s.status == Idle || s.status == Maintenance)
    ensures TickRobot(s, dt, stations, dist) == s
  {
  }

  /** A Moving robot that reaches the start of its task stands on it and turns
      Working, heading for the task's end. */
  lemma TickMovingReachesPickup(s: RobotState, dt: real, stations: seq<Position>, dist: Metric)
    requires |stations| > 0
    requires s.status == Moving && s.currentTask.Some?
    requires s.targetPosition == Some(s.currentTask.value.startPos)
    requires s.battery > LowBattery && dist(s.position, s.currentTask.value.startPos) < ArrivalTolerance
    ensures var r := TickRobot(s, dt, stations, dist);
      r.status == Working && r.position == s.currentTask.value.startPos &&
      r.targetPosition == Some(s.currentTask.value.endPos) &&
      r.currentTask == s.currentTask && r.battery == s.battery && r.tasksCompleted == s.tasksCompleted
  {
  }

  /** A Working robot that reaches its target completes its task. */
  lemma TickWorkingCompletes(s: RobotState, dt: real, stations: seq<Position>, dist: Metric)
    requires |stations| > 0
    requires s.status == Working && s.targetPosition.Some? && s.currentTask.Some?
    requires s.battery > LowBattery && dist(s.position, s.targetPosition.value) < ArrivalTolerance
    ensures var r := TickRobot(s, dt, stations, dist);
      r.status == Idle && r.currentTask.None? && r.targetPosition.None? &&
      r.tasksCompleted == s.tasksCompleted + 1 && r.position == s.targetPosition.value
  {
  }

  /** A Charging robot that can move heads for the station it already targets, or
      else for the nearest one; once there it gains 20 * dt battery, capped at the
      maximum, and turns Idle with no target exactly when it holds 90% or more. */
  lemma TickCharging(s: RobotState, dt: real, stations: seq<Position>, dist: Metric)
    requires |stations| > 0 && s.status == Charging && s.battery > LowBattery
    ensures var station := if s.targetPosition.Some? then s.targetPosition.value
                          else stations[NearestStation(stations, s.position, dist)];
      var r := TickRobot(s, dt, stations, dist);
      (s.targetPosition.None? ==> station in stations) &&
      r.currentTask == s.currentTask && r.tasksCompleted == s.tasksCompleted &&
      if dist(s.position, station) < ArrivalTolerance then
        r.position == station &&
        r.battery == Min(s.maxBattery, s.battery + ChargeRate * dt) &&
        ((r.status == Idle && r.targetPosition.None?) <==> r.battery >= s.maxBattery * ChargedFraction) &&
        (r.status == Idle || (r.status == Charging && r.targetPosition == Some(station)))
      else
        r.status == Charging && r.targetPosition == Some(station) &&
        r == Move(s.(targetPosition := Some(station)), station, dt, dist).state
  {
    NearestStationIsFirstMinimum(stations, s.position, dist);
  }

  /** With a non-negative speed and time step, a tick keeps the battery within
      [0, maxBattery]. */
  lemma TickKeepsBatteryInRange(s: RobotState, dt: real, stations: seq<Position>, dist: Metric)
    requires |stations| > 0 && BatteryInRange(s) && s.speed >= 0.0 && dt >= 0.0
    ensures BatteryInRange(TickRobot(s, dt, stations, dist))
  {
    if s.status == Moving && s.targetPosition.Some? {
      MoveKeepsBatteryInRange(s, s.targetPosition.value, dt, dist);
    } else if s.status == Working && s.targetPosition.Some? {
      MoveKeepsBatteryInRange(s, s.targetPosition.value, dt, dist);
    } else if s.status == Charging {
      var s0 := if s.targetPosition.None?
                then s.(targetPosition := Some(stations[NearestStation(stations, s.position, dist)]))
                else s;
      MoveKeepsBatteryInRange(s0, s0.targetPosition.value, dt, dist);
    }
  }

  /** A tick completes at most one task per robot, and only by leaving it Idle
      without task or target; identity, capacity and speed never change. */
  lemma TickCompletion(s: RobotState, dt: real, stations: seq<Position>, dist: Metric)
    requires |stations| > 0
    ensures var r := TickRobot(s, dt, stations, dist);
      r.id == s.id && r.maxBattery == s.maxBattery && r.speed == s.speed &&
      (r.tasksCompleted == s.tasksCompleted || r.tasksCompleted == s.tasksCompleted + 1) &&
      (r.tasksCompleted == s.tasksCompleted + 1 ==>
        s.currentTask.Some? && r.currentTask.None? && r.status == Idle &&
        r.targetPosition.None? && (s.status == Moving || s.status == Working))
  {
  }

  /** `n` ticks in a row. */
  function Ticks(s: RobotState, n: nat, dt: real, stations: seq<Position>, dist: Metric): RobotState
    requires |stations| > 0
    decreases n
  {
    if n == 0 then s else Ticks(TickRobot(s, dt, stations, dist), n - 1, dt, stations, dist)
  }

  /** A Charging robot with battery at or below 5 never moves and never recharges,
      however many ticks pass: the battery test comes before the arrival test. */
  lemma {:induction false} StrandedRobotStaysStranded(s: RobotState, n: nat, dt: real,
                                                      stations: seq<Position>, dist: Metric)
    requires |stations| > 0 && s.status == Charging && s.battery <= LowBattery
    decreases n
    ensures var r := Ticks(s, n, dt, stations, dist);
      r.status == Charging && r.battery == s.battery && r.position == s.position &&
      r.totalDistance == s.totalDistance && r.currentTask == s.currentTask
  {
    if n > 0 {
      var r := TickRobot(s, dt, stations, dist);
      assert r.status == Charging && r.battery == s.battery && r.position == s.position;
      StrandedRobotStaysStranded(r, n - 1, dt, stations, dist);
    }
  }

  /** A robot sent to charge while holding a task can come back Idle still holding
      it: standing on the station it targets (or, with no target yet, on any
      station), a tick whose recharge brings it to 90% or more makes it Idle and
      the task stays. */
  lemma IdleRobotCanHoldTask(s: RobotState, dt: real, stations: seq<Position>, dist: Metric)
    requires |stations| > 0 && s.status == Charging && s.currentTask.Some?
    requires (s.targetPosition.None? && s.position in stations) || s.targetPosition == Some(s.position)
    requires LowBattery < s.battery <= s.maxBattery
    requires Min(s.maxBattery, s.battery + ChargeRate * dt) >= s.maxBattery * ChargedFraction
    ensures var r := TickRobot(s, dt, stations, dist);
      r.status == Idle && r.currentTask == s.currentTask && r.targetPosition.None?
  {
    if s.targetPosition.None? {
      var k := NearestStation(stations, s.position, dist);
      NearestStationIsFirstMinimum(stations, s.position, dist);
      var j :| 0 <= j < |stations| && stations[j] == s.position;
      assert dist(s.position, stations[j]) == 0.0;
      assert dist(s.position, stations[k]) == 0.0;
    }
  }

  // ---------------------------------------------------------------------------
  // The whole fleet within a tick

  /** The dispatch step at the start of a tick: the scheduler's choice, if any, is
      handed to the chosen robot and leaves the pending list. */
  function AssignStep(states: seq<RobotState>, pending: seq<Task>, dist: Metric): (seq<RobotState>, seq<Task>)
  {
    match Select(pending, states, dist)
    case None => (states, pending)
    case Some((ti, ri)) =>
      (states[ri := Assign(states[ri], pending[ti])], RemoveAt(pending, ti))
  }

  function UpdateAll(states: seq<RobotState>, dt: real, stations: seq<Position>, dist: Metric): (r: seq<RobotState>)
    requires |stations| > 0
    ensures |r| == |states|
  {
    seq(|states|, i requires 0 <= i < |states| => TickRobot(states[i], dt, stations, dist))
  }

  /** A tick's effect on the robots and on the pending list. */
  function FleetTick(states: seq<RobotState>, pending: seq<Task>, stations: seq<Position>,
                     dt: real, dist: Metric): (seq<RobotState>, seq<Task>)
    requires |stations| > 0
  {
    var step := AssignStep(states, pending, dist);
    (UpdateAll(step.0, dt, stations, dist), step.1)
  }

  /** A tick dispatches at most one task: either nothing changes, or exactly one
      task leaves the pending list and only the chosen robot, which was eligible,
      takes it over. */
  lemma AtMostOneAssignment(states: seq<RobotState>, pending: seq<Task>, dist: Metric)
    ensures var step := AssignStep(states, pending, dist);
      var dispatched := step.0;
      var rest := step.1;
      (dispatched == states && rest == pending) ||
      (exists ti, ri :: 0 <= ti < |pending| && 0 <= ri < |states| && Eligible(states[ri]) &&
         rest == RemoveAt(pending, ti) && |rest| == |pending| - 1 &&
         dispatched == states[ri := Assign(states[ri], pending[ti])])
  {
    match Select(pending, states, dist)
    case None =>
    case Some((ti, ri)) =>
      SelectIsFirstMinimum(pending, states, dist);
      assert Eligible(states[ri]);
  }

  /** The dispatch step leaves the pending list sorted. */
  lemma AssignStepKeepsPendingSorted(states: seq<RobotState>, pending: seq<Task>, dist: Metric)
    requires SortedByPriority(pending)
    ensures SortedByPriority(AssignStep(states, pending, dist).1)
  {
    match Select(pending, states, dist)
    case None =>
    case Some((ti, ri)) =>
      RemoveAtKeepsOrder(pending, ti);
  }

  predicate AllBatteriesInRange(states: seq<RobotState>)
  {
    forall i :: 0 <= i < |states| ==> BatteryInRange(states[i])
  }

  predicate SpeedsNonNegative(states: seq<RobotState>)
  {
    forall i :: 0 <= i < |states| ==> states[i].speed >= 0.0
  }

  /** A tick with a non-negative time step keeps every battery within [0, maxBattery]
      as long as no robot has a negative speed. */
  lemma FleetTickKeepsBatteriesInRange(states: seq<RobotState>, pending: seq<Task>,
                                       stations: seq<Position>, dt: real, dist: Metric)
    requires |stations| > 0 && dt >= 0.0
    requires AllBatteriesInRange(states) && SpeedsNonNegative(states)
    ensures AllBatteriesInRange(FleetTick(states, pending, stations, dt, dist).0)
    ensures SpeedsNonNegative(FleetTick(states, pending, stations, dt, dist).0)
  {
    var dispatched := AssignStep(states, pending, dist).0;
    assert AllBatteriesInRange(dispatched) && SpeedsNonNegative(dispatched);
    var r := FleetTick(states, pending, stations, dt, dist).0;
    forall i | 0 <= i < |r| ensures BatteryInRange(r[i]) && r[i].speed >= 0.0 {
      TickKeepsBatteryInRange(dispatched[i], dt, stations, dist);
      TickCompletion(dispatched[i], dt, stations, dist);
    }
  }

  // ---------------------------------------------------------------------------
  // Fleet metrics

  /** The sum of the robots' completed-task counters. */
  function TotalCompleted(states: seq<RobotState>): nat
  {
    if states == [] then 0 else states[0].tasksCompleted + TotalCompleted(states[1..])
  }

  function CountStatus(states: seq<RobotState>, st: RobotStatus): nat
  {
    if states == [] then 0 else (if states[0].status == st then 1 else 0) + CountStatus(states[1..], st)
  }

  /** The number of robots that are not Idle. */
  function CountActive(states: seq<RobotState>): nat
  {
    if states == [] then 0 else (if states[0].status != Idle then 1 else 0) + CountActive(states[1..])
  }

  /** Percentage of robots that are not Idle; 0 for an empty fleet. */
  function Efficiency(states: seq<RobotState>): real
  {
    if |states| == 0 then 0.0 else (CountActive(states) as real / |states| as real) * 100.0
  }

  function SumBattery(states: seq<RobotState>): real
  {
    if states == [] then 0.0 else states[0].battery + SumBattery(states[1..])
  }

  /** Mean battery level; 0 for an empty fleet. */
  function AverageBattery(states: seq<RobotState>): real
  {
    if |states| == 0 then 0.0 else SumBattery(states) / |states| as real
  }

  lemma {:induction false} CountActiveBounds(states: seq<RobotState>)
    ensures CountActive(states) <= |states|
    ensures CountActive(states) == 0 <==> forall i :: 0 <= i < |states| ==> states[i].status == Idle
    ensures CountActive(states) == |states| <==> forall i :: 0 <= i < |states| ==> states[i].status != Idle
    ensures CountActive(states) + CountStatus(states, Idle) == |states|
  {
    if states != [] {
      CountActiveBounds(states[1..]);
      assert forall i :: 1 <= i < |states| ==> states[i] == states[1..][i - 1];
    }
  }

  lemma RatioBounds(a: real, n: real)
    requires 0.0 <= a <= n && n > 0.0
    ensures 0.0 <= a / n <= 1.0
    ensures a / n == 0.0 <==> a == 0.0
    ensures a / n == 1.0 <==> a == n
  {
    var q := a / n;
    assert q * n == a;
    assert (1.0 - q) * n == n - a;
  }

  lemma MeanBounds(sum: real, n: real, lo: real, hi: real)
    requires n > 0.0 && n * lo <= sum <= n * hi
    ensures lo <= sum / n <= hi
  {
    var q := sum / n;
    assert q * n == sum;
    assert (q - lo) * n == sum - n * lo;
    assert (hi - q) * n == n * hi - sum;
  }

  /** Fleet efficiency is a percentage: 0 exactly when every robot is Idle (or
      there is none), 100 exactly when none is Idle in a non-empty fleet. */
  lemma EfficiencyBounds(states: seq<RobotState>)
    ensures 0.0 <= Efficiency(states) <= 100.0
    ensures Efficiency(states) == 0.0 <==> forall i :: 0 <= i < |states| ==> states[i].status == Idle
    ensures Efficiency(states) == 100.0 <==>
      |states| > 0 && forall i :: 0 <= i < |states| ==> states[i].status != Idle
  {
    CountActiveBounds(states);
    if |states| > 0 {
      RatioBounds(CountActive(states) as real, |states| as real);
    }
  }

  /** The indices from `lo` on of the robots in status `st`. */
  ghost function IndicesWith(states: seq<RobotState>, st: RobotStatus, lo: nat): set<nat>
  {
    set i: nat | lo <= i < |states| && states[i].status == st
  }

  lemma {:induction false} CountStatusFrom(states: seq<RobotState>, st: RobotStatus, lo: nat)
    requires lo <= |states|
    ensures CountStatus(states[lo..], st) == |IndicesWith(states, st, lo)|
    decreases |states| - lo
  {
    if lo == |states| {
      assert IndicesWith(states, st, lo) == {};
    } else {
      CountStatusFrom(states, st, lo + 1);
      assert states[lo..][1..] == states[lo + 1..];
      var here: set<nat> := if states[lo].status == st then {lo} else {};
      assert IndicesWith(states, st, lo) == here + IndicesWith(states, st, lo + 1);
      assert here !! IndicesWith(states, st, lo + 1);
    }
  }

  /** Each status count is the number of robots in that status. */
  lemma CountStatusIsCardinality(states: seq<RobotState>, st: RobotStatus)
    ensures CountStatus(states, st) == |set i: nat | i < |states| && states[i].status == st|
  {
    CountStatusFrom(states, st, 0);
    assert states[0..] == states;
    assert IndicesWith(states, st, 0) == set i: nat | i < |states| && states[i].status == st;
  }

  /** The five status counts add up to the number of robots. */
  lemma {:induction false} StatusCountsAddUp(states: seq<RobotState>)
    ensures CountStatus(states, Idle) + CountStatus(states, Moving) + CountStatus(states, Working) +
            CountStatus(states, Charging) + CountStatus(states, Maintenance) == |states|
  {
    if states != [] {
      StatusCountsAddUp(states[1..]);
    }
  }

  lemma {:induction false} SumBatteryBounds(states: seq<RobotState>, lo: real, hi: real)
    requires forall i :: 0 <= i < |states| ==> lo <= states[i].battery <= hi
    ensures (|states| as real) * lo <= SumBattery(states) <= (|states| as real) * hi
  {
    if states != [] {
      assert forall i :: 0 <= i < |states[1..]| ==> states[1..][i] == states[i + 1];
      SumBatteryBounds(states[1..], lo, hi);
      var n := |states[1..]| as real;
      assert (n + 1.0) * lo == n * lo + lo;
      assert (n + 1.0) * hi == n * hi + hi;
    }
  }

  /** The average battery lies between the lowest and highest bounds of the
      individual batteries. */
  lemma AverageBatteryBounds(states: seq<RobotState>, lo: real, hi: real)
    requires |states| > 0
    requires forall i :: 0 <= i < |states| ==> lo <= states[i].battery <= hi
    ensures lo <= AverageBattery(states) <= hi
  {
    SumBatteryBounds(states, lo, hi);
    MeanBounds(SumBattery(states), |states| as real, lo, hi);
  }

  lemma {:induction false} TotalCompletedPointwise(a: seq<RobotState>, b: seq<RobotState>)
    requires |a| == |b|
    requires forall i :: 0 <= i < |a| ==>
      a[i].tasksCompleted <= b[i].tasksCompleted <= a[i].tasksCompleted + 1
    ensures TotalCompleted(a) <= TotalCompleted(b) <= TotalCompleted(a) + |a|
  {
    if a != [] {
      assert forall i :: 0 <= i < |a[1..]| ==> a[1..][i] == a[i + 1] && b[1..][i] == b[i + 1];
      TotalCompletedPointwise(a[1..], b[1..]);
    }
  }

  /** The dispatch step leaves every robot's completion count as it was. */
  lemma AssignStepKeepsCounts(states: seq<RobotState>, pending: seq<Task>, dist: Metric)
    ensures var d := AssignStep(states, pending, dist).0;
      |d| == |states| &&
      forall i :: 0 <= i < |states| ==> d[i].tasksCompleted == states[i].tasksCompleted
  {
    match Select(pending, states, dist)
    case None =>
    case Some((ti, ri)) =>
      assert AssignStep(states, pending, dist).0 == states[ri := Assign(states[ri], pending[ti])];
  }

  /** Updating every robot completes at most one task per robot. */
  lemma UpdateAllCompletions(states: seq<RobotState>, dt: real, stations: seq<Position>, dist: Metric)
    requires |stations| > 0
    ensures var r := UpdateAll(states, dt, stations, dist);
      forall i :: 0 <= i < |states| ==>
        states[i].tasksCompleted <= r[i].tasksCompleted <= states[i].tasksCompleted + 1
  {
    var r := UpdateAll(states, dt, stations, dist);
    forall i | 0 <= i < |states|
      ensures states[i].tasksCompleted <= r[i].tasksCompleted <= states[i].tasksCompleted + 1
    {
      TickCompletion(states[i], dt, stations, dist);
    }
  }

  /** A tick never loses a completed task and completes at most one per robot. */
  lemma FleetTickCompletions(states: seq<RobotState>, pending: seq<Task>,
                             stations: seq<Position>, dt: real, dist: Metric)
    requires |stations| > 0
    ensures var r := FleetTick(states, pending, stations, dt, dist).0;
      TotalCompleted(states) <= TotalCompleted(r) <= TotalCompleted(states) + |states|
  {
    var dispatched := AssignStep(states, pending, dist).0;
    AssignStepKeepsCounts(states, pending, dist);
    var r := UpdateAll(dispatched, dt, stations, dist);
    UpdateAllCompletions(dispatched, dt, stations, dist);
    assert r == FleetTick(states, pending, stations, dt, dist).0;
    TotalCompletedPointwise(states, r);
  }

  // ---------------------------------------------------------------------------
  // The status snapshot

  /** The fields of the source's status dictionary; status counts are keyed by
      the status names. */
  datatype FleetStatus = FleetStatus(
    totalRobots: nat,
    statusDistribution: map<string, nat>,
    pendingTasks: nat,
    totalTasksCompleted: int,
    fleetEfficiency: real,
    averageBattery: real)

  function StatusName(st: RobotStatus): string
  {
    match st
    case Idle => "idle"
    case Moving => "moving"
    case Working => "working"
    case Charging => "charging"
    case Maintenance => "maintenance"
  }

  function StatusDistribution(states: seq<RobotState>): map<string, nat>
  {
    map[StatusName(Idle) := CountStatus(states, Idle),
        StatusName(Moving) := CountStatus(states, Moving),
        StatusName(Working) := CountStatus(states, Working),
        StatusName(Charging) := CountStatus(states, Charging),
        StatusName(Maintenance) := CountStatus(states, Maintenance)]
  }

  /** The snapshot the fleet reports; completed tasks and efficiency are the
      values stored at the last tick. */
  function Snapshot(states: seq<RobotState>, pendingCount: nat, completed: int, efficiency: real): (r: FleetStatus)
    ensures r.statusDistribution.Keys == {"idle", "moving", "working", "charging", "maintenance"}
    ensures r.statusDistribution["idle"] + r.statusDistribution["moving"] +
            r.statusDistribution["working"] + r.statusDistribution["charging"] +
            r.statusDistribution["maintenance"] == r.totalRobots
    ensures forall st :: r.statusDistribution[StatusName(st)] == CountStatus(states, st)
    ensures r.totalRobots == |states| && r.pendingTasks == pendingCount
    ensures r.totalTasksCompleted == completed && r.fleetEfficiency == efficiency
    ensures r.averageBattery == AverageBattery(states)
    ensures |states| == 0 ==> r.averageBattery == 0.0
  {
    StatusCountsAddUp(states);
    FleetStatus(|states|, StatusDistribution(states), pendingCount, completed, efficiency,
                AverageBattery(states))
  }

  /** With every battery in [0, 100], the reported average is in [0, 100] too. */
  lemma SnapshotAverageInRange(states: seq<RobotState>, pendingCount: nat, completed: int, efficiency: real)
    requires forall i :: 0 <= i < |states| ==> 0.0 <= states[i].battery <= 100.0
    ensures 0.0 <= Snapshot(states, pendingCount, completed, efficiency).averageBattery <= 100.0
  {
    if |states| > 0 {
      AverageBatteryBounds(states, 0.0, 100.0);
    }
  }

  // ---------------------------------------------------------------------------
  // Fleet-wide commands

  /** Emergency stop for one robot: Idle, no target, task dropped uncompleted. */
  function Stop(s: RobotState): RobotState
  {
    s.(status := Idle, targetPosition := None, currentTask := None)
  }

  /** The speed slider's value `val` gives every robot speed 2 * val. */
  function WithSpeed(s: RobotState, val: real): RobotState
  {
    s.(speed := val * 2.0)
  }

  /** "Send all to charge" for one robot: below 90 battery it turns Charging with
      its target cleared (the task is kept); otherwise it is unchanged. */
  function SendToCharge(s: RobotState): RobotState
  {
    if s.battery < ChargeAllThreshold then s.(status := Charging, targetPosition := None) else s
  }

  function MapStop(states: seq<RobotState>): (r: seq<RobotState>)
    ensures |r| == |states|
  {
    seq(|states|, i requires 0 <= i < |states| => Stop(states[i]))
  }

  function MapWithSpeed(states: seq<RobotState>, val: real): (r: seq<RobotState>)
    ensures |r| == |states|
  {
    seq(|states|, i requires 0 <= i < |states| => WithSpeed(states[i], val))
  }

  function MapSendToCharge(states: seq<RobotState>): (r: seq<RobotState>)
    ensures |r| == |states|
  {
    seq(|states|, i requires 0 <= i < |states| => SendToCharge(states[i]))
  }

  /** After an emergency stop the fleet reports 0% efficiency, no robot holds a
      task or target, no completion is counted and every robot with battery above
      20 can be dispatched again. */
  lemma EmergencyStopEffect(states: seq<RobotState>)
    ensures var r := MapStop(states);
      Efficiency(r) == 0.0 && TotalCompleted(r) == TotalCompleted(states) &&
      (forall i :: 0 <= i < |r| ==>
         r[i].currentTask.None? && r[i].targetPosition.None? &&
         r[i].position == states[i].position && r[i].battery == states[i].battery) &&
      (forall i :: 0 <= i < |r| ==> (Eligible(r[i]) <==> states[i].battery > MinDispatchBattery))
  {
    var r := MapStop(states);
    EfficiencyBounds(r);
    forall i | 0 <= i < |r| ensures r[i].tasksCompleted == states[i].tasksCompleted {
    }
    TotalCompletedPointwise(states, r);
    TotalCompletedPointwise(r, states);
  }

  /** Slider values between 0.1 and 3.0 give every robot a speed between 0.2 and
      6.0, so the battery stays in range over later ticks. */
  lemma SpeedScalingEffect(states: seq<RobotState>, val: real)
    requires 0.1 <= val <= 3.0
    ensures var r := MapWithSpeed(states, val);
      SpeedsNonNegative(r) &&
      forall i :: 0 <= i < |r| ==> 0.2 <= r[i].speed <= 6.0 && r[i].(speed := states[i].speed) == states[i]
  {
  }

  /** "Send all to charge" makes every robot below 90 battery Charging with no
      target, keeping any task it held, and leaves the others as they were. On the
      next tick each such robot that can still move heads for its nearest station. */
  lemma ChargeAllEffect(states: seq<RobotState>, stations: seq<Position>, dt: real, dist: Metric)
    requires |stations| > 0
    ensures var r := MapSendToCharge(states);
      forall i :: 0 <= i < |r| ==>
        if states[i].battery < ChargeAllThreshold then
          r[i].status == Charging && r[i].targetPosition.None? && r[i].currentTask == states[i].currentTask &&
          r[i].battery == states[i].battery && r[i].position == states[i].position &&
          r[i].tasksCompleted == states[i].tasksCompleted && r[i].totalDistance == states[i].totalDistance &&
          r[i].(status := states[i].status, targetPosition := states[i].targetPosition) == states[i] &&
          (LowBattery < r[i].battery &&
           ArrivalTolerance <= dist(r[i].position, stations[NearestStation(stations, r[i].position, dist)]) ==>
             TickRobot(r[i], dt, stations, dist).targetPosition ==
               Some(stations[NearestStation(stations, r[i].position, dist)]))
        else r[i] == states[i]
  {
    var r := MapSendToCharge(states);
    forall i | 0 <= i < |r| && states[i].battery < ChargeAllThreshold && LowBattery < r[i].battery
      ensures ArrivalTolerance <= dist(r[i].position, stations[NearestStation(stations, r[i].position, dist)]) ==>
              TickRobot(r[i], dt, stations, dist).targetPosition ==
                Some(stations[NearestStation(stations, r[i].position, dist)])
    {
      TickCharging(r[i], dt, stations, dist);
    }
  }

  // ---------------------------------------------------------------------------
  // The fleet manager

  class FleetManager {
    var robots: seq<Robot>
    const taskScheduler: TaskScheduler
    const chargingStations: seq<Position>
    const gridWidth: int
    const gridHeight: int
    /** The distance between positions (the Euclidean norm in the source). */
    const dist: Metric
    var totalTasksCompleted: int
    var fleetEfficiency: real

    /** There is a station to charge at, and no robot is in the fleet twice. */
    ghost predicate Valid()
      reads this
    {
      |chargingStations| > 0 &&
      forall i, j :: 0 <= i < j < |robots| ==> robots[i] != robots[j]
    }

    function States(): (r: seq<RobotState>)
      reads this, robots
      ensures |r| == |robots|
    {
      StatesOf(robots)
    }

    constructor (dist: Metric, gridWidth: int := 50, gridHeight: int := 30)
      ensures Valid() && fresh(taskScheduler)
      ensures robots == [] && taskScheduler.pendingTasks == [] && chargingStations == DefaultStations
      ensures this.gridWidth == gridWidth && this.gridHeight == gridHeight && this.dist == dist
      ensures totalTasksCompleted == 0 && fleetEfficiency == 0.0
    {
      robots := [];
      taskScheduler := new TaskScheduler();
      chargingStations := DefaultStations;
      this.gridWidth := gridWidth;
      this.gridHeight := gridHeight;
      this.dist := dist;
      totalTasksCompleted := 0;
      fleetEfficiency := 0.0;
    }

    method AddRobot(robot: Robot)
      requires Valid() && robot !in robots
      modifies this
      ensures Valid() && robots == old(robots) + [robot]
      ensures totalTasksCompleted == old(totalTasksCompleted) && fleetEfficiency == old(fleetEfficiency)
    {
      robots := robots + [robot];
    }

    /** The body of the per-robot loop of a tick. */
    method UpdateRobot(robot: Robot, dt: real)
      requires |chargingStations| > 0
      modifies robot
      ensures robot.State() == TickRobot(old(robot.State()), dt, chargingStations, dist)
    {
      if robot.status == Moving && robot.targetPosition.Some? {
        var arrived := robot.MoveTowardsTarget(robot.targetPosition.value, dt, dist);
        if arrived {
          if robot.currentTask.Some? {
            if robot.targetPosition.value == robot.currentTask.value.startPos {
              robot.targetPosition := Some(robot.currentTask.value.endPos);
              robot.status := Working;
            } else {
              robot.CompleteCurrentTask();
            }
          } else {
            robot.status := Idle;
          }
        }
      } else if robot.status == Working && robot.targetPosition.Some? {
        var arrived := robot.MoveTowardsTarget(robot.targetPosition.value, dt, dist);
        if arrived {
          robot.CompleteCurrentTask();
        }
      } else if robot.status == Charging {
        if robot.targetPosition.None? {
          var nearest := NearestStation(chargingStations, robot.position, dist);
          robot.targetPosition := Some(chargingStations[nearest]);
        }
        var arrived := robot.MoveTowardsTarget(robot.targetPosition.value, dt, dist);
        if arrived {
          robot.battery := Min(robot.maxBattery, robot.battery + ChargeRate * dt);
          if robot.battery >= robot.maxBattery * ChargedFraction {
            robot.status := Idle;
            robot.targetPosition := None;
          }
        }
      }
    }

    /** The dispatch at the start of a tick: the scheduler's choice, if any, is
        handed to the chosen robot. */
    method Dispatch()
      requires Valid()
      modifies taskScheduler, robots
      ensures (States(), taskScheduler.pendingTasks) ==
              AssignStep(old(States()), old(taskScheduler.pendingTasks), dist)
    {
      ghost var before := States();
      ghost var choice := Select(taskScheduler.pendingTasks, before, dist);
      var assignment := taskScheduler.AssignOptimalRobot(robots, dist);
      if assignment.Some? {
        var robot, task := assignment.value.0, assignment.value.1;
        ghost var ri := choice.value.1;
        assert robot == robots[ri];
        robot.AssignTask(task);
        forall k | 0 <= k < |robots| && k != ri ensures robots[k].State() == before[k] {
          assert robots[k] != robots[ri];
        }
        assert States() == before[ri := Assign(before[ri], task)];
      }
    }

    /** The per-robot loop of a tick. */
    method TickRobots(dt: real)
      requires Valid()
      modifies robots
      ensures States() == UpdateAll(old(States()), dt, chargingStations, dist)
    {
      ghost var before := States();
      var i := 0;
      while i < |robots|
        invariant i <= |robots|
        invariant forall k :: 0 <= k < i ==>
          robots[k].State() == TickRobot(before[k], dt, chargingStations, dist)
        invariant forall k :: i <= k < |robots| ==> robots[k].State() == before[k]
      {
        UpdateRobot(robots[i], dt);
        i := i + 1;
      }
    }

    /** One simulation tick: dispatch, update every robot, then recompute the
        stored metrics. */
    method UpdateFleet(dt: real)
      requires Valid()
      modifies this, taskScheduler, robots
      ensures Valid() && robots == old(robots)
      ensures (States(), taskScheduler.pendingTasks) ==
              FleetTick(old(States()), old(taskScheduler.pendingTasks), chargingStations, dt, dist)
      ensures totalTasksCompleted == TotalCompleted(States())
      ensures fleetEfficiency == Efficiency(States())
    {
      Dispatch();
      TickRobots(dt);
      totalTasksCompleted := TotalCompleted(StatesOf(robots));
      var active := CountActive(StatesOf(robots));
      fleetEfficiency := if |robots| > 0 then (active as real / |robots| as real) * 100.0 else 0.0;
    }

    /** The read-only status report. */
    function GetFleetStatus(): (r: FleetStatus)
      reads this, robots, taskScheduler
      ensures r.statusDistribution.Keys == {"idle", "moving", "working", "charging", "maintenance"}
      ensures r.totalRobots == |robots| && r.pendingTasks == |taskScheduler.pendingTasks|
      ensures forall st :: r.statusDistribution[StatusName(st)] == CountStatus(States(), st)
      ensures r.statusDistribution["idle"] + r.statusDistribution["moving"] +
              r.statusDistribution["working"] + r.statusDistribution["charging"] +
              r.statusDistribution["maintenance"] == |robots|
      ensures r.totalTasksCompleted == totalTasksCompleted && r.fleetEfficiency == fleetEfficiency
      ensures r.averageBattery == AverageBattery(States())
    {
      Snapshot(States(), |taskScheduler.pendingTasks|, totalTasksCompleted, fleetEfficiency)
    }

    /** Every robot stops: Idle, no target, task dropped. */
    method EmergencyStop()
      requires Valid()
      modifies robots
      ensures States() == MapStop(old(States()))
    {
      ghost var before := States();
      var i := 0;
      while i < |robots|
        invariant i <= |robots|
        invariant forall k :: 0 <= k < i ==> robots[k].State() == Stop(before[k])
        invariant forall k :: i <= k < |robots| ==> robots[k].State() == before[k]
      {
        var robot := robots[i];
        robot.status := Idle;
        robot.targetPosition := None;
        robot.currentTask := None;
        i := i + 1;
      }
    }

    /** Every robot's speed becomes twice the slider value. */
    method UpdateSpeed(val: real)
      requires Valid()
      modifies robots
      ensures States() == MapWithSpeed(old(States()), val)
    {
      ghost var before := States();
      var i := 0;
      while i < |robots|
        invariant i <= |robots|
        invariant forall k :: 0 <= k < i ==> robots[k].State() == WithSpeed(before[k], val)
        invariant forall k :: i <= k < |robots| ==> robots[k].State() == before[k]
      {
        robots[i].speed := val * 2.0;
        i := i + 1;
      }
    }

    /** Every robot below 90 battery is sent to charge. */
    method ChargeAll()
      requires Valid()
      modifies robots
      ensures States() == MapSendToCharge(old(States()))
    {
      ghost var before := States();
      var i := 0;
      while i < |robots|
        invariant i <= |robots|
        invariant forall k :: 0 <= k < i ==> robots[k].State() == SendToCharge(before[k])
        invariant forall k :: i <= k < |robots| ==> robots[k].State() == before[k]
      {
        var robot := robots[i];
        if robot.battery < ChargeAllThreshold {
          robot.status := Charging;
          robot.targetPosition := None;
        }
        i := i + 1;
      }
    }
  }
}

# AMR fleet simulation and dispatch — a Dafny model

This project models the simulation and dispatch engine of the AMR (autonomous
mobile robot) fleet dashboard in `amr_dashboard.py`. It has four parts.

- **The robot state machine** (module `Robots`):
  - the physics step toward a target: a battery cut-out at 5, a snap onto the target within 0.5, and a drain of 0.1 per unit moved;
  - task hand-over and task completion.
- **The task scheduler** (module `Scheduler`):
  - a pending list that is re-sorted, stably, by descending priority after every insertion;
  - the greedy dispatcher. It scores every (pending task, eligible robot) pair as the distance to the task's start plus 0.1 per battery unit below 100. It takes the first pair with the smallest score in task-major order and removes that task from the list.
- **The fleet tick** (module `Fleet`):
  - at most one dispatch per tick;
  - a status-dependent update of every robot:
    - Moving turns Working at the pickup point;
    - Working completes on arrival;
    - Charging heads for the nearest station, recharges by 20 per second capped at the maximum, and turns Idle at 90%;
  - then the fleet metrics: completed tasks and efficiency.
- **The status snapshot and the fleet-wide commands**: emergency stop, speed scaling and "send all to charge".

Robots and the scheduler are classes whose methods update fields in place. Each
method is specified by a pure function of a value snapshot of the state
(`Robot.State()`, `StatesOf`, `FleetManager.States()`). The properties are
lemmas about those functions.

Distance is a parameter `dist: Metric`: any function that is non-negative and
zero from a point to itself. The source uses the Euclidean norm. The step of
`m` units along the unit vector is written out as the source computes it
(`Geometry.Advance`).

Two behaviours of the code are reproduced as they are, not corrected:

- A robot whose battery is at or below 5 never moves again. This holds even in
  Charging, so it never reaches a station and never recharges
  (`Fleet.StrandedRobotStaysStranded`).
- A robot pushed into Charging keeps its task. This happens either through the
  battery cut-out or through "send all to charge". When it finishes charging it
  is Idle and still holds the task (`Fleet.IdleRobotCanHoldTask`). So "Idle
  implies no current task" is not an invariant of the code, and the model
  follows the code.

The battery threshold of "send all to charge" is the literal 90 of the code,
not 90% of the robot's maximum.

## Model

| member | source | states |
|---|---|---|
| Geometry.Advance | amr_dashboard.py:80-85 | moving the whole remaining distance lands exactly on the target; moving 0 stays put |
| Robots.Move | amr_dashboard.py:70-90 | the physics step as a value: battery ≤ 5 gives Charging without arrival, else within 0.5 the robot snaps onto the target and arrives, else it takes a `Stride`; its properties are the `Move…` lemmas below |
| Robots.Stride | amr_dashboard.py:80-88 | the move itself: m = min(speed·dt, d) units along the unit vector toward the target, m added to the odometer, the battery drained by `Drain` |
| Robots.Drain | amr_dashboard.py:88 | the battery after moving m units: battery − 0.1·m, floored at 0 |
| Robots.Assign | amr_dashboard.py:92-96 | hand-over as a value; stated by `Robots.AssignTaskEffect` |
| Robots.Complete | amr_dashboard.py:98-103 | completion as a value; stated by `Robots.CompleteEffect` |
| Robots.MoveLowBattery | amr_dashboard.py:70-73 | battery ≤ 5: status becomes Charging, no arrival, position, battery, odometer, task and target unchanged |
| Robots.MoveSnap | amr_dashboard.py:75-78 | battery > 5 and distance < 0.5: arrival, position becomes exactly the target, battery, odometer and status unchanged |
| Robots.MoveStep | amr_dashboard.py:80-90 | otherwise no arrival; the odometer grows by m with m ≤ distance, m ≤ speed·dt and m one of the two; battery becomes max(0, battery − 0.1·m) |
| Robots.MoveArrivedIff | amr_dashboard.py:70-90 | the step reports arrival if and only if battery > 5 and distance < 0.5, and on arrival the robot is on the target |
| Robots.MoveKeepsBatteryInRange | amr_dashboard.py:80-88 | with speed and dt non-negative the battery stays in [0, max], never rises, and the odometer never falls |
| Robots.MoveReachesTarget | amr_dashboard.py:80-85 | when speed·dt covers the remaining distance the robot lands on the target, and, if its battery is still above 5, the next step reports arrival |
| Robots.AssignTaskEffect | amr_dashboard.py:92-96 | hand-over: Moving, target is the task's start, the held task is the given one stamped with the robot's id; id, capacity, speed, position, battery, odometer and count unchanged |
| Robots.CompleteEffect | amr_dashboard.py:98-103 | with a task: completion count +1, task and target cleared, Idle, with id, capacity, speed, position, battery and odometer kept; without a task nothing changes |
| Robots.Robot.constructor | amr_dashboard.py:56-68 | a new robot is Idle with a full battery, speed 2, no task, no target and zero counters |
| Robots.Robot.MoveTowardsTarget | amr_dashboard.py:70-90 | the new fields and the returned flag are those of the physics step `Move` |
| Robots.Robot.AssignTask | amr_dashboard.py:92-96 | the new fields are those of `Assign` |
| Robots.Robot.CompleteCurrentTask | amr_dashboard.py:98-103 | the new fields are those of `Complete` |
| Scheduler.SortByPriority | amr_dashboard.py:116-117 | the list `sort(key=priority, reverse=True)` leaves, built by stable insertion; stated by `Scheduler.SortSorted` and `Scheduler.StableSortUnique` |
| Scheduler.Insert | amr_dashboard.py:117 | a task placed behind every task of priority at least its own; stated by `Scheduler.InsertSorted`, `InsertPermutes` and `InsertStable` |
| Scheduler.RemoveFirst | amr_dashboard.py:142 | `list.remove`: drops the first task equal to the given one; related to index removal by `Scheduler.RemoveFirstAt` |
| Scheduler.RemoveAt | amr_dashboard.py:142 | the list without the task at one index; stated by `Scheduler.RemoveAtKeepsOrder` |
| Scheduler.InsertPos | amr_dashboard.py:117 | the insertion point of a task in a sorted list follows every task of priority ≥ its own and precedes the first lower one |
| Scheduler.WithPriorityAppend | amr_dashboard.py:117 | the tasks of one priority in a concatenation are those of each part, in order |
| Scheduler.InsertSorted | amr_dashboard.py:117 | inserting into a list sorted by descending priority keeps it sorted |
| Scheduler.InsertPermutes | amr_dashboard.py:116-117 | insertion adds exactly the new task as a multiset |
| Scheduler.InsertStable | amr_dashboard.py:117 | insertion keeps the arrival order of the tasks of each priority |
| Scheduler.SortSorted | amr_dashboard.py:116-117 | the stable sort yields a list sorted by descending priority, a permutation of its input, with each priority's tasks in input order |
| Scheduler.StableSortUnique | amr_dashboard.py:117 | two sorted lists with the same tasks of each priority in the same order are equal, so the stable sort's result is the only one possible |
| Scheduler.ResortOfSortedIsInsert | amr_dashboard.py:116-117 | re-sorting a sorted list after appending a task equals inserting the task at its place |
| Scheduler.RemoveFirstAt | amr_dashboard.py:142 | removing the first occurrence of a task equals removing it at its index when no earlier task is equal |
| Scheduler.RemoveAtKeepsOrder | amr_dashboard.py:142 | removal drops exactly one task, keeps the others in order and keeps the list sorted |
| Scheduler.Eligible | amr_dashboard.py:123 | a robot the dispatcher considers: Idle with battery above 20 |
| Scheduler.Score | amr_dashboard.py:132-134 | the cost of a (robot, task) pair: distance to the task's start plus 0.1·(100 − battery) |
| Scheduler.Available | amr_dashboard.py:123 | the eligible robots' indices in fleet order; stated by `Scheduler.AvailableFrom` |
| Scheduler.ScanRobots | amr_dashboard.py:131-138 | the inner loop as a recursion: a pair replaces the best one only with a strictly smaller score; keeps the best pair within bounds; stated by `Scheduler.ScanRobotsCorrect` |
| Scheduler.ScanTasks | amr_dashboard.py:130-138 | the outer loop as a recursion over the pending tasks; keeps the best pair within bounds; stated by `Scheduler.ScanTasksCorrect` |
| Scheduler.Select | amr_dashboard.py:119-141 | the dispatcher's choice as a (task index, robot index) pair, or none; stated by `Scheduler.SelectNone`, `SelectIsFirstMinimum` and `FirstMinimumUnique` |
| Scheduler.AvailableFrom | amr_dashboard.py:123 | the eligible list holds exactly the Idle robots with battery > 20, in fleet order |
| Scheduler.ScanRobotsCorrect | amr_dashboard.py:131-138 | the inner loop keeps the scan invariant: the best pair so far has minimal score among those scanned and beats every earlier one strictly |
| Scheduler.ScanTasksCorrect | amr_dashboard.py:130-138 | the outer loop carries the invariant to the end of the task list |
| Scheduler.FirstMinimumUnique | amr_dashboard.py:136 | the strict comparison singles out one pair: at most one pair is the first minimum |
| Scheduler.SelectNone | amr_dashboard.py:119-125 | no choice exactly when there is no pending task or no robot is Idle with battery > 20 |
| Scheduler.SelectIsFirstMinimum | amr_dashboard.py:127-141 | the chosen robot is eligible, its score with the chosen task is ≤ that of every (task, eligible robot) pair, and ties go to the first pair in task-major, robot-minor order |
| Scheduler.SelectRemovesChosen | amr_dashboard.py:140-142 | removing the chosen task by value removes it at its index |
| Scheduler.ScanPairs | amr_dashboard.py:127-138 | the nested loops compute exactly the recursive scan |
| Scheduler.TaskScheduler.constructor | amr_dashboard.py:112-113 | the pending list starts empty |
| Scheduler.TaskScheduler.AddTask | amr_dashboard.py:115-117 | the new list is the stable sort of the old list plus the task: sorted, a permutation, and each priority's tasks in arrival order |
| Scheduler.TaskScheduler.AssignOptimalRobot | amr_dashboard.py:119-145 | returns nothing and leaves the list alone when `Select` chooses nothing; otherwise returns the chosen robot and task and removes exactly that task |
| Fleet.NearestStation | amr_dashboard.py:211-212 | the index of the station `min(key=distance)` picks; stated by `Fleet.NearestStationIsFirstMinimum` |
| Fleet.TickRobot | amr_dashboard.py:190-220 | one robot's status-dependent update within a tick; stated by the `Tick…` lemmas below |
| Fleet.Ticks | amr_dashboard.py:190-220 | n ticks of one robot in a row; used by `Fleet.StrandedRobotStaysStranded` |
| Fleet.NearestFrom | amr_dashboard.py:211-212 | the station found has minimal distance and no earlier station is as near (the first minimum, as `min` picks) |
| Fleet.NearestStationIsFirstMinimum | amr_dashboard.py:211-213 | the nearest station is a station at minimal distance, the first such |
| Fleet.TickIdleUntouched | amr_dashboard.py:190-220 | a tick leaves Idle and Maintenance robots unchanged |
| Fleet.TickMovingReachesPickup | amr_dashboard.py:191-197 | a Moving robot reaching its task's start stands on it, turns Working and targets the task's end, keeping task, battery and count |
| Fleet.TickWorkingCompletes | amr_dashboard.py:204-206 | a Working robot with a task reaching its target completes it: count +1, Idle, no task or target |
| Fleet.TickCharging | amr_dashboard.py:208-220 | a Charging robot with battery > 5 heads for its target or the nearest station; there its battery becomes min(max, battery + 20·dt) and it turns Idle with no target exactly when battery ≥ 0.9·max; its task is kept |
| Fleet.TickKeepsBatteryInRange | amr_dashboard.py:190-220 | with speed and dt non-negative a tick keeps the battery within [0, max] |
| Fleet.TickCompletion | amr_dashboard.py:190-220 | a tick keeps each robot's id, capacity and speed, and completes at most one task per robot, only from Moving or Working, leaving it Idle with no task or target |
| Fleet.StrandedRobotStaysStranded | amr_dashboard.py:208-220 | the battery cut-out comes before the arrival test, so a Charging robot with battery ≤ 5 stays Charging with the same battery, position, odometer and task over any number of ticks |
| Fleet.IdleRobotCanHoldTask | amr_dashboard.py:208-220 | a Charging robot that stands on the station it targets (or on a station with no target yet) becomes Idle while still holding its task on a tick whose capped recharge of 20·dt brings its battery to 90% of max or more |
| Fleet.AssignStep | amr_dashboard.py:184-187 | the dispatch at the start of a tick: the chosen robot takes the chosen task, which leaves the pending list; stated by `Fleet.AtMostOneAssignment` |
| Fleet.UpdateAll | amr_dashboard.py:190-220 | every robot updated by `TickRobot`, in fleet order |
| Fleet.FleetTick | amr_dashboard.py:182-220 | a whole tick's effect on the robots and the pending list: `AssignStep`, then `UpdateAll`; stated by `Fleet.FleetTickKeepsBatteriesInRange` and `Fleet.FleetTickCompletions` |
| Fleet.AtMostOneAssignment | amr_dashboard.py:184-187 | a tick's dispatch changes nothing, or hands exactly one pending task to exactly one eligible robot and removes it from the list |
| Fleet.AssignStepKeepsPendingSorted | amr_dashboard.py:184-187 | the dispatch, removing one task, keeps the pending list sorted by priority |
| Fleet.FleetTickKeepsBatteriesInRange | amr_dashboard.py:182-220 | with non-negative speeds and dt a whole tick keeps every battery within [0, max] and the speeds non-negative |
| Fleet.TotalCompleted | amr_dashboard.py:223 | the sum of the robots' completion counts; stated by `Fleet.TotalCompletedPointwise` |
| Fleet.CountStatus | amr_dashboard.py:230 | the number of robots in one status; stated by `Fleet.CountStatusIsCardinality` |
| Fleet.CountActive | amr_dashboard.py:224 | the number of robots that are not Idle; stated by `Fleet.CountActiveBounds` |
| Fleet.Efficiency | amr_dashboard.py:225 | 100·(non-Idle robots)/(robots), 0 for an empty fleet; stated by `Fleet.EfficiencyBounds` |
| Fleet.AverageBattery | amr_dashboard.py:238 | the mean battery, 0 for an empty fleet; stated by `Fleet.AverageBatteryBounds` |
| Fleet.CountActiveBounds | amr_dashboard.py:224 | the active count is at most the fleet size, 0 exactly when all are Idle, the fleet size exactly when none is, and it plus the Idle count is the fleet size |
| Fleet.EfficiencyBounds | amr_dashboard.py:224-225 | efficiency is in [0, 100], 0 exactly when every robot is Idle or there is none, and 100 exactly when the fleet is non-empty and no robot is Idle |
| Fleet.StatusCountsAddUp | amr_dashboard.py:228-230 | the five status counts add up to the number of robots |
| Fleet.CountStatusIsCardinality | amr_dashboard.py:229-230 | each status count is the number of robot indices whose robot is in that status |
| Fleet.SumBatteryBounds | amr_dashboard.py:238 | the battery sum lies between n·lo and n·hi when every battery is in [lo, hi] |
| Fleet.AverageBatteryBounds | amr_dashboard.py:238 | the average battery lies in [lo, hi] when every battery does |
| Fleet.TotalCompletedPointwise | amr_dashboard.py:223 | when each robot's count stays or grows by one, the total stays or grows by at most the fleet size |
| Fleet.AssignStepKeepsCounts | amr_dashboard.py:184-187 | the dispatch changes no robot's completion count |
| Fleet.UpdateAllCompletions | amr_dashboard.py:190-220 | updating every robot raises each completion count by at most one and never lowers it |
| Fleet.FleetTickCompletions | amr_dashboard.py:182-223 | a tick never lowers the total completed count and raises it by at most the number of robots |
| Fleet.Snapshot | amr_dashboard.py:227-239 | the report has the five status keys, each mapped to the count of robots in that status, the counts adding up to the robot count, plus the pending count and the stored metrics; the average battery is the exact mean `AverageBattery` of the robots' batteries, 0 for an empty fleet |
| Fleet.SnapshotAverageInRange | amr_dashboard.py:238 | with batteries in [0, 100] the reported average is in [0, 100] |
| Fleet.Stop | amr_dashboard.py:347-349 | emergency stop of one robot: Idle, no target, task dropped; stated by `Fleet.EmergencyStopEffect` |
| Fleet.WithSpeed | amr_dashboard.py:354 | the slider value times two as the new speed; stated by `Fleet.SpeedScalingEffect` |
| Fleet.SendToCharge | amr_dashboard.py:538-540 | below 90 battery: Charging with no target, task kept; otherwise unchanged; stated by `Fleet.ChargeAllEffect` |
| Fleet.EmergencyStopEffect | amr_dashboard.py:344-349 | after the stop the efficiency of the stopped fleet (`Efficiency(MapStop(states))`) is 0 (the stored efficiency and the report keep their old value until the next tick recomputes them, after that tick's dispatch, as in the source), and no robot holds a task or target, positions, batteries and completions are kept, and a robot is eligible again exactly when its battery is above 20 |
| Fleet.SpeedScalingEffect | amr_dashboard.py:351-354 | a slider value in its range [0.1, 3.0] gives every robot speed 2·val in [0.2, 6.0] and changes nothing else |
| Fleet.ChargeAllEffect | amr_dashboard.py:536-540 | robots below 90 turn Charging with no target and keep their task, battery, position, odometer, count and everything else; the others are unchanged; on the next tick such a robot that can move, and is at least 0.5 from its nearest station, targets that station |
| Fleet.FleetManager.constructor | amr_dashboard.py:148-157 | a new fleet has no robots, an empty scheduler, the three stations (5,5), (45,5), (25,25), a 50 × 30 grid by default and zero metrics |
| Fleet.FleetManager.AddRobot | amr_dashboard.py:159-160 | the robot is appended to the fleet |
| Fleet.FleetManager.UpdateRobot | amr_dashboard.py:190-220 | the robot's new state is `TickRobot` of its old state |
| Fleet.FleetManager.Dispatch | amr_dashboard.py:184-187 | the robots and the pending list become those of `AssignStep` |
| Fleet.FleetManager.TickRobots | amr_dashboard.py:190-220 | every robot's new state is `TickRobot` of its state after the dispatch |
| Fleet.FleetManager.UpdateFleet | amr_dashboard.py:182-225 | the robots and pending list become those of `FleetTick`; total completed is the sum of the counts and efficiency is 100·(non-Idle robots)/(robots), 0 for an empty fleet |
| Fleet.FleetManager.GetFleetStatus | amr_dashboard.py:227-239 | the report maps each status name to the number of robots in that status, the counts add up to the fleet size, with the pending count, the stored metrics and the exact mean battery `AverageBattery` |
| Fleet.FleetManager.EmergencyStop | amr_dashboard.py:344-349 | every robot becomes Idle with no target and no task (the control panel's copy at lines 526-530 does the same) |
| Fleet.FleetManager.UpdateSpeed | amr_dashboard.py:351-354 | every robot's speed becomes 2·val |
| Fleet.FleetManager.ChargeAll | amr_dashboard.py:536-540 | every robot with battery below 90 becomes Charging with no target |

## Left out

- Floating point: coordinates, battery and speed are exact reals. `np.sqrt`, `np.mean` and the rounding to two decimals in the status report are not modelled.
- Distance is any non-negative metric that is zero from a point to itself, not the Euclidean norm. So the model does not prove that a robot gets within 0.5 of its target in ⌈distance / (speed·dt)⌉ steps. `Robots.MoveReachesTarget` covers the last step.
- Aliasing of positions and tasks: positions and tasks are values. In the source, `assign_task` stamps the robot id on the very task object the scheduler returned, and the step updates the robot's position object in place. Neither is observable in the modelled core, as long as a robot's initial position object is not shared with another robot or a station, and no task object is added to the scheduler twice (otherwise a second dispatch of the same object would re-stamp the task the first robot still holds).
- Fleet.FleetManager.AddRobot: requires that the robot is not already in the fleet, which the source does not check. A robot listed twice would be ticked twice per update.
- Timestamps (`created_time` of a task, `last_maintenance` of a robot) are wall-clock reads and are not modelled.
- The unused planned `path` of a robot, the `simulation_running` flag and the path planner (which only stores the grid size and obstacles) are not modelled.
- `generate_random_task` draws from the global random generator and is not modelled. A task is any `Task` value given to `AddTask`.
- The matplotlib dashboard, the tkinter control panel and `main` are user interface and process wiring. Only the fleet-mutation loops of emergency stop, speed scaling and "send all to charge" are modelled.

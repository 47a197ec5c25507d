/** The task scheduler: a pending list kept in descending priority order by a stable
    sort after every insertion, and a greedy dispatcher that picks the cheapest
    (task, eligible robot) pair, ties going to the first pair in task-major,
    robot-minor order. */
module Scheduler {
  import opened Geometry
  import opened Robots

  // ---------------------------------------------------------------------------
  // The pending list and its stable sort

  /** Tasks appear in non-increasing order of priority. */
  predicate SortedByPriority(s: seq<Task>)
  {
    forall i, j :: 0 <= i < j < |s| ==> s[i].priority >= s[j].priority
  }

  /** The tasks of `s` that have priority `k`, in their order in `s`.  A sort is
      stable when it leaves every such subsequence as it was. */
  function WithPriority(s: seq<Task>, k: int): seq<Task>
  {
    if s == [] then [] else (if s[0].priority == k then [s[0]] else []) + WithPriority(s[1..], k)
  }

  /** Where a stable sort places a task that arrives after all of `s`: behind every
      task of at least its priority. */
  function InsertPos(s: seq<Task>, t: Task): (k: nat)
    ensures k <= |s|
    ensures k < |s| ==> s[k].priority < t.priority
    ensures forall i :: 0 <= i < k ==> s[i].priority >= t.priority
  {
    if s == [] then 0
    else if s[0].priority >= t.priority then 1 + InsertPos(s[1..], t)
    else 0
  }

  function Insert(s: seq<Task>, t: Task): seq<Task>
  {
    var k := InsertPos(s, t);
    s[..k] + [t] + s[k..]
  }

  /** The list `sort(key=priority, reverse=True)` produces: an insertion sort,
      each task going behind the earlier tasks of at least its priority. */
  function SortByPriority(s: seq<Task>): seq<Task>
  {
    if s == [] then [] else Insert(SortByPriority(s[..|s| - 1]), s[|s| - 1])
  }

  lemma {:induction false} WithPriorityAppend(a: seq<Task>, b: seq<Task>, k: int)
    ensures WithPriority(a + b, k) == WithPriority(a, k) + WithPriority(b, k)
  {
    if a != [] {
      assert (a + b)[0] == a[0];
      assert (a + b)[1..] == a[1..] + b;
      WithPriorityAppend(a[1..], b, k);
    } else {
      assert a + b == b;
    }
  }

  lemma {:induction false} WithPriorityNone(s: seq<Task>, k: int)
    requires forall j :: 0 <= j < |s| ==> s[j].priority != k
    ensures WithPriority(s, k) == []
  {
    if s != [] {
      WithPriorityNone(s[1..], k);
    }
  }

  lemma WithPriorityHead(s: seq<Task>)
    ensures s != [] ==> |WithPriority(s, s[0].priority)| > 0
  {
  }

  /** Every task picked out by WithPriority has that priority and comes from the list. */
  lemma {:induction false} WithPriorityMember(s: seq<Task>, k: int, i: nat)
    requires i < |WithPriority(s, k)|
    ensures exists j :: 0 <= j < |s| && s[j] == WithPriority(s, k)[i] && s[j].priority == k
  {
    if s[0].priority == k && i == 0 {
      assert s[0] == WithPriority(s, k)[0];
    } else {
      var i' := if s[0].priority == k then i - 1 else i;
      assert WithPriority(s, k)[i] == WithPriority(s[1..], k)[i'];
      WithPriorityMember(s[1..], k, i');
      var j :| 0 <= j < |s[1..]| && s[1..][j] == WithPriority(s[1..], k)[i'] && s[1..][j].priority == k;
      assert s[j + 1] == s[1..][j];
    }
  }

  lemma InsertSorted(s: seq<Task>, t: Task)
    requires SortedByPriority(s)
    ensures SortedByPriority(Insert(s, t))
  {
    var i := InsertPos(s, t);
    var r := Insert(s, t);
    assert |r| == |s| + 1;
    assert forall a :: 0 <= a < i ==> r[a] == s[a];
    assert r[i] == t;
    assert forall a :: i < a < |r| ==> r[a] == s[a - 1];
  }

  lemma InsertPermutes(s: seq<Task>, t: Task)
    ensures multiset(Insert(s, t)) == multiset(s) + multiset{t}
  {
    var i := InsertPos(s, t);
    assert s == s[..i] + s[i..];
  }

  /** Moving `t` behind `back` does not change the tasks of priority `k` when
      `back` has none of priority `k` or `t` is not of priority `k`. */
  lemma WithPriorityMoveBehind(front: seq<Task>, t: Task, back: seq<Task>, k: int)
    requires t.priority == k ==> WithPriority(back, k) == []
    ensures WithPriority(front + [t] + back, k) == WithPriority(front + back + [t], k)
  {
    WithPriorityAppend(front + [t], back, k);
    WithPriorityAppend(front, [t], k);
    WithPriorityAppend(front + back, [t], k);
    WithPriorityAppend(front, back, k);
    if t.priority != k {
      assert WithPriority([t], k) == [];
    }
  }

  lemma InsertStable(s: seq<Task>, t: Task, k: int)
    requires SortedByPriority(s)
    ensures WithPriority(Insert(s, t), k) == WithPriority(s + [t], k)
  {
    var i := InsertPos(s, t);
    var front, back := s[..i], s[i..];
    assert s == front + back;
    if t.priority == k {
      assert forall j :: 0 <= j < |back| ==> back[j] == s[i + j];
      WithPriorityNone(back, k);
    }
    WithPriorityMoveBehind(front, t, back, k);
  }

  /** The re-sort yields a list in descending priority order. */
  lemma {:induction false} SortSorted(s: seq<Task>)
    ensures SortedByPriority(SortByPriority(s))
    ensures multiset(SortByPriority(s)) == multiset(s)
    ensures forall k :: WithPriority(SortByPriority(s), k) == WithPriority(s, k)
  {
    if s != [] {
      var init, last := s[..|s| - 1], s[|s| - 1];
      assert s == init + [last];
      SortSorted(init);
      InsertSorted(SortByPriority(init), last);
      InsertPermutes(SortByPriority(init), last);
      forall k ensures WithPriority(SortByPriority(s), k) == WithPriority(s, k) {
        InsertStable(SortByPriority(init), last, k);
        WithPriorityAppend(SortByPriority(init), [last], k);
        WithPriorityAppend(init, [last], k);
      }
    }
  }

  /** A list sorted by priority is determined by its per-priority subsequences: any
      two stable descending sorts of the same input are the same list. */
  lemma {:induction false} StableSortUnique(a: seq<Task>, b: seq<Task>)
    requires SortedByPriority(a) && SortedByPriority(b)
    requires forall k :: WithPriority(a, k) == WithPriority(b, k)
    ensures a == b
    decreases |a|
  {
    if a == [] && b == [] {
    } else if a == [] || b == [] {
      WithPriorityHead(a);
      WithPriorityHead(b);
      assert false;
    } else {
      var pa, pb := a[0].priority, b[0].priority;
      assert pa == pb by {
        assert |WithPriority(b, pa)| > 0 by { assert |WithPriority(a, pa)| > 0; }
        assert |WithPriority(a, pb)| > 0 by { assert |WithPriority(b, pb)| > 0; }
        WithPriorityMember(b, pa, 0);
        WithPriorityMember(a, pb, 0);
        var ja :| 0 <= ja < |b| && b[ja].priority == pa;
        var jb :| 0 <= jb < |a| && a[jb].priority == pb;
        assert ja == 0 || b[0].priority >= b[ja].priority;
        assert jb == 0 || a[0].priority >= a[jb].priority;
      }
      assert a[0] == b[0] by {
        assert WithPriority(a, pa) == [a[0]] + WithPriority(a[1..], pa);
        assert WithPriority(b, pa) == [b[0]] + WithPriority(b[1..], pa);
        assert WithPriority(a, pa)[0] == a[0];
        assert WithPriority(b, pa)[0] == b[0];
      }
      forall k ensures WithPriority(a[1..], k) == WithPriority(b[1..], k) {
        var head := if pa == k then [a[0]] else [];
        assert WithPriority(a, k) == head + WithPriority(a[1..], k);
        assert WithPriority(b, k) == head + WithPriority(b[1..], k);
        assert WithPriority(a[1..], k) == WithPriority(a, k)[|head|..];
        assert WithPriority(b[1..], k) == WithPriority(b, k)[|head|..];
      }
      StableSortUnique(a[1..], b[1..]);
      assert a == [a[0]] + a[1..] && b == [b[0]] + b[1..];
    }
  }

  /** Appending to a list that is already sorted and re-sorting amounts to one
      insertion behind the tasks of at least the new task's priority. */
  lemma ResortOfSortedIsInsert(s: seq<Task>, t: Task)
    requires SortedByPriority(s)
    ensures SortByPriority(s + [t]) == Insert(s, t)
  {
    SortSorted(s + [t]);
    InsertSorted(s, t);
    forall k ensures WithPriority(Insert(s, t), k) == WithPriority(s + [t], k) {
      InsertStable(s, t, k);
    }
    StableSortUnique(SortByPriority(s + [t]), Insert(s, t));
  }

  // ---------------------------------------------------------------------------
  // Removal from the pending list

  function RemoveAt(s: seq<Task>, i: nat): seq<Task>
    requires i < |s|
  {
    s[..i] + s[i + 1..]
  }

  /** Python's `list.remove`: drops the first element equal to `x`. */
  function RemoveFirst(s: seq<Task>, x: Task): seq<Task>
    requires x in s
  {
    if s[0] == x then s[1..] else [s[0]] + RemoveFirst(s[1..], x)
  }

  lemma {:induction false} RemoveFirstAt(s: seq<Task>, i: nat)
    requires i < |s|
    requires forall j :: 0 <= j < i ==> s[j] != s[i]
    ensures RemoveFirst(s, s[i]) == RemoveAt(s, i)
  {
    if i > 0 {
      assert s[1..][i - 1] == s[i];
      RemoveFirstAt(s[1..], i - 1);
      assert s[1..][..i - 1] == s[1..i];
      assert s[1..][i..] == s[i + 1..];
      assert [s[0]] + s[1..i] == s[..i];
    }
  }

  /** Removing one task keeps the rest in their order, so the list stays sorted
      and loses exactly that task. */
  lemma RemoveAtKeepsOrder(s: seq<Task>, i: nat)
    requires i < |s|
    ensures SortedByPriority(s) ==> SortedByPriority(RemoveAt(s, i))
    ensures multiset(RemoveAt(s, i)) + multiset{s[i]} == multiset(s)
    ensures forall j :: 0 <= j < i ==> RemoveAt(s, i)[j] == s[j]
    ensures forall j :: i <= j < |s| - 1 ==> RemoveAt(s, i)[j] == s[j + 1]
  {
    assert s == s[..i] + [s[i]] + s[i + 1..];
    var r := RemoveAt(s, i);
    if SortedByPriority(s) {
      forall a, b | 0 <= a < b < |r| ensures r[a].priority >= r[b].priority {
        var a' := if a < i then a else a + 1;
        var b' := if b < i then b else b + 1;
        assert r[a] == s[a'] && r[b] == s[b'];
      }
    }
  }

  // ---------------------------------------------------------------------------
  // Dispatch

  /** Battery a robot must exceed to be given a task. */
  const MinDispatchBattery: real := 20.0

  /** The robots the dispatcher considers: Idle with battery above 20. */
  predicate Eligible(s: RobotState)
  {
    s.status == Idle && s.battery > MinDispatchBattery
  }

  /** The cost of sending a robot to a task: distance to the task's start plus a
      penalty of 0.1 per battery unit below 100. */
  function Score(s: RobotState, t: Task, dist: Metric): real
  {
    dist(s.position, t.startPos) + (100.0 - s.battery) * 0.1
  }

  /** The indices, from `i` on and in fleet order, of the eligible robots. */
  function AvailableFrom(states: seq<RobotState>, i: nat): (r: seq<nat>)
    requires i <= |states|
    decreases |states| - i
    ensures forall k :: 0 <= k < |r| ==> i <= r[k] < |states| && Eligible(states[r[k]])
    ensures forall k, l :: 0 <= k < l < |r| ==> r[k] < r[l]
    ensures forall j :: i <= j < |states| && Eligible(states[j]) ==> j in r
  {
    if i == |states| then []
    else (if Eligible(states[i]) then [i] else []) + AvailableFrom(states, i + 1)
  }

  /** The source's `available_robots`, as indices into the fleet. */
  function Available(states: seq<RobotState>): seq<nat>
  {
    AvailableFrom(states, 0)
  }

  predicate ValidSlots(avail: seq<nat>, states: seq<RobotState>)
  {
    forall k :: 0 <= k < |avail| ==> avail[k] < |states|
  }

  /** The best pair found so far: a task index, a slot in the available list and
      its score.  None stands for the initial infinite best score. */
  datatype Best = Best(task: nat, slot: nat, score: real)

  predicate InBounds(best: Option<Best>, tasks: seq<Task>, avail: seq<nat>)
  {
    best.Some? ==> best.value.task < |tasks| && best.value.slot < |avail|
  }

  /** The inner loop: robots of the available list from slot `k` on, for task `ti`;
      a pair replaces the best one only with a strictly smaller score. */
  function ScanRobots(tasks: seq<Task>, states: seq<RobotState>, avail: seq<nat>,
                      ti: nat, k: nat, best: Option<Best>, dist: Metric): (r: Option<Best>)
    requires ti < |tasks| && k <= |avail| && ValidSlots(avail, states)
    decreases |avail| - k
    ensures InBounds(best, tasks, avail) ==> InBounds(r, tasks, avail)
  {
    if k == |avail| then best
    else
      var score := Score(states[avail[k]], tasks[ti], dist);
      var best' := if best.None? || score < best.value.score then Some(Best(ti, k, score)) else best;
      ScanRobots(tasks, states, avail, ti, k + 1, best', dist)
  }

  /** The outer loop: tasks from index `ti` on. */
  function ScanTasks(tasks: seq<Task>, states: seq<RobotState>, avail: seq<nat>,
                     ti: nat, best: Option<Best>, dist: Metric): (r: Option<Best>)
    requires ti <= |tasks| && ValidSlots(avail, states)
    decreases |tasks| - ti
    ensures InBounds(best, tasks, avail) ==> InBounds(r, tasks, avail)
  {
    if ti == |tasks| then best
    else ScanTasks(tasks, states, avail, ti + 1, ScanRobots(tasks, states, avail, ti, 0, best, dist), dist)
  }

  /** The choice `assign_optimal_robot` makes: a task index and a robot index, or
      None when there is no task or no eligible robot. */
  function Select(tasks: seq<Task>, states: seq<RobotState>, dist: Metric): Option<(nat, nat)>
  {
    if |tasks| == 0 then None
    else
      var avail := Available(states);
      if |avail| == 0 then None
      else
        match ScanTasks(tasks, states, avail, 0, None, dist)
        case None => None
        case Some(b) => Some((b.task, avail[b.slot]))
  }

  /** (t, j) comes before (ti, ri) in task-major, robot-minor order. */
  predicate Before(t: nat, j: nat, ti: nat, ri: nat)
  {
    t < ti || (t == ti && j < ri)
  }

  /** The pair (ti, ri) is the dispatcher's intended answer: an eligible robot and a
      pending task whose score no (task, eligible robot) pair beats, and every pair
      before it in scan order scores strictly more. */
  ghost predicate FirstMinimum(tasks: seq<Task>, states: seq<RobotState>, dist: Metric, ti: nat, ri: nat)
  {
    ti < |tasks| && ri < |states| && Eligible(states[ri]) &&
    (forall t, j :: 0 <= t < |tasks| && 0 <= j < |states| && Eligible(states[j]) ==>
      Score(states[ri], tasks[ti], dist) <= Score(states[j], tasks[t], dist)) &&
    (forall t, j :: 0 <= t < |tasks| && 0 <= j < |states| && Eligible(states[j]) && Before(t, j, ti, ri) ==>
      Score(states[ri], tasks[ti], dist) < Score(states[j], tasks[t], dist))
  }

  /** The tie rule leaves no choice: at most one pair is the first minimum. */
  lemma FirstMinimumUnique(tasks: seq<Task>, states: seq<RobotState>, dist: Metric,
                           t1: nat, r1: nat, t2: nat, r2: nat)
    requires FirstMinimum(tasks, states, dist, t1, r1)
    requires FirstMinimum(tasks, states, dist, t2, r2)
    ensures t1 == t2 && r1 == r2
  {
    assert Score(states[r1], tasks[t1], dist) <= Score(states[r2], tasks[t2], dist);
    assert Score(states[r2], tasks[t2], dist) <= Score(states[r1], tasks[t1], dist);
  }

  /** `best` is the first minimum over the (task, slot) pairs the scan has visited
      before reaching task `ti` and slot `kb`. */
  ghost predicate Summarises(tasks: seq<Task>, states: seq<RobotState>, avail: seq<nat>, dist: Metric,
                             ti: nat, kb: nat, best: Option<Best>)
    requires ValidSlots(avail, states)
  {
    match best
    case None => (ti == 0 && kb == 0) || |avail| == 0
    case Some(b) =>
      b.task < |tasks| && b.slot < |avail| && Before(b.task, b.slot, ti, kb) &&
      b.score == Score(states[avail[b.slot]], tasks[b.task], dist) &&
      (forall t, k :: 0 <= t < |tasks| && 0 <= k < |avail| && Before(t, k, ti, kb) ==>
        b.score <= Score(states[avail[k]], tasks[t], dist)) &&
      (forall t, k :: 0 <= t < |tasks| && 0 <= k < |avail| && Before(t, k, b.task, b.slot) ==>
        b.score < Score(states[avail[k]], tasks[t], dist))
  }

  lemma {:induction false} ScanRobotsCorrect(tasks: seq<Task>, states: seq<RobotState>, avail: seq<nat>,
                                             ti: nat, k: nat, best: Option<Best>, dist: Metric)
    requires ti < |tasks| && k <= |avail| && ValidSlots(avail, states)
    requires Summarises(tasks, states, avail, dist, ti, k, best)
    ensures Summarises(tasks, states, avail, dist, ti + 1, 0, ScanRobots(tasks, states, avail, ti, k, best, dist))
    decreases |avail| - k
  {
    if k == |avail| {
      if best.Some? {
        var b := best.value;
        forall t, l | 0 <= t < |tasks| && 0 <= l < |avail| && Before(t, l, ti + 1, 0)
          ensures b.score <= Score(states[avail[l]], tasks[t], dist)
        {
          assert Before(t, l, ti, k);
        }
      }
    } else {
      var score := Score(states[avail[k]], tasks[ti], dist);
      var best' := if best.None? || score < best.value.score then Some(Best(ti, k, score)) else best;
      assert Summarises(tasks, states, avail, dist, ti, k + 1, best') by {
        var b' := best'.value;
        forall t, l | 0 <= t < |tasks| && 0 <= l < |avail| && Before(t, l, ti, k + 1)
          ensures b'.score <= Score(states[avail[l]], tasks[t], dist)
        {
          if best.Some? && Before(t, l, ti, k) {
            assert best.value.score <= Score(states[avail[l]], tasks[t], dist);
          }
        }
        forall t, l | 0 <= t < |tasks| && 0 <= l < |avail| && Before(t, l, b'.task, b'.slot)
          ensures b'.score < Score(states[avail[l]], tasks[t], dist)
        {
          if best.Some? {
            if best' == Some(Best(ti, k, score)) {
              assert Before(t, l, ti, k);
              assert best.value.score <= Score(states[avail[l]], tasks[t], dist);
            } else {
              assert best.value.score < Score(states[avail[l]], tasks[t], dist);
            }
          }
        }
      }
      ScanRobotsCorrect(tasks, states, avail, ti, k + 1, best', dist);
    }
  }

  lemma {:induction false} ScanTasksCorrect(tasks: seq<Task>, states: seq<RobotState>, avail: seq<nat>,
                                            ti: nat, best: Option<Best>, dist: Metric)
    requires ti <= |tasks| && ValidSlots(avail, states)
    requires Summarises(tasks, states, avail, dist, ti, 0, best)
    ensures Summarises(tasks, states, avail, dist, |tasks|, 0, ScanTasks(tasks, states, avail, ti, best, dist))
    decreases |tasks| - ti
  {
    if ti < |tasks| {
      ScanRobotsCorrect(tasks, states, avail, ti, 0, best, dist);
      ScanTasksCorrect(tasks, states, avail, ti + 1, ScanRobots(tasks, states, avail, ti, 0, best, dist), dist);
    }
  }

  /** The dispatcher finds nothing exactly when there is no pending task or no
      eligible robot. */
  lemma SelectNone(tasks: seq<Task>, states: seq<RobotState>, dist: Metric)
    ensures Select(tasks, states, dist).None? <==>
      (|tasks| == 0 || forall j :: 0 <= j < |states| ==> !Eligible(states[j]))
  {
    var avail := Available(states);
    if |tasks| > 0 && |avail| > 0 {
      ScanTasksCorrect(tasks, states, avail, 0, None, dist);
    }
    if |avail| == 0 {
      assert forall j :: 0 <= j < |states| ==> !Eligible(states[j]);
    } else {
      assert Eligible(states[avail[0]]);
    }
  }

  /** The scan's final best pair scores no more than any (task, eligible robot) pair. */
  lemma SummaryIsMinimal(tasks: seq<Task>, states: seq<RobotState>, dist: Metric, b: Best)
    requires Summarises(tasks, states, Available(states), dist, |tasks|, 0, Some(b))
    ensures b.slot < |Available(states)|
    ensures forall t, j :: 0 <= t < |tasks| && 0 <= j < |states| && Eligible(states[j]) ==>
      Score(states[Available(states)[b.slot]], tasks[b.task], dist) <= Score(states[j], tasks[t], dist)
  {
    var avail := Available(states);
    forall t, j | 0 <= t < |tasks| && 0 <= j < |states| && Eligible(states[j])
      ensures Score(states[avail[b.slot]], tasks[b.task], dist) <= Score(states[j], tasks[t], dist)
    {
      assert j in avail;
      var l :| 0 <= l < |avail| && avail[l] == j;
      assert Before(t, l, |tasks|, 0);
    }
  }

  /** Every (task, eligible robot) pair before the scan's final best pair, in robot
      indices, scores strictly more. */
  lemma SummaryIsFirst(tasks: seq<Task>, states: seq<RobotState>, dist: Metric, b: Best)
    requires Summarises(tasks, states, Available(states), dist, |tasks|, 0, Some(b))
    ensures b.slot < |Available(states)|
    ensures forall t, j ::
      (0 <= t < |tasks| && 0 <= j < |states| && Eligible(states[j]) &&
       Before(t, j, b.task, Available(states)[b.slot])) ==>
      Score(states[Available(states)[b.slot]], tasks[b.task], dist) < Score(states[j], tasks[t], dist)
  {
    var avail := Available(states);
    var ri := avail[b.slot];
    forall t, j | 0 <= t < |tasks| && 0 <= j < |states| && Eligible(states[j]) && Before(t, j, b.task, ri)
      ensures Score(states[ri], tasks[b.task], dist) < Score(states[j], tasks[t], dist)
    {
      assert j in avail;
      var l :| 0 <= l < |avail| && avail[l] == j;
      assert t == b.task ==> l < b.slot;
      assert Before(t, l, b.task, b.slot);
    }
  }

  /** Reads the scan's final summary, stated over slots of the available list, as
      a statement over robot indices. */
  lemma SummaryIsFirstMinimum(tasks: seq<Task>, states: seq<RobotState>, dist: Metric, b: Best)
    requires Summarises(tasks, states, Available(states), dist, |tasks|, 0, Some(b))
    ensures FirstMinimum(tasks, states, dist, b.task, Available(states)[b.slot])
  {
    SummaryIsMinimal(tasks, states, dist, b);
    SummaryIsFirst(tasks, states, dist, b);
  }

  /** A choice made is the first minimum over all (pending task, eligible robot)
      pairs. */
  lemma SelectIsFirstMinimum(tasks: seq<Task>, states: seq<RobotState>, dist: Metric)
    requires Select(tasks, states, dist).Some?
    ensures FirstMinimum(tasks, states, dist, Select(tasks, states, dist).value.0,
                         Select(tasks, states, dist).value.1)
  {
    var avail := Available(states);
    ScanTasksCorrect(tasks, states, avail, 0, None, dist);
    SummaryIsFirstMinimum(tasks, states, dist, ScanTasks(tasks, states, avail, 0, None, dist).value);
  }

  /** The chosen task is the first pending task equal to itself, so Python's
      `list.remove` drops exactly the chosen index. */
  lemma SelectRemovesChosen(tasks: seq<Task>, states: seq<RobotState>, dist: Metric)
    requires Select(tasks, states, dist).Some?
    ensures Select(tasks, states, dist).value.0 < |tasks|
    ensures RemoveFirst(tasks, tasks[Select(tasks, states, dist).value.0]) ==
            RemoveAt(tasks, Select(tasks, states, dist).value.0)
  {
    SelectIsFirstMinimum(tasks, states, dist);
    var (ti, ri) := Select(tasks, states, dist).value;
    forall j | 0 <= j < ti ensures tasks[j] != tasks[ti] {
      assert Before(j, ri, ti, ri);
      assert Score(states[ri], tasks[ti], dist) < Score(states[ri], tasks[j], dist);
    }
    RemoveFirstAt(tasks, ti);
  }

  /** The nested loops of `assign_optimal_robot`: every pending task against every
      available robot, keeping the first pair of strictly smallest score. */
  method ScanPairs(tasks: seq<Task>, robots: seq<Robot>, states: seq<RobotState>,
                   available: seq<nat>, dist: Metric) returns (best: Option<Best>)
    requires states == StatesOf(robots) && ValidSlots(available, states)
    ensures best == ScanTasks(tasks, states, available, 0, None, dist)
    ensures InBounds(best, tasks, available)
  {
    best := None;
    var ti := 0;
    while ti < |tasks|
      invariant ti <= |tasks|
      invariant InBounds(best, tasks, available)
      invariant ScanTasks(tasks, states, available, ti, best, dist) ==
                ScanTasks(tasks, states, available, 0, None, dist)
    {
      var k := 0;
      while k < |available|
        invariant k <= |available|
        invariant InBounds(best, tasks, available)
        invariant ScanTasks(tasks, states, available, ti + 1, ScanRobots(tasks, states, available, ti, k, best, dist), dist) ==
                  ScanTasks(tasks, states, available, 0, None, dist)
      {
        var robot := robots[available[k]];
        assert robot.State() == states[available[k]];
        var distance := dist(robot.position, tasks[ti].startPos);
        var batteryPenalty := (100.0 - robot.battery) * 0.1;
        var score := distance + batteryPenalty;
        assert score == Score(states[available[k]], tasks[ti], dist);
        ghost var previous := best;
        if best.None? || score < best.value.score {
          best := Some(Best(ti, k, score));
        }
        assert ScanRobots(tasks, states, available, ti, k, previous, dist) ==
               ScanRobots(tasks, states, available, ti, k + 1, best, dist);
        k := k + 1;
      }
      ti := ti + 1;
    }
  }

  /** The scheduler's state: the pending tasks. */
  class TaskScheduler {
    var pendingTasks: seq<Task>

    constructor ()
      ensures pendingTasks == []
    {
      pendingTasks := [];
    }

    /** Appends the task and re-sorts the whole list by descending priority. */
    method AddTask(task: Task)
      modifies this
      ensures pendingTasks == SortByPriority(old(pendingTasks) + [task])
      ensures SortedByPriority(pendingTasks)
      ensures multiset(pendingTasks) == multiset(old(pendingTasks)) + multiset{task}
      ensures forall k :: WithPriority(pendingTasks, k) == WithPriority(old(pendingTasks) + [task], k)
    {
      pendingTasks := pendingTasks + [task];
      SortSorted(pendingTasks);
      pendingTasks := SortByPriority(pendingTasks);
    }

    /** Picks the cheapest (task, eligible robot) pair, removes that task from the
        pending list and returns the pair; None, with the list untouched, when
        there is no task or no eligible robot. */
    method AssignOptimalRobot(robots: seq<Robot>, dist: Metric) returns (assignment: Option<(Robot, Task)>)
      modifies this
      ensures var choice := Select(old(pendingTasks), StatesOf(robots), dist);
        match choice
        case None => assignment.None? && pendingTasks == old(pendingTasks)
        case Some((ti, ri)) =>
          ti < |old(pendingTasks)| && ri < |robots| &&
          assignment == Some((robots[ri], old(pendingTasks)[ti])) &&
          pendingTasks == RemoveAt(old(pendingTasks), ti)
    {
      var tasks := pendingTasks;
      if |tasks| == 0 {
        return None;
      }
      var states := StatesOf(robots);
      var available := Available(states);
      if |available| == 0 {
        return None;
      }
      var best := ScanPairs(tasks, robots, states, available, dist);
      match best
      case None =>
        assert Select(tasks, states, dist).None?;
        return None;
      case Some(b) =>
        var robot, task := robots[available[b.slot]], tasks[b.task];
        assert Select(tasks, states, dist) == Some((b.task, available[b.slot]));
        SelectRemovesChosen(tasks, states, dist);
        pendingTasks := RemoveFirst(tasks, task);
        assert pendingTasks == RemoveAt(tasks, b.task);
        return Some((robot, task));
    }

  }
}

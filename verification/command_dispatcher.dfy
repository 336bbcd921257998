/**
 The dispatcher: the timer loop that picks the pending job with the smallest
 delay, waits that long, and if the job is still first and the car is idle,
 takes it. One loop iteration is modelled as two pure steps around the wait,
 PlanWait and AfterWait, with the clock reading `now` and the elevator
 status as inputs. The iteration order of the registry (a hash map) is an
 input `order` that lists the keys.
 */
module CommandDispatcher {
  import opened Common
  import opened Costs
  import opened JobQueue
  import opened CommandHandler

  // ---------------------------------------------------------------------
  // Cost recalculation when the car comes to rest

  /** Entries the recalculation keeps: cabin jobs and jobs whose delay is
      exactly the takeover timeout. */
  predicate Pinned(delay: int)
  {
    delay == CabinJob || delay == JobTimeout
  }

  /** Re-derives every unpinned delay from the car's resting floor. With the
      floor unknown (0) nothing changes. The set of jobs never changes. */
  function RecalculateJobCosts(jobs: Jobs, currentFloor: int): (jobs': Jobs)
    ensures currentFloor == 0 ==> jobs' == jobs
    ensures jobs'.Keys == jobs.Keys
    ensures forall t :: t in jobs && Pinned(jobs[t]) ==> jobs'[t] == jobs[t]
    ensures currentFloor != 0 ==>
              forall t :: t in jobs && !Pinned(jobs[t]) ==> jobs'[t] == RecalculateCost(t, currentFloor)
    ensures WellFormed(jobs) ==> WellFormed(jobs')
  {
    if currentFloor == 0 then jobs
    else map t | t in jobs :: if Pinned(jobs[t]) then jobs[t] else RecalculateCost(t, currentFloor)
  }

  /** Recalculating twice from the same floor is the same as once. */
  lemma RecalculateIdempotent(jobs: Jobs, currentFloor: int)
    ensures RecalculateJobCosts(RecalculateJobCosts(jobs, currentFloor), currentFloor)
         == RecalculateJobCosts(jobs, currentFloor)
  {
  }

  /** Only a delay of exactly JobTimeout is protected. A peer's `take` for a
      job this node never bid on, or bid 0 on, leaves exactly JobTimeout and
      survives; a job whose own positive bid was extended by the `take` gets
      a fresh distance cost again, so the takeover extension is lost. */
  lemma RecalculateDropsExtendedTakeover(jobs: Jobs, t: int, floor: int)
    requires floor != 0
    ensures var bid := if t in jobs then jobs[t] else 0;
            var recalculated := RecalculateJobCosts(MarkRequestTaken(jobs, t), floor);
            && (bid == 0 ==> recalculated[t] == JobTimeout)
            && (bid == CabinJob - JobTimeout ==> recalculated[t] == CabinJob)
            && (bid != 0 && bid != CabinJob - JobTimeout ==> recalculated[t] == RecalculateCost(t, floor))
  {
  }

  // ---------------------------------------------------------------------
  // Minimum-delay job selection

  /** `order` lists exactly the keys of the registry. */
  predicate Enumerates(order: seq<int>, jobs: Jobs)
  {
    && (forall i :: 0 <= i < |order| ==> order[i] in jobs)
    && (forall t :: t in jobs ==> t in order)
  }

  /** Position `j` holds the first smallest delay among the first `n` keys. */
  predicate IsFirstMin(jobs: Jobs, order: seq<int>, n: nat, j: nat)
    requires n <= |order|
    requires forall i :: 0 <= i < |order| ==> order[i] in jobs
  {
    && j < n
    && (forall m :: 0 <= m < n ==> jobs[order[j]] <= jobs[order[m]])
    && (forall m :: 0 <= m < j ==> jobs[order[m]] > jobs[order[j]])
  }

  /** The selection loop from position `i` on, with `best` the position
      chosen so far: a later key replaces it only with a strictly smaller
      delay. */
  function Scan(jobs: Jobs, order: seq<int>, i: nat, best: Option<nat>): (r: Option<nat>)
    requires forall k :: 0 <= k < |order| ==> order[k] in jobs
    requires i <= |order|
    requires best.None? <==> i == 0
    requires best.Some? ==> IsFirstMin(jobs, order, i, best.value)
    ensures r.None? <==> |order| == 0
    ensures r.Some? ==> IsFirstMin(jobs, order, |order|, r.value)
    decreases |order| - i
  {
    if i == |order| then best
    else
      var next := if best.None? || jobs[order[best.value]] > jobs[order[i]] then Some(i) else best;
      Scan(jobs, order, i + 1, next)
  }

  /** The job with the smallest delay, the first one in iteration order on a
      tie; none exactly when the registry is empty. */
  function FirstJob(jobs: Jobs, order: seq<int>): (r: Option<int>)
    requires Enumerates(order, jobs)
    ensures r.None? <==> |jobs| == 0
    ensures r.Some? ==> r.value in jobs && forall t :: t in jobs ==> jobs[r.value] <= jobs[t]
    ensures r.Some? ==> exists j :: 0 <= j < |order| && order[j] == r.value
                                    && forall m :: 0 <= m < j ==> jobs[order[m]] > jobs[r.value]
  {
    match Scan(jobs, order, 0, None)
    case None =>
      assert |order| == 0;
      assert forall t :: t in jobs ==> t in order;
      assert forall t :: t !in jobs.Keys;
      assert jobs.Keys == {};
      None
    case Some(j) =>
      assert order[j] in jobs;
      assert forall t :: t in jobs ==> jobs[order[j]] <= jobs[t] by {
        forall t | t in jobs ensures jobs[order[j]] <= jobs[t] {
          assert t in order;
          var m :| 0 <= m < |order| && order[m] == t;
        }
      }
      Some(order[j])
  }

  /** `target` is the only job with the smallest delay. */
  ghost predicate UniqueMinimum(jobs: Jobs, target: int)
  {
    target in jobs && forall t :: t in jobs && t != target ==> jobs[target] < jobs[t]
  }

  /** The smallest delay does not depend on the iteration order, and with a
      unique minimum neither does the chosen job. */
  lemma FirstJobOrderIndependent(jobs: Jobs, order1: seq<int>, order2: seq<int>)
    requires Enumerates(order1, jobs) && Enumerates(order2, jobs) && |jobs| > 0
    ensures jobs[FirstJob(jobs, order1).value] == jobs[FirstJob(jobs, order2).value]
    ensures forall t :: UniqueMinimum(jobs, t) ==> FirstJob(jobs, order1) == Some(t) == FirstJob(jobs, order2)
  {
  }

  /** A cabin job beats every bid. */
  lemma CabinJobWins(jobs: Jobs, order: seq<int>, cabin: int)
    requires Enumerates(order, jobs)
    requires cabin in jobs && jobs[cabin] == CabinJob
    requires forall t :: t in jobs && t != cabin ==> jobs[t] >= 0
    ensures FirstJob(jobs, order) == Some(cabin)
  {
  }

  // ---------------------------------------------------------------------
  // One loop iteration

  /** How long the loop waits for the chosen job's delay; 0 means wait until
      woken by a registry change, which is used exactly when there is no job.
      A delay that is not positive is waited as 1 ms. */
  function WaitTimeout(delay: Option<int>): (timeout: nat)
    ensures timeout == 0 <==> delay.None?
    ensures delay.Some? && delay.value > 0 ==> timeout == delay.value
    ensures delay.Some? && delay.value <= 0 ==> timeout == 1
  {
    match delay
    case None => 0
    case Some(d) => if d <= 0 then 1 else d
  }

  /** The decision taken before the wait: the chosen job, the wait timeout
      and the earliest time at which the job may be dispatched. */
  datatype Plan = Plan(current: Option<int>, timeout: nat, nextWakeup: int)

  function PlanWait(jobs: Jobs, order: seq<int>, now: int): (p: Plan)
    requires Enumerates(order, jobs)
    ensures p.current.None? <==> |jobs| == 0
    ensures p.current.None? ==> p.timeout == 0
    ensures p.current.Some? ==>
              && p.current.value in jobs
              && (forall t :: t in jobs ==> jobs[p.current.value] <= jobs[t])
              && p.timeout >= 1
              && (jobs[p.current.value] >= 1 ==> p.timeout == jobs[p.current.value])
    ensures p.nextWakeup == now + p.timeout
  {
    var current := FirstJob(jobs, order);
    var delay := if current.Some? then Some(jobs[current.value]) else None;
    var timeout := WaitTimeout(delay);
    Plan(current, timeout, now + timeout)
  }

  /** Takes the job: announce it, send the car to the floor, drop the entry. */
  function DispatchJob(cfg: Config, jobs: Jobs, target: int): (r: Reaction)
    ensures r.jobs == CancelRequest(jobs, target)
    ensures r.moves == [Abs(target)]
    ensures r.sent == SignalTakeJob(cfg, target)
    ensures InRange(cfg, target) ==> r.sent == [Message(TakeKind, target, cfg.nodeId)]
    ensures r.lamps == []
  {
    Reaction(CancelRequest(jobs, target), [], SignalTakeJob(cfg, target), [Abs(target)])
  }

  /** The step after the wait, against the registry as it is now: the planned
      job is dispatched when it is still the first job, its time has come and
      the car is idle; otherwise nothing happens and the loop re-plans. */
  function AfterWait(cfg: Config, status: Status, plan: Plan, jobs: Jobs, order: seq<int>, now: int): (r: Reaction)
    requires Enumerates(order, jobs)
    ensures r.moves != [] ==>
              && plan.current.Some?
              && IsMinimum(jobs, plan.current.value)
              && now >= plan.nextWakeup && !status.busy
              && r == DispatchJob(cfg, jobs, plan.current.value)
    ensures r.moves == [] ==> r == Unchanged(jobs)
    ensures (plan.current.Some? && UniqueMinimum(jobs, plan.current.value)
             && now >= plan.nextWakeup && !status.busy) ==> r.moves != []
  {
    var first := FirstJob(jobs, order);
    if plan.current.Some? && first == plan.current && now >= plan.nextWakeup && !status.busy then
      DispatchJob(cfg, jobs, plan.current.value)
    else
      Unchanged(jobs)
  }

  /** `target` is still pending with a delay no larger than any other. */
  ghost predicate IsMinimum(jobs: Jobs, target: int)
  {
    target in jobs && forall t :: t in jobs ==> jobs[target] <= jobs[t]
  }

  /** A dispatch removes exactly the dispatched job and keeps the registry
      well formed. */
  lemma AfterWaitFrame(cfg: Config, status: Status, plan: Plan, jobs: Jobs, order: seq<int>, now: int)
    requires Enumerates(order, jobs) && WellFormed(jobs)
    ensures var r := AfterWait(cfg, status, plan, jobs, order, now);
            WellFormed(r.jobs) && r.jobs.Keys <= jobs.Keys && |jobs.Keys - r.jobs.Keys| <= 1
  {
  }
}

/**
 The places where the Java code, read literally, does something other than
 what it evidently means. Targets and floors are Java ints: the distance term
 of both cost formulas is multiplied in 32-bit arithmetic, Math.abs leaves
 Integer.MIN_VALUE negative, and Object.wait(0) waits until notified. Each
 member here follows the code as written and is connected to the corrected
 definition the rest of the model uses.
 */
module AsWritten {
  import opened Common
  import Costs
  import CommandHandler
  import CommandDispatcher

  const MinInt := -0x8000_0000
  const MaxInt := 0x7fff_ffff
  const TwoTo32 := 0x1_0000_0000

  predicate IsInt(x: int)
  {
    MinInt <= x <= MaxInt
  }

  /** Java int arithmetic: the exact result reduced into the 32-bit range. */
  function Wrap(x: int): (r: int)
    ensures IsInt(r)
    ensures IsInt(x) ==> r == x
    ensures (x - r) % TwoTo32 == 0
  {
    (x - MinInt) % TwoTo32 + MinInt
  }

  /** Math.abs on an int: the negation wraps, so Integer.MIN_VALUE is its
      own (negative) absolute value. */
  function JavaAbs(x: int): (r: int)
    requires IsInt(x)
    ensures IsInt(r)
    ensures x != MinInt ==> r == Abs(x)
    ensures x == MinInt ==> r == MinInt
  {
    if x < 0 then Wrap(-x) else x
  }

  /** Floors this far from the car cannot overflow the int distance term. */
  predicate Realistic(target: int, floor: int)
  {
    Abs(target) <= 0x1000_0000 && 0 <= floor <= 0x1000_0000
  }

  /** Math.abs(Math.abs(target) - floor) * COST_EACH_FLOOR, all in int. */
  function DistancePoints(target: int, floor: int): (points: int)
    requires IsInt(target) && IsInt(floor)
    ensures IsInt(points)
    ensures Realistic(target, floor) ==> points == Abs(Abs(target) - floor) * Costs.CostEachFloor
  {
    Wrap(JavaAbs(Wrap(JavaAbs(target) - floor)) * Costs.CostEachFloor)
  }

  /** calculateDelay as written: the distance term in int, then the sum and
      the scaling in long (which cannot overflow for an int term). It agrees
      with the corrected cost for every realistic floor. */
  function CalculateDelay(cfg: Config, status: Status, target: int, source: string): (delay: int)
    requires IsInt(target) && IsInt(status.currentFloor)
    ensures delay % Costs.MillisPerCost == 0
    ensures Realistic(target, status.currentFloor) ==>
              delay == Costs.CalculateDelay(cfg, status, target, source)
  {
    var notHere := if EqualsIgnoreCase(cfg.nodeId, source) then 0 else Costs.CostNotHere;
    var moving := if status.moving then Costs.CostMoving else 0;
    var points := notHere + moving + DistancePoints(target, status.currentFloor);
    assert Realistic(target, status.currentFloor) ==>
             points == notHere + moving + Abs(Abs(target) - status.currentFloor) * Costs.CostEachFloor;
    points * Costs.MillisPerCost
  }

  /** recalculateCost as written, with the same int distance term. */
  function RecalculateCost(target: int, pos: int): (cost: int)
    requires IsInt(target) && IsInt(pos)
    ensures cost % Costs.MillisPerCost == 0
    ensures Realistic(target, pos) ==> cost == Costs.RecalculateCost(target, pos)
  {
    DistancePoints(target, pos) * Costs.MillisPerCost
  }

  /** A request for target 500000000 (no node validates incoming targets)
      gets a negative bid: 499999999 * 5 wraps to -1794967301. Carrying this
      node's own id the bid is -179496730100 ms; from a peer, with the remote
      penalty, -179496729900 ms. The corrected cost is never negative. */
  lemma NegativeBidFromOverflow()
    ensures CalculateDelay(Config("a", 4), Status(1, false, false), 500_000_000, "a") == -179_496_730_100
    ensures CalculateDelay(Config("a", 4), Status(1, false, false), 500_000_000, "b") == -179_496_729_900
    ensures RecalculateCost(500_000_000, 1) == -179_496_730_100
    ensures Costs.CalculateDelay(Config("a", 4), Status(1, false, false), 500_000_000, "a") > 0
  {
    assert !CharsMatchIgnoringCase("a"[0], "b"[0]);
  }

  /** The broadcast guard as written: Math.abs(target) > NUM_FLOORS or
      target == 0 suppresses the message. It agrees with the corrected guard
      on every int but Integer.MIN_VALUE. */
  function InRange(cfg: Config, target: int): (ok: bool)
    requires IsInt(target)
    ensures target != MinInt ==> (ok <==> CommandHandler.InRange(cfg, target))
  {
    !(JavaAbs(target) > cfg.numFloors || target == 0)
  }

  /** Integer.MIN_VALUE passes the guard as written, so a `take` for it can
      be broadcast; the corrected guard rejects it. */
  lemma MinValuePassesGuard(cfg: Config)
    requires 0 <= cfg.numFloors <= MaxInt
    ensures InRange(cfg, MinInt)
    ensures !CommandHandler.InRange(cfg, MinInt)
  {
  }

  /** The wait timeout as written: only a negative delay is raised to 1, so
      a job with delay 0 gets timeout 0, which Object.wait reads as "until
      notified", the same as an empty registry. */
  function WaitTimeout(delay: Option<int>): (timeout: int)
    ensures timeout >= 0
    ensures delay.None? ==> timeout == 0
    ensures (delay.None? || delay.value != 0) ==> timeout == CommandDispatcher.WaitTimeout(delay)
  {
    match delay
    case None => 0
    case Some(d) => if d < 0 then 1 else d
  }

  /** A job at the floor where the car comes to rest is recalculated to
      delay 0; the loop as written then waits for the next registry change
      instead of dispatching it, while the corrected timeout is 1 ms. */
  lemma ZeroDelayWaitsUntilNotified()
    ensures var jobs := CommandDispatcher.RecalculateJobCosts(map[3 := 500], 3);
            && jobs == map[3 := 0]
            && CommandDispatcher.FirstJob(jobs, [3]) == Some(3)
            && WaitTimeout(Some(jobs[3])) == 0 == WaitTimeout(None)
            && CommandDispatcher.WaitTimeout(Some(jobs[3])) == 1
  {
  }

  /** The plan as written: the same job as the corrected plan, and the same
      timeout and deadline unless the job's delay is 0, when the timeout is
      0 and the deadline is the planning time itself. */
  function PlanWait(jobs: Jobs, order: seq<int>, now: int): (p: CommandDispatcher.Plan)
    requires CommandDispatcher.Enumerates(order, jobs)
    ensures var corrected := CommandDispatcher.PlanWait(jobs, order, now);
            && p.current == corrected.current
            && (p.current.None? || jobs[p.current.value] != 0 ==> p == corrected)
            && (p.current.Some? && jobs[p.current.value] == 0 ==> p.timeout == 0 && p.nextWakeup == now)
  {
    var current := CommandDispatcher.FirstJob(jobs, order);
    var delay := if current.Some? then Some(jobs[current.value]) else None;
    var timeout := WaitTimeout(delay);
    CommandDispatcher.Plan(current, timeout, now + timeout)
  }

  /** A job at delay 0 is waited on with wait(0), so the next registry
      change is what ends the wait. When that change is a peer's `take` for
      the same job, the stale plan's deadline has already passed and the
      node dispatches, at whatever time the wake-up comes, the job the peer
      has just taken. */
  lemma TakeWakesZeroDelayPlan(cfg: Config, status: Status, peer: string, target: int, now: int, later: int)
    requires !EqualsIgnoreCase(cfg.nodeId, peer)
    requires CommandHandler.InRange(cfg, target) && !status.busy && later >= now
    ensures var before := map[target := 0];
            var stale := PlanWait(before, [target], now);
            var after := CommandHandler.OnMessage(cfg, status, before, Message(TakeKind, target, peer)).jobs;
            var step := CommandDispatcher.AfterWait(cfg, status, stale, after, [target], later);
            && stale.current == Some(target) && stale.timeout == 0
            && after == map[target := Costs.JobTimeout]
            && step.sent == [Message(TakeKind, target, cfg.nodeId)]
            && step.moves == [Abs(target)] && step.jobs == map[]
  {
  }
}

/**
 The bid arithmetic shared by the arbitration handler and the dispatcher:
 the cost constants, the cost of a new call request, and the cost of a pending
 job recomputed from the car's new resting floor. Costs are in points and are
 scaled to milliseconds of delay.
 */
module Costs {
  import opened Common

  /** Extra points for every node but the one where the button was pressed. */
  const CostNotHere := 2
  /** Points per floor between the car and the call. */
  const CostEachFloor := 5
  /** Extra points while the car is moving. */
  const CostMoving := 2
  /** Milliseconds of delay per point. */
  const MillisPerCost := 100
  /** Takeover timeout: how much later a node may act on a job another node took. */
  const JobTimeout := 15000

  /** The cost of a pending job at `target` for a car resting at `pos`. It
      depends only on the distance between the floors. */
  function RecalculateCost(target: int, pos: int): (cost: int)
    ensures cost >= 0
    ensures cost % (CostEachFloor * MillisPerCost) == 0
    ensures cost == 0 <==> Abs(target) == pos
  {
    Abs(Abs(target) - pos) * (CostEachFloor * MillisPerCost)
  }

  /** The delay this node bids for a call request at `target` announced by
      `source`. It is a whole number of points, never negative, zero exactly
      for a local call at the floor where the idle car stands, and it exceeds
      the pure distance cost by at most the two penalties. */
  function CalculateDelay(cfg: Config, status: Status, target: int, source: string): (delay: int)
    ensures delay >= 0 && delay % MillisPerCost == 0
    ensures delay == 0 <==>
              EqualsIgnoreCase(cfg.nodeId, source) && !status.moving && Abs(target) == status.currentFloor
    ensures RecalculateCost(target, status.currentFloor) <= delay
    ensures delay <= RecalculateCost(target, status.currentFloor) + (CostNotHere + CostMoving) * MillisPerCost
  {
    var notHere := if EqualsIgnoreCase(cfg.nodeId, source) then 0 else CostNotHere;
    var moving := if status.moving then CostMoving else 0;
    var points := notHere + moving + Abs(Abs(target) - status.currentFloor) * CostEachFloor;
    points * MillisPerCost
  }

  /** A local call to an idle car costs exactly what the idle-time
      recalculation would assign: the two cost definitions agree. */
  lemma LocalIdleDelayIsDistanceCost(cfg: Config, status: Status, target: int, source: string)
    requires EqualsIgnoreCase(cfg.nodeId, source) && !status.moving
    ensures CalculateDelay(cfg, status, target, source) == RecalculateCost(target, status.currentFloor)
  {
  }

  /** All else equal, a call announced by another node costs exactly
      CostNotHere * MillisPerCost = 200 ms more than a local one; "local" is
      decided by a case-insensitive comparison with the node identity. */
  lemma RemotePenalty(cfg: Config, status: Status, target: int, remote: string, local: string)
    requires !EqualsIgnoreCase(cfg.nodeId, remote) && EqualsIgnoreCase(cfg.nodeId, local)
    ensures CalculateDelay(cfg, status, target, remote) == CalculateDelay(cfg, status, target, local) + 200
  {
  }

  /** All else equal, a moving car bids CostMoving * MillisPerCost = 200 ms
      more than a stopped one. */
  lemma MovingPenalty(cfg: Config, floor: int, busy: bool, target: int, source: string)
    ensures CalculateDelay(cfg, Status(floor, true, busy), target, source)
         == CalculateDelay(cfg, Status(floor, false, busy), target, source) + 200
  {
  }

  /** Both costs ignore the requested direction, and a call farther from the
      car always costs more. */
  lemma CostsIgnoreDirection(cfg: Config, status: Status, target: int, source: string)
    ensures RecalculateCost(target, status.currentFloor) == RecalculateCost(-target, status.currentFloor)
    ensures CalculateDelay(cfg, status, target, source) == CalculateDelay(cfg, status, -target, source)
  {
  }

  lemma FartherCostsMore(near: int, far: int, pos: int)
    requires Abs(Abs(near) - pos) < Abs(Abs(far) - pos)
    ensures RecalculateCost(near, pos) < RecalculateCost(far, pos)
  {
  }
}

/**
 Properties of a node over several steps: a sequence of bus deliveries, and
 the takeover scenario in which a peer claims a job and this node later
 rescues it when no completion arrives.
 */
module Node {
  import opened Common
  import opened Costs
  import opened CommandHandler
  import opened CommandDispatcher
  import AsWritten

  /** The registry after delivering `msgs` in order while the car's status
      stays `status`. */
  function DeliverAll(cfg: Config, status: Status, jobs: Jobs, msgs: seq<Message>): Jobs
    decreases |msgs|
  {
    if msgs == [] then jobs
    else DeliverAll(cfg, status, OnMessage(cfg, status, jobs, msgs[0]).jobs, msgs[1..])
  }

  /** No sequence of deliveries leaves a negative delay other than the cabin
      marker in a well-formed registry. */
  lemma {:induction false} DeliverAllPreservesWellFormed(cfg: Config, status: Status, jobs: Jobs, msgs: seq<Message>)
    requires WellFormed(jobs)
    ensures WellFormed(DeliverAll(cfg, status, jobs, msgs))
    decreases |msgs|
  {
    if msgs != [] {
      OnMessagePreservesWellFormed(cfg, status, jobs, msgs[0]);
      DeliverAllPreservesWellFormed(cfg, status, OnMessage(cfg, status, jobs, msgs[0]).jobs, msgs[1..]);
    }
  }

  /** Messages only touch their own targets: an entry no message names is
      present, absent and valued exactly as before. */
  lemma {:induction false} DeliverAllFrame(cfg: Config, status: Status, jobs: Jobs, msgs: seq<Message>, t: int)
    requires forall i :: 0 <= i < |msgs| ==> msgs[i].target != t
    ensures var after := DeliverAll(cfg, status, jobs, msgs);
            (t in after <==> t in jobs) && (t in jobs ==> after[t] == jobs[t])
    decreases |msgs|
  {
    if msgs != [] {
      var next := OnMessage(cfg, status, jobs, msgs[0]).jobs;
      assert msgs[0].target != t;
      DeliverAllFrame(cfg, status, next, msgs[1..], t);
    }
  }

  /** A completion delivered last clears its target whatever came before. */
  lemma {:induction false} CompletionDeliveredLastClears(cfg: Config, status: Status, jobs: Jobs, msgs: seq<Message>)
    requires |msgs| > 0 && msgs[|msgs| - 1].kind == CompleteKind
    ensures msgs[|msgs| - 1].target !in DeliverAll(cfg, status, jobs, msgs)
    decreases |msgs|
  {
    if |msgs| > 1 {
      assert msgs[1..][|msgs[1..]| - 1] == msgs[|msgs| - 1];
      CompletionDeliveredLastClears(cfg, status, OnMessage(cfg, status, jobs, msgs[0]).jobs, msgs[1..]);
    }
  }

  /** A peer's request, its `take` and its completion, seen by this node:
      this node's own bid carries the remote penalty, the `take` pushes it
      back by the takeover timeout, and the completion removes it. */
  lemma PeerServesRequest(cfg: Config, status: Status, jobs: Jobs, peer: string, target: int)
    requires !EqualsIgnoreCase(cfg.nodeId, peer)
    requires !AlreadyThere(status, target)
    ensures var afterRequest := OnMessage(cfg, status, jobs, Message(RequestKind, target, peer)).jobs;
            var afterTake := OnMessage(cfg, status, afterRequest, Message(TakeKind, target, peer)).jobs;
            var afterComplete := OnMessage(cfg, status, afterTake, Message(CompleteKind, target, peer)).jobs;
            && afterRequest[target] >= CostNotHere * MillisPerCost
            && afterTake[target] == afterRequest[target] + JobTimeout
            && target !in afterComplete
  {
  }

  /** Takeover rescue. A peer's `take` for a job this node holds at delay
      `d` arrives while the car is busy, so the loop is in its busy poll and
      no wait planned before the `take` is pending. The delay becomes
      d + JobTimeout; once the car is idle the loop plans to wait exactly that
      long, and if nothing else arrives this node takes the job when the time
      has passed; before that it does nothing. */
  lemma TakeoverRescue(cfg: Config, status: Status, peer: string, target: int, d: nat, now: int, later: int)
    requires !EqualsIgnoreCase(cfg.nodeId, peer)
    requires InRange(cfg, target) && !status.busy
    ensures var jobs := OnMessage(cfg, status, map[target := d], Message(TakeKind, target, peer)).jobs;
            var plan := PlanWait(jobs, [target], now);
            var step := AfterWait(cfg, status, plan, jobs, [target], later);
            && jobs == map[target := d + JobTimeout]
            && plan.timeout == d + JobTimeout
            && (later >= now + d + JobTimeout ==>
                  step.sent == [Message(TakeKind, target, cfg.nodeId)]
                  && step.moves == [Abs(target)] && step.jobs == map[])
            && (later < now + d + JobTimeout ==> step == Unchanged(jobs))
  {
  }

  /** The rescue when the car comes to rest at `floor` and the registry is
      recalculated between the `take` and the plan. Only a job this node had
      bid 0 on keeps the takeover timeout: the plan waits exactly JobTimeout
      and the node takes the job once it has passed. Any positive bid,
      extended by the `take`, is reset to the plain distance cost. */
  lemma TakeoverAcrossRecalculation(cfg: Config, status: Status, peer: string, target: int, d: nat,
                                    floor: int, now: int)
    requires !EqualsIgnoreCase(cfg.nodeId, peer)
    requires InRange(cfg, target) && !status.busy && floor != 0
    ensures var taken := OnMessage(cfg, status, map[target := d], Message(TakeKind, target, peer)).jobs;
            var jobs := RecalculateJobCosts(taken, floor);
            var plan := PlanWait(jobs, [target], now);
            && (d == 0 ==> jobs == map[target := JobTimeout] && plan.timeout == JobTimeout
                           && AfterWait(cfg, status, plan, jobs, [target], now + JobTimeout).moves == [Abs(target)])
            && (d != 0 ==> jobs == map[target := RecalculateCost(target, floor)])
  {
  }

  /** A peer's `take` for the job the loop is waiting on ends the wait
      before that job's deadline. The plan made before the `take` then
      dispatches nothing, and the next plan waits out the extended delay.
      For a positive delay the plan as written is the same plan; for delay 0
      this holds only with the corrected 1 ms timeout (the code as written
      dispatches at once, see AsWritten.TakeWakesZeroDelayPlan). */
  lemma TakeEndsWaitEarly(cfg: Config, status: Status, peer: string, target: int, d: nat, now: int, later: int)
    requires !EqualsIgnoreCase(cfg.nodeId, peer)
    requires now <= later < now + WaitTimeout(Some(d))
    ensures var before := map[target := d];
            var stale := PlanWait(before, [target], now);
            var after := OnMessage(cfg, status, before, Message(TakeKind, target, peer)).jobs;
            && stale.current == Some(target)
            && (d >= 1 ==> AsWritten.PlanWait(before, [target], now) == stale)
            && after == map[target := d + JobTimeout]
            && AfterWait(cfg, status, stale, after, [target], later) == Unchanged(after)
            && PlanWait(after, [target], later).nextWakeup == later + d + JobTimeout
  {
  }

  /** A local cabin job is dispatched before any bid: with the car idle it is
      taken as soon as its 1 ms wait has passed. */
  lemma CabinJobServedFirst(cfg: Config, status: Status, jobs: Jobs, order: seq<int>, cabin: int, now: int)
    requires Enumerates(order, jobs) && !status.busy
    requires cabin in jobs && jobs[cabin] == CabinJob
    requires forall t :: t in jobs && t != cabin ==> jobs[t] >= 0
    ensures var plan := PlanWait(jobs, order, now);
            && plan.current == Some(cabin) && plan.timeout == 1
            && AfterWait(cfg, status, plan, jobs, order, now + 1).moves == [Abs(cabin)]
  {
  }
}

/**
 The arbitration handler: how each incoming bus message changes the job
 registry and the call lamps, and which messages the node broadcasts.
 The elevator is an input Status; lamp writes, broadcasts and go-to-floor
 commands are returned in a Reaction instead of being performed.
 */
module CommandHandler {
  import opened Common
  import opened Costs
  import opened JobQueue

  // ---------------------------------------------------------------------
  // Outbound messages

  /** The guard every broadcast applies: the target names a real floor. */
  function InRange(cfg: Config, target: int): (ok: bool)
    ensures ok <==> 1 <= Abs(target) <= cfg.numFloors
  {
    !(Abs(target) > cfg.numFloors || target == 0)
  }

  /** Floor 1 and the top floor each have a single call button. */
  predicate AtTerminalFloor(cfg: Config, target: int)
  {
    Abs(target) == 1 || Abs(target) == cfg.numFloors
  }

  /** A message of the given type about `target`, stamped with this node. */
  function Announce(cfg: Config, kind: string, target: int): seq<Message>
  {
    if InRange(cfg, target) then [Message(kind, target, cfg.nodeId)] else []
  }

  /** Broadcasts a new call request; nothing for a target outside the building. */
  function SendRequest(cfg: Config, target: int): (sent: seq<Message>)
    ensures |sent| <= 1
    ensures sent == [] <==> !InRange(cfg, target)
    ensures forall m :: m in sent ==> m.kind == RequestKind && m.target == target && m.source == cfg.nodeId
  {
    Announce(cfg, RequestKind, target)
  }

  /** Broadcasts that this node takes the job; nothing for a target outside the building. */
  function SignalTakeJob(cfg: Config, target: int): (sent: seq<Message>)
    ensures |sent| <= 1
    ensures sent == [] <==> !InRange(cfg, target)
    ensures forall m :: m in sent ==> m.kind == TakeKind && m.target == target && m.source == cfg.nodeId
  {
    Announce(cfg, TakeKind, target)
  }

  /** Broadcasts that the job is done. At a terminal floor the completion is
      repeated for the mirrored target, since the floor's single call button
      stands for both directions. */
  function SignalJobCompleted(cfg: Config, target: int): (sent: seq<Message>)
    ensures !InRange(cfg, target) ==> sent == []
    ensures forall m :: m in sent ==>
              m.kind == CompleteKind && m.source == cfg.nodeId && Abs(m.target) == Abs(target)
    ensures InRange(cfg, target) ==> |sent| == (if AtTerminalFloor(cfg, target) then 2 else 1)
    ensures |sent| >= 1 ==> sent[0].target == target
    ensures |sent| == 2 ==> sent[1].target == -target
  {
    if !InRange(cfg, target) then []
    else
      var first := Message(CompleteKind, target, cfg.nodeId);
      if AtTerminalFloor(cfg, target) then [first, Message(CompleteKind, -target, cfg.nodeId)]
      else [first]
  }

  /** The targets a completion message clears. */
  function ClearedTargets(sent: seq<Message>): set<int>
  {
    set m | m in sent :: m.target
  }

  /** At a terminal floor, completing either direction clears both; at any
      other valid floor it clears only the direction completed. */
  lemma CompletionMirroring(cfg: Config, target: int)
    requires InRange(cfg, target)
    ensures AtTerminalFloor(cfg, target) ==>
              ClearedTargets(SignalJobCompleted(cfg, target)) == {target, -target}
              == ClearedTargets(SignalJobCompleted(cfg, -target))
    ensures !AtTerminalFloor(cfg, target) ==> ClearedTargets(SignalJobCompleted(cfg, target)) == {target}
  {
  }

  // ---------------------------------------------------------------------
  // Registry changes for incoming messages

  /** Another node took the job: postpone our own attempt by the takeover
      timeout, counting a missing entry as delay 0. */
  function MarkRequestTaken(jobs: Jobs, target: int): (jobs': Jobs)
    ensures target in jobs'
    ensures jobs'[target] == (if target in jobs then jobs[target] else 0) + JobTimeout
    ensures jobs'.Keys == jobs.Keys + {target}
    ensures forall t :: t in jobs && t != target ==> jobs'[t] == jobs[t]
  {
    var timeout := if target in jobs then jobs[target] else 0;
    AddRequestToQueue(jobs, target, timeout + JobTimeout)
  }

  /** The job is done: drop it and switch its call lamp off. */
  function RemoveRequest(jobs: Jobs, target: int): (r: Reaction)
    ensures target !in r.jobs
    ensures r.jobs.Keys == jobs.Keys - {target}
    ensures forall t :: t in r.jobs ==> r.jobs[t] == jobs[t]
    ensures r.lamps == [LampWrite(if target > 0 then CallUp else CallDown, Abs(target) - 1, 0)]
    ensures r.sent == [] && r.moves == []
  {
    Reaction(CancelRequest(jobs, target), [CallLamp(target, 0)], [], [])
  }

  /** The idle car already stands at the requested floor. */
  predicate AlreadyThere(status: Status, target: int)
  {
    !status.moving && Abs(target) == status.currentFloor
  }

  /** A new call request. If the idle car already stands at the floor the
      call is answered at once: completion is broadcast and the car is sent
      to the floor, with the registry untouched. Otherwise this node's bid
      is recorded (a positive delay) and the call lamp is lit. */
  function ProcessNewRequest(cfg: Config, status: Status, jobs: Jobs, target: int, source: string): (r: Reaction)
    ensures AlreadyThere(status, target) ==>
              r.jobs == jobs && r.lamps == [] && r.moves == [target]
              && r.sent == SignalJobCompleted(cfg, target)
    ensures !AlreadyThere(status, target) ==>
              r.jobs == AddRequestToQueue(jobs, target, CalculateDelay(cfg, status, target, source))
              && r.jobs[target] > 0
              && r.lamps == [LampWrite(if target > 0 then CallUp else CallDown, Abs(target) - 1, 1)]
              && r.sent == [] && r.moves == []
  {
    if AlreadyThere(status, target) then
      Reaction(jobs, [], SignalJobCompleted(cfg, target), [target])
    else
      var cost := CalculateDelay(cfg, status, target, source);
      Reaction(AddRequestToQueue(jobs, target, cost), [CallLamp(target, 1)], [], [])
  }

  /** The handler for every bus message. A `take` from this node itself
      (identity compared ignoring case) and a message of unknown type leave
      everything as it was; otherwise only the entry for the message's
      target can change. */
  function OnMessage(cfg: Config, status: Status, jobs: Jobs, msg: Message): (r: Reaction)
    ensures msg.kind == TakeKind && EqualsIgnoreCase(cfg.nodeId, msg.source) ==> r == Unchanged(jobs)
    ensures msg.kind !in {RequestKind, TakeKind, CompleteKind} ==> r == Unchanged(jobs)
    ensures msg.kind == TakeKind && !EqualsIgnoreCase(cfg.nodeId, msg.source) ==>
              r.jobs == MarkRequestTaken(jobs, msg.target) && r.lamps == [] && r.sent == [] && r.moves == []
    ensures msg.kind == CompleteKind ==> r == RemoveRequest(jobs, msg.target)
    ensures msg.kind == RequestKind ==> r == ProcessNewRequest(cfg, status, jobs, msg.target, msg.source)
    ensures forall t :: t != msg.target ==> (t in r.jobs <==> t in jobs)
    ensures forall t :: t != msg.target && t in jobs ==> r.jobs[t] == jobs[t]
  {
    if msg.kind == RequestKind then
      ProcessNewRequest(cfg, status, jobs, msg.target, msg.source)
    else if msg.kind == TakeKind then
      if EqualsIgnoreCase(cfg.nodeId, msg.source) then Unchanged(jobs)
      else Reaction(MarkRequestTaken(jobs, msg.target), [], [], [])
    else if msg.kind == CompleteKind then
      RemoveRequest(jobs, msg.target)
    else
      Unchanged(jobs)
  }

  /** Every message keeps the registry well formed. */
  lemma OnMessagePreservesWellFormed(cfg: Config, status: Status, jobs: Jobs, msg: Message)
    requires WellFormed(jobs)
    ensures WellFormed(OnMessage(cfg, status, jobs, msg).jobs)
  {
  }

  /** Redelivery: a repeated `completed` leaves the registry and the lamps as
      one delivery did; a repeated `request` rewrites the same bid; a
      repeated `take` from a peer extends the delay twice. */
  lemma RedeliveredComplete(cfg: Config, status: Status, jobs: Jobs, msg: Message, lamps: Lamps)
    requires msg.kind == CompleteKind
    ensures var once := OnMessage(cfg, status, jobs, msg);
            var twice := OnMessage(cfg, status, once.jobs, msg);
            twice.jobs == once.jobs && ApplyLamps(ApplyLamps(lamps, once.lamps), twice.lamps) == ApplyLamps(lamps, once.lamps)
  {
  }

  lemma RedeliveredRequest(cfg: Config, status: Status, jobs: Jobs, msg: Message)
    requires msg.kind == RequestKind
    ensures var once := OnMessage(cfg, status, jobs, msg);
            OnMessage(cfg, status, once.jobs, msg).jobs == once.jobs
  {
  }

  lemma RedeliveredTake(cfg: Config, status: Status, jobs: Jobs, msg: Message)
    requires msg.kind == TakeKind && !EqualsIgnoreCase(cfg.nodeId, msg.source)
    ensures var twice := OnMessage(cfg, status, OnMessage(cfg, status, jobs, msg).jobs, msg).jobs;
            twice[msg.target] == (if msg.target in jobs then jobs[msg.target] else 0) + 2 * JobTimeout
  {
  }
}

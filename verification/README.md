# Elevator node job arbitration, modelled in Dafny

Every elevator car in the fleet runs as its own node. Nodes share no memory and have no
coordinator. Each call request (a call button pressed at a floor, up or down) is broadcast
on a bus. Every node bids for it by waiting a delay that grows with its cost. The first
node whose delay runs out while its car is idle takes the job and broadcasts `take`.
The other nodes push their own attempt back by a takeover timeout. `completed` removes
the job everywhere.

This project models the two classes that carry this logic:

- **CommandHandler** (`CommandHandler.java`): the cost formula for a call request. It
  also covers what each incoming message (`request`, `take`, `completed`) does to the job
  registry and the call lamps, and which messages the node broadcasts.
- **CommandDispatcher** (`CommandDispatcher.java`): the job registry
  (`activeJobs`, signed target floor to delay in milliseconds) and the cost recalculation
  from the car's resting floor. It also covers minimum-delay job selection, the wait
  timeout of the dispatcher loop, and the dispatch step.

Every operation is a pure function over immutable values:

- The registry is a `map<int, int>` (`Common.Jobs`).
- The elevator is an input record `Status(currentFloor, moving, busy)`. Floor 0 means
  unknown.
- The node identity and the number of floors are a `Config`.
- An operation returns a `Reaction` with four parts:
  - the new registry;
  - the call-lamp writes, as `(button, 0-indexed floor, value)`;
  - the messages broadcast, as `(type, target, source)`;
  - the arguments passed to the elevator's asynchronous go-to-floor command.
- The dispatcher loop is split into two steps around its wait:
  - `PlanWait` chooses the job and the timeout;
  - `AfterWait` dispatches or does nothing.
  The clock reading `now` is a parameter of both.
- The hash map's iteration order is a parameter `order` that lists the keys. The
  selection loop replaces its candidate only on a strictly smaller delay, so the first
  minimum in that order wins.

Modules: `Common` (shared types), `Costs` (constants and the two cost formulas),
`JobQueue` (insert and cancel), `CommandHandler`, `CommandDispatcher`, `AsWritten` (the
Java int behaviour behind the findings) and `Node` (properties over several steps).

Behaviours of the code a reader may not expect, all of which the model keeps:

- A node does not ignore its own `request` echo. It bids on it without the remote
  penalty.
- The "already there" short cut compares only the floor, not the direction. It hands the
  *signed* target to the go-to-floor command. Dispatch hands the absolute floor.
- Each loop iteration re-reads the stored delay as a fresh sleep time.
- Ties between equal delays fall to hash-map iteration order.
- Recalculation keeps an entry only when its delay is exactly -1 (cabin job) or exactly
  the takeover timeout 15000.

One behaviour the model does not keep: the code raises only a negative delay to 1 ms
before the wait, so a zero delay means "wait until notified". The dispatcher model
(`CommandDispatcher.WaitTimeout`, and through it `PlanWait`) uses the corrected timeout,
which also raises 0 to 1 ms. The code as written is `AsWritten.WaitTimeout` and
`AsWritten.PlanWait` (see Findings).

## Model

| member | source | states |
|---|---|---|
| Common.EqualsIgnoreCaseProperties | Project/src/main/java/no/ntnu/stud/torbjovn/elevator/CommandHandler.java:60 | The node-identity comparison is an equivalence (reflexive, symmetric, transitive) that relates every string to its lower-case form; it accepts "Node-A" for "node-a" and rejects a different identity |
| Costs.RecalculateCost | Project/src/main/java/no/ntnu/stud/torbjovn/elevator/CommandDispatcher.java:69-73 | The recomputed cost is never negative, is a whole number of 500 ms floor steps, and is zero exactly when the car rests at the target's floor |
| Costs.CalculateDelay | Project/src/main/java/no/ntnu/stud/torbjovn/elevator/CommandHandler.java:124-130 | The bid is never negative and is a multiple of 100 ms. It is zero exactly for a local call at the idle car's floor. It lies between the distance cost and the distance cost plus both penalties |
| Costs.LocalIdleDelayIsDistanceCost | Project/src/main/java/no/ntnu/stud/torbjovn/elevator/CommandHandler.java:124-130 | For a local call to a car that is not moving, the bid equals the cost the idle-time recalculation would assign |
| Costs.RemotePenalty | Project/src/main/java/no/ntnu/stud/torbjovn/elevator/CommandHandler.java:126 | All else equal, a call announced by another node (identity compared ignoring case) costs exactly 200 ms more than a local one |
| Costs.MovingPenalty | Project/src/main/java/no/ntnu/stud/torbjovn/elevator/CommandHandler.java:127 | All else equal, a moving car bids exactly 200 ms more than a stopped one |
| Costs.CostsIgnoreDirection | Project/src/main/java/no/ntnu/stud/torbjovn/elevator/CommandDispatcher.java:70 | Both cost formulas give the same value for `target` and `-target` |
| Costs.FartherCostsMore | Project/src/main/java/no/ntnu/stud/torbjovn/elevator/CommandDispatcher.java:70 | A job farther from the resting floor always has a strictly larger recomputed cost |
| JobQueue.AddRequestToQueue | Project/src/main/java/no/ntnu/stud/torbjovn/elevator/CommandDispatcher.java:29-39 | Afterwards the target maps to the given delay, the key set gains only the target, and every other entry keeps its delay |
| JobQueue.CancelRequest | Project/src/main/java/no/ntnu/stud/torbjovn/elevator/CommandDispatcher.java:41-46 | Afterwards the target is absent, every other entry is kept unchanged, and cancelling an absent target changes nothing |
| JobQueue.ReinsertOverwrites | Project/src/main/java/no/ntnu/stud/torbjovn/elevator/CommandDispatcher.java:33 | Inserting the same target twice leaves only the last delay, and an insertion adds at most one entry |
| JobQueue.CancelProperties | Project/src/main/java/no/ntnu/stud/torbjovn/elevator/CommandDispatcher.java:42 | Cancelling twice is the same as cancelling once, and cancel undoes an insert of an absent target |
| CommandHandler.InRange | Project/src/main/java/no/ntnu/stud/torbjovn/elevator/CommandHandler.java:137 | A target may be broadcast exactly when its floor number lies between 1 and the number of floors |
| CommandHandler.SendRequest | Project/src/main/java/no/ntnu/stud/torbjovn/elevator/CommandHandler.java:136-147 | Nothing is sent exactly when the target is 0 or beyond the top floor; otherwise a single `request` stamped with this node |
| CommandHandler.SignalTakeJob | Project/src/main/java/no/ntnu/stud/torbjovn/elevator/CommandHandler.java:149-160 | Nothing is sent exactly when the target is 0 or beyond the top floor; otherwise a single `take` stamped with this node |
| CommandHandler.SignalJobCompleted | Project/src/main/java/no/ntnu/stud/torbjovn/elevator/CommandHandler.java:162-182 | Nothing for an out-of-range target. Otherwise `completed` for the target, followed by one for `-target` exactly at floor 1 or the top floor. Every message is stamped with this node and names the same floor |
| CommandHandler.CompletionMirroring | Project/src/main/java/no/ntnu/stud/torbjovn/elevator/CommandHandler.java:171-178 | At a terminal floor, completing either direction clears both `target` and `-target`; elsewhere it clears only the target |
| CommandHandler.MarkRequestTaken | Project/src/main/java/no/ntnu/stud/torbjovn/elevator/CommandHandler.java:80-91 | The target's delay becomes its old delay (0 if absent) plus 15000 ms; no other entry changes |
| CommandHandler.RemoveRequest | Project/src/main/java/no/ntnu/stud/torbjovn/elevator/CommandHandler.java:93-103 | The target is gone and other entries are kept. The one lamp write turns off the up button for a positive target (down otherwise) at the 0-indexed floor |
| CommandHandler.ProcessNewRequest | Project/src/main/java/no/ntnu/stud/torbjovn/elevator/CommandHandler.java:105-122 | If the car is stopped at the target's floor: registry unchanged, completion signalled, car sent to the target. Otherwise: the target's entry becomes this node's bid, which is positive, and the call lamp is lit |
| CommandHandler.OnMessage | Project/src/main/java/no/ntnu/stud/torbjovn/elevator/CommandHandler.java:54-78 | A `take` from this node itself (ignoring case) and an unknown type change nothing. The other types act as above. No entry except the message's target ever changes |
| CommandHandler.OnMessagePreservesWellFormed | Project/src/main/java/no/ntnu/stud/torbjovn/elevator/CommandHandler.java:55-70 | If every delay is a non-negative bid or the cabin marker before a message, the same holds after it |
| CommandHandler.RedeliveredComplete | Project/src/main/java/no/ntnu/stud/torbjovn/elevator/CommandHandler.java:65-66 | Delivering the same `completed` twice leaves the registry and the lamp panel as one delivery did |
| CommandHandler.RedeliveredRequest | Project/src/main/java/no/ntnu/stud/torbjovn/elevator/CommandHandler.java:56-57 | Delivering the same `request` twice leaves the registry as one delivery did |
| CommandHandler.RedeliveredTake | Project/src/main/java/no/ntnu/stud/torbjovn/elevator/CommandHandler.java:59-63 | Delivering a peer's `take` twice extends the delay by twice the takeover timeout |
| CommandDispatcher.RecalculateJobCosts | Project/src/main/java/no/ntnu/stud/torbjovn/elevator/CommandDispatcher.java:48-61 | With floor 0 nothing changes. Otherwise the key set is kept, entries valued -1 or exactly 15000 are untouched, and every other entry gets the recomputed distance cost. Well-formedness is kept |
| CommandDispatcher.RecalculateIdempotent | Project/src/main/java/no/ntnu/stud/torbjovn/elevator/CommandDispatcher.java:52-56 | Recalculating twice from the same floor equals recalculating once |
| CommandDispatcher.RecalculateDropsExtendedTakeover | Project/src/main/java/no/ntnu/stud/torbjovn/elevator/CommandDispatcher.java:54 | After a peer's `take`, recalculation keeps the entry only when the old bid was 0 or absent (it is then exactly 15000) or -15001 (it is then the cabin marker); any other bid, extended by 15000, is reset to the plain distance cost |
| CommandDispatcher.Scan | Project/src/main/java/no/ntnu/stud/torbjovn/elevator/CommandDispatcher.java:94-102 | The loop's choice has a delay no larger than any key in the order, and no earlier key has an equal or smaller delay |
| CommandDispatcher.FirstJob | Project/src/main/java/no/ntnu/stud/torbjovn/elevator/CommandDispatcher.java:90-105 | None exactly for an empty registry. Otherwise a present job whose delay is no larger than any other's, and the first such job in iteration order |
| CommandDispatcher.FirstJobOrderIndependent | Project/src/main/java/no/ntnu/stud/torbjovn/elevator/CommandDispatcher.java:100 | The chosen delay is the same for every iteration order; with a unique minimum, so is the chosen job |
| CommandDispatcher.CabinJobWins | Project/src/main/java/no/ntnu/stud/torbjovn/elevator/CommandDispatcher.java:53 | A job with the cabin marker -1 is chosen over any non-negative bid |
| CommandDispatcher.WaitTimeout | Project/src/main/java/no/ntnu/stud/torbjovn/elevator/CommandDispatcher.java:121-129 | The timeout is 0 (wait until woken) exactly when there is no job. A positive delay is the timeout, and any other delay becomes 1 ms (corrected, see Findings) |
| CommandDispatcher.PlanWait | Project/src/main/java/no/ntnu/stud/torbjovn/elevator/CommandDispatcher.java:121-129 | The plan names a minimum-delay job exactly when the registry is non-empty. Its timeout is at least 1 ms and equals a positive delay; this uses the corrected timeout, so a zero delay is waited as 1 ms (see Findings). The dispatch deadline is now plus the timeout |
| CommandDispatcher.DispatchJob | Project/src/main/java/no/ntnu/stud/torbjovn/elevator/CommandDispatcher.java:107-111 | Dispatch announces `take` for an in-range target, sends the car to the target's floor number, and removes only that entry |
| CommandDispatcher.AfterWait | Project/src/main/java/no/ntnu/stud/torbjovn/elevator/CommandDispatcher.java:78-83 | Dispatch happens only if all hold: a job was planned, it is still a minimum (the check `run` makes before calling), the deadline has passed, and the car is idle. Without dispatch nothing changes. With a unique minimum those conditions also force dispatch |
| CommandDispatcher.AfterWaitFrame | Project/src/main/java/no/ntnu/stud/torbjovn/elevator/CommandDispatcher.java:110 | A loop iteration removes at most one job and keeps the registry well formed |
| AsWritten.DistancePoints | Project/src/main/java/no/ntnu/stud/torbjovn/elevator/CommandHandler.java:128 | The int-arithmetic distance term stays in int range and equals the true distance times 5 for realistic floors |
| AsWritten.CalculateDelay | Project/src/main/java/no/ntnu/stud/torbjovn/elevator/CommandHandler.java:124-130 | The as-written bid is a multiple of 100 and equals the corrected bid whenever floors are realistic (below 2^28) |
| AsWritten.RecalculateCost | Project/src/main/java/no/ntnu/stud/torbjovn/elevator/CommandDispatcher.java:69-73 | The as-written recomputed cost equals the corrected one whenever floors are realistic |
| AsWritten.NegativeBidFromOverflow | Project/src/main/java/no/ntnu/stud/torbjovn/elevator/CommandHandler.java:128 | Target 500000000 from floor 1 gives the as-written bid -179496730100 for a request carrying this node's id and -179496729900 for a peer's request, and the as-written recomputed cost -179496730100, while the corrected bid is positive |
| AsWritten.InRange | Project/src/main/java/no/ntnu/stud/torbjovn/elevator/CommandHandler.java:163 | The as-written guard agrees with the corrected one on every int except Integer.MIN_VALUE |
| AsWritten.MinValuePassesGuard | Project/src/main/java/no/ntnu/stud/torbjovn/elevator/CommandHandler.java:150 | Integer.MIN_VALUE passes the as-written guard and is rejected by the corrected one |
| AsWritten.WaitTimeout | Project/src/main/java/no/ntnu/stud/torbjovn/elevator/CommandDispatcher.java:127-129 | The as-written timeout is never negative, is 0 without a job, and matches the corrected timeout for every delay except 0 |
| AsWritten.ZeroDelayWaitsUntilNotified | Project/src/main/java/no/ntnu/stud/torbjovn/elevator/CommandDispatcher.java:133 | A job recalculated to delay 0 at the resting floor is chosen. Its as-written timeout is 0, the same as for an empty registry; the corrected one is 1 |
| AsWritten.PlanWait | Project/src/main/java/no/ntnu/stud/torbjovn/elevator/CommandDispatcher.java:121-129 | The plan as written picks the same job as the corrected plan and agrees with it unless the job's delay is 0; then its timeout is 0 and its deadline is the planning time |
| AsWritten.TakeWakesZeroDelayPlan | Project/src/main/java/no/ntnu/stud/torbjovn/elevator/CommandDispatcher.java:127-140 | With the plan as written for a delay-0 job, a peer's `take` for that job ends the wait(0) and, whenever the wake-up comes, the idle node broadcasts its own `take`, moves the car and drops the job the peer has just taken |
| Node.DeliverAllPreservesWellFormed | Project/src/main/java/no/ntnu/stud/torbjovn/elevator/CommandHandler.java:54-70 | With the corrected (long-arithmetic) bid, no sequence of message deliveries produces a negative delay other than the cabin marker |
| Node.DeliverAllFrame | Project/src/main/java/no/ntnu/stud/torbjovn/elevator/CommandHandler.java:57-66 | An entry that no delivered message names keeps its presence and its delay |
| Node.CompletionDeliveredLastClears | Project/src/main/java/no/ntnu/stud/torbjovn/elevator/CommandHandler.java:66 | After any deliveries that end with `completed` for a target, that target is absent |
| Node.PeerServesRequest | Project/src/main/java/no/ntnu/stud/torbjovn/elevator/CommandHandler.java:55-67 | For a peer's request, take and completion: the own bid includes the 200 ms remote penalty, the take adds 15000 ms, and the completion removes the entry |
| Node.TakeoverRescue | Project/src/main/java/no/ntnu/stud/torbjovn/elevator/CommandDispatcher.java:115-140 | A peer's `take` that arrives while the car is busy (the loop is in its busy poll, no wait pending, so the next plan is made after the `take`) raises a bid d to d + 15000. Provided no cost recalculation runs before the plan (one resets d + 15000 for every d ≠ 0), once idle the loop plans that timeout; if nothing else arrives the node takes the job once the time has passed, and before that does nothing |
| Node.TakeoverAcrossRecalculation | Project/src/main/java/no/ntnu/stud/torbjovn/elevator/CommandDispatcher.java:48-61 | With a recalculation from a known floor between a peer's `take` and the plan, a bid of 0 keeps exactly 15000, is planned with that timeout and is dispatched once it has passed; any positive bid is reset to the distance cost, so the takeover timeout is lost |
| Node.TakeEndsWaitEarly | Project/src/main/java/no/ntnu/stud/torbjovn/elevator/CommandDispatcher.java:121-140 | A peer's `take` for the job being waited on wakes the loop before the job's deadline: the plan made before the `take` dispatches nothing, and the next plan waits out the extended delay. For a positive delay the plan as written is the same plan, so this is the code's behaviour; for delay 0 it holds with the corrected timeout only |
| Node.CabinJobServedFirst | Project/src/main/java/no/ntnu/stud/torbjovn/elevator/CommandDispatcher.java:127-128 | A cabin job among non-negative bids is planned first with a 1 ms wait and is dispatched 1 ms later when the car is idle |

## Findings

| source | as written | input that shows it | evidently intended | confidence | as-written member | corrected member |
|---|---|---|---|---|---|---|
| Project/src/main/java/no/ntnu/stud/torbjovn/elevator/CommandHandler.java:128 | `Math.abs(Math.abs(target) - floor) * COST_EACH_FLOOR` is multiplied in 32-bit int before it is added to the long cost | a `request` for target 500000000 while the idle car is at floor 1: the bid is -179496729900 ms from a peer (-179496730100 ms when it carries this node's id), and that job is chosen first | the bid computed in long, never negative | medium (needs an incoming target that no node validates); not executed | AsWritten.NegativeBidFromOverflow | Costs.CalculateDelay |
| Project/src/main/java/no/ntnu/stud/torbjovn/elevator/CommandDispatcher.java:70 | the same int multiplication in recalculateCost | target 500000000 recalculated from floor 1 gives -179496730100 | a non-negative recomputed cost | medium; not executed | AsWritten.RecalculateCost | Costs.RecalculateCost |
| Project/src/main/java/no/ntnu/stud/torbjovn/elevator/CommandHandler.java:137 | the guard `Math.abs(t) > NUM_FLOORS \|\| t == 0` relies on Math.abs, which returns a negative value for Integer.MIN_VALUE (the same guard is at lines 150 and 163) | target -2147483648 passes, so a registry key of that value is broadcast as `take` on dispatch | every target outside 1..NUM_FLOORS in magnitude suppressed | low (needs a malformed target in the registry); not executed | AsWritten.MinValuePassesGuard | CommandHandler.InRange |
| Project/src/main/java/no/ntnu/stud/torbjovn/elevator/CommandDispatcher.java:127-133 | only a negative delay is raised to 1, and `wait(0)` waits until notified | the car comes to rest at floor 3 with job 3 pending: recalculation sets its delay to 0, and the loop then waits for the next registry change instead of dispatching it. If that change is a peer's `take` for job 3, the stale plan's deadline has passed and the node takes the job as well (AsWritten.TakeWakesZeroDelayPlan) | timeout 0 only for an empty registry (the comment at line 133 says so); a delay of 0 waited as 1 ms | medium; not executed | AsWritten.ZeroDelayWaitsUntilNotified | CommandDispatcher.WaitTimeout |

## Left out

- Threads and timing in the dispatcher loop are not modelled: the `wait`/`notifyAll` wake-ups, the 10 ms busy poll, and `System.currentTimeMillis()`. One loop iteration is modelled as `PlanWait` and `AfterWait` with `now` as an input. Races between the handler and the dispatcher on the unsynchronised map are out of scope.
- Sending and receiving on the bus (ActiveMQ Artemis) is not modelled. Outbound messages are returned as a list. A send failure when the network is not ready is not modelled.
- Logging and message acknowledgement are not modelled. Neither affects the registry.
- A message without a `type`, `target` or `source` property is not modelled. In Java the switch on a null string or the missing int property throws; the model's messages always carry all three.
- Null delays in the registry are not modelled. Every insertion boxes a primitive long, so null cannot arise, and the null-skipping branch of the selection loop is dead.
- The elevator controller is not part of this model: its movement state machine, what `asyncGoToFloor` does, and how the busy flag is set. Elevator.java does not define those methods. The car is the input `Status`, and go-to-floor commands are returned as `moves`.
- `NUM_FLOORS` and the button-type constants are not shown. They are the `Config.numFloors` parameter and the `Button` type. `NODE_ID` comes from the config file and is `Config.nodeId`.
- Case-insensitive comparison maps case for ASCII letters only. Java's `equalsIgnoreCase` also folds other Unicode letters.
- `run` compares the chosen keys as `Integer` objects with `==`. The model compares values. The two agree for keys in -128..127, which covers every floor of a real building.
- Outside the findings, the model uses mathematical absolute value and unbounded integers. Java int behaviour for Integer.MIN_VALUE in the lamp floor index and in the go-to-floor argument is not modelled.
- CommandHandler.MarkRequestTaken: does not model long overflow of the delay, because it would take about 6·10^14 `take` messages.
- Node.DeliverAllPreservesWellFormed: the car's status is held fixed across the delivered messages, because the controller that changes it is not part of this model.
- Node.TakeoverRescue: assumes no cost recalculation runs between the `take` and the plan. Who calls `recalculateJobCosts` is not part of this model; Node.TakeoverAcrossRecalculation states what a recalculation does to the rescue.
- Node.TakeEndsWaitEarly: for delay 0 it describes the corrected 1 ms timeout, not the code; as written the stale plan dispatches at once (AsWritten.TakeWakesZeroDelayPlan), and only for a positive delay is the as-written plan shown to be the same.
- The accessors `jobExists` and `getActiveJobs` are not modelled separately; `x in jobs` and the registry value stand in for them. Settings, Networking, Main, the JNI driver and the Ex02 threading exercises are not modelled.

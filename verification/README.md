# fluxrig: delivery, routing and correlation, verified

fluxrig routes messages between gears that run on Racks. A Rack delivers inside its own
memory when it can (the hot lane) and over a bus when it must (the guaranteed lane). What
the bus refuses waits in an outbox. This project models the parts that carry the delivery
guarantees and proves them for every input, every interleaving and every reachable state.

How it is organised:

- `OutboxState`, `OutboxMachine`, `OutboxOrder`, `OutboxEmission`, `OutboxLone`,
  `OutboxDrain`: the outbox. `OutboxState` says what each lock-protected region does to the
  queue. `OutboxMachine` is the concurrent system: any number of emissions, one drain,
  drain requests, cancellations and reconfigurations, interleaved in any order, with a bus
  that answers anything. A drain's check that an item is still queued and the answer of the
  bus are two steps, so the cap may evict an item while it is being sent. `OutboxDrain` is
  the object with its loops; `OutboxLone` is the drain loop as a function of the bus's
  answers, and the proof that this loop is a run of the machine.
- `Routes`, `RoutesAgree`: what each Rack, deciding alone, publishes and subscribes to, and
  that these decisions fit together.
- `ValetMachine`, `ValetRuns`, `ValetEngine`: the request/reply correlation engine. A timer
  may fire at any time after it was armed, also after it was stopped and more than once.
- `LaneMachine`, `LaneQuiesce`, `LaneOrder`, `LaneLoops`: the in-memory lane. Each channel
  operation, counter update and locked region is one step.
- `PublishPort`: an emission as a whole, the lane first and then the bus.
- `Versions`, `ArtefactIndex`, `ArtefactStore`: the index file that any number of managers
  share.
- `Specs`, `Amount`, `MaskPAN`, `JoinKeys`, with `Decimal` and `Common`: the spec closure, amount conversion
  (ISO 8583 data element 4, ISO 4217 minor units), card-number masking (Luhn formula, Annex B
  of ISO/IEC 7812-1) and the length-prefixed key join.

In the machines an action that does not apply changes nothing, so a theorem over every
action sequence is a theorem over every run. Integers are unbounded except where the
source's width decides the result (`Versions.NextMinor`).

## Promises that hold only under a condition

Each has a concrete counterexample and the exact condition.

- Hearing an emission. The lane leg comes first, and when one of its targets misses the
  message the emission ends there: a full queue on the emitter's own Rack keeps the message
  from every other Rack (`RoutesAgree.FullQueueSilencesTheBus`). Every listener hears exactly
  once if and only if the lane leg did not fail (`RoutesAgree.EachListenerHearsOnceIff`); who
  hears what otherwise is in `RoutesAgree.WhoHears`.
- Emission order on the bus. "Nothing overtakes a parked message" fails when the cap evicts
  the message while the drain is sending it: `OutboxEmission.EvictionInFlightBreaksOrder`.
  The order holds as long as a subject is never *at risk*
  (`OutboxEmission.BusKeepsEmissionOrder`), and from the first state at risk on it can be
  broken (`OutboxEmission.AtRiskBreaksOrder`). No subject is at risk while no message park
  finds the outbox at its cap (`OutboxEmission.RoomIsNeverAtRisk`).
- Drain requests. A cancelled drain can forget one
  (`OutboxMachine.CancelledDrainLosesARequest`), exactly when it stops while it owes a look
  at the queue (`OutboxMachine.RequestLostIff`).
- `quiesce`. A publish that lands after `Unsubscribe` has emptied the queue and returned
  leaves its message, and the counter, behind (`LaneQuiesce.LateMessageIsStranded`). The
  counter can reach zero exactly when no message is stranded so and no enqueue is bound to
  strand one (`LaneQuiesce.QuiesceCanEndIff`).
- Needing the bus. A Rack can be told it needs the bus though nothing of the scenario runs
  there (`RoutesAgree.PhantomNeedsBus`; the condition is in `RoutesAgree.NeedsBusIff`).
- Hot wires. The documentation of the hot lane says no bus and both ends on one Rack
  (pkg/registry/scenario.go:57-60). The code feeds a hot wire over the bus when the source is
  pinned to another Rack and the consumer to none (`RoutesAgree.HotWireLeavesTheRack`,
  `RoutesAgree.HotWireOverBusIff`). The model follows the code.
- `latest`. After a failed write it can point below the highest version
  (`ArtefactIndex.FailedWriteSpoilsLatest`, `ArtefactIndex.ImportLeavesLatestRightIff`).
- Assigned versions. They are above every existing one exactly when the numbers of the
  highest leave room in the source's int (`ArtefactIndex.AssignedVersionIsAboveIff`); the
  largest minor number leaves none (`Versions.LargestMinorHasNoRoom`).

## Model

| member | source | states |
|---|---|---|
| OutboxOrder.DrainKeepsParkOrder | pkg/runtime/outbox.go:340-424 | With subject order, over any interleaving of emissions, parks, evictions, passes and successive drains, what the drain gets accepted on one subject is accepted in strictly increasing park order |
| OutboxOrder.SendsTheOldest | pkg/runtime/outbox.go:374-400 | The item a drain sends is older than everything else queued on its subject |
| OutboxOrder.ReachableInv | pkg/runtime/outbox.go:340-424 | The order invariant (queue sorted by park, snapshot ahead of later parks, passed-over items hold their subject back, log below queue) holds in every reachable state |
| OutboxEmission.BusKeepsEmissionOrder | pkg/runtime/runtime.go:357-393 | With one emission at a time on a subject that is never at risk, the bus accepts its emissions in emission order across the live path, the parked path and the drain |
| OutboxEmission.AtRiskBreaksOrder | pkg/runtime/outbox.go:214-231 | The condition is exact: from the first state at risk a few steps, still one emission at a time, have the bus accept two emissions in the wrong order |
| OutboxEmission.EvictionInFlightBreaksOrder | pkg/runtime/outbox.go:214-231 | A concrete run in which the cap evicts what the drain is sending and a newer emission goes first |
| OutboxEmission.RoomIsNeverAtRisk | pkg/runtime/outbox.go:214-231 | A run in which no message park finds the outbox at its cap puts no subject at risk |
| OutboxEmission.RoomKeepsEmissionOrder | pkg/runtime/runtime.go:357-393 | In such a run, with one emission at a time on a subject, the bus accepts its emissions in emission order |
| OutboxMachine.ReachableOneDrain | pkg/runtime/outbox.go:326-372 | In every reachable state at most one drain runs, the request and bus flags are reset when none does, and parked = drained + dropped + queued |
| OutboxMachine.NoDrainRequestLost | pkg/runtime/outbox.go:326-372 | Without cancellation every drain request is followed by a look at the queue taken after it; when no drain runs, none is outstanding |
| OutboxMachine.RequestLostIff | pkg/runtime/outbox.go:340-372 | With cancellation, a step loses a drain request exactly when a cancelled drain stops (at the top of a round or before the first attempt at an item) while it owes a look |
| OutboxMachine.CancelledDrainLosesARequest | pkg/runtime/outbox.go:342-350 | A concrete run that loses a request |
| OutboxMachine.DropsAreEvictionsOrInvalid | pkg/runtime/outbox.go:214-231 | `dropped` never falls and grows only when a message park finds the outbox at its cap or when the bus called an item invalid |
| OutboxMachine.ParkRespectsCap | pkg/runtime/outbox.go:214-231 | A message park leaves at most the cap, also right after the cap was lowered |
| OutboxMachine.DeadBusNeverEatsTheQueue | pkg/runtime/outbox.go:384-422 | However often drains are asked for, run or cancelled, a bus that refuses everything leaves the queue, the log and the account unchanged |
| OutboxMachine.BusStateIsTheLastAnswer | pkg/runtime/outbox.go:435-466 | The noted bus state is what the bus last answered the drain: up when it took the item or called it invalid, down when it refused; nothing else notes one |
| OutboxMachine.LoudWhenOneIsLoud | pkg/runtime/outbox.go:326-337 | However many requests come while a drain runs, they are noted as loud exactly when one of them was |
| OutboxState.EventsNeverCostAMessage | pkg/runtime/outbox.go:214-260 | After any run of parks, event parks, removals and cap changes the queued messages are those of an outbox that never saw an event |
| OutboxState.EvictDropsTheFirst | pkg/runtime/outbox.go:214-242 | What the cap evicts goes before all it keeps: events before messages, oldest first |
| OutboxState.RegionsConserve | pkg/runtime/outbox.go:208-260 | Every region keeps parked = drained + dropped + queued |
| OutboxState.Evict | pkg/runtime/outbox.go:214-227 | Evicting leaves less than the cap, nothing is evicted below it and never more than is needed |
| OutboxState.Find | pkg/runtime/outbox.go:480-511 | The first queued item that is the same emission, or none |
| OutboxState.OldestEvent | pkg/runtime/outbox.go:235-242 | The oldest parked event, or none |
| OutboxLone.LoneDrainEnds | pkg/runtime/outbox.go:340-424 | A drain with nothing else going on ends for every bus, with an empty queue or after a full pass in which the head of every subject (every item, without order) was refused retries + 1 times and nothing else was tried; flags are reset and each acceptance is counted as drained |
| OutboxLone.TryAnswers | pkg/runtime/outbox.go:435-466 | An item is kept back only after all its attempts were refused; otherwise the last answer, and no earlier one, settled it |
| OutboxLone.PassPays | pkg/runtime/outbox.go:374-400 | A pass goes through its whole snapshot, and forwards as many items as the queue loses |
| OutboxLone.LoneDrainIsARun | pkg/runtime/outbox.go:340-424 | The drain loop is a run of the machine, so what is proved of all runs holds of it |
| OutboxLone.EmissionIsAccountedFor | pkg/runtime/runtime.go:357-423 | An emission that waits is last in the outbox and counted; any other leaves the outbox as it was |
| OutboxLone.HowAnEmissionEnds | pkg/runtime/runtime.go:357-423 | The bus takes it exactly when it would and nothing parked is ahead of it; a message fails exactly when there is no bus and none is ahead; an event is lost exactly when the bus did not take it and there is no room |
| OutboxLone.AsksForADrainIff | pkg/runtime/runtime.go:362-423 | It asks for a drain exactly when its subject was held under order, or the bus took it with something still parked |
| OutboxLone.LiveIsARun | pkg/runtime/runtime.go:357-423 | An emission nothing interrupts is a run of the machine, with a drain request in it exactly when it asks for one |
| OutboxLone.OnlyRefusalsHoldBack | pkg/runtime/outbox.go:374-400 | A pass holds a subject back only for an item refused on every attempt, never for one evicted, taken or invalid |
| OutboxLone.ConfigTakesEffect | pkg/runtime/runtime.go:114-133 | The cap given, or ten thousand, is where a park evicts; a refused item is tried once more than the retries given, or than three; an emission on a held subject waits exactly when order is on |
| OutboxDrain.Outbox.constructor | pkg/runtime/outbox.go:117-132 | The empty outbox with a cap of ten thousand and three retries unless given, and order on |
| OutboxDrain.Outbox.SetConfig | pkg/runtime/runtime.go:114-133 | Takes the cap, the retries and the order, with the same defaults, or refuses an unknown order and changes nothing |
| OutboxDrain.Outbox.HeldLocked | pkg/runtime/outbox.go:152-159 | Whether something is queued on the subject |
| OutboxDrain.Outbox.OldestEventLocked | pkg/runtime/outbox.go:235-242 | The index of the oldest parked event |
| OutboxDrain.Outbox.MakeRoom | pkg/runtime/outbox.go:214-227 | The eviction loop leaves what Evict leaves and counts each eviction |
| OutboxDrain.Outbox.ParkLocked | pkg/runtime/outbox.go:214-231 | The new state of a message park |
| OutboxDrain.Outbox.ParkEventLocked | pkg/runtime/outbox.go:252-260 | The new state of an event park, refused exactly when the outbox is full |
| OutboxDrain.Outbox.ParkIfHeld | pkg/runtime/outbox.go:286-294 | Parks exactly when order is on and the subject is held |
| OutboxDrain.Outbox.ParkEventIfHeld | pkg/runtime/outbox.go:265-272 | The same for an event, with room reported |
| OutboxDrain.Outbox.PublishMessage | pkg/runtime/runtime.go:357-393 | The bus leg of an emission, and when it asks for a drain |
| OutboxDrain.Outbox.PublishEvent | pkg/runtime/runtime.go:400-423 | The same for an event |
| OutboxDrain.Outbox.BeginDrain | pkg/runtime/outbox.go:326-337 | Starts a drain exactly when none runs, and notes the request otherwise |
| OutboxDrain.Outbox.HoldsItem | pkg/runtime/outbox.go:480-489 | Whether the same emission is still queued |
| OutboxDrain.Outbox.RemoveItem | pkg/runtime/outbox.go:493-520 | Takes out the first item that is the same emission and counts it as drained or dropped |
| OutboxDrain.Outbox.StopDrain | pkg/runtime/outbox.go:342-372 | Resets the flags |
| OutboxDrain.Outbox.PublishWithRetries | pkg/runtime/outbox.go:435-466 | The attempt loop computes Try, or reports that the item was evicted |
| OutboxDrain.Outbox.ForwardItem | pkg/runtime/outbox.go:374-400 | One item of a pass |
| OutboxDrain.Outbox.RunPass | pkg/runtime/outbox.go:374-400 | The pass loop computes PassRun |
| OutboxDrain.Outbox.RunDrain | pkg/runtime/outbox.go:340-424 | The drain loop computes DrainRun and ends |
| RoutesAgree.EachListenerHearsOnceIff | pkg/runtime/runtime.go:338-356 | For every valid scenario and any Racks, an emission reaches each wire that listens for it exactly once on each Rack, and no other wire, if and only if its lane leg did not fail |
| RoutesAgree.WhoHears | pkg/runtime/runtime.go:338-356 | However the lane leg ended: a bus listener hears the emission exactly when it did not fail, a lane listener exactly when its queue took it, each once, and nobody else |
| RoutesAgree.LaneLegTook | pkg/runtime/lane.go:214-251 | The lane's targets all took the message exactly when the leg did not fail |
| RoutesAgree.FullQueueSilencesTheBus | pkg/runtime/runtime.go:342-349 | A valid scenario in which a full queue beside the emitter keeps an emission from the consumer on another Rack |
| RoutesAgree.TargetsAreSubs | pkg/runtime/runtime.go:828-843 | The lane's targets for a subject are the lane subscriptions the wiring made on it, one for one and in order |
| RoutesAgree.WiredUp | pkg/runtime/runtime.go:828-843 | A lane that was wired up lists exactly that many subscriptions on a subject |
| PublishPort.Rack.constructor | pkg/runtime/runtime.go:78-107 | A Rack's empty lane and outbox |
| PublishPort.Rack.Emit | pkg/runtime/runtime.go:338-393 | The lane leg runs first; when it fails the outbox and the bus are not touched, and otherwise the bus leg runs exactly when the subject is published to the bus |
| RoutesAgree.SourcePublishes | pkg/runtime/routes.go:36-59 | The source Rack of a bus subscriber publishes that subject to the bus |
| RoutesAgree.NoCrossTalk | pkg/runtime/runtime.go:660-705 | A wire hears only the gear and port it names, on the Rack it resolves to |
| RoutesAgree.HasEmitterIffSourceRuns | pkg/runtime/runtime.go:660-705 | A consumer has someone to listen to exactly when the source gear runs on the Rack the wire resolves to |
| RoutesAgree.PublishedIsHeardIff | pkg/runtime/routes.go:36-59 | What a Rack publishes for a wire is heard over the bus by some Rack exactly when the consumer runs where the wire says and the source is pinned or the consumer runs beside it |
| RoutesAgree.GuaranteedSubsUseTheBus | pkg/runtime/routes.go:28-30 | No subscription made for a guaranteed wire is on the lane |
| RoutesAgree.GuaranteedIsPublished | pkg/runtime/routes.go:36-59 | Every Rack that emits for a guaranteed wire publishes the subject to the bus |
| RoutesAgree.GuaranteedIsHeardOverTheBus | pkg/registry/scenario.go:61-63 | What a guaranteed wire's listener hears comes from the bus alone, once, unless the lane leg failed |
| RoutesAgree.InsideOneRackStaysInMemory | pkg/registry/scenario.go:53-54 | A wire that is not guaranteed, with both ends on one Rack, is on that Rack's lane and no Rack publishes anything for it |
| RoutesAgree.BetweenRacksUsesTheBus | pkg/registry/scenario.go:53-54 | A wire with its ends on different Racks is published by the one and subscribed on the bus, under the same subject, by the other |
| RoutesAgree.HotWireOverBusIff | pkg/registry/scenario.go:190-195 | A hot wire is fed over the bus exactly when its source is pinned to another Rack, and then the consumer is pinned to none |
| RoutesAgree.HotWireLeavesTheRack | pkg/registry/scenario.go:54-64 | A valid scenario in which a hot wire is fed over the bus |
| RoutesAgree.NeedsBusIff | pkg/runtime/routes.go:64-82 | A Rack is told it needs the bus exactly when it subscribes on it or can publish to it, or when a wire names it as the source Rack of a gear that runs elsewhere |
| RoutesAgree.OfflineWiringIff | pkg/runtime/runtime.go:828-843 | Without a bus the wiring is refused exactly when some wire here is fed from the bus or names an input of a plain gear; a Rack that does not need the bus has no wire of the first kind |
| RoutesAgree.PhantomNeedsBus | pkg/runtime/routes.go:64-82 | A valid scenario in which a Rack is told it needs the bus and never uses it |
| RoutesAgree.ConsumedIffSubscribed | pkg/runtime/routes.go:64-82 | The consumer test of scenarioNeedsBus agrees with the subscriptions made |
| RoutesAgree.ParseThree | pkg/runtime/runtime.go:1002-1013 | Writing a rack.gear.port reference and parsing it gives the parts back |
| RoutesAgree.ParseTwo | pkg/runtime/runtime.go:1002-1013 | The same for gear.port |
| RoutesAgree.ParseOther | pkg/runtime/runtime.go:1002-1013 | Any other reference is a gear up to its first dot and the rest as port |
| RoutesAgree.SubjectReadsBack | pkg/runtime/runtime.go:308 | A subject is the five words flux, msg, Rack, gear and port |
| Routes.SubjectIsInjective | pkg/runtime/runtime.go:308 | A subject determines its Rack, gear and port, whatever the Rack's name |
| Routes.RunsIffDeployed | pkg/runtime/runtime.go:569-573 | A declared gear runs on a Rack exactly when it is pinned to it or to none |
| Routes.DeployOfGear | pkg/runtime/routes.go:14-22 | With distinct names the deploy map gives each gear its own target |
| Routes.ValidRefParts | pkg/registry/scenario.go:309-343 | A valid reference has a dot-free gear and port |
| Routes.DeployMap | pkg/runtime/routes.go:14-22 | The loop fills the map with the last target of each name |
| Routes.BusEmitSubjects | pkg/runtime/routes.go:36-59 | Exactly the subjects the Rack publishes to the bus |
| Routes.SubsAre | pkg/runtime/runtime.go:660-845 | A subscription is made exactly for each wire whose consumer is subscribed |
| Routes.WireUp | pkg/runtime/runtime.go:660-845 | The wiring loop makes exactly the subscriptions of the Rack's wires, in order, or refuses exactly when one cannot be wired |
| Routes.ScenarioNeedsBus | pkg/runtime/routes.go:64-82 | Whether something is published or some consumer here is fed from the bus |
| ValetRuns.EngineRefinesBook | pkg/valet/engine.go:166-470 | Every operation and every timer firing, stale or not, does to the keys what a map from key to absent, open or kept for replay says |
| ValetRuns.RunsRefineBook | pkg/valet/engine.go:166-470 | So over any run the engine is that map |
| ValetRuns.AnswersFromBook | pkg/valet/engine.go:166-317 | What Park, Redeem and Release answer depends on that map alone: an open key attaches or matches, a kept one replays the kept outcome or is redeemed already, and only an absent key makes a ticket |
| ValetRuns.TerminalIsFinal | pkg/valet/engine.go:240-350 | Over any run a ticket that is closed, expired or released never changes again, its outcome included |
| ValetRuns.HowATicketEnds | pkg/valet/engine.go:240-350 | An open ticket is closed exactly by a reply to its key, with that reply's outcome; released exactly by the release of its key; expired exactly by its own timer; and nothing else changes it |
| ValetRuns.ParkCountsItsLabel | pkg/valet/engine.go:207-231 | A new ticket carries the key and label it was parked with; the open tickets with that label gain exactly this key, all other labels stay, and each count moves by one or not at all |
| ValetRuns.NewTicketIff | pkg/valet/engine.go:186-206 | A park makes a ticket exactly for a key that is not empty, open or kept, on a running engine below its bound, and is shed or refused exactly at the bound or while draining |
| ValetRuns.AttachIsStable | pkg/valet/engine.go:186-191 | Until it ends, a ticket takes every further park of its key, while draining and at the bound too |
| ValetRuns.NoTicketAfterDrain | pkg/valet/engine.go:413-419 | Once a drain has begun no run makes another ticket |
| ValetRuns.AllRefusedAfterClose | pkg/valet/engine.go:444-470 | Once closed, every park, reply and release with a key is told so, and no ticket changes or expires |
| ValetRuns.ExpiryCallbackRunsOnce | pkg/valet/engine.go:321-350 | In every reachable state OnExpire ran at most once for a ticket and only for expired ones |
| ValetRuns.StaleTimerIsHarmless | pkg/valet/engine.go:321-359 | A timer of a ticket that is no longer the one under its key changes nothing |
| ValetRuns.LateReplyIsUnmatched | pkg/valet/engine.go:252-260 | An absent key stays absent, and its replies unmatched, until it is parked again |
| ValetRuns.ReplayIsStable | pkg/valet/engine.go:186-196 | Until its retention ends a redeemed key answers every park with the same ticket and outcome |
| ValetRuns.DrainNeverGrows | pkg/valet/engine.go:413-439 | While draining or closed the number of open tickets never grows |
| ValetRuns.ClosedIsFinal | pkg/valet/engine.go:444-470 | A closed engine is empty and nothing changes it |
| ValetRuns.InFlightAddsUp | pkg/valet/engine.go:363-400 | The destination counts add up to openCount, which is the number of stored tickets |
| ValetMachine.StepKeeps | pkg/valet/engine.go:166-470 | Every step keeps the invariant: keys lead to their own tickets, open and retained keys are disjoint, each destination count is the number of open tickets with the label and absent when zero, openCount is the number stored and within MaxInFlight |
| ValetMachine.New | pkg/valet/engine.go:143-157 | A new engine satisfies the invariant |
| ValetEngine.Effective | pkg/valet/engine.go:111-140 | New refuses exactly on a negative number or a cap below the default time, and otherwise works with a sound configuration: what was given, with the defaults for what was zero and no retention for a negative one |
| ValetEngine.TicketTTL | pkg/valet/engine.go:171-177 | A ticket's time is positive and within the cap: the default when none was asked, what was asked when the cap allows it, the cap when it does not |
| ValetEngine.MemoryStore.Insert | pkg/valet/memory.go:25-33 | Stores a ticket, or returns the one already there |
| ValetEngine.MemoryStore.Get | pkg/valet/memory.go:36-44 | The ticket under a key, or none |
| ValetEngine.MemoryStore.Take | pkg/valet/memory.go:47-56 | Removes and returns it |
| ValetEngine.MemoryStore.Purge | pkg/valet/memory.go:59-68 | Empties the store and returns what it held |
| ValetEngine.Engine.constructor | pkg/valet/engine.go:143-157 | The empty engine |
| ValetEngine.Engine.Park | pkg/valet/engine.go:166-234 | The answer and the new state of a park, with the ticket answered; a new one has the key, the label and the deadline asked for |
| ValetEngine.Engine.Retain | pkg/valet/engine.go:271-274 | Keeps a redeemed ticket exactly when outcomes are kept |
| ValetEngine.Engine.Redeem | pkg/valet/engine.go:240-277 | The answer and the new state of a redeem |
| ValetEngine.Engine.Release | pkg/valet/engine.go:291-317 | The answer and the new state of a release |
| ValetEngine.Engine.Expire | pkg/valet/engine.go:321-350 | What an expiry timer does, and that OnExpire is called exactly when the ticket is noted as expired |
| ValetEngine.Engine.Purge | pkg/valet/engine.go:353-359 | What a retention timer does |
| ValetEngine.Engine.DecOpen | pkg/valet/engine.go:363-371 | Counts a ticket out, dropping a destination at zero |
| ValetEngine.Engine.InFlightSnapshot | pkg/valet/engine.go:392-400 | The number of open tickets of each destination asked for, and of no other |
| ValetEngine.Engine.BeginDrain | pkg/valet/engine.go:413-419 | Refuses new parks from here on, unless closed |
| ValetEngine.Engine.EndDrain | pkg/valet/engine.go:429-439 | An error exactly while tickets are open, with their number |
| ValetEngine.Engine.Close | pkg/valet/engine.go:444-470 | Empties everything, once |
| LaneMachine.QuiesceMeansQuiet | pkg/runtime/lane.go:282-293 | In every reachable state the counter is not positive exactly when nothing is queued, handled, discarded or on its way into a queue, closed subscriptions included |
| LaneMachine.StepPending | pkg/runtime/lane.go:127-188 | Every step keeps `pending` equal to items queued, being handled or discarded plus enqueues under way |
| LaneMachine.QueuesAreFifo | pkg/runtime/lane.go:177-188 | What was handled or discarded is a prefix of what was accepted: at most once, in order, within the capacity |
| LaneMachine.PublishReportsMissedTargets | pkg/runtime/lane.go:214-251 | A finished publish reports an error exactly when some target did not take the message |
| LaneMachine.FailedIffMissed | pkg/runtime/lane.go:214-251 | A finished publish failed exactly when it missed one of its targets |
| LaneQuiesce.QuiesceCanEndIff | pkg/runtime/lane.go:282-293 | From any reachable state, steps of workers, of Unsubscribe calls under way and of publishes under way can bring the counter to zero if and only if no message sits in a queue with its worker gone and no Unsubscribe under way, and no counted enqueue that has not seen a full queue aims at such a subscription |
| LaneQuiesce.DoomedForGood | pkg/runtime/lane.go:282-293 | Otherwise no such steps ever help |
| LaneQuiesce.StrandedIff | pkg/runtime/lane.go:127-188 | The exact steps that strand a message: a publish puts it into a queue nobody serves, or a worker that the last Unsubscribe gave up on stops before its queue is empty |
| LaneQuiesce.StrandedHoldsQuiesce | pkg/runtime/lane.go:282-293 | A stranded message stays, and keeps the counter positive, whatever else happens, until Unsubscribe is called once more |
| LaneQuiesce.LateMessageIsStranded | pkg/runtime/lane.go:253-277 | A concrete run in which a publish lands after Unsubscribe has returned |
| LaneQuiesce.FullQueueFailsPublish | pkg/runtime/lane.go:253-277 | A concrete run in which a publish finds a full queue, gives up and reports it |
| LaneOrder.AcceptedInPublishOrder | pkg/runtime/lane.go:50-57 | While the publishes on a subject come one at a time, each of its subscriptions accepts their messages in publish order, over any run |
| LaneMachine.ReachableInv | pkg/runtime/lane.go:109-277 | In every reachable state each subject's list holds exactly its listed subscriptions, once each and in order, with the counter, queues and publishes as above |
| LaneLoops.TryTargetIsARun | pkg/runtime/lane.go:253-277 | Offering a message to one target is two or four steps of the machine |
| LaneLoops.TryTargetEffect | pkg/runtime/lane.go:253-277 | A target with room gets the message and is counted; a full one gets nothing and the count is taken back |
| LaneLoops.SweepIsARun | pkg/runtime/lane.go:166-174 | Discarding an item is two steps of the machine |
| LaneLoops.LocalLane.constructor | pkg/runtime/lane.go:72-90 | The empty lane with its defaults |
| LaneLoops.LocalLane.Subscribe | pkg/runtime/lane.go:109-124 | Adds a subscription at the end of its subject's list |
| LaneLoops.LocalLane.RemoveFromList | pkg/runtime/lane.go:131-145 | Takes a subscription off its list and drops an empty list |
| LaneLoops.LocalLane.Discard | pkg/runtime/lane.go:166-174 | Empties the queue and counts each item off; a run of the machine |
| LaneLoops.LocalLane.Offer | pkg/runtime/lane.go:235-251 | Every target gets its turn; a run of the machine |
| LaneLoops.LocalLane.Publish | pkg/runtime/lane.go:214-251 | Reports how many targets took the message and whether one did not; a run of the machine |
| ArtefactIndex.StoredVersionsAreImmutable | pkg/manager/impl.go:347-399 | For any number of managers, in any order and with any faults, a name:tag in the file stays there with the same hash |
| ArtefactIndex.LatestIsHighest | pkg/manager/impl.go:347-399 | While every write succeeds, "latest" in the file always points at the hash of the highest version |
| ArtefactIndex.ImportKeepsLatest | pkg/manager/impl.go:110-185 | The step that keeps it |
| ArtefactIndex.ImportLeavesLatestRightIff | pkg/manager/impl.go:110-146 | With failed writes, an import leaves every "latest" right exactly when the manager's memory holds no outranking version of another name |
| ArtefactIndex.ReachableOwnOk | pkg/manager/impl.go:110-146 | What that condition assumes of memory holds in every reachable state |
| ArtefactIndex.FailedWriteSpoilsLatest | pkg/manager/impl.go:110-146 | Three imports after which "latest" is wrong |
| ArtefactIndex.AssignedVersionIsAboveIff | pkg/manager/impl.go:347-399 | An import without a version gets one strictly above every version of the name exactly when the highest leaves room, and is then filed |
| ArtefactIndex.ImportFilesWhatItReports | pkg/manager/impl.go:352-399 | A successful import reports the caller's version, whatever the document declares, or the document's without one; the file then holds that name and tag, among its kind, with exactly the imported hash |
| ArtefactIndex.ImportFilesNothingElse | pkg/manager/impl.go:352-399 | The other kind, the other names and the other tags but "latest" are those of file and memory together |
| ArtefactIndex.GivenVersionIsFiledIff | pkg/manager/impl.go:359-377 | A given version is refused exactly when it is none or is taken by another hash |
| ArtefactIndex.FailedImportLeavesTheFile | pkg/manager/impl.go:110-146 | Without success the file stays; memory keeps what it read, and after a failed write the new version too |
| ArtefactIndex.ReimportChangesNothing | pkg/manager/impl.go:374-379 | Importing again what the file holds under that version changes nothing |
| ArtefactIndex.FirstVersionOfAName | pkg/manager/impl.go:427-436 | The first version of a name is v0.1.0 |
| Versions.NextVersionReads | pkg/manager/impl.go:427-452 | Read back, the next version's spelling is the same major number, the next minor one and zero |
| Versions.BelowMeans | pkg/manager/impl.go:575-587 | Versions compare by major, minor, patch and prerelease, and spellings of one version byte by byte |
| Versions.LexLessIff | pkg/manager/impl.go:575-587 | In each comparison the first difference decides, and a proper prefix comes first |
| Versions.NextMinorIsAboveIff | pkg/manager/impl.go:427-452 | The same of the version arithmetic, overflow of the source's int included |
| Versions.LargestMinorHasNoRoom | pkg/manager/impl.go:427-452 | A version after which the assigned tag is no version |
| Versions.BelowTotal | pkg/manager/impl.go:575-587 | The version order is total on versions |
| Versions.BelowTransitive | pkg/manager/impl.go:575-587 | and transitive |
| Versions.HighestIsUnique | pkg/manager/impl.go:575-598 | A name has one highest version |
| Versions.ResolveLatest | pkg/manager/impl.go:575-587 | Picks the highest of the tags that are versions, or none |
| ArtefactStore.MergeTags | pkg/manager/impl.go:176-185 | The union of two names' tags, the second winning |
| ArtefactStore.MergeArtifacts | pkg/manager/impl.go:176-185 | The union of two indexes, name by name |
| ArtefactStore.Manager.constructor | pkg/manager/impl.go:59-94 | A manager starts with the file's index |
| ArtefactStore.Manager.ChooseTag | pkg/manager/impl.go:347-399 | The caller's version, the document's, or the next one |
| ArtefactStore.Manager.File | pkg/manager/impl.go:347-399 | Files a version and moves "latest" to the highest |
| ArtefactStore.Manager.ImportArtifact | pkg/manager/impl.go:347-399 | One import does to file and memory what Import says, for every fault |
| Specs.CollectSpecs | pkg/controller/scenario.go:874-914 | Ends on every finite store, cycles included, and returns exactly the loadable name:tag references reachable from the gears, each once |
| Specs.AllFound | pkg/controller/scenario.go:874-914 | With no work left, whatever a chain of references leads to was found |
| Specs.ArtifactsAreDistinct | pkg/controller/scenario.go:859-868 | Different references give different name and tag |
| Specs.StoreRefIff | pkg/controller/scenario.go:859-868 | A reference splits into a name and a colon-free tag exactly when it has no slash and no YAML ending, both are non-empty, and they give it back |
| Specs.RootsAre | pkg/controller/scenario.go:847-854 | The work starts with exactly what gears say under "spec_path" or, when that is missing, empty or no text, under "spec" |
| Specs.ArtifactsAreNamed | pkg/controller/scenario.go:874-914 | Each artefact carries the name and tag of its reference and what the store holds under it |
| Specs.StartWork | pkg/controller/scenario.go:874-886 | The references the gears name, in order |
| Amount.RoundTrip | pkg/translation/amount.go:49-99 | For every amount and every currency of the table, under either code: to ISO 20022 and back gives the same amount and the numeric code exactly when twelve digits hold it, and twelve digits come back as the same twelve |
| Amount.ToIso20022 | pkg/translation/amount.go:49-80 | Accepted exactly when the currency is known and the amount is digits; the decimal is worth exactly the minor units, with the currency's decimals, no needless leading zero and no point without decimals |
| Amount.ToIso8583 | pkg/translation/amount.go:49-69 | A decimal is accepted exactly when the currency is known, it is well formed, a whole number of minor units and within twelve digits; the result is worth exactly the decimal |
| Amount.DecimalToMinorIsExact | pkg/translation/amount.go:82-99 | Accepted exactly when well formed and exactly representable; worth exactly the decimal, without leading zeros |
| Amount.MinorToDecimalIsExact | pkg/translation/amount.go:71-80 | A well-formed decimal with exactly the currency's decimals, worth exactly the minor units, whose whole part is "0" or starts with no zero |
| Amount.FindByEitherCode | pkg/translation/amount.go:20-39 | Every row of the table is found by its alphabetic and by its numeric code |
| Amount.KnownIff | pkg/translation/amount.go:31-39 | A currency is known exactly when some row has the code, trimmed and in upper case, and what is found is such a row |
| Amount.FoundInAnyCase | pkg/translation/amount.go:31-39 | Each row is found by its code in any mix of cases, with white space around it |
| Amount.RowHasItsMinorUnits | pkg/translation/amount.go:20-29 | Each row has the decimals ISO 4217 gives its currency |
| MaskPAN.MaskPAN | pkg/logger/mask.go:26-46 | Keeps the length and replaces byte k by an asterisk exactly when k lies in the middle of some 13 to 19 digit Luhn-valid window |
| MaskPAN.MaskLeavesNoCardNumber | pkg/logger/mask.go:26-46 | Masked output holds no such window |
| MaskPAN.MaskIsIdempotent | pkg/logger/mask.go:26-46 | Masking twice is masking once |
| MaskPAN.LuhnNoticesOneDigit | pkg/logger/mask.go:61-76 | The formula notices every single wrong digit |
| MaskPAN.LuhnNoticesASwap | pkg/logger/mask.go:61-76 | and every swap of neighbours, except of equal digits or a zero and a nine |
| MaskPAN.LuhnValid | pkg/logger/mask.go:61-76 | The loop decides the Luhn formula |
| MaskPAN.CheckAllDigits | pkg/logger/mask.go:51-58 | Whether all bytes are digits |
| JoinKeys.JoinIsInjective | pkg/sdk/helpers.go:78-95 | Two sequences of parts with the same key are the same sequence, whatever bytes they hold |
| JoinKeys.PartsOfJoined | pkg/sdk/helpers.go:78-95 | A decoder undoes the join |
| JoinKeys.JoinKeys | pkg/sdk/helpers.go:87-95 | The loop computes the join |

## Left out

- The bus client, message encoding and tracing (NATS, JetStream, CBOR, YAML, OpenTelemetry): the bus is an arbitrary sequence of answers, a message is an identity.
- Waiting and clocks (`waitClear`, retry pauses, tickers, the retry loop for parked events): they decide when, not what. A drain request may come at any time. No claim is made that every departure from the queue wakes a waiting emission; an eviction does not.
- The bus-state note of a drain attempt is taken in the same step as the answer of the bus.
- Logging and metrics, including the choice between a quiet and a loud warning; only the flags behind it are modelled.
- Validation beyond names, deploy targets and wires (version, type, declared ports, event sources); the scenario's Racks and groups are one set of names.
- Version strings: a tag is a parsed value, so parsing and the normal spelling of a version are not modelled; the prerelease part is given by numbers in the precedence order of section 11 of Semantic Versioning 2.0.0.
- The index file's lock, its atomic replacement and the per-version attributes: an import is one step that may fail before it reads or before it writes. Reading the document header, listing, history and loading are not modelled.
- Store backends of the correlation engine other than the in-memory one, and the fields of a ticket that are only carried along (return context, request, times other than the deadline).
- The wait inside the engine's drain: its start and its answer are modelled, and everything may happen between.
- Handlers of the lane: that one runs, not what it does or whether it panics; why an enqueue gives up (timeout, closed, cancelled) is one case.
- OutboxDrain.Outbox.RunDrain: the loop runs with nothing else going on; the interleavings are in OutboxMachine, and OutboxLone.LoneDrainIsARun connects the two. A queue is a sequence, not a linked list.
- LaneLoops.LocalLane.Publish: the same, against LaneMachine; channels are sequences with a capacity, and the worker and Unsubscribe appear as steps.
- RoutesAgree.EachListenerHearsOnceIff: counts the copies handed over by the lane and by the bus leg; what the bus leg does with a message the bus refuses is OutboxLone.EmissionIsAccountedFor, and redelivery by the bus itself is not modelled.
- Specs.CollectSpecs: the store and the references a content holds are fixed while the loop runs; the content is taken as given.
- An amount of "" or "." is accepted as zero when converting to ISO 8583, as in the source; both count as well formed with no digits.
- Scenario delivery to Racks, enrolment, telemetry, configuration, gear validation, the command line and repair: plumbing around the parts above that would add only easy members.

/** The outbox under concurrency. Every lock-protected region is one step; emitters,
    drains, drain requests and reconfigurations interleave in any order, and the bus
    answers each publish with any verdict. An action that does not apply changes nothing. */
module OutboxMachine {
  import opened OutboxState

  /** Where an emission is between publishPort (or publishEvent) starting and returning. */
  datatype Stage = Checking | Publishing | Parking
  datatype Flight = Flight(subject: string, isEvent: bool, stage: Stage)

  /** One pass over a snapshot of the queue: the next item to try, the subjects held
      back so far, the order the snapshot was taken under, and the items forwarded. */
  datatype Pass = Pass(items: seq<Item>, at: nat, held: set<string>, ordered: bool, forwarded: nat)

  /** Where a runDrain goroutine is. */
  datatype Phase =
    | Top
    | Trying(pass: Pass, attempt: nat)
    | Sending(pass: Pass, attempt: nat)
    | Removing(pass: Pass, invalid: bool)

  datatype Drain = Drain(cancelled: bool, phase: Phase)

  /** One message the bus took, from a drain or straight from its emitter. */
  datatype Taken = Taken(item: Item, byDrain: bool)

  /** `log` is what the bus accepted, in order. `asked` counts the drain requests, and
      `seen` is its value when a drain last looked at the queue under the lock. */
  datatype Sys = Sys(
    box: Box, drains: seq<Drain>, flights: map<nat, Flight>, clock: nat,
    log: seq<Taken>, asked: nat, seen: nat)

  datatype Action =
    | Emit(subject: string, isEvent: bool)
    | CheckHeld(id: nat)
    | PublishLive(id: nat, verdict: Verdict)
    | ParkRefused(id: nat)
    | Kick(quiet: bool)
    | DrainStep(drain: nat, verdict: Verdict)
    | Cancel(drain: nat)
    | Configure(maxMessages: int, drainRetries: int, order: bool)

  function Start(maxMessages: int, drainRetries: int): Sys {
    Sys(NewBox(maxMessages, drainRetries), [], map[], 0, [], 0, 0)
  }

  function Land(s: Sys, id: nat): Sys {
    s.(flights := s.flights - {id})
  }

  function SeatOf(s: Sys, id: nat): Item
    requires id in s.flights
  {
    Item(s.flights[id].subject, s.flights[id].isEvent, id, s.clock)
  }

  function ParkFlight(s: Sys, id: nat): (r: Sys)
    requires id in s.flights && 0 < s.box.max
    ensures r.box.max == s.box.max
  {
    Land(s.(box := ParkAny(s.box, SeatOf(s, id)), clock := s.clock + 1), id)
  }

  function StepCheckHeld(s: Sys, id: nat): (r: Sys)
    requires id in s.flights && s.flights[id].stage.Checking? && 0 < s.box.max
    ensures r.box.max == s.box.max
  {
    var f := s.flights[id];
    if s.box.ordered && Held(s.box.items, f.subject) then ParkFlight(s, id)
    else s.(flights := s.flights[id := f.(stage := Publishing)])
  }

  /** Without a bus a message fails and an event parks; refused, both park. */
  function StepPublishLive(s: Sys, id: nat, verdict: Verdict): (r: Sys)
    requires id in s.flights && s.flights[id].stage.Publishing?
    ensures r.box.max == s.box.max
  {
    var f := s.flights[id];
    if verdict.Accepted? then Land(s.(log := s.log + [Taken(SeatOf(s, id), false)]), id)
    else if verdict.NoBus? && !f.isEvent then Land(s, id)
    else s.(flights := s.flights[id := f.(stage := Parking)])
  }

  function StepKick(s: Sys, quiet: bool): Sys {
    s.(box := BeginDrain(s.box, quiet),
    drains := if s.box.draining then s.drains else s.drains + [Drain(false, Top)],
    asked := s.asked + 1)
  }

  function Finish(s: Sys, k: nat): Sys
    requires k < |s.drains|
  {
    s.(box := Stopped(s.box), drains := Without(s.drains, k))
  }

  function Goto(s: Sys, k: nat, phase: Phase): Sys
    requires k < |s.drains|
  {
    s.(drains := s.drains[k := s.drains[k].(phase := phase)])
  }

  /** The region that ends the drain on an empty queue or takes the pass snapshot. */
  function StepTop(s: Sys, k: nat): Sys
    requires k < |s.drains|
  {
    if s.drains[k].cancelled then Finish(s, k)
    else
      var looked := s.(seen := s.asked);
      if s.box.items == [] then Finish(looked, k)
      else Goto(looked, k, Trying(Pass(s.box.items, 0, {}, s.box.ordered, 0), 0))
  }

  /** The end of a pass: a pass that forwarded nothing ends the drain, unless a request
      came in while it ran. */
  function StepPassEnd(s: Sys, k: nat, forwarded: nat): Sys
    requires k < |s.drains|
  {
    if forwarded > 0 then Goto(s, k, Top)
    else if s.box.again then Goto(s.(box := s.box.(again := false, againLoud := false)), k, Top)
    else Finish(s, k)
  }

  function Advance(p: Pass): Pass {
    p.(at := p.at + 1)
  }

  function HoldBack(p: Pass): Pass
    requires p.at < |p.items|
  {
    Advance(p).(held := p.held + {p.items[p.at].subject})
  }

  /** The start of an attempt: the attempts left and the `holds` check. */
  function StepAttempt(s: Sys, k: nat, p: Pass, attempt: nat): Sys
    requires k < |s.drains| && p.at < |p.items|
  {
    if attempt > s.box.retries then Goto(s, k, Trying(HoldBack(p), 0))
    else if !Holds(s.box.items, p.items[p.at]) then Goto(s, k, Trying(Advance(p), 0))
    else Goto(s, k, Sending(p, attempt))
  }

  function StepTrying(s: Sys, k: nat, p: Pass, attempt: nat): Sys
    requires k < |s.drains|
  {
    if p.at >= |p.items| then StepPassEnd(s, k, p.forwarded)
    else if s.drains[k].cancelled then
      if attempt == 0 then Finish(s, k) else Goto(s, k, Trying(HoldBack(p), 0))
    else if attempt == 0 && p.ordered && p.items[p.at].subject in p.held then Goto(s, k, Trying(Advance(p), 0))
    else StepAttempt(s, k, p, attempt)
  }

  /** The bus answers a publish the drain has in flight. The cap may have evicted the
      item since the `holds` check. */
  function StepSend(s: Sys, k: nat, p: Pass, attempt: nat, verdict: Verdict): Sys
    requires k < |s.drains|
  {
    if p.at >= |p.items| then s
    else match verdict
      case Accepted =>
        Goto(s.(box := s.box.(busState := BusUp), log := s.log + [Taken(p.items[p.at], true)]), k, Removing(p, false))
      case Invalid =>
        Goto(s.(box := s.box.(busState := BusUp)), k, Removing(p, true))
      case _ =>
        Goto(s.(box := s.box.(busState := BusDown)), k, Trying(p, attempt + 1))
  }

  function StepRemove(s: Sys, k: nat, p: Pass, invalid: bool): Sys
    requires k < |s.drains|
  {
    if p.at >= |p.items| then s
    else
      Goto(s.(box := Remove(s.box, p.items[p.at], invalid)), k,
           Trying(Advance(p).(forwarded := p.forwarded + 1), 0))
  }

  function StepDrain(s: Sys, k: nat, verdict: Verdict): (r: Sys)
    requires k < |s.drains|
    ensures r.box.max == s.box.max
  {
    match s.drains[k].phase
    case Top => StepTop(s, k)
    case Trying(p, attempt) => StepTrying(s, k, p, attempt)
    case Sending(p, attempt) => StepSend(s, k, p, attempt, verdict)
    case Removing(p, invalid) => StepRemove(s, k, p, invalid)
  }

  function Step(s: Sys, a: Action): (r: Sys)
    requires 0 < s.box.max
    ensures 0 < r.box.max
  {
    match a
    case Emit(subject, isEvent) =>
      s.(flights := s.flights[s.clock := Flight(subject, isEvent, Checking)], clock := s.clock + 1)
    case CheckHeld(id) =>
      if id in s.flights && s.flights[id].stage.Checking? then StepCheckHeld(s, id) else s
    case PublishLive(id, verdict) =>
      if id in s.flights && s.flights[id].stage.Publishing? then StepPublishLive(s, id, verdict) else s
    case ParkRefused(id) =>
      if id in s.flights && s.flights[id].stage.Parking? then ParkFlight(s, id) else s
    case Kick(quiet) => StepKick(s, quiet)
    case DrainStep(k, verdict) => if k < |s.drains| then StepDrain(s, k, verdict) else s
    case Cancel(k) => if k < |s.drains| then s.(drains := s.drains[k := s.drains[k].(cancelled := true)]) else s
    case Configure(m, r, o) => s.(box := Configured(s.box, m, r, o))
  }

  /** The state after any sequence of actions. */
  function Exec(s: Sys, acts: seq<Action>): (r: Sys)
    requires 0 < s.box.max
    ensures 0 < r.box.max
  {
    if acts == [] then s else Step(Exec(s, acts[..|acts| - 1]), acts[|acts| - 1])
  }

  lemma ExecNone(s: Sys)
    requires 0 < s.box.max
    ensures Exec(s, []) == s
  {
  }

  lemma ExecSnoc(s: Sys, acts: seq<Action>, a: Action)
    requires 0 < s.box.max
    ensures Exec(s, acts + [a]) == Step(Exec(s, acts), a)
  {
    assert (acts + [a])[..|acts + [a]| - 1] == acts;
  }

  // ------------------------------------------------------------- one drain, the flags and the account

  /** At most one drain runs, `draining` says whether one does, and with none running
      the request and bus flags are reset. */
  predicate OneDrain(s: Sys) {
    && |s.drains| == (if s.box.draining then 1 else 0)
    && (!s.box.draining ==> !s.box.again && !s.box.againLoud && s.box.busState == BusUnknown)
    && (s.box.againLoud ==> s.box.again)
  }

  lemma TryingOneDrain(s: Sys, p: Pass, attempt: nat)
    requires OneDrain(s) && Conserved(s.box) && |s.drains| == 1
    ensures OneDrain(StepTrying(s, 0, p, attempt)) && Conserved(StepTrying(s, 0, p, attempt).box)
  {
  }

  lemma RemoveOneDrain(s: Sys, p: Pass, invalid: bool)
    requires OneDrain(s) && Conserved(s.box) && |s.drains| == 1
    ensures OneDrain(StepRemove(s, 0, p, invalid)) && Conserved(StepRemove(s, 0, p, invalid).box)
  {
  }

  lemma ParkOneDrain(s: Sys, id: nat)
    requires OneDrain(s) && Conserved(s.box) && id in s.flights
    ensures OneDrain(ParkFlight(s, id)) && Conserved(ParkFlight(s, id).box)
  {
    RegionsConserve(s.box, SeatOf(s, id), false, false, 0, 0, false);
  }

  lemma DrainOneDrain(s: Sys, verdict: Verdict)
    requires OneDrain(s) && Conserved(s.box) && |s.drains| == 1
    ensures OneDrain(StepDrain(s, 0, verdict)) && Conserved(StepDrain(s, 0, verdict).box)
  {
    match s.drains[0].phase
    case Top =>
    case Trying(p, attempt) =>
      TryingOneDrain(s, p, attempt);
      hide StepTrying;
    case Sending(p, attempt) =>
    case Removing(p, invalid) =>
      RemoveOneDrain(s, p, invalid);
      hide StepRemove;
  }

  lemma StepOneDrain(s: Sys, a: Action)
    requires OneDrain(s) && Conserved(s.box)
    ensures OneDrain(Step(s, a)) && Conserved(Step(s, a).box)
  {
    hide StepDrain, ParkFlight;
    match a
    case DrainStep(k, verdict) => if k < |s.drains| { DrainOneDrain(s, verdict); }
    case CheckHeld(id) => if id in s.flights { ParkOneDrain(s, id); }
    case ParkRefused(id) => if id in s.flights { ParkOneDrain(s, id); }
    case _ =>
  }

  /** In every reachable state: at most one drain, flags reset when none runs, and
      parked = drained + dropped + queued. */
  lemma {:induction false} ReachableOneDrain(maxMessages: int, drainRetries: int, acts: seq<Action>)
    ensures OneDrain(Exec(Start(maxMessages, drainRetries), acts))
    ensures Conserved(Exec(Start(maxMessages, drainRetries), acts).box)
  {
    if acts != [] {
      ReachableOneDrain(maxMessages, drainRetries, acts[..|acts| - 1]);
      StepOneDrain(Exec(Start(maxMessages, drainRetries), acts[..|acts| - 1]), acts[|acts| - 1]);
    }
  }

  /** The two ways a parked item is dropped: the cap evicts for a message park, or the
      bus called the message invalid. */
  predicate MayDrop(s: Sys, a: Action) {
    match a
    case CheckHeld(id) =>
      id in s.flights && !s.flights[id].isEvent && |s.box.items| >= s.box.max
    case ParkRefused(id) =>
      id in s.flights && !s.flights[id].isEvent && |s.box.items| >= s.box.max
    case DrainStep(k, _) =>
      k < |s.drains| && s.drains[k].phase.Removing? && s.drains[k].phase.invalid
    case _ => false
  }

  /** `dropped` never falls, and it grows only as MayDrop says. */
  lemma DropsAreEvictionsOrInvalid(s: Sys, a: Action)
    requires 0 < s.box.max
    ensures s.box.dropped <= Step(s, a).box.dropped
    ensures s.box.dropped < Step(s, a).box.dropped ==> MayDrop(s, a)
  {
    if a.DrainStep? && a.drain < |s.drains| {
      DrainDrops(s, a.drain, a.verdict);
      hide StepDrain;
    }
  }

  lemma DrainDrops(s: Sys, k: nat, verdict: Verdict)
    requires k < |s.drains|
    ensures s.box.dropped <= StepDrain(s, k, verdict).box.dropped
    ensures s.box.dropped < StepDrain(s, k, verdict).box.dropped ==>
              s.drains[k].phase.Removing? && s.drains[k].phase.invalid
  {
    match s.drains[k].phase
    case Trying(p, attempt) =>
      assert StepTrying(s, k, p, attempt).box.dropped == s.box.dropped;
    case _ =>
  }

  /** A park leaves at most `max` items, also right after the cap was lowered. */
  lemma ParkRespectsCap(s: Sys, id: nat)
    requires 0 < s.box.max && id in s.flights && !s.flights[id].isEvent
    ensures |ParkFlight(s, id).box.items| <= s.box.max
  {
    assert |ParkFlight(s, id).box.items| == |Evict(s.box.items, s.box.max)| + 1;
  }

  /** Drain requests, drain steps the bus refuses, and cancellations. */
  predicate BusRefuses(a: Action) {
    a.Kick? || a.Cancel? || (a.DrainStep? && (a.verdict.Refused? || a.verdict.NoBus?))
  }

  predicate NothingInHand(s: Sys) {
    forall k :: 0 <= k < |s.drains| ==> !s.drains[k].phase.Removing?
  }

  predicate SameQueue(s: Sys, t: Sys) {
    && t.box.items == s.box.items && t.log == s.log
    && t.box.dropped == s.box.dropped && t.box.drained == s.box.drained && t.box.parked == s.box.parked
  }

  lemma RefusedStepKeepsQueue(s: Sys, a: Action)
    requires 0 < s.box.max && NothingInHand(s) && BusRefuses(a)
    ensures SameQueue(s, Step(s, a)) && NothingInHand(Step(s, a))
  {
    if a.DrainStep? && a.drain < |s.drains| {
      RefusedDrainStep(s, a.drain, a.verdict);
      hide StepDrain;
    }
  }

  lemma RefusedDrainStep(s: Sys, k: nat, verdict: Verdict)
    requires NothingInHand(s) && k < |s.drains| && (verdict.Refused? || verdict.NoBus?)
    ensures SameQueue(s, StepDrain(s, k, verdict)) && NothingInHand(StepDrain(s, k, verdict))
  {
    match s.drains[k].phase
    case Top =>
    case Trying(p, attempt) =>
      RefusedTrying(s, k, p, attempt);
      hide StepTrying;
    case Sending(p, attempt) =>
  }

  lemma RefusedTrying(s: Sys, k: nat, p: Pass, attempt: nat)
    requires NothingInHand(s) && k < |s.drains|
    ensures SameQueue(s, StepTrying(s, k, p, attempt)) && NothingInHand(StepTrying(s, k, p, attempt))
  {
  }

  /** However often drains are asked for and run, a bus that refuses everything leaves
      the queue and the account as they were. */
  lemma {:induction false} DeadBusNeverEatsTheQueue(s: Sys, acts: seq<Action>)
    requires 0 < s.box.max && NothingInHand(s)
    requires forall a :: a in acts ==> BusRefuses(a)
    ensures SameQueue(s, Exec(s, acts)) && NothingInHand(Exec(s, acts))
  {
    if acts != [] {
      var before := acts[..|acts| - 1];
      DeadBusNeverEatsTheQueue(s, before);
      RefusedStepKeepsQueue(Exec(s, before), acts[|acts| - 1]);
    }
  }

  /** The bus answers a publish of a drain. */
  predicate BusAnswers(s: Sys, a: Action) {
    && a.DrainStep? && a.drain < |s.drains| && s.drains[a.drain].phase.Sending?
    && s.drains[a.drain].phase.pass.at < |s.drains[a.drain].phase.pass.items|
  }

  /** The noted state of the bus is what it last answered the running drain: up when it took
      the item or called it invalid, down when it refused. Nothing else notes an answer. */
  lemma BusStateIsTheLastAnswer(s: Sys, a: Action)
    requires 0 < s.box.max
    ensures BusAnswers(s, a) ==>
              Step(s, a).box.busState == if a.verdict.Accepted? || a.verdict.Invalid? then BusUp else BusDown
    ensures !BusAnswers(s, a) ==> Step(s, a).box.busState in {s.box.busState, BusUnknown}
  {
    hide Evict, Held;
    if a.DrainStep? && a.drain < |s.drains| {
      match s.drains[a.drain].phase
      case Trying(p, attempt) =>
        TryingBusState(s, a.drain, p, attempt);
        hide StepTrying;
      case _ =>
    }
  }

  lemma TryingBusState(s: Sys, k: nat, p: Pass, attempt: nat)
    requires k < |s.drains|
    ensures StepTrying(s, k, p, attempt).box.busState in {s.box.busState, BusUnknown}
  {
  }

  /** Requests made while a drain runs are noted, and as loud exactly when one of them was. */
  lemma {:induction false} LoudWhenOneIsLoud(s: Sys, acts: seq<Action>)
    requires 0 < s.box.max && s.box.draining && acts != [] && forall a :: a in acts ==> a.Kick?
    ensures var t := Exec(s, acts);
            && t.drains == s.drains && t.box.draining && t.box.again && t.asked == s.asked + |acts|
            && (t.box.againLoud <==> s.box.againLoud || Kick(false) in acts)
  {
    hide Exec, Step;
    var before, last := acts[..|acts| - 1], acts[|acts| - 1];
    assert acts == before + [last] && last in acts;
    assert forall a :: a in acts <==> a in before || a == last;
    ExecSnoc(s, before, last);
    if before == [] {
      ExecNone(s);
    } else {
      LoudWhenOneIsLoud(s, before);
    }
    KickNotes(Exec(s, before), last.quiet);
  }

  lemma KickNotes(s: Sys, quiet: bool)
    requires 0 < s.box.max && s.box.draining
    ensures var t := Step(s, Kick(quiet));
            && t.drains == s.drains && t.box.draining && t.box.again && t.asked == s.asked + 1
            && (t.box.againLoud <==> s.box.againLoud || !quiet)
  {
  }

  // ------------------------------------------------------------- no drain request is lost

  /** A request nobody has looked for yet is owed by a running drain, which is about to
      look at the queue or has the request noted. */
  predicate RequestsOwed(s: Sys) {
    && s.seen <= s.asked
    && (s.seen < s.asked ==> |s.drains| == 1 && (s.drains[0].phase.Top? || s.box.again))
    && forall k :: 0 <= k < |s.drains| ==> !s.drains[k].cancelled
  }

  lemma TryingRequestsOwed(s: Sys, p: Pass, attempt: nat)
    requires OneDrain(s) && RequestsOwed(s) && |s.drains| == 1 && s.drains[0].phase == Trying(p, attempt)
    ensures RequestsOwed(StepTrying(s, 0, p, attempt))
  {
  }

  lemma DrainRequestsOwed(s: Sys, verdict: Verdict)
    requires OneDrain(s) && RequestsOwed(s) && |s.drains| == 1
    ensures RequestsOwed(StepDrain(s, 0, verdict))
  {
    match s.drains[0].phase
    case Trying(p, attempt) =>
      TryingRequestsOwed(s, p, attempt);
      hide StepTrying;
    case _ =>
  }

  lemma StepRequestsOwed(s: Sys, a: Action)
    requires OneDrain(s) && Conserved(s.box) && RequestsOwed(s) && !a.Cancel?
    ensures RequestsOwed(Step(s, a))
  {
    hide StepDrain, Evict, Held;
    if a.DrainStep? && a.drain < |s.drains| {
      DrainRequestsOwed(s, a.verdict);
      hide RequestsOwed;
    }
  }

  /** With uncancelled contexts every drain request is followed by a look at the queue
      taken after it (a pass snapshot or an empty queue): whenever no drain runs, no
      request is left unseen. */
  lemma {:induction false} NoDrainRequestLost(maxMessages: int, drainRetries: int, acts: seq<Action>)
    requires forall a :: a in acts ==> !a.Cancel?
    ensures var s := Exec(Start(maxMessages, drainRetries), acts);
            && RequestsOwed(s)
            && (!s.box.draining ==> s.seen == s.asked)
  {
    if acts != [] {
      var before := acts[..|acts| - 1];
      assert forall a :: a in before ==> a in acts;
      NoDrainRequestLost(maxMessages, drainRetries, before);
      ReachableOneDrain(maxMessages, drainRetries, before);
      StepRequestsOwed(Exec(Start(maxMessages, drainRetries), before), acts[|acts| - 1]);
    }
    ReachableOneDrain(maxMessages, drainRetries, acts);
  }

  /** No drain runs and a request was never followed by a look at the queue. */
  predicate Lost(s: Sys) {
    s.drains == [] && s.seen < s.asked
  }

  /** A cancelled drain is about to stop with a request noted: at the top of a round, or
      before the first attempt at an item. */
  predicate StopsOwing(s: Sys, a: Action) {
    && a.DrainStep? && a.drain < |s.drains| && s.drains[a.drain].cancelled && s.seen < s.asked
    && match s.drains[a.drain].phase
       case Top => true
       case Trying(p, attempt) => attempt == 0 && p.at < |p.items|
       case _ => false
  }

  /** Cancelled or not, a running drain that owes a look is about to look or has it noted. */
  predicate Noted(s: Sys) {
    s.seen <= s.asked && (s.seen < s.asked && |s.drains| == 1 ==> s.drains[0].phase.Top? || s.box.again)
  }

  lemma TryingLostIff(s: Sys, p: Pass, attempt: nat)
    requires OneDrain(s) && Noted(s) && |s.drains| == 1 && s.drains[0].phase == Trying(p, attempt)
    ensures Noted(StepTrying(s, 0, p, attempt))
    ensures Lost(StepTrying(s, 0, p, attempt)) <==> StopsOwing(s, DrainStep(0, Refused))
  {
  }

  lemma DrainLostIff(s: Sys, verdict: Verdict)
    requires OneDrain(s) && Noted(s) && |s.drains| == 1
    ensures Noted(StepDrain(s, 0, verdict))
    ensures Lost(StepDrain(s, 0, verdict)) <==> StopsOwing(s, DrainStep(0, verdict))
  {
    match s.drains[0].phase
    case Trying(p, attempt) =>
      TryingLostIff(s, p, attempt);
      hide StepTrying;
    case _ =>
  }

  lemma StepLostIff(s: Sys, a: Action)
    requires OneDrain(s) && Conserved(s.box) && Noted(s)
    ensures Noted(Step(s, a))
    ensures !Lost(s) ==> (Lost(Step(s, a)) <==> StopsOwing(s, a))
  {
    if a.DrainStep? && a.drain < |s.drains| {
      DrainLostIff(s, a.verdict);
      hide StepDrain, StopsOwing;
    }
  }

  lemma {:induction false} ReachableNoted(maxMessages: int, drainRetries: int, acts: seq<Action>)
    ensures Noted(Exec(Start(maxMessages, drainRetries), acts))
  {
    if acts != [] {
      var before := acts[..|acts| - 1];
      ReachableNoted(maxMessages, drainRetries, before);
      ReachableOneDrain(maxMessages, drainRetries, before);
      StepLostIff(Exec(Start(maxMessages, drainRetries), before), acts[|acts| - 1]);
    }
  }

  /** With cancellations, the exact step that loses a drain request: a cancelled drain
      stops while it owes a look. */
  lemma RequestLostIff(maxMessages: int, drainRetries: int, acts: seq<Action>, a: Action)
    requires !Lost(Exec(Start(maxMessages, drainRetries), acts))
    ensures var s := Exec(Start(maxMessages, drainRetries), acts);
            Lost(Exec(Start(maxMessages, drainRetries), acts + [a])) <==> StopsOwing(s, a)
  {
    ReachableNoted(maxMessages, drainRetries, acts);
    ReachableOneDrain(maxMessages, drainRetries, acts);
    ExecSnoc(Start(maxMessages, drainRetries), acts, a);
    StepLostIff(Exec(Start(maxMessages, drainRetries), acts), a);
  }

  /** A cancelled drain can lose one: asked for while it runs, the request is forgotten
      when the drain stops. */
  lemma CancelledDrainLosesARequest()
    ensures var s := Exec(Start(1, 1), [Kick(true), Kick(true), Cancel(0), DrainStep(0, Refused)]);
            !s.box.draining && s.seen < s.asked
  {
    var s0 := Start(1, 1);
    var a0, a1, a2, a3 := Kick(true), Kick(true), Cancel(0), DrainStep(0, Refused);
    hide Exec;
    ExecNone(s0);
    ExecSnoc(s0, [], a0);
    ExecSnoc(s0, [a0], a1);
    ExecSnoc(s0, [a0, a1], a2);
    ExecSnoc(s0, [a0, a1, a2], a3);
    assert [] + [a0] == [a0] && [a0] + [a1] == [a0, a1] && [a0, a1] + [a2] == [a0, a1, a2];
    assert [a0, a1, a2] + [a3] == [a0, a1, a2, a3];
    assert Exec(s0, [a0, a1, a2]).drains == [Drain(true, Top)];
  }
}

/** Emission order: the bus takes one subject's emissions in the order they were made,
    across the live path, the parked path and the drain. */
module OutboxEmission {
  import opened Common
  import opened OutboxState
  import opened OutboxMachine
  import opened OutboxOrder

  /** The bus took the emissions on `subject` in the order they were made. Ids are
      given out when an emission starts. */
  predicate EmissionOrder(log: seq<Taken>, subject: string) {
    forall i, j :: 0 <= i < j < |log| && log[i].item.subject == log[j].item.subject == subject
                   ==> log[i].item.id < log[j].item.id
  }

  /** Emissions on `subject` come one at a time. */
  predicate OneAtATime(flights: map<nat, Flight>, subject: string) {
    forall f, g :: f in flights && g in flights && flights[f].subject == flights[g].subject == subject ==> f == g
  }

  /** A drain has an emission of `subject` on its way to the bus, yet nothing of it is
      queued any more, nor about to be: a newer emission would find the subject clear. */
  predicate AtRisk(s: Sys, subject: string) {
    var way := OnItsWay(PhaseOf(s));
    && way.Some? && way.value.subject == subject && !Held(s.box.items, subject)
    && forall f :: f in s.flights && s.flights[f].subject == subject ==> !s.flights[f].stage.Parking?
  }

  predicate TakenBefore(log: seq<Taken>, subject: string, id: nat) {
    forall x :: x in log && x.item.subject == subject ==> x.item.id < id
  }

  predicate FlightInv(subject: string, items: seq<Item>, log: seq<Taken>, flights: map<nat, Flight>) {
    forall f :: f in flights && flights[f].subject == subject ==>
                  && TakenBefore(log, subject, f)
                  && (forall q :: q in items && q.subject == subject ==> q.id < f)
                  && (flights[f].stage.Checking? || !Held(items, subject))
  }

  predicate ItemsInv(subject: string, items: seq<Item>, hand: Option<Item>, log: seq<Taken>, clock: nat) {
    && EmissionOrder(log, subject)
    && TakenBefore(log, subject, clock)
    && (forall a, b :: a in items && b in items && a.subject == b.subject == subject && a.seat < b.seat ==> a.id < b.id)
    && (forall q :: q in items && q.subject == subject ==> hand == Some(q) || TakenBefore(log, subject, q.id))
  }

  /** What a drain has on its way is older than anything else on its subject that the
      bus has not taken, and newer than all it has. */
  predicate WayInv(subject: string, items: seq<Item>, way: Option<Item>, log: seq<Taken>, flights: map<nat, Flight>) {
    way.Some? && way.value.subject == subject ==>
      && TakenBefore(log, subject, way.value.id)
      && (forall q :: q in items && q.subject == subject ==> q == way.value || way.value.id < q.id)
      && (forall f :: f in flights && flights[f].subject == subject ==> way.value.id < f)
  }

  predicate SubjectInv(s: Sys, subject: string) {
    && ItemsInv(subject, s.box.items, InHand(PhaseOf(s)), s.log, s.clock)
    && FlightInv(subject, s.box.items, s.log, s.flights)
    && WayInv(subject, s.box.items, OnItsWay(PhaseOf(s)), s.log, s.flights)
  }

  lemma ParkKeepsSubject(s: Sys, id: nat, subject: string)
    requires Inv(s) && SubjectInv(s, subject) && id in s.flights && OneAtATime(s.flights, subject)
    ensures SubjectInv(ParkFlight(s, id), subject)
  {
    hide ItemsInv, FlightInv, WayInv, OrderInv, Evict, QueueInv;
    var it := SeatOf(s, id);
    var kept := if it.isEvent then s.box.items else Evict(s.box.items, s.box.max);
    EvictKeeps(s.box.items, s.box.max);
    OrderedQueue(s);
    assert PhaseOf(ParkFlight(s, id)) == PhaseOf(s);
    ParkItems(subject, s.box.items, kept, it, InHand(PhaseOf(s)), s.log, s.flights, s.clock);
    ParkWay(subject, s.box.items, kept, it, OnItsWay(PhaseOf(s)), s.log, s.flights);
  }

  lemma OrderedQueue(s: Sys)
    requires Inv(s)
    ensures QueueInv(s.box.items, s.flights.Keys, s.clock)
  {
  }

  lemma ParkWay(subject: string, items: seq<Item>, kept: seq<Item>, it: Item, way: Option<Item>, log: seq<Taken>,
                flights: map<nat, Flight>)
    requires WayInv(subject, items, way, log, flights)
    requires forall q :: q in kept ==> q in items
    requires it.id in flights && flights[it.id].subject == it.subject
    ensures WayInv(subject, kept, way, log, flights - {it.id})
    ensures WayInv(subject, kept + [it], way, log, flights - {it.id})
  {
  }

  lemma ParkItems(subject: string, items: seq<Item>, kept: seq<Item>, it: Item, hand: Option<Item>, log: seq<Taken>,
                  flights: map<nat, Flight>, clock: nat)
    requires ItemsInv(subject, items, hand, log, clock) && FlightInv(subject, items, log, flights)
    requires OneAtATime(flights, subject) && QueueInv(items, flights.Keys, clock)
    requires forall q :: q in kept ==> q in items
    requires it.id in flights && flights[it.id].subject == it.subject && it.seat == clock
    ensures ItemsInv(subject, kept, hand, log, clock + 1) && FlightInv(subject, kept, log, flights - {it.id})
    ensures ItemsInv(subject, kept + [it], hand, log, clock + 1)
    ensures FlightInv(subject, kept + [it], log, flights - {it.id})
  {
    assert FlightInv(subject, kept, log, flights - {it.id});
    var more := kept + [it];
    assert forall q :: q in more <==> q in kept || q == it;
    assert it.subject == subject ==> forall f :: f in flights - {it.id} ==> flights[f].subject != subject;
    if it.subject != subject {
      assert Held(more, subject) ==> Held(kept, subject);
    }
    assert FlightInv(subject, more, log, flights - {it.id});
  }

  /** What the bus takes on another subject does not matter. */
  lemma OtherTaken(subject: string, items: seq<Item>, hand: Option<Item>, hand': Option<Item>, log: seq<Taken>,
                   x: Taken, flights: map<nat, Flight>, clock: nat)
    requires ItemsInv(subject, items, hand, log, clock) && FlightInv(subject, items, log, flights)
    requires x.item.subject != subject && (hand.Some? ==> hand == hand')
    ensures ItemsInv(subject, items, hand', log + [x], clock) && FlightInv(subject, items, log + [x], flights)
  {
    assert forall n: nat :: TakenBefore(log, subject, n) ==> TakenBefore(log + [x], subject, n);
  }

  lemma LiveKeepsSubject(s: Sys, id: nat, verdict: Verdict, subject: string)
    requires Inv(s) && SubjectInv(s, subject) && id in s.flights && s.flights[id].stage.Publishing?
    requires OneAtATime(s.flights, subject) && !AtRisk(s, subject)
    ensures SubjectInv(StepPublishLive(s, id, verdict), subject)
  {
    assert id < s.clock;
    LiveWay(s, id, subject);
    hide OrderInv;
    var hand := InHand(PhaseOf(s));
    LiveTaken(subject, s.box.items, hand, SeatOf(s, id), s.log, s.flights, s.clock);
    assert FlightInv(subject, s.box.items, s.log, s.flights[id := s.flights[id].(stage := Parking)]);
    hide ItemsInv, FlightInv, WayInv;
  }

  /** A live publish never overtakes what the drain is sending on its subject: unless
      the subject is at risk, such a publish does not happen. */
  lemma LiveWay(s: Sys, id: nat, subject: string)
    requires SubjectInv(s, subject) && id in s.flights && s.flights[id].stage.Publishing?
    requires OneAtATime(s.flights, subject) && !AtRisk(s, subject)
    ensures var way, x := OnItsWay(PhaseOf(s)), Taken(SeatOf(s, id), false);
            && WayInv(subject, s.box.items, way, s.log, s.flights - {id})
            && WayInv(subject, s.box.items, way, s.log + [x], s.flights - {id})
            && WayInv(subject, s.box.items, way, s.log, s.flights[id := s.flights[id].(stage := Parking)])
  {
    var way := OnItsWay(PhaseOf(s));
    if way.Some? && way.value.subject == subject {
      assert s.flights[id].subject != subject;
    }
  }

  lemma LiveTaken(subject: string, items: seq<Item>, hand: Option<Item>, it: Item, log: seq<Taken>, flights: map<nat,
                  Flight>, clock: nat)
    requires ItemsInv(subject, items, hand, log, clock) && FlightInv(subject, items, log, flights)
    requires it.id in flights && flights[it.id].stage.Publishing? && flights[it.id].subject == it.subject
    requires it.id < clock
    requires OneAtATime(flights, subject)
    ensures FlightInv(subject, items, log, flights - {it.id})
    ensures ItemsInv(subject, items, hand, log + [Taken(it, false)], clock)
    ensures FlightInv(subject, items, log + [Taken(it, false)], flights - {it.id})
  {
    if it.subject == subject {
      assert TakenBefore(log, subject, it.id);
      assert forall q :: q in items ==> q.subject != subject;
      assert forall f :: f in flights - {it.id} ==> flights[f].subject != subject;
    } else {
      OtherTaken(subject, items, hand, hand, log, Taken(it, false), flights - {it.id}, clock);
    }
  }

  lemma CheckKeepsSubject(s: Sys, id: nat, subject: string)
    requires Inv(s) && SubjectInv(s, subject) && id in s.flights && s.flights[id].stage.Checking?
    requires OneAtATime(s.flights, subject)
    ensures SubjectInv(StepCheckHeld(s, id), subject)
  {
    if s.box.ordered && Held(s.box.items, s.flights[id].subject) {
      ParkKeepsSubject(s, id, subject);
    }
  }

  lemma SendKeepsSubject(s: Sys, p: Pass, attempt: nat, verdict: Verdict, subject: string)
    requires Inv(s) && SubjectInv(s, subject)
    requires |s.drains| == 1 && s.drains[0].phase == Sending(p, attempt)
    ensures SubjectInv(StepSend(s, 0, p, attempt, verdict), subject)
  {
    hide OrderInv, ItemsInv, FlightInv;
    SendRefusedKeeps(s.box.items, p, attempt, s.log, s.flights.Keys, s.clock);
    if verdict.Accepted? {
      AcceptItems(subject, s.box.items, p, attempt, s.log, s.flights, s.clock);
    }
  }

  lemma AcceptItems(subject: string, items: seq<Item>, p: Pass, attempt: nat, log: seq<Taken>, flights: map<nat,
                    Flight>, clock: nat)
    requires OrderInv(items, Sending(p, attempt), log, flights.Keys, clock)
    requires ItemsInv(subject, items, None, log, clock) && FlightInv(subject, items, log, flights)
    requires WayInv(subject, items, Some(p.items[p.at]), log, flights)
    ensures ItemsInv(subject, items, Some(p.items[p.at]), log + [Taken(p.items[p.at], true)], clock)
    ensures FlightInv(subject, items, log + [Taken(p.items[p.at], true)], flights)
  {
    var it := p.items[p.at];
    if it.subject == subject {
      assert it.id < clock;
      hide OrderInv;
      AcceptOldest(subject, items, it, log, flights, clock);
    } else {
      OtherTaken(subject, items, None, Some(it), log, Taken(it, true), flights, clock);
    }
  }

  lemma AcceptOldest(subject: string, items: seq<Item>, it: Item, log: seq<Taken>, flights: map<nat, Flight>,
                     clock: nat)
    requires ItemsInv(subject, items, None, log, clock) && FlightInv(subject, items, log, flights)
    requires it.subject == subject && it.id < clock && WayInv(subject, items, Some(it), log, flights)
    ensures ItemsInv(subject, items, Some(it), log + [Taken(it, true)], clock)
    ensures FlightInv(subject, items, log + [Taken(it, true)], flights)
  {
    var log' := log + [Taken(it, true)];
    assert TakenBefore(log, subject, it.id);
    assert EmissionOrder(log', subject);
    assert forall n: nat :: TakenBefore(log, subject, n) && it.id < n ==> TakenBefore(log', subject, n);
  }

  lemma RemoveKeepsSubject(s: Sys, p: Pass, invalid: bool, subject: string)
    requires Inv(s) && SubjectInv(s, subject)
    requires |s.drains| == 1 && s.drains[0].phase == Removing(p, invalid)
    ensures SubjectInv(StepRemove(s, 0, p, invalid), subject)
  {
    hide OrderInv;
    RemovedItems(s, p, invalid);
  }

  /** What a drain picks up is the oldest of its subject. */
  lemma PickKeepsSubject(s: Sys, p: Pass, attempt: nat, subject: string)
    requires Inv(s) && SubjectInv(s, subject)
    requires |s.drains| == 1 && s.drains[0].phase == Trying(p, attempt)
    requires Unheld(p) && Holds(s.box.items, p.items[p.at])
    ensures WayInv(subject, s.box.items, Some(p.items[p.at]), s.log, s.flights)
  {
    var it := p.items[p.at];
    CheckKeeps(s.box.items, p, attempt, s.log, s.flights.Keys, s.clock);
    forall q | q in s.box.items && q != it && q.subject == it.subject
      ensures it.seat < q.seat
    {
      SendsTheOldest(s.box.items, p, attempt, s.log, s.flights.Keys, s.clock, q);
    }
    hide OrderInv;
  }

  lemma TryKeepsSubject(s: Sys, p: Pass, attempt: nat, subject: string)
    requires Inv(s) && SubjectInv(s, subject)
    requires |s.drains| == 1 && s.drains[0].phase == Trying(p, attempt)
    ensures SubjectInv(StepTrying(s, 0, p, attempt), subject)
  {
    assert p.ordered && (attempt > 0 && p.at < |p.items| ==> Unheld(p));
    hide OrderInv, ItemsInv, FlightInv;
    if Unheld(p) && Holds(s.box.items, p.items[p.at]) {
      PickKeepsSubject(s, p, attempt, subject);
      hide WayInv;
    }
  }

  lemma StepKeepsSubject(s: Sys, a: Action, subject: string)
    requires Inv(s) && SubjectInv(s, subject) && OneAtATime(s.flights, subject) && !AtRisk(s, subject)
    ensures SubjectInv(Step(s, a), subject)
  {
    hide OrderInv, ItemsInv, FlightInv, WayInv, AtRisk;
    match a
    case Emit(emitted, _) => EmitKeepsSubject(s, a, subject);
    case CheckHeld(id) =>
      if id in s.flights && s.flights[id].stage.Checking? { CheckKeepsSubject(s, id, subject); }
    case PublishLive(id, verdict) =>
      if id in s.flights && s.flights[id].stage.Publishing? { LiveKeepsSubject(s, id, verdict, subject); }
    case ParkRefused(id) =>
      if id in s.flights { ParkKeepsSubject(s, id, subject); }
    case DrainStep(k, verdict) =>
      if k < |s.drains| {
        match s.drains[0].phase
        case Top => TopKeepsSubject(s, subject);
        case Trying(p, attempt) => TryKeepsSubject(s, p, attempt, subject);
        case Sending(p, attempt) => SendKeepsSubject(s, p, attempt, verdict, subject);
        case Removing(p, invalid) => RemoveKeepsSubject(s, p, invalid, subject);
      }
    case _ =>
  }

  lemma TopKeepsSubject(s: Sys, subject: string)
    requires SubjectInv(s, subject) && |s.drains| == 1 && s.drains[0].phase.Top?
    ensures SubjectInv(StepTop(s, 0), subject)
  {
    hide ItemsInv, FlightInv;
  }

  lemma EmitKeepsSubject(s: Sys, a: Action, subject: string)
    requires Inv(s) && SubjectInv(s, subject) && a.Emit?
    ensures SubjectInv(Step(s, a), subject)
  {
    assert QueueInv(s.box.items, s.flights.Keys, s.clock);
    assert TakenBefore(s.log, subject, s.clock);
  }

  /** Along the whole run the emissions on `subject` come one at a time. */
  predicate OneAtATimeAlong(start: Sys, acts: seq<Action>, subject: string)
    requires 0 < start.box.max
  {
    && OneAtATime(Exec(start, acts).flights, subject)
    && (acts != [] ==> OneAtATimeAlong(start, acts[..|acts| - 1], subject))
  }

  /** `subject` was never at risk on the way to the last state of the run. */
  predicate NeverAtRisk(start: Sys, acts: seq<Action>, subject: string)
    requires 0 < start.box.max
  {
    acts != [] ==>
      var before := acts[..|acts| - 1];
      !AtRisk(Exec(start, before), subject) && NeverAtRisk(start, before, subject)
  }

  lemma {:induction false} ReachableSubjectInv(maxMessages: int, drainRetries: int, acts: seq<Action>, subject: string)
    requires AlwaysOrdered(acts)
    requires OneAtATimeAlong(Start(maxMessages, drainRetries), acts, subject)
    requires NeverAtRisk(Start(maxMessages, drainRetries), acts, subject)
    ensures SubjectInv(Exec(Start(maxMessages, drainRetries), acts), subject)
  {
    if acts != [] {
      var before := acts[..|acts| - 1];
      ReachableSubjectInv(maxMessages, drainRetries, before, subject);
      ReachableInv(maxMessages, drainRetries, before);
      StepKeepsSubject(Exec(Start(maxMessages, drainRetries), before), acts[|acts| - 1], subject);
    }
  }

  /** With subject order, while the emissions on a subject come one at a time and it is
      never at risk, the bus accepts that subject's emissions in emission order,
      whatever path each one took; dropped ones are simply missing. */
  lemma BusKeepsEmissionOrder(maxMessages: int, drainRetries: int, acts: seq<Action>, subject: string)
    requires AlwaysOrdered(acts)
    requires OneAtATimeAlong(Start(maxMessages, drainRetries), acts, subject)
    requires NeverAtRisk(Start(maxMessages, drainRetries), acts, subject)
    ensures EmissionOrder(Exec(Start(maxMessages, drainRetries), acts).log, subject)
  {
    ReachableSubjectInv(maxMessages, drainRetries, acts, subject);
  }

  // ------------------------------------------------------------- with room there is no risk

  /** A message park that finds the outbox at its cap. */
  predicate ParksAtCap(s: Sys, a: Action) {
    match a
    case CheckHeld(id) =>
      && id in s.flights && s.flights[id].stage.Checking? && !s.flights[id].isEvent
      && s.box.ordered && Held(s.box.items, s.flights[id].subject) && |s.box.items| >= s.box.max
    case ParkRefused(id) =>
      id in s.flights && s.flights[id].stage.Parking? && !s.flights[id].isEvent && |s.box.items| >= s.box.max
    case _ => false
  }

  predicate NeverAtCap(start: Sys, acts: seq<Action>)
    requires 0 < start.box.max
  {
    acts != [] ==>
      var before := acts[..|acts| - 1];
      !ParksAtCap(Exec(start, before), acts[|acts| - 1]) && NeverAtCap(start, before)
  }

  /** What a drain is sending is still queued. */
  predicate WayQueued(items: seq<Item>, phase: Phase) {
    OnItsWay(phase).Some? ==> OnItsWay(phase).value in items
  }

  lemma ParkWayQueued(s: Sys, id: nat)
    requires id in s.flights && 0 < s.box.max && WayQueued(s.box.items, PhaseOf(s))
    requires !s.flights[id].isEvent ==> |s.box.items| < s.box.max
    ensures WayQueued(ParkFlight(s, id).box.items, PhaseOf(ParkFlight(s, id)))
  {
  }

  lemma TryWayQueued(s: Sys, p: Pass, attempt: nat)
    requires Inv(s) && |s.drains| == 1 && s.drains[0].phase == Trying(p, attempt)
    ensures WayQueued(StepTrying(s, 0, p, attempt).box.items, PhaseOf(StepTrying(s, 0, p, attempt)))
  {
    assert p.ordered && (attempt > 0 && p.at < |p.items| ==> Unheld(p));
    if Unheld(p) && Holds(s.box.items, p.items[p.at]) {
      CheckKeeps(s.box.items, p, attempt, s.log, s.flights.Keys, s.clock);
    }
    hide OrderInv, Holds;
  }

  lemma DrainWayQueued(s: Sys, verdict: Verdict)
    requires Inv(s) && |s.drains| == 1 && WayQueued(s.box.items, PhaseOf(s))
    ensures WayQueued(StepDrain(s, 0, verdict).box.items, PhaseOf(StepDrain(s, 0, verdict)))
  {
    match s.drains[0].phase
    case Trying(p, attempt) =>
      TryWayQueued(s, p, attempt);
      hide StepTrying, OrderInv;
    case _ => hide OrderInv;
  }

  lemma StepWayQueued(s: Sys, a: Action)
    requires Inv(s) && WayQueued(s.box.items, PhaseOf(s)) && !ParksAtCap(s, a)
    ensures WayQueued(Step(s, a).box.items, PhaseOf(Step(s, a)))
  {
    hide OrderInv, WayQueued, ParkFlight, StepDrain, Held;
    match a
    case CheckHeld(id) =>
      if id in s.flights && s.flights[id].stage.Checking? && s.box.ordered && Held(s.box.items, s.flights[id].subject) {
        ParkWayQueued(s, id);
      }
    case ParkRefused(id) => if id in s.flights && s.flights[id].stage.Parking? { ParkWayQueued(s, id); }
    case DrainStep(k, verdict) => if k < |s.drains| { DrainWayQueued(s, verdict); }
    case Kick(quiet) => KickWayQueued(s, quiet);
    case Cancel(k) => if k < |s.drains| { assert PhaseOf(Step(s, a)) == PhaseOf(s); }
    case _ =>
  }

  lemma KickWayQueued(s: Sys, quiet: bool)
    requires OneDrain(s) && WayQueued(s.box.items, PhaseOf(s))
    ensures WayQueued(StepKick(s, quiet).box.items, PhaseOf(StepKick(s, quiet)))
  {
  }

  /** A run in which no message park finds the outbox at its cap puts no subject at risk. */
  lemma {:induction false} RoomIsNeverAtRisk(maxMessages: int, drainRetries: int, acts: seq<Action>, subject: string)
    requires AlwaysOrdered(acts) && NeverAtCap(Start(maxMessages, drainRetries), acts)
    ensures var s := Exec(Start(maxMessages, drainRetries), acts);
            WayQueued(s.box.items, PhaseOf(s)) && !AtRisk(s, subject)
    ensures NeverAtRisk(Start(maxMessages, drainRetries), acts, subject)
  {
    if acts != [] {
      var before := acts[..|acts| - 1];
      RoomIsNeverAtRisk(maxMessages, drainRetries, before, subject);
      ReachableInv(maxMessages, drainRetries, before);
      StepWayQueued(Exec(Start(maxMessages, drainRetries), before), acts[|acts| - 1]);
      hide Step, ParksAtCap, OrderInv, OneDrain;
    }
  }

  /** While no message park finds the outbox at its cap, the bus accepts a subject's
      emissions in emission order. */
  lemma RoomKeepsEmissionOrder(maxMessages: int, drainRetries: int, acts: seq<Action>, subject: string)
    requires AlwaysOrdered(acts) && NeverAtCap(Start(maxMessages, drainRetries), acts)
    requires OneAtATimeAlong(Start(maxMessages, drainRetries), acts, subject)
    ensures EmissionOrder(Exec(Start(maxMessages, drainRetries), acts).log, subject)
  {
    RoomIsNeverAtRisk(maxMessages, drainRetries, acts, subject);
    BusKeepsEmissionOrder(maxMessages, drainRetries, acts, subject);
  }

  // ------------------------------------------------------------- at risk, the order can break

  lemma Extend(start: Sys, acts: seq<Action>, a: Action, subject: string)
    requires 0 < start.box.max && OneAtATimeAlong(start, acts, subject)
    requires OneAtATime(Step(Exec(start, acts), a).flights, subject)
    ensures Exec(start, acts + [a]) == Step(Exec(start, acts), a)
    ensures OneAtATimeAlong(start, acts + [a], subject)
  {
    ExecSnoc(start, acts, a);
    assert (acts + [a])[..|acts + [a]| - 1] == acts;
  }

  /** At risk, an emission of the subject can be brought to its publish. */
  lemma BringToPublish(start: Sys, acts: seq<Action>, subject: string, it: Item) returns (acts': seq<Action>, f: nat)
    requires 0 < start.box.max && OneAtATimeAlong(start, acts, subject) && AlwaysOrdered(acts)
    requires var s := Exec(start, acts);
             && AtRisk(s, subject) && OnItsWay(PhaseOf(s)) == Some(it) && it.id < s.clock
             && WayInv(subject, s.box.items, Some(it), s.log, s.flights)
    ensures acts <= acts' && OneAtATimeAlong(start, acts', subject) && AlwaysOrdered(acts')
    ensures var s, s' := Exec(start, acts), Exec(start, acts');
            && s'.drains == s.drains && s'.log == s.log && f in s'.flights
            && s'.flights[f].subject == subject && s'.flights[f].stage.Publishing? && it.id < f
  {
    OneAtATimeNow(start, acts, subject);
    hide Exec, OneAtATimeAlong;
    var s := Exec(start, acts);
    acts' := acts;
    if g :| g in s.flights && s.flights[g].subject == subject {
      f := g;
    } else {
      f := s.clock;
      Extend(start, acts, Emit(subject, false), subject);
      acts' := acts + [Emit(subject, false)];
    }
    var s1 := Exec(start, acts');
    assert f in s1.flights && s1.flights[f].subject == subject && it.id < f && s1.box == s.box;
    if s1.flights[f].stage.Checking? {
      CheckStep(s1, f, subject);
      Extend(start, acts', CheckHeld(f), subject);
      acts' := acts' + [CheckHeld(f)];
    }
  }

  lemma CheckStep(s: Sys, f: nat, subject: string)
    requires 0 < s.box.max && f in s.flights && s.flights[f].subject == subject && s.flights[f].stage.Checking?
    requires !Held(s.box.items, subject) && OneAtATime(s.flights, subject)
    ensures var s' := Step(s, CheckHeld(f));
            && s'.drains == s.drains && s'.log == s.log && f in s'.flights && OneAtATime(s'.flights, subject)
            && s'.flights[f].subject == subject && s'.flights[f].stage.Publishing?
  {
  }

  /** The bus takes the newer emission first, then the one the drain was sending. */
  lemma Overtake(s: Sys, f: nat, it: Item)
    requires 0 < s.box.max && |s.drains| == 1 && OnItsWay(s.drains[0].phase) == Some(it)
    requires f in s.flights && s.flights[f].subject == it.subject && s.flights[f].stage.Publishing? && it.id < f
    requires OneAtATime(s.flights, it.subject)
    ensures var s1 := Step(s, PublishLive(f, Accepted));
            var s2 := Step(s1, DrainStep(0, Accepted));
            && OneAtATime(s1.flights, it.subject) && OneAtATime(s2.flights, it.subject)
            && !EmissionOrder(s2.log, it.subject)
  {
    var s1 := Step(s, PublishLive(f, Accepted));
    var log := Step(s1, DrainStep(0, Accepted)).log;
    var n := |s.log|;
    assert log == s.log + [Taken(SeatOf(s, f), false)] + [Taken(it, true)];
    assert log[n].item.id == f && log[n + 1].item == it;
  }

  /** The condition is exact: as soon as a subject is at risk, a few more steps, still with
      one emission at a time, have the bus take two of its emissions in the wrong order. */
  lemma AtRiskBreaksOrder(maxMessages: int, drainRetries: int, acts: seq<Action>, subject: string)
    returns (acts': seq<Action>)
    requires AlwaysOrdered(acts)
    requires OneAtATimeAlong(Start(maxMessages, drainRetries), acts, subject)
    requires NeverAtRisk(Start(maxMessages, drainRetries), acts, subject)
    requires AtRisk(Exec(Start(maxMessages, drainRetries), acts), subject)
    ensures acts <= acts' && AlwaysOrdered(acts') && OneAtATimeAlong(Start(maxMessages, drainRetries), acts', subject)
    ensures !EmissionOrder(Exec(Start(maxMessages, drainRetries), acts').log, subject)
  {
    var start := Start(maxMessages, drainRetries);
    ReachableSubjectInv(maxMessages, drainRetries, acts, subject);
    ReachableInv(maxMessages, drainRetries, acts);
    var it := OnItsWay(PhaseOf(Exec(start, acts))).value;
    assert it.id < Exec(start, acts).clock;
    hide Exec, OneAtATimeAlong, NeverAtRisk, Step, OrderInv, ItemsInv, FlightInv, WayInv, EmissionOrder;
    var f;
    acts', f := BringToPublish(start, acts, subject, it);
    OneAtATimeNow(start, acts', subject);
    Overtake(Exec(start, acts'), f, it);
    Extend(start, acts', PublishLive(f, Accepted), subject);
    acts' := acts' + [PublishLive(f, Accepted)];
    Extend(start, acts', DrainStep(0, Accepted), subject);
    acts' := acts' + [DrainStep(0, Accepted)];
  }

  lemma OneAtATimeNow(start: Sys, acts: seq<Action>, subject: string)
    requires 0 < start.box.max && OneAtATimeAlong(start, acts, subject)
    ensures OneAtATime(Exec(start, acts).flights, subject)
  {
  }

  /** A state with no emission under way, one emission later. */
  function Under(s: Sys, on: string, stage: Stage): Sys {
    s.(flights := map[s.clock := Flight(on, false, stage)], clock := s.clock + 1)
  }

  lemma UnderSteps(s: Sys, on: string)
    requires 0 < s.box.max && s.flights == map[] && !Held(s.box.items, on)
    ensures Step(s, Emit(on, false)) == Under(s, on, Checking)
    ensures Step(Under(s, on, Checking), CheckHeld(s.clock)) == Under(s, on, Publishing)
    ensures Step(Under(s, on, Publishing), PublishLive(s.clock, Refused)) == Under(s, on, Parking)
  {
    hide Held;
  }

  lemma UnderEnds(s: Sys, on: string)
    requires 0 < s.box.max && s.flights == map[]
    ensures var it := Item(on, false, s.clock, s.clock + 1);
            && Step(Under(s, on, Publishing), PublishLive(s.clock, Accepted)) ==
               s.(log := s.log + [Taken(it, false)], clock := s.clock + 1)
            && Step(Under(s, on, Parking), ParkRefused(s.clock)) == s.(box := Park(s.box, it), clock := s.clock + 2)
  {
    hide Park;
    assert map[s.clock := Flight(on, false, Publishing)] - {s.clock} == map[];
    assert map[s.clock := Flight(on, false, Parking)] - {s.clock} == map[];
  }

  /** A refused emission made on an idle subject is parked. */
  lemma EmitRefused(start: Sys, acts: seq<Action>, on: string, subject: string) returns (acts': seq<Action>)
    requires 0 < start.box.max && OneAtATimeAlong(start, acts, subject) && AlwaysOrdered(acts)
    requires Exec(start, acts).flights == map[] && !Held(Exec(start, acts).box.items, on)
    ensures OneAtATimeAlong(start, acts', subject) && AlwaysOrdered(acts')
    ensures var s := Exec(start, acts);
            Exec(start, acts') == s.(box := Park(s.box, Item(on, false, s.clock, s.clock + 1)), clock := s.clock + 2)
  {
    hide Exec, OneAtATimeAlong, Step, Park, Held;
    var s := Exec(start, acts);
    UnderSteps(s, on);
    UnderEnds(s, on);
    Extend(start, acts, Emit(on, false), subject);
    acts' := acts + [Emit(on, false)];
    Extend(start, acts', CheckHeld(s.clock), subject);
    acts' := acts' + [CheckHeld(s.clock)];
    Extend(start, acts', PublishLive(s.clock, Refused), subject);
    acts' := acts' + [PublishLive(s.clock, Refused)];
    Extend(start, acts', ParkRefused(s.clock), subject);
    acts' := acts' + [ParkRefused(s.clock)];
  }

  /** An emission the bus takes on an idle subject goes straight into the log. */
  lemma EmitAccepted(start: Sys, acts: seq<Action>, subject: string) returns (acts': seq<Action>)
    requires 0 < start.box.max && OneAtATimeAlong(start, acts, subject) && AlwaysOrdered(acts)
    requires Exec(start, acts).flights == map[] && !Held(Exec(start, acts).box.items, subject)
    ensures OneAtATimeAlong(start, acts', subject) && AlwaysOrdered(acts')
    ensures var s := Exec(start, acts);
            Exec(start, acts') ==
            s.(log := s.log + [Taken(Item(subject, false, s.clock, s.clock + 1), false)], clock := s.clock + 1)
  {
    hide Exec, OneAtATimeAlong, Step, Park, Held;
    var s := Exec(start, acts);
    UnderSteps(s, subject);
    UnderEnds(s, subject);
    Extend(start, acts, Emit(subject, false), subject);
    acts' := acts + [Emit(subject, false)];
    Extend(start, acts', CheckHeld(s.clock), subject);
    acts' := acts' + [CheckHeld(s.clock)];
    Extend(start, acts', PublishLive(s.clock, Accepted), subject);
    acts' := acts' + [PublishLive(s.clock, Accepted)];
  }

  const OLDER := Item("s", false, 0, 1)
  const SNAPSHOT := Pass([OLDER], 0, {}, true, 0)

  /** A drain has one refused emission, the only one, on its way to the bus. */
  lemma SendOlder(start: Sys) returns (acts: seq<Action>)
    requires start == Start(1, 1)
    ensures OneAtATimeAlong(start, acts, "s") && AlwaysOrdered(acts)
    ensures var s := Exec(start, acts);
            && s.box.items == [OLDER] && s.box.max == 1 && s.box.ordered
            && s.drains == [Drain(false, Sending(SNAPSHOT, 0))] && s.flights == map[] && s.clock == 2 && s.log == []
  {
    ExecNone(start);
    assert OneAtATimeAlong(start, [], "s");
    hide Exec, OneAtATimeAlong;
    acts := EmitRefused(start, [], "s", "s");
    var s := Exec(start, acts);
    assert s.box.items == [OLDER];
    assert s == start.(box := start.box.(items := [OLDER], parked := 1), clock := 2);
    DrainOlder(s);
    hide Step;
    Extend(start, acts, Kick(true), "s");
    acts := acts + [Kick(true)];
    Extend(start, acts, DrainStep(0, Refused), "s");
    acts := acts + [DrainStep(0, Refused)];
    Extend(start, acts, DrainStep(0, Refused), "s");
    acts := acts + [DrainStep(0, Refused)];
  }

  lemma DrainOlder(s: Sys)
    requires 0 < s.box.max && s.box.items == [OLDER] && s.box.ordered && s.box.retries == 1
    requires !s.box.draining && s.drains == []
    ensures var s1 := Step(s, Kick(true));
            var s2 := Step(s1, DrainStep(0, Refused));
            && s1.flights == s2.flights == s.flights
            && Step(s2, DrainStep(0, Refused)) ==
               s1.(drains := [Drain(false, Sending(SNAPSHOT, 0))], seen := s1.asked)
            && s1.box.items == s.box.items && s1.box.max == s.box.max && s1.box.ordered
            && s1.clock == s.clock && s1.log == s.log
  {
    var s1 := Step(s, Kick(true));
    assert s1.drains == [Drain(false, Top)];
    var s2 := Step(s1, DrainStep(0, Refused));
    assert s2 == s1.(drains := [Drain(false, Trying(SNAPSHOT, 0))], seen := s1.asked);
    assert Holds([OLDER], OLDER) by { assert OLDER in [OLDER] && Same(OLDER, OLDER); }
  }

  /** A subject can come to be at risk, and the order then breaks: the cap evicts
      the older emission while the drain is sending it, so a newer one finds its subject
      clear and goes ahead of it. */
  lemma EvictionInFlightBreaksOrder() returns (acts: seq<Action>)
    ensures AlwaysOrdered(acts) && OneAtATimeAlong(Start(1, 1), acts, "s")
    ensures !EmissionOrder(Exec(Start(1, 1), acts).log, "s")
  {
    hide Exec, OneAtATimeAlong;
    var start := Start(1, 1);
    acts := SendOlder(start);
    assert "s"[0] != "t"[0];
    acts := EmitRefused(start, acts, "t", "s");
    assert Evict([OLDER], 1) == [];
    assert Exec(start, acts).box.items == [Item("t", false, 2, 3)];
    acts := EmitAccepted(start, acts, "s");
    assert Exec(start, acts).log == [Taken(Item("s", false, 4, 5), false)];
    Extend(start, acts, DrainStep(0, Accepted), "s");
    acts := acts + [DrainStep(0, Accepted)];
    var log := Exec(start, acts).log;
    assert log[0].item.id == 4 && log[1].item.id == 0 && log[0].item.subject == log[1].item.subject;
  }
}

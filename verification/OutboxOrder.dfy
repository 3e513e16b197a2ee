/** Subject order: what reaches the bus, and in which order, over every interleaving. */
module OutboxOrder {
  import opened Common
  import opened OutboxState
  import opened OutboxMachine

  // ------------------------------------------------------------- the invariant

  predicate QueueInv(items: seq<Item>, ids: set<nat>, clock: nat) {
    && SortedSeats(items)
    && (forall q :: q in items ==> q.id < clock && q.seat < clock && q.id !in ids)
    && (forall a, b :: a in items && b in items && a.id == b.id ==> a == b)
    && (forall id :: id in ids ==> id < clock)
  }

  /** What was parked since the snapshot sits behind all of it. */
  predicate SnapshotInv(items: seq<Item>, snapshot: seq<Item>, ids: set<nat>, clock: nat) {
    && SortedSeats(snapshot)
    && (forall x :: x in snapshot ==> x.id < clock && x.seat < clock && x.id !in ids)
    && (forall x, q :: x in snapshot && q in items && x.id == q.id ==> x == q)
    && (forall x, q :: x in snapshot && q in items ==> q in snapshot || x.seat < q.seat)
  }

  /** Whatever a pass has gone by and is still queued holds its subject back. */
  predicate GoneBy(items: seq<Item>, p: Pass) {
    forall i :: 0 <= i < p.at && i < |p.items| && p.items[i] in items ==> p.items[i].subject in p.held
  }

  predicate PassInv(items: seq<Item>, p: Pass, ids: set<nat>, clock: nat) {
    p.ordered && SnapshotInv(items, p.items, ids, clock) && GoneBy(items, p)
  }

  predicate Unheld(p: Pass) {
    p.at < |p.items| && p.items[p.at].subject !in p.held
  }

  predicate PhaseInv(items: seq<Item>, phase: Phase, ids: set<nat>, clock: nat) {
    match phase
    case Top => true
    case Trying(p, attempt) => PassInv(items, p, ids, clock) && (attempt > 0 && p.at < |p.items| ==> Unheld(p))
    case Sending(p, _) => PassInv(items, p, ids, clock) && Unheld(p)
    case Removing(p, _) => PassInv(items, p, ids, clock) && p.at < |p.items|
  }

  /** The item a drain has got accepted and not yet taken out of the queue. */
  function InHand(phase: Phase): Option<Item> {
    if phase.Removing? && !phase.invalid && phase.pass.at < |phase.pass.items|
    then Some(phase.pass.items[phase.pass.at]) else None
  }

  /** The item a drain has on its way to the bus. */
  function OnItsWay(phase: Phase): Option<Item> {
    if phase.Sending? && phase.pass.at < |phase.pass.items|
    then Some(phase.pass.items[phase.pass.at]) else None
  }

  /** The drain's acceptances on one subject rise in park order. */
  predicate DrainOrder(log: seq<Taken>) {
    forall i, j :: 0 <= i < j < |log| && log[i].byDrain && log[j].byDrain && log[i].item.subject == log[j].item.subject
                   ==> log[i].item.seat < log[j].item.seat
  }

  predicate DrainedBelow(log: seq<Taken>, it: Item) {
    forall x :: x in log && x.byDrain && x.item.subject == it.subject ==> x.item.seat < it.seat
  }

  /** Everything a drain got accepted sat before what is still queued on its subject. */
  predicate QueueAbove(items: seq<Item>, hand: Option<Item>, log: seq<Taken>) {
    forall q :: q in items ==> hand == Some(q) || DrainedBelow(log, q)
  }

  predicate LogInv(items: seq<Item>, phase: Phase, log: seq<Taken>, clock: nat) {
    && DrainOrder(log)
    && (forall x :: x in log && x.byDrain ==> x.item.seat < clock)
    && QueueAbove(items, InHand(phase), log)
    && (OnItsWay(phase).Some? ==> DrainedBelow(log, OnItsWay(phase).value))
  }

  predicate OrderInv(items: seq<Item>, phase: Phase, log: seq<Taken>, ids: set<nat>, clock: nat) {
    && QueueInv(items, ids, clock)
    && PhaseInv(items, phase, ids, clock)
    && LogInv(items, phase, log, clock)
  }

  function PhaseOf(s: Sys): Phase {
    if |s.drains| == 1 then s.drains[0].phase else Top
  }

  predicate Inv(s: Sys) {
    && OneDrain(s) && Conserved(s.box) && s.box.ordered
    && OrderInv(s.box.items, PhaseOf(s), s.log, s.flights.Keys, s.clock)
  }

  // ------------------------------------------------------------- how the parts change

  /** Evicting items breaks nothing. */
  lemma EvictKeepsOrder(items: seq<Item>, max: nat, phase: Phase, log: seq<Taken>, ids: set<nat>, clock: nat)
    requires 0 < max && OrderInv(items, phase, log, ids, clock)
    ensures OrderInv(Evict(items, max), phase, log, ids, clock)
  {
    EvictKeeps(items, max);
  }

  /** A new park goes to the end, with a seat above all others. */
  lemma Append(items: seq<Item>, it: Item, phase: Phase, log: seq<Taken>, ids: set<nat>, clock: nat)
    requires OrderInv(items, phase, log, ids, clock)
    requires it.id in ids && it.seat == clock
    ensures OrderInv(items + [it], phase, log, ids - {it.id}, clock + 1)
  {
    var more := items + [it];
    assert forall q :: q in more <==> q in items || q == it;
    assert QueueInv(more, ids - {it.id}, clock + 1);
    assert PhaseInv(more, phase, ids - {it.id}, clock + 1);
  }

  /** In flight ids may come and go while they stay below the clock. */
  lemma Reflight(items: seq<Item>, phase: Phase, log: seq<Taken>, ids: set<nat>, clock: nat, ids': set<nat>,
                 clock': nat)
    requires OrderInv(items, phase, log, ids, clock)
    requires clock <= clock' && forall id :: id in ids' ==> id in ids || clock <= id < clock'
    ensures OrderInv(items, phase, log, ids', clock')
  {
  }

  lemma ParkKeeps(s: Sys, id: nat)
    requires Inv(s) && id in s.flights
    ensures Inv(ParkFlight(s, id))
  {
    hide OrderInv;
    ParkOneDrain(s, id);
    var it, ids := SeatOf(s, id), s.flights.Keys;
    assert (s.flights - {id}).Keys == ids - {id};
    if it.isEvent {
      if |s.box.items| >= s.box.max {
        Reflight(s.box.items, PhaseOf(s), s.log, ids, s.clock, ids - {id}, s.clock + 1);
      } else {
        Append(s.box.items, it, PhaseOf(s), s.log, ids, s.clock);
      }
    } else {
      EvictKeepsOrder(s.box.items, s.box.max, PhaseOf(s), s.log, ids, s.clock);
      Append(Evict(s.box.items, s.box.max), it, PhaseOf(s), s.log, ids, s.clock);
    }
  }

  lemma LiveKeeps(s: Sys, id: nat)
    requires Inv(s) && id in s.flights
    ensures Inv(Land(s, id))
    ensures Inv(Land(s.(log := s.log + [Taken(SeatOf(s, id), false)]), id))
  {
    var ids := s.flights.Keys;
    assert (s.flights - {id}).Keys == ids - {id};
    Reflight(s.box.items, PhaseOf(s), s.log, ids, s.clock, ids - {id}, s.clock);
    var log := s.log + [Taken(SeatOf(s, id), false)];
    assert forall x :: x in log && x.byDrain ==> x in s.log;
    assert LogInv(s.box.items, PhaseOf(s), log, s.clock);
  }

  lemma TopKeeps(items: seq<Item>, log: seq<Taken>, ids: set<nat>, clock: nat)
    requires OrderInv(items, Top, log, ids, clock)
    ensures OrderInv(items, Trying(Pass(items, 0, {}, true, 0), 0), log, ids, clock)
  {
  }

  lemma HoldBackKeeps(items: seq<Item>, p: Pass, attempt: nat, log: seq<Taken>, ids: set<nat>, clock: nat)
    requires OrderInv(items, Trying(p, attempt), log, ids, clock) && p.at < |p.items|
    ensures OrderInv(items, Trying(HoldBack(p), 0), log, ids, clock)
  {
  }

  lemma AdvanceKeeps(items: seq<Item>, p: Pass, attempt: nat, log: seq<Taken>, ids: set<nat>, clock: nat)
    requires OrderInv(items, Trying(p, attempt), log, ids, clock) && p.at < |p.items|
    requires p.items[p.at].subject in p.held || !Holds(items, p.items[p.at])
    ensures OrderInv(items, Trying(Advance(p), 0), log, ids, clock)
  {
    assert !Holds(items, p.items[p.at]) ==> p.items[p.at] !in items by {
      assert Same(p.items[p.at], p.items[p.at]);
    }
  }

  lemma CheckKeeps(items: seq<Item>, p: Pass, attempt: nat, log: seq<Taken>, ids: set<nat>, clock: nat)
    requires OrderInv(items, Trying(p, attempt), log, ids, clock)
    requires Unheld(p) && Holds(items, p.items[p.at])
    ensures OrderInv(items, Sending(p, attempt), log, ids, clock)
    ensures p.items[p.at] in items
  {
    var q :| q in items && Same(q, p.items[p.at]);
    assert q == p.items[p.at];
  }

  /** The heart of the matter: the item a drain sends is older than everything else
      queued on its subject. */
  lemma SendsTheOldest(items: seq<Item>, p: Pass, attempt: nat, log: seq<Taken>, ids: set<nat>, clock: nat, q: Item)
    requires OrderInv(items, Sending(p, attempt), log, ids, clock)
    requires q in items && q != p.items[p.at] && q.subject == p.items[p.at].subject
    ensures p.items[p.at].seat < q.seat
  {
    if q in p.items {
      var i :| 0 <= i < |p.items| && p.items[i] == q;
    }
  }

  lemma SendRefusedKeeps(items: seq<Item>, p: Pass, attempt: nat, log: seq<Taken>, ids: set<nat>, clock: nat)
    requires OrderInv(items, Sending(p, attempt), log, ids, clock)
    ensures p.at < |p.items|
    ensures OrderInv(items, Trying(p, attempt + 1), log, ids, clock)
    ensures OrderInv(items, Removing(p, true), log, ids, clock)
  {
  }

  lemma SendAcceptedKeeps(items: seq<Item>, p: Pass, attempt: nat, log: seq<Taken>, ids: set<nat>, clock: nat)
    requires OrderInv(items, Sending(p, attempt), log, ids, clock)
    ensures OrderInv(items, Removing(p, false), log + [Taken(p.items[p.at], true)], ids, clock)
  {
    var it := p.items[p.at];
    forall q | q in items && q != it && q.subject == it.subject
      ensures it.seat < q.seat
    {
      SendsTheOldest(items, p, attempt, log, ids, clock, q);
    }
    assert it.seat < clock;
    hide QueueInv, PassInv;
    LogAccepted(items, it, log, clock);
  }

  lemma LogAccepted(items: seq<Item>, it: Item, log: seq<Taken>, clock: nat)
    requires DrainOrder(log) && DrainedBelow(log, it) && QueueAbove(items, None, log)
    requires it.seat < clock && forall x :: x in log && x.byDrain ==> x.item.seat < clock
    requires forall q :: q in items && q != it && q.subject == it.subject ==> it.seat < q.seat
    ensures DrainOrder(log + [Taken(it, true)]) && QueueAbove(items, Some(it), log + [Taken(it, true)])
    ensures forall x :: x in log + [Taken(it, true)] && x.byDrain ==> x.item.seat < clock
  {
    forall q | q in items && q != it
      ensures DrainedBelow(log + [Taken(it, true)], q)
    {
      assert DrainedBelow(log, q);
    }
  }

  lemma RemoveKeeps(items: seq<Item>, p: Pass, invalid: bool, log: seq<Taken>, ids: set<nat>, clock: nat,
                    fewer: seq<Item>)
    requires OrderInv(items, Removing(p, invalid), log, ids, clock)
    requires SortedSeats(fewer) && forall q :: q in fewer ==> q in items && q != p.items[p.at]
    ensures OrderInv(fewer, Trying(Advance(p).(forwarded := p.forwarded + 1), 0), log, ids, clock)
  {
  }

  lemma TryingKeeps(s: Sys, p: Pass, attempt: nat)
    requires Inv(s) && |s.drains| == 1 && s.drains[0].phase == Trying(p, attempt)
    ensures Inv(StepTrying(s, 0, p, attempt))
  {
    assert p.ordered && (attempt > 0 && p.at < |p.items| ==> Unheld(p));
    assert OrderInv(s.box.items, Top, s.log, s.flights.Keys, s.clock);
    hide OrderInv;
    TryingOneDrain(s, p, attempt);
    if p.at < |p.items| {
      HoldBackKeeps(s.box.items, p, attempt, s.log, s.flights.Keys, s.clock);
      if p.items[p.at].subject in p.held || !Holds(s.box.items, p.items[p.at]) {
        AdvanceKeeps(s.box.items, p, attempt, s.log, s.flights.Keys, s.clock);
      }
      if Unheld(p) && Holds(s.box.items, p.items[p.at]) {
        CheckKeeps(s.box.items, p, attempt, s.log, s.flights.Keys, s.clock);
      }
    }
  }

  lemma RemovedItems(s: Sys, p: Pass, invalid: bool)
    requires Inv(s) && |s.drains| == 1 && s.drains[0].phase == Removing(p, invalid)
    ensures p.at < |p.items|
    ensures var fewer := Remove(s.box, p.items[p.at], invalid).items;
            SortedSeats(fewer) && forall q :: q in fewer ==> q in s.box.items && q != p.items[p.at]
  {
    var it := p.items[p.at];
    var i := Find(s.box.items, it);
    if i < |s.box.items| {
      WithoutKeeps(s.box.items, i);
      assert s.box.items[i] == it;
    }
  }

  lemma DrainStepKeeps(s: Sys, verdict: Verdict)
    requires Inv(s) && |s.drains| == 1
    ensures Inv(StepDrain(s, 0, verdict))
  {
    hide OrderInv;
    StepOneDrain(s, DrainStep(0, verdict));
    match s.drains[0].phase
    case Top => TopKeeps(s.box.items, s.log, s.flights.Keys, s.clock);
    case Trying(p, attempt) => TryingKeeps(s, p, attempt);
    case Sending(p, attempt) => 
      SendRefusedKeeps(s.box.items, p, attempt, s.log, s.flights.Keys, s.clock);
      SendAcceptedKeeps(s.box.items, p, attempt, s.log, s.flights.Keys, s.clock);
    case Removing(p, invalid) =>
      RemovedItems(s, p, invalid);
      RemoveKeeps(s.box.items, p, invalid, s.log, s.flights.Keys, s.clock, Remove(s.box, p.items[p.at], invalid).items);
  }

  lemma StepKeeps(s: Sys, a: Action)
    requires Inv(s) && (a.Configure? ==> a.order)
    ensures Inv(Step(s, a))
  {
    hide OrderInv;
    StepOneDrain(s, a);
    match a
    case Emit(_, _) =>
      Reflight(s.box.items, PhaseOf(s), s.log, s.flights.Keys, s.clock, s.flights.Keys + {s.clock}, s.clock + 1);
      assert Step(s, a).flights.Keys == s.flights.Keys + {s.clock};
    case CheckHeld(id) =>
      if id in s.flights {
        ParkKeeps(s, id);
        assert s.flights[id := s.flights[id].(stage := Publishing)].Keys == s.flights.Keys;
      }
    case PublishLive(id, verdict) =>
      if id in s.flights {
        LiveKeeps(s, id);
        assert s.flights[id := s.flights[id].(stage := Parking)].Keys == s.flights.Keys;
      }
    case ParkRefused(id) => if id in s.flights { ParkKeeps(s, id); }
    case DrainStep(k, verdict) => if k < |s.drains| { DrainStepKeeps(s, verdict); }
    case _ =>
  }

  predicate AlwaysOrdered(acts: seq<Action>) {
    forall a :: a in acts && a.Configure? ==> a.order
  }

  lemma {:induction false} ReachableInv(maxMessages: int, drainRetries: int, acts: seq<Action>)
    requires AlwaysOrdered(acts)
    ensures Inv(Exec(Start(maxMessages, drainRetries), acts))
  {
    if acts != [] {
      var before := acts[..|acts| - 1];
      ReachableInv(maxMessages, drainRetries, before);
      StepKeeps(Exec(Start(maxMessages, drainRetries), before), acts[|acts| - 1]);
    }
  }

  /** With subject order, over any interleaving of emissions, parks, evictions, passes
      and successive drains, the items the drain gets accepted on one subject are
      accepted in strictly increasing park order. */
  lemma DrainKeepsParkOrder(maxMessages: int, drainRetries: int, acts: seq<Action>)
    requires AlwaysOrdered(acts)
    ensures DrainOrder(Exec(Start(maxMessages, drainRetries), acts).log)
  {
    ReachableInv(maxMessages, drainRetries, acts);
  }
}

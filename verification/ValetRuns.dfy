/** What the valet engine promises over whole runs, stale timers included. */
module ValetRuns {
  import opened Common
  import opened ValetMachine

  /** The engine after any sequence of operations and timer firings. */
  ghost function Exec(e: Engine, acts: seq<Action>): (r: Engine)
    requires Inv(e)
    ensures Inv(r)
  {
    if acts == [] then e
    else
      var before := Exec(e, acts[..|acts| - 1]);
      StepKeeps(before, acts[|acts| - 1]);
      Step(before, acts[|acts| - 1])
  }

  // ------------------------------------------------------------- tickets end once

  /** Tickets are never forgotten, keep their key and label, and leave a final state never. */
  predicate TicketsKept(before: seq<Ticket>, after: seq<Ticket>) {
    && |before| <= |after|
    && (forall i :: 0 <= i < |before| ==> after[i].key == before[i].key && after[i].dest == before[i].dest)
    && (forall i :: 0 <= i < |before| && !before[i].state.TicketOpen? ==> after[i] == before[i])
  }

  lemma StepKeepsTickets(e: Engine, a: Action)
    requires Inv(e)
    ensures TicketsKept(e.tickets, Step(e, a).tickets)
  {
    hide Counted, CountDown, Bounded, ExpiredOnce, Tidy;
  }

  /** Over any run a ticket makes at most one terminal transition: once closed, expired or
      released it never changes again, its outcome included. */
  lemma {:induction false} TerminalIsFinal(e: Engine, acts: seq<Action>)
    requires Inv(e)
    ensures TicketsKept(e.tickets, Exec(e, acts).tickets)
  {
    hide Inv;
    if acts != [] {
      TerminalIsFinal(e, acts[..|acts| - 1]);
      StepKeepsTickets(Exec(e, acts[..|acts| - 1]), acts[|acts| - 1]);
    }
  }

  /** In every reachable state OnExpire has run at most once for each ticket, and never
      for one that was redeemed or released. */
  lemma ExpiryCallbackRunsOnce(maxInFlight: nat, retains: bool, acts: seq<Action>)
    ensures var e := Exec(New(maxInFlight, retains), acts);
            && (forall i, j :: 0 <= i < j < |e.expired| ==> e.expired[i] != e.expired[j])
            && forall i :: 0 <= i < |e.expired| ==>
                             e.expired[i] < |e.tickets| && e.tickets[e.expired[i]].state.TicketExpired?
  {
    hide Exec, Linked, Tidy, Counted, Bounded;
  }

  /** A timer of a ticket that is no longer the one under its key does nothing, so it
      never touches a newer ticket parked under that key. */
  lemma StaleTimerIsHarmless(e: Engine, id: nat)
    requires Inv(e) && id < |e.tickets|
    ensures !e.tickets[id].state.TicketOpen? ==> Step(e, ExpiryFires(id)) == e
    ensures var key := e.tickets[id].key;
            && (key in e.retained && e.retained[key] != id ==> Step(e, RetentionFires(id)) == e)
            && (key in e.store ==> Step(e, RetentionFires(id)) == e)
            && (key in e.store && e.store[key] != id ==> Step(e, ExpiryFires(id)) == e)
  {
    hide Counted, CountDown, Bounded, ExpiredOnce;
  }

  /** How a ticket ends: by the reply to its key, with the outcome of that reply; by the
      release of its key; or by its own timer. Nothing else ends it, and no other ticket
      changes. */
  lemma HowATicketEnds(e: Engine, a: Action, i: nat)
    requires Inv(e) && i < |e.tickets| && e.tickets[i].state.TicketOpen? && !e.mode.Closed?
    ensures i < |Step(e, a).tickets|
    ensures var t, r := e.tickets[i], Step(e, a).tickets[i];
            && (r.state.TicketClosed? <==> a.DoRedeem? && a.key == t.key)
            && (r.state.TicketClosed? ==> r.outcome == a.outcome)
            && (r.state.TicketReleased? <==> a == DoRelease(t.key))
            && (r.state.TicketExpired? <==> a == ExpiryFires(i))
            && (!r.state.TicketClosed? ==> r.outcome == t.outcome)
            && r.key == t.key && r.dest == t.dest
  {
    hide Counted, CountDown, Bounded, ExpiredOnce;
  }

  /** A new ticket carries the key and the label it was parked with; the open tickets with
      that label gain exactly this key, and those with any other label stay as they were. */
  lemma ParkCountsItsLabel(e: Engine, key: string, dest: string, d: string)
    requires Inv(e) && ParkAnswerOf(e, key).Parked?
    ensures var r := Park(e, key, dest);
            && r.tickets == e.tickets + [Ticket(key, dest, TicketOpen, None)] && key in r.store
            && r.store[key] == |e.tickets| && key !in OpenTo(e.tickets, e.store, d)
            && OpenTo(r.tickets, r.store, d) ==
               OpenTo(e.tickets, e.store, d) + (if d == dest then {key} else {})
            && Get(r.destCounts, d) == Get(e.destCounts, d) + (if d == dest then 1 else 0)
  {
    ParkOpenTo(e.tickets, e.store, Ticket(key, dest, TicketOpen, None), d) by { StoredAreTickets(e); }
    assert key !in OpenTo(e.tickets, e.store, d);
    hide Inv, OpenTo;
  }

  // ------------------------------------------------------------- the simple form it refines

  datatype Slot = Open(id: nat) | Kept(id: nat, outcome: Option<string>)

  /** An engine as its callers see it: each key absent, open or kept for replay. */
  datatype Book = Book(mode: Mode, slots: map<string, Slot>, next: nat)

  function Outcome(tickets: seq<Ticket>, id: nat): Option<string> {
    if id < |tickets| then tickets[id].outcome else None
  }

  function Slots(tickets: seq<Ticket>, store: map<string, nat>, retained: map<string, nat>): map<string, Slot> {
    map k | k in store.Keys + retained.Keys ::
      if k in store then Open(store[k]) else Kept(retained[k], Outcome(tickets, retained[k]))
  }

  function BookOf(e: Engine): Book {
    Book(e.mode, Slots(e.tickets, e.store, e.retained), |e.tickets|)
  }

  function OpenKeys(slots: map<string, Slot>): set<string> {
    set k | k in slots && slots[k].Open?
  }

  /** Without the open slot of a ticket. */
  function DropOpen(slots: map<string, Slot>, id: nat): map<string, Slot> {
    map k | k in slots && slots[k] != Open(id) :: slots[k]
  }

  /** Without the kept slot of a ticket. */
  function DropKept(slots: map<string, Slot>, id: nat): map<string, Slot> {
    map k | k in slots && !(slots[k].Kept? && slots[k].id == id) :: slots[k]
  }

  /** The whole engine in seven lines. */
  function BookStep(b: Book, maxInFlight: nat, retains: bool, a: Action): Book {
    if b.mode.Closed? then b
    else match a
      case DoPark(key, _) =>
        if key != "" && key !in b.slots && b.mode.Running? && !(0 < maxInFlight <= |OpenKeys(b.slots)|)
        then b.(slots := b.slots[key := Open(b.next)], next := b.next + 1) else b
      case DoRedeem(key, outcome) =>
        if key == "" || key !in b.slots || !b.slots[key].Open? then b
        else if retains then b.(slots := b.slots[key := Kept(b.slots[key].id, outcome)])
        else b.(slots := b.slots - {key})
      case DoRelease(key) =>
        if key != "" && key in b.slots && b.slots[key].Open? then b.(slots := b.slots - {key}) else b
      case ExpiryFires(id) => b.(slots := DropOpen(b.slots, id))
      case RetentionFires(id) => b.(slots := DropKept(b.slots, id))
      case DoDrain => b.(mode := Draining)
      case DoClose => Book(Closed, map[], b.next)
  }

  lemma OpenKeysAreStored(tickets: seq<Ticket>, store: map<string, nat>, retained: map<string, nat>)
    ensures OpenKeys(Slots(tickets, store, retained)) == store.Keys
  {
  }

  lemma SlotsPark(tickets: seq<Ticket>, store: map<string, nat>, retained: map<string, nat>, t: Ticket)
    requires forall k :: k in retained ==> retained[k] < |tickets|
    ensures Slots(tickets + [t], store[t.key := |tickets|], retained) ==
            Slots(tickets, store, retained)[t.key := Open(|tickets|)]
  {
  }

  lemma SlotsSettle(tickets: seq<Ticket>, store: map<string, nat>, retained: map<string, nat>, key: string, t: Ticket)
    requires key in store && store[key] < |tickets| && key !in retained
    requires forall k :: k in retained ==> retained[k] != store[key]
    ensures Slots(tickets[store[key] := t], store - {key}, retained) == Slots(tickets, store, retained) - {key}
    ensures Slots(tickets[store[key] := t], store - {key}, retained[key := store[key]]) ==
            Slots(tickets, store, retained)[key := Kept(store[key], t.outcome)]
  {
  }

  lemma SlotsPurge(tickets: seq<Ticket>, store: map<string, nat>, retained: map<string, nat>, key: string)
    requires key !in store
    ensures Slots(tickets, store, retained - {key}) == Slots(tickets, store, retained) - {key}
  {
  }

  lemma SlotsAt(tickets: seq<Ticket>, store: map<string, nat>, retained: map<string, nat>, key: string)
    ensures var slots := Slots(tickets, store, retained);
            && (key in slots <==> key in store || key in retained)
            && (key in store ==> slots[key] == Open(store[key]))
            && (key in retained && key !in store ==> slots[key] == Kept(retained[key], Outcome(tickets, retained[key])))
            && (key in slots && slots[key].Open? ==> key in store)
  {
  }

  /** Dropping the slot of a ticket takes out the one key it has. */
  lemma SlotsDrop(tickets: seq<Ticket>, store: map<string, nat>, retained: map<string, nat>, id: nat, key: string)
    requires store.Keys !! retained.Keys
    requires forall k :: k in store && store[k] == id ==> k == key
    requires forall k :: k in retained && retained[k] == id ==> k == key
    ensures var slots := Slots(tickets, store, retained);
            && DropOpen(slots, id) == (if key in store && store[key] == id then slots - {key} else slots)
            && DropKept(slots, id) ==
               (if key in retained && retained[key] == id then slots - {key} else slots)
  {
  }

  /** What the invariant says of an open ticket. */
  lemma OpenFacts(e: Engine, key: string)
    requires Inv(e) && key in e.store
    ensures e.store[key] < |e.tickets| && e.tickets[e.store[key]].key == key
    ensures key !in e.retained && !e.mode.Closed?
    ensures forall k :: k in e.retained ==> e.retained[k] != e.store[key]
  {
    hide Counted, ExpiredOnce, Bounded;
  }

  /** What the invariant says of the maps: a ticket sits under its own key alone. */
  lemma MapFacts(e: Engine, id: nat)
    requires Inv(e)
    ensures Linked(e) && e.openCount == |e.store.Keys| && e.store.Keys !! e.retained.Keys
    ensures e.mode.Closed? ==> e.store == map[] && e.retained == map[]
    ensures forall k :: k in e.store && e.store[k] == id ==> id < |e.tickets| && k == e.tickets[id].key
    ensures forall k :: k in e.retained && e.retained[k] == id ==> id < |e.tickets| && k == e.tickets[id].key
    ensures forall k :: k in e.retained ==> e.retained[k] < |e.tickets|
  {
    hide Counted, ExpiredOnce;
  }

  lemma RefinesPark(e: Engine, key: string, dest: string)
    requires Inv(e)
    ensures BookOf(Park(e, key, dest)) == BookStep(BookOf(e), e.maxInFlight, e.retains, DoPark(key, dest))
  {
    hide Inv, Linked, Slots, OpenKeys;
    MapFacts(e, 0);
    OpenKeysAreStored(e.tickets, e.store, e.retained);
    SlotsAt(e.tickets, e.store, e.retained, key);
    SlotsPark(e.tickets, e.store, e.retained, Ticket(key, dest, TicketOpen, None));
  }

  lemma RefinesRedeem(e: Engine, key: string, outcome: Option<string>)
    requires Inv(e)
    ensures BookOf(Redeem(e, key, outcome)) == BookStep(BookOf(e), e.maxInFlight, e.retains, DoRedeem(key, outcome))
  {
    hide Inv, Linked, Slots, CountDown;
    MapFacts(e, 0);
    SlotsAt(e.tickets, e.store, e.retained, key);
    if key in e.store {
      OpenFacts(e, key);
      var t := e.tickets[e.store[key]].(state := TicketClosed, outcome := outcome);
      SlotsSettle(e.tickets, e.store, e.retained, key, t);
    }
  }

  lemma RefinesRelease(e: Engine, key: string)
    requires Inv(e)
    ensures BookOf(Release(e, key)) == BookStep(BookOf(e), e.maxInFlight, e.retains, DoRelease(key))
  {
    hide Inv, Linked, Slots, CountDown;
    MapFacts(e, 0);
    SlotsAt(e.tickets, e.store, e.retained, key);
    if key in e.store {
      OpenFacts(e, key);
      SlotsSettle(e.tickets, e.store, e.retained, key, e.tickets[e.store[key]].(state := TicketReleased));
    }
  }

  function KeyOf(e: Engine, id: nat): string {
    if id < |e.tickets| then e.tickets[id].key else ""
  }

  lemma RefinesExpire(e: Engine, id: nat)
    requires Inv(e)
    ensures BookOf(Expire(e, id)) == BookStep(BookOf(e), e.maxInFlight, e.retains, ExpiryFires(id))
  {
    hide Inv, Linked, Slots, CountDown, DropOpen, DropKept;
    MapFacts(e, id);
    var key := KeyOf(e, id);
    SlotsDrop(e.tickets, e.store, e.retained, id, key);
    if key in e.store && e.store[key] == id {
      OpenFacts(e, key);
      SlotsSettle(e.tickets, e.store, e.retained, key, e.tickets[id].(state := TicketExpired));
    }
  }

  /** A kept slot goes with its ticket's retention. */
  lemma SlotsForget(tickets: seq<Ticket>, store: map<string, nat>, retained: map<string, nat>, id: nat, key: string)
    requires store.Keys !! retained.Keys
    requires forall k :: k in store && store[k] == id ==> k == key
    requires forall k :: k in retained && retained[k] == id ==> k == key
    ensures DropKept(Slots(tickets, store, retained), id) ==
            Slots(tickets, store, if key in retained && retained[key] == id then retained - {key} else retained)
  {
    hide Slots, DropOpen, DropKept;
    SlotsDrop(tickets, store, retained, id, key);
    if key in retained {
      SlotsPurge(tickets, store, retained, key);
    }
  }

  lemma RefinesPurge(e: Engine, id: nat)
    requires Inv(e)
    ensures BookOf(Purge(e, id)) == BookStep(BookOf(e), e.maxInFlight, e.retains, RetentionFires(id))
  {
    hide Inv, Linked, Slots, DropOpen, DropKept;
    MapFacts(e, id);
    SlotsForget(e.tickets, e.store, e.retained, id, KeyOf(e, id));
  }

  /** The engine refines the book of slots: every operation and every timer firing, stale
      or not, does to the keys exactly what the simple form says. */
  lemma EngineRefinesBook(e: Engine, a: Action)
    requires Inv(e)
    ensures BookOf(Step(e, a)) == BookStep(BookOf(e), e.maxInFlight, e.retains, a)
  {
    hide Inv, Linked, BookOf, BookStep, Park, Redeem, Release, Expire, Purge, BeginDrain, Close;
    MapFacts(e, 0);
    match a
    case DoPark(key, dest) => RefinesPark(e, key, dest);
    case DoRedeem(key, outcome) => RefinesRedeem(e, key, outcome);
    case DoRelease(key) => RefinesRelease(e, key);
    case ExpiryFires(id) => RefinesExpire(e, id);
    case RetentionFires(id) => RefinesPurge(e, id);
    case DoDrain => RefinesDrain(e);
    case DoClose => RefinesClose(e);
  }

  lemma RefinesDrain(e: Engine)
    ensures BookOf(BeginDrain(e)) == BookStep(BookOf(e), e.maxInFlight, e.retains, DoDrain)
  {
    hide Slots;
  }

  lemma RefinesClose(e: Engine)
    requires Inv(e)
    ensures BookOf(Close(e)) == BookStep(BookOf(e), e.maxInFlight, e.retains, DoClose)
  {
    hide Inv, Linked, Slots;
    NoSlots(e.tickets);
  }

  lemma NoSlots(tickets: seq<Ticket>)
    ensures Slots(tickets, map[], map[]) == map[]
  {
  }

  /** The book over a run. */
  function BookExec(b: Book, maxInFlight: nat, retains: bool, acts: seq<Action>): Book {
    if acts == [] then b
    else BookStep(BookExec(b, maxInFlight, retains, acts[..|acts| - 1]), maxInFlight, retains, acts[|acts| - 1])
  }

  lemma StepConfig(e: Engine, a: Action)
    requires Linked(e)
    ensures Step(e, a).maxInFlight == e.maxInFlight && Step(e, a).retains == e.retains
  {
    hide CountDown;
  }

  /** So over any run the engine is the book. */
  lemma {:induction false} RunsRefineBook(e: Engine, acts: seq<Action>)
    requires Inv(e)
    ensures BookOf(Exec(e, acts)) == BookExec(BookOf(e), e.maxInFlight, e.retains, acts)
    ensures Exec(e, acts).maxInFlight == e.maxInFlight && Exec(e, acts).retains == e.retains
  {
    hide BookOf, BookStep, Step;
    if acts != [] {
      var before := Exec(e, acts[..|acts| - 1]);
      RunsRefineBook(e, acts[..|acts| - 1]);
      EngineRefinesBook(before, acts[|acts| - 1]);
      StepConfig(before, acts[|acts| - 1]);
    }
  }

  /** What the book answers to a park: an open slot attaches, a kept one replays, and only
      an absent key makes a ticket. */
  function BookPark(b: Book, maxInFlight: nat, key: string): ParkAnswer {
    if key == "" then ParkEmptyKey
    else if b.mode.Closed? then ParkClosed
    else if key in b.slots then
      match b.slots[key]
      case Open(id) => AttachedOpen(id)
      case Kept(id, _) => ReplayedClosed(id)
    else if b.mode.Draining? then ParkDraining
    else if 0 < maxInFlight <= |OpenKeys(b.slots)| then ParkOverloaded
    else Parked(b.next)
  }

  /** To a reply: only an open slot matches, and only a kept one is redeemed already. */
  function BookRedeem(b: Book, key: string): Answer {
    if key == "" then EmptyKey
    else if b.mode.Closed? then EngineClosed
    else if key !in b.slots then Unmatched
    else match b.slots[key]
      case Open(id) => Matched(id)
      case Kept(_, _) => AlreadyRedeemed
  }

  function BookRelease(b: Book, key: string): Answer {
    var answer := BookRedeem(b, key);
    if answer.AlreadyRedeemed? then Unmatched else answer
  }

  /** The engine answers what the book answers, and what a replayed ticket carries is the
      outcome the book keeps. */
  lemma AnswersFromBook(e: Engine, key: string)
    requires Inv(e)
    ensures ParkAnswerOf(e, key) == BookPark(BookOf(e), e.maxInFlight, key)
    ensures RedeemAnswerOf(e, key) == BookRedeem(BookOf(e), key)
    ensures ReleaseAnswerOf(e, key) == BookRelease(BookOf(e), key)
    ensures ParkAnswerOf(e, key).ReplayedClosed? ==>
              var id := ParkAnswerOf(e, key).id;
              && id < |e.tickets| && key in BookOf(e).slots
              && BookOf(e).slots[key] == Kept(id, e.tickets[id].outcome)
  {
    hide Inv, Linked, Slots, OpenKeys;
    MapFacts(e, 0);
    OpenKeysAreStored(e.tickets, e.store, e.retained);
    SlotsAt(e.tickets, e.store, e.retained, key);
  }

  // ------------------------------------------------------------- replies and replays

  /** A key that is absent stays absent until it is parked again, so a reply that comes
      after expiry (or release, or purge) is unmatched. */
  lemma {:induction false} LateReplyIsUnmatched(e: Engine, acts: seq<Action>, key: string)
    requires Inv(e) && key != "" && key !in e.store && key !in e.retained
    requires forall a :: a in acts && a.DoPark? ==> a.key != key
    ensures var r := Exec(e, acts);
            && key !in r.store && key !in r.retained
            && RedeemAnswerOf(r, key) == (if r.mode.Closed? then EngineClosed else Unmatched)
  {
    hide Inv, Step;
    if acts != [] {
      var before := acts[..|acts| - 1];
      LateReplyIsUnmatched(e, before, key);
      assert acts[|acts| - 1] in acts;
      AbsentStays(Exec(e, before), acts[|acts| - 1], key);
    }
  }

  lemma AbsentStays(e: Engine, a: Action, key: string)
    requires Inv(e) && key !in e.store && key !in e.retained && (a.DoPark? ==> a.key != key)
    ensures key !in Step(e, a).store && key !in Step(e, a).retained
  {
    hide Tidy, Counted, Bounded, ExpiredOnce, CountDown;
  }

  /** Until its retention ends, a redeemed key replays the same outcome to every park,
      whatever else happens, and never makes a second ticket. */
  lemma {:induction false} ReplayIsStable(e: Engine, acts: seq<Action>, key: string)
    requires Inv(e) && key != "" && key in e.retained
    requires forall a :: a in acts ==> a != RetentionFires(e.retained[key]) && !a.DoClose?
    ensures var r := Exec(e, acts); var id := e.retained[key];
            && key in r.retained && r.retained[key] == id
            && ParkAnswerOf(r, key) == ReplayedClosed(id)
            && RedeemAnswerOf(r, key) == AlreadyRedeemed && ReleaseAnswerOf(r, key) == Unmatched
            && id < |e.tickets| && id < |r.tickets| && r.tickets[id] == e.tickets[id]
  {
    hide Inv, Step;
    TerminalIsFinal(e, acts);
    RetainedFacts(e, key);
    if acts != [] {
      var before := acts[..|acts| - 1];
      assert (forall a :: a in before ==> a in acts) && acts[|acts| - 1] in acts;
      ReplayIsStable(e, before, key);
      ReplayStep(Exec(e, before), acts[|acts| - 1], key);
    }
  }

  lemma RetainedFacts(e: Engine, key: string)
    requires Inv(e) && key in e.retained
    ensures e.retained[key] < |e.tickets| && !e.tickets[e.retained[key]].state.TicketOpen?
    ensures key !in e.store && !e.mode.Closed?
  {
    hide Counted, CountDown, Bounded, ExpiredOnce;
  }

  lemma ReplayStep(e: Engine, a: Action, key: string)
    requires Inv(e) && key in e.retained && a != RetentionFires(e.retained[key]) && !a.DoClose?
    ensures var r := Step(e, a);
            key in r.retained && r.retained[key] == e.retained[key] && key !in r.store && !r.mode.Closed?
  {
    hide Counted, CountDown, Bounded, ExpiredOnce;
  }

  /** Until it ends, a ticket takes every further park of its key, draining and a full engine
      included, and never makes a second one. */
  lemma {:induction false} AttachIsStable(e: Engine, acts: seq<Action>, key: string)
    requires Inv(e) && key != "" && key in e.store
    requires forall a :: a in acts ==>
                           !a.DoClose? && a != ExpiryFires(e.store[key]) &&
                           !((a.DoRedeem? || a.DoRelease?) && a.key == key)
    ensures var r := Exec(e, acts);
            key in r.store && r.store[key] == e.store[key] && ParkAnswerOf(r, key) == AttachedOpen(e.store[key])
  {
    hide Inv, Step;
    OpenFacts(e, key);
    if acts != [] {
      var before := acts[..|acts| - 1];
      assert (forall a :: a in before ==> a in acts) && acts[|acts| - 1] in acts;
      AttachIsStable(e, before, key);
      AttachStep(Exec(e, before), acts[|acts| - 1], key);
    }
  }

  lemma AttachStep(e: Engine, a: Action, key: string)
    requires Inv(e) && key in e.store && !a.DoClose? && a != ExpiryFires(e.store[key])
    requires !((a.DoRedeem? || a.DoRelease?) && a.key == key)
    ensures var r := Step(e, a); key in r.store && r.store[key] == e.store[key] && !r.mode.Closed?
  {
    hide Counted, CountDown, Bounded, ExpiredOnce;
  }

  /** A park makes a ticket exactly for a key that is not empty, open or kept, on an engine
      that is running and below its bound; at the bound such a key is shed. */
  lemma NewTicketIff(e: Engine, key: string)
    requires Inv(e)
    ensures var absent := key != "" && key !in e.store && key !in e.retained;
            var full := e.maxInFlight > 0 && |e.store| >= e.maxInFlight;
            && (ParkAnswerOf(e, key).Parked? <==> absent && e.mode.Running? && !full)
            && (ParkAnswerOf(e, key).ParkOverloaded? <==> absent && e.mode.Running? && full)
            && (ParkAnswerOf(e, key).ParkDraining? <==> absent && e.mode.Draining?)
  {
    hide Linked, Counted, ExpiredOnce;
  }

  /** Once a drain has begun, no run makes another ticket. */
  lemma {:induction false} NoTicketAfterDrain(e: Engine, acts: seq<Action>)
    requires Inv(e)
    ensures Inv(Step(e, DoDrain))
    ensures var r := Exec(Step(e, DoDrain), acts); |r.tickets| == |e.tickets| && !r.mode.Running?
  {
    StepKeeps(e, DoDrain);
    if acts != [] {
      NoTicketAfterDrain(e, acts[..|acts| - 1]);
      var before := Exec(Step(e, DoDrain), acts[..|acts| - 1]);
      NoNewTicket(before, acts[|acts| - 1]);
      hide Inv, Step;
    }
  }

  lemma NoNewTicket(e: Engine, a: Action)
    requires Inv(e) && !e.mode.Running?
    ensures |Step(e, a).tickets| == |e.tickets| && !Step(e, a).mode.Running?
  {
    hide Counted, CountDown, ExpiredOnce, Bounded;
  }

  /** Once closed, every park and every reply with a key is told so. */
  lemma AllRefusedAfterClose(e: Engine, acts: seq<Action>, key: string)
    requires Inv(e) && key != ""
    ensures Inv(Step(e, DoClose))
    ensures var r := Exec(Step(e, DoClose), acts);
            && ParkAnswerOf(r, key) == ParkClosed
            && RedeemAnswerOf(r, key) == EngineClosed && ReleaseAnswerOf(r, key) == EngineClosed
            && r.expired == e.expired && r.tickets == e.tickets
  {
    StepKeeps(e, DoClose);
    assert Step(e, DoClose).mode.Closed?;
    assert Step(e, DoClose).tickets == e.tickets && Step(e, DoClose).expired == e.expired;
    hide Inv, Step;
    ClosedIsFinal(Step(e, DoClose), acts);
  }

  // ------------------------------------------------------------- the counts

  /** While draining or closed the number of open tickets never grows, and the engine
      never runs again. */
  lemma {:induction false} DrainNeverGrows(e: Engine, acts: seq<Action>)
    requires Inv(e) && !e.mode.Running?
    ensures Exec(e, acts).openCount <= e.openCount && !Exec(e, acts).mode.Running?
  {
    if acts != [] {
      DrainNeverGrows(e, acts[..|acts| - 1]);
      StepNeverGrows(Exec(e, acts[..|acts| - 1]), acts[|acts| - 1]);
      hide Inv, Step;
    }
  }

  lemma StepNeverGrows(e: Engine, a: Action)
    requires Inv(e) && !e.mode.Running?
    ensures Step(e, a).openCount <= e.openCount && !Step(e, a).mode.Running?
  {
    hide Counted, CountDown, ExpiredOnce;
  }

  /** A closed engine is empty and nothing changes it. */
  lemma {:induction false} ClosedIsFinal(e: Engine, acts: seq<Action>)
    requires Inv(e) && e.mode.Closed?
    ensures Exec(e, acts) == e
    ensures e.store == map[] && e.retained == map[] && e.openCount == 0 && e.destCounts == map[]
  {
    hide Counted, CountDown, ExpiredOnce, Bounded;
    if acts != [] {
      ClosedIsFinal(e, acts[..|acts| - 1]);
    }
  }

  /** The counts of all destinations together. */
  ghost function Total(counts: map<string, int>): int {
    if counts == map[] then 0
    else
      var d :| d in counts;
      counts[d] + Total(counts - {d})
  }

  lemma CountsWithout(tickets: seq<Ticket>, store: map<string, nat>, counts: map<string, int>, d: string)
    requires Counted(tickets, store, counts)
    ensures Counted(tickets, store - OpenTo(tickets, store, d), counts - {d})
  {
    var gone := OpenTo(tickets, store, d);
    var rest := store - gone;
    forall d'
      ensures Get(counts - {d}, d') == |OpenTo(tickets, rest, d')|
      ensures d' in counts - {d} <==> OpenTo(tickets, rest, d') != {}
    {
      assert OpenTo(tickets, rest, d') == if d' == d then {} else OpenTo(tickets, store, d');
    }
  }

  lemma NothingCounted(tickets: seq<Ticket>, store: map<string, nat>)
    requires Counted(tickets, store, map[]) && forall k :: k in store ==> store[k] < |tickets|
    ensures |store| == 0
  {
    assert forall k :: k in store ==> k in OpenTo(tickets, store, tickets[store[k]].dest);
    assert store.Keys == {};
  }

  /** The destination counts add up to the number of open tickets. */
  lemma {:induction false} CountsAddUp(tickets: seq<Ticket>, store: map<string, nat>, counts: map<string, int>)
    requires Counted(tickets, store, counts) && forall k :: k in store ==> store[k] < |tickets|
    ensures Total(counts) == |store|
    decreases counts.Keys
  {
    if counts == map[] {
      NothingCounted(tickets, store);
    } else {
      var d :| d in counts && Total(counts) == counts[d] + Total(counts - {d});
      var gone := OpenTo(tickets, store, d);
      assert Get(counts, d) == |gone| && gone <= store.Keys;
      CountsWithout(tickets, store, counts, d);
      hide Counted, Total, OpenTo;
      CountsAddUp(tickets, store - gone, counts - {d});
      Parted(store, gone);
    }
  }

  lemma Parted(store: map<string, nat>, gone: set<string>)
    requires gone <= store.Keys
    ensures |store| == |store - gone| + |gone|
  {
    var rest := store - gone;
    assert store.Keys == rest.Keys + gone && rest.Keys !! gone;
    assert |store.Keys| == |rest.Keys| + |gone|;
  }

  lemma InFlightAddsUp(e: Engine)
    requires Inv(e)
    ensures Total(e.destCounts) == e.openCount == |e.store|
  {
    CountsAddUp(e.tickets, e.store, e.destCounts);
  }
}

/** The valet correlation engine as a value, and what each of its operations and timers
    does to it. Tickets are numbered in the order they were parked; the number stands for
    the ticket object. A timer may fire at any time after it was armed, also after it was
    stopped and more than once. */
module ValetMachine {
  import opened Common

  datatype TicketState = TicketOpen | TicketClosed | TicketExpired | TicketReleased
  datatype Ticket = Ticket(key: string, dest: string, state: TicketState, outcome: Option<string>)
  datatype Mode = Running | Draining | Closed

  /** `expired` lists the tickets handed to OnExpire. `retains` is whether redeemed
      outcomes are kept. A maxInFlight of zero is no bound. */
  datatype Engine = Engine(
    maxInFlight: nat, retains: bool,
    mode: Mode, tickets: seq<Ticket>, store: map<string, nat>, retained: map<string, nat>,
    openCount: int, destCounts: map<string, int>, expired: seq<nat>)

  function New(maxInFlight: nat, retains: bool): (e: Engine)
    ensures Inv(e)
  {
    assert forall d :: OpenTo([], map[], d) == {};
    Engine(maxInFlight, retains, Running, [], map[], map[], 0, map[], [])
  }

  datatype ParkAnswer =
    | Parked(id: nat) | AttachedOpen(id: nat) | ReplayedClosed(id: nat)
    | ParkEmptyKey | ParkClosed | ParkDraining | ParkOverloaded

  datatype Answer = Matched(id: nat) | AlreadyRedeemed | Unmatched | EmptyKey | EngineClosed

  function Get(m: map<string, int>, k: string): int {
    if k in m then m[k] else 0
  }

  function ParkAnswerOf(e: Engine, key: string): ParkAnswer {
    if key == "" then ParkEmptyKey
    else if e.mode.Closed? then ParkClosed
    else if key in e.store then AttachedOpen(e.store[key])
    else if key in e.retained then ReplayedClosed(e.retained[key])
    else if e.mode.Draining? then ParkDraining
    else if 0 < e.maxInFlight <= e.openCount then ParkOverloaded
    else Parked(|e.tickets|)
  }

  function Park(e: Engine, key: string, dest: string): Engine {
    if ParkAnswerOf(e, key).Parked? then
      e.(tickets := e.tickets + [Ticket(key, dest, TicketOpen, None)],
      store := e.store[key := |e.tickets|],
      openCount := e.openCount + 1,
      destCounts := e.destCounts[dest := Get(e.destCounts, dest) + 1])
    else e
  }

  function CountDown(counts: map<string, int>, dest: string): map<string, int> {
    if Get(counts, dest) <= 1 then counts - {dest} else counts[dest := Get(counts, dest) - 1]
  }

  /** Takes the open ticket of `key` out of the store in a final state. */
  function Settle(e: Engine, key: string, state: TicketState, outcome: Option<string>): Engine
    requires key in e.store && e.store[key] < |e.tickets|
  {
    var id := e.store[key];
    var t := e.tickets[id];
    e.(tickets := e.tickets[id := t.(state := state, outcome := outcome)],
    store := e.store - {key},
    openCount := e.openCount - 1,
    destCounts := CountDown(e.destCounts, t.dest))
  }

  function RedeemAnswerOf(e: Engine, key: string): Answer {
    if key == "" then EmptyKey
    else if e.mode.Closed? then EngineClosed
    else if key in e.store then Matched(e.store[key])
    else if key in e.retained then AlreadyRedeemed
    else Unmatched
  }

  function Redeem(e: Engine, key: string, outcome: Option<string>): Engine
    requires Linked(e)
  {
    if !RedeemAnswerOf(e, key).Matched? then e
    else
      var settled := Settle(e, key, TicketClosed, outcome);
      if e.retains then settled.(retained := e.retained[key := e.store[key]]) else settled
  }

  function ReleaseAnswerOf(e: Engine, key: string): Answer {
    if key == "" then EmptyKey
    else if e.mode.Closed? then EngineClosed
    else if key in e.store then Matched(e.store[key])
    else Unmatched
  }

  function Release(e: Engine, key: string): Engine
    requires Linked(e)
  {
    if ReleaseAnswerOf(e, key).Matched? then Settle(e, key, TicketReleased, e.tickets[e.store[key]].outcome) else e
  }

  /** The expiry timer of ticket `id` fires. */
  function Expire(e: Engine, id: nat): Engine
    requires Linked(e)
  {
    if id >= |e.tickets| || e.mode.Closed? then e
    else
      var key := e.tickets[id].key;
      if key !in e.store || e.store[key] != id then e
      else Settle(e, key, TicketExpired, e.tickets[id].outcome).(expired := e.expired + [id])
  }

  /** The retention timer of ticket `id` fires. */
  function Purge(e: Engine, id: nat): Engine {
    if id >= |e.tickets| then e
    else
      var key := e.tickets[id].key;
      if key in e.retained && e.retained[key] == id then e.(retained := e.retained - {key}) else e
  }

  function BeginDrain(e: Engine): Engine {
    if e.mode.Closed? then e else e.(mode := Draining)
  }

  function Close(e: Engine): Engine {
    if e.mode.Closed? then e
    else e.(mode := Closed, store := map[], retained := map[], openCount := 0, destCounts := map[])
  }

  datatype Action =
    | DoPark(key: string, dest: string)
    | DoRedeem(key: string, outcome: Option<string>)
    | DoRelease(key: string)
    | ExpiryFires(id: nat)
    | RetentionFires(id: nat)
    | DoDrain
    | DoClose

  function Step(e: Engine, a: Action): Engine
    requires Linked(e)
  {
    match a
    case DoPark(key, dest) => Park(e, key, dest)
    case DoRedeem(key, outcome) => Redeem(e, key, outcome)
    case DoRelease(key) => Release(e, key)
    case ExpiryFires(id) => Expire(e, id)
    case RetentionFires(id) => Purge(e, id)
    case DoDrain => BeginDrain(e)
    case DoClose => Close(e)
  }

  // ------------------------------------------------------------- the invariant

  /** Keys lead to their own tickets: open ones from the store, closed ones from the
      retained outcomes. */
  predicate Linked(e: Engine) {
    && (forall k :: k in e.store ==>
                      && k != "" && e.store[k] < |e.tickets| && e.tickets[e.store[k]].key == k
                      && e.tickets[e.store[k]].state.TicketOpen?)
    && (forall k :: k in e.retained ==>
                      && e.retained[k] < |e.tickets| && e.tickets[e.retained[k]].key == k
                      && e.tickets[e.retained[k]].state.TicketClosed?)
  }

  /** No key is both open and retained, and an open ticket of a live engine is stored. */
  predicate Tidy(e: Engine) {
    && e.store.Keys !! e.retained.Keys
    && (!e.retains ==> e.retained == map[])
    && (e.mode.Closed? ==> e.store == map[] && e.retained == map[] && e.openCount == 0 && e.destCounts == map[])
    && (!e.mode.Closed? ==>
          forall i :: 0 <= i < |e.tickets| && e.tickets[i].state.TicketOpen? ==>
                        e.tickets[i].key in e.store && e.store[e.tickets[i].key] == i)
  }

  /** OnExpire ran at most once for each ticket, and only for expired ones. */
  predicate ExpiredOnce(e: Engine) {
    && (forall i :: 0 <= i < |e.expired| ==> e.expired[i] < |e.tickets| && e.tickets[e.expired[i]].state.TicketExpired?)
    && (forall i, j :: 0 <= i < j < |e.expired| ==> e.expired[i] != e.expired[j])
  }

  /** The keys of the open tickets with a destination label. */
  function OpenTo(tickets: seq<Ticket>, store: map<string, nat>, dest: string): set<string> {
    set k | k in store && store[k] < |tickets| && tickets[store[k]].dest == dest
  }

  /** Each destination count is the number of open tickets with the label, absent when
      there are none. */
  ghost predicate Counted(tickets: seq<Ticket>, store: map<string, nat>, counts: map<string, int>) {
    forall d :: Get(counts, d) == |OpenTo(tickets, store, d)| && (d in counts <==> OpenTo(tickets, store, d) != {})
  }

  predicate Bounded(e: Engine) {
    e.openCount == |e.store| && (0 < e.maxInFlight ==> e.openCount <= e.maxInFlight)
  }

  ghost predicate Inv(e: Engine) {
    Linked(e) && Tidy(e) && ExpiredOnce(e) && Counted(e.tickets, e.store, e.destCounts) && Bounded(e)
  }

  // ------------------------------------------------------------- it is kept

  lemma ParkOpenTo(tickets: seq<Ticket>, store: map<string, nat>, t: Ticket, d: string)
    requires t.key !in store && forall k :: k in store ==> store[k] < |tickets|
    ensures OpenTo(tickets + [t], store[t.key := |tickets|], d) ==
            OpenTo(tickets, store, d) + if d == t.dest then {t.key} else {}
  {
    var more, store' := tickets + [t], store[t.key := |tickets|];
    forall k | k in store
      ensures k in OpenTo(more, store', d) <==> k in OpenTo(tickets, store, d)
    {
      assert more[store[k]] == tickets[store[k]];
    }
  }

  lemma ParkCounts(tickets: seq<Ticket>, store: map<string, nat>, counts: map<string, int>, t: Ticket)
    requires Counted(tickets, store, counts) && t.key !in store
    requires forall k :: k in store ==> store[k] < |tickets|
    ensures Counted(tickets + [t], store[t.key := |tickets|], counts[t.dest := Get(counts, t.dest) + 1])
  {
    var more, store', counts' := tickets + [t], store[t.key := |tickets|], counts[t.dest := Get(counts, t.dest) + 1];
    forall d
      ensures Get(counts', d) == |OpenTo(more, store', d)| && (d in counts' <==> OpenTo(more, store', d) != {})
    {
      ParkOpenTo(tickets, store, t, d);
      var was := OpenTo(tickets, store, d);
      assert t.key !in was;
      hide OpenTo;
      assert |was + {t.key}| == |was| + 1;
    }
  }

  lemma SettleCounts(tickets: seq<Ticket>, store: map<string, nat>, counts: map<string, int>, key: string, t: Ticket)
    requires Counted(tickets, store, counts) && key in store && store[key] < |tickets|
    requires t.dest == tickets[store[key]].dest
    ensures Counted(tickets[store[key] := t], store - {key}, CountDown(counts, t.dest))
  {
    var tickets', store', counts' := tickets[store[key] := t], store - {key}, CountDown(counts, t.dest);
    forall d
      ensures Get(counts', d) == |OpenTo(tickets', store', d)| && (d in counts' <==> OpenTo(tickets', store', d) != {})
    {
      var was, now := OpenTo(tickets, store, d), OpenTo(tickets', store', d);
      assert now == if d == t.dest then was - {key} else was;
      assert key in was <==> d == t.dest;
      hide OpenTo;
    }
  }

  lemma ParkLinked(e: Engine, key: string, dest: string)
    requires Linked(e) && Tidy(e) && ExpiredOnce(e) && ParkAnswerOf(e, key).Parked?
    ensures Linked(Park(e, key, dest)) && Tidy(Park(e, key, dest)) && ExpiredOnce(Park(e, key, dest))
  {
  }

  lemma ParkKeeps(e: Engine, key: string, dest: string)
    requires Inv(e) && ParkAnswerOf(e, key).Parked?
    ensures Inv(Park(e, key, dest))
  {
    hide Counted, Linked, Tidy, ExpiredOnce, Bounded;
    ParkCounts(e.tickets, e.store, e.destCounts, Ticket(key, dest, TicketOpen, None)) by { StoredAreTickets(e); }
    ParkLinked(e, key, dest);
    ParkBounded(e, key, dest);
  }

  lemma StoredAreTickets(e: Engine)
    requires Linked(e)
    ensures forall k :: k in e.store ==> e.store[k] < |e.tickets|
  {
  }

  lemma ParkBounded(e: Engine, key: string, dest: string)
    requires Bounded(e) && ParkAnswerOf(e, key).Parked?
    ensures Bounded(Park(e, key, dest))
  {
    OneMore(e.store, key, |e.tickets|);
  }

  lemma OneMore(store: map<string, nat>, key: string, id: nat)
    requires key !in store
    ensures |store[key := id]| == |store| + 1
  {
    assert store[key := id].Keys == store.Keys + {key};
  }

  lemma ParkStepKeeps(e: Engine, key: string, dest: string)
    requires Inv(e)
    ensures Inv(Park(e, key, dest))
  {
    hide Inv;
    if ParkAnswerOf(e, key).Parked? {
      ParkKeeps(e, key, dest);
    }
  }

  lemma SettleLinked(e: Engine, key: string, state: TicketState, outcome: Option<string>)
    requires Linked(e) && Tidy(e) && key in e.store && !state.TicketOpen?
    ensures Linked(Settle(e, key, state, outcome)) && Tidy(Settle(e, key, state, outcome)) && !e.mode.Closed?
  {
    hide CountDown;
  }

  /** Settling a ticket keeps the invariant, short of recording what was settled. */
  /** What the invariant says of an open ticket about to be settled. */
  lemma OpenTicket(e: Engine, key: string)
    requires Inv(e) && key in e.store
    ensures e.store[key] < |e.tickets| && e.tickets[e.store[key]].key == key
    ensures !e.mode.Closed? && e.store[key] !in e.expired && 0 < |e.store|
    ensures Linked(e) && Tidy(e) && ExpiredOnce(e) && Bounded(e) && Counted(e.tickets, e.store, e.destCounts)
  {
    hide Counted;
  }

  lemma SettleExpired(e: Engine, key: string, state: TicketState, outcome: Option<string>)
    requires ExpiredOnce(e) && key in e.store && e.store[key] < |e.tickets| && e.store[key] !in e.expired
    ensures ExpiredOnce(Settle(e, key, state, outcome))
  {
    hide CountDown;
  }

  lemma SettleBounded(e: Engine, key: string, state: TicketState, outcome: Option<string>)
    requires Bounded(e) && key in e.store && e.store[key] < |e.tickets|
    ensures Bounded(Settle(e, key, state, outcome))
  {
    hide CountDown;
    assert (e.store - {key}).Keys == e.store.Keys - {key};
  }

  lemma SettleKeeps(e: Engine, key: string, state: TicketState, outcome: Option<string>)
    requires Inv(e) && key in e.store && !state.TicketOpen?
    ensures Inv(Settle(e, key, state, outcome))
    ensures !e.mode.Closed? && e.store[key] !in e.expired
    ensures var e' := Settle(e, key, state, outcome);
            && key !in e'.store && e.store[key] < |e'.tickets|
            && e'.tickets[e.store[key]] == Ticket(key, e.tickets[e.store[key]].dest, state, outcome)
  {
    OpenTicket(e, key);
    hide Counted, CountDown, Linked, Tidy, ExpiredOnce, Bounded;
    SettleCounts(e.tickets, e.store, e.destCounts, key, e.tickets[e.store[key]].(state := state, outcome := outcome));
    SettleLinked(e, key, state, outcome);
    SettleExpired(e, key, state, outcome);
    SettleBounded(e, key, state, outcome);
  }

  lemma RetainKeeps(e: Engine, key: string, id: nat)
    requires Inv(e) && key !in e.store && e.retains && !e.mode.Closed?
    requires id < |e.tickets| && e.tickets[id].key == key && e.tickets[id].state.TicketClosed?
    ensures Inv(e.(retained := e.retained[key := id]))
  {
    hide Counted;
  }

  lemma RedeemKeeps(e: Engine, key: string, outcome: Option<string>)
    requires Inv(e)
    ensures Inv(Redeem(e, key, outcome))
  {
    assert Linked(e);
    hide Inv, CountDown;
    if RedeemAnswerOf(e, key).Matched? {
      SettleKeeps(e, key, TicketClosed, outcome);
      if e.retains {
        RetainKeeps(Settle(e, key, TicketClosed, outcome), key, e.store[key]);
      }
    }
  }

  lemma ReleaseKeeps(e: Engine, key: string)
    requires Inv(e)
    ensures Inv(Release(e, key))
  {
    assert Linked(e);
    hide Inv, CountDown;
    if ReleaseAnswerOf(e, key).Matched? {
      SettleKeeps(e, key, TicketReleased, e.tickets[e.store[key]].outcome);
    }
  }

  lemma NoteExpired(e: Engine, id: nat)
    requires Inv(e) && id < |e.tickets| && e.tickets[id].state.TicketExpired? && id !in e.expired
    ensures Inv(e.(expired := e.expired + [id]))
  {
    hide Counted;
  }

  lemma ExpireKeeps(e: Engine, id: nat)
    requires Inv(e)
    ensures Inv(Expire(e, id))
  {
    assert Linked(e);
    hide Inv, CountDown;
    if id < |e.tickets| && e.tickets[id].key in e.store && e.store[e.tickets[id].key] == id {
      SettleKeeps(e, e.tickets[id].key, TicketExpired, e.tickets[id].outcome);
      NoteExpired(Settle(e, e.tickets[id].key, TicketExpired, e.tickets[id].outcome), id);
    }
  }

  lemma StepKeeps(e: Engine, a: Action)
    requires Inv(e)
    ensures Inv(Step(e, a))
  {
    assert Linked(e);
    hide Inv;
    match a
    case DoPark(key, dest) => ParkStepKeeps(e, key, dest);
    case DoRedeem(key, outcome) => RedeemKeeps(e, key, outcome);
    case DoRelease(key) => ReleaseKeeps(e, key);
    case ExpiryFires(id) => ExpireKeeps(e, id);
    case RetentionFires(id) => PurgeKeeps(e, id);
    case DoDrain => DrainKeeps(e);
    case DoClose => CloseKeeps(e);
  }

  lemma PurgeKeeps(e: Engine, id: nat)
    requires Inv(e)
    ensures Inv(Purge(e, id))
  {
    hide Counted;
  }

  lemma DrainKeeps(e: Engine)
    requires Inv(e)
    ensures Inv(BeginDrain(e))
  {
    hide Counted;
  }

  lemma CloseKeeps(e: Engine)
    requires Inv(e)
    ensures Inv(Close(e))
  {
    assert forall d :: OpenTo(e.tickets, map[], d) == {};
  }
}

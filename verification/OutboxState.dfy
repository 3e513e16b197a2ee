/** The outbox as a value: the queue, its counters and flags, and what each
    lock-protected region of pkg/runtime/outbox.go does to them. */
module OutboxState {

  /** One parked emission. `id` is its identity (the reference the source compares);
      `seat` orders the parks: a later park takes a greater seat. */
  datatype Item = Item(subject: string, isEvent: bool, id: nat, seat: nat)

  /** A message is never the same emission as an event. */
  predicate Same(a: Item, b: Item) {
    a.id == b.id && a.isEvent == b.isEvent
  }

  datatype BusState = BusUnknown | BusUp | BusDown

  /** What a publish answers. A drain takes NoBus as a refusal. */
  datatype Verdict = Accepted | Invalid | Refused | NoBus

  datatype Box = Box(
    items: seq<Item>, max: nat, retries: nat, ordered: bool,
    draining: bool, again: bool, againLoud: bool, busState: BusState,
    dropped: nat, parked: nat, drained: nat)

  const DEFAULT_MAX_MESSAGES: nat := 10000
  const DEFAULT_DRAIN_RETRIES: nat := 3

  function OrDefault(n: int, default: nat): (r: nat) {
    if n <= 0 then default else n
  }

  function NewBox(maxMessages: int, drainRetries: int): Box {
    Box([], OrDefault(maxMessages, DEFAULT_MAX_MESSAGES), OrDefault(drainRetries, DEFAULT_DRAIN_RETRIES), true,
        false, false, false, BusUnknown, 0, 0, 0)
  }

  function Configured(b: Box, maxMessages: int, drainRetries: int, ordered: bool): Box {
    b.(max := OrDefault(maxMessages, DEFAULT_MAX_MESSAGES),
    retries := OrDefault(drainRetries, DEFAULT_DRAIN_RETRIES),
    ordered := ordered)
  }

  predicate Held(items: seq<Item>, subject: string) {
    exists it :: it in items && it.subject == subject
  }

  predicate Holds(items: seq<Item>, it: Item) {
    exists q :: q in items && Same(q, it)
  }

  /** The index of the oldest parked event, or |items|. */
  function OldestEvent(items: seq<Item>): (i: nat)
    ensures i <= |items|
    ensures i < |items| ==> items[i].isEvent
    ensures forall j :: 0 <= j < i ==> !items[j].isEvent
  {
    if items == [] then 0 else if items[0].isEvent then 0 else 1 + OldestEvent(items[1..])
  }

  /** The index of the first item that is the same emission as `it`, or |items|. */
  function Find(items: seq<Item>, it: Item): (i: nat)
    ensures i <= |items|
    ensures i < |items| ==> Same(items[i], it)
    ensures forall j :: 0 <= j < i ==> !Same(items[j], it)
  {
    if items == [] then 0 else if Same(items[0], it) then 0 else 1 + Find(items[1..], it)
  }

  function Without<T>(s: seq<T>, i: nat): seq<T>
    requires i < |s|
  {
    s[..i] + s[i + 1..]
  }

  /** The item the cap evicts: the oldest event, or else the oldest message. */
  function Victim(items: seq<Item>): (i: nat)
    requires items != []
    ensures i < |items|
  {
    if OldestEvent(items) < |items| then OldestEvent(items) else 0
  }

  function Evict(items: seq<Item>, max: nat): (r: seq<Item>)
    requires 0 < max
    ensures |r| < max
    ensures |r| <= |items|
    ensures |items| < max ==> r == items
    ensures |r| < |items| ==> |r| == max - 1
  {
    if |items| < max then items else Evict(Without(items, Victim(items)), max)
  }

  function Park(b: Box, it: Item): Box
    requires 0 < b.max
  {
    var kept := Evict(b.items, b.max);
    b.(items := kept + [it], dropped := b.dropped + (|b.items| - |kept|), parked := b.parked + 1)
  }

  /** A full outbox refuses an event. */
  function ParkEvent(b: Box, it: Item): Box {
    if |b.items| >= b.max then b else b.(items := b.items + [it], parked := b.parked + 1)
  }

  function ParkAny(b: Box, it: Item): Box
    requires 0 < b.max
  {
    if it.isEvent then ParkEvent(b, it) else Park(b, it)
  }

  function Remove(b: Box, it: Item, dropped: bool): Box {
    var i := Find(b.items, it);
    if i == |b.items| then b
    else if dropped then b.(items := Without(b.items, i), dropped := b.dropped + 1)
    else b.(items := Without(b.items, i), drained := b.drained + 1)
  }

  function BeginDrain(b: Box, quiet: bool): Box {
    if b.draining then b.(again := true, againLoud := b.againLoud || !quiet)
    else b.(draining := true, busState := BusUnknown)
  }

  function Stopped(b: Box): Box {
    b.(draining := false, busState := BusUnknown, again := false, againLoud := false)
  }

  // ---------------------------------------------------------------- the queue

  predicate SortedSeats(items: seq<Item>) {
    forall i, j :: 0 <= i < j < |items| ==> items[i].seat < items[j].seat
  }

  lemma {:induction false} EvictKeeps(items: seq<Item>, max: nat)
    requires 0 < max
    ensures forall q :: q in Evict(items, max) ==> q in items
    ensures SortedSeats(items) ==> SortedSeats(Evict(items, max))
    decreases |items|
  {
    if |items| >= max {
      EvictKeeps(Without(items, Victim(items)), max);
    }
  }

  lemma WithoutKeeps(items: seq<Item>, i: nat)
    requires i < |items| && SortedSeats(items)
    ensures SortedSeats(Without(items, i))
    ensures forall q :: q in Without(items, i) <==> q in items && q != items[i]
  {
    forall q | q in items && q != items[i]
      ensures q in Without(items, i)
    {
      var j :| 0 <= j < |items| && items[j] == q;
      assert j != i;
      assert Without(items, i)[if j < i then j else j - 1] == q;
    }
  }

  /** `x` goes before `y` when the cap evicts: events before messages, then the oldest. */
  predicate EvictedBefore(x: Item, y: Item) {
    if x.isEvent then y.isEvent ==> x.seat < y.seat else !y.isEvent && x.seat < y.seat
  }

  lemma VictimGoesFirst(items: seq<Item>, y: Item)
    requires items != [] && SortedSeats(items) && y in items && y != items[Victim(items)]
    ensures EvictedBefore(items[Victim(items)], y)
  {
    var j :| 0 <= j < |items| && items[j] == y;
  }

  /** Whatever the cap evicts goes before everything it keeps. */
  lemma {:induction false} EvictDropsTheFirst(items: seq<Item>, max: nat, x: Item, y: Item)
    requires 0 < max && SortedSeats(items)
    requires x in items && x !in Evict(items, max) && y in Evict(items, max)
    ensures EvictedBefore(x, y)
    decreases |items|
  {
    if |items| >= max {
      var v := Victim(items);
      WithoutKeeps(items, v);
      EvictKeeps(Without(items, v), max);
      hide Without;
      if x == items[v] {
        VictimGoesFirst(items, y);
      } else {
        EvictDropsTheFirst(Without(items, v), max, x, y);
      }
    }
  }

  // ------------------------------------------------------------- conservation

  /** parked = drained + dropped + queued, and the cap is a positive number. */
  predicate Conserved(b: Box) {
    0 < b.max && b.parked == b.drained + b.dropped + |b.items|
  }

  /** Every region keeps the account, and a message park leaves at most `max` items
      even when the cap was lowered below the queue. */
  lemma RegionsConserve(b: Box, it: Item, dropped: bool, quiet: bool, maxMessages: int, drainRetries: int,
                        ordered: bool)
    requires Conserved(b)
    ensures Conserved(Park(b, it)) && |Park(b, it).items| <= b.max
    ensures Conserved(ParkEvent(b, it)) && |ParkEvent(b, it).items| <= (if |b.items| <= b.max then b.max else |b.items|)
    ensures Conserved(Remove(b, it, dropped))
    ensures Conserved(BeginDrain(b, quiet)) && Conserved(Stopped(b))
    ensures Conserved(Configured(b, maxMessages, drainRetries, ordered))
  {
    hide Evict, Find;
    ParkConserves(b, it);
    RemoveConserves(b, it, dropped);
    hide Park, Remove;
  }

  lemma ParkConserves(b: Box, it: Item)
    requires Conserved(b)
    ensures Conserved(Park(b, it)) && |Park(b, it).items| <= b.max
  {
    assert |Park(b, it).items| == |Evict(b.items, b.max)| + 1;
  }

  lemma RemoveConserves(b: Box, it: Item, dropped: bool)
    requires Conserved(b)
    ensures Conserved(Remove(b, it, dropped))
  {
    hide Find;
  }

  // -------------------------------------- events never cost a message its place

  datatype QueueOp =
    | ParkMessageOp(it: Item)
    | ParkEventOp(it: Item)
    | RemoveOp(it: Item, dropped: bool)
    | CapOp(maxMessages: int, drainRetries: int, ordered: bool)

  predicate WellKinded(op: QueueOp) {
    match op
    case ParkMessageOp(it) => !it.isEvent
    case ParkEventOp(it) => it.isEvent
    case RemoveOp(_, _) => true
    case CapOp(_, _, _) => true
  }

  function ApplyOp(b: Box, op: QueueOp): (r: Box)
    requires 0 < b.max
    ensures 0 < r.max
  {
    match op
    case ParkMessageOp(it) => Park(b, it)
    case ParkEventOp(it) => ParkEvent(b, it)
    case RemoveOp(it, dropped) => Remove(b, it, dropped)
    case CapOp(m, r, o) => Configured(b, m, r, o)
  }

  function ApplyOps(b: Box, ops: seq<QueueOp>): (r: Box)
    requires 0 < b.max
    ensures 0 < r.max
  {
    if ops == [] then b else ApplyOp(ApplyOps(b, ops[..|ops| - 1]), ops[|ops| - 1])
  }

  /** The same operations as an outbox that never sees an event performs them. */
  function DropEventParks(ops: seq<QueueOp>): seq<QueueOp> {
    if ops == [] then []
    else
      var rest := DropEventParks(ops[..|ops| - 1]);
      if ops[|ops| - 1].ParkEventOp? then rest else rest + [ops[|ops| - 1]]
  }

  function Messages(items: seq<Item>): (r: seq<Item>)
    ensures |r| <= |items|
    ensures forall i :: 0 <= i < |r| ==> !r[i].isEvent
  {
    if items == [] then []
    else if items[0].isEvent then Messages(items[1..])
    else [items[0]] + Messages(items[1..])
  }

  lemma {:induction false} MessagesConcat(a: seq<Item>, b: seq<Item>)
    ensures Messages(a + b) == Messages(a) + Messages(b)
  {
    if a == [] {
      assert a + b == b;
    } else {
      assert (a + b)[0] == a[0] && (a + b)[1..] == a[1..] + b;
      MessagesConcat(a[1..], b);
      assert [a[0]] + (Messages(a[1..]) + Messages(b)) == ([a[0]] + Messages(a[1..])) + Messages(b);
    }
  }

  lemma MessagesWithoutEvent(items: seq<Item>, i: nat)
    requires i < |items| && items[i].isEvent
    ensures Messages(Without(items, i)) == Messages(items)
  {
    assert items == items[..i] + ([items[i]] + items[i + 1..]);
    MessagesConcat(items[..i], [items[i]] + items[i + 1..]);
    MessagesConcat([items[i]], items[i + 1..]);
    MessagesConcat(items[..i], items[i + 1..]);
  }

  lemma {:induction false} NoEventsMeansAll(items: seq<Item>)
    requires forall i :: 0 <= i < |items| ==> !items[i].isEvent
    ensures Messages(items) == items
  {
    if items != [] {
      NoEventsMeansAll(items[1..]);
    }
  }

  /** Evicting at the cap and dropping the events commute. */
  lemma {:induction false} EvictCommutes(items: seq<Item>, max: nat)
    requires 0 < max
    ensures Messages(Evict(items, max)) == Evict(Messages(items), max)
    decreases |items|
  {
    if |items| >= max {
      var v := Victim(items);
      if items[v].isEvent {
        MessagesWithoutEvent(items, v);
      } else {
        assert forall j :: 0 <= j < |items| ==> !items[j].isEvent;
        NoEventsMeansAll(items);
        NoEventsMeansAll(Without(items, v));
      }
      EvictCommutes(Without(items, v), max);
    }
  }

  lemma {:induction false} MessagesNotSame(items: seq<Item>, it: Item)
    requires forall i :: 0 <= i < |items| ==> !Same(items[i], it)
    ensures forall i :: 0 <= i < |Messages(items)| ==> !Same(Messages(items)[i], it)
  {
    if items != [] {
      MessagesNotSame(items[1..], it);
    }
  }

  /** Removing a message commutes with dropping the events. */
  lemma FindInMessages(items: seq<Item>, it: Item)
    requires !it.isEvent
    ensures Find(items, it) == |items| ==> Find(Messages(items), it) == |Messages(items)|
    ensures Find(items, it) < |items| ==>
              Find(Messages(items), it) < |Messages(items)| &&
              Messages(Without(items, Find(items, it))) == Without(Messages(items), Find(Messages(items), it))
  {
    var i := Find(items, it);
    if i == |items| {
      MessagesNotSame(items, it);
    } else {
      var a, x, b := items[..i], items[i], items[i + 1..];
      assert items == a + ([x] + b);
      assert forall j :: 0 <= j < |a| ==> !Same(a[j], it);
      FindAfter(a, x, b, it);
    }
  }

  lemma FindAfter(a: seq<Item>, x: Item, b: seq<Item>, it: Item)
    requires !x.isEvent && Same(x, it) && forall j :: 0 <= j < |a| ==> !Same(a[j], it)
    ensures var ms := Messages(a + ([x] + b));
            && Find(ms, it) == |Messages(a)| < |ms|
            && Without(ms, Find(ms, it)) == Messages(a + b)
  {
    hide Messages, Find, Without;
    MessagesConcat(a, [x] + b);
    MessageFirst(x, b);
    MessagesConcat(a, b);
    MessagesNotSame(a, it);
    FindAt(Messages(a), x, Messages(b), it);
  }

  lemma MessageFirst(x: Item, b: seq<Item>)
    requires !x.isEvent
    ensures Messages([x] + b) == [x] + Messages(b)
  {
    assert ([x] + b)[1..] == b;
  }

  lemma FindAt(a: seq<Item>, x: Item, b: seq<Item>, it: Item)
    requires Same(x, it) && forall j :: 0 <= j < |a| ==> !Same(a[j], it)
    ensures Find(a + ([x] + b), it) == |a|
    ensures Without(a + ([x] + b), |a|) == a + b
  {
    hide Find;
    var s := a + ([x] + b);
    forall j | 0 <= j < |a| ensures !Same(s[j], it) { assert s[j] == a[j]; }
    FirstSame(s, |a|, it);
    assert s[..|a|] == a && s[|a| + 1..] == b;
  }

  lemma FirstSame(s: seq<Item>, i: nat, it: Item)
    requires i < |s| && Same(s[i], it) && forall j :: 0 <= j < i ==> !Same(s[j], it)
    ensures Find(s, it) == i
  {
    hide Find, Same;
  }

  /** After any run of parks, event parks, removals and cap changes, the messages in
      the queue are those of an outbox with the same caps that never saw an event. */
  lemma {:induction false} EventsNeverCostAMessage(maxMessages: int, drainRetries: int, ops: seq<QueueOp>)
    requires forall op :: op in ops ==> WellKinded(op)
    ensures var plain := ApplyOps(NewBox(maxMessages, drainRetries), DropEventParks(ops));
            && Messages(ApplyOps(NewBox(maxMessages, drainRetries), ops).items) == plain.items
            && ApplyOps(NewBox(maxMessages, drainRetries), ops).max == plain.max
  {
    if ops != [] {
      var before, op := ops[..|ops| - 1], ops[|ops| - 1];
      EventsNeverCostAMessage(maxMessages, drainRetries, before);
      var b := ApplyOps(NewBox(maxMessages, drainRetries), before);
      var p := ApplyOps(NewBox(maxMessages, drainRetries), DropEventParks(before));
      assert op in ops;
      if !op.ParkEventOp? {
        var plainOps := DropEventParks(before) + [op];
        assert plainOps[..|plainOps| - 1] == DropEventParks(before);
      }
      match op
      case ParkMessageOp(it) =>
        EvictCommutes(b.items, b.max);
        MessagesConcat(Evict(b.items, b.max), [it]);
      case ParkEventOp(it) =>
        MessagesConcat(b.items, [it]);
      case RemoveOp(it, dropped) =>
        if !it.isEvent {
          FindInMessages(b.items, it);
        } else if Find(b.items, it) < |b.items| {
          MessagesWithoutEvent(b.items, Find(b.items, it));
        }
      case CapOp(_, _, _) =>
    }
  }
}

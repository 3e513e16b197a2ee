/** The in-memory lane under concurrency: one worker for each subscription, any number of
    publishers and unsubscribers, and the one counter that quiesce trusts. Every channel
    operation, counter update and lock-protected region is one step. */
module LaneMachine {

  datatype Worker = Idle | Handling(item: nat) | Exited

  /** An item that left a queue, to the handler or to be discarded. */
  datatype Taken = Taken(item: nat, byWorker: bool)

  /** One subscription. `calls` are the Unsubscribe calls that have yet to empty its queue,
      `sweepers` those emptying it, `swept` the items they took and have not yet counted
      off. `accepted` and `taken` are the queue's history. */
  datatype Sub = Sub(
    subject: string, capacity: nat, queue: seq<nat>, closed: bool, listed: bool, worker: Worker,
    calls: nat, sweepers: nat, swept: seq<nat>, accepted: seq<nat>, taken: seq<Taken>)

  function NewSub(subject: string, capacity: nat): Sub {
    Sub(subject, capacity, [], false, true, Idle, 0, 0, [], [], [])
  }

  /** Where an enqueue is: not begun, counted and trying, having seen a full queue, or
      having given up and not yet counted off. */
  datatype Attempt = NotBegun | Trying | Blocked | Leaving

  /** A publish under way. `took` says of each target tried whether it took the message. */
  datatype Send = Send(
    subject: string, item: nat, targets: seq<nat>, took: seq<bool>, attempt: Attempt, delivered: nat, failed: bool)

  function NewSend(subject: string, item: nat, targets: seq<nat>): Send {
    Send(subject, item, targets, [], NotBegun, 0, false)
  }

  datatype Lane = Lane(
    queueSize: nat, subs: seq<Sub>, lists: map<string, seq<nat>>, sends: map<nat, Send>, nextSend: nat,
    pending: int, results: seq<Send>)

  const DEFAULT_QUEUE_SIZE: nat := 1024

  function OrDefault(queueSize: int): nat {
    if queueSize <= 0 then DEFAULT_QUEUE_SIZE else queueSize
  }

  function New(queueSize: int): Lane {
    Lane(OrDefault(queueSize), [], map[], map[], 0, 0, [])
  }

  /** What happens to one subscription: its Unsubscribe calls and its worker. A call begins,
      the first closes and unlists, and each then waits for the worker, or gives up on it,
      and empties the queue. */
  datatype SubMove =
    | BeginCall | CloseDone | StartSweep | SweepTake | SweepCount | EndSweep
    | WorkerTake | WorkerDone | WorkerExit

  /** What happens to one publish. */
  datatype SendMove = BeginEnqueue | Push | SeeFull | GiveUp | CountOff | EndSend

  datatype Action =
    | Configure(queueSize: int)
    | Subscribe(subject: string)
    | Unlist(sub: nat)
    | OnSub(sub: nat, subMove: SubMove)
    | Publish(subject: string, item: nat, encodes: bool)
    | OnSend(send: nat, sendMove: SendMove)

  function ListOf(lists: map<string, seq<nat>>, subject: string): seq<nat> {
    if subject in lists then lists[subject] else []
  }

  function Without(list: seq<nat>, i: nat): seq<nat> {
    if list == [] then []
    else if list[0] == i then Without(list[1..], i) else [list[0]] + Without(list[1..], i)
  }

  function Unlisted(lists: map<string, seq<nat>>, subject: string, i: nat): map<string, seq<nat>> {
    var kept := Without(ListOf(lists, subject), i);
    if kept == [] then lists - {subject} else lists[subject := kept]
  }

  function SetSub(l: Lane, i: nat, s: Sub): Lane
    requires i < |l.subs|
  {
    l.(subs := l.subs[i := s])
  }

  /** What the steps of one subscription do to it, and to the counter. */
  function SubStep(s: Sub, move: SubMove): (Sub, int) {
    match move
    case BeginCall => (s.(calls := s.calls + 1), 0)
    case CloseDone => if s.calls > 0 then (s.(closed := true), 0) else (s, 0)
    case StartSweep =>
      if s.calls > 0 && s.closed && !s.listed
      then (s.(calls := s.calls - 1, sweepers := s.sweepers + 1), 0) else (s, 0)
    case SweepTake =>
      if |s.swept| < s.sweepers && s.queue != []
      then
        var item := s.queue[0];
        (s.(queue := s.queue[1..], swept := s.swept + [item], taken := s.taken + [Taken(item, false)]), 0)
      else (s, 0)
    case SweepCount => if s.swept != [] then (s.(swept := s.swept[1..]), -1) else (s, 0)
    case EndSweep =>
      if |s.swept| < s.sweepers && s.queue == [] then (s.(sweepers := s.sweepers - 1), 0) else (s, 0)
    case WorkerTake =>
      if s.worker.Idle? && s.queue != []
      then (s.(queue := s.queue[1..], worker := Handling(s.queue[0]), taken := s.taken + [Taken(s.queue[0], true)]), 0)
      else (s, 0)
    case WorkerDone => if s.worker.Handling? then (s.(worker := Idle), -1) else (s, 0)
    case WorkerExit => if s.worker.Idle? && s.closed then (s.(worker := Exited), 0) else (s, 0)
  }

  function PushItem(s: Sub, item: nat): Sub {
    s.(queue := s.queue + [item], accepted := s.accepted + [item])
  }

  function StepPublish(l: Lane, subject: string, item: nat, encodes: bool): Lane {
    var targets := ListOf(l.lists, subject);
    var d := NewSend(subject, item, targets);
    if targets == [] then l.(results := l.results + [d])
    else if !encodes then l.(results := l.results + [d.(failed := true)])
    else l.(sends := l.sends[l.nextSend := d], nextSend := l.nextSend + 1)
  }

  predicate Busy(d: Send) {
    !d.attempt.NotBegun? && |d.took| < |d.targets|
  }

  function Room(l: Lane, i: nat): bool {
    i < |l.subs| && |l.subs[i].queue| < l.subs[i].capacity
  }

  function StepSend(l: Lane, op: nat, move: SendMove): Lane
    requires op in l.sends
  {
    var d := l.sends[op];
    match move
    case BeginEnqueue =>
      if d.attempt.NotBegun? && |d.took| < |d.targets|
      then l.(sends := l.sends[op := d.(attempt := Trying)], pending := l.pending + 1) else l
    case Push =>
      if Busy(d) && !d.attempt.Leaving? && Room(l, d.targets[|d.took|])
      then
        var i := d.targets[|d.took|];
        var d' := d.(took := d.took + [true], attempt := NotBegun, delivered := d.delivered + 1);
        SetSub(l.(sends := l.sends[op := d']), i, PushItem(l.subs[i], d.item))
      else l
    case SeeFull =>
      if Busy(d) && d.attempt.Trying? && !Room(l, d.targets[|d.took|])
      then l.(sends := l.sends[op := d.(attempt := Blocked)]) else l
    case GiveUp =>
      if Busy(d) && d.attempt.Blocked? then l.(sends := l.sends[op := d.(attempt := Leaving)]) else l
    case CountOff =>
      if Busy(d) && d.attempt.Leaving?
      then
        var d' := d.(took := d.took + [false], attempt := NotBegun, failed := true);
        l.(sends := l.sends[op := d'], pending := l.pending - 1)
      else l
    case EndSend =>
      if d.attempt.NotBegun? && |d.took| == |d.targets|
      then l.(sends := l.sends - {op}, results := l.results + [d]) else l
  }

  function Step(l: Lane, a: Action): Lane {
    match a
    case Configure(queueSize) => l.(queueSize := OrDefault(queueSize))
    case Subscribe(subject) =>
      var i := |l.subs|;
      l.(subs := l.subs + [NewSub(subject, l.queueSize)],
      lists := l.lists[subject := ListOf(l.lists, subject) + [i]])
    case Unlist(i) =>
      if i < |l.subs| && l.subs[i].closed
      then SetSub(l, i, l.subs[i].(listed := false)).(lists := Unlisted(l.lists, l.subs[i].subject, i)) else l
    case OnSub(i, move) =>
      if i < |l.subs|
      then var (s, n) := SubStep(l.subs[i], move); SetSub(l, i, s).(pending := l.pending + n) else l
    case Publish(subject, item, encodes) => StepPublish(l, subject, item, encodes)
    case OnSend(op, move) => if op in l.sends then StepSend(l, op, move) else l
  }

  function Exec(l: Lane, acts: seq<Action>): Lane {
    if acts == [] then l else Step(Exec(l, acts[..|acts| - 1]), acts[|acts| - 1])
  }

  // ------------------------------------------------------------- what pending counts

  function Load(s: Sub): nat {
    |s.queue| + |s.swept| + if s.worker.Handling? then 1 else 0
  }

  function TotalLoad(subs: seq<Sub>): nat {
    if subs == [] then 0 else TotalLoad(subs[..|subs| - 1]) + Load(subs[|subs| - 1])
  }

  function BusySends(sends: map<nat, Send>): set<nat> {
    set op | op in sends && Busy(sends[op])
  }

  /** Items queued, being handled or being discarded, plus enqueues under way, over all
      subscriptions, closed ones included. */
  predicate PendingCounts(l: Lane) {
    l.pending == TotalLoad(l.subs) + |BusySends(l.sends)|
  }

  lemma {:induction false} LoadChange(subs: seq<Sub>, i: nat, s: Sub)
    requires i < |subs|
    ensures TotalLoad(subs[i := s]) == TotalLoad(subs) - Load(subs[i]) + Load(s)
    decreases |subs|
  {
    var n := |subs| - 1;
    if i < n {
      LoadChange(subs[..n], i, s);
      assert subs[i := s][..n] == subs[..n][i := s];
    } else {
      assert subs[i := s][..n] == subs[..n];
    }
  }

  lemma {:induction false} LoadAt(subs: seq<Sub>, i: nat)
    requires i < |subs|
    ensures Load(subs[i]) <= TotalLoad(subs)
  {
    if i < |subs| - 1 {
      LoadAt(subs[..|subs| - 1], i);
    }
  }

  lemma BusyChange(sends: map<nat, Send>, op: nat, d: Send)
    ensures BusySends(sends[op := d]) == (if Busy(d) then BusySends(sends) + {op} else BusySends(sends) - {op})
    ensures BusySends(sends - {op}) == BusySends(sends) - {op}
    ensures op in BusySends(sends) <==> op in sends && Busy(sends[op])
  {
  }

  lemma SubStepLoad(s: Sub, move: SubMove)
    ensures Load(SubStep(s, move).0) == Load(s) + SubStep(s, move).1
  {
  }

  lemma StepSendPending(l: Lane, op: nat, move: SendMove)
    requires PendingCounts(l) && op in l.sends
    ensures PendingCounts(StepSend(l, op, move))
  {
    hide BusySends, TotalLoad;
    var d := l.sends[op];
    match move
    case BeginEnqueue => BusyChange(l.sends, op, d.(attempt := Trying));
    case Push =>
      if Busy(d) && Room(l, d.targets[|d.took|]) {
        BusyChange(l.sends, op, d.(took := d.took + [true], attempt := NotBegun, delivered := d.delivered + 1));
        var i := d.targets[|d.took|];
        LoadChange(l.subs, i, PushItem(l.subs[i], d.item));
      }
    case SeeFull => BusyChange(l.sends, op, d.(attempt := Blocked));
    case GiveUp => BusyChange(l.sends, op, d.(attempt := Leaving));
    case CountOff => BusyChange(l.sends, op, d.(took := d.took + [false], attempt := NotBegun, failed := true));
    case EndSend => BusyChange(l.sends, op, d);
  }

  lemma StepPending(l: Lane, a: Action)
    requires PendingCounts(l) && l.nextSend !in l.sends
    ensures PendingCounts(Step(l, a))
  {
    match a
    case Configure(_) =>
    case Subscribe(_) => assert Step(l, a).subs[..|l.subs|] == l.subs;
    case Unlist(i) =>
      if i < |l.subs| { LoadChange(l.subs, i, l.subs[i].(listed := false)); }
    case OnSub(i, move) =>
      if i < |l.subs| {
        SubStepLoad(l.subs[i], move);
        LoadChange(l.subs, i, SubStep(l.subs[i], move).0);
        hide SubStep;
      }
    case Publish(subject, item, encodes) => PublishPending(l, subject, item, encodes);
    case OnSend(op, move) =>
      hide StepSend;
      if op in l.sends { StepSendPending(l, op, move); }
  }

  lemma PublishPending(l: Lane, subject: string, item: nat, encodes: bool)
    requires PendingCounts(l) && l.nextSend !in l.sends
    ensures PendingCounts(StepPublish(l, subject, item, encodes))
  {
    BusyChange(l.sends, l.nextSend, NewSend(subject, item, ListOf(l.lists, subject)));
  }

  // ------------------------------------------------------------- queues, publishes and lists

  function Items(taken: seq<Taken>): seq<nat> {
    if taken == [] then [] else Items(taken[..|taken| - 1]) + [taken[|taken| - 1].item]
  }

  /** What left a queue is what entered it first, in order: each item is handled or
      discarded at most once. */
  predicate SubInv(s: Sub) {
    && s.accepted == Items(s.taken) + s.queue
    && |s.queue| <= s.capacity && 0 < s.capacity
    && |s.swept| <= s.sweepers
    && (s.worker.Handling? ==> s.taken != [])
    && (0 < s.sweepers || s.worker.Exited? || !s.listed ==> s.closed)
    && (s.closed && s.listed ==> 0 < s.calls)
  }

  function Count(took: seq<bool>): nat {
    if took == [] then 0 else Count(took[..|took| - 1]) + if took[|took| - 1] then 1 else 0
  }

  predicate SendInv(d: Send) {
    && |d.took| <= |d.targets|
    && d.delivered == Count(d.took)
    && (d.failed <==> Count(d.took) < |d.took|)
    && (!d.attempt.NotBegun? ==> |d.took| < |d.targets|)
  }

  /** A finished publish reports an error exactly when some target did not take it. */
  predicate ResultInv(d: Send) {
    && d.delivered <= |d.targets| && (d.failed <==> d.delivered < |d.targets|)
    && ((d.took == [] && d.delivered == 0) || (|d.took| == |d.targets| && d.delivered == Count(d.took)))
  }

  lemma {:induction false} CountBound(took: seq<bool>)
    ensures Count(took) <= |took|
  {
    if took != [] {
      CountBound(took[..|took| - 1]);
    }
  }

  lemma CountSnoc(took: seq<bool>, b: bool)
    ensures Count(took + [b]) == Count(took) + if b then 1 else 0
  {
    assert (took + [b])[..|took|] == took;
  }

  lemma ItemsSnoc(taken: seq<Taken>, t: Taken)
    ensures Items(taken + [t]) == Items(taken) + [t.item]
  {
    assert (taken + [t])[..|taken|] == taken;
  }

  lemma SubStepInv(s: Sub, move: SubMove)
    requires SubInv(s)
    ensures SubInv(SubStep(s, move).0)
  {
    if s.queue != [] {
      ItemsSnoc(s.taken, Taken(s.queue[0], false));
      ItemsSnoc(s.taken, Taken(s.queue[0], true));
      hide Items;
      assert s.queue == [s.queue[0]] + s.queue[1..];
      assert Items(s.taken) + s.queue == (Items(s.taken) + [s.queue[0]]) + s.queue[1..];
    }
  }

  predicate SubsInv(subs: seq<Sub>) {
    forall i :: 0 <= i < |subs| ==> SubInv(subs[i])
  }

  predicate SendsInv(l: Lane) {
    && (forall op :: op in l.sends ==> op < l.nextSend && SendInv(l.sends[op]))
    && (forall i :: 0 <= i < |l.results| ==> ResultInv(l.results[i]))
  }

  lemma SendMoveInv(d: Send, b: bool)
    requires SendInv(d) && |d.took| < |d.targets|
    ensures SendInv(d.(took := d.took + [b], attempt := NotBegun,
                    delivered := if b then d.delivered + 1 else d.delivered, failed := if b then d.failed else true))
  {
    CountSnoc(d.took, b);
    CountBound(d.took);
    hide Count;
  }

  lemma StepSendInv(l: Lane, op: nat, move: SendMove)
    requires SendsInv(l) && SubsInv(l.subs) && op in l.sends
    ensures SendsInv(StepSend(l, op, move)) && SubsInv(StepSend(l, op, move).subs)
  {
    var d := l.sends[op];
    if Busy(d) {
      SendMoveInv(d, true);
      SendMoveInv(d, false);
    }
    CountBound(d.took);
    hide Count, Items;
  }

  predicate Belongs(subs: seq<Sub>, subject: string, i: nat) {
    i < |subs| && subs[i].subject == subject && subs[i].listed
  }

  /** A subject's list holds exactly its listed subscriptions, each once, in the order
      they were made. */
  ghost predicate ListOk(subs: seq<Sub>, subject: string, list: seq<nat>) {
    Ascending(list) && forall i: nat :: i in list <==> Belongs(subs, subject, i)
  }

  ghost predicate ListsInv(subs: seq<Sub>, lists: map<string, seq<nat>>) {
    forall subject :: ListOk(subs, subject, ListOf(lists, subject))
  }

  predicate Ascending(list: seq<nat>) {
    forall i, j :: 0 <= i < j < |list| ==> list[i] < list[j]
  }

  lemma {:induction false} WithoutIs(list: seq<nat>, i: nat)
    requires Ascending(list)
    ensures forall j :: j in Without(list, i) <==> j in list && j != i
    ensures Ascending(Without(list, i))
  {
    if list != [] {
      WithoutIs(list[1..], i);
      assert forall j :: j in list <==> j == list[0] || j in list[1..];
      assert forall j :: j in list[1..] ==> list[0] < j;
      var rest := Without(list[1..], i);
      assert forall k :: 0 <= k < |rest| ==> rest[k] in rest;
    }
  }

  lemma SubscribeLists(subs: seq<Sub>, lists: map<string, seq<nat>>, s: Sub)
    requires ListsInv(subs, lists) && s.listed
    ensures ListsInv(subs + [s], lists[s.subject := ListOf(lists, s.subject) + [|subs|]])
  {
    var subs', lists' := subs + [s], lists[s.subject := ListOf(lists, s.subject) + [|subs|]];
    forall subject
      ensures ListOk(subs', subject, ListOf(lists', subject))
    {
      var list := ListOf(lists, subject);
      assert ListOk(subs, subject, list);
      hide ListOk;
      SubscribeList(subs, subject, list, s);
    }
  }

  lemma SubscribeList(subs: seq<Sub>, subject: string, list: seq<nat>, s: Sub)
    requires ListOk(subs, subject, list) && s.listed
    ensures ListOk(subs + [s], subject, if s.subject == subject then list + [|subs|] else list)
  {
    forall i: nat
      ensures Belongs(subs + [s], subject, i) <==> Belongs(subs, subject, i) || (i == |subs| && subject == s.subject)
    {
    }
    forall k | 0 <= k < |list| ensures list[k] < |subs| {
      assert list[k] in list;
      assert Belongs(subs, subject, list[k]);
    }
    hide Belongs;
  }

  lemma UnlistLists(subs: seq<Sub>, lists: map<string, seq<nat>>, i: nat)
    requires ListsInv(subs, lists) && i < |subs|
    ensures ListsInv(subs[i := subs[i].(listed := false)], Unlisted(lists, subs[i].subject, i))
  {
    var subs', lists' := subs[i := subs[i].(listed := false)], Unlisted(lists, subs[i].subject, i);
    forall subject
      ensures ListOk(subs', subject, ListOf(lists', subject))
    {
      var list := ListOf(lists, subject);
      assert ListOk(subs, subject, list);
      WithoutIs(list, i);
      assert forall j: nat :: Belongs(subs', subject, j) <==> Belongs(subs, subject, j) && j != i;
    }
  }

  /** A step that leaves subjects and listings alone leaves the lists right. */
  lemma SameLists(subs: seq<Sub>, lists: map<string, seq<nat>>, i: nat, s: Sub)
    requires ListsInv(subs, lists) && i < |subs| && s.subject == subs[i].subject && s.listed == subs[i].listed
    ensures ListsInv(subs[i := s], lists)
  {
    forall subject
      ensures ListOk(subs[i := s], subject, ListOf(lists, subject))
    {
      assert ListOk(subs, subject, ListOf(lists, subject));
      assert forall j: nat :: Belongs(subs[i := s], subject, j) <==> Belongs(subs, subject, j);
    }
  }

  ghost predicate Inv(l: Lane) {
    PendingCounts(l) && SubsInv(l.subs) && SendsInv(l) && ListsInv(l.subs, l.lists) && 0 < l.queueSize
  }

  lemma SendKeeps(l: Lane, op: nat, move: SendMove)
    requires Inv(l) && op in l.sends
    ensures Inv(StepSend(l, op, move))
  {
    hide PendingCounts, SubsInv, SendsInv, ListsInv;
    StepSendPending(l, op, move);
    StepSendInv(l, op, move);
    var d := l.sends[op];
    if Busy(d) && Room(l, d.targets[|d.took|]) {
      var i := d.targets[|d.took|];
      SameLists(l.subs, l.lists, i, PushItem(l.subs[i], d.item));
    }
  }

  lemma PublishKeeps(l: Lane, subject: string, item: nat, encodes: bool)
    requires Inv(l)
    ensures Inv(StepPublish(l, subject, item, encodes))
  {
    PublishPending(l, subject, item, encodes);
    hide PendingCounts, SubsInv, ListsInv;
  }

  lemma SubStepSame(s: Sub, move: SubMove)
    ensures SubStep(s, move).0.subject == s.subject && SubStep(s, move).0.listed == s.listed
  {
  }

  lemma SubKeeps(l: Lane, i: nat, move: SubMove)
    requires Inv(l) && i < |l.subs|
    ensures Inv(Step(l, OnSub(i, move)))
  {
    hide PendingCounts, SubInv, SubStep, ListsInv, SendInv, ResultInv;
    StepPending(l, OnSub(i, move));
    SubStepInv(l.subs[i], move);
    SubStepSame(l.subs[i], move);
    SameLists(l.subs, l.lists, i, SubStep(l.subs[i], move).0);
  }

  lemma SubscribeKeeps(l: Lane, subject: string)
    requires Inv(l)
    ensures Inv(Step(l, Subscribe(subject)))
  {
    StepPending(l, Subscribe(subject));
    hide PendingCounts, ListsInv;
    SubscribeLists(l.subs, l.lists, NewSub(subject, l.queueSize));
  }

  lemma UnlistKeeps(l: Lane, i: nat)
    requires Inv(l)
    ensures Inv(Step(l, Unlist(i)))
  {
    StepPending(l, Unlist(i));
    hide PendingCounts, ListsInv, Unlisted;
    if i < |l.subs| {
      UnlistLists(l.subs, l.lists, i);
    }
  }

  lemma StepKeeps(l: Lane, a: Action)
    requires Inv(l)
    ensures Inv(Step(l, a))
  {
    match a
    case Configure(_) => hide PendingCounts, SubsInv, ListsInv;
    case Subscribe(subject) => SubscribeKeeps(l, subject);
    case Unlist(i) => UnlistKeeps(l, i);
    case OnSub(i, move) =>
      hide Inv;
      if i < |l.subs| { SubKeeps(l, i, move); }
    case Publish(subject, item, encodes) =>
      hide Inv, StepPublish;
      PublishKeeps(l, subject, item, encodes);
    case OnSend(op, move) =>
      hide Inv, StepSend;
      if op in l.sends { SendKeeps(l, op, move); }
  }

  lemma {:induction false} ReachableInv(queueSize: int, acts: seq<Action>)
    ensures Inv(Exec(New(queueSize), acts))
  {
    if acts == [] {
      assert BusySends(map[]) == {};
    } else {
      ReachableInv(queueSize, acts[..|acts| - 1]);
      StepKeeps(Exec(New(queueSize), acts[..|acts| - 1]), acts[|acts| - 1]);
    }
  }

  /** Nothing is queued, handled, discarded or on its way into a queue. */
  predicate Quiet(l: Lane) {
    && (forall i :: 0 <= i < |l.subs| ==> l.subs[i].queue == [] && !l.subs[i].worker.Handling? && l.subs[i].swept == [])
    && (forall op :: op in l.sends ==> !Busy(l.sends[op]))
  }

  /** quiesce returns without error only after reading a counter that is not positive; at
      that moment nothing is queued on any subscription, closed ones included, and no
      handler runs. The converse holds too: the counter is never off. */
  lemma QuiesceMeansQuiet(queueSize: int, acts: seq<Action>)
    ensures var l := Exec(New(queueSize), acts); l.pending <= 0 <==> Quiet(l)
  {
    ReachableInv(queueSize, acts);
    hide Exec, SubsInv, SendsInv, ListsInv;
    ZeroIffQuiet(Exec(New(queueSize), acts));
  }

  lemma ZeroIffQuiet(l: Lane)
    requires PendingCounts(l)
    ensures l.pending == 0 <==> Quiet(l)
    ensures l.pending >= 0
  {
    if Quiet(l) {
      NoLoad(l.subs);
      assert BusySends(l.sends) == {};
    }
    if l.pending == 0 {
      forall i | 0 <= i < |l.subs| ensures Load(l.subs[i]) == 0 { LoadAt(l.subs, i); }
      assert forall op :: op in l.sends && Busy(l.sends[op]) ==> op in BusySends(l.sends);
    }
  }

  lemma {:induction false} NoLoad(subs: seq<Sub>)
    requires forall i :: 0 <= i < |subs| ==> Load(subs[i]) == 0
    ensures TotalLoad(subs) == 0
  {
    if subs != [] {
      NoLoad(subs[..|subs| - 1]);
    }
  }

  /** In every reachable state each subscription's queue is a bounded FIFO: what was
      handled or discarded is a prefix of what was accepted, so nothing is handled or
      discarded twice or out of order. */
  lemma QueuesAreFifo(queueSize: int, acts: seq<Action>, i: nat)
    requires i < |Exec(New(queueSize), acts).subs|
    ensures var s := Exec(New(queueSize), acts).subs[i];
            s.accepted == Items(s.taken) + s.queue && |s.queue| <= s.capacity
  {
    ReachableInv(queueSize, acts);
  }

  /** A publish that has returned reported an error exactly when some subscription of the
      subject did not take the message. */
  lemma PublishReportsMissedTargets(queueSize: int, acts: seq<Action>, i: nat)
    requires i < |Exec(New(queueSize), acts).results|
    ensures var d := Exec(New(queueSize), acts).results[i]; d.failed <==> d.delivered < |d.targets|
  {
    ReachableInv(queueSize, acts);
  }

  /** A publish failed exactly when it missed one of its targets. */
  lemma FailedIffMissed(d: Send)
    requires ResultInv(d)
    ensures d.failed <==> exists n :: 0 <= n < |d.targets| && !Took(d, n)
  {
    CountAll(d.took);
    CountBound(d.took);
    hide Count;
    if d.failed && forall n :: 0 <= n < |d.targets| ==> Took(d, n) {
      assert d.took == [] ==> Took(d, 0);
      forall n | 0 <= n < |d.took| ensures d.took[n] { assert Took(d, n); }
    }
  }

  /** The n-th target took the message. */
  predicate Took(d: Send, n: nat) {
    n < |d.took| && d.took[n]
  }

  lemma {:induction false} CountAll(took: seq<bool>)
    ensures Count(took) == |took| <==> forall n :: 0 <= n < |took| ==> took[n]
  {
    if took != [] {
      var before := took[..|took| - 1];
      CountAll(before);
      CountBound(before);
    }
  }

  // ------------------------------------------------------------- runs

  lemma ExecNone(l: Lane)
    ensures Exec(l, []) == l
  {
  }

  lemma ExecSnoc(l: Lane, acts: seq<Action>, a: Action)
    ensures Exec(l, acts + [a]) == Step(Exec(l, acts), a)
  {
    assert (acts + [a])[..|acts|] == acts;
  }

  lemma {:induction false} ExecConcat(l: Lane, a: seq<Action>, b: seq<Action>)
    ensures Exec(l, a + b) == Exec(Exec(l, a), b)
  {
    if b == [] {
      assert a + b == a;
    } else {
      var c := b[..|b| - 1];
      ExecConcat(l, a, c);
      assert (a + b)[..|a + b| - 1] == a + c;
    }
  }
}

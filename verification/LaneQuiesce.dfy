/** When quiesce can end: the messages that nobody will ever take off the count. */
module LaneQuiesce {
  import opened LaneMachine

  // ------------------------------------------------------------- a message that lands too late

  /** The worker is gone and no Unsubscribe call is under way: nobody serves the queue. */
  predicate Dead(s: Sub) {
    s.worker.Exited? && s.calls == 0 && s.sweepers == 0
  }

  predicate Stranded(l: Lane, i: nat) {
    i < |l.subs| && Dead(l.subs[i]) && l.subs[i].queue != []
  }

  /** What strands a message: a publish that puts it into a queue nobody serves, or a
      worker that stops before its queue is empty and after the last Unsubscribe call has
      given up on it and returned. */
  predicate Strands(l: Lane, a: Action, i: nat) {
    && i < |l.subs|
    && match a
       case OnSub(j, WorkerExit) =>
         && j == i && l.subs[i].worker.Idle? && l.subs[i].closed && l.subs[i].queue != []
         && l.subs[i].calls == 0 && l.subs[i].sweepers == 0
       case OnSend(op, Push) =>
         && op in l.sends && Busy(l.sends[op]) && !l.sends[op].attempt.Leaving?
         && l.sends[op].targets[|l.sends[op].took|] == i && Room(l, i) && Dead(l.subs[i])
       case _ => false
  }

  lemma StrandsIff(l: Lane, a: Action, i: nat)
    requires !Stranded(l, i)
    ensures Stranded(Step(l, a), i) <==> Strands(l, a, i)
  {
  }

  /** In any run, the exact steps that strand a message. */
  lemma StrandedIff(queueSize: int, acts: seq<Action>, a: Action, i: nat)
    requires !Stranded(Exec(New(queueSize), acts), i)
    ensures Stranded(Exec(New(queueSize), acts + [a]), i) <==> Strands(Exec(New(queueSize), acts), a, i)
  {
    hide Exec;
    ExecSnoc(New(queueSize), acts, a);
    StrandsIff(Exec(New(queueSize), acts), a, i);
  }

  /** Once stranded, a message stays until Unsubscribe is called once more. */
  lemma StrandedStays(l: Lane, a: Action, i: nat)
    requires Stranded(l, i) && a != OnSub(i, BeginCall)
    ensures Stranded(Step(l, a), i)
  {
  }

  lemma StrandedIsPending(l: Lane, i: nat)
    requires Inv(l) && Stranded(l, i)
    ensures l.pending > 0
  {
    LoadAt(l.subs, i);
  }

  /** Until then quiesce does not return without error, whatever else happens. */
  lemma {:induction false} StrandedHoldsQuiesce(l: Lane, acts: seq<Action>, i: nat)
    requires Inv(l) && Stranded(l, i)
    requires forall a :: a in acts ==> a != OnSub(i, BeginCall)
    ensures Inv(Exec(l, acts)) && Stranded(Exec(l, acts), i) && Exec(l, acts).pending > 0
  {
    hide Inv, Step, Stranded;
    if acts != [] {
      var before := acts[..|acts| - 1];
      assert (forall a :: a in before ==> a in acts) && acts[|acts| - 1] in acts;
      StrandedHoldsQuiesce(l, before, i);
      StrandedStays(Exec(l, before), acts[|acts| - 1], i);
      StepKeeps(Exec(l, before), acts[|acts| - 1]);
    }
    StrandedIsPending(Exec(l, acts), i);
  }

  // ------------------------------------------------------------- doomed: the count never reaches zero

  /** An enqueue that is counted, has not seen a full queue, and aims at a queue nobody
      serves: it can only put its message there. */
  predicate Bound(l: Lane, op: nat) {
    && op in l.sends && Busy(l.sends[op]) && l.sends[op].attempt.Trying?
    && var i := l.sends[op].targets[|l.sends[op].took|];
       i < |l.subs| && Dead(l.subs[i])
  }

  ghost predicate Doomed(l: Lane) {
    (exists i :: Stranded(l, i)) || (exists op :: Bound(l, op))
  }

  /** The steps of workers, of Unsubscribe calls under way and of publishes under way. */
  predicate Settling(a: Action) {
    a.OnSend? || a.Unlist? || (a.OnSub? && !a.subMove.BeginCall?)
  }

  predicate AllSettling(acts: seq<Action>) {
    forall i :: 0 <= i < |acts| ==> Settling(acts[i])
  }

  lemma DeadStays(l: Lane, a: Action, i: nat)
    requires Settling(a) && i < |l.subs| && Dead(l.subs[i])
    ensures i < |Step(l, a).subs| && Dead(Step(l, a).subs[i])
  {
  }

  /** A bound enqueue stays bound until its message is in the queue. */
  lemma BoundStays(l: Lane, a: Action, op: nat) returns (i: nat)
    requires Inv(l) && Settling(a) && Bound(l, op)
    ensures Bound(Step(l, a), op) || Stranded(Step(l, a), i)
  {
    var d := l.sends[op];
    i := d.targets[|d.took|];
    assert SubInv(l.subs[i]);
    DeadStays(l, a, i);
    hide Inv, SubInv, Dead, SubStep, Unlisted;
    if a.OnSend? && a.send == op {
      match a.sendMove
      case Push =>
      case SeeFull => assert !Room(l, i) ==> l.subs[i].queue != [];
      case _ =>
    }
  }

  lemma DoomStays(l: Lane, a: Action)
    requires Inv(l) && Settling(a) && Doomed(l)
    ensures Doomed(Step(l, a))
  {
    hide Inv, Step, Stranded, Bound;
    if i :| Stranded(l, i) {
      assert a != OnSub(i, BeginCall);
      StrandedStays(l, a, i);
    } else {
      var op :| Bound(l, op);
      var i := BoundStays(l, a, op);
    }
  }

  lemma DoomedIsPending(l: Lane)
    requires Inv(l) && Doomed(l)
    ensures l.pending > 0
  {
    if i :| Stranded(l, i) {
      StrandedIsPending(l, i);
    } else {
      var op :| Bound(l, op);
      assert op in BusySends(l.sends);
    }
  }

  lemma {:induction false} DoomedForGood(l: Lane, acts: seq<Action>)
    requires Inv(l) && Doomed(l) && AllSettling(acts)
    ensures Inv(Exec(l, acts)) && Doomed(Exec(l, acts))
  {
    hide Inv, Step, Doomed;
    if acts != [] {
      var before := acts[..|acts| - 1];
      DoomedForGood(l, before);
      StepKeeps(Exec(l, before), acts[|acts| - 1]);
      DoomStays(Exec(l, before), acts[|acts| - 1]);
    }
  }

  // ------------------------------------------------------------- otherwise it can be brought to zero

  /** Pending messages, those not yet in a queue counted twice. */
  function Work(l: Lane): int {
    l.pending + |BusySends(l.sends)|
  }

  /** A run of settling steps that gets closer to zero without dooming anything. */
  ghost predicate Closer(l: Lane, acts: seq<Action>) {
    && AllSettling(acts)
    && var r := Exec(l, acts); Inv(r) && !Doomed(r) && Work(r) < Work(l)
  }

  lemma RunOne(l: Lane, a: Action)
    requires Inv(l)
    ensures Exec(l, [a]) == Step(l, a) && Inv(Step(l, a))
  {
    hide Inv, Step;
    ExecNone(l);
    ExecSnoc(l, [], a);
    assert [] + [a] == [a];
    hide Exec;
    StepKeeps(l, a);
  }

  lemma RunTwo(l: Lane, a: Action, b: Action)
    requires Inv(l)
    ensures Exec(l, [a, b]) == Step(Step(l, a), b) && Inv(Step(Step(l, a), b)) && Inv(Step(l, a))
  {
    hide Inv, Step, Exec;
    RunOne(l, a);
    ExecSnoc(l, [a], b);
    assert [a] + [b] == [a, b];
    StepKeeps(Step(l, a), b);
  }

  lemma RunThree(l: Lane, a: Action, b: Action, c: Action)
    requires Inv(l)
    ensures Exec(l, [a, b, c]) == Step(Step(Step(l, a), b), c) && Inv(Step(Step(Step(l, a), b), c))
  {
    hide Inv, Step, Exec;
    RunTwo(l, a, b);
    ExecSnoc(l, [a, b], c);
    assert [a, b] + [c] == [a, b, c];
    StepKeeps(Step(Step(l, a), b), c);
  }

  /** A step on one subscription that leaves it served dooms nothing. */
  lemma ServedIsNotDoomed(l: Lane, r: Lane, i: nat)
    requires !Doomed(l) && i < |l.subs| == |r.subs| && r.sends == l.sends
    requires !Dead(r.subs[i]) && forall k :: 0 <= k < |l.subs| && k != i ==> r.subs[k] == l.subs[k]
    ensures !Doomed(r)
  {
    hide Dead;
    forall k ensures !Stranded(r, k) { assert !Stranded(l, k); }
    forall op ensures !Bound(r, op) { assert !Bound(l, op); }
  }

  /** A publish that goes on to its next target leaves nothing doomed, when the queue it
      put its message into, if it did, is served. */
  lemma SentIsNotDoomed(l: Lane, r: Lane, op: nat, d: Send)
    requires !Doomed(l) && |r.subs| == |l.subs| && r.sends == l.sends[op := d] && !d.attempt.Trying?
    requires forall k :: 0 <= k < |l.subs| ==> r.subs[k] == l.subs[k] || !Dead(r.subs[k])
    ensures !Doomed(r)
  {
    hide Dead;
    forall k ensures !Stranded(r, k) { assert !Stranded(l, k); }
    forall o ensures !Bound(r, o) { assert !Bound(l, o); }
  }

  /** One subscription with one item less to count, in place of what it was. */
  lemma LessOnSub(l: Lane, acts: seq<Action>, i: nat)
    requires Inv(l) && !Doomed(l) && AllSettling(acts) && i < |l.subs|
    requires var r := Exec(l, acts);
             && Inv(r) && r.sends == l.sends && r.pending == l.pending - 1
             && |r.subs| == |l.subs| && !Dead(r.subs[i])
             && forall k :: 0 <= k < |l.subs| && k != i ==> r.subs[k] == l.subs[k]
    ensures Closer(l, acts)
  {
    hide Inv, Exec, Doomed, Dead, BusySends;
    ServedIsNotDoomed(l, Exec(l, acts), i);
  }

  lemma SubFacts(l: Lane, i: nat)
    requires Inv(l) && i < |l.subs|
    ensures var s := l.subs[i];
            && |s.swept| <= s.sweepers && (s.worker.Exited? ==> s.closed) && (s.closed && s.listed ==> 0 < s.calls)
  {
    assert SubInv(l.subs[i]);
  }

  /** A handler returns, or a sweeper counts off what it took. */
  lemma FinishOne(l: Lane, i: nat) returns (acts: seq<Action>)
    requires Inv(l) && !Doomed(l) && i < |l.subs| && (l.subs[i].worker.Handling? || l.subs[i].swept != [])
    ensures Closer(l, acts)
  {
    SubFacts(l, i);
    var a := if l.subs[i].worker.Handling? then OnSub(i, WorkerDone) else OnSub(i, SweepCount);
    acts := [a];
    RunOne(l, a);
    hide Inv, Exec, Doomed;
    LessOnSub(l, acts, i);
  }

  /** A living worker takes the next item and handles it. */
  lemma HandleOne(l: Lane, i: nat) returns (acts: seq<Action>)
    requires Inv(l) && !Doomed(l) && i < |l.subs| && l.subs[i].worker.Idle? && l.subs[i].queue != []
    ensures Closer(l, acts)
  {
    var a, b := OnSub(i, WorkerTake), OnSub(i, WorkerDone);
    acts := [a, b];
    RunTwo(l, a, b);
    HandleSteps(l, i);
    hide Inv, Exec, Doomed, Step;
    LessOnSub(l, acts, i);
  }

  lemma HandleSteps(l: Lane, i: nat)
    requires i < |l.subs| && l.subs[i].worker.Idle? && l.subs[i].queue != []
    ensures var r := Step(Step(l, OnSub(i, WorkerTake)), OnSub(i, WorkerDone));
            && r.sends == l.sends && r.pending == l.pending - 1 && |r.subs| == |l.subs| && r.subs[i].worker.Idle?
            && forall k :: 0 <= k < |l.subs| && k != i ==> r.subs[k] == l.subs[k]
  {
  }

  /** A sweeper takes the next item and counts it off. */
  lemma SweepOne(l: Lane, i: nat) returns (acts: seq<Action>)
    requires Inv(l) && !Doomed(l) && i < |l.subs|
    requires l.subs[i].queue != [] && l.subs[i].swept == [] && l.subs[i].sweepers > 0
    ensures Closer(l, acts)
  {
    var a, b := OnSub(i, SweepTake), OnSub(i, SweepCount);
    acts := [a, b];
    RunTwo(l, a, b);
    SweepSteps(l, i);
    hide Inv, Exec, Doomed, Step;
    LessOnSub(l, acts, i);
  }

  lemma SweepSteps(l: Lane, i: nat)
    requires i < |l.subs| && l.subs[i].queue != [] && l.subs[i].swept == [] && l.subs[i].sweepers > 0
    ensures var r := Step(Step(l, OnSub(i, SweepTake)), OnSub(i, SweepCount));
            && r.sends == l.sends && r.pending == l.pending - 1 && |r.subs| == |l.subs| && r.subs[i].sweepers > 0
            && forall k :: 0 <= k < |l.subs| && k != i ==> r.subs[k] == l.subs[k]
  {
  }

  /** An Unsubscribe call under way gets to its sweep. */
  lemma GetToSweep(l: Lane, i: nat) returns (acts: seq<Action>)
    requires Inv(l) && !Doomed(l) && i < |l.subs| && l.subs[i].calls > 0 && l.subs[i].worker.Exited?
    ensures AllSettling(acts)
    ensures var r := Exec(l, acts);
            && Inv(r) && !Doomed(r) && Work(r) == Work(l) && |r.subs| == |l.subs|
            && var s := l.subs[i];
               r.subs[i] == s.(listed := false, calls := s.calls - 1, sweepers := s.sweepers + 1)
  {
    SubFacts(l, i);
    var a, b := Unlist(i), OnSub(i, StartSweep);
    acts := [a, b];
    RunTwo(l, a, b);
    SweepBegins(l, i);
    hide Inv, Exec, Doomed, Step;
    ServedIsNotDoomed(l, Step(Step(l, a), b), i);
  }

  lemma SweepBegins(l: Lane, i: nat)
    requires i < |l.subs| && l.subs[i].calls > 0 && l.subs[i].closed
    ensures var s, r := l.subs[i], Step(Step(l, Unlist(i)), OnSub(i, StartSweep));
            && r.sends == l.sends && r.pending == l.pending && |r.subs| == |l.subs|
            && r.subs[i] == s.(listed := false, calls := s.calls - 1, sweepers := s.sweepers + 1)
            && forall k :: 0 <= k < |l.subs| && k != i ==> r.subs[k] == l.subs[k]
  {
    hide Unlisted;
  }

  /** A queue with something in it loses an item: its worker lives, or an Unsubscribe call
      is under way. */
  lemma EmptyOne(l: Lane, i: nat) returns (acts: seq<Action>)
    requires Inv(l) && !Doomed(l) && i < |l.subs| && l.subs[i].queue != []
    requires l.subs[i].swept == [] && !l.subs[i].worker.Handling?
    ensures Closer(l, acts)
  {
    if l.subs[i].worker.Idle? {
      acts := HandleOne(l, i);
    } else if l.subs[i].sweepers > 0 {
      acts := SweepOne(l, i);
    } else {
      assert !Stranded(l, i);
      acts := GetToSweep(l, i);
      hide Inv, Doomed, Work;
      var rest := SweepOne(Exec(l, acts), i);
      ExecConcat(l, acts, rest);
      acts := acts + rest;
    }
  }

  lemma SendOver(l: Lane, acts: seq<Action>, op: nat, d: Send)
    requires Inv(l) && !Doomed(l) && AllSettling(acts) && op in l.sends && Busy(l.sends[op])
    requires var r := Exec(l, acts);
             && Inv(r) && r.sends == l.sends[op := d] && !Busy(d) && d.attempt.NotBegun? && r.pending <= l.pending
             && |r.subs| == |l.subs| && forall k :: 0 <= k < |l.subs| ==> r.subs[k] == l.subs[k] || !Dead(r.subs[k])
    ensures Closer(l, acts)
  {
    hide Inv, Exec, Doomed, Dead;
    SentIsNotDoomed(l, Exec(l, acts), op, d);
    BusyChange(l.sends, op, d);
    hide BusySends;
    var busy := BusySends(l.sends);
    assert |busy - {op}| == |busy| - 1;
  }

  lemma LeaveOne(l: Lane, op: nat) returns (acts: seq<Action>)
    requires Inv(l) && !Doomed(l) && op in l.sends && Busy(l.sends[op])
    requires l.sends[op].attempt.Leaving? || l.sends[op].attempt.Blocked?
    ensures Closer(l, acts)
  {
    var d := l.sends[op];
    var d' := d.(took := d.took + [false], attempt := NotBegun, failed := true);
    if d.attempt.Leaving? {
      acts := [OnSend(op, CountOff)];
      RunOne(l, acts[0]);
    } else {
      acts := [OnSend(op, GiveUp), OnSend(op, CountOff)];
      RunTwo(l, OnSend(op, GiveUp), OnSend(op, CountOff));
      LeaveSteps(l, op);
    }
    hide Inv, Exec, Doomed, Closer;
    SendOver(l, acts, op, d');
  }

  lemma PushOne(l: Lane, op: nat) returns (acts: seq<Action>)
    requires Inv(l) && !Doomed(l) && op in l.sends && Busy(l.sends[op]) && l.sends[op].attempt.Trying?
    requires Room(l, l.sends[op].targets[|l.sends[op].took|])
    ensures Closer(l, acts)
  {
    var d := l.sends[op];
    var i := d.targets[|d.took|];
    assert !Bound(l, op);
    acts := [OnSend(op, Push)];
    RunOne(l, OnSend(op, Push));
    hide Inv, Exec, Doomed, Closer;
    SendOver(l, acts, op, d.(took := d.took + [true], attempt := NotBegun, delivered := d.delivered + 1));
  }

  lemma RefuseOne(l: Lane, op: nat) returns (acts: seq<Action>)
    requires Inv(l) && !Doomed(l) && op in l.sends && Busy(l.sends[op]) && l.sends[op].attempt.Trying?
    requires !Room(l, l.sends[op].targets[|l.sends[op].took|])
    ensures Closer(l, acts)
  {
    var d := l.sends[op];
    var d' := d.(took := d.took + [false], attempt := NotBegun, failed := true);
    var a, b, c := OnSend(op, SeeFull), OnSend(op, GiveUp), OnSend(op, CountOff);
    acts := [a, b, c];
    RunThree(l, a, b, c);
    RefuseSteps(l, op);
    hide Inv, Exec, Doomed, Closer, Step, Room;
    SendOver(l, acts, op, d');
  }

  lemma RefuseSteps(l: Lane, op: nat)
    requires op in l.sends && Busy(l.sends[op]) && l.sends[op].attempt.Trying?
    requires !Room(l, l.sends[op].targets[|l.sends[op].took|])
    ensures var d := l.sends[op];
            Step(Step(Step(l, OnSend(op, SeeFull)), OnSend(op, GiveUp)), OnSend(op, CountOff)) ==
            l.(sends := l.sends[op := d.(took := d.took + [false], attempt := NotBegun, failed := true)],
            pending := l.pending - 1)
  {
    var d := l.sends[op];
    var l1 := Step(l, OnSend(op, SeeFull));
    assert l1 == l.(sends := l.sends[op := d.(attempt := Blocked)]);
    LeaveSteps(l1, op);
    hide Step;
    var d' := d.(took := d.took + [false], attempt := NotBegun, failed := true);
    assert l.sends[op := d.(attempt := Blocked)][op := d'] == l.sends[op := d'];
  }

  lemma LeaveSteps(l: Lane, op: nat)
    requires op in l.sends && Busy(l.sends[op]) && l.sends[op].attempt.Blocked?
    ensures var d := l.sends[op];
            Step(Step(l, OnSend(op, GiveUp)), OnSend(op, CountOff)) ==
            l.(sends := l.sends[op := d.(took := d.took + [false], attempt := NotBegun, failed := true)],
            pending := l.pending - 1)
  {
    var d := l.sends[op];
    var d' := d.(took := d.took + [false], attempt := NotBegun, failed := true);
    assert l.sends[op := d.(attempt := Leaving)][op := d'] == l.sends[op := d'];
  }

  lemma GetCloser(l: Lane) returns (acts: seq<Action>)
    requires Inv(l) && !Doomed(l) && l.pending > 0
    ensures Closer(l, acts)
  {
    ZeroIffQuiet(l);
    hide Inv, Doomed, Closer;
    if op :| op in l.sends && Busy(l.sends[op]) {
      if l.sends[op].attempt.Trying? {
        if Room(l, l.sends[op].targets[|l.sends[op].took|]) {
          acts := PushOne(l, op);
        } else {
          acts := RefuseOne(l, op);
        }
      } else {
        acts := LeaveOne(l, op);
      }
    } else {
      var i :| 0 <= i < |l.subs| && (l.subs[i].queue != [] || l.subs[i].worker.Handling? || l.subs[i].swept != []);
      if l.subs[i].worker.Handling? || l.subs[i].swept != [] {
        acts := FinishOne(l, i);
      } else {
        acts := EmptyOne(l, i);
      }
    }
  }

  lemma {:induction false} BringToZero(l: Lane) returns (acts: seq<Action>)
    requires Inv(l) && !Doomed(l)
    ensures AllSettling(acts) && Exec(l, acts).pending <= 0
    decreases Work(l)
  {
    acts := [];
    ExecNone(l);
    if l.pending > 0 {
      acts := GetCloser(l);
      hide Inv, Doomed;
      var rest := BringToZero(Exec(l, acts));
      ExecConcat(l, acts, rest);
      acts := acts + rest;
    }
  }

  /** From any reachable state the workers, the Unsubscribe calls under way and the
      publishes under way can bring the count to zero exactly when no message is stranded
      and no enqueue is bound to strand one. Otherwise it stays positive, and quiesce does
      not return without error, until Unsubscribe is called once more. */
  lemma QuiesceCanEndIff(queueSize: int, acts: seq<Action>)
    ensures var l := Exec(New(queueSize), acts);
            (exists more :: AllSettling(more) && Exec(l, more).pending <= 0) <==> !Doomed(l)
  {
    var l := Exec(New(queueSize), acts);
    ReachableInv(queueSize, acts);
    hide Inv, Doomed, AllSettling;
    if !Doomed(l) {
      var more := BringToZero(l);
      assert AllSettling(more) && Exec(l, more).pending <= 0;
    } else {
      forall more | AllSettling(more) ensures Exec(l, more).pending > 0 {
        DoomedForGood(l, more);
        DoomedIsPending(Exec(l, more));
      }
    }
  }

  // ------------------------------------------------------------- it happens

  const LATE := NewSend("s", 7, [0])

  /** A publish has picked its target. */
  lemma PublishPicksTarget() returns (acts: seq<Action>)
    ensures var l := Exec(New(1), acts); l.subs == [NewSub("s", 1)] && l.sends == map[0 := LATE]
  {
    var l := New(1);
    acts := [];
    hide Exec;
    ExecNone(l);
    ExecSnoc(l, acts, Subscribe("s"));
    acts := acts + [Subscribe("s")];
    assert [] + [0] == [0];
    ExecSnoc(l, acts, Publish("s", 7, true));
    acts := acts + [Publish("s", 7, true)];
  }

  /** Then Unsubscribe runs from start to end. */
  lemma UnsubscribeReturns() returns (acts: seq<Action>)
    ensures var l := Exec(New(1), acts);
            l.subs == [NewSub("s", 1).(closed := true, listed := false, worker := Exited)] && l.sends == map[0 := LATE]
  {
    var l := New(1);
    acts := PublishPicksTarget();
    hide Exec, Unlisted;
    ExecSnoc(l, acts, OnSub(0, BeginCall));
    acts := acts + [OnSub(0, BeginCall)];
    ExecSnoc(l, acts, OnSub(0, CloseDone));
    acts := acts + [OnSub(0, CloseDone)];
    ExecSnoc(l, acts, OnSub(0, WorkerExit));
    acts := acts + [OnSub(0, WorkerExit)];
    ExecSnoc(l, acts, Unlist(0));
    acts := acts + [Unlist(0)];
    ExecSnoc(l, acts, OnSub(0, StartSweep));
    acts := acts + [OnSub(0, StartSweep)];
    ExecSnoc(l, acts, OnSub(0, EndSweep));
    acts := acts + [OnSub(0, EndSweep)];
  }

  /** A publish that has picked its targets puts its message into the queue after
      Unsubscribe has emptied it and returned. */
  lemma LateMessageIsStranded() returns (acts: seq<Action>)
    ensures Stranded(Exec(New(1), acts), 0)
  {
    var l := New(1);
    acts := UnsubscribeReturns();
    hide Exec;
    ExecSnoc(l, acts, OnSend(0, BeginEnqueue));
    acts := acts + [OnSend(0, BeginEnqueue)];
    assert Exec(l, acts).sends == map[0 := LATE.(attempt := Trying)];
    ExecSnoc(l, acts, OnSend(0, Push));
    acts := acts + [OnSend(0, Push)];
  }

  // ------------------------------------------------------------- a full queue

  /** One message fills the queue. */
  lemma FillQueue(subject: string) returns (acts: seq<Action>)
    ensures var l := Exec(New(1), acts);
            && l.subs == [NewSub(subject, 1).(queue := [1], accepted := [1])] && l.sends == map[] && l.nextSend == 1
            && l.lists == map[subject := [0]] && |l.results| == 1
  {
    var l := New(1);
    var d := NewSend(subject, 1, [0]);
    acts := [];
    hide Exec;
    ExecNone(l);
    ExecSnoc(l, acts, Subscribe(subject));
    acts := acts + [Subscribe(subject)];
    assert [] + [0] == [0];
    ExecSnoc(l, acts, Publish(subject, 1, true));
    acts := acts + [Publish(subject, 1, true)];
    assert Exec(l, acts).sends == map[0 := d];
    ExecSnoc(l, acts, OnSend(0, BeginEnqueue));
    acts := acts + [OnSend(0, BeginEnqueue)];
    assert Exec(l, acts).sends == map[0 := d.(attempt := Trying)];
    ExecSnoc(l, acts, OnSend(0, Push));
    acts := acts + [OnSend(0, Push)];
    assert [] + [1] == [1] && [] + [true] == [true];
    assert Exec(l, acts).sends == map[0 := d.(took := [true], delivered := 1)];
    ExecSnoc(l, acts, OnSend(0, EndSend));
    acts := acts + [OnSend(0, EndSend)];
    assert map[0 := d.(took := [true], delivered := 1)] - {0} == map[];
  }

  /** The next publish finds it full. */
  lemma PublishToFull(subject: string) returns (acts: seq<Action>)
    ensures var l := Exec(New(1), acts);
            && l.sends == map[1 := NewSend(subject, 2, [0]).(attempt := Trying)] && |l.results| == 1 && !Room(l, 0)
  {
    var l := New(1);
    acts := FillQueue(subject);
    hide Exec;
    ExecSnoc(l, acts, Publish(subject, 2, true));
    acts := acts + [Publish(subject, 2, true)];
    assert Exec(l, acts).sends == map[1 := NewSend(subject, 2, [0])];
    ExecSnoc(l, acts, OnSend(1, BeginEnqueue));
    acts := acts + [OnSend(1, BeginEnqueue)];
    assert Exec(l, acts).sends == map[1 := NewSend(subject, 2, [0]).(attempt := Trying)];
  }

  /** It waits for room, gives up and reports that its target missed the message. */
  lemma FullQueueFailsPublish(subject: string) returns (acts: seq<Action>)
    ensures var l := Exec(New(1), acts);
            |l.results| == 2 && l.results[1] == Send(subject, 2, [0], [false], NotBegun, 0, true)
  {
    var l := New(1);
    acts := PublishToFull(subject);
    RefuseSteps(Exec(l, acts), 1);
    hide Exec, Step;
    ExecSnoc(l, acts, OnSend(1, SeeFull));
    acts := acts + [OnSend(1, SeeFull)];
    ExecSnoc(l, acts, OnSend(1, GiveUp));
    acts := acts + [OnSend(1, GiveUp)];
    ExecSnoc(l, acts, OnSend(1, CountOff));
    acts := acts + [OnSend(1, CountOff)];
    assert [] + [false] == [false];
    ReturnsFailed(Exec(l, acts), subject);
    ExecSnoc(l, acts, OnSend(1, EndSend));
    acts := acts + [OnSend(1, EndSend)];
  }

  lemma ReturnsFailed(l: Lane, subject: string)
    requires 1 in l.sends && l.sends[1] == Send(subject, 2, [0], [false], NotBegun, 0, true)
    ensures Step(l, OnSend(1, EndSend)).results == l.results + [l.sends[1]]
  {
  }
}

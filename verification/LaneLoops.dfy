/** The lane as the source writes it: an object with its subscription lists, queues and
    counter. The loops of publish and Unsubscribe, with nothing else going on, are proved
    against the steps of LaneMachine. */
module LaneLoops {
  import opened LaneMachine

  // ------------------------------------------------------------- a publish with nothing else going on

  /** One target: the message goes in when there is room, and a full queue stays full. */
  function TryTarget(l: Lane, op: nat): (r: Lane)
    requires op in l.sends && SendInv(l.sends[op]) && l.sends[op].attempt.NotBegun?
    requires |l.sends[op].took| < |l.sends[op].targets|
    ensures op in r.sends && r.sends[op].attempt.NotBegun? && r.sends[op].targets == l.sends[op].targets
    ensures |r.sends[op].took| == |l.sends[op].took| + 1
  {
    var begun := StepSend(l, op, BeginEnqueue);
    if Room(l, l.sends[op].targets[|l.sends[op].took|]) then StepSend(begun, op, Push)
    else StepSend(StepSend(StepSend(begun, op, SeeFull), op, GiveUp), op, CountOff)
  }

  function TargetMoves(l: Lane, op: nat): seq<Action>
    requires op in l.sends && |l.sends[op].took| < |l.sends[op].targets|
  {
    if Room(l, l.sends[op].targets[|l.sends[op].took|])
    then [OnSend(op, BeginEnqueue), OnSend(op, Push)]
    else [OnSend(op, BeginEnqueue), OnSend(op, SeeFull), OnSend(op, GiveUp), OnSend(op, CountOff)]
  }

  /** Trying a target is two or four steps of the machine. */
  lemma TryTargetIsARun(l0: Lane, acts: seq<Action>, l: Lane, op: nat)
    requires Exec(l0, acts) == l
    requires op in l.sends && SendInv(l.sends[op]) && l.sends[op].attempt.NotBegun?
    requires |l.sends[op].took| < |l.sends[op].targets|
    ensures Exec(l0, acts + TargetMoves(l, op)) == TryTarget(l, op)
  {
    hide Exec;
    var a1 := OnSend(op, BeginEnqueue);
    ExecSnoc(l0, acts, a1);
    if Room(l, l.sends[op].targets[|l.sends[op].took|]) {
      ExecSnoc(l0, acts + [a1], OnSend(op, Push));
      assert acts + TargetMoves(l, op) == acts + [a1] + [OnSend(op, Push)];
    } else {
      ExecSnoc(l0, acts + [a1], OnSend(op, SeeFull));
      ExecSnoc(l0, acts + [a1] + [OnSend(op, SeeFull)], OnSend(op, GiveUp));
      ExecSnoc(l0, acts + [a1] + [OnSend(op, SeeFull)] + [OnSend(op, GiveUp)], OnSend(op, CountOff));
      assert acts + TargetMoves(l, op) ==
             acts + [a1] + [OnSend(op, SeeFull)] + [OnSend(op, GiveUp)] + [OnSend(op, CountOff)];
    }
  }

  /** What a target that had room, or had none, gets out of it. */
  lemma TryTargetEffect(l: Lane, op: nat)
    requires op in l.sends && SendInv(l.sends[op]) && l.sends[op].attempt.NotBegun?
    requires |l.sends[op].took| < |l.sends[op].targets|
    ensures var d := l.sends[op]; var i := d.targets[|d.took|]; var r := TryTarget(l, op);
            && SendInv(r.sends[op])
            && r.lists == l.lists && r.queueSize == l.queueSize && r.nextSend == l.nextSend && r.results == l.results
            && (Room(l, i) ==> r.subs == l.subs[i := PushItem(l.subs[i], d.item)] && r.pending == l.pending + 1
                               && r.sends == l.sends[op := d.(took := d.took + [true], delivered := d.delivered + 1)])
            && (!Room(l, i) ==> r.subs == l.subs && r.pending == l.pending
                                && r.sends == l.sends[op := d.(took := d.took + [false], failed := true)])
  {
    var d := l.sends[op];
    SendMoveInv(d, true);
    SendMoveInv(d, false);
    hide Count;
  }

  function SweptOne(s: Sub): Sub
    requires s.queue != []
  {
    s.(queue := s.queue[1..], taken := s.taken + [Taken(s.queue[0], false)])
  }

  /** Discarding an item is two steps of the machine. */
  lemma SweepIsARun(l0: Lane, acts: seq<Action>, l: Lane, i: nat)
    requires Exec(l0, acts) == l && i < |l.subs|
    requires l.subs[i].sweepers > 0 && l.subs[i].swept == [] && l.subs[i].queue != []
    ensures Exec(l0, acts + [OnSub(i, SweepTake)] + [OnSub(i, SweepCount)]) ==
            l.(subs := l.subs[i := SweptOne(l.subs[i])], pending := l.pending - 1)
  {
    hide Exec;
    ExecSnoc(l0, acts, OnSub(i, SweepTake));
    ExecSnoc(l0, acts + [OnSub(i, SweepTake)], OnSub(i, SweepCount));
    var s := l.subs[i];
    assert ([] + [s.queue[0]])[1..] == [];
    var s1 := SubStep(s, SweepTake).0;
    assert SubStep(s1, SweepCount).0 == SweptOne(s);
    assert l.subs[i := s1][i := SweptOne(s)] == l.subs[i := SweptOne(s)];
  }

  class LocalLane {
    var queueSize: nat
    var subs: seq<Sub>
    var lists: map<string, seq<nat>>
    var pending: int
    ghost var sends: map<nat, Send>
    ghost var nextSend: nat
    ghost var results: seq<Send>

    ghost function View(): Lane
      reads this
    {
      Lane(queueSize, subs, lists, sends, nextSend, pending, results)
    }

    constructor (size: int)
      ensures View() == New(size) && queueSize == if size > 0 then size else 1024
    {
      queueSize := if size <= 0 then DEFAULT_QUEUE_SIZE else size;
      subs, lists, pending := [], map[], 0;
      sends, nextSend, results := map[], 0, [];
    }

    method Subscribe(subject: string) returns (i: nat)
      modifies this`subs, this`lists
      ensures View() == Step(old(View()), LaneMachine.Subscribe(subject)) && i == |old(subs)| < |subs|
      ensures subs[i].subject == subject && subs[i].capacity == queueSize && subs[i].queue == []
    {
      i := |subs|;
      subs := subs + [NewSub(subject, queueSize)];
      lists := lists[subject := (if subject in lists then lists[subject] else []) + [i]];
    }

    /** The list without one subscription, in the same order. */
    method KeepOthers(list: seq<nat>, i: nat) returns (kept: seq<nat>)
      ensures kept == Without(list, i)
    {
      kept := [];
      for k := 0 to |list|
        invariant kept + Without(list[k..], i) == Without(list, i)
      {
        assert list[k..][1..] == list[k + 1..];
        if list[k] != i {
          kept := kept + [list[k]];
        }
      }
    }

    /** Takes a subscription off its subject's list. */
    method RemoveFromList(i: nat)
      requires i < |subs| && subs[i].closed
      modifies this`subs, this`lists
      ensures View() == Step(old(View()), Unlist(i))
    {
      var subject := subs[i].subject;
      var kept := KeepOthers(if subject in lists then lists[subject] else [], i);
      hide Without;
      if kept == [] {
        lists := lists - {subject};
      } else {
        lists := lists[subject := kept];
      }
      subs := subs[i := subs[i].(listed := false)];
    }

    /** Discards what is queued on a subscription, one item at a time. */
    method Discard(i: nat) returns (ghost acts: seq<Action>)
      requires i < |subs| && subs[i].sweepers > 0 && subs[i].swept == []
      modifies this`subs, this`pending
      ensures Exec(old(View()), acts) == View()
      ensures |subs| == |old(subs)| && subs[i].queue == []
      ensures subs[i] == old(subs)[i].(queue := [], taken := subs[i].taken)
      ensures pending == old(pending) - |old(subs)[i].queue|
    {
      ghost var l := View();
      acts := [];
      ExecNone(l);
      hide Exec;
      while subs[i].queue != []
        invariant |subs| == |old(subs)| && subs[i] == old(subs)[i].(queue := subs[i].queue, taken := subs[i].taken)
        invariant pending - |subs[i].queue| == old(pending) - |old(subs)[i].queue|
        invariant Exec(l, acts) == View()
        decreases |subs[i].queue|
      {
        SweepIsARun(l, acts, View(), i);
        acts := acts + [OnSub(i, SweepTake)] + [OnSub(i, SweepCount)];
        subs := subs[i := SweptOne(subs[i])];
        pending := pending - 1;
      }
    }

    /** Offers a publish's message to each of its targets. The first failure does not stop
        the rest. */
    method Offer(ghost op: nat, ghost subject: string, targets: seq<nat>, item: nat, ghost l: Lane,
                 ghost before: seq<Action>)
      returns (delivered: nat, failed: bool, ghost acts: seq<Action>)
      requires Exec(l, before) == View() && op in sends && sends[op] == NewSend(subject, item, targets)
      modifies this`subs, this`pending, this`sends
      ensures Exec(l, acts) == View() && op in sends
      ensures var d := sends[op];
              && d == Send(subject, item, targets, d.took, NotBegun, delivered, failed) && |d.took| == |targets|
              && SendInv(d)
    {
      hide Exec;
      delivered, failed, acts := 0, false, before;
      ghost var took: seq<bool> := [];
      for k := 0 to |targets|
        invariant Exec(l, acts) == View()
        invariant op in sends && sends[op] == Send(subject, item, targets, took, NotBegun, delivered, failed)
        invariant SendInv(sends[op]) && |took| == k
      {
        var i := targets[k];
        TryTargetIsARun(l, acts, View(), op);
        TryTargetEffect(View(), op);
        hide TryTarget, TargetMoves, SendInv;
        ghost var next := TryTarget(View(), op);
        acts := acts + TargetMoves(View(), op);
        if i < |subs| && |subs[i].queue| < subs[i].capacity {
          subs := subs[i := PushItem(subs[i], item)];
          pending := pending + 1;
          delivered := delivered + 1;
          took := took + [true];
        } else {
          failed := true;
          took := took + [false];
        }
        sends := next.sends;
        assert View() == next;
      }
    }

    /** Offers the message to every subscription of the subject, in order, and reports how
        many took it. */
    method Publish(subject: string, item: nat, encodes: bool) returns (delivered: nat, failed: bool,
                   ghost acts: seq<Action>)
      requires nextSend !in sends
      modifies this
      ensures Exec(old(View()), acts) == View()
      ensures |results| == |old(results)| + 1 && ResultInv(results[|old(results)|])
      ensures var d := results[|old(results)|];
              && d.targets == ListOf(old(lists), subject) && d.item == item
              && d.delivered == delivered && d.failed == failed
    {
      var targets := if subject in lists then lists[subject] else [];
      delivered, failed := 0, false;
      ghost var l := View();
      ExecNone(l);
      hide Exec;
      ExecSnoc(l, [], LaneMachine.Publish(subject, item, encodes));
      acts := [] + [LaneMachine.Publish(subject, item, encodes)];
      if targets == [] {
        results := results + [NewSend(subject, item, [])];
        return;
      }
      if !encodes {
        failed := true;
        results := results + [NewSend(subject, item, targets).(failed := true)];
        return;
      }
      ghost var op := nextSend;
      sends := sends[op := NewSend(subject, item, targets)];
      nextSend := nextSend + 1;
      delivered, failed, acts := Offer(op, subject, targets, item, l, acts);
      CountBound(sends[op].took);
      ExecSnoc(l, acts, OnSend(op, EndSend));
      acts := acts + [OnSend(op, EndSend)];
      results := results + [sends[op]];
      sends := sends - {op};
    }
  }
}

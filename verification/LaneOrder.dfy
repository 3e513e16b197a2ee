/** Order on the lane: each subscription takes a subject's messages in the order they were
    published. */
module LaneOrder {
  import opened LaneMachine

  /** The messages published on a subject, in order, whether or not anyone took them. */
  function PublishedOn(acts: seq<Action>, subject: string): seq<nat> {
    if acts == [] then []
    else
      var a := acts[|acts| - 1];
      PublishedOn(acts[..|acts| - 1], subject) + if a.Publish? && a.subject == subject then [a.item] else []
  }

  /** `a` is `b` with some elements left out. */
  predicate Sublist(a: seq<nat>, b: seq<nat>)
    decreases |b|
  {
    || a == []
    || (b != [] &&
        ((a[|a| - 1] == b[|b| - 1] && Sublist(a[..|a| - 1], b[..|b| - 1])) || Sublist(a, b[..|b| - 1])))
  }

  lemma SublistMore(a: seq<nat>, b: seq<nat>, x: nat)
    requires Sublist(a, b)
    ensures Sublist(a, b + [x]) && Sublist(a + [x], b + [x])
  {
    assert (b + [x])[..|b|] == b && (a + [x])[..|a|] == a;
  }

  /** Publishes on `subject` come one at a time. */
  predicate OneAtATime(l: Lane, acts: seq<Action>, subject: string) {
    acts != [] ==>
      var before, a := acts[..|acts| - 1], acts[|acts| - 1];
      && OneAtATime(l, before, subject)
      && (a.Publish? && a.subject == subject ==> Idle(Exec(l, before).sends, subject))
  }

  predicate Idle(sends: map<nat, Send>, subject: string) {
    forall op :: op in sends ==> sends[op].subject != subject
  }

  // ------------------------------------------------------------- where publishes aim

  predicate Aims(subs: seq<Sub>, d: Send) {
    && |d.took| <= |d.targets| && Ascending(d.targets)
    && forall k :: 0 <= k < |d.targets| ==> d.targets[k] < |subs| && subs[d.targets[k]].subject == d.subject
  }

  predicate AllAim(subs: seq<Sub>, sends: map<nat, Send>) {
    forall op :: op in sends ==> Aims(subs, sends[op])
  }

  /** Subscriptions come and keep their subject. */
  predicate SameSubjects(subs: seq<Sub>, subs': seq<Sub>) {
    |subs| <= |subs'| && forall i :: 0 <= i < |subs| ==> subs'[i].subject == subs[i].subject
  }

  lemma StepSubjects(l: Lane, a: Action)
    ensures SameSubjects(l.subs, Step(l, a).subs)
  {
  }

  lemma ListAims(l: Lane, subject: string, item: nat)
    requires ListsInv(l.subs, l.lists)
    ensures Aims(l.subs, NewSend(subject, item, ListOf(l.lists, subject)))
  {
    var list := ListOf(l.lists, subject);
    assert ListOk(l.subs, subject, list);
    forall k | 0 <= k < |list| ensures list[k] < |l.subs| && l.subs[list[k]].subject == subject {
      assert list[k] in list;
      assert Belongs(l.subs, subject, list[k]);
    }
  }

  /** What a step of one publish does to the publishes under way. */
  predicate Moved(sends: map<nat, Send>, sends': map<nat, Send>, op: nat) {
    && op in sends && sends'.Keys <= sends.Keys
    && (forall o :: o in sends' && o != op ==> sends'[o] == sends[o])
    && (op in sends' ==>
          var d, d' := sends[op], sends'[op];
          && d'.subject == d.subject && d'.item == d.item && d'.targets == d.targets
          && |d.took| <= |d'.took| <= |d.targets|)
  }

  lemma SendMoves(l: Lane, op: nat, move: SendMove)
    requires op in l.sends && |l.sends[op].took| <= |l.sends[op].targets|
    ensures Moved(l.sends, Step(l, OnSend(op, move)).sends, op)
    ensures !move.Push? ==> Step(l, OnSend(op, move)).subs == l.subs
  {
  }

  lemma SendAims(l: Lane, op: nat, move: SendMove)
    requires op in l.sends && AllAim(l.subs, l.sends)
    ensures AllAim(Step(l, OnSend(op, move)).subs, Step(l, OnSend(op, move)).sends)
  {
    var r := Step(l, OnSend(op, move));
    assert Aims(l.subs, l.sends[op]);
    StepSubjects(l, OnSend(op, move));
    SendMoves(l, op, move);
    hide Step;
    forall o | o in r.sends ensures Aims(r.subs, r.sends[o]) { assert Aims(l.subs, l.sends[o]); }
  }

  lemma OtherAims(subs: seq<Sub>, subs': seq<Sub>, sends: map<nat, Send>)
    requires AllAim(subs, sends) && SameSubjects(subs, subs')
    ensures AllAim(subs', sends)
  {
    forall o | o in sends ensures Aims(subs', sends[o]) { assert Aims(subs, sends[o]); }
  }

  lemma PublishAims(l: Lane, subject: string, item: nat, encodes: bool)
    requires ListsInv(l.subs, l.lists) && AllAim(l.subs, l.sends)
    ensures AllAim(l.subs, StepPublish(l, subject, item, encodes).sends)
  {
    ListAims(l, subject, item);
    hide ListsInv, Aims, ListOf;
  }

  // ------------------------------------------------------------- order on one subject

  /** What a subscription accepted is in publish order, and one that the publish under way
      has yet to offer its message to has accepted none of it. */
  predicate SubOrder(s: Sub, i: nat, sends: map<nat, Send>, subject: string, published: seq<nat>) {
    s.subject == subject ==>
      && Sublist(s.accepted, published)
      && forall op :: op in sends && sends[op].subject == subject && YetToOffer(sends[op], i) ==>
                        published != [] && Sublist(s.accepted, published[..|published| - 1])
  }

  predicate YetToOffer(d: Send, i: nat) {
    exists k :: |d.took| <= k < |d.targets| && d.targets[k] == i
  }

  /** At most one publish on the subject, of the message published last. */
  predicate LastOnly(sends: map<nat, Send>, subject: string, published: seq<nat>) {
    && (forall op :: op in sends && sends[op].subject == subject ==>
                       published != [] && sends[op].item == published[|published| - 1])
    && forall o, p :: o in sends && p in sends && sends[o].subject == sends[p].subject == subject ==> o == p
  }

  predicate InOrder(l: Lane, subject: string, published: seq<nat>) {
    && AllAim(l.subs, l.sends) && LastOnly(l.sends, subject, published)
    && forall i :: 0 <= i < |l.subs| ==> SubOrder(l.subs[i], i, l.sends, subject, published)
  }

  lemma SubPublished(s: Sub, i: nat, sends: map<nat, Send>, subject: string, published: seq<nat>, item: nat)
    requires s.subject == subject ==> Sublist(s.accepted, published)
    ensures SubOrder(s, i, sends, subject, published + [item])
  {
    hide YetToOffer;
    if s.subject == subject {
      SublistMore(s.accepted, published, item);
      assert (published + [item])[..|published|] == published;
    }
  }

  lemma PublishInOrder(l: Lane, subject: string, a: Action, published: seq<nat>)
    requires Inv(l) && InOrder(l, subject, published) && a.Publish?
    requires a.subject == subject ==> Idle(l.sends, subject)
    ensures InOrder(Step(l, a), subject, if a.subject == subject then published + [a.item] else published)
  {
    hide Inv, AllAim, Aims, YetToOffer, Sublist;
    PublishAims(l, a.subject, a.item, a.encodes) by { OrderedLists(l); }
    var r := Step(l, a);
    assert r.subs == l.subs;
    if a.subject == subject {
      forall i | 0 <= i < |l.subs| ensures SubOrder(l.subs[i], i, r.sends, subject, published + [a.item]) {
        assert SubOrder(l.subs[i], i, l.sends, subject, published);
        hide SubOrder;
        SubPublished(l.subs[i], i, r.sends, subject, published, a.item);
      }
      hide SubOrder;
    }
  }

  lemma OrderedLists(l: Lane)
    requires Inv(l)
    ensures ListsInv(l.subs, l.lists)
  {
  }

  lemma SendInOrder(l: Lane, subject: string, op: nat, move: SendMove, published: seq<nat>)
    requires InOrder(l, subject, published) && op in l.sends && !move.Push?
    ensures InOrder(Step(l, OnSend(op, move)), subject, published)
  {
    SendAims(l, op, move);
    assert Aims(l.subs, l.sends[op]);
    SendMoves(l, op, move);
    var r := Step(l, OnSend(op, move));
    hide Step, AllAim, Aims, Sublist;
    forall i | 0 <= i < |l.subs| ensures SubOrder(r.subs[i], i, r.sends, subject, published) {
      assert SubOrder(l.subs[i], i, l.sends, subject, published);
    }
  }

  /** The subscription a message goes to has accepted nothing since it was published. */
  lemma PushInOrder(l: Lane, subject: string, op: nat, published: seq<nat>)
    requires Inv(l) && InOrder(l, subject, published) && op in l.sends
    requires Busy(l.sends[op]) && !l.sends[op].attempt.Leaving? && Room(l, l.sends[op].targets[|l.sends[op].took|])
    ensures InOrder(Step(l, OnSend(op, Push)), subject, published)
  {
    SendAims(l, op, Push);
    var r, d := Step(l, OnSend(op, Push)), l.sends[op];
    var n := |d.took|;
    var t := d.targets[n];
    assert Aims(l.subs, d);
    assert r.subs == l.subs[t := PushItem(l.subs[t], d.item)];
    assert r.sends == l.sends[op := d.(took := d.took + [true], attempt := NotBegun, delivered := d.delivered + 1)];
    hide Inv, AllAim, Step, Sublist;
    assert LastOnly(r.sends, subject, published);
    forall i | 0 <= i < |l.subs| ensures SubOrder(r.subs[i], i, r.sends, subject, published) {
      assert SubOrder(l.subs[i], i, l.sends, subject, published);
      if i == t && d.subject == subject {
        Taken(l.subs[t].accepted, published);
        assert !YetToOffer(r.sends[op], t);
      }
    }
  }

  lemma Taken(accepted: seq<nat>, published: seq<nat>)
    requires published != [] && Sublist(accepted, published[..|published| - 1])
    ensures Sublist(accepted + [published[|published| - 1]], published)
  {
    var before, x := published[..|published| - 1], published[|published| - 1];
    SublistMore(accepted, before, x);
    assert before + [x] == published;
  }

  lemma OtherInOrder(l: Lane, subject: string, a: Action, published: seq<nat>)
    requires InOrder(l, subject, published) && !a.Publish? && !a.OnSend?
    ensures InOrder(Step(l, a), subject, published)
  {
    var r := Step(l, a);
    StepSubjects(l, a);
    OtherAims(l.subs, r.subs, l.sends);
    AcceptsNothing(l, a);
    hide Step, Sublist;
    forall i | 0 <= i < |r.subs| ensures SubOrder(r.subs[i], i, r.sends, subject, published) {
      if i < |l.subs| {
        assert SubOrder(l.subs[i], i, l.sends, subject, published);
      } else {
        NothingIsSublist(published);
        forall op | op in l.sends ensures !YetToOffer(l.sends[op], i) { assert Aims(l.subs, l.sends[op]); }
      }
    }
  }

  lemma AcceptsNothing(l: Lane, a: Action)
    requires !a.Publish? && !a.OnSend?
    ensures var r := Step(l, a);
            && r.sends == l.sends && |l.subs| <= |r.subs|
            && (forall i :: 0 <= i < |l.subs| ==> r.subs[i].accepted == l.subs[i].accepted)
            && forall i :: |l.subs| <= i < |r.subs| ==> r.subs[i].accepted == []
  {
    hide Unlisted, ListOf;
  }

  lemma NothingIsSublist(b: seq<nat>)
    ensures Sublist([], b)
  {
  }

  lemma {:induction false} ReachableInOrder(queueSize: int, acts: seq<Action>, subject: string)
    requires OneAtATime(New(queueSize), acts, subject)
    ensures InOrder(Exec(New(queueSize), acts), subject, PublishedOn(acts, subject))
  {
    if acts != [] {
      var before, a := acts[..|acts| - 1], acts[|acts| - 1];
      var l, published := Exec(New(queueSize), before), PublishedOn(before, subject);
      ReachableInOrder(queueSize, before, subject);
      ReachableInv(queueSize, before);
      hide Inv, InOrder;
      assert published + [] == published;
      match a
      case Publish(_, _, _) => PublishInOrder(l, subject, a, published);
      case OnSend(op, move) =>
        if op in l.sends {
          var d := l.sends[op];
          if !move.Push? {
            SendInOrder(l, subject, op, move, published);
          } else if Busy(d) && !d.attempt.Leaving? && Room(l, d.targets[|d.took|]) {
            PushInOrder(l, subject, op, published);
          }
        }
      case _ => OtherInOrder(l, subject, a, published);
    }
  }

  /** While the publishes on a subject come one at a time, every subscription of the
      subject accepts its messages in the order they were published, over any run; with
      QueuesAreFifo, that is the order they are handled in. */
  lemma AcceptedInPublishOrder(queueSize: int, acts: seq<Action>, subject: string, i: nat)
    requires OneAtATime(New(queueSize), acts, subject)
    requires i < |Exec(New(queueSize), acts).subs| && Exec(New(queueSize), acts).subs[i].subject == subject
    ensures Sublist(Exec(New(queueSize), acts).subs[i].accepted, PublishedOn(acts, subject))
  {
    ReachableInOrder(queueSize, acts, subject);
    var l := Exec(New(queueSize), acts);
    assert SubOrder(l.subs[i], i, l.sends, subject, PublishedOn(acts, subject));
  }
}

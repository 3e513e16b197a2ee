/** The outbox as the source writes it: an object whose regions loop over its queue, and
    the drain loop that calls them. Each method is proved against OutboxState, and the
    drain loop against OutboxLone. */
module OutboxDrain {
  import opened OutboxState
  import opened OutboxMachine
  import opened OutboxLone

  class Outbox {
    var items: seq<Item>
    var max: nat
    var retries: nat
    var ordered: bool
    var draining: bool
    var again: bool
    var againLoud: bool
    var busState: BusState
    var dropped: nat
    var parked: nat
    var drained: nat

    ghost function View(): Box
      reads this
    {
      Box(items, max, retries, ordered, draining, again, againLoud, busState, dropped, parked, drained)
    }

    constructor (maxMessages: int, drainRetries: int)
      ensures View() == NewBox(maxMessages, drainRetries)
      ensures max == (if maxMessages > 0 then maxMessages else 10000)
      ensures retries == (if drainRetries > 0 then drainRetries else 3) && ordered
    {
      items := [];
      max := if maxMessages <= 0 then DEFAULT_MAX_MESSAGES else maxMessages;
      retries := if drainRetries <= 0 then DEFAULT_DRAIN_RETRIES else drainRetries;
      ordered := true;
      draining, again, againLoud := false, false, false;
      busState := BusUnknown;
      dropped, parked, drained := 0, 0, 0;
    }

    method SetConfig(maxMessages: int, drainRetries: int, order: string) returns (ok: bool)
      modifies this`max, this`retries, this`ordered
      ensures ok <==> order in {"", "subject", "none"}
      ensures View() == if ok then Configured(old(View()), maxMessages, drainRetries, order != "none") else old(View())
      ensures ok ==> max == (if maxMessages > 0 then maxMessages else 10000) && (ordered <==> order != "none")
      ensures ok ==> retries == if drainRetries > 0 then drainRetries else 3
    {
      ok := order == "" || order == "subject" || order == "none";
      if ok {
        max := if maxMessages <= 0 then DEFAULT_MAX_MESSAGES else maxMessages;
        retries := if drainRetries <= 0 then DEFAULT_DRAIN_RETRIES else drainRetries;
        ordered := order == "" || order == "subject";
      }
    }

    method HeldLocked(subject: string) returns (held: bool)
      ensures held == Held(items, subject)
    {
      for i := 0 to |items|
        invariant forall j :: 0 <= j < i ==> items[j].subject != subject
      {
        if items[i].subject == subject {
          return true;
        }
      }
      return false;
    }

    method OldestEventLocked() returns (at: nat)
      ensures at == OldestEvent(items)
    {
      at := 0;
      while at < |items| && !items[at].isEvent
        invariant at <= |items|
        invariant forall j :: 0 <= j < at ==> !items[j].isEvent
      {
        at := at + 1;
      }
    }

    method MakeRoom()
      requires 0 < max
      modifies this`items, this`dropped
      ensures items == Evict(old(items), max)
      ensures dropped == old(dropped) + (|old(items)| - |items|)
    {
      while |items| >= max
        invariant Evict(items, max) == Evict(old(items), max)
        invariant dropped + |items| == old(dropped) + |old(items)|
        decreases |items|
      {
        var victim := OldestEventLocked();
        if victim == |items| {
          victim := 0;
        }
        assert victim == Victim(items);
        items := Without(items, victim);
        dropped := dropped + 1;
      }
    }

    method ParkLocked(it: Item)
      requires 0 < max
      modifies this`items, this`dropped, this`parked
      ensures View() == Park(old(View()), it)
    {
      MakeRoom();
      items := items + [it];
      parked := parked + 1;
    }

    method ParkEventLocked(it: Item) returns (ok: bool)
      modifies this`items, this`parked
      ensures ok <==> old(|items|) < max
      ensures View() == ParkEvent(old(View()), it)
    {
      if |items| >= max {
        return false;
      }
      items := items + [it];
      parked := parked + 1;
      return true;
    }

    /** The check and the park are one region: nothing can empty the subject between. */
    method ParkIfHeld(it: Item) returns (held: bool)
      requires 0 < max && !it.isEvent
      modifies this`items, this`dropped, this`parked
      ensures held <==> ordered && Held(old(items), it.subject)
      ensures View() == if held then ParkAny(old(View()), it) else old(View())
    {
      held := false;
      if ordered {
        held := HeldLocked(it.subject);
        if held {
          ParkLocked(it);
        }
      }
    }

    method ParkEventIfHeld(it: Item) returns (held: bool, ok: bool)
      requires 0 < max && it.isEvent
      modifies this`items, this`parked
      ensures held <==> ordered && Held(old(items), it.subject)
      ensures ok <==> held && old(|items|) < max
      ensures View() == if held then ParkAny(old(View()), it) else old(View())
    {
      held, ok := false, false;
      if ordered {
        held := HeldLocked(it.subject);
        if held {
          ok := ParkEventLocked(it);
        }
      }
    }

    method BeginDrain(quiet: bool) returns (started: bool)
      modifies this`draining, this`again, this`againLoud, this`busState
      ensures started <==> !old(draining)
      ensures View() == OutboxState.BeginDrain(old(View()), quiet)
    {
      if draining {
        again := true;
        againLoud := againLoud || !quiet;
        return false;
      }
      draining := true;
      busState := BusUnknown;
      return true;
    }

    /** The bus leg of publishPort, with nothing else going on. `verdict` is the answer of
        the bus, should it be asked; `kick` is whether a drain is asked for. */
    method PublishMessage(it: Item, verdict: Verdict) returns (result: Emitted, kick: bool)
      requires 0 < max && !it.isEvent
      modifies this`items, this`dropped, this`parked
      ensures (View(), result, kick) == Live(old(View()), it, verdict)
    {
      var held := ParkIfHeld(it);
      if held {
        return Waiting, true;
      }
      if !verdict.Accepted? {
        if verdict.NoBus? {
          return NoBusAtAll, false;
        }
        ParkLocked(it);
        return Waiting, false;
      }
      return SentNow, |items| > 0;
    }

    /** publishEvent, with nothing else going on. */
    method PublishEvent(it: Item, verdict: Verdict) returns (result: Emitted, kick: bool)
      requires 0 < max && it.isEvent
      modifies this`items, this`parked
      ensures (View(), result, kick) == Live(old(View()), it, verdict)
    {
      var held, ok := ParkEventIfHeld(it);
      if held {
        return if ok then Waiting else Lost, true;
      }
      if !verdict.Accepted? {
        ok := ParkEventLocked(it);
        return if ok then Waiting else Lost, false;
      }
      return SentNow, |items| > 0;
    }

    method HoldsItem(it: Item) returns (held: bool)
      ensures held == Holds(items, it)
    {
      for i := 0 to |items|
        invariant forall j :: 0 <= j < i ==> !Same(items[j], it)
      {
        if Same(items[i], it) {
          return true;
        }
      }
      return false;
    }

    method RemoveItem(it: Item, drop: bool)
      modifies this`items, this`dropped, this`drained
      ensures View() == Remove(old(View()), it, drop)
    {
      var i := 0;
      while i < |items| && !Same(items[i], it)
        invariant i <= |items|
        invariant forall j :: 0 <= j < i ==> !Same(items[j], it)
      {
        i := i + 1;
      }
      assert i == Find(items, it);
      if i < |items| {
        items := items[..i] + items[i + 1..];
        if drop {
          dropped := dropped + 1;
        } else {
          drained := drained + 1;
        }
      }
    }

    method StopDrain()
      modifies this`draining, this`again, this`againLoud, this`busState
      ensures View() == Stopped(old(View()))
    {
      draining := false;
      busState := BusUnknown;
      again := false;
      againLoud := false;
    }

    /** The attempts at one item. `evicted` says that the cap took it out of the queue
        before an attempt; `outcome` then means nothing. */
    method PublishWithRetries(answers: nat -> Verdict, t: nat, it: Item) returns (evicted: bool, outcome: Outcome,
                              t': nat)
      modifies this`busState
      ensures evicted <==> !Holds(items, it)
      ensures evicted ==> t' == t && busState == old(busState)
      ensures !evicted ==> (outcome, t') == Try(answers, t, retries + 1) && busState == BusAfter(outcome)
    {
      t', outcome := t, KeptBack;
      var attempt := 0;
      while attempt <= retries
        invariant attempt <= retries + 1
        invariant attempt > 0 ==> Holds(items, it) && busState == BusDown
        invariant attempt == 0 ==> t' == t && busState == old(busState)
        invariant Try(answers, t', retries + 1 - attempt) == Try(answers, t, retries + 1)
      {
        var held := HoldsItem(it);
        if !held {
          return true, KeptBack, t';
        }
        var verdict := answers(t');
        t' := t' + 1;
        if verdict.Accepted? {
          busState := BusUp;
          return false, Forwarded, t';
        }
        if verdict.Invalid? {
          busState := BusUp;
          return false, NeverAcceptable, t';
        }
        busState := BusDown;
        attempt := attempt + 1;
      }
      evicted := false;
    }

    /** One item of a pass: published, and taken out of the queue unless refused. */
    method ForwardItem(answers: nat -> Verdict, t: nat, it: Item, ghost p: Pass, ghost log: seq<Taken>)
      returns (held: bool, gone: bool, t': nat, ghost log': seq<Taken>)
      requires p.at < |p.items| && p.items[p.at] == it && !(p.ordered && it.subject in p.held)
      modifies this`items, this`dropped, this`drained, this`busState
      ensures !(held && gone)
      ensures PassItem(answers, Progress(old(View()), t, p, log)) ==
              Progress(View(), t',
                       if held then HoldBack(p)
                       else if gone then Advance(p).(forwarded := p.forwarded + 1) else Advance(p), log')
    {
      var evicted, outcome;
      evicted, outcome, t' := PublishWithRetries(answers, t, it);
      held, gone, log' := !evicted && outcome.KeptBack?, !evicted && !outcome.KeptBack?, log;
      if gone {
        RemoveItem(it, outcome.NeverAcceptable?);
        log' := if outcome.Forwarded? then log + [Taken(it, true)] else log;
      }
    }

    method RunPass(answers: nat -> Verdict, t: nat, ghost log: seq<Taken>)
      returns (forwarded: nat, t': nat, ghost log': seq<Taken>)
      modifies this`items, this`dropped, this`drained, this`busState
      ensures var g := PassRun(answers, StartPass(old(View()), t, log));
              View() == g.box && forwarded == g.pass.forwarded && t' == g.t && log' == g.log
    {
      hide PassItem, PassRun;
      var pass, order := items, ordered;
      var held: set<string> := {};
      forwarded, t', log' := 0, t, log;
      ghost var end := PassRun(answers, StartPass(View(), t, log));
      for i := 0 to |pass|
        invariant PassRun(answers, Progress(View(), t', Pass(pass, i, held, order, forwarded), log')) == end
      {
        var it := pass[i];
        ghost var p := Pass(pass, i, held, order, forwarded);
        PassRunNext(answers, Progress(View(), t', p, log'));
        if !(order && it.subject in held) {
          var back, gone;
          back, gone, t', log' := ForwardItem(answers, t', it, p, log');
          if back {
            held := held + {it.subject};
          } else if gone {
            forwarded := forwarded + 1;
          }
        } else {
          SkipItem(answers, Progress(View(), t', p, log'));
        }
      }
      PassRunNext(answers, Progress(View(), t', Pass(pass, |pass|, held, order, forwarded), log'));
    }

    /** The drain's loop, with nothing else going on. */
    method RunDrain(answers: nat -> Verdict, t: nat) returns (t': nat, ghost log: seq<Taken>)
      modifies this
      ensures var e := DrainRun(answers, old(View()), t, []);
              View() == e.box && t' == e.t && log == e.log
    {
      t', log := t, [];
      ghost var end := DrainRun(answers, View(), t, []);
      while true
        invariant DrainRun(answers, View(), t', log) == end
        decreases |items|, again
      {
        if |items| == 0 {
          StopDrain();
          return;
        }
        var forwarded;
        PassPays(answers, StartPass(View(), t', log));
        forwarded, t', log := RunPass(answers, t', log);
        if forwarded == 0 {
          if !again {
            StopDrain();
            return;
          }
          again := false;
          againLoud := false;
        }
      }
    }
  }
}

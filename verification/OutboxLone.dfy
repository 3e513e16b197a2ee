/** A drain with nothing else going on: what it does to the outbox for every way the bus
    may answer, that it ends, how it ends, and that it is a run of OutboxMachine. */
module OutboxLone {
  import opened OutboxState
  import opened OutboxMachine

  datatype Outcome = Forwarded | NeverAcceptable | KeptBack

  predicate Refusal(v: Verdict) {
    v.Refused? || v.NoBus?
  }

  // ------------------------------------------------------------- the drain as a function of the answers

  /** Up to `left` attempts at one item. `answers` is the bus, answer by answer, and `t`
      counts the answers given so far. */
  function Try(answers: nat -> Verdict, t: nat, left: nat): (r: (Outcome, nat))
    decreases left
  {
    if left == 0 then (KeptBack, t)
    else match answers(t)
      case Accepted => (Forwarded, t + 1)
      case Invalid => (NeverAcceptable, t + 1)
      case _ => Try(answers, t + 1, left - 1)
  }

  /** An item is kept back only after `left` refusals; otherwise the last answer, and no
      earlier one, settled it. */
  lemma {:induction false} TryAnswers(answers: nat -> Verdict, t: nat, left: nat)
    ensures var (outcome, t') := Try(answers, t, left);
            && t <= t' <= t + left
            && (outcome.KeptBack? ==> t' == t + left && forall n :: t <= n < t' ==> Refusal(answers(n)))
            && (!outcome.KeptBack? ==> t < t' && forall n :: t <= n < t' - 1 ==> Refusal(answers(n)))
            && (outcome.Forwarded? ==> answers(t' - 1).Accepted?)
            && (outcome.NeverAcceptable? ==> answers(t' - 1).Invalid?)
    decreases left
  {
    if left > 0 && Refusal(answers(t)) {
      TryAnswers(answers, t + 1, left - 1);
    }
  }

  /** A drain in the middle of a pass. `log` is what it got accepted. */
  datatype Progress = Progress(box: Box, t: nat, pass: Pass, log: seq<Taken>)

  function BusAfter(outcome: Outcome): BusState {
    if outcome.KeptBack? then BusDown else BusUp
  }

  /** One item of a pass. */
  function PassItem(answers: nat -> Verdict, g: Progress): Progress
    requires g.pass.at < |g.pass.items|
  {
    var it := g.pass.items[g.pass.at];
    if g.pass.ordered && it.subject in g.pass.held then g.(pass := Advance(g.pass))
    else if !Holds(g.box.items, it) then g.(pass := Advance(g.pass))
    else
      var (outcome, t) := Try(answers, g.t, g.box.retries + 1);
      var box := g.box.(busState := BusAfter(outcome));
      if outcome.KeptBack? then Progress(box, t, HoldBack(g.pass), g.log)
      else
        Progress(Remove(box, it, outcome.NeverAcceptable?), t,
                 Advance(g.pass).(forwarded := g.pass.forwarded + 1),
                 if outcome.Forwarded? then g.log + [Taken(it, true)] else g.log)
  }

  lemma SkipItem(answers: nat -> Verdict, g: Progress)
    requires g.pass.at < |g.pass.items| && g.pass.ordered && g.pass.items[g.pass.at].subject in g.pass.held
    ensures PassItem(answers, g) == g.(pass := Advance(g.pass))
  {
  }

  function PassRun(answers: nat -> Verdict, g: Progress): Progress
    decreases |g.pass.items| - g.pass.at
  {
    if g.pass.at >= |g.pass.items| then g else PassRun(answers, PassItem(answers, g))
  }

  lemma PassRunNext(answers: nat -> Verdict, g: Progress)
    ensures g.pass.at < |g.pass.items| ==> PassRun(answers, g) == PassRun(answers, PassItem(answers, g))
    ensures g.pass.at >= |g.pass.items| ==> PassRun(answers, g) == g
  {
  }

  function StartPass(box: Box, t: nat, log: seq<Taken>): Progress {
    Progress(box, t, Pass(box.items, 0, {}, box.ordered, 0), log)
  }

  /** How a drain ends. `last` is the answer count when its last pass began. */
  datatype Ending = Ending(box: Box, t: nat, log: seq<Taken>, last: nat)

  /** Only a refusal holds a subject back: not an item the cap took, nor one the bus took or
      called invalid. */
  lemma OnlyRefusalsHoldBack(answers: nat -> Verdict, g: Progress)
    requires g.pass.at < |g.pass.items|
    ensures var it := g.pass.items[g.pass.at]; var h := PassItem(answers, g);
            && (h.pass.held == g.pass.held ||
                (h.pass.held == g.pass.held + {it.subject} && Holds(g.box.items, it) &&
                 h.t == g.t + g.box.retries + 1 && forall n :: g.t <= n < h.t ==> Refusal(answers(n))))
            && (h.pass.held == g.pass.held && it.subject !in g.pass.held && Holds(g.box.items, it) ==>
                  g.t < h.t && !Refusal(answers(h.t - 1)))
            && h.pass.at == g.pass.at + 1
  {
    hide Try, Holds, Remove;
    var it := g.pass.items[g.pass.at];
    var h := PassItem(answers, g);
    TryAnswers(answers, g.t, g.box.retries + 1);
    if it.subject !in g.pass.held && Holds(g.box.items, it) {
      var (outcome, t) := Try(answers, g.t, g.box.retries + 1);
      assert h.t == t && (outcome.KeptBack? ==> it.subject in h.pass.held);
      assert !outcome.KeptBack? ==> !Refusal(answers(t - 1));
    }
  }

  /** A pass forwards an item exactly when the queue loses one. */
  predicate Paid(g: Progress, h: Progress) {
    && |h.box.items| + h.pass.forwarded == |g.box.items| + g.pass.forwarded
    && g.pass.forwarded <= h.pass.forwarded
    && h.box.again == g.box.again && h.box.max == g.box.max
    && h.box.retries == g.box.retries && h.box.ordered == g.box.ordered
    && h.box.drained - g.box.drained == |h.log| - |g.log|
    && h.pass.items == g.pass.items && h.pass.ordered == g.pass.ordered
  }

  lemma RemoveOne(b: Box, it: Item, dropped: bool)
    requires Holds(b.items, it)
    ensures var r := Remove(b, it, dropped);
            && |r.items| == |b.items| - 1 && r.drained == b.drained + (if dropped then 0 else 1)
            && r == b.(items := r.items, dropped := r.dropped, drained := r.drained)
  {
    hide Find;
    var q :| q in b.items && Same(q, it);
    var j :| 0 <= j < |b.items| && b.items[j] == q;
    assert Find(b.items, it) <= j;
  }

  lemma PassItemPays(answers: nat -> Verdict, g: Progress)
    requires g.pass.at < |g.pass.items|
    ensures Paid(g, PassItem(answers, g))
  {
    hide Try, Holds, Remove;
    var it := g.pass.items[g.pass.at];
    if Holds(g.box.items, it) {
      var outcome := Try(answers, g.t, g.box.retries + 1).0;
      RemoveOne(g.box.(busState := BusAfter(outcome)), it, outcome.NeverAcceptable?);
    }
  }

  lemma {:induction false} PassPays(answers: nat -> Verdict, g: Progress)
    requires g.pass.at <= |g.pass.items|
    ensures Paid(g, PassRun(answers, g)) && PassRun(answers, g).pass.at == |g.pass.items|
    decreases |g.pass.items| - g.pass.at
  {
    if g.pass.at < |g.pass.items| {
      PassItemPays(answers, g);
      PassPays(answers, PassItem(answers, g));
    }
  }

  /** The whole drain. That this is a function at all is the termination claim: whatever
      the bus answers, each further pass follows a shorter queue or a used-up request. */
  function DrainRun(answers: nat -> Verdict, box: Box, t: nat, log: seq<Taken>): Ending
    decreases |box.items|, box.again
  {
    if box.items == [] then Ending(Stopped(box), t, log, t)
    else
      PassPays(answers, StartPass(box, t, log));
      var g := PassRun(answers, StartPass(box, t, log));
      if g.pass.forwarded > 0 then DrainRun(answers, g.box, g.t, g.log)
      else if box.again then DrainRun(answers, g.box.(again := false, againLoud := false), g.t, g.log)
      else Ending(Stopped(g.box), g.t, g.log, t)
  }

  // ------------------------------------------------------------- how it ends

  function Subjects(items: seq<Item>): set<string> {
    set it | it in items :: it.subject
  }

  lemma SubjectsSnoc(pass: seq<Item>, i: nat)
    requires i < |pass|
    ensures Subjects(pass[..i + 1]) == Subjects(pass[..i]) + {pass[i].subject}
  {
    assert pass[..i + 1] == pass[..i] + [pass[i]];
  }

  /** How many items a pass tries when the bus refuses them all: the head of each subject,
      or every item when order is off. */
  function Tried(items: seq<Item>, ordered: bool): nat {
    if ordered then |Subjects(items)| else |items|
  }

  /** Every answer from t to t' is a refusal, retries + 1 of them for each item tried. */
  predicate AllRefused(answers: nat -> Verdict, t: nat, t': nat, retries: nat, items: seq<Item>, ordered: bool) {
    && t' == t + (retries + 1) * Tried(items, ordered)
    && forall n :: t <= n < t' ==> Refusal(answers(n))
  }

  /** A pass that has forwarded nothing so far holds back every subject it went by and
      has left the queue as it was. */
  predicate Stalled(answers: nat -> Verdict, t: nat, items: seq<Item>, g: Progress) {
    && g.box.items == items == g.pass.items && g.pass.at <= |items| && g.pass.ordered == g.box.ordered
    && (g.pass.forwarded == 0 ==>
          && g.pass.held == Subjects(items[..g.pass.at])
          && AllRefused(answers, t, g.t, g.box.retries, items[..g.pass.at], g.box.ordered))
  }

  lemma OneMoreRefused(answers: nat -> Verdict, t0: nat, t: nat, t': nat, retries: nat, pass: seq<Item>, i: nat,
                       ordered: bool)
    requires i < |pass| && AllRefused(answers, t0, t, retries, pass[..i], ordered)
    requires ordered ==> pass[i].subject !in Subjects(pass[..i])
    requires t' == t + retries + 1 && forall n :: t <= n < t' ==> Refusal(answers(n))
    ensures AllRefused(answers, t0, t', retries, pass[..i + 1], ordered)
  {
    OneMoreTried(pass, i, ordered);
    hide Tried, Subjects;
    OneMoreTime(retries + 1, Tried(pass[..i], ordered));
  }

  lemma OneMoreTried(pass: seq<Item>, i: nat, ordered: bool)
    requires i < |pass| && (ordered ==> pass[i].subject !in Subjects(pass[..i]))
    ensures Tried(pass[..i + 1], ordered) == Tried(pass[..i], ordered) + 1
  {
    SubjectsSnoc(pass, i);
    hide Subjects;
  }

  lemma OneMoreTime(a: nat, n: nat)
    ensures a * (n + 1) == a * n + a
  {
  }

  lemma HoldsOwn(items: seq<Item>, i: nat)
    requires i < |items|
    ensures Holds(items, items[i])
  {
    assert items[i] in items && Same(items[i], items[i]);
  }

  /** An item that was tried and did not go was refused every time. */
  lemma KeptBackItem(answers: nat -> Verdict, g: Progress)
    requires g.pass.at < |g.pass.items| && Holds(g.box.items, g.pass.items[g.pass.at])
    requires !(g.pass.ordered && g.pass.items[g.pass.at].subject in g.pass.held)
    requires PassItem(answers, g).pass.forwarded == g.pass.forwarded
    ensures var h := PassItem(answers, g);
            && h.box == g.box.(busState := BusDown) && h.pass == HoldBack(g.pass) && h.t == g.t + g.box.retries + 1
            && forall n :: g.t <= n < h.t ==> Refusal(answers(n))
  {
    hide Try, Holds, Remove;
    TryAnswers(answers, g.t, g.box.retries + 1);
  }

  lemma StalledItem(answers: nat -> Verdict, t: nat, items: seq<Item>, g: Progress)
    requires Stalled(answers, t, items, g) && g.pass.at < |items|
    requires g.pass.forwarded == 0 && PassItem(answers, g).pass.forwarded == 0
    ensures Stalled(answers, t, items, PassItem(answers, g))
  {
    hide Try, Holds, Subjects, PassItem;
    var i, it := g.pass.at, items[g.pass.at];
    SubjectsSnoc(items, i);
    if g.pass.ordered && it.subject in g.pass.held {
      SkipItem(answers, g);
      assert Subjects(items[..i + 1]) == Subjects(items[..i]);
    } else {
      HoldsOwn(items, i);
      KeptBackItem(answers, g);
      hide AllRefused;
      OneMoreRefused(answers, t, g.t, PassItem(answers, g).t, g.box.retries, items, i, g.box.ordered);
    }
  }

  lemma {:induction false} StalledPass(answers: nat -> Verdict, t: nat, items: seq<Item>, g: Progress)
    requires Stalled(answers, t, items, g) && PassRun(answers, g).pass.forwarded == 0
    ensures Stalled(answers, t, items, PassRun(answers, g)) && PassRun(answers, g).pass.at == |items|
    decreases |items| - g.pass.at
  {
    if g.pass.at < |items| {
      var h := PassItem(answers, g);
      PassItemPays(answers, g);
      PassPays(answers, h);
      StalledItem(answers, t, items, g);
      hide PassItem, Stalled;
      StalledPass(answers, t, items, h);
    }
  }

  /** A lone drain ends, for every way the bus may answer, with an empty queue or with a
      full last pass in which the head of every subject (every item, without order) was
      refused retries + 1 times and nothing else was tried. The flags are reset, and
      every message it got accepted is counted as drained. */
  lemma {:induction false} LoneDrainEnds(answers: nat -> Verdict, box: Box, t: nat, log: seq<Taken>)
    ensures var e := DrainRun(answers, box, t, log);
            && !e.box.draining && !e.box.again && !e.box.againLoud && e.box.busState == BusUnknown
            && e.box.drained - box.drained == |e.log| - |log|
            && e.box.retries == box.retries && e.box.ordered == box.ordered
            && (e.box.items == [] || AllRefused(answers, e.last, e.t, box.retries, e.box.items, box.ordered))
    decreases |box.items|, box.again
  {
    if box.items != [] {
      var g := StartPass(box, t, log);
      var h := PassRun(answers, g);
      PassPays(answers, g);
      if h.pass.forwarded > 0 {
        LoneDrainEnds(answers, h.box, h.t, h.log);
      } else if box.again {
        LoneDrainEnds(answers, h.box.(again := false, againLoud := false), h.t, h.log);
      } else {
        assert Stalled(answers, t, box.items, g);
        StalledPass(answers, t, box.items, g);
        assert box.items[..|box.items|] == box.items;
      }
    }
  }

  // ------------------------------------------------------------- the machine's steps for a lone drain

  /** The machine with one drain, in the given phase, on the given queue. */
  function At(s: Sys, box: Box, phase: Phase): (r: Sys)
    ensures |r.drains| == 1 && r.box == box
  {
    s.(box := box, drains := [Drain(false, phase)])
  }

  lemma GotoAt(s: Sys, box: Box, phase: Phase, next: Phase)
    ensures Goto(At(s, box, phase), 0, next) == At(s, box, next)
  {
    assert Goto(At(s, box, phase), 0, next).drains == [Drain(false, next)];
  }

  lemma {:induction false} ExecConcat(s: Sys, a: seq<Action>, b: seq<Action>)
    requires 0 < s.box.max
    ensures Exec(s, a + b) == Exec(Exec(s, a), b)
  {
    if b == [] {
      assert a + b == a;
    } else {
      var c := b[..|b| - 1];
      ExecConcat(s, a, c);
      assert (a + b)[..|a + b| - 1] == a + c;
    }
  }

  lemma ExecFirst(s: Sys, a: Action)
    requires 0 < s.box.max
    ensures Exec(s, [a]) == Step(s, a)
  {
    hide Exec, Step;
    ExecNone(s);
    ExecSnoc(s, [], a);
    assert [] + [a] == [a];
  }

  lemma ExecOne(s: Sys, verdict: Verdict)
    requires 0 < s.box.max && |s.drains| == 1
    ensures Exec(s, [DrainStep(0, verdict)]) == StepDrain(s, 0, verdict)
  {
    hide Exec, StepDrain;
    ExecFirst(s, DrainStep(0, verdict));
  }

  lemma AttemptAt(s: Sys, box: Box, p: Pass, attempt: nat, verdict: Verdict)
    requires p.at < |p.items| && !(attempt == 0 && p.ordered && p.items[p.at].subject in p.held)
    ensures StepDrain(At(s, box, Trying(p, attempt)), 0, verdict) ==
            At(s, box,
               if attempt > box.retries then Trying(HoldBack(p), 0)
               else if !Holds(box.items, p.items[p.at]) then Trying(Advance(p), 0)
               else Sending(p, attempt))
  {
    var next := if attempt > box.retries then Trying(HoldBack(p), 0)
                else if !Holds(box.items, p.items[p.at]) then Trying(Advance(p), 0)
                else Sending(p, attempt);
    GotoAt(s, box, Trying(p, attempt), next);
    hide Goto;
  }

  lemma SendAt(s: Sys, box: Box, p: Pass, attempt: nat, verdict: Verdict)
    requires p.at < |p.items|
    ensures StepDrain(At(s, box, Sending(p, attempt)), 0, verdict) ==
            match verdict
            case Accepted =>
              At(s.(log := s.log + [Taken(p.items[p.at], true)]), box.(busState := BusUp), Removing(p, false))
            case Invalid => At(s, box.(busState := BusUp), Removing(p, true))
            case _ => At(s, box.(busState := BusDown), Trying(p, attempt + 1))
  {
    var sending := Sending(p, attempt);
    match verdict
    case Accepted =>
      GotoAt(s.(log := s.log + [Taken(p.items[p.at], true)]), box.(busState := BusUp), sending, Removing(p, false));
    case Invalid => GotoAt(s, box.(busState := BusUp), sending, Removing(p, true));
    case _ => GotoAt(s, box.(busState := BusDown), sending, Trying(p, attempt + 1));
  }

  lemma TopAt(s: Sys, box: Box, verdict: Verdict)
    ensures box.items == [] ==>
              StepDrain(At(s, box, Top), 0, verdict) == s.(box := Stopped(box), drains := [], seen := s.asked)
    ensures box.items != [] ==>
              StepDrain(At(s, box, Top), 0, verdict) ==
              At(s.(seen := s.asked), box, Trying(Pass(box.items, 0, {}, box.ordered, 0), 0))
  {
    GotoAt(s.(seen := s.asked), box, Top, Trying(Pass(box.items, 0, {}, box.ordered, 0), 0));
  }

  lemma SkipAt(s: Sys, box: Box, p: Pass, verdict: Verdict)
    requires p.at < |p.items| && p.ordered && p.items[p.at].subject in p.held
    ensures StepDrain(At(s, box, Trying(p, 0)), 0, verdict) == At(s, box, Trying(Advance(p), 0))
  {
    GotoAt(s, box, Trying(p, 0), Trying(Advance(p), 0));
  }

  lemma RemoveAt(s: Sys, box: Box, p: Pass, invalid: bool, verdict: Verdict)
    requires p.at < |p.items|
    ensures StepDrain(At(s, box, Removing(p, invalid)), 0, verdict) ==
            At(s, Remove(box, p.items[p.at], invalid), Trying(Advance(p).(forwarded := p.forwarded + 1), 0))
  {
    var next := Trying(Advance(p).(forwarded := p.forwarded + 1), 0);
    GotoAt(s, Remove(box, p.items[p.at], invalid), Removing(p, invalid), next);
    hide Remove;
  }

  lemma PassEndAt(s: Sys, box: Box, p: Pass, verdict: Verdict)
    requires p.at == |p.items|
    ensures StepDrain(At(s, box, Trying(p, 0)), 0, verdict) ==
            if p.forwarded > 0 then At(s, box, Top)
            else if box.again then At(s, box.(again := false, againLoud := false), Top)
            else s.(box := Stopped(box), drains := [])
  {
    GotoAt(s, box, Trying(p, 0), Top);
    GotoAt(s, box.(again := false, againLoud := false), Trying(p, 0), Top);
  }

  /** One more step of a run that has reached `s1`. */
  lemma RunOn(s: Sys, acts: seq<Action>, s1: Sys, verdict: Verdict)
    requires 0 < s.box.max && Exec(s, acts) == s1 && |s1.drains| == 1
    ensures Exec(s, acts + [DrainStep(0, verdict)]) == StepDrain(s1, 0, verdict)
  {
    hide Exec, StepDrain;
    ExecSnoc(s, acts, DrainStep(0, verdict));
  }

  /** Nothing but the one drain moves. */
  predicate Alone(acts: seq<Action>) {
    forall i :: 0 <= i < |acts| ==> acts[i].DrainStep? && acts[i].drain == 0
  }

  /** Where the machine is after the item was tried. */
  function AfterTry(s: Sys, box: Box, p: Pass, outcome: Outcome): Sys
    requires p.at < |p.items|
  {
    match outcome
    case Forwarded => At(s.(log := s.log + [Taken(p.items[p.at], true)]), box, Removing(p, false))
    case NeverAcceptable => At(s, box, Removing(p, true))
    case KeptBack => At(s, box, Trying(HoldBack(p), 0))
  }

  lemma {:induction false} TryIsARun(s: Sys, box: Box, p: Pass, attempt: nat, answers: nat -> Verdict, t: nat)
    returns (acts: seq<Action>)
    requires 0 < box.max && p.at < |p.items| && Holds(box.items, p.items[p.at])
    requires attempt <= box.retries + 1 && (attempt > box.retries ==> box.busState == BusDown)
    requires !(attempt == 0 && p.ordered && p.items[p.at].subject in p.held)
    ensures Alone(acts)
    ensures var outcome := Try(answers, t, box.retries + 1 - attempt).0;
            Exec(At(s, box, Trying(p, attempt)), acts) == AfterTry(s, box.(busState := BusAfter(outcome)), p, outcome)
    decreases box.retries + 1 - attempt
  {
    hide Exec, StepDrain, At;
    var s0 := At(s, box, Trying(p, attempt));
    AttemptAt(s, box, p, attempt, Refused);
    ExecOne(s0, Refused);
    acts := [DrainStep(0, Refused)];
    if attempt <= box.retries {
      SendAt(s, box, p, attempt, answers(t));
      ExecOne(At(s, box, Sending(p, attempt)), answers(t));
      ExecConcat(s0, acts, [DrainStep(0, answers(t))]);
      acts := acts + [DrainStep(0, answers(t))];
      if Refusal(answers(t)) {
        var rest := TryIsARun(s, box.(busState := BusDown), p, attempt + 1, answers, t + 1);
        ExecConcat(s0, acts, rest);
        acts := acts + rest;
      }
    }
  }

  /** The machine where a lone drain's progress stands. */
  function Reached(s: Sys, g: Progress): (r: Sys)
    ensures |r.drains| == 1 && r.box == g.box
  {
    At(s.(log := g.log), g.box, Trying(g.pass, 0))
  }

  lemma TriedItemIsARun(s: Sys, answers: nat -> Verdict, g: Progress) returns (acts: seq<Action>)
    requires 0 < g.box.max && g.pass.at < |g.pass.items| && Holds(g.box.items, g.pass.items[g.pass.at])
    requires !(g.pass.ordered && g.pass.items[g.pass.at].subject in g.pass.held)
    ensures Alone(acts)
    ensures Exec(Reached(s, g), acts) == Reached(s, PassItem(answers, g))
  {
    hide Exec, StepDrain, At, Holds, Remove, Try;
    var p, it := g.pass, g.pass.items[g.pass.at];
    acts := TryIsARun(s.(log := g.log), g.box, p, 0, answers, g.t);
    var outcome := Try(answers, g.t, g.box.retries + 1).0;
    if !outcome.KeptBack? {
      var s1 := s.(log := if outcome.Forwarded? then g.log + [Taken(it, true)] else g.log);
      var box, invalid := g.box.(busState := BusUp), outcome.NeverAcceptable?;
      RunOn(Reached(s, g), acts, At(s1, box, Removing(p, invalid)), Refused);
      RemoveAt(s1, box, p, invalid, Refused);
      acts := acts + [DrainStep(0, Refused)];
    }
  }

  lemma PassItemIsARun(s: Sys, answers: nat -> Verdict, g: Progress) returns (acts: seq<Action>)
    requires 0 < g.box.max && g.pass.at < |g.pass.items|
    ensures Alone(acts)
    ensures Exec(Reached(s, g), acts) == Reached(s, PassItem(answers, g))
  {
    hide Exec, StepDrain, At, Holds;
    var s1, p, it := s.(log := g.log), g.pass, g.pass.items[g.pass.at];
    acts := [DrainStep(0, Refused)];
    if p.ordered && it.subject in p.held {
      SkipAt(s1, g.box, p, Refused);
      ExecOne(Reached(s, g), Refused);
    } else if !Holds(g.box.items, it) {
      AttemptAt(s1, g.box, p, 0, Refused);
      ExecOne(Reached(s, g), Refused);
    } else {
      acts := TriedItemIsARun(s, answers, g);
    }
  }

  lemma {:induction false} PassIsARun(s: Sys, answers: nat -> Verdict, g: Progress) returns (acts: seq<Action>)
    requires 0 < g.box.max
    ensures Alone(acts)
    ensures Exec(Reached(s, g), acts) == Reached(s, PassRun(answers, g))
    decreases |g.pass.items| - g.pass.at
  {
    acts := [];
    if g.pass.at < |g.pass.items| {
      acts := PassItemIsARun(s, answers, g);
      PassItemPays(answers, g);
      hide Reached, PassItem;
      var rest := PassIsARun(s, answers, PassItem(answers, g));
      ExecConcat(Reached(s, g), acts, rest);
      acts := acts + rest;
    }
  }

  /** The machine with a lone drain about to look at the queue. */
  function Looking(s: Sys, box: Box, log: seq<Taken>): (r: Sys)
    ensures |r.drains| == 1 && r.box == box
  {
    At(s.(log := log), box, Top)
  }

  /** One pass of a lone drain, from the look at the queue to the decision at its end. */
  lemma RoundIsARun(s: Sys, answers: nat -> Verdict, box: Box, t: nat, log: seq<Taken>) returns (acts: seq<Action>)
    requires 0 < box.max && box.items != []
    ensures Alone(acts)
    ensures var g := PassRun(answers, StartPass(box, t, log));
            var s1 := s.(seen := s.asked);
            Exec(Looking(s, box, log), acts) ==
            if g.pass.forwarded > 0 then Looking(s1, g.box, g.log)
            else if g.box.again then Looking(s1, g.box.(again := false, againLoud := false), g.log)
            else s1.(box := Stopped(g.box), drains := [], log := g.log)
  {
    var s0, s1 := Looking(s, box, log), s.(seen := s.asked);
    var g := StartPass(box, t, log);
    TopAt(s.(log := log), box, Refused);
    ExecOne(s0, Refused);
    acts := [DrainStep(0, Refused)];
    var pass := PassIsARun(s1, answers, g);
    ExecConcat(s0, acts, pass);
    acts := acts + pass;
    PassPays(answers, g);
    var h := PassRun(answers, g);
    hide Exec, StepDrain, PassRun;
    RunOn(s0, acts, Reached(s1, h), Refused);
    PassEndAt(s1.(log := h.log), h.box, h.pass, Refused);
    acts := acts + [DrainStep(0, Refused)];
  }

  /** The drain loop is a run of the machine: everything proved of the machine's runs
      holds of it. */
  lemma {:induction false} LoneDrainIsARun(s: Sys, answers: nat -> Verdict, box: Box, t: nat, log: seq<Taken>)
    returns (acts: seq<Action>)
    requires 0 < box.max
    ensures Alone(acts)
    ensures var e := DrainRun(answers, box, t, log);
            Exec(Looking(s, box, log), acts) == s.(box := e.box, drains := [], log := e.log, seen := s.asked)
    decreases |box.items|, box.again
  {
    var s0 := Looking(s, box, log);
    if box.items == [] {
      TopAt(s.(log := log), box, Refused);
      ExecOne(s0, Refused);
      acts := [DrainStep(0, Refused)];
    } else {
      acts := RoundIsARun(s, answers, box, t, log);
      PassPays(answers, StartPass(box, t, log));
      var g := PassRun(answers, StartPass(box, t, log));
      hide PassRun, Looking;
      var s1 := s.(seen := s.asked);
      if g.pass.forwarded > 0 {
        var rest := LoneDrainIsARun(s1, answers, g.box, g.t, g.log);
        ExecConcat(s0, acts, rest);
        acts := acts + rest;
      } else if box.again {
        var rest := LoneDrainIsARun(s1, answers, g.box.(again := false, againLoud := false), g.t, g.log);
        ExecConcat(s0, acts, rest);
        acts := acts + rest;
      }
    }
  }

  // ------------------------------------------------------------- what the configuration means

  /** The cap given, or ten thousand, is where a park evicts, and a refused item is tried
      once more than the retries given, or than three. */
  lemma ConfigTakesEffect(b: Box, maxMessages: int, drainRetries: int, ordered: bool, it: Item,
                          answers: nat -> Verdict, g: Progress)
    requires forall n :: Refusal(answers(n))
    requires g.box == Configured(b, maxMessages, drainRetries, ordered)
    requires g.pass.at < |g.pass.items| && Holds(b.items, g.pass.items[g.pass.at]) && g.pass.held == {}
    ensures var cap := if maxMessages > 0 then maxMessages else 10000;
            |Park(g.box, it).items| == if |b.items| < cap then |b.items| + 1 else cap
    ensures PassItem(answers, g).t == g.t + 1 + if drainRetries > 0 then drainRetries else 3
    ensures !it.isEvent && Held(b.items, it.subject) ==> (ordered <==> Live(g.box, it, Accepted).1.Waiting?)
  {
    hide Try, Holds, Remove, Held;
    var (outcome, t) := Try(answers, g.t, g.box.retries + 1);
    TryAnswers(answers, g.t, g.box.retries + 1);
    assert t > 0 ==> Refusal(answers(t - 1));
  }

  // ------------------------------------------------------------- one emission with nothing else going on

  /** How publishPort or publishEvent returns: the bus took it, it waits in the outbox,
      there is no bus to wait for, or the outbox had no room for the event. */
  datatype Emitted = SentNow | Waiting | NoBusAtAll | Lost

  function Settled(box: Box, it: Item): Emitted {
    if it.isEvent && |box.items| >= box.max then Lost else Waiting
  }

  /** The outbox, the answer, and whether a drain is asked for. */
  function Live(box: Box, it: Item, verdict: Verdict): (Box, Emitted, bool)
    requires 0 < box.max
  {
    if box.ordered && Held(box.items, it.subject) then (ParkAny(box, it), Settled(box, it), true)
    else if verdict.Accepted? then (box, SentNow, box.items != [])
    else if verdict.NoBus? && !it.isEvent then (box, NoBusAtAll, false)
    else (ParkAny(box, it), Settled(box, it), false)
  }

  /** An emission that reports success is with the bus or, after everything that was and
      still is queued, in the outbox; one that reports failure has changed nothing. */
  lemma EmissionIsAccountedFor(box: Box, it: Item, verdict: Verdict)
    requires Conserved(box)
    ensures var (after, result, _) := Live(box, it, verdict);
            && Conserved(after)
            && (result.Waiting? ==>
                  after.items != [] && after.items[|after.items| - 1] == it && after.parked == box.parked + 1)
            && (!result.Waiting? ==> after == box)
  {
    ParkConserves(box, it);
    hide Held, Evict;
  }

  /** The bus takes an emission exactly when it would and nothing parked is ahead of it. With
      no bus a message fails, with no room an event is lost, and everything else waits. */
  lemma HowAnEmissionEnds(box: Box, it: Item, verdict: Verdict)
    requires 0 < box.max
    ensures var result := Live(box, it, verdict).1;
            var queues := box.ordered && exists q :: q in box.items && q.subject == it.subject;
            && (result.SentNow? <==> verdict.Accepted? && !queues)
            && (result.NoBusAtAll? <==> verdict.NoBus? && !it.isEvent && !queues)
            && (result.Lost? <==> it.isEvent && |box.items| >= box.max && !result.SentNow?)
  {
  }

  /** It asks for a drain exactly when it went behind parked emissions of its subject, room
      or not, or when the bus took it while something is still parked. */
  lemma AsksForADrainIff(box: Box, it: Item, verdict: Verdict)
    requires 0 < box.max
    ensures var (after, result, kick) := Live(box, it, verdict);
            kick <==>
            || (box.ordered && exists q :: q in box.items && q.subject == it.subject)
            || (result.SentNow? && after.items != [])
  {
  }

  /** The three regions an emission goes through, and the drain it asks for. */
  function LiveMoves(id: nat, verdict: Verdict, kick: bool): seq<Action> {
    [CheckHeld(id), PublishLive(id, verdict), ParkRefused(id)] + if kick then [Kick(true)] else []
  }

  lemma ExecThree(s: Sys, a: Action, b: Action, c: Action)
    requires 0 < s.box.max
    ensures Exec(s, [a, b, c]) == Step(Step(Step(s, a), b), c)
  {
    hide Exec, Step;
    ExecFirst(s, a);
    ExecSnoc(s, [a], b);
    assert [a] + [b] == [a, b];
    ExecSnoc(s, [a, b], c);
    assert [a, b] + [c] == [a, b, c];
  }

  /** An emission that nothing else interrupts is a run of the machine, its drain request
      included. */
  lemma LiveIsARun(s: Sys, id: nat, verdict: Verdict)
    requires 0 < s.box.max && id in s.flights && s.flights[id].stage.Checking?
    ensures var it := SeatOf(s, id);
            var (after, result, kick) := Live(s.box, it, verdict);
            var t := Exec(s, LiveMoves(id, verdict, kick));
            && t.box == (if kick then BeginDrain(after, true) else after)
            && t.asked == s.asked + (if kick then 1 else 0)
            && t.flights == s.flights - {id}
            && t.log == (if result.SentNow? then s.log + [Taken(it, false)] else s.log)
  {
    hide Exec, Live, Step;
    RegionsAreARun(s, id, verdict);
    var kick := Live(s.box, SeatOf(s, id), verdict).2;
    var regions := [CheckHeld(id), PublishLive(id, verdict), ParkRefused(id)];
    assert regions + [] == regions;
    if kick {
      ExecSnoc(s, regions, Kick(true));
      KickEffect(Exec(s, regions));
    }
  }

  lemma KickEffect(s: Sys)
    requires 0 < s.box.max
    ensures var t := Step(s, Kick(true));
            && t.box == BeginDrain(s.box, true) && t.asked == s.asked + 1
            && t.flights == s.flights && t.log == s.log
  {
  }

  lemma RegionsAreARun(s: Sys, id: nat, verdict: Verdict)
    requires 0 < s.box.max && id in s.flights && s.flights[id].stage.Checking?
    ensures var it := SeatOf(s, id);
            var (after, result, _) := Live(s.box, it, verdict);
            var t := Exec(s, [CheckHeld(id), PublishLive(id, verdict), ParkRefused(id)]);
            && t.box == after && t.flights == s.flights - {id} && t.drains == s.drains && t.asked == s.asked
            && t.log == (if result.SentNow? then s.log + [Taken(it, false)] else s.log)
  {
    hide Exec, Held, Park, ParkEvent;
    ExecThree(s, CheckHeld(id), PublishLive(id, verdict), ParkRefused(id));
    var s1 := Step(s, CheckHeld(id));
    var f := s.flights[id];
    if s.box.ordered && Held(s.box.items, f.subject) {
      assert id !in s1.flights;
    } else {
      assert s1 == s.(flights := s.flights[id := f.(stage := Publishing)]);
      assert s1.flights - {id} == s.flights - {id};
      var s2 := Step(s1, PublishLive(id, verdict));
      if id in s2.flights {
        assert s2 == s.(flights := s.flights[id := f.(stage := Parking)]) by {
          var parking := f.(stage := Parking);
          assert s.flights[id := f.(stage := Publishing)][id := parking] == s.flights[id := parking];
        }
        assert s2.flights - {id} == s.flights - {id};
      }
    }
  }
}

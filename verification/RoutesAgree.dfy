/** That the Racks' separate decisions agree, for every scenario that passes validation
    and any set of Racks. */
module RoutesAgree {
  import opened Common
  import opened Routes
  import Lane = LaneMachine

  /** A gear of the Rack emits on one of its ports. Port names hold no dots. */
  predicate Emission(sc: Scenario, rack: string, gear: string, port: string) {
    rack != "" && Runs(sc, rack, gear) && DotFree(port)
  }

  /** The wire's consumer on `rack` listens to the subject. */
  predicate Listens(sc: Scenario, rack: string, w: Wire, subject: string) {
    w in sc.wires && Subscribed(sc, rack, w) && WireSubject(sc, rack, w) == subject
  }

  predicate OnLane(sc: Scenario, rack: string, w: Wire) {
    SubOf(sc, rack, w).onLane
  }

  lemma ConsumedIffSubscribed(sc: Scenario, rack: string, w: Wire)
    requires Valid(sc) && w in sc.wires
    ensures ConsumedHere(sc, rack, w) <==> Subscribed(sc, rack, w)
  {
    assert ValidWire(sc, w);
    RunsIffDeployed(sc, rack, ParsePortRef(w.to).gear);
  }

  /** The source Rack of a bus subscriber does publish the subject to the bus. */
  lemma SourcePublishes(sc: Scenario, rack: string, w: Wire)
    requires Valid(sc) && rack != "" && w in sc.wires && Subscribed(sc, rack, w) && !OnLane(sc, rack, w)
    ensures PublishedForWire(sc, SourceRack(sc, rack, w), w)
  {
    ConsumedIffSubscribed(sc, rack, w);
    hide ParsePortRef, DeployOf, Runs, Valid;
  }

  /** A wire hears only the gear and port it names, on the Rack it resolves to. */
  lemma NoCrossTalk(sc: Scenario, from: string, gear: string, port: string, rack: string, w: Wire)
    requires Valid(sc) && Emission(sc, from, gear, port) && Listens(sc, rack, w, Subject(from, gear, port))
    ensures from == SourceRack(sc, rack, w) && gear == ParsePortRef(w.from).gear && port == ParsePortRef(w.from).port
  {
    assert ValidWire(sc, w);
    ValidRefParts(w.from);
    var g :| g in sc.gears && g.name == gear;
    assert ValidName(g.name);
    var f := ParsePortRef(w.from);
    hide ParsePortRef, DeployOf, Runs, Valid;
    SubjectIsInjective(from, gear, port, SourceRack(sc, rack, w), f.gear, f.port);
  }

  // ------------------------------------------------------------- what each listener hears

  /** The wires among the first n that listen on the Rack's own lane, in order. */
  function LaneTargets(sc: Scenario, rack: string, subject: string, n: nat): seq<nat>
    requires n <= |sc.wires|
  {
    if n == 0 then []
    else
      var w := sc.wires[n - 1];
      LaneTargets(sc, rack, subject, n - 1) +
      if Listens(sc, rack, w, subject) && OnLane(sc, rack, w) then [n - 1] else []
  }

  lemma {:induction false} LaneTargetsAre(sc: Scenario, rack: string, subject: string, n: nat, j: nat)
    requires n <= |sc.wires|
    ensures j in LaneTargets(sc, rack, subject, n) <==>
            j < n && Listens(sc, rack, sc.wires[j], subject) && OnLane(sc, rack, sc.wires[j])
    ensures Lane.Ascending(LaneTargets(sc, rack, subject, n))
    ensures forall k :: k in LaneTargets(sc, rack, subject, n) ==> k < n
  {
    hide Listens, OnLane;
    if n > 0 {
      LaneTargetsAre(sc, rack, subject, n - 1, j);
      var before := LaneTargets(sc, rack, subject, n - 1);
      assert forall k :: 0 <= k < |before| ==> before[k] in before;
    }
  }

  /** The lane subscriptions on a subject, in the order they were made. */
  function LaneSubs(subs: seq<Sub>, subject: string): seq<Sub> {
    if subs == [] then []
    else
      var s := subs[|subs| - 1];
      LaneSubs(subs[..|subs| - 1], subject) + if s.onLane && s.subject == subject then [s] else []
  }

  /** They are those of the lane's targets, one for one. */
  lemma {:induction false} TargetsAreSubs(sc: Scenario, rack: string, subject: string, n: nat)
    requires n <= |sc.wires|
    ensures var targets, subs := LaneTargets(sc, rack, subject, n), LaneSubs(SubsOf(sc, rack, n), subject);
            && |subs| == |targets|
            && forall i :: 0 <= i < |targets| ==>
                             targets[i] < |sc.wires| && subs[i] == SubOf(sc, rack, sc.wires[targets[i]])
  {
    hide Subscribed, Listens, OnLane, SubOf;
    if n > 0 {
      var subs, w := SubsOf(sc, rack, n - 1), sc.wires[n - 1];
      TargetsAreSubs(sc, rack, subject, n - 1);
      TargetIff(sc, rack, w, subject);
      if Subscribed(sc, rack, w) {
        LaneSubsSnoc(subs, SubOf(sc, rack, w), subject);
      } else {
        assert SubsOf(sc, rack, n) == subs;
      }
      hide LaneSubs;
    }
  }

  lemma TargetIff(sc: Scenario, rack: string, w: Wire, subject: string)
    requires w in sc.wires
    ensures Listens(sc, rack, w, subject) && OnLane(sc, rack, w) <==>
            Subscribed(sc, rack, w) && SubOf(sc, rack, w).onLane && SubOf(sc, rack, w).subject == subject
  {
    hide Subscribed;
  }

  lemma LaneSubsSnoc(subs: seq<Sub>, s: Sub, subject: string)
    ensures LaneSubs(subs + [s], subject) ==
            LaneSubs(subs, subject) + if s.onLane && s.subject == subject then [s] else []
  {
    assert (subs + [s])[..|subs|] == subs;
  }

  /** Wiring up, on the lane: one Subscribe for each lane subscription. */
  function Subscribes(subs: seq<Sub>): seq<Lane.Action> {
    if subs == [] then []
    else
      var s := subs[|subs| - 1];
      Subscribes(subs[..|subs| - 1]) + if s.onLane then [Lane.Subscribe(s.subject)] else []
  }

  lemma SubscribeListsOne(l: Lane.Lane, made: string, subject: string)
    ensures |Lane.ListOf(Lane.Step(l, Lane.Subscribe(made)).lists, subject)| ==
            |Lane.ListOf(l.lists, subject)| + if made == subject then 1 else 0
  {
  }

  /** The lane then lists as many subscriptions on a subject as were made on it. */
  lemma {:induction false} ListedSubs(queueSize: int, subs: seq<Sub>, subject: string)
    ensures |Lane.ListOf(Lane.Exec(Lane.New(queueSize), Subscribes(subs)).lists, subject)| == |LaneSubs(subs, subject)|
  {
    hide Lane.Step, Lane.Exec, Lane.ListOf;
    if subs == [] {
      Lane.ExecNone(Lane.New(queueSize));
      NoLists(queueSize, subject);
    } else {
      var before, s := subs[..|subs| - 1], subs[|subs| - 1];
      ListedSubs(queueSize, before, subject);
      var acts := Subscribes(before);
      if s.onLane {
        Lane.ExecSnoc(Lane.New(queueSize), acts, Lane.Subscribe(s.subject));
        SubscribeListsOne(Lane.Exec(Lane.New(queueSize), acts), s.subject, subject);
      } else {
        assert Subscribes(subs) == acts;
      }
    }
  }

  lemma NoLists(queueSize: int, subject: string)
    ensures Lane.ListOf(Lane.New(queueSize).lists, subject) == []
  {
  }

  /** So a publish on a Rack that has wired up has the lane's targets for its own. */
  lemma WiredUp(queueSize: int, sc: Scenario, rack: string, subject: string)
    ensures |Lane.ListOf(Lane.Exec(Lane.New(queueSize), Subscribes(SubsOf(sc, rack, |sc.wires|))).lists, subject)| ==
            |LaneTargets(sc, rack, subject, |sc.wires|)|
  {
    ListedSubs(queueSize, SubsOf(sc, rack, |sc.wires|), subject);
    TargetsAreSubs(sc, rack, subject, |sc.wires|);
  }

  /** `d` is how the lane leg of an emission on `from` ended: a finished publish to the
      lane's targets. */
  predicate LaneLeg(sc: Scenario, from: string, subject: string, d: Lane.Send) {
    Lane.ResultInv(d) && |d.targets| == |LaneTargets(sc, from, subject, |sc.wires|)|
  }

  /** The lane handed the emission to the j-th wire's consumer. */
  ghost predicate TookIt(sc: Scenario, from: string, subject: string, d: Lane.Send, j: nat) {
    var targets := LaneTargets(sc, from, subject, |sc.wires|);
    exists n: nat :: n < |targets| && targets[n] == j && Lane.Took(d, n)
  }

  /** How many copies of an emission on `from` the j-th wire's consumer on `rack` gets: the
      lane serves the emitting Rack alone; the bus every subscriber, but only after a lane
      leg that did not fail. */
  ghost function Copies(sc: Scenario, from: string, subject: string, d: Lane.Send, rack: string, j: nat): nat
    requires j < |sc.wires|
  {
    (if rack == from && TookIt(sc, from, subject, d, j) then 1 else 0) +
    (if Listens(sc, rack, sc.wires[j], subject) && !OnLane(sc, rack, sc.wires[j]) &&
        !d.failed && PublishesToBus(sc, from, subject) then 1 else 0)
  }

  /** On a lane leg that has ended, whichever way: a bus listener hears the emission exactly
      when the leg did not fail, a lane listener exactly when its queue took it, each once,
      and nobody else hears it. */
  lemma WhoHears(sc: Scenario, from: string, gear: string, port: string, d: Lane.Send, rack: string, j: nat)
    requires Valid(sc) && Emission(sc, from, gear, port) && rack != "" && j < |sc.wires|
    ensures var subject, w := Subject(from, gear, port), sc.wires[j];
            Copies(sc, from, subject, d, rack, j) ==
            if !Listens(sc, rack, w, subject) then 0
            else if OnLane(sc, rack, w) then (if TookIt(sc, from, subject, d, j) then 1 else 0)
            else if d.failed then 0 else 1
  {
    var subject, w := Subject(from, gear, port), sc.wires[j];
    LaneTargetsAre(sc, from, subject, |sc.wires|, j);
    if Listens(sc, rack, w, subject) {
      NoCrossTalk(sc, from, gear, port, rack, w);
      hide ParsePortRef, DeployOf, Runs, Valid, Subject, LaneTargets;
      if !OnLane(sc, rack, w) {
        SourcePublishes(sc, rack, w);
        assert OwnSubject(from, w) == subject;
        assert PublishesToBus(sc, from, subject);
      }
    }
  }

  /** The lane's targets all took the message exactly when the leg did not fail. */
  lemma LaneLegTook(sc: Scenario, from: string, subject: string, d: Lane.Send)
    requires LaneLeg(sc, from, subject, d)
    ensures (forall j :: j in LaneTargets(sc, from, subject, |sc.wires|) ==> TookIt(sc, from, subject, d, j))
            <==> !d.failed
  {
    var targets := LaneTargets(sc, from, subject, |sc.wires|);
    LaneTargetsAre(sc, from, subject, |sc.wires|, 0);
    Lane.FailedIffMissed(d);
    hide LaneTargets, Lane.ResultInv;
    if d.failed {
      var n :| 0 <= n < |d.targets| && !Lane.Took(d, n);
      assert targets[n] in targets;
      MissedByOne(sc, from, subject, d, n);
    } else {
      forall j | j in targets ensures TookIt(sc, from, subject, d, j) {
        var n :| 0 <= n < |targets| && targets[n] == j;
        assert Lane.Took(d, n);
      }
    }
  }

  lemma MissedByOne(sc: Scenario, from: string, subject: string, d: Lane.Send, n: nat)
    requires n < |LaneTargets(sc, from, subject, |sc.wires|)| && !Lane.Took(d, n)
    ensures !TookIt(sc, from, subject, d, LaneTargets(sc, from, subject, |sc.wires|)[n])
  {
    LaneTargetsAre(sc, from, subject, |sc.wires|, 0);
    hide LaneTargets, Lane.Took;
  }

  /** Every wire that listens hears an emission exactly once on each Rack, and no other wire
      does, exactly when the lane leg did not fail. */
  lemma EachListenerHearsOnceIff(sc: Scenario, from: string, gear: string, port: string, d: Lane.Send)
    requires Valid(sc) && Emission(sc, from, gear, port) && LaneLeg(sc, from, Subject(from, gear, port), d)
    ensures var subject := Subject(from, gear, port);
            (forall rack, j ::
               rack != "" && 0 <= j < |sc.wires| ==>
                 Copies(sc, from, subject, d, rack, j) == if Listens(sc, rack, sc.wires[j], subject) then 1 else 0)
            <==> !d.failed
  {
    var subject := Subject(from, gear, port);
    forall rack, j | rack != "" && 0 <= j < |sc.wires|
      ensures Copies(sc, from, subject, d, rack, j) ==
              if !Listens(sc, rack, sc.wires[j], subject) then 0
              else if OnLane(sc, rack, sc.wires[j]) then (if TookIt(sc, from, subject, d, j) then 1 else 0)
              else if d.failed then 0 else 1
      ensures Listens(sc, rack, sc.wires[j], subject) && OnLane(sc, rack, sc.wires[j]) ==>
                j in LaneTargets(sc, from, subject, |sc.wires|)
    {
      WhoHears(sc, from, gear, port, d, rack, j);
      LaneListener(sc, from, gear, port, rack, j);
    }
    LaneLegTook(sc, from, subject, d);
    if d.failed {
      var j :| j in LaneTargets(sc, from, subject, |sc.wires|) && !TookIt(sc, from, subject, d, j);
      LaneTargetsAre(sc, from, subject, |sc.wires|, j);
      hide Valid, Subject, LaneTargets, Listens, OnLane, Copies, TookIt, LaneLeg, Runs;
      assert Copies(sc, from, subject, d, from, j) == 0;
    }
  }

  /** A lane listener is a target of the emitting Rack's lane. */
  lemma LaneListener(sc: Scenario, from: string, gear: string, port: string, rack: string, j: nat)
    requires Valid(sc) && Emission(sc, from, gear, port) && j < |sc.wires|
    requires rack != ""
    ensures var subject := Subject(from, gear, port);
            Listens(sc, rack, sc.wires[j], subject) && OnLane(sc, rack, sc.wires[j]) ==>
              rack == from && j in LaneTargets(sc, from, subject, |sc.wires|)
  {
    var subject := Subject(from, gear, port);
    LaneTargetsAre(sc, from, subject, |sc.wires|, j);
    if Listens(sc, rack, sc.wires[j], subject) {
      NoCrossTalk(sc, from, gear, port, rack, sc.wires[j]);
    }
  }

  /** A wire's consumer has someone to listen to exactly when the source gear runs on the
      Rack the wire resolves to; validation does not check it for an explicit Rack. */
  lemma HasEmitterIffSourceRuns(sc: Scenario, rack: string, w: Wire)
    requires Valid(sc) && rack != "" && w in sc.wires && Subscribed(sc, rack, w)
    ensures (exists from, gear, port ::
               Emission(sc, from, gear, port) && Listens(sc, rack, w, Subject(from, gear, port)))
            <==> Runs(sc, SourceRack(sc, rack, w), ParsePortRef(w.from).gear)
  {
    var f := ParsePortRef(w.from);
    assert ValidWire(sc, w);
    ValidRefParts(w.from);
    if Runs(sc, SourceRack(sc, rack, w), f.gear) {
      assert Emission(sc, SourceRack(sc, rack, w), f.gear, f.port);
      assert Listens(sc, rack, w, Subject(SourceRack(sc, rack, w), f.gear, f.port));
    } else {
      forall from, gear, port | Emission(sc, from, gear, port) && Listens(sc, rack, w, Subject(from, gear, port))
        ensures false
      {
        NoCrossTalk(sc, from, gear, port, rack, w);
      }
    }
  }

  // ------------------------------------------------------------- no needless traffic

  /** The consumer's own Rack, when it names one, is where it runs. */
  predicate ConsumerPlaced(sc: Scenario, w: Wire) {
    var t := ParsePortRef(w.to);
    var deploy := DeployOf(sc.gears, t.gear);
    t.rack == "" || deploy == "" || deploy == t.rack
  }

  predicate SourcePinned(sc: Scenario, w: Wire) {
    ParsePortRef(w.from).rack != "" || DeployOf(sc.gears, ParsePortRef(w.from).gear) != ""
  }

  ghost predicate HeardOverBus(sc: Scenario, from: string, w: Wire) {
    exists rack :: rack != "" && Listens(sc, rack, w, OwnSubject(from, w)) && !OnLane(sc, rack, w)
  }

  /** A Rack publishes for a wire that someone hears over the bus exactly when the
      consumer runs where the wire says, and either the source is pinned or the consumer
      runs beside it. */
  lemma PublishedIsHeardIff(sc: Scenario, from: string, w: Wire)
    requires Valid(sc) && from != "" && w in sc.wires && PublishedForWire(sc, from, w)
    ensures HeardOverBus(sc, from, w) <==> ConsumerPlaced(sc, w) && (SourcePinned(sc, w) || ConsumedHere(sc, from, w))
  {
    var f, t := ParsePortRef(w.from), ParsePortRef(w.to);
    var deploy := DeployOf(sc.gears, t.gear);
    assert ValidWire(sc, w);
    if ConsumerPlaced(sc, w) && (SourcePinned(sc, w) || ConsumedHere(sc, from, w)) {
      var rack := if t.rack != "" then t.rack else if deploy != "" then deploy
                  else if w.lane == LANE_GUARANTEED then from else from + "'";
      assert from + "'" != from;
      HearsAt(sc, from, w, rack);
    } else {
      forall rack | rack != "" && Listens(sc, rack, w, OwnSubject(from, w)) && !OnLane(sc, rack, w)
        ensures false
      {
        ConsumedIffSubscribed(sc, rack, w);
        ValidRefParts(w.from);
        SubjectIsInjective(SourceRack(sc, rack, w), f.gear, f.port, from, f.gear, f.port);
      }
    }
  }

  lemma HearsAt(sc: Scenario, from: string, w: Wire, rack: string)
    requires Valid(sc) && from != "" && rack != "" && w in sc.wires && PublishedForWire(sc, from, w)
    requires ConsumedHere(sc, rack, w) && (rack != from || w.lane == LANE_GUARANTEED)
    requires SourcePinned(sc, w) || rack == from
    ensures HeardOverBus(sc, from, w)
  {
    ConsumedIffSubscribed(sc, rack, w);
    hide ParsePortRef, DeployOf, Runs, Valid, Subject;
    assert SourceRack(sc, rack, w) == from;
    assert Listens(sc, rack, w, OwnSubject(from, w)) && !OnLane(sc, rack, w);
  }

  // ------------------------------------------------------------- the guaranteed lane's promise

  /** No subscription made for a guaranteed wire is on the lane. */
  lemma GuaranteedSubsUseTheBus(sc: Scenario, rack: string, sub: Sub)
    requires sub in SubsOf(sc, rack, |sc.wires|) && sub.wire.lane == LANE_GUARANTEED
    ensures !sub.onLane
  {
    SubsAre(sc, rack, |sc.wires|, sub);
    hide Subscribed, WireSubject, SubsOf;
  }

  /** Every Rack that emits for a guaranteed wire publishes the subject to the bus. */
  lemma GuaranteedIsPublished(sc: Scenario, from: string, w: Wire)
    requires Valid(sc) && w in sc.wires && w.lane == LANE_GUARANTEED
    requires var f := ParsePortRef(w.from);
             Emission(sc, from, f.gear, f.port) && (f.rack == "" || f.rack == from)
    ensures var f := ParsePortRef(w.from); PublishesToBus(sc, from, Subject(from, f.gear, f.port))
  {
    var f := ParsePortRef(w.from);
    assert ValidWire(sc, w);
    RunsIffDeployed(sc, from, f.gear);
    hide ParsePortRef, DeployOf, Runs, Valid, Subject;
    assert PublishedForWire(sc, from, w) && OwnSubject(from, w) == Subject(from, f.gear, f.port);
  }

  /** So what its listener hears comes from the bus alone: once, unless the lane leg failed. */
  lemma GuaranteedIsHeardOverTheBus(sc: Scenario, from: string, gear: string, port: string,
                                    d: Lane.Send, rack: string, j: nat)
    requires Valid(sc) && Emission(sc, from, gear, port) && rack != "" && j < |sc.wires|
    requires sc.wires[j].lane == LANE_GUARANTEED && Listens(sc, rack, sc.wires[j], Subject(from, gear, port))
    ensures var subject := Subject(from, gear, port);
            && PublishesToBus(sc, from, subject) && !TookIt(sc, from, subject, d, j)
            && Copies(sc, from, subject, d, rack, j) == if d.failed then 0 else 1
  {
    var subject := Subject(from, gear, port);
    NoCrossTalk(sc, from, gear, port, rack, sc.wires[j]);
    GuaranteedIsPublished(sc, from, sc.wires[j]) by { SourceOfListener(sc, from, rack, sc.wires[j]); }
    LaneTargetsAre(sc, from, subject, |sc.wires|, j);
    WhoHears(sc, from, gear, port, d, rack, j);
    hide ParsePortRef, DeployOf, Runs, Valid, Subject, LaneTargets;
  }

  lemma SourceOfListener(sc: Scenario, from: string, rack: string, w: Wire)
    requires from == SourceRack(sc, rack, w)
    ensures ParsePortRef(w.from).rack == "" || ParsePortRef(w.from).rack == from
  {
    hide ParsePortRef, DeployOf;
  }

  /** A wire that asks for no lane, or for the hot one, with both ends on one Rack is on that
      Rack's lane, and no Rack publishes anything for it. */
  lemma InsideOneRackStaysInMemory(sc: Scenario, rack: string, w: Wire)
    requires rack != "" && w.lane != LANE_GUARANTEED
    requires var f, t := ParsePortRef(w.from), ParsePortRef(w.to);
             && FirstNonEmpty(f.rack, DeployOf(sc.gears, f.gear)) == rack
             && FirstNonEmpty(t.rack, DeployOf(sc.gears, t.gear)) == rack
    ensures OnLane(sc, rack, w)
    ensures forall r :: r != "" ==> !PublishedForWire(sc, r, w)
  {
    hide ParsePortRef, DeployOf;
  }

  /** One whose ends are pinned to different Racks crosses the bus, whatever it asks for: the
      source's Rack publishes it, and the consumer's subscribes on the bus. */
  lemma BetweenRacksUsesTheBus(sc: Scenario, from: string, to: string, w: Wire)
    requires w in sc.wires && from != "" && to != "" && from != to
    requires var f, t := ParsePortRef(w.from), ParsePortRef(w.to);
             && FirstNonEmpty(f.rack, DeployOf(sc.gears, f.gear)) == from
             && FirstNonEmpty(t.rack, DeployOf(sc.gears, t.gear)) == to
    ensures !OnLane(sc, to, w) && PublishesToBus(sc, from, OwnSubject(from, w))
    ensures WireSubject(sc, to, w) == OwnSubject(from, w)
  {
    hide ParsePortRef, DeployOf, Subject;
    assert PublishedForWire(sc, from, w);
  }

  // ------------------------------------------------------------- the hot lane's promise

  /** A hot wire is fed over the bus on a Rack exactly when its source is pinned to
      another Rack; validation lets that through only when the consumer is pinned to
      none. */
  lemma HotWireOverBusIff(sc: Scenario, rack: string, w: Wire)
    requires Valid(sc) && rack != "" && w in sc.wires && Subscribed(sc, rack, w) && w.lane == LANE_HOT
    ensures var f, t := ParsePortRef(w.from), ParsePortRef(w.to);
            var src := FirstNonEmpty(f.rack, DeployOf(sc.gears, f.gear));
            && (!OnLane(sc, rack, w) <==> src != "" && src != rack)
            && (!OnLane(sc, rack, w) ==> FirstNonEmpty(t.rack, DeployOf(sc.gears, t.gear)) == "")
  {
    ConsumedIffSubscribed(sc, rack, w);
    assert ValidWire(sc, w);
    hide ParsePortRef, DeployOf, Runs, Valid;
  }

  // ------------------------------------------------------------- starting offline

  /** Applying the scenario subscribes on the bus, or an emission of the Rack's gears can
      reach it. */
  ghost predicate UsesBus(sc: Scenario, rack: string) {
    || (exists w :: w in sc.wires && Subscribed(sc, rack, w) && !OnLane(sc, rack, w))
    || (exists gear, port :: Emission(sc, rack, gear, port) && PublishesToBus(sc, rack, Subject(rack, gear, port)))
  }

  /** A wire names this Rack as its source for a gear that does not run here. */
  predicate PhantomSource(sc: Scenario, rack: string, w: Wire) {
    var f := ParsePortRef(w.from);
    w in sc.wires && PublishedForWire(sc, rack, w) && f.rack == rack && !Runs(sc, rack, f.gear)
  }

  /** A Rack is told it needs the bus exactly when it uses it or some wire names it as the
      source Rack of a gear that runs elsewhere. In particular a Rack that is told it does
      not need the bus never touches it. */
  lemma NeedsBusIff(sc: Scenario, rack: string)
    requires Valid(sc) && rack != ""
    ensures NeedsBus(sc, rack) <==> UsesBus(sc, rack) || exists w :: PhantomSource(sc, rack, w)
  {
    forall w | w in sc.wires ensures ConsumedHere(sc, rack, w) <==> Subscribed(sc, rack, w) {
      ConsumedIffSubscribed(sc, rack, w);
    }
    forall w | w in sc.wires && PublishedForWire(sc, rack, w)
      ensures UsesBus(sc, rack) || PhantomSource(sc, rack, w)
    {
      PublishedIsUsed(sc, rack, w);
    }
    hide ParsePortRef, DeployOf, Runs, Valid, Subject, PublishedForWire;
  }

  lemma PublishedIsUsed(sc: Scenario, rack: string, w: Wire)
    requires Valid(sc) && rack != "" && w in sc.wires && PublishedForWire(sc, rack, w)
    ensures UsesBus(sc, rack) || PhantomSource(sc, rack, w)
  {
    var f := ParsePortRef(w.from);
    assert ValidWire(sc, w);
    ValidRefParts(w.from);
    RunsIffDeployed(sc, rack, f.gear);
    hide ParsePortRef, DeployOf, Runs, Valid, Subject;
    if Runs(sc, rack, f.gear) {
      assert Emission(sc, rack, f.gear, f.port);
      assert PublishesToBus(sc, rack, OwnSubject(rack, w));
      assert PublishesToBus(sc, rack, Subject(rack, f.gear, f.port));
    }
  }

  /** A plain gear of the Rack is wired to a named input. */
  predicate NamesAnInput(sc: Scenario, rack: string, ported: set<string>, w: Wire) {
    var t := ParsePortRef(w.to);
    Subscribed(sc, rack, w) && t.gear !in ported && |t.port| >= 3 && t.port[..3] == "in_"
  }

  /** Without a bus a Rack wires up a scenario exactly when no wire here is fed from the bus
      and none names an input of a plain gear; so one it does not need the bus for, with no
      such input, always starts. */
  lemma OfflineWiringIff(sc: Scenario, rack: string, ported: set<string>)
    requires Valid(sc) && rack != ""
    ensures (exists w :: w in sc.wires && CannotWire(sc, rack, ported, subject => false, w)) <==>
            exists w :: w in sc.wires && (NamesAnInput(sc, rack, ported, w) ||
                                          (Subscribed(sc, rack, w) && !OnLane(sc, rack, w)))
    ensures !NeedsBus(sc, rack) ==> forall w :: w in sc.wires && Subscribed(sc, rack, w) ==> OnLane(sc, rack, w)
  {
    forall w | w in sc.wires
      ensures CannotWire(sc, rack, ported, subject => false, w) <==>
              NamesAnInput(sc, rack, ported, w) || (Subscribed(sc, rack, w) && !OnLane(sc, rack, w))
      ensures ConsumedHere(sc, rack, w) <==> Subscribed(sc, rack, w)
    {
      ConsumedIffSubscribed(sc, rack, w);
    }
    hide ParsePortRef, DeployOf, Runs, Valid, Subject, CannotWire, NamesAnInput, Subscribed, ConsumedHere;
    hide PublishedForWire;
  }

  // ------------------------------------------------------------- scenarios that pass validation

  lemma DotAt(a: string, rest: string)
    requires DotFree(a)
    ensures IndexOf(a + "." + rest, '.') == |a| && IndexOf(a, '.') == |a|
    ensures (a + "." + rest)[..|a|] == a && (a + "." + rest)[|a| + 1..] == rest
  {
    var s := a + "." + rest;
    assert s[|a|] == '.' && forall j :: 0 <= j < |a| ==> s[j] == a[j];
  }

  /** Writing a reference and reading it back. */
  lemma ParseTwo(gear: string, port: string)
    requires DotFree(gear) && DotFree(port)
    ensures Split(gear + "." + port) == [gear, port]
    ensures ParsePortRef(gear + "." + port) == PortRef("", gear, port)
  {
    DotAt(gear, port);
    DotAt(port, "");
  }

  lemma ParseThree(rack: string, gear: string, port: string)
    requires DotFree(rack) && DotFree(gear) && DotFree(port)
    ensures Split(rack + "." + (gear + "." + port)) == [rack, gear, port]
    ensures ParsePortRef(rack + "." + (gear + "." + port)) == PortRef(rack, gear, port)
  {
    DotAt(rack, gear + "." + port);
    ParseTwo(gear, port);
  }

  /** The first dot splits. */
  lemma SplitFirst(s: string) returns (d: nat)
    ensures d == IndexOf(s, '.')
    ensures d == |s| ==> Split(s) == [s]
    ensures d < |s| ==> Split(s) == [s[..d]] + Split(s[d + 1..]) && s == s[..d] + "." + s[d + 1..]
  {
    hide IndexOf;
    d := IndexOf(s, '.');
    if d < |s| {
      AroundDot(s, d);
    }
  }

  lemma AroundDot(s: string, d: nat)
    requires d < |s| && s[d] == '.'
    ensures s == s[..d] + "." + s[d + 1..]
  {
  }

  lemma {:induction false} JoinSplit(s: string)
    ensures Join(Split(s)) == s
    decreases |s|
  {
    hide Split, IndexOf;
    var d := SplitFirst(s);
    if d < |s| {
      JoinSplit(s[d + 1..]);
      assert Split(s)[1..] == Split(s[d + 1..]);
    }
  }

  /** A reference of any other shape is a gear up to its first dot and a port after it. */
  lemma ParseOther(ref: string)
    requires |Split(ref)| != 2 && |Split(ref)| != 3
    ensures var r := ParsePortRef(ref);
            && r.rack == "" && DotFree(r.gear)
            && ref == if DotFree(ref) then r.gear + r.port else r.gear + "." + r.port
  {
    hide Split, IndexOf, Join;
    var d := SplitFirst(ref);
    if d < |ref| {
      JoinSplit(ref[d + 1..]);
      assert Split(ref)[1..] == Split(ref[d + 1..]);
    } else {
      assert Split(ref)[1..] == [];
      NothingToJoin();
    }
  }

  lemma NothingToJoin()
    ensures Join([]) == ""
  {
  }

  lemma SplitAt(a: string, rest: string)
    requires DotFree(a)
    ensures Split(a + "." + rest) == [a] + Split(rest)
  {
    DotAt(a, rest);
    hide IndexOf;
  }

  /** A subject is five words: two fixed ones, then the Rack, the gear and the port. */
  lemma SubjectReadsBack(rack: string, gear: string, port: string)
    requires DotFree(rack) && DotFree(gear) && DotFree(port)
    ensures Split(Subject(rack, gear, port)) == ["flux", "msg", rack, gear, port]
  {
    hide Split, IndexOf, ParsePortRef, DotFree, Subject;
    ParseThree(rack, gear, port);
    FixedWords();
    var rest := rack + "." + (gear + "." + port);
    SplitAt("msg", rest);
    SplitAt("flux", "msg" + "." + rest);
    SubjectWords(rack, gear, port);
    assert ["flux"] + (["msg"] + [rack, gear, port]) == ["flux", "msg", rack, gear, port];
  }

  lemma FixedWords()
    ensures DotFree("flux") && DotFree("msg")
  {
  }

  lemma SubjectWords(rack: string, gear: string, port: string)
    ensures Subject(rack, gear, port) == "flux" + "." + ("msg" + "." + (rack + "." + (gear + "." + port)))
  {
    var tail := gear + "." + port;
    assert "flux.msg." == "flux" + "." + "msg" + ".";
    Associate("flux.msg." + rack + ".", gear + ".", port);
    Associate("flux.msg." + rack + ".", gear, ".");
    Associate("flux.msg.", rack + ".", tail);
    Associate("flux.msg.", rack, ".");
    Associate("flux" + ".", "msg" + ".", rack + "." + tail);
    Associate("flux" + ".", "msg", ".");
  }

  lemma Associate(a: string, b: string, c: string)
    ensures (a + b) + c == a + (b + c)
  {
  }

  /** Gear "a" runs on Rack "s", but the wire says it emits on Rack "r". */
  const PHANTOM := Scenario(
    {"r", "s"}, true, [Gear("a", Target("s")), Gear("b", Target("s"))],
    [Wire("r" + "." + ("a" + "." + "o"), "b" + "." + "i", "")])

  lemma PhantomFacts()
    ensures var w := PHANTOM.wires[0];
            && ParsePortRef(w.from) == PortRef("r", "a", "o") && ParsePortRef(w.to) == PortRef("", "b", "i")
            && ValidPortRef(w.from) && ValidPortRef(w.to)
    ensures DistinctNames(PHANTOM.gears)
    ensures DeployOf(PHANTOM.gears, "a") == "s" && DeployOf(PHANTOM.gears, "b") == "s"
  {
    hide Split, IndexOf, ParsePortRef, ValidPortRef, DeployOf;
    ValidThree("r", "a", "o");
    ValidTwo("b", "i");
    assert "a"[0] != "b"[0];
    DeployOfGear(PHANTOM.gears, 0);
    DeployOfGear(PHANTOM.gears, 1);
  }

  lemma ValidThree(rack: string, gear: string, port: string)
    requires ValidName(rack) && ValidName(gear) && ValidName(port)
    ensures ParsePortRef(rack + "." + (gear + "." + port)) == PortRef(rack, gear, port)
    ensures ValidPortRef(rack + "." + (gear + "." + port))
  {
    ParseThree(rack, gear, port);
    hide Split, ParsePortRef;
  }

  /** Rack "r" is told it needs the bus though nothing of the scenario runs there. */
  lemma PhantomNeedsBus()
    ensures Valid(PHANTOM) && NeedsBus(PHANTOM, "r") && !UsesBus(PHANTOM, "r")
  {
    PhantomFacts();
    hide Split, IndexOf, ParsePortRef, ValidPortRef, DeployOf, DistinctNames;
    assert "r"[0] != "s"[0];
    assert PHANTOM.gears[0] in PHANTOM.gears && PHANTOM.gears[1] in PHANTOM.gears;
    assert ValidWire(PHANTOM, PHANTOM.wires[0]);
    assert PublishedForWire(PHANTOM, "r", PHANTOM.wires[0]);
    assert forall name :: !Runs(PHANTOM, "r", name);
  }

  /** Gear "a" on Rack "r" feeds "b" beside it and "c" on Rack "s". */
  const SPLIT := Scenario(
    {"r", "s"}, true, [Gear("a", Target("r")), Gear("b", Target("r")), Gear("c", Target("s"))],
    [Wire("a" + "." + "o", "b" + "." + "i", ""), Wire("a" + "." + "o", "c" + "." + "i", "")])

  lemma SplitFacts()
    ensures var w, v := SPLIT.wires[0], SPLIT.wires[1];
            && ParsePortRef(w.from) == ParsePortRef(v.from) == PortRef("", "a", "o")
            && ParsePortRef(w.to) == PortRef("", "b", "i") && ParsePortRef(v.to) == PortRef("", "c", "i")
            && ValidPortRef(w.from) && ValidPortRef(w.to) && ValidPortRef(v.to)
  {
    ValidTwo("a", "o");
    ValidTwo("b", "i");
    ValidTwo("c", "i");
    hide ParsePortRef, ValidPortRef;
  }

  lemma ValidTwo(gear: string, port: string)
    requires ValidName(gear) && ValidName(port)
    ensures ParsePortRef(gear + "." + port) == PortRef("", gear, port) && ValidPortRef(gear + "." + port)
  {
    ParseTwo(gear, port);
    hide Split, ParsePortRef;
  }

  lemma SplitPlaces()
    ensures DistinctNames(SPLIT.gears)
    ensures DeployOf(SPLIT.gears, "a") == DeployOf(SPLIT.gears, "b") == "r" && DeployOf(SPLIT.gears, "c") == "s"
  {
    hide DeployOf;
    assert "a"[0] != "b"[0] && "b"[0] != "c"[0] && "a"[0] != "c"[0];
    DeployOfGear(SPLIT.gears, 0);
    DeployOfGear(SPLIT.gears, 1);
    DeployOfGear(SPLIT.gears, 2);
  }

  /** "b" is fed on the lane and "c" over the bus. */
  lemma SplitRoutes()
    ensures Valid(SPLIT) && Emission(SPLIT, "r", "a", "o")
    ensures var subject := Subject("r", "a", "o");
            && Listens(SPLIT, "r", SPLIT.wires[0], subject) && OnLane(SPLIT, "r", SPLIT.wires[0])
            && Listens(SPLIT, "s", SPLIT.wires[1], subject) && !OnLane(SPLIT, "s", SPLIT.wires[1])
            && !Listens(SPLIT, "r", SPLIT.wires[1], subject)
  {
    SplitFacts();
    SplitPlaces();
    hide Split, IndexOf, ParsePortRef, ValidPortRef, DeployOf, DistinctNames, Subject;
    assert "r"[0] != "s"[0];
    var a, b, c := SPLIT.gears[0], SPLIT.gears[1], SPLIT.gears[2];
    assert a in SPLIT.gears && b in SPLIT.gears && c in SPLIT.gears;
    assert ValidWire(SPLIT, SPLIT.wires[0]) && ValidWire(SPLIT, SPLIT.wires[1]);
    RunsIffDeployed(SPLIT, "r", "c");
    assert Runs(SPLIT, "r", "a") && Runs(SPLIT, "r", "b") && Runs(SPLIT, "s", "c");
  }

  /** The queue of "b" is full: nobody hears the emission, "c" on the other Rack included. */
  lemma FullQueueSilencesTheBus(d: Lane.Send)
    requires d == Lane.Send(Subject("r", "a", "o"), 2, [0], [false], Lane.NotBegun, 0, true)
    ensures var subject := Subject("r", "a", "o");
            && Valid(SPLIT) && Emission(SPLIT, "r", "a", "o") && LaneLeg(SPLIT, "r", subject, d)
            && Listens(SPLIT, "r", SPLIT.wires[0], subject) && Listens(SPLIT, "s", SPLIT.wires[1], subject)
            && Copies(SPLIT, "r", subject, d, "r", 0) == 0 && Copies(SPLIT, "r", subject, d, "s", 1) == 0
  {
    var subject := Subject("r", "a", "o");
    SplitRoutes();
    hide Valid, Emission, Listens, OnLane, Subject;
    assert LaneTargets(SPLIT, "r", subject, 1) == [0];
    assert LaneTargets(SPLIT, "r", subject, 2) == [0];
    hide LaneTargets;
    WhoHears(SPLIT, "r", "a", "o", d, "r", 0);
    WhoHears(SPLIT, "r", "a", "o", d, "s", 1);
    hide Copies;
    assert !Lane.Took(d, 0);
    assert !TookIt(SPLIT, "r", subject, d, 0);
  }

  /** A hot wire from a gear pinned to Rack "r" to one that runs on every Rack. */
  const SPREAD := Scenario(
    {"r"}, true, [Gear("a", Target("r")), Gear("b", NoDeploy)],
    [Wire("a" + "." + "o", "b" + "." + "i", LANE_HOT)])

  /** On Rack "s" the hot wire is fed over the bus. */
  lemma HotWireLeavesTheRack()
    ensures Valid(SPREAD) && Subscribed(SPREAD, "s", SPREAD.wires[0]) && !OnLane(SPREAD, "s", SPREAD.wires[0])
  {
    var w := SPREAD.wires[0];
    ParseTwo("a", "o");
    ParseTwo("b", "i");
    var a, b := SPREAD.gears[0], SPREAD.gears[1];
    assert "a"[0] != "b"[0] && "r"[0] != "s"[0];
    DeployOfGear(SPREAD.gears, 0);
    DeployOfGear(SPREAD.gears, 1);
    hide Split, IndexOf, ParsePortRef, DeployOf;
    assert a in SPREAD.gears && b in SPREAD.gears;
    assert ValidWire(SPREAD, w);
  }
}

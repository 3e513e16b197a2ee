/** Hot lane or bus: what each Rack, deciding alone, publishes and subscribes to. */
module Routes {
  import opened Common

  /** `deploy` names a Rack or a group, is absent, or is something other than a string. */
  datatype Deploy = NoDeploy | OtherDeploy | Target(rack: string)
  datatype Gear = Gear(name: string, deploy: Deploy)
  datatype Wire = Wire(from: string, to: string, lane: string)
  datatype Scenario = Scenario(racks: set<string>, explicitRacks: bool, gears: seq<Gear>, wires: seq<Wire>)

  const LANE_HOT := "hot"
  const LANE_GUARANTEED := "guaranteed"

  // ------------------------------------------------------------- names and port references

  predicate DotFree(s: string) {
    '.' !in s
  }

  predicate NameChar(c: char) {
    'a' <= c <= 'z' || '0' <= c <= '9' || c == '_' || c == '-'
  }

  predicate ValidName(s: string) {
    s != "" && forall i :: 0 <= i < |s| ==> NameChar(s[i])
  }

  function Split(s: string): (parts: seq<string>)
    ensures parts != []
    decreases |s|
  {
    var d := IndexOf(s, '.');
    if d == |s| then [s] else [s[..d]] + Split(s[d + 1..])
  }

  function Join(parts: seq<string>): string {
    if parts == [] then "" else if |parts| == 1 then parts[0] else parts[0] + "." + Join(parts[1..])
  }

  datatype PortRef = PortRef(rack: string, gear: string, port: string)

  function ParsePortRef(ref: string): PortRef {
    var parts := Split(ref);
    if |parts| == 2 then PortRef("", parts[0], parts[1])
    else if |parts| == 3 then PortRef(parts[0], parts[1], parts[2])
    else PortRef("", parts[0], Join(parts[1..]))
  }

  predicate ValidPortRef(ref: string) {
    var parts := Split(ref);
    (|parts| == 2 || |parts| == 3) && forall i :: 0 <= i < |parts| ==> ValidName(parts[i])
  }

  lemma ValidRefParts(ref: string)
    requires ValidPortRef(ref)
    ensures var r := ParsePortRef(ref); ValidName(r.gear) && ValidName(r.port) && DotFree(r.gear) && DotFree(r.port)
  {
  }

  function Subject(rack: string, gear: string, port: string): string {
    "flux.msg." + rack + "." + gear + "." + port
  }

  /** What follows the last dot is the dot-free part. */
  lemma LastPart(a: string, p: string, b: string, q: string)
    requires a + "." + p == b + "." + q && DotFree(p) && DotFree(q)
    ensures a == b && p == q
  {
    var s := a + "." + p;
    assert s[|a|] == '.' && s[|b|] == '.';
    if |a| == |b| {
      assert a == s[..|a|] == b && p == s[|a| + 1..] == q;
    }
  }

  /** A subject says which Rack, gear and port it belongs to, whatever the Rack's name. */
  lemma SubjectIsInjective(r: string, g: string, p: string, r': string, g': string, p': string)
    requires DotFree(g) && DotFree(p) && DotFree(g') && DotFree(p')
    requires Subject(r, g, p) == Subject(r', g', p')
    ensures r == r' && g == g' && p == p'
  {
    LastPart("flux.msg." + r + "." + g, p, "flux.msg." + r' + "." + g', p');
    LastPart("flux.msg." + r, g, "flux.msg." + r', g');
    assert r == ("flux.msg." + r)[9..] == ("flux.msg." + r')[9..] == r';
  }

  // ------------------------------------------------------------- where gears run

  /** The Rack a gear is pinned to, or "". A later entry wins over an earlier one. */
  function DeployOf(gears: seq<Gear>, name: string): string {
    if gears == [] then ""
    else
      var g := gears[|gears| - 1];
      if g.name == name && g.deploy.Target? then g.deploy.rack else DeployOf(gears[..|gears| - 1], name)
  }

  function Lookup(m: map<string, string>, name: string): string {
    if name in m then m[name] else ""
  }

  method DeployMap(sc: Scenario) returns (m: map<string, string>)
    ensures forall name :: Lookup(m, name) == DeployOf(sc.gears, name)
  {
    m := map[];
    for i := 0 to |sc.gears|
      invariant forall name :: Lookup(m, name) == DeployOf(sc.gears[..i], name)
    {
      assert sc.gears[..i + 1][..i] == sc.gears[..i];
      if sc.gears[i].deploy.Target? {
        m := m[sc.gears[i].name := sc.gears[i].deploy.rack];
      }
    }
    assert sc.gears[..|sc.gears|] == sc.gears;
  }

  /** The scenario runs a gear of this name on the Rack. */
  predicate Runs(sc: Scenario, rack: string, name: string) {
    exists g :: g in sc.gears && g.name == name &&
                (g.deploy.Target? ==> g.deploy.rack == "" || g.deploy.rack == rack)
  }

  predicate Declared(sc: Scenario, name: string) {
    exists g :: g in sc.gears && g.name == name
  }

  // ------------------------------------------------------------- the scenarios that pass validation

  function FirstNonEmpty(a: string, b: string): string {
    if a != "" then a else b
  }

  predicate DistinctNames(gears: seq<Gear>) {
    forall i, j :: 0 <= i < j < |gears| ==> gears[i].name != gears[j].name
  }

  predicate ValidWire(sc: Scenario, w: Wire) {
    && ValidPortRef(w.from) && ValidPortRef(w.to)
    && (w.lane == "" || w.lane == LANE_HOT || w.lane == LANE_GUARANTEED)
    && var f, t := ParsePortRef(w.from), ParsePortRef(w.to);
    && (w.lane == LANE_HOT ==>
          var src := FirstNonEmpty(f.rack, DeployOf(sc.gears, f.gear));
          var dst := FirstNonEmpty(t.rack, DeployOf(sc.gears, t.gear));
          src == "" || dst == "" || src == dst)
    && (f.rack != "" ==> f.rack in sc.racks) && (t.rack != "" ==> t.rack in sc.racks)
    && Declared(sc, f.gear) && Declared(sc, t.gear)
  }

  /** What Validate guarantees of names, deploy targets and wires. */
  predicate Valid(sc: Scenario) {
    && (forall g :: g in sc.gears ==> ValidName(g.name))
    && DistinctNames(sc.gears)
    && (sc.explicitRacks ==> forall g :: g in sc.gears && g.deploy.Target? ==> g.deploy.rack in sc.racks)
    && forall w :: w in sc.wires ==> ValidWire(sc, w)
  }

  lemma {:induction false} DeployOfGear(gears: seq<Gear>, i: nat)
    requires i < |gears| && DistinctNames(gears)
    ensures DeployOf(gears, gears[i].name) == if gears[i].deploy.Target? then gears[i].deploy.rack else ""
    decreases |gears|
  {
    var n := |gears| - 1;
    if i < n {
      assert gears[..n][i] == gears[i];
      DeployOfGear(gears[..n], i);
    } else {
      NotNamed(gears[..n], gears[n].name);
    }
  }

  lemma {:induction false} NotNamed(gears: seq<Gear>, name: string)
    requires forall i :: 0 <= i < |gears| ==> gears[i].name != name
    ensures DeployOf(gears, name) == ""
  {
    if gears != [] {
      NotNamed(gears[..|gears| - 1], name);
    }
  }

  /** A declared gear runs on a Rack exactly when it is pinned to it or to none. */
  lemma RunsIffDeployed(sc: Scenario, rack: string, name: string)
    requires DistinctNames(sc.gears) && Declared(sc, name)
    ensures Runs(sc, rack, name) <==> DeployOf(sc.gears, name) == "" || DeployOf(sc.gears, name) == rack
  {
    var g :| g in sc.gears && g.name == name;
    var i :| 0 <= i < |sc.gears| && sc.gears[i] == g;
    DeployOfGear(sc.gears, i);
    forall h | h in sc.gears && h.name == name ensures h == g {
      var j :| 0 <= j < |sc.gears| && sc.gears[j] == h;
    }
  }

  // ------------------------------------------------------------- what a Rack decides

  predicate WireOnLane(w: Wire, sourceRack: string, rack: string) {
    sourceRack == rack && w.lane != LANE_GUARANTEED
  }

  /** The Rack whose subject the wire's consumer on `rack` listens to. */
  function SourceRack(sc: Scenario, rack: string, w: Wire): string {
    var f := ParsePortRef(w.from);
    FirstNonEmpty(f.rack, FirstNonEmpty(DeployOf(sc.gears, f.gear), rack))
  }

  function WireSubject(sc: Scenario, rack: string, w: Wire): string {
    var f := ParsePortRef(w.from);
    Subject(SourceRack(sc, rack, w), f.gear, f.port)
  }

  /** The test busEmitSubjects makes of one wire. */
  predicate PublishedForWire(sc: Scenario, rack: string, w: Wire) {
    var f, t := ParsePortRef(w.from), ParsePortRef(w.to);
    var pinned := DeployOf(sc.gears, f.gear);
    var emitsHere := f.rack == rack || (f.rack == "" && (pinned == rack || pinned == ""));
    var sourcePinned := f.rack != "" || pinned != "";
    var consumerElsewhere := (t.rack != "" && t.rack != rack) || (t.rack == "" && DeployOf(sc.gears, t.gear) != rack);
    emitsHere && (w.lane == LANE_GUARANTEED || (sourcePinned && consumerElsewhere))
  }

  function OwnSubject(rack: string, w: Wire): string {
    Subject(rack, ParsePortRef(w.from).gear, ParsePortRef(w.from).port)
  }

  /** The Rack publishes emissions on this subject to the bus. */
  predicate PublishesToBus(sc: Scenario, rack: string, subject: string) {
    exists w :: w in sc.wires && PublishedForWire(sc, rack, w) && OwnSubject(rack, w) == subject
  }

  method BusEmitSubjects(sc: Scenario, rack: string, gearDeploy: map<string, string>) returns (subjects: set<string>)
    requires forall name :: Lookup(gearDeploy, name) == DeployOf(sc.gears, name)
    ensures forall s :: s in subjects <==> PublishesToBus(sc, rack, s)
  {
    subjects := {};
    for i := 0 to |sc.wires|
      invariant forall s :: s in subjects <==>
                            exists j :: 0 <= j < i && PublishedForWire(sc, rack, sc.wires[j]) &&
                                        OwnSubject(rack, sc.wires[j]) == s
    {
      var w := sc.wires[i];
      var f, t := ParsePortRef(w.from), ParsePortRef(w.to);
      var pinned := Lookup(gearDeploy, f.gear);
      if f.rack == rack || (f.rack == "" && (pinned == rack || pinned == "")) {
        var sourcePinned := f.rack != "" || pinned != "";
        var consumerElsewhere :=
          (t.rack != "" && t.rack != rack) || (t.rack == "" && Lookup(gearDeploy, t.gear) != rack);
        if w.lane == LANE_GUARANTEED || (sourcePinned && consumerElsewhere) {
          subjects := subjects + {Subject(rack, f.gear, f.port)};
        }
      }
    }
  }

  /** The Rack subscribes the wire's consumer. */
  predicate Subscribed(sc: Scenario, rack: string, w: Wire) {
    var t := ParsePortRef(w.to);
    (t.rack == "" || t.rack == rack) && Runs(sc, rack, t.gear)
  }

  datatype Sub = Sub(wire: Wire, subject: string, onLane: bool)
  datatype Wired = Wired(subs: seq<Sub>) | Refused

  function SubOf(sc: Scenario, rack: string, w: Wire): Sub {
    Sub(w, WireSubject(sc, rack, w), WireOnLane(w, SourceRack(sc, rack, w), rack))
  }

  /** The subscriptions of the first n wires, in order. */
  function SubsOf(sc: Scenario, rack: string, n: nat): seq<Sub>
    requires n <= |sc.wires|
  {
    if n == 0 then []
    else
      var w := sc.wires[n - 1];
      SubsOf(sc, rack, n - 1) + if Subscribed(sc, rack, w) then [SubOf(sc, rack, w)] else []
  }

  /** A subscription is made exactly for each wire whose consumer is subscribed. */
  lemma {:induction false} SubsAre(sc: Scenario, rack: string, n: nat, sub: Sub)
    requires n <= |sc.wires|
    ensures sub in SubsOf(sc, rack, n) <==>
            exists j :: 0 <= j < n && Subscribed(sc, rack, sc.wires[j]) && sub == SubOf(sc, rack, sc.wires[j])
  {
    hide Subscribed, SubOf;
    if n > 0 {
      SubsAre(sc, rack, n - 1, sub);
    }
  }

  predicate NamedInput(port: string) {
    |port| >= 3 && port[..3] == "in_"
  }

  /** A wire that cannot be wired: a named input on a plain gear, or a bus that does not
      take the subscription. */
  predicate CannotWire(sc: Scenario, rack: string, ported: set<string>, busTakes: string -> bool, w: Wire) {
    var t := ParsePortRef(w.to);
    && Subscribed(sc, rack, w)
    && ((t.gear !in ported && NamedInput(t.port)) ||
        (!SubOf(sc, rack, w).onLane && !busTakes(WireSubject(sc, rack, w))))
  }

  /** The wiring loop of ApplyScenario. `active` are the gears started on this Rack,
      `ported` those that take named inputs, `busTakes` the bus's answer to Subscribe. */
  method WireUp(sc: Scenario, rack: string, gearDeploy: map<string, string>, active: set<string>, ported: set<string>,
                busTakes: string -> bool)
    returns (r: Wired)
    requires forall name :: Lookup(gearDeploy, name) == DeployOf(sc.gears, name)
    requires forall name :: name in active <==> Runs(sc, rack, name)
    ensures r.Refused? <==> exists w :: w in sc.wires && CannotWire(sc, rack, ported, busTakes, w)
    ensures r.Wired? ==> r.subs == SubsOf(sc, rack, |sc.wires|)
  {
    hide ParsePortRef, Subject, Runs, DeployOf;
    var subs: seq<Sub> := [];
    for i := 0 to |sc.wires|
      invariant subs == SubsOf(sc, rack, i)
      invariant forall j :: 0 <= j < i ==> !CannotWire(sc, rack, ported, busTakes, sc.wires[j])
    {
      var w := sc.wires[i];
      var t := ParsePortRef(w.to);
      if (t.rack == "" || t.rack == rack) && t.gear in active {
        var inPort := if t.port == "" then "in" else t.port;
        if t.gear !in ported && NamedInput(inPort) {
          assert CannotWire(sc, rack, ported, busTakes, w);
          return Refused;
        }
        var f := ParsePortRef(w.from);
        var sourceRack := f.rack;
        if sourceRack == "" {
          sourceRack := Lookup(gearDeploy, f.gear);
        }
        if sourceRack == "" {
          sourceRack := rack;
        }
        var subject := Subject(sourceRack, f.gear, f.port);
        var onLane := WireOnLane(w, sourceRack, rack);
        if !onLane && !busTakes(subject) {
          assert CannotWire(sc, rack, ported, busTakes, w);
          return Refused;
        }
        subs := subs + [Sub(w, subject, onLane)];
      }
    }
    r := Wired(subs);
  }

  method ScenarioNeedsBus(sc: Scenario, rack: string, gearDeploy: map<string, string>) returns (needs: bool)
    requires forall name :: Lookup(gearDeploy, name) == DeployOf(sc.gears, name)
    ensures needs == NeedsBus(sc, rack)
  {
    hide ParsePortRef, Subject, Runs, DeployOf;
    var subjects := BusEmitSubjects(sc, rack, gearDeploy);
    if subjects != {} {
      var s :| s in subjects;
      assert PublishesToBus(sc, rack, s);
      return true;
    }
    assert forall w :: w in sc.wires && PublishedForWire(sc, rack, w) ==> OwnSubject(rack, w) in subjects;
    for i := 0 to |sc.wires|
      invariant forall j :: 0 <= j < i && ConsumedHere(sc, rack, sc.wires[j]) ==> SubOf(sc, rack, sc.wires[j]).onLane
    {
      var w := sc.wires[i];
      var f, t := ParsePortRef(w.from), ParsePortRef(w.to);
      var deploy := Lookup(gearDeploy, t.gear);
      if (t.rack == "" || t.rack == rack) && (deploy == "" || deploy == rack) {
        var sourceRack := FirstNonEmpty(f.rack, FirstNonEmpty(Lookup(gearDeploy, f.gear), rack));
        if !WireOnLane(w, sourceRack, rack) {
          assert ConsumedHere(sc, rack, w) && !SubOf(sc, rack, w).onLane;
          return true;
        }
      }
    }
    return false;
  }

  /** A wire is published for, or a consumer here is fed from the bus. */
  predicate NeedsBus(sc: Scenario, rack: string) {
    || (exists w :: w in sc.wires && PublishedForWire(sc, rack, w))
    || (exists w :: w in sc.wires && ConsumedHere(sc, rack, w) && !SubOf(sc, rack, w).onLane)
  }

  predicate ConsumedHere(sc: Scenario, rack: string, w: Wire) {
    var t := ParsePortRef(w.to);
    var deploy := DeployOf(sc.gears, t.gear);
    (t.rack == "" || t.rack == rack) && (deploy == "" || deploy == rack)
  }
}

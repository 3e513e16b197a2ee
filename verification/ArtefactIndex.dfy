/** The artefact index: one file shared by any number of managers, each with its own copy
    in memory. An import reads, changes and writes the file under its lock. */
module ArtefactIndex {
  import opened Common
  import opened Versions

  datatype Kind = Spec | Scenario

  /** Name to tag to content hash. */
  type Names = map<string, Tags>
  datatype Index = Index(specs: Names, scenarios: Names)

  const EMPTY := Index(map[], map[])

  function Of(idx: Index, kind: Kind): Names {
    if kind.Spec? then idx.specs else idx.scenarios
  }

  function With(idx: Index, kind: Kind, names: Names): Index {
    if kind.Spec? then idx.(specs := names) else idx.(scenarios := names)
  }

  function TagsOf(names: Names, name: string): Tags {
    if name in names then names[name] else map[]
  }

  /** The union of two, the second winning on a collision. */
  function Merge(a: Names, b: Names): Names {
    map n | n in a.Keys + b.Keys :: TagsOf(a, n) + TagsOf(b, n)
  }

  function MergeIndex(a: Index, b: Index): Index {
    Index(Merge(a.specs, b.specs), Merge(a.scenarios, b.scenarios))
  }

  /** An import: what is filed under which name, and the versions the caller and the
      document give, if any. */
  datatype Request = Request(kind: Kind, name: string, override: Option<Tag>, declared: Option<Tag>, hash: string)

  /** What can go wrong outside the index itself. */
  datatype Fault = NoFault | LockFails | ReadFails | WriteFails

  datatype Result = Imported(tag: Tag) | Unavailable | InvalidVersion | VersionExists | NotWritten

  ghost function TopOf(tags: Tags): Option<Tag> {
    if HasVersion(tags) then Some(Highest(tags)) else None
  }

  ghost function FinalTag(tags: Tags, req: Request): Tag {
    if req.override.Some? then req.override.value
    else if req.declared.Some? then req.declared.value
    else NextMinor(TopOf(tags))
  }

  /** Files a version and moves "latest" to the highest. */
  ghost function Filed(tags: Tags, tag: Tag, hash: string): Tags
    requires tag.Version?
  {
    var filed := tags[tag := hash];
    assert tag in filed;
    filed[LATEST := filed[Highest(filed)]]
  }

  datatype Outcome = Outcome(disk: Index, mem: Index, result: Result)

  ghost function Import(disk: Index, mem: Index, req: Request, fault: Fault): Outcome {
    if fault.LockFails? || fault.ReadFails? then Outcome(disk, mem, Unavailable)
    else
      var current := MergeIndex(mem, disk);
      var names := Of(current, req.kind);
      var tags := TagsOf(names, req.name);
      var tag := FinalTag(tags, req);
      if !tag.Version? then Outcome(disk, current, InvalidVersion)
      else if tag in tags && tags[tag] != req.hash then Outcome(disk, current, VersionExists)
      else
        var changed := With(current, req.kind, names[req.name := Filed(tags, tag, req.hash)]);
        if fault.WriteFails? then Outcome(disk, changed, NotWritten) else Outcome(changed, changed, Imported(tag))
  }

  datatype State = State(disk: Index, mems: seq<Index>)

  /** A manager starts, or one imports. */
  datatype Action = Start | DoImport(manager: nat, req: Request, fault: Fault)

  ghost function Step(s: State, a: Action): State {
    match a
    case Start => s.(mems := s.mems + [s.disk])
    case DoImport(m, req, fault) =>
      if m >= |s.mems| then s
      else
        var o := Import(s.disk, s.mems[m], req, fault);
        State(o.disk, s.mems[m := o.mem])
  }

  ghost function Exec(s: State, acts: seq<Action>): State {
    if acts == [] then s else Step(Exec(s, acts[..|acts| - 1]), acts[|acts| - 1])
  }

  // ------------------------------------------------------------- versions are immutable

  /** Every version of the first is in the second, with the same hash. */
  predicate Keeps(a: Tags, b: Tags) {
    forall t :: t in a && t.Version? ==> t in b && b[t] == a[t]
  }

  predicate KeepsNames(a: Names, b: Names) {
    forall n :: n in a ==> n in b && Keeps(a[n], b[n])
  }

  predicate KeepsIndex(a: Index, b: Index) {
    KeepsNames(a.specs, b.specs) && KeepsNames(a.scenarios, b.scenarios)
  }

  lemma FiledKeeps(tags: Tags, tag: Tag, hash: string)
    requires tag.Version? && (tag in tags ==> tags[tag] == hash)
    ensures Keeps(tags, Filed(tags, tag, hash))
  {
  }

  lemma MergeKeeps(a: Names, b: Names)
    ensures KeepsNames(b, Merge(a, b))
  {
  }

  lemma ImportKeeps(disk: Index, mem: Index, req: Request, fault: Fault)
    ensures KeepsIndex(disk, Import(disk, mem, req, fault).disk)
  {
    var current := MergeIndex(mem, disk);
    var tags := TagsOf(Of(current, req.kind), req.name);
    MergeKeeps(mem.specs, disk.specs);
    MergeKeeps(mem.scenarios, disk.scenarios);
    var tag := FinalTag(tags, req);
    hide Merge, FinalTag;
    if tag.Version? && (tag in tags ==> tags[tag] == req.hash) {
      FiledKeeps(tags, tag, req.hash);
      hide Filed;
    }
  }

  /** For any number of managers importing in any order, with any faults, a name:tag that
      is in the file stays there with the same hash. */
  lemma {:induction false} StoredVersionsAreImmutable(s: State, acts: seq<Action>)
    ensures KeepsIndex(s.disk, Exec(s, acts).disk)
  {
    if acts != [] {
      var before, a := Exec(s, acts[..|acts| - 1]), acts[|acts| - 1];
      StoredVersionsAreImmutable(s, acts[..|acts| - 1]);
      if a.DoImport? && a.manager < |before.mems| {
        ImportKeeps(before.disk, before.mems[a.manager], a.req, a.fault);
      }
      hide Import;
    }
  }

  // ------------------------------------------------------------- "latest" is the highest version

  /** "latest" points at the hash of the highest version. */
  ghost predicate LatestOk(tags: Tags) {
    HasVersion(tags) && LATEST in tags && tags[LATEST] == tags[Highest(tags)]
  }

  ghost predicate NamesOk(names: Names) {
    forall n :: n in names ==> LatestOk(names[n])
  }

  ghost predicate IndexOk(idx: Index) {
    NamesOk(idx.specs) && NamesOk(idx.scenarios)
  }

  /** The first holds no name and no tag the second lacks. */
  predicate Behind(a: Names, b: Names) {
    forall n :: n in a ==> n in b && a[n].Keys <= b[n].Keys
  }

  predicate BehindIndex(a: Index, b: Index) {
    Behind(a.specs, b.specs) && Behind(a.scenarios, b.scenarios)
  }

  /** A copy that is behind the file adds nothing to it. */
  lemma MergeBehind(a: Names, b: Names)
    requires Behind(a, b)
    ensures Merge(a, b) == b
  {
    forall n | n in b
      ensures TagsOf(a, n) + TagsOf(b, n) == b[n]
    {
    }
  }

  lemma FiledIsOk(tags: Tags, tag: Tag, hash: string)
    requires tag.Version?
    ensures LatestOk(Filed(tags, tag, hash))
    ensures tags.Keys <= Filed(tags, tag, hash).Keys
  {
    var filed := tags[tag := hash];
    var r := Filed(tags, tag, hash);
    assert tag in filed && tag in r;
    assert forall t: Tag :: t.Version? ==> (t in r <==> t in filed) && (t in r ==> r[t] == filed[t]);
    HighestIsUnique(r, Highest(r), Highest(filed));
  }

  /** A step of managers whose copies are behind the file, with no failed write, keeps
      the file right and the copies behind it. */
  lemma ImportKeepsLatest(disk: Index, mem: Index, req: Request, fault: Fault)
    requires IndexOk(disk) && BehindIndex(mem, disk) && !fault.WriteFails?
    ensures var o := Import(disk, mem, req, fault);
            IndexOk(o.disk) && BehindIndex(o.mem, o.disk) && BehindIndex(disk, o.disk)
  {
    MergeBehind(mem.specs, disk.specs);
    MergeBehind(mem.scenarios, disk.scenarios);
    BehindSelf(disk);
    hide Merge, FinalTag, Filed, NamesOk, Behind;
    assert MergeIndex(mem, disk) == disk;
    var names := Of(disk, req.kind);
    var tag := FinalTag(TagsOf(names, req.name), req);
    if tag.Version? {
      FileKeepsNames(names, req.name, tag, req.hash);
      var changed := With(disk, req.kind, names[req.name := Filed(TagsOf(names, req.name), tag, req.hash)]);
      BehindSelf(changed);
    }
  }

  lemma FileKeepsNames(names: Names, name: string, tag: Tag, hash: string)
    requires NamesOk(names) && tag.Version?
    ensures var filed := names[name := Filed(TagsOf(names, name), tag, hash)]; NamesOk(filed) && Behind(names, filed)
  {
    FiledIsOk(TagsOf(names, name), tag, hash);
    hide Filed, LatestOk;
  }

  ghost predicate InStep(s: State) {
    IndexOk(s.disk) && forall m :: 0 <= m < |s.mems| ==> BehindIndex(s.mems[m], s.disk)
  }

  lemma BehindTrans(a: Index, b: Index, c: Index)
    requires BehindIndex(a, b) && BehindIndex(b, c)
    ensures BehindIndex(a, c)
  {
  }

  /** While every write succeeds, "latest" in the file always points at the hash of the
      highest version of its name. */
  lemma {:induction false} LatestIsHighest(acts: seq<Action>)
    requires forall a :: a in acts && a.DoImport? ==> !a.fault.WriteFails?
    ensures InStep(Exec(State(EMPTY, []), acts))
  {
    if acts != [] {
      var before, a := acts[..|acts| - 1], acts[|acts| - 1];
      assert (forall b :: b in before ==> b in acts) && a in acts;
      LatestIsHighest(before);
      var s := Exec(State(EMPTY, []), before);
      hide IndexOk, BehindIndex;
      if a.DoImport? && a.manager < |s.mems| {
        ImportKeepsLatest(s.disk, s.mems[a.manager], a.req, a.fault);
        var o := Import(s.disk, s.mems[a.manager], a.req, a.fault);
        hide Import;
        forall m | 0 <= m < |s.mems| ensures BehindIndex(s.mems[m], o.disk) { BehindTrans(s.mems[m], s.disk, o.disk); }
      } else {
        BehindSelf(s.disk);
      }
    }
  }

  lemma BehindSelf(idx: Index)
    ensures BehindIndex(idx, idx)
  {
  }

  // ------------------------------------------------------------- versions assigned by the store

  /** An import that names no version gets one strictly above every version of the name,
      in the file or in memory, exactly when the highest of them leaves room; it is then
      filed. */
  lemma AssignedVersionIsAboveIff(disk: Index, mem: Index, req: Request)
    requires req.override.None? && req.declared.None?
    requires HasVersion(TagsOf(Of(MergeIndex(mem, disk), req.kind), req.name))
    ensures var tags := TagsOf(Of(MergeIndex(mem, disk), req.kind), req.name);
            var tag := FinalTag(tags, req);
            && ((forall t :: t in tags && t.Version? ==> StrictlyAbove(tag, t)) <==> HasRoom(Highest(tags)))
            && (HasRoom(Highest(tags)) ==> Import(disk, mem, req, NoFault).result == Imported(tag))
            && forall t :: t in TagsOf(Of(disk, req.kind), req.name) ==> t in tags
  {
    var tags := TagsOf(Of(MergeIndex(mem, disk), req.kind), req.name);
    NextMinorIsAboveIff(tags, Highest(tags));
    var tag := FinalTag(tags, req);
    if HasRoom(Highest(tags)) {
      LexTotal(Rank(tag), Rank(tag));
      assert tag !in tags;
    }
    hide Filed, FinalTag, NextMinor, HasRoom;
  }

  /** The first version of a name that has none is v0.1.0. */
  lemma FirstVersionOfAName(disk: Index, mem: Index, req: Request)
    requires req.override.None? && req.declared.None?
    requires !HasVersion(TagsOf(Of(MergeIndex(mem, disk), req.kind), req.name))
    ensures var result := Import(disk, mem, req, NoFault).result; result.Imported? && result.tag.text == "v0.1.0"
  {
    NextVersionReads(LATEST);
    hide Filed, Merge;
  }

  // ------------------------------------------------------------- what an import reports and files

  /** A successful import is filed under the version the caller gave, whatever the document
      declares; under the document's without one; and the file then holds that name and tag,
      among the specs or the scenarios, with exactly the hash that was imported. */
  lemma ImportFilesWhatItReports(disk: Index, mem: Index, req: Request, fault: Fault)
    requires Import(disk, mem, req, fault).result.Imported?
    ensures var o := Import(disk, mem, req, fault); var tag := o.result.tag;
            var names := if req.kind == Spec then o.disk.specs else o.disk.scenarios;
            && tag.Version? && fault.NoFault? && o.mem == o.disk
            && (req.override.Some? ==> tag == req.override.value)
            && (req.override.None? && req.declared.Some? ==> tag == req.declared.value)
            && req.name in names && tag in names[req.name] && names[req.name][tag] == req.hash
  {
    hide Merge, Highest;
  }

  /** And nothing else is filed: the other kind, the other names, and the other tags of the
      name but "latest" are those of the file and of memory together. */
  lemma ImportFilesNothingElse(disk: Index, mem: Index, req: Request)
    requires Import(disk, mem, req, NoFault).result.Imported?
    ensures var o, current := Import(disk, mem, req, NoFault), MergeIndex(mem, disk);
            && (req.kind == Spec ==> o.disk.scenarios == current.scenarios)
            && (req.kind == Scenario ==> o.disk.specs == current.specs)
            && var names, was := Of(o.disk, req.kind), Of(current, req.kind);
               && (forall n :: n != req.name ==> (n in names <==> n in was) && (n in was ==> names[n] == was[n]))
               && req.name in names
               && forall t :: t != o.result.tag && t != LATEST ==>
                                var tags := TagsOf(was, req.name);
                                (t in names[req.name] <==> t in tags) && (t in tags ==> names[req.name][t] == tags[t])
  {
    hide Merge, Highest, FinalTag;
  }

  /** An import that reports no success leaves the file alone. Memory keeps what it read, and
      after a failed write the new version too. */
  lemma FailedImportLeavesTheFile(disk: Index, mem: Index, req: Request, fault: Fault)
    requires !Import(disk, mem, req, fault).result.Imported?
    ensures var o := Import(disk, mem, req, fault);
            && o.disk == disk
            && (o.result.Unavailable? <==> fault.LockFails? || fault.ReadFails?)
            && (o.result.Unavailable? ==> o.mem == mem)
            && (o.result.InvalidVersion? || o.result.VersionExists? ==> o.mem == MergeIndex(mem, disk))
            && (o.result.NotWritten? ==> fault.WriteFails? && o.mem == Import(disk, mem, req, NoFault).disk)
  {
    hide Merge, FinalTag, Filed;
  }

  /** When the caller gives a version: it must be one, and it must be free or hold the same
      hash, in the file or in memory. Nothing else refuses it. */
  lemma GivenVersionIsFiledIff(disk: Index, mem: Index, req: Request)
    requires req.override.Some?
    ensures var tags := TagsOf(Of(MergeIndex(mem, disk), req.kind), req.name); var v := req.override.value;
            var result := Import(disk, mem, req, NoFault).result;
            && (result.InvalidVersion? <==> !v.Version?)
            && (result.VersionExists? <==> v.Version? && v in tags && tags[v] != req.hash)
            && (result.Imported? <==> v.Version? && (v in tags ==> tags[v] == req.hash))
  {
    hide Merge, Filed;
  }

  /** Importing again what the file already holds under that version changes nothing. */
  lemma ReimportChangesNothing(disk: Index, mem: Index, req: Request)
    requires IndexOk(disk) && BehindIndex(mem, disk) && req.override.Some? && req.override.value.Version?
    requires var names := Of(disk, req.kind); var v := req.override.value;
             req.name in names && v in names[req.name] && names[req.name][v] == req.hash
    ensures Import(disk, mem, req, NoFault) == Outcome(disk, disk, Imported(req.override.value))
  {
    MergeBehind(mem.specs, disk.specs);
    MergeBehind(mem.scenarios, disk.scenarios);
    var names := Of(disk, req.kind);
    var tags := names[req.name];
    assert LatestOk(tags);
    FiledAgain(tags, req.override.value, req.hash);
    hide Merge, Filed, IndexOk, LatestOk;
    assert MergeIndex(mem, disk) == disk;
    assert names[req.name := tags] == names;
  }

  lemma FiledAgain(tags: Tags, tag: Tag, hash: string)
    requires LatestOk(tags) && tag.Version? && tag in tags && tags[tag] == hash
    ensures Filed(tags, tag, hash) == tags
  {
    assert tags[tag := hash] == tags;
    assert tags[LATEST := tags[LATEST]] == tags;
  }

  // ------------------------------------------------------------- what a failed write leaves behind

  /** A name this copy alone knows has its "latest" right. */
  ghost predicate OwnOk(mem: Names, disk: Names) {
    forall n :: n in mem && n !in disk ==> LatestOk(mem[n])
  }

  ghost predicate OwnIndexOk(mem: Index, disk: Index) {
    OwnOk(mem.specs, disk.specs) && OwnOk(mem.scenarios, disk.scenarios)
  }

  lemma MergeOwn(mem: Names, disk: Names)
    requires OwnOk(mem, disk)
    ensures OwnOk(Merge(mem, disk), disk)
  {
    hide LatestOk;
    forall n | n in mem && n !in disk
      ensures Merge(mem, disk)[n] == mem[n]
    {
      assert mem[n] + map[] == mem[n];
    }
  }

  lemma FileKeepsOwn(names: Names, disk: Names, name: string, tag: Tag, hash: string)
    requires OwnOk(names, disk) && tag.Version?
    ensures OwnOk(names[name := Filed(TagsOf(names, name), tag, hash)], disk)
  {
    FiledIsOk(TagsOf(names, name), tag, hash);
    hide Filed, LatestOk;
  }

  lemma MergedOwn(mem: Index, disk: Index)
    requires OwnIndexOk(mem, disk)
    ensures OwnIndexOk(MergeIndex(mem, disk), disk) && NamesGrow(disk, MergeIndex(mem, disk))
  {
    MergeOwn(mem.specs, disk.specs);
    MergeOwn(mem.scenarios, disk.scenarios);
    hide OwnOk;
  }

  /** What is filed in one index leaves the rest of it alone. */
  lemma OwnIn(idx: Index, disk: Index, kind: Kind, names: Names)
    requires OwnIndexOk(idx, disk) && NamesGrow(disk, idx)
    requires OwnOk(names, Of(disk, kind)) && Of(idx, kind).Keys <= names.Keys
    ensures OwnIndexOk(With(idx, kind, names), disk) && NamesGrow(disk, With(idx, kind, names))
  {
    hide OwnOk;
  }

  lemma OwnSelf(idx: Index)
    ensures OwnIndexOk(idx, idx)
  {
  }

  lemma ImportKeepsOwn(disk: Index, mem: Index, req: Request, fault: Fault)
    requires OwnIndexOk(mem, disk)
    ensures var o := Import(disk, mem, req, fault); OwnIndexOk(o.mem, o.disk) && NamesGrow(disk, o.disk)
  {
    MergedOwn(mem, disk);
    hide MergeIndex, FinalTag, Filed, OwnOk;
    var current := MergeIndex(mem, disk);
    var names := Of(current, req.kind);
    var tag := FinalTag(TagsOf(names, req.name), req);
    if tag.Version? {
      var filed := names[req.name := Filed(TagsOf(names, req.name), tag, req.hash)];
      FileKeepsOwn(names, Of(disk, req.kind), req.name, tag, req.hash);
      OwnIn(current, disk, req.kind, filed);
      OwnSelf(With(current, req.kind, filed));
      hide OwnIndexOk, NamesGrow;
    }
  }

  predicate NamesGrow(a: Index, b: Index) {
    a.specs.Keys <= b.specs.Keys && a.scenarios.Keys <= b.scenarios.Keys
  }

  ghost predicate AllOwnOk(s: State) {
    forall m :: 0 <= m < |s.mems| ==> OwnIndexOk(s.mems[m], s.disk)
  }

  lemma {:induction false} ReachableOwnOk(acts: seq<Action>)
    ensures AllOwnOk(Exec(State(EMPTY, []), acts))
  {
    if acts != [] {
      ReachableOwnOk(acts[..|acts| - 1]);
      var s, a := Exec(State(EMPTY, []), acts[..|acts| - 1]), acts[|acts| - 1];
      hide LatestOk;
      if a.DoImport? && a.manager < |s.mems| {
        ImportKeepsOwn(s.disk, s.mems[a.manager], a.req, a.fault);
        hide Import;
      }
    }
  }

  /** Memory holds a version of a stored name that the file lacks, that ranks above all
      the file has, and whose hash is not the one "latest" points at. */
  ghost predicate Outranked(mem: Names, disk: Names, n: string) {
    && n in disk && HasVersion(TagsOf(mem, n) + disk[n]) && LATEST in disk[n]
    && var top := Highest(TagsOf(mem, n) + disk[n]);
       top !in disk[n] && (TagsOf(mem, n) + disk[n])[top] != disk[n][LATEST]
  }

  lemma MergedNameOkIff(mem: Names, disk: Names, n: string)
    requires NamesOk(disk) && OwnOk(mem, disk) && n in Merge(mem, disk)
    ensures LatestOk(Merge(mem, disk)[n]) <==> !Outranked(mem, disk, n)
  {
    var merged := Merge(mem, disk)[n];
    if n in disk {
      assert LatestOk(disk[n]);
      var low := Highest(disk[n]);
      assert low in merged;
      var top := Highest(merged);
      if top in disk[n] {
        assert IsHighest(disk[n], top);
        HighestIsUnique(disk[n], top, low);
      }
    } else {
      assert merged == mem[n] + map[] == mem[n];
    }
  }

  /** In any reachable state, faults included, a successful import leaves every "latest" in
      the file right exactly when the importing manager's memory holds no outranking
      version of another name, left there by a write that failed. */
  lemma ImportLeavesLatestRightIff(disk: Index, mem: Index, req: Request)
    requires IndexOk(disk) && OwnIndexOk(mem, disk)
    requires Import(disk, mem, req, NoFault).result.Imported?
    ensures IndexOk(Import(disk, mem, req, NoFault).disk) <==>
            forall kind, n :: (kind, n) != (req.kind, req.name) ==> !Outranked(Of(mem, kind), Of(disk, kind), n)
  {
    hide Merge, Filed, NamesOk, OwnOk, Outranked, Import;
    var filed := ImportShape(disk, mem, req);
    var other := Other(req.kind);
    var after := Import(disk, mem, req, NoFault).disk;
    assert forall kind, n :: (kind, n) != (req.kind, req.name) <==> kind == other || n != req.name;
    NamesOkIff(Of(mem, req.kind), Of(disk, req.kind), Of(after, req.kind), Some(req.name));
    NamesOkIff(Of(mem, other), Of(disk, other), Of(after, other), None);
    assert IndexOk(after) <==> NamesOk(Of(after, req.kind)) && NamesOk(Of(after, other));
    assert (forall kind, n :: (kind, n) != (req.kind, req.name) ==> !Outranked(Of(mem, kind), Of(disk, kind), n)) <==>
           (forall n :: n != req.name ==> !Outranked(Of(mem, req.kind), Of(disk, req.kind), n)) &&
           (forall n :: !Outranked(Of(mem, other), Of(disk, other), n));
  }

  function Other(kind: Kind): Kind {
    if kind.Spec? then Scenario else Spec
  }

  /** What a successful import writes: the merged index, with one name filed. */
  lemma ImportShape(disk: Index, mem: Index, req: Request) returns (filed: Tags)
    requires Import(disk, mem, req, NoFault).result.Imported?
    ensures LatestOk(filed)
    ensures var after := Import(disk, mem, req, NoFault).disk;
            && Of(after, req.kind) == Merge(Of(mem, req.kind), Of(disk, req.kind))[req.name := filed]
            && Of(after, Other(req.kind)) == Merge(Of(mem, Other(req.kind)), Of(disk, Other(req.kind)))
  {
    hide Merge, FinalTag, Filed, LatestOk;
    var tags := TagsOf(Of(MergeIndex(mem, disk), req.kind), req.name);
    var tag := FinalTag(tags, req);
    FiledIsOk(tags, tag, req.hash);
    filed := Filed(tags, tag, req.hash);
  }

  lemma NamesOkIff(mem: Names, disk: Names, after: Names, filed: Option<string>)
    requires NamesOk(disk) && OwnOk(mem, disk)
    requires after.Keys == Merge(mem, disk).Keys + (if filed.Some? then {filed.value} else {})
    requires forall n :: n in Merge(mem, disk) && Some(n) != filed ==> after[n] == Merge(mem, disk)[n]
    requires filed.Some? ==> LatestOk(after[filed.value])
    ensures NamesOk(after) <==> forall n :: Some(n) != filed ==> !Outranked(mem, disk, n)
  {
    hide LatestOk, Outranked, Merge, NamesOk, OwnOk;
    NamesOkMeans(after);
    forall n | Some(n) != filed
      ensures !Outranked(mem, disk, n) <==> n in after ==> LatestOk(after[n])
    {
      if n in Merge(mem, disk) {
        MergedNameOkIff(mem, disk, n);
      } else {
        OutrankedIsMerged(mem, disk, n);
      }
    }
  }

  lemma OutrankedIsMerged(mem: Names, disk: Names, n: string)
    requires n !in Merge(mem, disk)
    ensures !Outranked(mem, disk, n)
  {
  }

  lemma NamesOkMeans(names: Names)
    ensures NamesOk(names) <==> forall n :: n in names ==> LatestOk(names[n])
  {
    hide LatestOk;
  }

  // ------------------------------------------------------------- such a case

  const V1 := Version(1, 0, 0, RELEASE, "v1.0.0")
  const V2 := Version(2, 0, 0, RELEASE, "v2.0.0")

  /** One version in the file, a second only in memory after its write failed. */
  lemma TwoVersions(disk: Tags, mem: Tags)
    requires disk == Filed(map[], V1, "h1") && mem == Filed(disk, V2, "h2")
    ensures disk == map[V1 := "h1", LATEST := "h1"]
    ensures Highest(mem + disk) == V2 && (mem + disk)[V2] == "h2" && LATEST in disk && HasVersion(mem + disk)
  {
    var one := map[V1 := "h1"];
    assert V1 in one;
    assert Highest(one) == V1;
    assert map[][V1 := "h1"] == one;
    var both := mem + disk;
    ThreeNumbers(V1, V2);
    assert V2 in both && IsHighest(both, V2);
    HighestIsUnique(both, V2, Highest(both));
  }

  const FILE_N1 := Request(Spec, "n", Some(V1), None, "h1")
  const FILE_N2 := Request(Spec, "n", Some(V2), None, "h2")
  const FILE_M1 := Request(Spec, "m", Some(V1), None, "h1")

  lemma FirstImport()
    ensures var o := Import(EMPTY, EMPTY, FILE_N1, NoFault);
            o.disk == o.mem == Index(map["n" := Filed(map[], V1, "h1")], map[])
  {
    hide Filed;
    assert Merge(map[], map[]) == map[];
  }

  lemma SecondImport(disk: Index)
    requires disk == Index(map["n" := Filed(map[], V1, "h1")], map[])
    ensures var o := Import(disk, disk, FILE_N2, WriteFails);
            o.disk == disk && o.mem == Index(map["n" := Filed(disk.specs["n"], V2, "h2")], map[])
  {
    TwoVersions(disk.specs["n"], Filed(disk.specs["n"], V2, "h2"));
    BehindSelf(disk);
    MergeBehind(disk.specs, disk.specs);
    assert Merge(map[], map[]) == map[];
    hide Filed, Merge;
    assert disk.specs["n" := Filed(disk.specs["n"], V2, "h2")] == map["n" := Filed(disk.specs["n"], V2, "h2")];
  }

  lemma ThirdImport(disk: Index, mem: Index)
    requires "n" in disk.specs && "m" !in disk.specs && "m" !in mem.specs
    ensures var o := Import(disk, mem, FILE_M1, NoFault);
            o.result.Imported? && "n" in o.disk.specs && o.disk.specs["n"] == TagsOf(mem.specs, "n") + disk.specs["n"]
  {
    hide Filed;
    assert "m"[0] != "n"[0];
    assert "m" !in Merge(mem.specs, disk.specs);
    assert Merge(mem.specs, disk.specs)["n"] == TagsOf(mem.specs, "n") + disk.specs["n"];
  }

  /** Two imports of "n", the write of the second failing, then one of "m": the file now
      lists version 2 of "n" while its "latest" still points at version 1. */
  lemma FailedWriteSpoilsLatest()
    ensures var first := Import(EMPTY, EMPTY, FILE_N1, NoFault);
            var second := Import(first.disk, first.mem, FILE_N2, WriteFails);
            var third := Import(second.disk, second.mem, FILE_M1, NoFault);
            && third.result.Imported? && "n" in third.disk.specs && V2 in third.disk.specs["n"]
            && !LatestOk(third.disk.specs["n"])
  {
    hide Import, Filed;
    FirstImport();
    var disk := Import(EMPTY, EMPTY, FILE_N1, NoFault).disk;
    SecondImport(disk);
    var mem := Import(disk, disk, FILE_N2, WriteFails).mem;
    assert "m"[0] != "n"[0];
    ThirdImport(disk, mem);
    TwoVersions(disk.specs["n"], mem.specs["n"]);
    assert "h1"[1] != "h2"[1];
  }
}

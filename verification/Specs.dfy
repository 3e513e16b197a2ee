/** Which spec artefacts travel with a scenario. */
module Specs {
  import opened Common

  /** A gear's configuration value: only strings name a spec. */
  datatype ConfigValue = Text(text: string) | Other
  datatype Gear = Gear(name: string, config: map<string, ConfigValue>)
  datatype Artifact = Artifact(name: string, tag: string, content: string)

  /** A translation's references, or None for any other content. */
  type References = string -> Option<seq<string>>

  function ConfigText(config: map<string, ConfigValue>, key: string): string {
    if key in config && config[key].Text? then config[key].text else ""
  }

  function SpecRefFromConfig(config: map<string, ConfigValue>): string {
    if ConfigText(config, "spec_path") != "" then ConfigText(config, "spec_path") else ConfigText(config, "spec")
  }

  predicate HasSuffix(s: string, suffix: string) {
    |suffix| <= |s| && s[|s| - |suffix|..] == suffix
  }

  /** The index of the last colon, or -1. */
  function LastColon(s: string): (i: int)
    ensures -1 <= i < |s|
    ensures 0 <= i ==> s[i] == ':'
    ensures forall j :: i < j < |s| ==> s[j] != ':'
  {
    if s == "" then -1 else if s[|s| - 1] == ':' then |s| - 1 else LastColon(s[..|s| - 1])
  }

  predicate LooksLikeAFile(ref: string) {
    '/' in ref || '\\' in ref || HasSuffix(ref, ".yaml") || HasSuffix(ref, ".yml")
  }

  /** The name and the tag of a reference into the store, cut at its last colon. Anything
      that looks like a file, and anything without both parts, is not such a reference. */
  function StoreRef(ref: string): (r: Option<(string, string)>)
    ensures r.Some? ==> ref == r.value.0 + ":" + r.value.1 && r.value.0 != "" && r.value.1 != "" && ':' !in r.value.1
  {
    if LooksLikeAFile(ref) then None
    else
      var i := LastColon(ref);
      if i <= 0 || i == |ref| - 1 then None else Some((ref[..i], ref[i + 1..]))
  }

  lemma SuffixIff(s: string, suffix: string)
    ensures HasSuffix(s, suffix) <==> exists stem :: s == stem + suffix
  {
    if HasSuffix(s, suffix) {
      assert s == s[..|s| - |suffix|] + suffix;
    }
  }

  /** Exactly the references without a slash of either kind and without the ending of a YAML
      file that have a name, a colon and a tag without colons are references into the store,
      and they split one way. */
  lemma StoreRefIff(ref: string, name: string, tag: string)
    requires ':' !in tag
    ensures StoreRef(ref) == Some((name, tag)) <==>
            && '/' !in ref && '\\' !in ref && (forall stem :: ref != stem + ".yaml" && ref != stem + ".yml")
            && name != "" && tag != "" && ref == name + ":" + tag
  {
    SuffixIff(ref, ".yaml");
    SuffixIff(ref, ".yml");
    hide HasSuffix;
    if ref == name + ":" + tag {
      assert ref[|name|] == ':';
      assert forall j :: |name| < j < |ref| ==> ref[j] == tag[j - |name| - 1];
      assert LastColon(ref) == |name|;
      assert ref[..|name|] == name && ref[|name| + 1..] == tag;
    }
  }

  // ------------------------------------------------------------- what should travel

  function Roots(gears: seq<Gear>): seq<string> {
    if gears == [] then []
    else
      var ref := SpecRefFromConfig(gears[0].config);
      (if ref == "" then [] else [ref]) + Roots(gears[1..])
  }

  /** The text a gear has under a key. */
  predicate Says(gear: Gear, key: string, ref: string) {
    key in gear.config && gear.config[key] == Text(ref)
  }

  /** The work starts with what the gears name: under "spec_path", or, when that is missing,
      empty or no text, under "spec". */
  lemma {:induction false} RootsAre(gears: seq<Gear>, ref: string)
    ensures ref in Roots(gears) <==>
            && ref != ""
            && exists g :: g in gears && (Says(g, "spec_path", ref) || (Says(g, "spec", ref) && NoPath(g)))
  {
    if gears != [] {
      RootsAre(gears[1..], ref);
      var first := SpecRefFromConfig(gears[0].config);
      RefOf(gears[0], ref);
      hide SpecRefFromConfig, Says, NoPath;
      assert forall g :: g in gears <==> g == gears[0] || g in gears[1..];
    }
  }

  ghost predicate NoPath(gear: Gear) {
    forall other :: Says(gear, "spec_path", other) ==> other == ""
  }

  lemma RefOf(gear: Gear, ref: string)
    ensures ref != "" ==>
              (SpecRefFromConfig(gear.config) == ref <==>
               Says(gear, "spec_path", ref) || (Says(gear, "spec", ref) && NoPath(gear)))
  {
    var path := ConfigText(gear.config, "spec_path");
    if path != "" {
      assert Says(gear, "spec_path", path);
    }
  }

  /** A name:tag reference the store can load. */
  predicate Loadable(store: map<string, string>, ref: string) {
    StoreRef(ref).Some? && ref in store
  }

  /** What a loadable reference leads to. */
  function Children(store: map<string, string>, refs: References, ref: string): seq<string> {
    if Loadable(store, ref) && refs(store[ref]).Some? then refs(store[ref]).value else []
  }

  /** A chain of references from one a gear names. */
  ghost predicate Chain(store: map<string, string>, refs: References, roots: seq<string>, path: seq<string>) {
    && path != [] && path[0] in roots
    && forall i :: 0 < i < |path| ==> path[i] in Children(store, refs, path[i - 1])
  }

  ghost predicate Reachable(store: map<string, string>, refs: References, roots: seq<string>, ref: string) {
    exists path :: Chain(store, refs, roots, path) && path[|path| - 1] == ref
  }

  function ArtifactOf(store: map<string, string>, ref: string): Artifact
    requires Loadable(store, ref)
  {
    Artifact(StoreRef(ref).value.0, StoreRef(ref).value.1, store[ref])
  }

  ghost predicate Distinct(s: seq<string>) {
    forall i, j :: 0 <= i < j < |s| ==> s[i] != s[j]
  }

  // ------------------------------------------------------------- the worklist

  lemma ChildIsReachable(store: map<string, string>, refs: References, roots: seq<string>, ref: string, child: string)
    requires Reachable(store, refs, roots, ref) && child in Children(store, refs, ref)
    ensures Reachable(store, refs, roots, child)
  {
    var path :| Chain(store, refs, roots, path) && path[|path| - 1] == ref;
    assert Chain(store, refs, roots, path + [child]);
    assert (path + [child])[|path|] == child;
  }

  lemma RootIsReachable(store: map<string, string>, refs: References, roots: seq<string>, ref: string)
    requires ref in roots
    ensures Reachable(store, refs, roots, ref)
  {
    assert Chain(store, refs, roots, [ref]);
    assert [ref][0] == ref;
  }

  /** A reference needs no more work: it is not a store reference, was seen, or waits. */
  predicate Settled(seen: set<string>, work: seq<string>, ref: string) {
    StoreRef(ref).None? || ref in seen || ref in work
  }

  ghost predicate Progress(store: map<string, string>, refs: References, roots: seq<string>,
                           work: seq<string>, seen: set<string>, found: seq<string>)
  {
    && (forall r :: r in work ==> Reachable(store, refs, roots, r))
    && Distinct(found)
    && (forall r :: r in found <==> r in seen && Loadable(store, r))
    && (forall r :: r in found ==> Reachable(store, refs, roots, r))
    && (forall r :: r in roots ==> Settled(seen, work, r))
    && (forall r, c :: r in found && c in Children(store, refs, r) ==> Settled(seen, work, c))
  }

  /** With nothing left to do, everything loadable and reachable was found. */
  lemma {:induction false} AllFound(store: map<string, string>, refs: References, roots: seq<string>,
                                    seen: set<string>, found: seq<string>, path: seq<string>)
    requires Progress(store, refs, roots, [], seen, found)
    requires Chain(store, refs, roots, path) && Loadable(store, path[|path| - 1])
    ensures path[|path| - 1] in found
    decreases |path|
  {
    var last := path[|path| - 1];
    if |path| == 1 {
      assert Settled(seen, [], last);
    } else {
      var before := path[..|path| - 1];
      var prev := before[|before| - 1];
      assert last in Children(store, refs, prev);
      AllFound(store, refs, roots, seen, found, before);
      assert Settled(seen, [], last);
    }
  }

  /** Taking a reference that is not a store reference, was seen before, or cannot be
      loaded. */
  lemma PassOver(store: map<string, string>, refs: References, roots: seq<string>, work: seq<string>,
                 seen: set<string>, found: seq<string>)
    requires work != [] && Progress(store, refs, roots, work, seen, found)
    ensures StoreRef(work[0]).None? || work[0] in seen ==> Progress(store, refs, roots, work[1..], seen, found)
    ensures StoreRef(work[0]).Some? && work[0] !in store ==>
              Progress(store, refs, roots, work[1..], seen + {work[0]}, found)
  {
    forall r | Settled(seen, work, r)
      ensures StoreRef(work[0]).None? || work[0] in seen ==> Settled(seen, work[1..], r)
      ensures Settled(seen + {work[0]}, work[1..], r)
    {
      assert r in work ==> r == work[0] || r in work[1..];
    }
  }

  /** Taking a reference that loads: its own references join the work. */
  lemma TakeUp(store: map<string, string>, refs: References, roots: seq<string>, work: seq<string>, seen: set<string>,
               found: seq<string>)
    requires work != [] && Progress(store, refs, roots, work, seen, found)
    requires Loadable(store, work[0]) && work[0] !in seen
    ensures Progress(store, refs, roots, work[1..] + Children(store, refs, work[0]),
                     seen + {work[0]}, found + [work[0]])
  {
    var ref := work[0];
    var children := Children(store, refs, ref);
    var work', seen', found' := work[1..] + children, seen + {ref}, found + [ref];
    forall c | c in children ensures Reachable(store, refs, roots, c) {
      ChildIsReachable(store, refs, roots, ref, c);
    }
    forall r | Settled(seen, work, r)
      ensures Settled(seen', work', r)
    {
      assert r in work ==> r == ref || r in work[1..];
    }
    assert forall c :: c in children ==> Settled(seen', work', c);
    assert forall r :: r in found' <==> r in found || r == ref;
  }

  lemma Begin(store: map<string, string>, refs: References, roots: seq<string>)
    ensures Progress(store, refs, roots, roots, {}, [])
  {
    forall r | r in roots ensures Reachable(store, refs, roots, r) { RootIsReachable(store, refs, roots, r); }
  }

  lemma Finish(store: map<string, string>, refs: References, roots: seq<string>, seen: set<string>, found: seq<string>)
    requires Progress(store, refs, roots, [], seen, found)
    ensures Distinct(found)
    ensures forall r :: r in found <==> Loadable(store, r) && Reachable(store, refs, roots, r)
  {
    forall r | Loadable(store, r) && Reachable(store, refs, roots, r)
      ensures r in found
    {
      var path :| Chain(store, refs, roots, path) && path[|path| - 1] == r;
      AllFound(store, refs, roots, seen, found, path);
    }
  }

  /** The artefacts found so far, in the order of their references. */
  predicate Listed(store: map<string, string>, found: seq<string>, out: seq<Artifact>) {
    && |out| == |found|
    && forall i :: 0 <= i < |out| ==> Loadable(store, found[i]) && out[i] == ArtifactOf(store, found[i])
  }

  lemma ListOne(store: map<string, string>, found: seq<string>, out: seq<Artifact>, ref: string)
    requires Listed(store, found, out) && Loadable(store, ref)
    ensures Listed(store, found + [ref], out + [ArtifactOf(store, ref)])
  {
  }

  method StartWork(gears: seq<Gear>) returns (work: seq<string>)
    ensures work == Roots(gears)
  {
    work := [];
    for i := 0 to |gears|
      invariant work + Roots(gears[i..]) == Roots(gears)
    {
      var ref := SpecRefFromConfig(gears[i].config);
      if ref != "" {
        work := work + [ref];
      }
      assert gears[i..][1..] == gears[i + 1..];
    }
  }

  /** Ends on every finite store, cyclic references included, and returns exactly the
      loadable name:tag references reachable from the gears, each once. `found` lists
      the references in the order of `out`. */
  method CollectSpecs(store: Option<map<string, string>>, refs: References, gears: seq<Gear>)
    returns (out: seq<Artifact>, ghost found: seq<string>)
    ensures store.None? ==> out == []
    ensures store.Some? ==>
              && Listed(store.value, found, out) && Distinct(found)
              && (forall r :: r in found <==> Loadable(store.value, r) && Reachable(store.value, refs, Roots(gears), r))
  {
    out, found := [], [];
    if store.None? {
      return;
    }
    var s := store.value;
    var work := StartWork(gears);
    ghost var roots := work;
    Begin(s, refs, roots);
    assert Listed(s, found, out);
    hide Progress, Reachable, Distinct, StoreRef, Settled, Roots, Listed;
    var seen: set<string> := {};
    while work != []
      invariant Progress(s, refs, roots, work, seen, found)
      invariant Listed(s, found, out)
      decreases s.Keys - seen, |work|
    {
      var ref := work[0];
      PassOver(s, refs, roots, work, seen, found);
      var split := StoreRef(ref);
      if split.None? || ref in seen {
        work := work[1..];
      } else {
        if ref !in s {
          work := work[1..];
        } else {
          TakeUp(s, refs, roots, work, seen, found);
          ListOne(s, found, out, ref);
          out := out + [Artifact(split.value.0, split.value.1, s[ref])];
          found := found + [ref];
          var more := refs(s[ref]);
          assert Children(s, refs, ref) == if more.Some? then more.value else [];
          work := work[1..] + (if more.Some? then more.value else []);
        }
        seen := seen + {ref};
      }
    }
    Finish(s, refs, roots, seen, found);
  }

  /** An artefact carries the name and the tag of its reference, and what the store holds
      under it. */
  lemma ArtifactsAreNamed(store: map<string, string>, found: seq<string>, out: seq<Artifact>, i: nat)
    requires Listed(store, found, out) && i < |out|
    ensures out[i].name + ":" + out[i].tag == found[i] && ':' !in out[i].tag
    ensures found[i] in store && out[i].content == store[found[i]]
  {
  }

  /** Different references give different artefacts. */
  lemma ArtifactsAreDistinct(store: map<string, string>, a: string, b: string)
    requires Loadable(store, a) && Loadable(store, b)
    requires ArtifactOf(store, a).name == ArtifactOf(store, b).name
    requires ArtifactOf(store, a).tag == ArtifactOf(store, b).tag
    ensures a == b
  {
  }
}

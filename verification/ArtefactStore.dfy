/** The managers as the source writes them: the index file and the managers' copies are
    objects, and an import is a read, a merge, a change and a write. */
module ArtefactStore {
  import opened Common
  import opened Versions
  import opened ArtefactIndex

  /** Copies every tag of one name over another's. */
  method MergeTags(dst: Tags, src: Tags) returns (out: Tags)
    ensures out == dst + src
  {
    out := dst;
    var rest := src.Keys;
    while rest != {}
      invariant rest <= src.Keys
      invariant out.Keys == dst.Keys + (src.Keys - rest)
      invariant forall t :: t in out ==> out[t] == if t in src && t !in rest then src[t] else dst[t]
      decreases rest
    {
      var tag :| tag in rest;
      out := out[tag := src[tag]];
      rest := rest - {tag};
    }
  }

  /** A loop that has copied all but the names in `rest`. */
  predicate Copied(dst: Names, src: Names, rest: set<string>, out: Names) {
    && rest <= src.Keys && out.Keys == dst.Keys + (src.Keys - rest)
    && forall n :: n in out ==> out[n] == if n in src && n !in rest then TagsOf(dst, n) + src[n] else dst[n]
  }

  lemma CopyOne(dst: Names, src: Names, rest: set<string>, out: Names, name: string)
    requires Copied(dst, src, rest, out) && name in rest
    ensures Copied(dst, src, rest - {name}, out[name := TagsOf(out, name) + src[name]])
  {
    assert TagsOf(out, name) == TagsOf(dst, name);
  }

  lemma AllCopied(dst: Names, src: Names, out: Names)
    requires Copied(dst, src, {}, out)
    ensures out == Merge(dst, src)
  {
    forall n | n in out && n !in src ensures dst[n] + map[] == dst[n] {}
  }

  /** Copies every name of one index over another's. */
  method MergeArtifacts(dst: Names, src: Names) returns (out: Names)
    ensures out == Merge(dst, src)
  {
    out := dst;
    var rest := src.Keys;
    assert Copied(dst, src, rest, out);
    hide Copied, Merge;
    while rest != {}
      invariant rest <= src.Keys && Copied(dst, src, rest, out)
      decreases rest
    {
      var name :| name in rest;
      CopyOne(dst, src, rest, out, name);
      var tags := MergeTags(if name in out then out[name] else map[], src[name]);
      out := out[name := tags];
      rest := rest - {name};
    }
    AllCopied(dst, src, out);
  }

  class IndexFile {
    var index: Index

    constructor ()
      ensures index == EMPTY
    {
      index := EMPTY;
    }
  }

  class Manager {
    const file: IndexFile
    var index: Index

    constructor (file: IndexFile)
      ensures this.file == file && index == file.index
    {
      this.file := file;
      index := file.index;
    }

    /** The tag an import files under. */
    method ChooseTag(tags: Tags, req: Request) returns (tag: Tag)
      ensures tag == FinalTag(tags, req)
    {
      if req.override.Some? {
        return req.override.value;
      }
      if req.declared.Some? {
        return req.declared.value;
      }
      var top := ResolveLatest(tags);
      if top.Some? {
        HighestIsUnique(tags, top.value, Highest(tags));
      }
      return NextMinor(top);
    }

    method File(tags: Tags, tag: Tag, hash: string) returns (filed: Tags)
      requires tag.Version?
      ensures filed == Filed(tags, tag, hash)
    {
      filed := tags[tag := hash];
      assert tag in filed;
      var top := ResolveLatest(filed);
      HighestIsUnique(filed, top.value, Highest(filed));
      filed := filed[LATEST := filed[top.value]];
    }

    /** One import: everything is decided against the file as it is now, and memory takes
        over what was decided even when the write then fails. */
    method ImportArtifact(req: Request, fault: Fault) returns (result: Result)
      modifies this, file
      ensures Outcome(file.index, index, result) == Import(old(file.index), old(index), req, fault)
    {
      hide FinalTag, Filed, Merge;
      if fault.LockFails? || fault.ReadFails? {
        return Unavailable;
      }
      var specs := MergeArtifacts(index.specs, file.index.specs);
      var scenarios := MergeArtifacts(index.scenarios, file.index.scenarios);
      var current := Index(specs, scenarios);
      index := current;
      var names := if req.kind.Spec? then specs else scenarios;
      var tags := if req.name in names then names[req.name] else map[];
      var tag := ChooseTag(tags, req);
      if !tag.Version? {
        return InvalidVersion;
      }
      if tag in tags && tags[tag] != req.hash {
        return VersionExists;
      }
      var filed := File(tags, tag, req.hash);
      index := With(current, req.kind, names[req.name := filed]);
      if fault.WriteFails? {
        return NotWritten;
      }
      file.index := index;
      return Imported(tag);
    }
  }
}

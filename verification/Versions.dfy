/** Version tags and their order. */
module Versions {
  import opened Common
  import opened Decimal

  /** A tag as the index stores it. A version carries its numbers, its prerelease part,
      and its own spelling (shorthand and build metadata make several spellings of one
      version); anything else is a word, such as the alias "latest". The prerelease part
      is given by numbers whose lexicographic order is the precedence of section 11 of
      Semantic Versioning 2.0.0, a release ranking above every prerelease. */
  datatype Tag = Version(major: nat, minor: nat, patch: nat, pre: seq<nat>, text: string) | Word(text: string)

  const LATEST := Word("latest")
  const RELEASE: seq<nat> := [3]

  /** The largest value of the source's int. */
  const MAX_INT: nat := 0x7FFF_FFFF_FFFF_FFFF

  predicate LexLess(a: seq<nat>, b: seq<nat>) {
    b != [] && (a == [] || a[0] < b[0] || (a[0] == b[0] && LexLess(a[1..], b[1..])))
  }

  lemma {:induction false} LexTotal(a: seq<nat>, b: seq<nat>)
    ensures LexLess(a, b) || LexLess(b, a) || a == b
    ensures !(LexLess(a, b) && LexLess(b, a))
    ensures !LexLess(a, a)
  {
    if a != [] && b != [] && a[0] == b[0] {
      LexTotal(a[1..], b[1..]);
      assert a == [a[0]] + a[1..] && b == [b[0]] + b[1..];
    }
    if a != [] {
      LexTotal(a[1..], a[1..]);
    }
  }

  lemma {:induction false} LexTransitive(a: seq<nat>, b: seq<nat>, c: seq<nat>)
    requires LexLess(a, b) && LexLess(b, c)
    ensures LexLess(a, c)
  {
    if a != [] && a[0] == b[0] == c[0] {
      LexTransitive(a[1..], b[1..], c[1..]);
    }
  }

  /** The sequences agree up to n, where the first ends or is the smaller. */
  predicate SmallerAt(a: seq<nat>, b: seq<nat>, n: nat) {
    n <= |a| && n < |b| && (forall i :: 0 <= i < n ==> a[i] == b[i]) && (n == |a| || a[n] < b[n])
  }

  /** The first difference decides, and a proper prefix comes first. */
  lemma {:induction false} LexLessIff(a: seq<nat>, b: seq<nat>)
    ensures LexLess(a, b) <==> exists n: nat :: SmallerAt(a, b, n)
    decreases |b|
  {
    if a != [] && b != [] && a[0] == b[0] {
      LexLessIff(a[1..], b[1..]);
      forall n: nat ensures SmallerAt(a[1..], b[1..], n) <==> SmallerAt(a, b, n + 1) { SmallerShift(a, b, n); }
      if n: nat :| SmallerAt(a, b, n) {
        SmallerShift(a, b, n - 1);
      }
    } else if LexLess(a, b) {
      assert SmallerAt(a, b, 0);
    }
  }

  lemma SmallerShift(a: seq<nat>, b: seq<nat>, n: nat)
    requires a != [] && b != [] && a[0] == b[0]
    ensures SmallerAt(a[1..], b[1..], n) <==> SmallerAt(a, b, n + 1)
  {
    if SmallerAt(a[1..], b[1..], n) {
      forall i | 0 <= i < n + 1 ensures a[i] == b[i] {
        assert i > 0 ==> a[i] == a[1..][i - 1] && b[i] == b[1..][i - 1];
      }
    }
  }

  /** What semantic versioning compares. */
  function Rank(t: Tag): seq<nat> {
    if t.Version? then [t.major, t.minor, t.patch] + t.pre else []
  }

  function Codes(s: string): (r: seq<nat>)
    ensures |r| == |s| && forall i :: 0 <= i < |s| ==> r[i] == s[i] as nat
  {
    if s == "" then [] else [s[0] as nat] + Codes(s[1..])
  }

  /** The order versions are sorted in: by precedence, then by spelling. */
  predicate Below(a: Tag, b: Tag) {
    LexLess(Rank(a), Rank(b)) || (Rank(a) == Rank(b) && LexLess(Codes(a.text), Codes(b.text)))
  }

  lemma CodesInjective(s: string, t: string)
    requires Codes(s) == Codes(t)
    ensures s == t
  {
    forall i | 0 <= i < |s| ensures s[i] == t[i] { assert Codes(s)[i] == Codes(t)[i]; }
  }

  lemma RankInjective(a: Tag, b: Tag)
    requires a.Version? && b.Version? && Rank(a) == Rank(b) && a.text == b.text
    ensures a == b
  {
    assert Rank(a)[0] == a.major && Rank(a)[1] == a.minor && Rank(a)[2] == a.patch;
    assert Rank(b)[0] == b.major && Rank(b)[1] == b.minor && Rank(b)[2] == b.patch;
    assert Rank(a)[3..] == a.pre && Rank(b)[3..] == b.pre;
  }

  /** Versions compare by major, then minor, then patch number; a prerelease comes before its
      release; and spellings of one version compare byte by byte. */
  lemma BelowMeans(a: Tag, b: Tag)
    requires a.Version? && b.Version?
    ensures a.major < b.major ==> Below(a, b)
    ensures a.major == b.major && a.minor < b.minor ==> Below(a, b)
    ensures a.major == b.major && a.minor == b.minor && a.patch < b.patch ==> Below(a, b)
    ensures a.major == b.major && a.minor == b.minor && a.patch == b.patch ==>
              && (LexLess(a.pre, b.pre) ==> Below(a, b))
              && (a.pre == b.pre ==> (Below(a, b) <==> LexLess(Codes(a.text), Codes(b.text))))
  {
    hide LexLess, Codes;
    RankSteps(a, b);
    LexTotal(a.pre, a.pre);
  }

  lemma LexHead(a: seq<nat>, b: seq<nat>, x: nat, y: nat)
    ensures LexLess([x] + a, [y] + b) <==> x < y || (x == y && LexLess(a, b))
  {
    assert ([x] + a)[1..] == a && ([y] + b)[1..] == b;
  }

  lemma RankSteps(a: Tag, b: Tag)
    requires a.Version? && b.Version?
    ensures LexLess(Rank(a), Rank(b)) <==>
            || a.major < b.major
            || (a.major == b.major && a.minor < b.minor)
            || (a.major == b.major && a.minor == b.minor && a.patch < b.patch)
            || (a.major == b.major && a.minor == b.minor && a.patch == b.patch && LexLess(a.pre, b.pre))
  {
    hide LexLess;
    var a3, b3 := [a.patch] + a.pre, [b.patch] + b.pre;
    var a2, b2 := [a.minor] + a3, [b.minor] + b3;
    assert Rank(a) == [a.major] + a2 && Rank(b) == [b.major] + b2;
    LexHead(a2, b2, a.major, b.major);
    LexHead(a3, b3, a.minor, b.minor);
    LexHead(a.pre, b.pre, a.patch, b.patch);
  }

  lemma BelowTotal(a: Tag, b: Tag)
    requires a.Version? && b.Version?
    ensures Below(a, b) || Below(b, a) || a == b
    ensures !(Below(a, b) && Below(b, a)) && !Below(a, a)
  {
    LexTotal(Rank(a), Rank(b));
    LexTotal(Codes(a.text), Codes(b.text));
    LexTotal(Rank(a), Rank(a));
    LexTotal(Codes(a.text), Codes(a.text));
    if Rank(a) == Rank(b) && Codes(a.text) == Codes(b.text) {
      CodesInjective(a.text, b.text);
      RankInjective(a, b);
    }
  }

  lemma BelowTransitive(a: Tag, b: Tag, c: Tag)
    requires Below(a, b) && Below(b, c)
    ensures Below(a, c)
  {
    hide LexLess, Rank, Codes;
    if LexLess(Rank(a), Rank(b)) && LexLess(Rank(b), Rank(c)) {
      LexTransitive(Rank(a), Rank(b), Rank(c));
    }
    if LexLess(Codes(a.text), Codes(b.text)) && LexLess(Codes(b.text), Codes(c.text)) {
      LexTransitive(Codes(a.text), Codes(b.text), Codes(c.text));
    }
  }

  // ------------------------------------------------------------- the highest version of a name

  type Tags = map<Tag, string>

  predicate HasVersion(tags: Tags) {
    exists t :: t in tags && t.Version?
  }

  ghost predicate IsHighest(tags: Tags, top: Tag) {
    top in tags && top.Version? && forall t :: t in tags && t.Version? && t != top ==> Below(t, top)
  }

  lemma HighestIsUnique(tags: Tags, a: Tag, b: Tag)
    requires IsHighest(tags, a) && IsHighest(tags, b)
    ensures a == b
  {
    BelowTotal(a, b);
  }

  /** Picks the highest of the tags that are versions, or none. */
  method ResolveLatest(tags: Tags) returns (top: Option<Tag>)
    ensures top.None? <==> !HasVersion(tags)
    ensures top.Some? ==> IsHighest(tags, top.value)
  {
    top := None;
    var rest := tags.Keys;
    ghost var done: set<Tag> := {};
    while rest != {}
      invariant rest + done == tags.Keys && rest !! done
      invariant top.None? ==> forall t :: t in done ==> !t.Version?
      invariant top.Some? ==> top.value in done && top.value.Version?
      invariant top.Some? ==> forall t :: t in done && t.Version? && t != top.value ==> Below(t, top.value)
      decreases rest
    {
      var t :| t in rest;
      if t.Version? {
        if top.Some? {
          BelowTotal(t, top.value);
          forall u | u in done && u.Version? && Below(u, top.value) && Below(top.value, t)
            ensures Below(u, t)
          {
            BelowTransitive(u, top.value, t);
          }
          hide Below;
          if Below(top.value, t) {
            top := Some(t);
          }
        } else {
          top := Some(t);
        }
      }
      rest, done := rest - {t}, done + {t};
    }
  }

  lemma {:induction false} HighestOf(among: set<Tag>) returns (top: Tag)
    requires exists t :: t in among && t.Version?
    ensures top in among && top.Version? && forall t :: t in among && t.Version? && t != top ==> Below(t, top)
    decreases among
  {
    var t :| t in among && t.Version?;
    var rest := among - {t};
    top := t;
    if exists u :: u in rest && u.Version? {
      var u := HighestOf(rest);
      BelowTotal(t, u);
      if Below(t, u) {
        top := u;
      } else {
        forall v | v in rest && v.Version? && v != u ensures Below(v, t) { BelowTransitive(v, u, t); }
      }
    }
  }

  /** The highest version of a name that has one. */
  ghost function Highest(tags: Tags): (top: Tag)
    requires HasVersion(tags)
    ensures IsHighest(tags, top)
  {
    assert exists top :: IsHighest(tags, top) by {
      var t :| t in tags && t.Version?;
      assert t in tags.Keys;
      var top := HighestOf(tags.Keys);
      assert IsHighest(tags, top);
    }
    var top :| IsHighest(tags, top);
    top
  }

  // ------------------------------------------------------------- the next version

  function AutoVersion(major: nat, minor: nat): Tag {
    Version(major, minor, 0, RELEASE, "v" + Itoa(major) + "." + Itoa(minor) + ".0")
  }

  /** The version an import without one gets, given the name's highest. Numbers the int
      cannot hold make the scan fail, and the largest int wraps to a negative number, which
      is no version. */
  function NextMinor(top: Option<Tag>): Tag {
    if top.None? || !top.value.Version? then AutoVersion(0, 1)
    else
      var t := top.value;
      if t.major > MAX_INT || t.minor > MAX_INT || t.patch > MAX_INT then AutoVersion(0, 1)
      else if t.minor == MAX_INT then Word("v" + Itoa(t.major) + ".-9223372036854775808.0")
      else AutoVersion(t.major, t.minor + 1)
  }

  /** Reads a spelling of the form v1.2.3. */
  function ReadVersion(text: string): Option<(nat, nat, nat)> {
    if text == "" || text[0] != 'v' then None
    else
      var one := text[1..];
      var d := IndexOf(one, '.');
      if d == |one| then None
      else
        var two := one[d + 1..];
        var e := IndexOf(two, '.');
        if e == |two| || !AllDigits(one[..d]) || !AllDigits(two[..e]) || !AllDigits(two[e + 1..]) then None
        else Some((Value(one[..d]), Value(two[..e]), Value(two[e + 1..])))
  }

  /** The first character after digits. */
  lemma AfterDigits(digits: string, rest: string)
    requires AllDigits(digits)
    ensures IndexOf(digits + "." + rest, '.') == |digits|
    ensures (digits + "." + rest)[..|digits|] == digits && (digits + "." + rest)[|digits| + 1..] == rest
  {
    var s := digits + "." + rest;
    assert s[|digits|] == '.' && forall j :: 0 <= j < |digits| ==> s[j] == digits[j];
    forall j | 0 <= j < |digits| ensures s[j] != '.' { assert IsDigit(digits[j]); }
  }

  lemma SpellingReadsBack(major: nat, minor: nat)
    ensures ReadVersion(AutoVersion(major, minor).text) == Some((major, minor, 0))
  {
    hide Itoa, IndexOf, Value;
    var a, b := Itoa(major), Itoa(minor);
    var text := AutoVersion(major, minor).text;
    assert text[1..] == a + "." + (b + "." + "0");
    AfterDigits(a, b + "." + "0");
    AfterDigits(b, "0");
    ValueItoa(major);
    ValueItoa(minor);
    ZeroDigit();
  }

  lemma ZeroDigit()
    ensures AllDigits("0") && Value("0") == 0
  {
    assert "0"[..0] == "";
  }

  /** The first version of a name is spelt v0.1.0, and the next one after any other spells the
      next minor number of the same major one. */
  lemma NextVersionReads(top: Tag)
    ensures NextMinor(None).text == "v0.1.0"
    ensures top.Version? && top.major <= MAX_INT && top.minor < MAX_INT && top.patch <= MAX_INT ==>
              var read := ReadVersion(NextMinor(Some(top)).text);
              read.Some? && read.value.0 == top.major && read.value.1 == top.minor + 1 && read.value.2 == 0
  {
    assert Itoa(0) == "0" && Itoa(1) == "1";
    assert "v" + "0" + "." + "1" + ".0" == "v0.1.0";
    hide ReadVersion, Itoa;
    if top.Version? {
      SpellingReadsBack(top.major, top.minor + 1);
    }
  }

  /** The numbers of the highest version leave room above it, or it is so low that the
      first version is above it anyway. */
  predicate HasRoom(t: Tag) {
    t.Version? && ((t.major <= MAX_INT && t.minor < MAX_INT && t.patch <= MAX_INT) || (t.major == 0 && t.minor == 0))
  }

  /** Above in precedence, not only in spelling. */
  predicate StrictlyAbove(next: Tag, t: Tag) {
    next.Version? && LexLess(Rank(t), Rank(next))
  }

  /** An auto-assigned version is strictly above every existing one exactly when the
      highest existing version leaves room; with none, there is nothing to be above. */
  lemma NextMinorIsAboveIff(tags: Tags, top: Tag)
    requires IsHighest(tags, top)
    ensures (forall t :: t in tags && t.Version? ==> StrictlyAbove(NextMinor(Some(top)), t)) <==> HasRoom(top)
  {
    var next := NextMinor(Some(top));
    AboveTop(top);
    if HasRoom(top) {
      forall t | t in tags && t.Version?
        ensures StrictlyAbove(next, t)
      {
        if t != top {
          if LexLess(Rank(t), Rank(top)) {
            LexTransitive(Rank(t), Rank(top), Rank(next));
          }
        }
      }
    }
  }

  /** The largest minor number leaves none: what comes after it is no version. */
  lemma LargestMinorHasNoRoom()
    ensures var top := AutoVersion(1, MAX_INT);
            IsHighest(map[top := "h"], top) && !NextMinor(Some(top)).Version? && !HasRoom(top)
  {
  }

  lemma AboveTop(top: Tag)
    requires top.Version?
    ensures StrictlyAbove(NextMinor(Some(top)), top) <==> HasRoom(top)
  {
    var next := NextMinor(Some(top));
    if next.Version? {
      ThreeNumbers(top, next);
    }
  }

  /** Versions whose numbers differ compare by their numbers. */
  lemma ThreeNumbers(a: Tag, b: Tag)
    requires a.Version? && b.Version?
    ensures a.major < b.major ==> LexLess(Rank(a), Rank(b))
    ensures a.major > b.major ==> !LexLess(Rank(a), Rank(b))
    ensures a.major == b.major && a.minor < b.minor ==> LexLess(Rank(a), Rank(b))
    ensures a.major == b.major && a.minor > b.minor ==> !LexLess(Rank(a), Rank(b))
    ensures a.major == b.major && a.minor == b.minor && a.patch > b.patch ==> !LexLess(Rank(a), Rank(b))
  {
    var x, y := Rank(a), Rank(b);
    assert x[0] == a.major && x[1..][0] == a.minor && x[1..][1..][0] == a.patch;
    assert y[0] == b.major && y[1..][0] == b.minor && y[1..][1..][0] == b.patch;
    assert a.major == b.major ==> LexLess(x, y) == LexLess(x[1..], y[1..]);
    assert a.minor == b.minor ==> LexLess(x[1..], y[1..]) == LexLess(x[1..][1..], y[1..][1..]);
  }
}

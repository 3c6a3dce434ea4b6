/**
 How release versions are numbered (tools/releasekit.py:45, 93-134, 263-272, 417-455,
 551-558).

 A version's parts are digit strings, which the source compares as text where it looks a base up
 among the tags and as numbers where it orders versions, so "1.02.3" and "1.2.3" are different
 bases with equal keys. Only the version rules are modelled: everything else that can stop a
 release (the changelog, CI, git, the network) is the parameter `goes`.
 */
module Release {
  import opened Results
  import opened Ranking

  /** One or more decimal digits. */
  type Digits = d: seq<nat> | d != [] && forall i | 0 <= i < |d| :: d[i] < 10 witness [0]

  function Value(d: seq<nat>): nat {
    if d == [] then 0 else Value(d[..|d| - 1]) * 10 + d[|d| - 1]
  }

  /** str(n) */
  function Decimal(n: nat): (d: Digits) {
    if n < 10 then [n] else Decimal(n / 10) + [n % 10]
  }

  lemma {:induction false} ValueOfDecimal(n: nat)
    ensures Value(Decimal(n)) == n
  {
    if n < 10 {
      assert [n][..0] == [];
    } else {
      ValueOfDecimal(n / 10);
      assert Decimal(n)[..|Decimal(n)| - 1] == Decimal(n / 10);
    }
  }

  datatype Base = Base(x: Digits, y: Digits, z: Digits)

  /** "vX.Y.Z" or "vX.Y.Z-test.N"; N has no leading zero, so the number is its spelling. */
  datatype Tag = Tag(base: Base, test: Option<nat>)

  /** The manifest's four-part AssemblyVersion. */
  datatype AssemblyVersion = AssemblyVersion(base: Base, build: Digits)

  // ------------------------------------------------------------ order

  function Key(b: Base): seq<int> {
    [Value(b.x), Value(b.y), Value(b.z)]
  }

  function VersionKey(f: AssemblyVersion): seq<int> {
    Key(f.base) + [Value(f.build)]
  }

  /** Python's order on tuples of equal length. */
  predicate Less(a: seq<int>, b: seq<int>)
    requires |a| == |b|
  {
    a != [] && (a[0] < b[0] || (a[0] == b[0] && Less(a[1..], b[1..])))
  }

  predicate BaseLess(a: Base, b: Base) {
    Less(Key(a), Key(b))
  }

  lemma LessIsNumeric(a: Base, b: Base)
    ensures BaseLess(a, b) <==>
      || Value(a.x) < Value(b.x)
      || (Value(a.x) == Value(b.x) && Value(a.y) < Value(b.y))
      || (Value(a.x) == Value(b.x) && Value(a.y) == Value(b.y) && Value(a.z) < Value(b.z))
  {
    LessThree(Value(a.x), Value(a.y), Value(a.z), Value(b.x), Value(b.y), Value(b.z));
  }

  lemma LessOne(a: int, b: int)
    ensures Less([a], [b]) <==> a < b
  {
    assert [a][1..] == [] && [b][1..] == [];
  }

  lemma {:induction false} LessStep(a: int, rest: seq<int>, b: int, more: seq<int>)
    requires |rest| == |more|
    ensures Less([a] + rest, [b] + more) <==> a < b || (a == b && Less(rest, more))
  {
    assert ([a] + rest)[1..] == rest && ([b] + more)[1..] == more;
  }

  lemma LessThree(x: int, y: int, z: int, u: int, v: int, w: int)
    ensures Less([x, y, z], [u, v, w]) <==> x < u || (x == u && y < v) || (x == u && y == v && z < w)
  {
    LessOne(z, w);
    LessStep(y, [z], v, [w]);
    LessStep(x, [y] + [z], u, [v] + [w]);
    assert [x] + ([y] + [z]) == [x, y, z] && [u] + ([v] + [w]) == [u, v, w];
  }

  lemma VersionLessIsNumeric(a: AssemblyVersion, b: AssemblyVersion)
    ensures Less(VersionKey(a), VersionKey(b)) <==>
      BaseLess(a.base, b.base) || (Key(a.base) == Key(b.base) && Value(a.build) < Value(b.build))
  {
    var k, l, m, n := Key(a.base), Key(b.base), [Value(a.build)], [Value(b.build)];
    LessOne(Value(a.build), Value(b.build));
    LessStep(k[2], m, l[2], n);
    LessStep(k[1], [k[2]] + m, l[1], [l[2]] + n);
    LessStep(k[0], [k[1]] + ([k[2]] + m), l[0], [l[1]] + ([l[2]] + n));
    assert [k[0]] + ([k[1]] + ([k[2]] + m)) == k + m && [l[0]] + ([l[1]] + ([l[2]] + n)) == l + n;
    LessIsNumeric(a.base, b.base);
  }

  // ------------------------------------------------------------ the tag list

  /** The greatest test number of a base among the tags, or 0. */
  function LastTest(tags: seq<Tag>, base: Base): nat {
    if tags == [] then 0
    else
      var front, t := LastTest(tags[..|tags| - 1], base), tags[|tags| - 1];
      if t.base == base && t.test.Some? && t.test.value > front then t.test.value else front
  }

  lemma {:induction false} LastTestIsGreatest(tags: seq<Tag>, base: Base)
    ensures forall t | t in tags && t.base == base && t.test.Some? :: t.test.value <= LastTest(tags, base)
    ensures LastTest(tags, base) > 0 ==> Tag(base, Some(LastTest(tags, base))) in tags
  {
    if tags != [] {
      LastTestIsGreatest(tags[..|tags| - 1], base);
      assert tags == tags[..|tags| - 1] + [tags[|tags| - 1]];
    }
  }

  function Stables(tags: seq<Tag>): seq<Base> {
    if tags == [] then []
    else Stables(tags[..|tags| - 1]) + if tags[|tags| - 1].test.None? then [tags[|tags| - 1].base] else []
  }

  function StableBases(tags: seq<Tag>): seq<Base> {
    Sort(Stables(tags), BaseLess)
  }

  lemma {:induction false} StablesAreTags(tags: seq<Tag>, base: Base)
    ensures base in Stables(tags) <==> Tag(base, None) in tags
  {
    if tags != [] {
      StablesAreTags(tags[..|tags| - 1], base);
      assert tags == tags[..|tags| - 1] + [tags[|tags| - 1]];
    }
  }

  lemma SortedHasTheSame(tags: seq<Tag>, base: Base)
    ensures base in StableBases(tags) <==> Tag(base, None) in tags
  {
    StablesAreTags(tags, base);
    assert base in StableBases(tags) <==> base in multiset(StableBases(tags));
    assert base in Stables(tags) <==> base in multiset(Stables(tags));
  }

  lemma BasesTie()
    ensures WeakOrder(BaseLess)
  {
    forall a, b ensures BaseLess(a, b) ==> !BaseLess(b, a) {
      LessIsNumeric(a, b);
      LessIsNumeric(b, a);
    }
    forall a, b, c ensures !BaseLess(b, a) && !BaseLess(c, b) ==> !BaseLess(c, a) {
      LessIsNumeric(b, a);
      LessIsNumeric(c, b);
      LessIsNumeric(c, a);
    }
  }

  // ------------------------------------------------------------ one release

  /**
   What the command line names: a version of three numbers, nothing at all, or something else. `main`
   lets only the first two through, and only a test can do without a version.
   */
  datatype Argument = Named(base: Base) | Absent | Malformed

  datatype Kind = Test | Stable

  datatype Repo = Repo(tags: seq<Tag>, manifest: AssemblyVersion)

  datatype Cut = Cut(tag: Tag, version: AssemblyVersion)

  /** The base the release is for: the one named, or for a test the one in the tree, or the next patch if that is out. */
  function NextBase(repo: Repo, kind: Kind, argument: Argument): Option<Base> {
    match argument
    case Named(base) => Some(base)
    case Malformed => None
    case Absent =>
      var b := repo.manifest.base;
      if kind.Stable? then None
      else if b in StableBases(repo.tags) then Some(Base(Decimal(Value(b.x)), Decimal(Value(b.y)), Decimal(Value(b.z) + 1)))
      else Some(b)
  }

  /** A test counts on from the base's last one; a stable release counts on only if there were tests. */
  function Chosen(repo: Repo, kind: Kind, base: Base): Cut {
    var last := LastTest(repo.tags, base);
    var build := if kind.Test? || last > 0 then last + 1 else 0;
    Cut(Tag(base, if kind.Test? then Some(build) else None), AssemblyVersion(base, Decimal(build)))
  }

  /** The source's refusals. */
  predicate Permitted(repo: Repo, version: AssemblyVersion) {
    var stables, base := StableBases(repo.tags), version.base;
    && base !in stables
    && !(stables != [] && !BaseLess(stables[|stables| - 1], base))
    && !BaseLess(base, repo.manifest.base)
    && !(!Less(VersionKey(repo.manifest), VersionKey(version)) && version != repo.manifest)
  }

  function Released(repo: Repo, kind: Kind, argument: Argument): Option<Cut> {
    match NextBase(repo, kind, argument)
    case None => None
    case Some(base) =>
      var cut := Chosen(repo, kind, base);
      if Permitted(repo, cut.version) then Some(cut) else None
  }

  function After(repo: Repo, cut: Cut): Repo {
    Repo(repo.tags + [cut.tag], cut.version)
  }

  predicate CheckTag(tags: seq<Tag>, manifest: AssemblyVersion, tag: Tag) {
    && manifest.base == tag.base
    && (tag.test.Some? ==> Value(manifest.build) == tag.test.value)
    && (tag.test.None? && LastTest(tags, tag.base) > 0 ==> Value(manifest.build) > LastTest(tags, tag.base))
  }

  /** Looking at the last of the sorted bases is enough: a permitted version is newer than every stable release. */
  lemma NewerThanEveryStable(repo: Repo, version: AssemblyVersion, stable: Base)
    requires Permitted(repo, version) && Tag(stable, None) in repo.tags
    ensures BaseLess(stable, version.base)
  {
    var stables := StableBases(repo.tags);
    SortedHasTheSame(repo.tags, stable);
    BasesTie();
    SortInOrder(Stables(repo.tags), BaseLess);
    var last := stables[|stables| - 1];
    LessIsNumeric(last, stable);
    LessIsNumeric(last, version.base);
    LessIsNumeric(stable, version.base);
  }

  /**
   What the four refusals come to: a version may be cut exactly if its base is newer than every
   stable release and no older than the tree's, and it is newer than the tree or is the tree's own.
   */
  lemma PermittedExactly(repo: Repo, version: AssemblyVersion)
    ensures Permitted(repo, version) <==>
      && (forall stable: Base | Tag(stable, None) in repo.tags :: BaseLess(stable, version.base))
      && !BaseLess(version.base, repo.manifest.base)
      && (Less(VersionKey(repo.manifest), VersionKey(version)) || version == repo.manifest)
  {
    var stables := StableBases(repo.tags);
    if Permitted(repo, version) {
      forall stable: Base | Tag(stable, None) in repo.tags ensures BaseLess(stable, version.base) {
        NewerThanEveryStable(repo, version, stable);
      }
    }
    SortedHasTheSame(repo.tags, version.base);
    LessIsNumeric(version.base, version.base);
    if stables != [] { SortedHasTheSame(repo.tags, stables[|stables| - 1]); }
  }

  class Repository {
    var tags: seq<Tag>
    var manifest: AssemblyVersion

    constructor (tags: seq<Tag>, manifest: AssemblyVersion)
      ensures this.tags == tags && this.manifest == manifest
    {
      this.tags, this.manifest := tags, manifest;
    }

    /** `goes` if nothing but the version rules could stop it. */
    method Release(kind: Kind, argument: Argument, dry: bool, goes: bool) returns (cut: Option<Cut>)
      modifies this
      ensures cut == if goes then Released(Repo(old(tags), old(manifest)), kind, argument) else None
      ensures Repo(tags, manifest) ==
        if cut.Some? && !dry then After(Repo(old(tags), old(manifest)), cut.value) else Repo(old(tags), old(manifest))
    {
      var base := NextBase(Repo(tags, manifest), kind, argument);
      if !goes || base.None? { return None; }
      var chosen := Chosen(Repo(tags, manifest), kind, base.value);
      if !Permitted(Repo(tags, manifest), chosen.version) { return None; }
      cut := Some(chosen);
      if !dry { tags, manifest := tags + [chosen.tag], chosen.version; }
    }
  }

  // ------------------------------------------------------------ runs

  /** The tags, the manifest and everything cut so far. */
  datatype History = History(repo: Repo, cuts: seq<Cut>)

  datatype Call = Call(kind: Kind, argument: Argument, dry: bool, goes: bool)

  function Next(h: History, call: Call): History {
    if !call.goes || call.dry then h
    else
      match Released(h.repo, call.kind, call.argument)
      case None => h
      case Some(cut) => History(After(h.repo, cut), h.cuts + [cut])
  }

  function Run(h: History, calls: seq<Call>): History
    decreases |calls|
  {
    if calls == [] then h else Run(Next(h, calls[0]), calls[1..])
  }

  /** Any tags and any manifest to begin with, and nothing cut yet. */
  function Begin(repo: Repo): History {
    History(repo, [])
  }

  /** The last cut is what the tree says. */
  ghost predicate Anchored(h: History) {
    h.cuts != [] ==> h.cuts[|h.cuts| - 1].version == h.repo.manifest
  }

  /** The tag of a cut is there, and agrees with its version. */
  predicate TagAgrees(tags: seq<Tag>, cut: Cut) {
    && cut.tag in tags && cut.tag.base == cut.version.base
    && (if cut.tag.test.Some? then Value(cut.version.build) == cut.tag.test.value > 0
        else LastTest(tags, cut.tag.base) > 0 ==> Value(cut.version.build) > LastTest(tags, cut.tag.base))
  }

  ghost predicate Inv(h: History) {
    Anchored(h) && forall i | 0 <= i < |h.cuts| :: TagAgrees(h.repo.tags, h.cuts[i])
  }

  lemma {:induction false} LastTestAdds(tags: seq<Tag>, t: Tag, base: Base)
    ensures LastTest(tags + [t], base) ==
      if t.base == base && t.test.Some? && t.test.value > LastTest(tags, base) then t.test.value else LastTest(tags, base)
  {
    assert (tags + [t])[..|tags|] == tags;
  }

  /**
   A cut has a tag that was not there, of a base not yet released. Its build number is its tag's if
   it is a test; either way it is greater than that of every earlier test of the base.
   */
  lemma ReleasedFacts(repo: Repo, kind: Kind, argument: Argument)
    requires Released(repo, kind, argument).Some?
    ensures var cut := Released(repo, kind, argument).value;
      && cut.tag !in repo.tags && Tag(cut.tag.base, None) !in repo.tags && cut.tag.base == cut.version.base
      && (cut.tag.test.Some? <==> kind.Test?)
      && (cut.tag.test.Some? ==> Value(cut.version.build) == cut.tag.test.value > 0)
      && forall t | t in repo.tags && t.base == cut.tag.base && t.test.Some? ::
           t.test.value > 0 ==> Value(cut.version.build) > t.test.value
    ensures var cut := Released(repo, kind, argument).value;
      kind.Test? || LastTest(repo.tags, cut.tag.base) > 0 ==> Value(cut.version.build) == LastTest(repo.tags, cut.tag.base) + 1
  {
    var cut := Released(repo, kind, argument).value;
    var last := LastTest(repo.tags, cut.tag.base);
    SortedHasTheSame(repo.tags, cut.tag.base);
    LastTestIsGreatest(repo.tags, cut.tag.base);
    ValueOfDecimal(last + 1);
  }

  /** An earlier cut's tag keeps agreeing with its version: a released base gets no more tests. */
  lemma TagKeepsAgreeing(repo: Repo, kind: Kind, argument: Argument, earlier: Cut)
    requires Released(repo, kind, argument).Some? && TagAgrees(repo.tags, earlier)
    ensures TagAgrees(After(repo, Released(repo, kind, argument).value).tags, earlier)
  {
    var cut := Released(repo, kind, argument).value;
    ReleasedFacts(repo, kind, argument);
    LastTestAdds(repo.tags, cut.tag, earlier.tag.base);
  }

  lemma CutAgrees(repo: Repo, kind: Kind, argument: Argument)
    requires Released(repo, kind, argument).Some?
    ensures var cut := Released(repo, kind, argument).value;
      TagAgrees(After(repo, cut).tags, cut)
  {
    var cut := Released(repo, kind, argument).value;
    ReleasedFacts(repo, kind, argument);
    LastTestAdds(repo.tags, cut.tag, cut.tag.base);
  }

  lemma StepKeepsInv(h: History, call: Call)
    requires Inv(h)
    ensures Inv(Next(h, call))
  {
    var released := Released(h.repo, call.kind, call.argument);
    if call.goes && !call.dry && released.Some? {
      var next := Next(h, call);
      CutAgrees(h.repo, call.kind, call.argument);
      forall i | 0 <= i < |next.cuts| ensures TagAgrees(next.repo.tags, next.cuts[i]) {
        if i < |h.cuts| { TagKeepsAgreeing(h.repo, call.kind, call.argument, h.cuts[i]); }
      }
    }
  }

  lemma {:induction false} RunKeepsInv(h: History, calls: seq<Call>)
    requires Inv(h)
    ensures Inv(Run(h, calls))
    decreases |calls|
  {
    if calls != [] {
      StepKeepsInv(h, calls[0]);
      RunKeepsInv(Next(h, calls[0]), calls[1..]);
    }
  }

  /** The tag check accepts every cut of every run from any tags and manifest, when it is made and at any later time. */
  lemma {:induction false} CheckTagAcceptsCuts(repo: Repo, calls: seq<Call>, i: nat)
    requires i < |Run(Begin(repo), calls).cuts|
    ensures var h := Run(Begin(repo), calls);
      CheckTag(h.repo.tags, h.cuts[i].version, h.cuts[i].tag)
  {
    RunKeepsInv(Begin(repo), calls);
    var h := Run(Begin(repo), calls);
    assert TagAgrees(h.repo.tags, h.cuts[i]);
  }

  /** The version in the tree has been cut, so its base is out or its test number taken: it is not chosen again. */
  lemma TreeIsNotCutAgain(h: History, kind: Kind, argument: Argument)
    requires Inv(h) && h.cuts != [] && Released(h.repo, kind, argument).Some?
    ensures Released(h.repo, kind, argument).value.version != h.repo.manifest
  {
    var cut, last := Released(h.repo, kind, argument).value, h.cuts[|h.cuts| - 1];
    ReleasedFacts(h.repo, kind, argument);
    assert TagAgrees(h.repo.tags, last) && last.tag == Tag(last.tag.base, last.tag.test);
  }

  lemma NextCutIsNewer(h: History, kind: Kind, argument: Argument)
    requires Inv(h) && h.cuts != [] && Released(h.repo, kind, argument).Some?
    ensures Less(VersionKey(h.repo.manifest), VersionKey(Released(h.repo, kind, argument).value.version))
  {
    TreeIsNotCutAgain(h, kind, argument);
  }

  /** After the first cut, every further one is strictly newer than the tree. */
  lemma {:induction false} CutsAreNewer(repo: Repo, calls: seq<Call>, kind: Kind, argument: Argument)
    requires Run(Begin(repo), calls).cuts != []
    requires Released(Run(Begin(repo), calls).repo, kind, argument).Some?
    ensures var now := Run(Begin(repo), calls).repo;
      Less(VersionKey(now.manifest), VersionKey(Released(now, kind, argument).value.version))
  {
    RunKeepsInv(Begin(repo), calls);
    NextCutIsNewer(Run(Begin(repo), calls), kind, argument);
  }

  lemma NewerIsTransitive(a: AssemblyVersion, b: AssemblyVersion, c: AssemblyVersion)
    requires Less(VersionKey(a), VersionKey(b)) && Less(VersionKey(b), VersionKey(c))
    ensures Less(VersionKey(a), VersionKey(c))
  {
    VersionLessIsNumeric(a, b);
    VersionLessIsNumeric(b, c);
    VersionLessIsNumeric(a, c);
    LessIsNumeric(a.base, b.base);
    LessIsNumeric(b.base, c.base);
    LessIsNumeric(a.base, c.base);
  }

  ghost predicate Increasing(cuts: seq<Cut>) {
    forall i, j | 0 <= i < j < |cuts| :: Less(VersionKey(cuts[i].version), VersionKey(cuts[j].version))
  }

  lemma IncreasingAdds(cuts: seq<Cut>, cut: Cut)
    requires Increasing(cuts)
    requires cuts != [] ==> Less(VersionKey(cuts[|cuts| - 1].version), VersionKey(cut.version))
    ensures Increasing(cuts + [cut])
  {
    var more := cuts + [cut];
    forall i, j | 0 <= i < j < |more| ensures Less(VersionKey(more[i].version), VersionKey(more[j].version)) {
      if j == |cuts| && i < |cuts| - 1 {
        NewerIsTransitive(cuts[i].version, cuts[|cuts| - 1].version, cut.version);
      }
    }
  }

  lemma StepIncreases(h: History, call: Call)
    requires Inv(h) && Increasing(h.cuts)
    ensures Increasing(Next(h, call).cuts)
  {
    var released := Released(h.repo, call.kind, call.argument);
    if call.goes && !call.dry && released.Some? {
      if h.cuts != [] { NextCutIsNewer(h, call.kind, call.argument); }
      IncreasingAdds(h.cuts, released.value);
    }
  }

  lemma {:induction false} RunIncreases(h: History, calls: seq<Call>)
    requires Inv(h) && Increasing(h.cuts)
    ensures Increasing(Run(h, calls).cuts)
    decreases |calls|
  {
    if calls != [] {
      StepKeepsInv(h, calls[0]);
      StepIncreases(h, calls[0]);
      RunIncreases(Next(h, calls[0]), calls[1..]);
    }
  }

  /**
   From any tags and manifest, in every run in which only `release` tags and moves the manifest, each
   cut's four-part version is strictly greater than every earlier cut's.
   */
  lemma {:induction false} CutsIncrease(repo: Repo, calls: seq<Call>)
    ensures Increasing(Run(Begin(repo), calls).cuts)
  {
    RunIncreases(Begin(repo), calls);
  }
}

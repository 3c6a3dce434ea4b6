/**
 Which version comes next, and that there always is one (tools/releasekit.py:417-455). The lemmas on
 runs would hold of a numbering that skips versions or refuses everything; these would not.
 */
module ReleaseProgress {
  import opened Results
  import opened Ranking
  import opened Release

  /** No base lies between these two. */
  ghost predicate Adjacent(a: Base, b: Base) {
    BaseLess(a, b) && forall other: Base :: BaseLess(a, other) ==> !BaseLess(other, b)
  }

  /** A test without a version is of the tree's base, or of the very next one if that has been released. */
  lemma NextTestBase(repo: Repo)
    ensures var next := NextBase(repo, Test, Absent);
      && next.Some?
      && (Tag(repo.manifest.base, None) !in repo.tags ==> next.value == repo.manifest.base)
      && (Tag(repo.manifest.base, None) in repo.tags ==> Adjacent(repo.manifest.base, next.value))
  {
    var b := repo.manifest.base;
    SortedHasTheSame(repo.tags, b);
    if Tag(b, None) in repo.tags { NextPatchIsAdjacent(b, NextBase(repo, Test, Absent).value); }
  }

  lemma NextPatchIsAdjacent(b: Base, next: Base)
    requires next == Base(Decimal(Value(b.x)), Decimal(Value(b.y)), Decimal(Value(b.z) + 1))
    ensures Adjacent(b, next)
  {
    ValueOfDecimal(Value(b.x));
    ValueOfDecimal(Value(b.y));
    ValueOfDecimal(Value(b.z) + 1);
    LessIsNumeric(b, next);
    forall other: Base ensures BaseLess(b, other) ==> !BaseLess(other, next) {
      LessIsNumeric(b, other);
      LessIsNumeric(other, next);
    }
  }

  /** A named base is taken as it is; nothing else but a test can do without one. */
  lemma OtherBases(repo: Repo, kind: Kind, base: Base)
    ensures NextBase(repo, kind, Named(base)) == Some(base)
    ensures NextBase(repo, Stable, Absent) == None && NextBase(repo, kind, Malformed) == None
  {
  }

  /** One more than the greatest test number of the base, or for a stable release without tests 0. */
  ghost predicate IsNextBuild(tags: seq<Tag>, kind: Kind, base: Base, build: nat) {
    if kind.Stable? && !HasTests(tags, base) then build == 0
    else
      && (forall t | t in tags && t.base == base && t.test.Some? :: t.test.value < build)
      && (build > 1 ==> Tag(base, Some(build - 1)) in tags) && build >= 1
  }

  ghost predicate HasTests(tags: seq<Tag>, base: Base) {
    exists t | t in tags :: t.base == base && t.test.Some? && t.test.value > 0
  }

  lemma NextBuildIsUnique(tags: seq<Tag>, kind: Kind, base: Base, a: nat, b: nat)
    requires IsNextBuild(tags, kind, base, a) && IsNextBuild(tags, kind, base, b)
    ensures a == b
  {
  }

  lemma ChosenBuild(repo: Repo, kind: Kind, base: Base)
    ensures var cut := Chosen(repo, kind, base);
      && cut.version.base == cut.tag.base == base && IsNextBuild(repo.tags, kind, base, Value(cut.version.build))
      && cut.tag.test == if kind.Test? then Some(Value(cut.version.build)) else None
  {
    var last := LastTest(repo.tags, base);
    LastTestIsGreatest(repo.tags, base);
    ValueOfDecimal(last + 1);
    ValueOfDecimal(0);
    assert HasTests(repo.tags, base) <==> last > 0 by {
      if last > 0 { assert Tag(base, Some(last)) in repo.tags; }
    }
  }

  /** What a release of a named base cuts, and when: the next build, where it is newer than everything it must be. */
  lemma NamedIsCutExactly(repo: Repo, kind: Kind, base: Base)
    ensures var cut, r := Chosen(repo, kind, base), Released(repo, kind, Named(base));
      && (r == Some(cut) || r == None)
      && (r.Some? <==>
            && (forall stable: Base | Tag(stable, None) in repo.tags :: BaseLess(stable, base))
            && !BaseLess(base, repo.manifest.base)
            && (Less(VersionKey(repo.manifest), VersionKey(cut.version)) || cut.version == repo.manifest))
  {
    PermittedExactly(repo, Chosen(repo, kind, base).version);
  }

  // ------------------------------------------------------------ there is always a next one

  lemma NotLessThanItself(base: Base)
    ensures !BaseLess(base, base)
  {
    LessIsNumeric(base, base);
  }

  /** After a test, the next test and the stable release of its base can be cut. */
  lemma AfterTest(repo: Repo, argument: Argument, kind: Kind)
    requires Released(repo, Test, argument).Some?
    ensures var cut := Released(repo, Test, argument).value;
      var next := Released(After(repo, cut), kind, Named(cut.tag.base));
      next.Some? && next.value.tag.base == cut.tag.base
      && Value(next.value.version.build) == cut.tag.test.value + 1
      && next.value.tag.test == if kind.Test? then Some(cut.tag.test.value + 1) else None
  {
    var cut := Released(repo, Test, argument).value;
    var base, after := cut.tag.base, After(repo, cut);
    ReleasedFacts(repo, Test, argument);
    PermittedExactly(repo, cut.version);
    LastTestAdds(repo.tags, cut.tag, base);
    LastTestIsGreatest(repo.tags, base);
    ChosenBuild(after, kind, base);
    ValueOfDecimal(LastTest(after.tags, base) + 1);
    NotLessThanItself(base);
    VersionLessIsNumeric(cut.version, Chosen(after, kind, base).version);
    NamedIsCutExactly(after, kind, base);
  }

  /** After a stable release, a test without a version is of the next patch, and can be cut. */
  lemma AfterStable(repo: Repo, argument: Argument)
    requires Released(repo, Stable, argument).Some?
    ensures var cut := Released(repo, Stable, argument).value;
      var next := Released(After(repo, cut), Test, Absent);
      next.Some? && Adjacent(cut.tag.base, next.value.tag.base)
  {
    var cut := Released(repo, Stable, argument).value;
    var after := After(repo, cut);
    NextTestBase(after);
    var base := NextBase(after, Test, Absent).value;
    NewerThanAll(repo, cut, base);
    NamedIsCutExactly(after, Test, base);
    ChosenBuild(after, Test, base);
    VersionLessIsNumeric(cut.version, Chosen(after, Test, base).version);
  }

  lemma NewerThanAll(repo: Repo, cut: Cut, base: Base)
    requires Permitted(repo, cut.version) && cut.tag == Tag(cut.version.base, None) && BaseLess(cut.version.base, base)
    ensures forall stable: Base | Tag(stable, None) in After(repo, cut).tags :: BaseLess(stable, base)
    ensures !BaseLess(base, cut.version.base)
  {
    PermittedExactly(repo, cut.version);
    forall stable: Base | Tag(stable, None) in After(repo, cut).tags ensures BaseLess(stable, base) {
      LessIsNumeric(stable, cut.version.base);
      LessIsNumeric(cut.version.base, base);
      LessIsNumeric(stable, base);
    }
    LessIsNumeric(cut.version.base, base);
    LessIsNumeric(base, cut.version.base);
  }

  /** The tag check lets a test through with its own number only, and a stable version only with a build above all its tests. */
  lemma CheckTagExactly(tags: seq<Tag>, manifest: AssemblyVersion, tag: Tag)
    ensures CheckTag(tags, manifest, tag) <==>
      && manifest.base == tag.base
      && (tag.test.Some? ==> Value(manifest.build) == tag.test.value)
      && (tag.test.None? ==>
            forall t | t in tags && t.base == tag.base && t.test.Some? && t.test.value > 0 :: t.test.value < Value(manifest.build))
  {
    var last := LastTest(tags, tag.base);
    LastTestIsGreatest(tags, tag.base);
    assert last > 0 ==> Tag(tag.base, Some(last)).test == Some(last);
  }
}

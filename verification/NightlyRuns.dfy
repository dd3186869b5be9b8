/** Nightly numbers over whole histories: the next number against every tag, pruning
    (scripts/nightly/prune.ts), the update feed (scripts/nightly/feed.ts), and runs of both. */
module NightlyRuns {
  import opened Common
  import opened Text
  import opened NightlyVersion
  import opened Sorting

  /** The feed only moves to versions newer than the one it serves. */
  function CanAdvanceFeed(version: string, current: Option<string>): bool {
    current.None? || current.value == "" || CompareNightlies(version, current.value) > 0
  }

  // ---------------------------------------------------------------- the next number

  /** The base text chosen for the next version. */
  function Chosen(main: string, commit: Option<string>, tags: seq<string>): string {
    Target(Stem(main), CommitStem(main, commit), HighestBase(Newest(Nightlies(tags))))
  }

  lemma DigitsHaveNoDash(s: string)
    requires AllDigits(s)
    ensures '-' !in s
  {
  }

  lemma ChosenHasNoDash(main: string, commit: Option<string>, tags: seq<string>)
    ensures '-' !in Chosen(main, commit, tags)
  {
    var newest := Newest(Nightlies(tags));
    if newest.Some? {
      var b := newest.value.base;
      DigitsHaveNoDash(Decimal(b.major));
      DigitsHaveNoDash(Decimal(b.minor));
      DigitsHaveNoDash(Decimal(b.patch));
    }
  }

  /** A text that is a base once cleaned at its start parses as that base. */
  lemma CleanStartParses(s: string)
    requires IsBase(CleanStart(s))
    ensures ParseBase(s) == Some(BaseOf(CleanStart(s)))
  {
    var c := CleanStart(s);
    BaseReads(c, "");
    NothingToTrim(JsTrimStart(s), c);
  }

  lemma NothingToTrim(t: string, c: string)
    requires c != "" && !IsJsSpace(c[|c| - 1]) && (t == c || t == "v" + c)
    ensures JsTrimEnd(t) == t
  {
    assert t[|t| - 1] == c[|c| - 1];
  }

  /** The comparison of bases as an order on what they parse to. */
  predicate Exceeds(a: Option<Base>, b: Option<Base>) {
    a.Some? && b.Some? && Below(b.value, a.value)
  }

  lemma ComparesBases(a: string, b: string)
    ensures CompareBases(a, b) > 0 <==> Exceeds(ParseBase(a), ParseBase(b))
    ensures CompareBases(a, b) == 0 <==> ParseBase(a).None? || ParseBase(b).None? || ParseBase(a) == ParseBase(b)
  {
    DifferenceDecides(ParseBase(a), ParseBase(b));
  }

  lemma DifferenceDecides(a: Option<Base>, b: Option<Base>)
    ensures a.Some? && b.Some? ==>
              (Difference(a.value, b.value) > 0 <==> Below(b.value, a.value)) && (Difference(a.value, b.value) == 0 <==> a == b)
  {
  }

  /** `a` is at least `b`, when `b` is a base at all. */
  predicate AtLeast(a: Base, b: Option<Base>) {
    b.Some? ==> !Below(a, b.value)
  }

  /** The chosen base is at least every candidate. */
  lemma TargetIsHighest(main: string, commit: string, highest: Option<string>)
    requires ParseBase(Target(main, commit, highest)).Some?
    ensures var base := ParseBase(Target(main, commit, highest)).value;
      AtLeast(base, ParseBase(main)) && AtLeast(base, ParseBase(commit))
      && (highest.Some? ==> AtLeast(base, ParseBase(highest.value)))
  {
    var first := if highest.Some? && CompareBases(highest.value, main) > 0 then highest.value else main;
    if highest.Some? {
      ComparesBases(highest.value, main);
    }
    ComparesBases(commit, first);
    HighestOfThree(ParseBase(main), ParseBase(commit), if highest.Some? then ParseBase(highest.value) else None);
  }

  lemma HighestOfThree(main: Option<Base>, commit: Option<Base>, highest: Option<Base>)
    ensures var first := if Exceeds(highest, main) then highest else main;
      var last := if Exceeds(commit, first) then commit else first;
      last.Some? ==> AtLeast(last.value, main) && AtLeast(last.value, commit) && AtLeast(last.value, highest)
  {
  }

  lemma BuildExceeds(target: string, newest: Nightly, run: Option<int>)
    requires ParseBase(target) == Some(newest.base)
    ensures BuildNumber(target, HighestBase(Some(newest)), newest.build, run) > newest.build
  {
    DottedIsBase(newest.base);
    ExactBaseParses(Dotted(newest.base));
    ComparesBases(target, Dotted(newest.base));
  }

  /** The next number after `newest`, when its base is exactly `X.Y.Z`. */
  lemma NextIsNewer(main: string, commit: string, newest: Option<Nightly>, run: Option<int>)
    ensures var target := Target(main, commit, HighestBase(newest));
      IsBase(CleanStart(target)) ==>
        var n := Nightly(BaseOf(CleanStart(target)), BuildNumber(target, HighestBase(newest), HighestBuild(newest), run));
        && (newest.Some? ==> Older(newest.value, n))
        && AtLeast(n.base, ParseBase(main)) && AtLeast(n.base, ParseBase(commit))
  {
    var target := Target(main, commit, HighestBase(newest));
    if IsBase(CleanStart(target)) {
      CleanStartParses(target);
      TargetIsHighest(main, commit, HighestBase(newest));
      if newest.Some? {
        DottedIsBase(newest.value.base);
        ExactBaseParses(Dotted(newest.value.base));
        if BaseOf(CleanStart(target)) == newest.value.base {
          BuildExceeds(target, newest.value, run);
        }
        NotBelow(BaseOf(CleanStart(target)), newest.value.base);
      }
    }
  }

  lemma NotBelow(a: Base, b: Base)
    ensures !Below(a, b) <==> a == b || Below(b, a)
  {
  }

  lemma BeforeChains(a: Nightly, b: Nightly, c: Nightly)
    ensures !Older(b, a) && Older(b, c) ==> Older(a, c)
  {
  }

  /** The next version as a number. */
  function NextNightly(main: string, commit: Option<string>, tags: seq<string>, run: Option<int>): Option<Nightly> {
    ParseNightly(NextVersion(main, commit, tags, run))
  }

  /** The next version is a nightly at all exactly when the chosen base is `X.Y.Z` and nothing more,
      and then its number is newer than every tag's, its tag means the same, and its base is at least
      the main and the commit base. */
  lemma NextExceedsAll(main: string, commit: Option<string>, tags: seq<string>, run: Option<int>)
    ensures var n := NextNightly(main, commit, tags, run);
      && (n.Some? <==> IsBase(CleanStart(Chosen(main, commit, tags))))
      && ParseNightly(NightlyTag(NextVersion(main, commit, tags, run))) == n
      && (n.Some? ==>
            && (forall m :: m in Nightlies(tags) ==> Older(m, n.value))
            && AtLeast(n.value.base, ParseBase(Stem(main)))
            && AtLeast(n.value.base, ParseBase(CommitStem(main, commit))))
  {
    var newest := Newest(Nightlies(tags));
    var target := Chosen(main, commit, tags);
    ChosenHasNoDash(main, commit, tags);
    var build := BuildNumber(target, HighestBase(newest), HighestBuild(newest), run);
    FormatReads(target, build);
    NextIsNewer(Stem(main), CommitStem(main, commit), newest, run);
    if IsBase(CleanStart(target)) {
      forall m | m in Nightlies(tags) ensures Older(m, Nightly(BaseOf(CleanStart(target)), build)) {
        BeforeChains(m, newest.value, Nightly(BaseOf(CleanStart(target)), build));
      }
    }
  }

  /** The chosen base is one of the candidates. */
  lemma TargetIsOneOf(main: string, commit: string, highest: Option<string>)
    ensures var target := Target(main, commit, highest);
      target == main || target == commit || (highest.Some? && target == highest.value)
  {
  }

  function Larger(a: int, b: int): int {
    if a >= b then a else b
  }

  /** The build: one more than the newest on the newest nightly's base and 1 on any other, or the run
      number when that is larger. */
  lemma BuildExactly(target: string, newest: Option<Nightly>, run: Option<int>)
    requires ParseBase(target).Some?
    ensures BuildNumber(target, HighestBase(newest), HighestBuild(newest), run) == NextBuild(ParseBase(target).value, newest, run)
  {
    if newest.Some? {
      DottedIsBase(newest.value.base);
      ExactBaseParses(Dotted(newest.value.base));
      ComparesBases(target, Dotted(newest.value.base));
    }
  }

  /** The highest of the candidate bases. */
  ghost predicate IsHighestOf(base: Base, main: Option<Base>, commit: Option<Base>, newest: Option<Nightly>) {
    && (main == Some(base) || commit == Some(base) || (newest.Some? && newest.value.base == base))
    && AtLeast(base, main) && AtLeast(base, commit) && (newest.Some? ==> AtLeast(base, Some(newest.value.base)))
  }

  /** The larger of the run number and one more than the newest build on the base, or 1. */
  function NextBuild(base: Base, newest: Option<Nightly>, run: Option<int>): int {
    Larger(if newest.Some? && newest.value.base == base then newest.value.build + 1 else 1, if run.Some? then run.value else 0)
  }

  /** Exactly which number comes next, when one does. */
  lemma NextNumberExactly(main: string, commit: Option<string>, tags: seq<string>, run: Option<int>)
    requires NextNightly(main, commit, tags, run).Some?
    ensures var n, newest := NextNightly(main, commit, tags, run).value, Newest(Nightlies(tags));
      IsHighestOf(n.base, ParseBase(Stem(main)), ParseBase(CommitStem(main, commit)), newest) && n.build == NextBuild(n.base, newest, run)
  {
    NextIs(main, commit, tags, run);
    TargetExactly(Stem(main), CommitStem(main, commit), Newest(Nightlies(tags)), Chosen(main, commit, tags));
    BuildExactly(Chosen(main, commit, tags), Newest(Nightlies(tags)), run);
  }

  lemma NextIs(main: string, commit: Option<string>, tags: seq<string>, run: Option<int>)
    requires NextNightly(main, commit, tags, run).Some?
    ensures var n, newest := NextNightly(main, commit, tags, run).value, Newest(Nightlies(tags));
      var target := Chosen(main, commit, tags);
      ParseBase(target) == Some(n.base) && n.build == BuildNumber(target, HighestBase(newest), HighestBuild(newest), run)
  {
    var newest := Newest(Nightlies(tags));
    var target := Chosen(main, commit, tags);
    ChosenHasNoDash(main, commit, tags);
    FormatReads(target, BuildNumber(target, HighestBase(newest), HighestBuild(newest), run));
    CleanStartParses(target);
  }

  lemma TargetExactly(main: string, commit: string, newest: Option<Nightly>, target: string)
    requires target == Target(main, commit, HighestBase(newest)) && ParseBase(target).Some?
    ensures IsHighestOf(ParseBase(target).value, ParseBase(main), ParseBase(commit), newest)
  {
    TargetIsOneOf(main, commit, HighestBase(newest));
    TargetIsHighest(main, commit, HighestBase(newest));
    if newest.Some? {
      DottedIsBase(newest.value.base);
      ExactBaseParses(Dotted(newest.value.base));
    }
  }

  /** Without a commit base of its own the commit counts as the main base. */
  lemma CommitDefaults(main: string)
    ensures CommitStem(main, None) == Stem(main) && CommitStem(main, Some("")) == Stem(main)
  {
  }

  /** Main and commit bases of the documented form are enough. */
  lemma ExactBasesSuffice(main: string, commit: Option<string>, tags: seq<string>)
    requires IsBase(Stem(main)) && IsBase(CommitStem(main, commit))
    ensures IsBase(CleanStart(Chosen(main, commit, tags)))
  {
    var newest := Newest(Nightlies(tags));
    if newest.Some? {
      DottedIsBase(newest.value.base);
    }
    BaseIsClean(Chosen(main, commit, tags));
  }

  lemma BaseIsClean(s: string)
    requires IsBase(s)
    ensures CleanStart(s) == s
  {
    BaseReads(s, "");
    DigitFirst(s);
  }

  lemma DigitFirst(s: string)
    requires s != "" && IsDigit(s[0])
    ensures CleanStart(s) == s
  {
  }

  /** A published version always moves the feed forward from any nightly already tagged. */
  lemma FeedAdvances(main: string, commit: Option<string>, tags: seq<string>, run: Option<int>, current: string)
    requires NextNightly(main, commit, tags, run).Some? && current in tags
    ensures CanAdvanceFeed(NextVersion(main, commit, tags, run), Some(current))
  {
    NextExceedsAll(main, commit, tags, run);
    var served := ParseNightly(current);
    if served.Some? {
      NightliesAreTagged(tags, served.value);
    }
    ComparesByOrder(NextNightly(main, commit, tags, run), served);
  }

  /** Exactly when the feed moves on: it serves nothing yet, or the new version is a nightly and newer than
      what it serves, if that is a nightly at all. */
  lemma FeedAdvancesExactly(version: string, current: Option<string>)
    ensures CanAdvanceFeed(version, current) <==>
              || current.None? || current.value == ""
              || (ParseNightly(version).Some?
                  && (ParseNightly(current.value).None? || Older(ParseNightly(current.value).value, ParseNightly(version).value)))
  {
    if current.Some? {
      ComparesByOrder(ParseNightly(version), ParseNightly(current.value));
    }
  }

  // ---------------------------------------------------------------- pruning

  datatype Release = Release(tag: string, prerelease: bool)

  datatype Plan = Plan(retained: seq<Release>, deleted: seq<Release>, holder: Option<Release>, stable: seq<Release>)

  function HolderTag(holder: Option<string>): string {
    if holder.Some? && holder.value != "" then holder.value else "nightly"
  }

  /** A release that pruning may delete. */
  predicate IsVersioned(r: Release, holder: string) {
    r.tag != holder && r.prerelease && ParseNightly(r.tag).Some?
  }

  function Versioned(releases: seq<Release>, holder: string): seq<Release> {
    if releases == [] then []
    else
      var n := |releases| - 1;
      Versioned(releases[..n], holder) + if IsVersioned(releases[n], holder) then [releases[n]] else []
  }

  function Stable(releases: seq<Release>, holder: string): seq<Release> {
    if releases == [] then []
    else
      var n := |releases| - 1;
      var r := releases[n];
      Stable(releases[..n], holder) + if r.tag != holder && !IsVersioned(r, holder) then [r] else []
  }

  function LastHolder(releases: seq<Release>, holder: string): Option<Release> {
    if releases == [] then None
    else
      var n := |releases| - 1;
      if releases[n].tag == holder then Some(releases[n]) else LastHolder(releases[..n], holder)
  }

  /** Newer releases come first. */
  function NewerFirst(a: Release, b: Release): int {
    CompareNightlies(b.tag, a.tag)
  }

  function Keeps(i: nat, r: Release, active: Option<string>, retain: int): bool {
    i < retain || (active.Some? && active.value != "" && r.tag == active.value)
  }

  function Retained(rs: seq<Release>, active: Option<string>, retain: int): seq<Release> {
    if rs == [] then []
    else
      var n := |rs| - 1;
      Retained(rs[..n], active, retain) + if Keeps(n, rs[n], active, retain) then [rs[n]] else []
  }

  function Deleted(rs: seq<Release>, active: Option<string>, retain: int): seq<Release> {
    if rs == [] then []
    else
      var n := |rs| - 1;
      Deleted(rs[..n], active, retain) + if Keeps(n, rs[n], active, retain) then [] else [rs[n]]
  }

  function ActiveTag(active: Option<string>): Option<string> {
    if active.Some? then Some(JsTrimEnd(JsTrimStart(active.value))) else None
  }

  function PlanFor(releases: seq<Release>, holder: Option<string>, active: Option<string>, retain: int): Plan {
    var tag := HolderTag(holder);
    var sorted := Sort(Versioned(releases, tag), NewerFirst);
    Plan(Retained(sorted, ActiveTag(active), retain), Deleted(sorted, ActiveTag(active), retain),
         LastHolder(releases, tag), Stable(releases, tag))
  }

  method DeterminePrunePlan(releases: seq<Release>, holder: Option<string>, active: Option<string>, retain: int) returns (plan: Plan)
    ensures plan == PlanFor(releases, holder, active, retain)
  {
    var feedHolder, stable, versioned := Classify(releases, HolderTag(holder));
    var retained, deleted := Divide(Sort(versioned, NewerFirst), ActiveTag(active), retain);
    plan := Plan(retained, deleted, feedHolder, stable);
  }

  method Classify(releases: seq<Release>, holderTag: string)
    returns (feedHolder: Option<Release>, stable: seq<Release>, versioned: seq<Release>)
    ensures feedHolder == LastHolder(releases, holderTag)
    ensures stable == Stable(releases, holderTag)
    ensures versioned == Versioned(releases, holderTag)
  {
    feedHolder, stable, versioned := None, [], [];
    var i := 0;
    while i < |releases|
      invariant 0 <= i <= |releases|
      invariant feedHolder == LastHolder(releases[..i], holderTag)
      invariant stable == Stable(releases[..i], holderTag)
      invariant versioned == Versioned(releases[..i], holderTag)
    {
      var r := releases[i];
      assert releases[..i + 1][..i] == releases[..i];
      if r.tag == holderTag {
        feedHolder := Some(r);
      } else if !IsVersioned(r, holderTag) {
        stable := stable + [r];
      } else {
        versioned := versioned + [r];
      }
      i := i + 1;
    }
    assert releases[..i] == releases;
  }

  method Divide(versioned: seq<Release>, activeTag: Option<string>, retain: int) returns (retained: seq<Release>, deleted: seq<Release>)
    ensures retained == Retained(versioned, activeTag, retain)
    ensures deleted == Deleted(versioned, activeTag, retain)
  {
    retained, deleted := [], [];
    var i := 0;
    while i < |versioned|
      invariant 0 <= i <= |versioned|
      invariant retained == Retained(versioned[..i], activeTag, retain)
      invariant deleted == Deleted(versioned[..i], activeTag, retain)
    {
      assert versioned[..i + 1][..i] == versioned[..i];
      if Keeps(i, versioned[i], activeTag, retain) {
        retained := retained + [versioned[i]];
      } else {
        deleted := deleted + [versioned[i]];
      }
      i := i + 1;
    }
    assert versioned[..i] == versioned;
  }

  // ---------------------------------------------------------------- what pruning keeps

  lemma NewerFirstIsConsistent()
    ensures Consistent(NewerFirst)
  {
    forall a, b ensures NewerFirst(a, b) > 0 ==> NewerFirst(b, a) <= 0 {
      ComparesByOrder(ParseNightly(a.tag), ParseNightly(b.tag));
      ComparesByOrder(ParseNightly(b.tag), ParseNightly(a.tag));
    }
    forall a, b, c | NewerFirst(a, b) <= 0 && NewerFirst(b, c) <= 0 ensures NewerFirst(a, c) <= 0 {
      ComparisonChains(ParseNightly(c.tag), ParseNightly(b.tag), ParseNightly(a.tag));
    }
  }

  lemma ComparisonChains(a: Option<Nightly>, b: Option<Nightly>, c: Option<Nightly>)
    ensures Compare(a, b) <= 0 && Compare(b, c) <= 0 ==> Compare(a, c) <= 0
  {
  }

  function TagOf(r: Release): string {
    r.tag
  }

  lemma {:induction false} VersionedAre(releases: seq<Release>, holder: string)
    ensures forall r :: r in Versioned(releases, holder) <==> r in releases && IsVersioned(r, holder)
    decreases |releases|
  {
    if releases != [] {
      var n := |releases| - 1;
      VersionedAre(releases[..n], holder);
      assert releases == releases[..n] + [releases[n]];
    }
  }

  lemma {:induction false} VersionedDistinct(releases: seq<Release>, holder: string)
    requires DistinctBy(releases, TagOf)
    ensures DistinctBy(Versioned(releases, holder), TagOf)
    decreases |releases|
  {
    if releases != [] {
      var n := |releases| - 1;
      VersionedAre(releases[..n], holder);
      VersionedDistinct(releases[..n], holder);
      forall r | r in releases[..n] ensures TagOf(r) != TagOf(releases[n]) {
        var i :| 0 <= i < n && releases[..n][i] == r;
        assert TagOf(releases[i]) != TagOf(releases[n]);
      }
    }
  }

  /** The names of the releases a plan deletes. */
  ghost predicate Deletes(plan: Plan, tag: string) {
    exists r :: r in plan.deleted && r.tag == tag
  }

  /** The tags that are left; deleting a release deletes its tag. */
  function Remaining(tags: seq<string>, plan: Plan): seq<string> {
    if tags == [] then []
    else (if exists r :: r in plan.deleted && r.tag == tags[0] then [] else [tags[0]]) + Remaining(tags[1..], plan)
  }

  lemma {:induction false} RemainingAre(tags: seq<string>, plan: Plan)
    ensures forall t :: t in Remaining(tags, plan) <==> t in tags && !Deletes(plan, t)
    decreases |tags|
  {
    if tags != [] {
      RemainingAre(tags[1..], plan);
      assert tags == [tags[0]] + tags[1..];
    }
  }

  lemma {:induction false} DeletedAre(rs: seq<Release>, active: Option<string>, retain: int)
    ensures forall r :: r in Deleted(rs, active, retain)
                        <==> exists k :: 0 <= k < |rs| && rs[k] == r && !Keeps(k, r, active, retain)
    decreases |rs|
  {
    if rs != [] {
      var n := |rs| - 1;
      DeletedAre(rs[..n], active, retain);
      forall r ensures r in Deleted(rs, active, retain)
                       <==> exists k :: 0 <= k < |rs| && rs[k] == r && !Keeps(k, r, active, retain) {
        if r in Deleted(rs[..n], active, retain) {
          var k :| 0 <= k < n && rs[..n][k] == r && !Keeps(k, r, active, retain);
          assert rs[k] == r;
        }
        if k :| 0 <= k < n && rs[k] == r && !Keeps(k, r, active, retain) {
          assert rs[..n][k] == r;
        }
      }
    }
  }

  lemma {:induction false} RetainedAre(rs: seq<Release>, active: Option<string>, retain: int)
    ensures forall r :: r in Retained(rs, active, retain)
                        <==> exists k :: 0 <= k < |rs| && rs[k] == r && Keeps(k, r, active, retain)
    ensures |Retained(rs, active, retain)| + |Deleted(rs, active, retain)| == |rs|
    decreases |rs|
  {
    if rs != [] {
      var n := |rs| - 1;
      RetainedAre(rs[..n], active, retain);
      forall r ensures r in Retained(rs, active, retain)
                       <==> exists k :: 0 <= k < |rs| && rs[k] == r && Keeps(k, r, active, retain) {
        if r in Retained(rs[..n], active, retain) {
          var k :| 0 <= k < n && rs[..n][k] == r && Keeps(k, r, active, retain);
          assert rs[k] == r;
        }
        if k :| 0 <= k < n && rs[k] == r && Keeps(k, r, active, retain) {
          assert rs[..n][k] == r;
        }
      }
    }
  }

  lemma {:induction false} StableAre(releases: seq<Release>, holder: string)
    ensures forall r :: r in Stable(releases, holder) <==> r in releases && r.tag != holder && !IsVersioned(r, holder)
    decreases |releases|
  {
    if releases != [] {
      var n := |releases| - 1;
      StableAre(releases[..n], holder);
      assert releases == releases[..n] + [releases[n]];
    }
  }

  lemma {:induction false} LastHolderIs(releases: seq<Release>, holder: string)
    ensures match LastHolder(releases, holder)
      case None => forall r :: r in releases ==> r.tag != holder
      case Some(r) => r in releases && r.tag == holder
    decreases |releases|
  {
    if releases != [] {
      var n := |releases| - 1;
      LastHolderIs(releases[..n], holder);
      assert releases == releases[..n] + [releases[n]];
    }
  }

  /** A release pruning may delete: a prerelease with the tag of a nightly that does not hold the feed. */
  lemma VersionedMeans(r: Release, holder: string)
    ensures IsVersioned(r, holder) <==> r.tag != holder && r.prerelease && ParseNightly(r.tag).Some?
  {
  }

  /** Which of the sorted releases stay: the first `retain` and the active one. */
  lemma DividesAll(sorted: seq<Release>, active: Option<string>, retain: int)
    ensures forall r :: r in Retained(sorted, active, retain) || r in Deleted(sorted, active, retain) <==> r in sorted
    ensures forall k :: 0 <= k < |sorted| && (k < retain || (active.Some? && active.value != "" && sorted[k].tag == active.value)) ==>
              sorted[k] in Retained(sorted, active, retain)
    ensures forall k :: 0 <= k < |sorted| && k >= retain && !(active.Some? && active.value != "" && sorted[k].tag == active.value) ==>
              sorted[k] in Deleted(sorted, active, retain)
  {
    RetainedAre(sorted, active, retain);
    DeletedAre(sorted, active, retain);
    forall k | 0 <= k < |sorted|
      ensures if Keeps(k, sorted[k], active, retain) then sorted[k] in Retained(sorted, active, retain)
              else sorted[k] in Deleted(sorted, active, retain)
    {
    }
  }

  /** Blanks around the active tag do not matter. */
  lemma ActiveIsTrimmed(a: string, tag: string, b: string)
    requires Blank(a) && Blank(b) && tag != "" && !IsJsSpace(tag[0]) && !IsJsSpace(tag[|tag| - 1])
    ensures ActiveTag(Some(a + (tag + b))) == Some(tag)
  {
    TrimsAround(a, tag, b);
  }

  /** Every release has its place in the plan: the feed holder; versioned nightly prereleases, divided among
      the retained and the deleted; and everything else, which is stable and never deleted. */
  lemma PlanDivides(releases: seq<Release>, holder: Option<string>, active: Option<string>, retain: int)
    ensures var plan := PlanFor(releases, holder, active, retain);
      var tag := if holder.Some? && holder.value != "" then holder.value else "nightly";
      && (forall r :: r in plan.stable <==> r in releases && r.tag != tag && !IsVersioned(r, tag))
      && (forall r :: r in plan.retained || r in plan.deleted <==> r in releases && IsVersioned(r, tag))
      && (plan.holder.Some? <==> exists r :: r in releases && r.tag == tag)
      && |plan.retained| + |plan.deleted| == |Versioned(releases, tag)|
  {
    var tag := HolderTag(holder);
    var sorted := Sort(Versioned(releases, tag), NewerFirst);
    StableAre(releases, tag);
    LastHolderIs(releases, tag);
    VersionedAre(releases, tag);
    SortMembers(Versioned(releases, tag), NewerFirst);
    RetainedAre(sorted, ActiveTag(active), retain);
    DividesAll(sorted, ActiveTag(active), retain);
  }

  /** Pruning is asked for releases that were each tagged once, whose tags all still exist. */
  ghost predicate CanPrune(tags: seq<string>, releases: seq<Release>) {
    DistinctBy(releases, TagOf) && forall r :: r in releases ==> r.tag in tags
  }

  /** Nothing is deleted unless a release with another tag, at least as new, stays. */
  lemma NewerOneStays(releases: seq<Release>, holder: Option<string>, active: Option<string>, retain: int, tag: string)
    returns (kept: Release)
    requires DistinctBy(releases, TagOf) && retain >= 1
    requires Deletes(PlanFor(releases, holder, active, retain), tag)
    ensures kept in releases && !Deletes(PlanFor(releases, holder, active, retain), kept.tag)
    ensures CompareNightlies(kept.tag, tag) >= 0
  {
    var versioned := Versioned(releases, HolderTag(holder));
    var sorted := Sort(versioned, NewerFirst);
    NewerFirstIsConsistent();
    SortOrders(versioned, NewerFirst);
    SortMembers(versioned, NewerFirst);
    VersionedAre(releases, HolderTag(holder));
    VersionedDistinct(releases, HolderTag(holder));
    SortDistinct(versioned, NewerFirst, TagOf);
    DeletedAre(sorted, ActiveTag(active), retain);
    var r: Release :| r in Deleted(sorted, ActiveTag(active), retain) && r.tag == tag;
    var k :| 0 <= k < |sorted| && sorted[k] == r && !Keeps(k, r, ActiveTag(active), retain);
    kept := sorted[0];
    assert kept in sorted && k > 0;
    assert NewerFirst(sorted[0], sorted[k]) <= 0;
    Negated(ParseNightly(kept.tag), ParseNightly(tag));
    FirstNotDeleted(sorted, ActiveTag(active), retain);
  }

  lemma Negated(a: Option<Nightly>, b: Option<Nightly>)
    ensures Compare(b, a) <= 0 <==> Compare(a, b) >= 0
  {
  }

  lemma FirstNotDeleted(sorted: seq<Release>, active: Option<string>, retain: int)
    requires sorted != [] && DistinctBy(sorted, TagOf) && retain >= 1
    ensures forall r :: r in Deleted(sorted, active, retain) ==> r.tag != sorted[0].tag
  {
    DeletedAre(sorted, active, retain);
    forall r | r in Deleted(sorted, active, retain) ensures r.tag != sorted[0].tag {
      var k :| 0 <= k < |sorted| && sorted[k] == r && !Keeps(k, r, active, retain);
      assert TagOf(sorted[0]) != TagOf(sorted[k]);
    }
  }

  lemma AtLeastNewest(n: Nightly, other: Nightly)
    requires Compare(Some(n), Some(other)) >= 0 && !Older(other, n)
    ensures n == other
  {
    ComparesByOrder(Some(other), Some(n));
    ComparesByOrder(Some(n), Some(other));
  }

  /** Pruning keeps the newest number: when every release was tagged once and its tag still exists,
      and at least one nightly is retained, the tags that are left have the same newest nightly. */
  lemma PruningKeepsNewest(tags: seq<string>, releases: seq<Release>, holder: Option<string>, active: Option<string>, retain: int)
    requires CanPrune(tags, releases) && retain >= 1
    ensures Newest(Nightlies(Remaining(tags, PlanFor(releases, holder, active, retain)))) == Newest(Nightlies(tags))
  {
    var plan := PlanFor(releases, holder, active, retain);
    var left := Remaining(tags, plan);
    RemainingAre(tags, plan);
    forall n ensures n in Nightlies(left) ==> n in Nightlies(tags) {
      NightliesAreTagged(left, n);
      NightliesAreTagged(tags, n);
    }
    var newest := Newest(Nightlies(tags));
    if newest.Some? {
      NewestStays(tags, releases, holder, active, retain, newest.value);
      NewestByMembers(Nightlies(left), newest.value);
    } else if n :| n in Nightlies(left) {
      assert false;
    }
  }

  lemma NewestStays(tags: seq<string>, releases: seq<Release>, holder: Option<string>, active: Option<string>, retain: int, newest: Nightly)
    requires CanPrune(tags, releases) && retain >= 1
    requires newest in Nightlies(tags) && forall n :: n in Nightlies(tags) ==> !Older(newest, n)
    ensures newest in Nightlies(Remaining(tags, PlanFor(releases, holder, active, retain)))
  {
    var plan := PlanFor(releases, holder, active, retain);
    NightliesAreTagged(tags, newest);
    var tag :| tag in tags && ParseNightly(tag) == Some(newest);
    RemainingAre(tags, plan);
    if Deletes(plan, tag) {
      var kept := NewerOneStays(releases, holder, active, retain, tag);
      ComparesByOrder(ParseNightly(kept.tag), Some(newest));
      ComparesByOrder(Some(newest), ParseNightly(kept.tag));
      NightliesAreTagged(tags, ParseNightly(kept.tag).value);
      AtLeastNewest(ParseNightly(kept.tag).value, newest);
      NightliesAreTagged(Remaining(tags, plan), newest);
    } else {
      NightliesAreTagged(Remaining(tags, plan), newest);
    }
  }

  /** So the next computed version does not change, whatever the bases and the run number. */
  lemma PruningKeepsNextVersion(tags: seq<string>, releases: seq<Release>, holder: Option<string>, active: Option<string>, retain: int,
                                main: string, commit: Option<string>, run: Option<int>)
    requires CanPrune(tags, releases) && retain >= 1
    ensures NextVersion(main, commit, Remaining(tags, PlanFor(releases, holder, active, retain)), run)
            == NextVersion(main, commit, tags, run)
  {
    PruningKeepsNewest(tags, releases, holder, active, retain);
  }

  // ---------------------------------------------------------------- exactly when pruning loses the newest

  function Carries(number: Nightly): Release -> bool {
    (r: Release) => ParseNightly(r.tag) == Some(number)
  }

  /** The releases that carry the number, in the order they are listed. */
  function Carrying(releases: seq<Release>, holder: string, number: Nightly): seq<Release> {
    Filter(Versioned(releases, holder), Carries(number))
  }

  /** The tag is the active one, or no release beyond the first `retain` that carry the number has it. */
  ghost predicate Spared(releases: seq<Release>, holder: string, active: Option<string>, retain: int, number: Nightly, tag: string) {
    var carrying := Carrying(releases, holder, number);
    || (active.Some? && active.value != "" && tag == active.value)
    || forall k :: 0 <= k < |carrying| && carrying[k].tag == tag ==> k < retain
  }

  /** Whether a nightly, if it is one, is newer than the number. */
  predicate IsNewer(n: Option<Nightly>, number: Nightly) {
    n.Some? && Older(number, n.value)
  }

  ghost predicate NoneNewer(versioned: seq<Release>, newest: Nightly) {
    forall r :: r in versioned ==> !IsNewer(ParseNightly(r.tag), newest)
  }

  lemma NewestInFront(a: Option<Nightly>, newest: Nightly)
    requires Compare(Some(newest), a) <= 0 && !IsNewer(a, newest)
    ensures a == Some(newest)
  {
    ComparesByOrder(a, Some(newest));
    ComparesByOrder(Some(newest), a);
  }

  /** Sorted, the releases with the newest number come first and keep their order. */
  lemma NewestComeFirst(versioned: seq<Release>, newest: Nightly)
    requires NoneNewer(versioned, newest)
    ensures var sorted, carrying := Sort(versioned, NewerFirst), Filter(versioned, Carries(newest));
      && |carrying| <= |sorted| && sorted[..|carrying|] == carrying
      && forall k :: |carrying| <= k < |sorted| ==> !Carries(newest)(sorted[k])
  {
    var p := Carries(newest);
    NewerFirstIsConsistent();
    forall x, y | p(x) && p(y) ensures NewerFirst(x, y) <= 0 {
      ComparesByOrder(ParseNightly(y.tag), ParseNightly(x.tag));
    }
    forall x, y | x in versioned && p(y) && NewerFirst(x, y) <= 0 ensures p(x) {
      NewestInFront(ParseNightly(x.tag), newest);
    }
    FirstOnesKeepOrder(versioned, NewerFirst, p);
  }

  /** Among the sorted releases: the tag of the newest number is deleted when one of its places is
      beyond the retained ones. */
  lemma SparedInOrder(sorted: seq<Release>, carrying: seq<Release>, active: Option<string>, retain: int, newest: Nightly, tag: string)
    requires |carrying| <= |sorted| && sorted[..|carrying|] == carrying
    requires forall k :: |carrying| <= k < |sorted| ==> !Carries(newest)(sorted[k])
    requires ParseNightly(tag) == Some(newest)
    ensures (exists r :: r in Deleted(sorted, active, retain) && r.tag == tag)
            <==> !(active.Some? && active.value != "" && tag == active.value)
                 && exists k :: 0 <= k < |carrying| && carrying[k].tag == tag && k >= retain
  {
    DeletedAre(sorted, active, retain);
    assert forall k :: 0 <= k < |carrying| ==> carrying[k] == sorted[k];
    if r: Release :| r in Deleted(sorted, active, retain) && r.tag == tag {
      var k :| 0 <= k < |sorted| && sorted[k] == r && !Keeps(k, r, active, retain);
      assert k < |carrying| by {
        assert Carries(newest)(sorted[k]);
      }
      assert carrying[k].tag == tag && k >= retain;
    }
    if !(active.Some? && active.value != "" && tag == active.value) {
      if k :| 0 <= k < |carrying| && carrying[k].tag == tag && k >= retain {
        assert !Keeps(k, sorted[k], active, retain);
        assert sorted[k] in Deleted(sorted, active, retain);
      }
    }
  }

  lemma SparedExactly(releases: seq<Release>, holder: Option<string>, active: Option<string>, retain: int, newest: Nightly, tag: string)
    requires NoneNewer(Versioned(releases, HolderTag(holder)), newest) && ParseNightly(tag) == Some(newest)
    ensures Deletes(PlanFor(releases, holder, active, retain), tag)
            <==> !Spared(releases, HolderTag(holder), ActiveTag(active), retain, newest, tag)
  {
    var versioned := Versioned(releases, HolderTag(holder));
    NewestComeFirst(versioned, newest);
    SparedInOrder(Sort(versioned, NewerFirst), Filter(versioned, Carries(newest)), ActiveTag(active), retain, newest, tag);
  }

  /** Exactly when pruning keeps the newest number, for any list of tagged releases, repeated ones
      included, and any number to retain: when some tag of that number is the active one, or none of
      its releases is beyond the first `retainCount` that carry the number. */
  lemma PruningKeepsNewestExactly(tags: seq<string>, releases: seq<Release>, holder: Option<string>, active: Option<string>, retain: int)
    requires forall r :: r in releases ==> r.tag in tags
    ensures var newest := Newest(Nightlies(tags));
      Newest(Nightlies(Remaining(tags, PlanFor(releases, holder, active, retain)))) == newest
      <==> newest.None? || exists tag :: tag in tags && ParseNightly(tag) == newest
                                         && Spared(releases, HolderTag(holder), ActiveTag(active), retain, newest.value, tag)
  {
    var plan := PlanFor(releases, holder, active, retain);
    var left := Remaining(tags, plan);
    var newest := Newest(Nightlies(tags));
    RemainingAre(tags, plan);
    forall n ensures n in Nightlies(left) ==> n in Nightlies(tags) {
      NightliesAreTagged(left, n);
      NightliesAreTagged(tags, n);
    }
    if newest.None? {
      assert forall n :: n !in Nightlies(left);
    } else {
      VersionedAreNotNewer(tags, releases, HolderTag(holder), newest.value);
      forall tag | ParseNightly(tag) == newest
        ensures Deletes(plan, tag) <==> !Spared(releases, HolderTag(holder), ActiveTag(active), retain, newest.value, tag)
      {
        SparedExactly(releases, holder, active, retain, newest.value, tag);
      }
      NightliesAreTagged(left, newest.value);
      if newest.value in Nightlies(left) {
        NewestByMembers(Nightlies(left), newest.value);
      }
    }
  }

  lemma VersionedAreNotNewer(tags: seq<string>, releases: seq<Release>, holder: string, newest: Nightly)
    requires (forall r :: r in releases ==> r.tag in tags) && Newest(Nightlies(tags)) == Some(newest)
    ensures NoneNewer(Versioned(releases, holder), newest)
  {
    VersionedAre(releases, holder);
    forall r | r in Versioned(releases, holder) ensures !IsNewer(ParseNightly(r.tag), newest) {
      var n := ParseNightly(r.tag);
      if n.Some? {
        NightliesAreTagged(tags, n.value);
      }
    }
  }

  /** The newest number can be lost: a release listed twice loses its tag although it is retained, and
      retaining nothing loses it too; then the same number would be computed again. */
  lemma PruningCanLoseTheNewest(tag: string)
    requires ParseNightly(tag).Some? && tag != "nightly"
    ensures Remaining([tag], PlanFor([Release(tag, true), Release(tag, true)], None, None, 1)) == []
    ensures Remaining([tag], PlanFor([Release(tag, true)], None, None, 0)) == []
  {
    var r := Release(tag, true);
    Unpruned(r);
    DeletesCopy(r);
    LosesIts(tag, PlanFor([r, r], None, None, 1), r);
    LosesIts(tag, PlanFor([r], None, None, 0), r);
  }

  lemma Unpruned(r: Release)
    requires IsVersioned(r, "nightly")
    ensures Versioned([r], "nightly") == [r] && Versioned([r, r], "nightly") == [r, r]
    ensures Sort([r], NewerFirst) == [r] && Sort([r, r], NewerFirst) == [r, r]
  {
    assert [r, r][..1] == [r] && [r][..0] == [];
    assert Versioned([], "nightly") == [];
    assert Versioned([r], "nightly") == [r];
    SortMembers([r], NewerFirst);
    SortMembers([r, r], NewerFirst);
    assert forall x :: x in Sort([r], NewerFirst) || x in Sort([r, r], NewerFirst) ==> x == r;
  }

  lemma DeletesCopy(r: Release)
    ensures Deleted([r, r], None, 1) == [r] && Deleted([r], None, 0) == [r]
  {
    assert [r, r][..1] == [r] && [r][..0] == [];
    assert Deleted([], None, 1) == [] && Deleted([], None, 0) == [];
    assert Deleted([r], None, 1) == [];
  }

  lemma LosesIts(tag: string, plan: Plan, r: Release)
    requires r in plan.deleted && r.tag == tag
    ensures Remaining([tag], plan) == []
  {
    RemainingAre([tag], plan);
    if Remaining([tag], plan) != [] {
      assert Remaining([tag], plan)[0] in [tag];
      assert Deletes(plan, tag);
      assert false;
    }
  }

  // ---------------------------------------------------------------- whole histories

  /** The tags there are, the nightlies ever tagged, and the numbers published, oldest first. */
  datatype History = History(tags: seq<string>, ever: set<Nightly>, published: seq<Nightly>)

  datatype Event =
    | Publish(main: string, commit: Option<string>, run: Option<int>)
    | Prune(releases: seq<Release>, holder: Option<string>, active: Option<string>, retain: int)
    | Tagging(tag: string)

  /** Bases are exact, pruning retains something, and releases are the tagged ones. */
  ghost predicate Allowed(h: History, e: Event) {
    match e
    case Publish(main, commit, _) => IsBase(Stem(main)) && IsBase(CommitStem(main, commit))
    case Prune(releases, _, _, retain) => CanPrune(h.tags, releases) && retain >= 1
    case Tagging(_) => true
  }

  function After(h: History, e: Event): History {
    match e
    case Publish(main, commit, run) =>
      var version := NextVersion(main, commit, h.tags, run);
      var number := ParseNightly(version);
      History(h.tags + [NightlyTag(version)],
              if number.Some? then h.ever + {number.value} else h.ever,
              if number.Some? then h.published + [number.value] else h.published)
    case Prune(releases, holder, active, retain) =>
      h.(tags := Remaining(h.tags, PlanFor(releases, holder, active, retain)))
    case Tagging(tag) =>
      var number := ParseNightly(tag);
      History(h.tags + [tag], if number.Some? then h.ever + {number.value} else h.ever, h.published)
  }

  ghost predicate Increasing(ns: seq<Nightly>) {
    forall i, j :: 0 <= i < j < |ns| ==> Older(ns[i], ns[j])
  }

  /** The newest tag covers everything ever tagged, and the published numbers rise. */
  ghost predicate Rising(h: History) {
    && (forall n :: n in h.ever ==> var newest := Newest(Nightlies(h.tags)); newest.Some? && !Older(newest.value, n))
    && (forall n :: n in Nightlies(h.tags) ==> n in h.ever)
    && (forall n :: n in h.published ==> n in h.ever)
    && Increasing(h.published)
  }

  lemma NightliesAppend(tags: seq<string>, tag: string, n: Nightly)
    ensures n in Nightlies(tags + [tag]) <==> n in Nightlies(tags) || ParseNightly(tag) == Some(n)
  {
    NightliesAreTagged(tags, n);
    NightliesAreTagged(tags + [tag], n);
    assert tag in tags + [tag];
  }

  /** One more tag can only raise the newest nightly. */
  lemma TagCovers(tags: seq<string>, tag: string, ever: set<Nightly>)
    requires forall n :: n in ever ==> var newest := Newest(Nightlies(tags)); newest.Some? && !Older(newest.value, n)
    ensures var newest := Newest(Nightlies(tags + [tag]));
      && (forall n :: n in ever ==> newest.Some? && !Older(newest.value, n))
      && (ParseNightly(tag).Some? ==> newest.Some? && !Older(newest.value, ParseNightly(tag).value))
  {
    var newest := Newest(Nightlies(tags + [tag]));
    forall n ensures n in Nightlies(tags + [tag]) <==> n in Nightlies(tags) || ParseNightly(tag) == Some(n) {
      NightliesAppend(tags, tag, n);
    }
    forall n | n in ever ensures newest.Some? && !Older(newest.value, n) {
      var before := Newest(Nightlies(tags)).value;
      assert before in Nightlies(tags + [tag]);
      OlderIsTransitive(newest.value, before, n);
    }
  }

  lemma OlderIsTransitive(a: Nightly, b: Nightly, c: Nightly)
    ensures !Older(a, b) && !Older(b, c) ==> !Older(a, c)
  {
  }

  /** What a publication in an allowed run is: a number, newer than any ever tagged. */
  lemma PublishedIsNewer(h: History, e: Event)
    requires Rising(h) && Allowed(h, e) && e.Publish?
    ensures NextNightly(e.main, e.commit, h.tags, e.run).Some?
    ensures forall n :: n in h.ever ==> Older(n, NextNightly(e.main, e.commit, h.tags, e.run).value)
  {
    ExactBasesSuffice(e.main, e.commit, h.tags);
    NextExceedsAll(e.main, e.commit, h.tags, e.run);
    var next := NextNightly(e.main, e.commit, h.tags, e.run).value;
    forall n | n in h.ever ensures Older(n, next) {
      BeforeChains(n, Newest(Nightlies(h.tags)).value, next);
    }
  }

  lemma StepKeepsRising(h: History, e: Event)
    requires Rising(h) && Allowed(h, e)
    ensures Rising(After(h, e))
  {
    if e.Publish? {
      PublishedIsNewer(h, e);
      NextExceedsAll(e.main, e.commit, h.tags, e.run);
      var tag := NightlyTag(NextVersion(e.main, e.commit, h.tags, e.run));
      TagCovers(h.tags, tag, h.ever);
      forall n ensures n in Nightlies(h.tags + [tag]) <==> n in Nightlies(h.tags) || ParseNightly(tag) == Some(n) {
        NightliesAppend(h.tags, tag, n);
      }
    } else if e.Prune? {
      PruningKeepsNewest(h.tags, e.releases, e.holder, e.active, e.retain);
      var left := After(h, e).tags;
      RemainingAre(h.tags, PlanFor(e.releases, e.holder, e.active, e.retain));
      forall n ensures n in Nightlies(left) ==> n in Nightlies(h.tags) {
        NightliesAreTagged(left, n);
        NightliesAreTagged(h.tags, n);
      }
    } else {
      TagCovers(h.tags, e.tag, h.ever);
      forall n ensures n in Nightlies(h.tags + [e.tag]) <==> n in Nightlies(h.tags) || ParseNightly(e.tag) == Some(n) {
        NightliesAppend(h.tags, e.tag, n);
      }
    }
  }

  /** A history and the events that happened in it. */
  ghost predicate IsRun(hs: seq<History>, es: seq<Event>) {
    && |hs| == |es| + 1
    && hs[0] == History([], {}, [])
    && forall k :: 0 <= k < |es| ==> Allowed(hs[k], es[k]) && hs[k + 1] == After(hs[k], es[k])
  }

  lemma {:induction false} RunsRise(hs: seq<History>, es: seq<Event>, k: nat)
    requires IsRun(hs, es) && k < |hs|
    ensures Rising(hs[k])
    decreases k
  {
    if k > 0 {
      RunsRise(hs, es, k - 1);
      StepKeepsRising(hs[k - 1], es[k - 1]);
    }
  }

  /** Over any history of publishing, pruning and tagging, the published numbers strictly increase,
      each is newer than every nightly that was ever tagged, pruned ones included, and each can move
      the feed on from any version still tagged. */
  lemma NumbersIncrease(hs: seq<History>, es: seq<Event>, k: nat)
    requires IsRun(hs, es) && k < |es| && es[k].Publish?
    ensures Increasing(hs[k + 1].published)
    ensures var next := NextNightly(es[k].main, es[k].commit, hs[k].tags, es[k].run);
      && next.Some? && hs[k + 1].published == hs[k].published + [next.value]
      && (forall n :: n in hs[k].ever ==> Older(n, next.value))
    ensures forall t :: t in hs[k].tags ==> CanAdvanceFeed(NextVersion(es[k].main, es[k].commit, hs[k].tags, es[k].run), Some(t))
  {
    RunsRise(hs, es, k);
    RunsRise(hs, es, k + 1);
    PublishedIsNewer(hs[k], es[k]);
    forall t | t in hs[k].tags
      ensures CanAdvanceFeed(NextVersion(es[k].main, es[k].commit, hs[k].tags, es[k].run), Some(t))
    {
      FeedAdvances(es[k].main, es[k].commit, hs[k].tags, es[k].run, t);
    }
  }
}

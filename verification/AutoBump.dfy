/** scripts/auto-bump.mjs: which bundles get a patch bump after a linear history of
    commits, and what the bump commit makes of them. The directories of different
    bundles do not overlap. */
module AutoBump {
  import opened Optional
  import opened Versions

  // A manifest whose version is missing or not text has no version.
  datatype Manifest = Manifest(version: Option<string>, other: string)

  datatype Bundle = Bundle(manifest: Option<Manifest>, pin: Option<string>, files: string)

  const NO_BUNDLE := Bundle(None, None, "")

  type Snapshot = map<string, Bundle>

  // The newest commit comes last.
  type History = seq<Snapshot>

  function At(snapshot: Snapshot, directory: string): Bundle {
    if directory in snapshot then snapshot[directory] else NO_BUNDLE
  }

  function Head(history: History): Snapshot {
    if history == [] then map[] else history[|history| - 1]
  }

  function Parent(history: History, k: nat): Snapshot
    requires k < |history|
  {
    if k == 0 then map[] else history[k - 1]
  }

  function VersionIn(snapshot: Snapshot, directory: string): Option<string> {
    match At(snapshot, directory).manifest
    case None => None
    case Some(manifest) => manifest.version
  }

  predicate Touches(history: History, k: nat, directory: string)
    requires k < |history|
  {
    At(history[k], directory) != At(Parent(history, k), directory)
  }

  predicate TouchesManifest(history: History, k: nat, directory: string)
    requires k < |history|
  {
    At(history[k], directory).manifest != At(Parent(history, k), directory).manifest
  }

  predicate IntroducesVersion(history: History, k: nat, directory: string)
    requires k < |history|
  {
    VersionIn(history[k], directory).Some? && VersionIn(history[k], directory) != VersionIn(Parent(history, k), directory)
  }

  // The first commit of `git log` over the manifest that introduces a version.
  function VersionBase(history: History, directory: string): Option<nat> {
    if history == [] then None
    else
      var newest := |history| - 1;
      if TouchesManifest(history, newest, directory) && IntroducesVersion(history, newest, directory) then Some(newest)
      else VersionBase(history[..newest], directory)
  }

  predicate ChangedSince(history: History, base: nat, directory: string) {
    exists k :: base < k < |history| && Touches(history, k, directory)
  }

  predicate IsDue(history: History, directory: string) {
    var base := VersionBase(history, directory);
    base.Some? && ChangedSince(history, base.value, directory)
  }

  // ----- what the base and the decision mean

  // The last commit that introduces a version.
  ghost predicate IsBase(history: History, k: nat, directory: string) {
    k < |history| && IntroducesVersion(history, k, directory)
    && forall j | k < j < |history| :: !IntroducesVersion(history, j, directory)
  }

  ghost predicate NeverVersioned(history: History, directory: string) {
    forall k | 0 <= k < |history| :: VersionIn(history[k], directory) == None
  }

  lemma SameInPrefix(history: History, k: nat, directory: string)
    requires k + 1 < |history|
    ensures var before := history[..|history| - 1];
            before[k] == history[k] && (IntroducesVersion(history, k, directory) <==> IntroducesVersion(before, k, directory))
  {
  }

  lemma OlderBase(history: History, k: nat, directory: string)
    requires history != [] && !IntroducesVersion(history, |history| - 1, directory)
    ensures IsBase(history, k, directory) <==> IsBase(history[..|history| - 1], k, directory)
  {
    var before := history[..|history| - 1];
    forall j: nat | j + 1 < |history| ensures IntroducesVersion(history, j, directory) <==> IntroducesVersion(before, j, directory) {
      SameInPrefix(history, j, directory);
    }
    assert IsBase(before, k, directory) ==> forall j | k < j < |history| :: !IntroducesVersion(history, j, directory);
    assert IsBase(history, k, directory) ==> k < |before| && forall j | k < j < |before| :: !IntroducesVersion(before, j, directory);
  }

  lemma {:induction false} BaseIsLatestVersion(history: History, directory: string)
    ensures forall k: nat :: VersionBase(history, directory) == Some(k) <==> IsBase(history, k, directory)
  {
    if history != [] && !IntroducesVersion(history, |history| - 1, directory) {
      BaseIsLatestVersion(history[..|history| - 1], directory);
      forall k: nat ensures IsBase(history, k, directory) <==> IsBase(history[..|history| - 1], k, directory) {
        OlderBase(history, k, directory);
      }
    }
  }

  // Only a bundle that never had a version has no base.
  lemma {:induction false} NoBaseIffNeverVersioned(history: History, directory: string)
    ensures VersionBase(history, directory) == None <==> NeverVersioned(history, directory)
  {
    if history != [] {
      var before := history[..|history| - 1];
      NoBaseIffNeverVersioned(before, directory);
      assert history == before + [Head(history)];
      assert NeverVersioned(history, directory) <==> NeverVersioned(before, directory) && VersionIn(Head(history), directory) == None;
    }
  }

  // The version at HEAD is the one the base introduced, and it stood all the time since.
  lemma {:induction false} HeadVersionStandsSinceBase(history: History, directory: string, j: nat)
    requires VersionIn(Head(history), directory).Some?
    ensures VersionBase(history, directory).Some?
    ensures VersionBase(history, directory).value <= j < |history| ==> VersionIn(history[j], directory) == VersionIn(Head(history), directory)
    decreases |history|
  {
    BaseIsLatestVersion(history, directory);
    var newest := |history| - 1;
    if !IntroducesVersion(history, newest, directory) {
      HeadVersionStandsSinceBase(history[..newest], directory, j);
    }
  }

  lemma {:induction false} UntouchedStays(history: History, base: nat, j: nat, directory: string)
    requires base <= j < |history| && forall k | base < k <= j :: !Touches(history, k, directory)
    ensures At(history[j], directory) == At(history[base], directory)
    decreases j
  {
    if base < j {
      assert !Touches(history, j, directory);
      UntouchedStays(history, base, j - 1, directory);
    }
  }

  predicate DifferedSince(history: History, base: nat, directory: string) {
    base < |history| && exists j :: base < j < |history| && At(history[j], directory) != At(history[base], directory)
  }

  lemma ChangedIffDiffered(history: History, base: nat, directory: string)
    requires base < |history|
    ensures ChangedSince(history, base, directory) <==> DifferedSince(history, base, directory)
  {
    if !ChangedSince(history, base, directory) {
      forall j | base < j < |history| ensures At(history[j], directory) == At(history[base], directory) {
        UntouchedStays(history, base, j, directory);
      }
    } else {
      var k: nat :| base < k < |history| && Touches(history, k, directory);
      assert Parent(history, k) == history[k - 1];
      if At(history[k], directory) == At(history[base], directory) {
        assert At(history[k - 1], directory) != At(history[base], directory);
      }
    }
  }

  // A bundle is due exactly when some commit since its base, reverted or not, held other
  // content than the commit that introduced its version.
  lemma DueIffContentDiffered(history: History, directory: string)
    ensures IsDue(history, directory)
            <==> VersionBase(history, directory).Some? && DifferedSince(history, VersionBase(history, directory).value, directory)
  {
    var base := VersionBase(history, directory);
    if base.Some? {
      BaseIsLatestVersion(history, directory);
      assert IsBase(history, base.value, directory);
      ChangedIffDiffered(history, base.value, directory);
    }
  }

  // ----- the bump

  function BumpedManifest(manifest: Manifest): Manifest {
    if manifest.version.Some? && NextPatch(manifest.version.value).Some?
    then manifest.(version := NextPatch(manifest.version.value))
    else manifest
  }

  predicate Bumpable(snapshot: Snapshot, directory: string) {
    var version := VersionIn(snapshot, directory);
    version.Some? && NextPatch(version.value).Some?
  }

  // The restamped pin carries the version of the manifest beside it.
  type Restamp = (string, string) -> string

  function BumpedBundle(bundle: Bundle, restamp: Restamp): Bundle {
    match bundle.manifest
    case None => bundle
    case Some(manifest) =>
      var bumped := BumpedManifest(manifest);
      Bundle(Some(bumped),
             if bundle.pin.Some? && bumped.version.Some? then Some(restamp(bundle.pin.value, bumped.version.value)) else bundle.pin,
             bundle.files)
  }

  // The next patch version in the manifest, the pin restamped with it where there is one,
  // and nothing else changed.
  predicate IsBumped(before: Bundle, after: Bundle, restamp: Restamp) {
    before.manifest.Some? && before.manifest.value.version.Some?
    && var next := NextPatch(before.manifest.value.version.value);
       && next.Some? && after.manifest == Some(Manifest(next, before.manifest.value.other))
       && after.pin == (if before.pin.Some? then Some(restamp(before.pin.value, next.value)) else None)
       && after.files == before.files
  }

  lemma BumpedIsBumped(snapshot: Snapshot, directory: string, bundle: Bundle, restamp: Restamp)
    requires Bumpable(snapshot, directory)
    ensures bundle == BumpedBundle(At(snapshot, directory), restamp) <==> IsBumped(At(snapshot, directory), bundle, restamp)
  {
  }

  function Bumped(snapshot: Snapshot, directories: seq<string>, restamp: Restamp): Snapshot {
    if directories == [] then snapshot
    else
      var last := |directories| - 1;
      var before := Bumped(snapshot, directories[..last], restamp);
      before[directories[last] := BumpedBundle(At(before, directories[last]), restamp)]
  }

  function DueBundles(history: History, directories: seq<string>): seq<string> {
    if directories == [] then []
    else
      var last := |directories| - 1;
      DueBundles(history, directories[..last]) + if IsDue(history, directories[last]) then [directories[last]] else []
  }

  predicate Distinct(directories: seq<string>) {
    forall i, j | 0 <= i < j < |directories| :: directories[i] != directories[j]
  }

  lemma {:induction false} BumpedAt(snapshot: Snapshot, directories: seq<string>, restamp: Restamp, d: string)
    requires Distinct(directories)
    ensures At(Bumped(snapshot, directories, restamp), d)
            == if d in directories then BumpedBundle(At(snapshot, d), restamp) else At(snapshot, d)
  {
    if directories != [] {
      var last := |directories| - 1;
      BumpedAt(snapshot, directories[..last], restamp, d);
      assert directories == directories[..last] + [directories[last]];
      assert directories[last] !in directories[..last];
    }
  }

  lemma {:induction false} DueBundlesAreThoseDue(history: History, directories: seq<string>)
    ensures forall d :: d in DueBundles(history, directories) <==> d in directories && IsDue(history, d)
    ensures Distinct(directories) ==> Distinct(DueBundles(history, directories))
  {
    if directories != [] {
      var last := |directories| - 1;
      DueBundlesAreThoseDue(history, directories[..last]);
      assert directories == directories[..last] + [directories[last]];
      assert Distinct(directories) ==> directories[last] !in directories[..last];
    }
  }

  // ----- after the bump commit

  // Since the commit that introduced its version the bundle did not change.
  predicate Settled(history: History, directory: string) {
    var base := VersionBase(history, directory);
    base.Some? && !ChangedSince(history, base.value, directory)
  }

  // The run ends in an error without a commit.
  predicate RunFails(history: History, directories: seq<string>) {
    exists i :: 0 <= i < |directories|
                && (VersionBase(history, directories[i]) == None
                    || (IsDue(history, directories[i]) && !Bumpable(Head(history), directories[i])))
  }

  function AfterRun(history: History, directories: seq<string>, restamp: Restamp): History {
    var due := DueBundles(history, directories);
    if due == [] then history else history + [Bumped(Head(history), due, restamp)]
  }

  // One more commit moves the base only by introducing a version.
  lemma BaseAfterCommit(history: History, commit: Snapshot, directory: string)
    ensures var introduces := VersionIn(commit, directory).Some? && VersionIn(commit, directory) != VersionIn(Head(history), directory);
            VersionBase(history + [commit], directory) == if introduces then Some(|history|) else VersionBase(history, directory)
  {
    var grown := history + [commit];
    assert grown[..|history|] == history && grown[|history|] == commit;
    assert Parent(grown, |history|) == Head(history);
  }

  lemma ChangedAfterCommit(history: History, commit: Snapshot, base: nat, directory: string)
    requires At(commit, directory) == At(Head(history), directory)
    ensures ChangedSince(history + [commit], base, directory) <==> ChangedSince(history, base, directory)
  {
    var grown := history + [commit];
    assert Parent(grown, |history|) == Head(history);
    forall k: nat | k < |history| ensures Touches(grown, k, directory) <==> Touches(history, k, directory) {
      assert grown[k] == history[k] && Parent(grown, k) == Parent(history, k);
    }
  }

  // A bumped bundle starts anew at the bump commit.
  lemma BumpedIsSettled(history: History, commit: Snapshot, directory: string, restamp: Restamp)
    requires Bumpable(Head(history), directory)
    requires At(commit, directory) == BumpedBundle(At(Head(history), directory), restamp)
    ensures VersionIn(commit, directory) == NextPatch(VersionIn(Head(history), directory).value)
    ensures Later(VersionIn(commit, directory).value, VersionIn(Head(history), directory).value)
    ensures VersionBase(history + [commit], directory) == Some(|history|)
    ensures Settled(history + [commit], directory)
  {
    var version := VersionIn(Head(history), directory).value;
    NextPatchRises(version);
    LaterIsStrict(NextPatch(version).value, version);
    BaseAfterCommit(history, commit, directory);
  }

  // A commit that leaves a bundle alone leaves it settled, or due, as it was.
  lemma LeftAloneKeepsBase(history: History, commit: Snapshot, directory: string)
    requires At(commit, directory) == At(Head(history), directory)
    ensures VersionBase(history + [commit], directory) == VersionBase(history, directory)
    ensures Settled(history + [commit], directory) <==> Settled(history, directory)
  {
    BaseAfterCommit(history, commit, directory);
    var base := VersionBase(history, directory);
    if base.Some? {
      ChangedAfterCommit(history, commit, base.value, directory);
    }
  }

  // Right after a run every listed bundle is settled. The bundles that were due got the
  // next patch version, in the manifest and in the pin, and no others changed.
  lemma RunSettlesEverything(history: History, directories: seq<string>, restamp: Restamp, d: string)
    requires Distinct(directories) && !RunFails(history, directories)
    ensures var after := AfterRun(history, directories, restamp);
            && (d in directories ==> Settled(after, d))
            && (d in directories && IsDue(history, d) ==> IsBumped(At(Head(history), d), At(Head(after), d), restamp))
            && (d !in directories || !IsDue(history, d) ==> At(Head(after), d) == At(Head(history), d))
  {
    var due := DueBundles(history, directories);
    DueBundlesAreThoseDue(history, directories);
    if due != [] {
      var commit := Bumped(Head(history), due, restamp);
      BumpedAt(Head(history), due, restamp, d);
      assert Head(history + [commit]) == commit;
      if d in due {
        BumpedIsSettled(history, commit, d, restamp);
        BumpedIsBumped(Head(history), d, At(commit, d), restamp);
      } else {
        LeftAloneKeepsBase(history, commit, d);
      }
    }
  }

  lemma {:induction false} NoneDue(history: History, directories: seq<string>)
    requires forall d | d in directories :: !IsDue(history, d)
    ensures DueBundles(history, directories) == []
  {
    if directories != [] {
      NoneDue(history, directories[..|directories| - 1]);
    }
  }

  // A second run right after the first commits nothing.
  lemma RerunCommitsNothing(history: History, directories: seq<string>, restamp: Restamp)
    requires Distinct(directories) && !RunFails(history, directories)
    ensures var after := AfterRun(history, directories, restamp);
            !RunFails(after, directories) && AfterRun(after, directories, restamp) == after
  {
    var after := AfterRun(history, directories, restamp);
    forall d | d in directories ensures Settled(after, d) {
      RunSettlesEverything(history, directories, restamp, d);
    }
    NoneDue(after, directories);
  }

  // ----- whether a version names the content

  // Every commit up to a point that carries HEAD's version of the bundle holds HEAD's bundle.
  ghost predicate CarriersAgree(history: History, d: string, stop: nat) {
    forall i | 0 <= i < stop && i < |history| && VersionIn(history[i], d) == VersionIn(Head(history), d) ::
      At(history[i], d) == At(Head(history), d)
  }

  // HEAD's version of the bundle names its content.
  ghost predicate VersionNames(history: History, d: string) {
    CarriersAgree(history, d, |history|)
  }

  lemma SettledSinceBase(history: History, d: string, j: nat)
    requires Settled(history, d)
    ensures var base := VersionBase(history, d).value;
            base < |history| && VersionIn(Head(history), d).Some? && (base <= j < |history| ==> At(history[j], d) == At(Head(history), d))
  {
    BaseIsLatestVersion(history, d);
    var base := VersionBase(history, d).value;
    assert IsBase(history, base, d);
    UntouchedStays(history, base, |history| - 1, d);
    if base <= j < |history| {
      UntouchedStays(history, base, j, d);
    }
  }

  // In a settled history HEAD's version names the content exactly when the commits before
  // the one that introduced it do not carry it with other content.
  lemma VersionNamesContentIff(history: History, d: string)
    requires Settled(history, d)
    ensures VersionNames(history, d) <==> CarriersAgree(history, d, VersionBase(history, d).value)
  {
    var base := VersionBase(history, d).value;
    SettledSinceBase(history, d, 0);
    forall j | base <= j < |history| ensures At(history[j], d) == At(Head(history), d) {
      SettledSinceBase(history, d, j);
    }
  }

  // Right after a run that bumps a bundle the new version names the content exactly when
  // no commit before carried the next patch version with other content.
  lemma BumpNamesContentIff(history: History, directories: seq<string>, restamp: Restamp, d: string)
    requires Distinct(directories) && !RunFails(history, directories) && d in directories && IsDue(history, d)
    ensures var after := AfterRun(history, directories, restamp);
            VersionNames(after, d)
            <==> forall i | 0 <= i < |history| && VersionIn(history[i], d) == NextPatch(VersionIn(Head(history), d).value) ::
                   IsBumped(At(Head(history), d), At(history[i], d), restamp)
  {
    var due := DueBundles(history, directories);
    var after := AfterRun(history, directories, restamp);
    var commit := Bumped(Head(history), due, restamp);
    DueBundlesAreThoseDue(history, directories);
    assert d in due;
    assert Bumpable(Head(history), d);
    BumpedAt(Head(history), due, restamp, d);
    BumpedIsSettled(history, commit, d, restamp);
    VersionNamesContentIff(after, d);
    assert after == history + [commit] && Head(after) == commit;
    assert forall i | 0 <= i < |history| :: after[i] == history[i];
    forall i | 0 <= i < |history| ensures At(history[i], d) == At(commit, d) <==> IsBumped(At(Head(history), d), At(history[i], d), restamp) {
      BumpedIsBumped(Head(history), d, At(history[i], d), restamp);
    }
  }

  // ----- whole runs

  // A version of the bundle that a commit introduces was not carried by a commit before.
  ghost predicate IntroducedAreNew(history: History, d: string) {
    forall k: nat, i: nat | i < k < |history| && IntroducesVersion(history, k, d) :: VersionIn(history[i], d) != VersionIn(history[k], d)
  }

  // A version of the bundle that a commit introduces is later than those carried before.
  ghost predicate IntroducedAreLater(history: History, d: string) {
    forall k: nat, i: nat | i < k < |history| && IntroducesVersion(history, k, d) :: LaterIn(history[k], history[i], d)
  }

  ghost predicate LaterIn(after: Snapshot, before: Snapshot, d: string)
    requires VersionIn(after, d).Some?
  {
    VersionIn(before, d).Some? ==> Later(VersionIn(after, d).value, VersionIn(before, d).value)
  }

  lemma LaterAreNew(history: History, d: string)
    requires IntroducedAreLater(history, d)
    ensures IntroducedAreNew(history, d)
  {
    forall k: nat, i: nat | i < k < |history| && IntroducesVersion(history, k, d) ensures VersionIn(history[i], d) != VersionIn(history[k], d) {
      assert LaterIn(history[k], history[i], d);
      if VersionIn(history[i], d).Some? {
        LaterIsStrict(VersionIn(history[k], d).value, VersionIn(history[i], d).value);
      }
    }
  }

  lemma NewVersionsName(history: History, d: string)
    requires IntroducedAreNew(history, d) && Settled(history, d)
    ensures VersionNames(history, d)
  {
    BaseIsLatestVersion(history, d);
    SettledSinceBase(history, d, VersionBase(history, d).value);
    assert IsBase(history, VersionBase(history, d).value, d);
    VersionNamesContentIff(history, d);
  }

  ghost predicate OneMore(history: History, after: History) {
    |after| == |history| + 1 && after[..|history|] == history
  }

  // An author commits anything; a version this sets is one no commit before carried.
  ghost predicate AuthorSetsNew(history: History, after: History, d: string) {
    OneMore(history, after)
    && (IntroducesVersion(after, |history|, d) ==> forall i | 0 <= i < |history| :: VersionIn(history[i], d) != VersionIn(Head(after), d))
  }

  // An author commits anything; a version this sets is later than all carried before.
  ghost predicate AuthorRaises(history: History, after: History, d: string) {
    OneMore(history, after)
    && (IntroducesVersion(after, |history|, d) ==> forall i | 0 <= i < |history| :: LaterIn(Head(after), history[i], d))
  }

  // A run that fails commits nothing.
  ghost predicate RunStep(history: History, after: History, directories: seq<string>, restamp: Restamp) {
    after == if RunFails(history, directories) then history else AfterRun(history, directories, restamp)
  }

  // The bump to the next patch version meets no commit that carried it.
  ghost predicate NextIsNew(history: History, directories: seq<string>, d: string) {
    RunFails(history, directories) || d !in directories || !IsDue(history, d)
    || forall i | 0 <= i < |history| :: VersionIn(history[i], d) != NextPatch(VersionIn(Head(history), d).value)
  }

  // Author commits and runs in any order, from the empty repository.
  ghost predicate TraceOfNew(trace: seq<History>, directories: seq<string>, restamp: Restamp, d: string) {
    trace != [] && trace[0] == []
    && forall n | 0 < n < |trace| ::
         AuthorSetsNew(trace[n - 1], trace[n], d)
         || (RunStep(trace[n - 1], trace[n], directories, restamp) && NextIsNew(trace[n - 1], directories, d))
  }

  ghost predicate TraceOfRaises(trace: seq<History>, directories: seq<string>, restamp: Restamp, d: string) {
    trace != [] && trace[0] == []
    && forall n | 0 < n < |trace| ::
         AuthorRaises(trace[n - 1], trace[n], d) || RunStep(trace[n - 1], trace[n], directories, restamp)
  }

  lemma SameInGrown(history: History, after: History, k: nat, d: string)
    requires OneMore(history, after) && k < |history|
    ensures after[k] == history[k] && (IntroducesVersion(after, k, d) <==> IntroducesVersion(history, k, d))
  {
    assert history[k] == after[..|history|][k];
    if k > 0 {
      assert history[k - 1] == after[..|history|][k - 1];
    }
  }

  lemma CommitKeepsNew(history: History, after: History, d: string)
    requires IntroducedAreNew(history, d) && AuthorSetsNew(history, after, d)
    ensures IntroducedAreNew(after, d)
  {
    forall k: nat, i: nat | i < k < |after| && IntroducesVersion(after, k, d) ensures VersionIn(after[i], d) != VersionIn(after[k], d) {
      SameInGrown(history, after, i, d);
      if k < |history| { SameInGrown(history, after, k, d); }
    }
  }

  lemma CommitKeepsLater(history: History, after: History, d: string)
    requires IntroducedAreLater(history, d) && AuthorRaises(history, after, d)
    ensures IntroducedAreLater(after, d)
  {
    forall k: nat, i: nat | i < k < |after| && IntroducesVersion(after, k, d) ensures LaterIn(after[k], after[i], d) {
      SameInGrown(history, after, i, d);
      if k < |history| {
        SameInGrown(history, after, k, d);
        assert LaterIn(history[k], history[i], d);
      }
    }
  }

  // What a run commits, seen by one bundle: nothing new, or the next patch version.
  lemma RunCommits(history: History, directories: seq<string>, restamp: Restamp, d: string)
    requires Distinct(directories) && !RunFails(history, directories) && DueBundles(history, directories) != []
    ensures var after := AfterRun(history, directories, restamp);
            OneMore(history, after)
            && (IntroducesVersion(after, |history|, d) ==>
                  d in directories && IsDue(history, d) && VersionIn(Head(history), d).Some?
                  && NextPatch(VersionIn(Head(history), d).value).Some?
                  && VersionIn(Head(after), d) == NextPatch(VersionIn(Head(history), d).value))
  {
    RunSettlesEverything(history, directories, restamp, d);
    var after := AfterRun(history, directories, restamp);
    assert Parent(after, |history|) == Head(history);
  }

  lemma RunKeepsNew(history: History, directories: seq<string>, restamp: Restamp, d: string)
    requires Distinct(directories) && !RunFails(history, directories) && IntroducedAreNew(history, d) && NextIsNew(history, directories, d)
    ensures IntroducedAreNew(AfterRun(history, directories, restamp), d)
  {
    if DueBundles(history, directories) != [] {
      RunCommits(history, directories, restamp, d);
      CommitKeepsNew(history, AfterRun(history, directories, restamp), d);
    }
  }

  // Where each version introduced is later than those before it, HEAD's is the latest.
  lemma HeadIsLatest(history: History, d: string, i: nat)
    requires IntroducedAreLater(history, d) && i < |history| && VersionIn(Head(history), d).Some? && VersionIn(history[i], d).Some?
    ensures VersionIn(history[i], d) == VersionIn(Head(history), d)
            || Later(VersionIn(Head(history), d).value, VersionIn(history[i], d).value)
  {
    HeadVersionStandsSinceBase(history, d, i);
    BaseIsLatestVersion(history, d);
    var base := VersionBase(history, d).value;
    HeadVersionStandsSinceBase(history, d, base);
    assert IsBase(history, base, d);
    if i < base {
      assert LaterIn(history[base], history[i], d);
    }
  }

  lemma RunKeepsLater(history: History, directories: seq<string>, restamp: Restamp, d: string)
    requires Distinct(directories) && !RunFails(history, directories) && IntroducedAreLater(history, d)
    ensures IntroducedAreLater(AfterRun(history, directories, restamp), d)
  {
    if DueBundles(history, directories) != [] {
      var after := AfterRun(history, directories, restamp);
      RunCommits(history, directories, restamp, d);
      if IntroducesVersion(after, |history|, d) {
        forall i | 0 <= i < |history| ensures LaterIn(Head(after), history[i], d) {
          NextIsLater(history, after, d, i);
        }
      }
      CommitKeepsLater(history, after, d);
    }
  }

  lemma NextIsLater(history: History, after: History, d: string, i: nat)
    requires IntroducedAreLater(history, d) && VersionIn(Head(history), d).Some? && i < |history|
    requires VersionIn(Head(after), d).Some? && VersionIn(Head(after), d) == NextPatch(VersionIn(Head(history), d).value)
    ensures LaterIn(Head(after), history[i], d)
  {
    if VersionIn(history[i], d).Some? {
      var head := VersionIn(Head(history), d).value;
      HeadIsLatest(history, d, i);
      NextPatchRises(head);
      if VersionIn(history[i], d).value != head {
        LaterTransitive(VersionIn(Head(after), d).value, head, VersionIn(history[i], d).value);
      }
    }
  }

  lemma {:induction false} TraceKeepsNew(trace: seq<History>, directories: seq<string>, restamp: Restamp, d: string)
    requires Distinct(directories) && TraceOfNew(trace, directories, restamp, d)
    ensures IntroducedAreNew(trace[|trace| - 1], d)
  {
    if |trace| > 1 {
      var before, after := trace[|trace| - 2], trace[|trace| - 1];
      TraceKeepsNew(trace[..|trace| - 1], directories, restamp, d);
      if AuthorSetsNew(before, after, d) {
        CommitKeepsNew(before, after, d);
      } else if !RunFails(before, directories) {
        RunKeepsNew(before, directories, restamp, d);
      }
    }
  }

  lemma {:induction false} TraceKeepsLater(trace: seq<History>, directories: seq<string>, restamp: Restamp, d: string)
    requires Distinct(directories) && TraceOfRaises(trace, directories, restamp, d)
    ensures IntroducedAreLater(trace[|trace| - 1], d)
  {
    if |trace| > 1 {
      var before, after := trace[|trace| - 2], trace[|trace| - 1];
      TraceKeepsLater(trace[..|trace| - 1], directories, restamp, d);
      if AuthorRaises(before, after, d) {
        CommitKeepsLater(before, after, d);
      } else if !RunFails(before, directories) {
        RunKeepsLater(before, directories, restamp, d);
      }
    }
  }

  // A history that a run of listed bundles ended.
  ghost predicate EndsInRun(trace: seq<History>, directories: seq<string>, restamp: Restamp) {
    |trace| > 1 && !RunFails(trace[|trace| - 2], directories) && RunStep(trace[|trace| - 2], trace[|trace| - 1], directories, restamp)
  }

  // Where neither authors nor runs set a version a commit before carried, whatever else is
  // committed, HEAD's version of a listed bundle names its content after a run.
  lemma NewVersionsNameContent(trace: seq<History>, directories: seq<string>, restamp: Restamp, d: string)
    requires Distinct(directories) && d in directories
    requires TraceOfNew(trace, directories, restamp, d) && EndsInRun(trace, directories, restamp)
    ensures VersionNames(trace[|trace| - 1], d)
  {
    TraceKeepsNew(trace, directories, restamp, d);
    RunSettlesEverything(trace[|trace| - 2], directories, restamp, d);
    NewVersionsName(trace[|trace| - 1], d);
  }

  // Where authors only raise versions, by a patch, a minor or a major, nothing has to be
  // asked of the runs.
  lemma RaisedVersionsNameContent(trace: seq<History>, directories: seq<string>, restamp: Restamp, d: string)
    requires Distinct(directories) && d in directories
    requires TraceOfRaises(trace, directories, restamp, d) && EndsInRun(trace, directories, restamp)
    ensures VersionNames(trace[|trace| - 1], d)
  {
    TraceKeepsLater(trace, directories, restamp, d);
    LaterAreNew(trace[|trace| - 1], d);
    RunSettlesEverything(trace[|trace| - 2], directories, restamp, d);
    NewVersionsName(trace[|trace| - 1], d);
  }

  // An author who takes an old version again can give it other content unnoticed.
  lemma ReusedVersionHidesAChange()
    ensures exists history: History, d: string ::
              Settled(history, d) && |history| == 3 && VersionIn(history[0], d) == VersionIn(Head(history), d)
              && At(history[0], d) != At(Head(history), d)
  {
    var d := "plugin";
    var first := Bundle(Some(Manifest(Some("0.1.0"), "")), None, "a");
    var second := Bundle(Some(Manifest(Some("0.2.0"), "")), None, "b");
    var third := Bundle(Some(Manifest(Some("0.1.0"), "")), None, "c");
    var history: History := [map[d := first], map[d := second], map[d := third]];
    assert VersionIn(history[2], d) == Some("0.1.0") && VersionIn(history[1], d) == Some("0.2.0");
    assert "0.1.0"[2] != "0.2.0"[2];
    assert IntroducesVersion(history, 2, d);
    assert At(history[0], d).files == "a" && At(history[2], d).files == "c";
    assert Settled(history, d);
  }

  // ----- the run over the repository

  datatype Outcome = NothingToBump | Committed(bundles: seq<string>) | Failed

  // `.filter(changedSinceVersionBase)`, which fails on the first bundle without a base.
  method ChangedBundles(history: History, directories: seq<string>) returns (due: Option<seq<string>>)
    ensures due == None <==> exists i :: 0 <= i < |directories| && VersionBase(history, directories[i]) == None
    ensures due.Some? ==> due.value == DueBundles(history, directories)
  {
    var found := [];
    for i := 0 to |directories|
      invariant forall k | 0 <= k < i :: VersionBase(history, directories[k]).Some?
      invariant found == DueBundles(history, directories[..i])
    {
      assert directories[..i + 1][..i] == directories[..i];
      var base := VersionBase(history, directories[i]);
      if base == None {
        return None;
      }
      if ChangedSince(history, base.value, directories[i]) {
        found := found + [directories[i]];
      }
    }
    assert directories[..|directories|] == directories;
    return Some(found);
  }

  // The bundles listed are bumped, and every other one is as before.
  ghost predicate BumpsExactly(before: Snapshot, after: Snapshot, bundles: seq<string>, restamp: Restamp) {
    && (forall d | d in bundles :: IsBumped(At(before, d), At(after, d), restamp))
    && (forall d | d !in bundles :: At(after, d) == At(before, d))
  }

  lemma AllAreBumped(snapshot: Snapshot, directories: seq<string>, restamp: Restamp)
    requires Distinct(directories) && forall k | 0 <= k < |directories| :: Bumpable(snapshot, directories[k])
    ensures BumpsExactly(snapshot, Bumped(snapshot, directories, restamp), directories, restamp)
  {
    forall d ensures if d in directories then IsBumped(At(snapshot, d), At(Bumped(snapshot, directories, restamp), d), restamp)
                     else At(Bumped(snapshot, directories, restamp), d) == At(snapshot, d)
    {
      BumpedAt(snapshot, directories, restamp, d);
      if d in directories {
        BumpedIsBumped(snapshot, d, At(Bumped(snapshot, directories, restamp), d), restamp);
      }
    }
  }

  class Repository {
    var history: History
    var worktree: Snapshot

    ghost predicate Clean()
      reads this
    {
      worktree == Head(history)
    }

    method BumpBundle(directory: string, restamp: Restamp) returns (bumped: bool)
      modifies `worktree
      ensures bumped <==> Bumpable(old(worktree), directory)
      ensures bumped ==> IsBumped(At(old(worktree), directory), At(worktree, directory), restamp)
      ensures bumped ==> worktree == old(worktree)[directory := At(worktree, directory)]
      ensures !bumped ==> worktree == old(worktree)
    {
      var bundle := At(worktree, directory);
      if bundle.manifest == None || bundle.manifest.value.version == None {
        return false;
      }
      var next := NextPatch(bundle.manifest.value.version.value);
      if next == None {
        return false;
      }
      bundle := bundle.(manifest := Some(bundle.manifest.value.(version := next)));
      if bundle.pin.Some? {
        bundle := bundle.(pin := Some(restamp(bundle.pin.value, next.value)));
      }
      worktree := worktree[directory := bundle];
      return true;
    }

    // `.map(bumpBundle)`, which fails on the first version that cannot be patched.
    method BumpAll(due: seq<string>, restamp: Restamp) returns (bumped: bool)
      requires Distinct(due)
      modifies `worktree
      ensures bumped <==> forall k | 0 <= k < |due| :: Bumpable(old(worktree), due[k])
      ensures bumped ==> worktree == Bumped(old(worktree), due, restamp)
    {
      for i := 0 to |due|
        invariant worktree == Bumped(old(worktree), due[..i], restamp)
        invariant forall k | 0 <= k < i :: Bumpable(old(worktree), due[k])
      {
        OneMoreBump(old(worktree), due, i, restamp);
        ghost var before := worktree;
        bumped := BumpBundle(due[i], restamp);
        if !bumped {
          return;
        }
        BumpedIsBumped(before, due[i], At(worktree, due[i]), restamp);
      }
      assert due[..|due|] == due;
      bumped := true;
    }

    // Every bundle is judged before the first is bumped, so an unusable version can leave
    // a changed worktree behind but never a commit.
    method BumpChangedBundles(directories: seq<string>, shallow: bool, restamp: Restamp) returns (outcome: Outcome)
      requires Clean() && Distinct(directories)
      modifies this
      ensures outcome == Failed <==> shallow || RunFails(old(history), directories)
      ensures outcome == Failed ==> history == old(history)
      ensures outcome != Failed ==> history == AfterRun(old(history), directories, restamp) && Clean()
      ensures outcome == NothingToBump ==> history == old(history)
      ensures outcome.Committed? ==> outcome.bundles == DueBundles(old(history), directories) != []
      ensures outcome.Committed? ==> |history| == |old(history)| + 1 && BumpsExactly(Head(old(history)), Head(history), outcome.bundles, restamp)
    {
      if shallow {
        return Failed;
      }
      var due := ChangedBundles(history, directories);
      if due == None {
        return Failed;
      }
      ghost var head := worktree;
      DueBundlesAreThoseDue(history, directories);
      FailsOnDue(history, directories, due.value);
      var bumped := BumpAll(due.value, restamp);
      if !bumped {
        return Failed;
      }
      if |due.value| == 0 {
        return NothingToBump;
      }
      AllAreBumped(head, due.value, restamp);
      history := history + [worktree];
      return Committed(due.value);
    }
  }

  // Where every bundle has a base the run fails on the versions of the due ones.
  lemma FailsOnDue(history: History, directories: seq<string>, due: seq<string>)
    requires forall i | 0 <= i < |directories| :: VersionBase(history, directories[i]).Some?
    requires forall d :: d in due <==> d in directories && IsDue(history, d)
    ensures RunFails(history, directories) <==> exists k :: 0 <= k < |due| && !Bumpable(Head(history), due[k])
  {
    if k :| 0 <= k < |due| && !Bumpable(Head(history), due[k]) {
      assert due[k] in directories;
    }
    if RunFails(history, directories) {
      var i :| 0 <= i < |directories| && IsDue(history, directories[i]) && !Bumpable(Head(history), directories[i]);
      assert directories[i] in due;
    }
  }

  // The bumps before leave the next bundle as HEAD has it.
  lemma OneMoreBump(head: Snapshot, due: seq<string>, i: nat, restamp: Restamp)
    requires i < |due| && Distinct(due)
    ensures var before := Bumped(head, due[..i], restamp);
            && At(before, due[i]) == At(head, due[i])
            && Bumped(head, due[..i + 1], restamp) == before[due[i] := BumpedBundle(At(before, due[i]), restamp)]
  {
    BumpedAt(head, due[..i], restamp, due[i]);
    assert due[..i + 1][..i] == due[..i];
  }
}

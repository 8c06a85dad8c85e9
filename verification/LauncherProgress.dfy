/** plugin/bin/launch.sh: what a launcher gets done when the others let it. The steps of one
    launcher are enabled one after the other from every reachable state. */
module LauncherProgress {
  import opened Launcher

  // The steps are enabled one after the other.
  predicate CanTake(pin: Pin, s: State, steps: seq<Step>)
    decreases |steps|
  {
    steps == [] || (Enabled(pin, s, steps[0]) && CanTake(pin, Apply(pin, s, steps[0]), steps[1..]))
  }

  function After(pin: Pin, s: State, steps: seq<Step>): State
    requires CanTake(pin, s, steps)
    decreases |steps|
  {
    if steps == [] then s else After(pin, Apply(pin, s, steps[0]), steps[1..])
  }

  predicate AllOf(steps: seq<Step>, p: Pid) {
    forall step | step in steps :: step.p == p
  }

  lemma {:induction false} TakeBoth(pin: Pin, s: State, a: seq<Step>, b: seq<Step>)
    requires CanTake(pin, s, a) && CanTake(pin, After(pin, s, a), b)
    ensures CanTake(pin, s, a + b) && After(pin, s, a + b) == After(pin, After(pin, s, a), b)
    decreases |a|
  {
    if a == [] {
      assert a + b == b;
    } else {
      assert (a + b)[1..] == a[1..] + b;
      TakeBoth(pin, Apply(pin, s, a[0]), a[1..], b);
    }
  }

  lemma TakeOne(pin: Pin, s: State, step: Step, steps: seq<Step>)
    requires Enabled(pin, s, step) && CanTake(pin, Apply(pin, s, step), steps)
    ensures CanTake(pin, s, [step] + steps) && After(pin, s, [step] + steps) == After(pin, Apply(pin, s, step), steps)
  {
    assert ([step] + steps)[1..] == steps;
  }

  predicate Leads(pin: Pin, s: State, step: Step, t: State) {
    Enabled(pin, s, step) && Apply(pin, s, step) == t
  }

  lemma TakeThree(pin: Pin, s0: State, a: Step, s1: State, b: Step, s2: State, c: Step, s3: State)
    requires Leads(pin, s0, a, s1) && Leads(pin, s1, b, s2) && Leads(pin, s2, c, s3)
    ensures CanTake(pin, s0, [a, b, c]) && After(pin, s0, [a, b, c]) == s3
  {
    TakeOne(pin, s2, c, []);
    TakeOne(pin, s1, b, [c]);
    TakeOne(pin, s0, a, [b, c]);
    assert [b] + [c] == [b, c] && [a] + [b, c] == [a, b, c];
  }

  lemma {:induction false} TakenKeeps(pin: Pin, s: State, steps: seq<Step>)
    requires Inv(pin, s) && CanTake(pin, s, steps)
    ensures Inv(pin, After(pin, s, steps))
    decreases |steps|
  {
    if steps != [] {
      StepKeeps(pin, s, steps[0]);
      TakenKeeps(pin, Apply(pin, s, steps[0]), steps[1..]);
    }
  }

  // ----- what a launcher decides

  predicate TempHashes(pin: Pin, s: State, p: Pid) {
    Temp(p) in s.files && HashesToPin(pin, s.files[Temp(p)])
  }

  // In every run a launcher that hashed its file goes on exactly when those bytes hash to
  // the pin, and by its own comparison it gives up exactly when they do not.
  lemma ComparesTheBytes(pin: Pin, states: seq<State>, steps: seq<Step>, i: nat, p: Pid)
    requires Run(pin, states, steps) && i < |steps| && steps[i].p == p
    requires p in states[i].launchers && states[i].launchers[p].Hashed?
    ensures At(states[i + 1], p, Verified) <==> steps[i] == Compare(p) && TempHashes(pin, states[i], p)
    ensures At(states[i + 1], p, Discarding) <==> steps[i] == Compare(p) && !TempHashes(pin, states[i], p)
  {
    RunKeeps(pin, states, steps, i);
    assert StageOk(pin, states[i], p, states[i].launchers[p]);
  }

  // The test of the cached binary downloads exactly when it cannot be run.
  lemma ChecksTheCache(pin: Pin, states: seq<State>, steps: seq<Step>, i: nat, p: Pid)
    requires Run(pin, states, steps) && i < |steps| && steps[i] == Check(p)
    ensures At(states[i + 1], p, Missing) <==> !(Cached in states[i].files && states[i].files[Cached].executable)
    ensures At(states[i + 1], p, Ready) <==> Cached in states[i].files && states[i].files[Cached].executable
  {
  }

  // ----- from a finished download

  function InstallSteps(p: Pid): seq<Step> {
    [DownloadSucceeds(p), HashFile(p), Compare(p), Chmod(p), Rename(p), Disarm(p)]
  }

  // Right bytes are always installed.
  lemma RightBytesAreInstalled(pin: Pin, s: State, p: Pid)
    requires At(s, p, Waiting) && p !in s.curls && TempHashes(pin, s, p)
    ensures CanTake(pin, s, InstallSteps(p))
    ensures After(pin, s, InstallSteps(p))
            == Moved(s, p, Ready).(files := Without(s.files, Temp(p))[Cached := File(s.files[Temp(p)].content, true)])
  {
    RightBytesAreVerified(pin, s, p);
    var verified := After(pin, s, [DownloadSucceeds(p), HashFile(p), Compare(p)]);
    VerifiedIsInstalled(pin, verified, p);
    TakeBoth(pin, s, [DownloadSucceeds(p), HashFile(p), Compare(p)], [Chmod(p), Rename(p), Disarm(p)]);
    assert Moved(Moved(s, p, Verified), p, Ready).launchers == s.launchers[p := Ready];
    assert [DownloadSucceeds(p), HashFile(p), Compare(p)] + [Chmod(p), Rename(p), Disarm(p)] == InstallSteps(p);
  }

  lemma RightBytesAreVerified(pin: Pin, s: State, p: Pid)
    requires At(s, p, Waiting) && p !in s.curls && TempHashes(pin, s, p)
    ensures CanTake(pin, s, [DownloadSucceeds(p), HashFile(p), Compare(p)])
    ensures After(pin, s, [DownloadSucceeds(p), HashFile(p), Compare(p)]) == Moved(s, p, Verified)
  {
    HashedAfterDownload(pin, s, p);
    TakeThree(pin, s, DownloadSucceeds(p), Moved(s, p, Downloaded), HashFile(p),
              Moved(s, p, Hashed(pin.hash(s.files[Temp(p)].content))), Compare(p), Moved(s, p, Verified));
  }

  lemma HashedAfterDownload(pin: Pin, s: State, p: Pid)
    requires At(s, p, Waiting) && p !in s.curls && Temp(p) in s.files
    ensures var downloaded := Moved(s, p, Downloaded);
            var hashed := Moved(s, p, Hashed(pin.hash(s.files[Temp(p)].content)));
            && Leads(pin, s, DownloadSucceeds(p), downloaded)
            && Leads(pin, downloaded, HashFile(p), hashed)
            && Leads(pin, hashed, Compare(p), Moved(s, p, if HashesToPin(pin, s.files[Temp(p)]) then Verified else Discarding))
  {
    var downloaded := Moved(s, p, Downloaded);
    var hashed := Moved(s, p, Hashed(pin.hash(s.files[Temp(p)].content)));
    assert Apply(pin, downloaded, HashFile(p)) == hashed;
  }

  // The files once the temp file of p was renamed.
  function WithInstalled(s: State, p: Pid): map<Name, File>
    requires Temp(p) in s.files
  {
    Without(s.files, Temp(p))[Cached := s.files[Temp(p)].(executable := true)]
  }

  lemma VerifiedIsInstalled(pin: Pin, s: State, p: Pid)
    requires At(s, p, Verified) && Temp(p) in s.files
    ensures CanTake(pin, s, [Chmod(p), Rename(p), Disarm(p)])
    ensures After(pin, s, [Chmod(p), Rename(p), Disarm(p)]) == Moved(s, p, Ready).(files := WithInstalled(s, p))
  {
    var marked := Apply(pin, s, Chmod(p));
    MarkedIsRenamed(pin, s, p);
    TakeThree(pin, s, Chmod(p), marked, Rename(p), Moved(s, p, Installed).(files := WithInstalled(s, p)),
              Disarm(p), Moved(s, p, Ready).(files := WithInstalled(s, p)));
  }

  lemma MarkedIsRenamed(pin: Pin, s: State, p: Pid)
    requires At(s, p, Verified) && Temp(p) in s.files
    ensures var marked, installed := Apply(pin, s, Chmod(p)), Moved(s, p, Installed).(files := WithInstalled(s, p));
            && Leads(pin, marked, Rename(p), installed)
            && Leads(pin, installed, Disarm(p), Moved(s, p, Ready).(files := WithInstalled(s, p)))
  {
    var marked := Apply(pin, s, Chmod(p));
    assert Apply(pin, marked, Rename(p)).files == WithInstalled(s, p);
    var installed := Moved(s, p, Installed).(files := WithInstalled(s, p));
    assert installed.launchers[p := Ready] == s.launchers[p := Ready];
  }

  // Wrong bytes are never installed: the launcher removes them and is gone.
  lemma WrongBytesAreRemoved(pin: Pin, s: State, p: Pid)
    requires At(s, p, Waiting) && p !in s.curls && Temp(p) in s.files && !HashesToPin(pin, s.files[Temp(p)])
    ensures var steps := [DownloadSucceeds(p), HashFile(p), Compare(p), Discard(p)];
            && CanTake(pin, s, steps)
            && After(pin, s, steps) == Moved(s, p, Gone).(files := Without(s.files, Temp(p)))
  {
    HashedAfterDownload(pin, s, p);
    var discarding := Moved(s, p, Discarding);
    TakeThree(pin, s, DownloadSucceeds(p), Moved(s, p, Downloaded), HashFile(p),
              Moved(s, p, Hashed(pin.hash(s.files[Temp(p)].content))), Compare(p), discarding);
    DiscardedIsGone(pin, s, p);
    TakeBoth(pin, s, [DownloadSucceeds(p), HashFile(p), Compare(p)], [Discard(p)]);
    assert [DownloadSucceeds(p), HashFile(p), Compare(p)] + [Discard(p)] == [DownloadSucceeds(p), HashFile(p), Compare(p), Discard(p)];
  }

  lemma DiscardedIsGone(pin: Pin, s: State, p: Pid)
    requires p in s.launchers
    ensures CanTake(pin, Moved(s, p, Discarding), [Discard(p)])
    ensures After(pin, Moved(s, p, Discarding), [Discard(p)]) == Moved(s, p, Gone).(files := Without(s.files, Temp(p)))
  {
    TakeOne(pin, Moved(s, p, Discarding), Discard(p), []);
    assert Moved(Moved(s, p, Discarding), p, Gone) == Moved(s, p, Gone);
  }

  // A failed download and a missing hash tool end like that too.
  lemma FailureIsRemoved(pin: Pin, s: State, p: Pid, failure: Step)
    requires (failure == DownloadFails(p) && At(s, p, Waiting) && p !in s.curls) || (failure == NoHashTool(p) && At(s, p, Downloaded))
    ensures CanTake(pin, s, [failure, Discard(p)])
    ensures After(pin, s, [failure, Discard(p)]) == Moved(s, p, Gone).(files := Without(s.files, Temp(p)))
  {
    assert Leads(pin, s, failure, Moved(s, p, Discarding));
    DiscardedIsGone(pin, s, p);
    TakeOne(pin, s, failure, [Discard(p)]);
    assert [failure] + [Discard(p)] == [failure, Discard(p)];
  }

  // A signal at any stage under the trap is handled to the end: the temp file is removed,
  // and curl is killed where its pid was known.
  lemma SignalIsHandled(pin: Pin, s: State, p: Pid)
    requires p in s.launchers && Trapped(s.launchers[p])
    ensures var steps := [Signal(p), HandlerKillsCurl(p), HandlerRemoves(p)];
            && CanTake(pin, s, steps)
            && After(pin, s, steps)
               == Moved(s, p, Gone).(files := Without(s.files, Temp(p)),
                                     curls := if CurlPidKnown(s.launchers[p]) then s.curls - {p} else s.curls)
  {
    var struck := Apply(pin, s, Signal(p));
    var killed := Apply(pin, struck, HandlerKillsCurl(p));
    TakeThree(pin, s, Signal(p), struck, HandlerKillsCurl(p), killed, HandlerRemoves(p), Apply(pin, killed, HandlerRemoves(p)));
    assert Apply(pin, killed, HandlerRemoves(p)).launchers == s.launchers[p := Gone];
  }

  // ----- from its start

  // Two states that differ in nothing the rest of a launch looks at.
  predicate SameCache(s: State, t: State) {
    && (Cached in s.files <==> Cached in t.files)
    && (Cached in s.files ==> s.files[Cached] == t.files[Cached])
    && s.curls == t.curls
  }

  // A sweep runs to its end, whatever is on its list.
  lemma {:induction false} SweepEnds(pin: Pin, s: State, p: Pid, todo: seq<Pid>) returns (steps: seq<Step>)
    requires Inv(pin, s) && At(s, p, Sweeping(todo))
    ensures CanTake(pin, s, steps) && AllOf(steps, p) && Fork(p) !in steps
    ensures At(After(pin, s, steps), p, Checking) && SameCache(s, After(pin, s, steps))
    decreases 2 * |todo|
  {
    var t := Apply(pin, s, SweepNext(p));
    StepKeeps(pin, s, SweepNext(p));
    var rest: seq<Step> := [];
    if todo != [] {
      if Alive(s, todo[0]) {
        rest := SweepEnds(pin, t, p, todo[1..]);
      } else {
        rest := OrphanGoes(pin, t, p, todo[0], todo[1..]);
      }
    }
    TakeOne(pin, s, SweepNext(p), rest);
    steps := [SweepNext(p)] + rest;
  }

  lemma {:induction false} OrphanGoes(pin: Pin, s: State, p: Pid, orphan: Pid, todo: seq<Pid>) returns (steps: seq<Step>)
    requires Inv(pin, s) && At(s, p, Orphaned(orphan, todo))
    ensures CanTake(pin, s, steps) && AllOf(steps, p) && Fork(p) !in steps
    ensures At(After(pin, s, steps), p, Checking) && SameCache(s, After(pin, s, steps))
    decreases 2 * |todo| + 1
  {
    StepKeeps(pin, s, SweepRemove(p));
    var t := Apply(pin, s, SweepRemove(p));
    var rest := SweepEnds(pin, t, p, todo);
    TakeOne(pin, s, SweepRemove(p), rest);
    steps := [SweepRemove(p)] + rest;
  }

  lemma {:induction false} Listed(pids: set<Pid>) returns (list: seq<Pid>)
    ensures forall q :: q in list <==> q in pids
    decreases |pids|
  {
    list := [];
    if pids != {} {
      var q :| q in pids;
      list := Listed(pids - {q});
      list := [q] + list;
    }
  }

  // From every reachable state a new launcher comes to the test of the cached binary.
  lemma LaunchReachesCheck(pin: Pin, s: State, p: Pid) returns (steps: seq<Step>)
    requires Inv(pin, s) && p !in s.launchers
    ensures CanTake(pin, s, steps) && AllOf(steps, p) && Fork(p) !in steps
    ensures At(After(pin, s, steps), p, Checking) && SameCache(s, After(pin, s, steps))
  {
    var started := Apply(pin, s, Launch(p));
    StepKeeps(pin, s, Launch(p));
    var found := Listed(TempPids(started));
    assert (set q | q in found) == TempPids(started);
    StepKeeps(pin, started, Glob(p, found));
    var sweep := SweepEnds(pin, Apply(pin, started, Glob(p, found)), p, found);
    TakeOne(pin, started, Glob(p, found), sweep);
    TakeOne(pin, s, Launch(p), [Glob(p, found)] + sweep);
    steps := [Launch(p)] + ([Glob(p, found)] + sweep);
  }

  function DownloadSteps(p: Pid, content: Bytes): seq<Step> {
    [Check(p), Arm(p), Fork(p), AssignCurlPid(p), CurlWrites(p, content), CurlEnds(p)]
  }

  lemma DownloadRuns(pin: Pin, s: State, p: Pid, content: Bytes)
    requires Inv(pin, s) && At(s, p, Checking) && !CacheIsRunnable(s)
    ensures CanTake(pin, s, DownloadSteps(p, content))
    ensures var t := After(pin, s, DownloadSteps(p, content));
            At(t, p, Waiting) && p !in t.curls && Temp(p) in t.files && t.files[Temp(p)].content == content
  {
    var missing := Apply(pin, s, Check(p));
    var armed := Apply(pin, missing, Arm(p));
    var forked := Apply(pin, armed, Fork(p));
    TakeThree(pin, s, Check(p), missing, Arm(p), armed, Fork(p), forked);
    CurlRuns(pin, forked, p, content);
    TakeBoth(pin, s, [Check(p), Arm(p), Fork(p)], [AssignCurlPid(p), CurlWrites(p, content), CurlEnds(p)]);
    assert [Check(p), Arm(p), Fork(p)] + [AssignCurlPid(p), CurlWrites(p, content), CurlEnds(p)] == DownloadSteps(p, content);
  }

  lemma CurlRuns(pin: Pin, s: State, p: Pid, content: Bytes)
    requires At(s, p, Forked) && p in s.curls
    ensures var steps := [AssignCurlPid(p), CurlWrites(p, content), CurlEnds(p)];
            && CanTake(pin, s, steps)
            && var t := After(pin, s, steps);
               At(t, p, Waiting) && p !in t.curls && Temp(p) in t.files && t.files[Temp(p)].content == content
  {
    var waiting := Apply(pin, s, AssignCurlPid(p));
    var written := Apply(pin, waiting, CurlWrites(p, content));
    TakeThree(pin, s, AssignCurlPid(p), waiting, CurlWrites(p, content), written, CurlEnds(p), Apply(pin, written, CurlEnds(p)));
  }

  // The launcher p serves, and that file is cached.
  predicate ServesFile(s: State, p: Pid, file: File) {
    At(s, p, Serving) && Cached in s.files && s.files[Cached] == file
  }

  // From every reachable state, whatever dead launchers left, a new launcher can come to
  // serve: without a download where the cached binary can be run, and otherwise with the
  // bytes curl brings, if they hash to the pin.
  lemma EveryLauncherCanServe(pin: Pin, states: seq<State>, past: seq<Step>, i: nat, p: Pid, content: Bytes) returns (steps: seq<Step>)
    requires Run(pin, states, past) && i < |states| && p !in states[i].launchers && pin.hash(content) == pin.checksum
    ensures CanTake(pin, states[i], steps) && AllOf(steps, p)
    ensures ServesFile(After(pin, states[i], steps), p, if CacheIsRunnable(states[i]) then states[i].files[Cached] else File(content, true))
    ensures Fork(p) in steps <==> !CacheIsRunnable(states[i])
  {
    RunKeeps(pin, states, past, i);
    var looked := LaunchReachesCheck(pin, states[i], p);
    TakenKeeps(pin, states[i], looked);
    var rest := CheckedServes(pin, After(pin, states[i], looked), p, content);
    TakeBoth(pin, states[i], looked, rest);
    steps := looked + rest;
  }

  lemma CheckedServes(pin: Pin, s: State, p: Pid, content: Bytes) returns (steps: seq<Step>)
    requires Inv(pin, s) && At(s, p, Checking) && pin.hash(content) == pin.checksum
    ensures CanTake(pin, s, steps) && AllOf(steps, p)
    ensures ServesFile(After(pin, s, steps), p, if CacheIsRunnable(s) then s.files[Cached] else File(content, true))
    ensures Fork(p) in steps <==> !CacheIsRunnable(s)
  {
    if CacheIsRunnable(s) {
      CachedServes(pin, s, p);
      steps := [Check(p), Exec(p)];
    } else {
      steps := DownloadServes(pin, s, p, content);
    }
  }

  lemma CachedServes(pin: Pin, s: State, p: Pid)
    requires At(s, p, Checking) && CacheIsRunnable(s)
    ensures CanTake(pin, s, [Check(p), Exec(p)])
    ensures ServesFile(After(pin, s, [Check(p), Exec(p)]), p, s.files[Cached])
  {
    TakeOne(pin, Apply(pin, s, Check(p)), Exec(p), []);
    TakeOne(pin, s, Check(p), [Exec(p)]);
    assert [Check(p)] + [Exec(p)] == [Check(p), Exec(p)];
  }

  lemma ReadyServes(pin: Pin, s: State, p: Pid)
    requires At(s, p, Ready) && Cached in s.files
    ensures CanTake(pin, s, [Exec(p)])
    ensures ServesFile(After(pin, s, [Exec(p)]), p, s.files[Cached])
  {
    TakeOne(pin, s, Exec(p), []);
  }

  lemma DownloadServes(pin: Pin, s: State, p: Pid, content: Bytes) returns (steps: seq<Step>)
    requires Inv(pin, s) && At(s, p, Checking) && pin.hash(content) == pin.checksum && !CacheIsRunnable(s)
    ensures CanTake(pin, s, steps) && AllOf(steps, p) && Fork(p) in steps
    ensures ServesFile(After(pin, s, steps), p, File(content, true))
  {
    var download, install := DownloadSteps(p, content), InstallSteps(p);
    DownloadRuns(pin, s, p, content);
    RightBytesAreInstalled(pin, After(pin, s, download), p);
    TakeBoth(pin, s, download, install);
    ReadyServes(pin, After(pin, s, download + install), p);
    TakeBoth(pin, s, download + install, [Exec(p)]);
    steps := download + install + [Exec(p)];
    AllOfLaunch(p, content);
  }

  lemma AllOfJoin(a: seq<Step>, b: seq<Step>, p: Pid)
    requires AllOf(a, p) && AllOf(b, p)
    ensures AllOf(a + b, p) && forall step | step in a :: step in a + b
  {
  }

  lemma AllOfDownload(p: Pid, content: Bytes)
    ensures AllOf(DownloadSteps(p, content), p) && Fork(p) in DownloadSteps(p, content)
  {
    assert DownloadSteps(p, content)[2] == Fork(p);
  }

  lemma AllOfInstall(p: Pid)
    ensures AllOf(InstallSteps(p), p)
  {
  }

  lemma AllOfLaunch(p: Pid, content: Bytes)
    ensures var steps := DownloadSteps(p, content) + InstallSteps(p) + [Exec(p)];
            AllOf(steps, p) && Fork(p) in steps
  {
    AllOfDownload(p, content);
    AllOfInstall(p);
    AllOfJoin(DownloadSteps(p, content), InstallSteps(p), p);
    AllOfJoin(DownloadSteps(p, content) + InstallSteps(p), [Exec(p)], p);
  }

  // ----- when the trap is set

  // A launcher that lives runs the handler on a signal exactly when it set the trap and
  // did not reset it.
  predicate TrapHistory(s: State, past: seq<Step>, p: Pid) {
    && (p !in s.launchers ==> Arm(p) !in past && Disarm(p) !in past)
    && (Alive(s, p) ==> (Trapped(s.launchers[p]) <==> Arm(p) in past && Disarm(p) !in past))
    && (Alive(s, p) && Disarm(p) in past ==> s.launchers[p].Ready? || s.launchers[p].Serving?)
  }

  // How a step of the launcher itself moves it in and out of the trap.
  predicate TrapMove(s: State, step: Step, t: State) {
    var p := step.p;
    && (step.Launch? ==> p !in s.launchers) && (!step.Launch? ==> p in s.launchers)
    && p in t.launchers && (t.launchers[p] != Gone && !step.Launch? ==> s.launchers[p] != Gone)
    && (t.launchers[p] != Gone ==>
          (Trapped(t.launchers[p]) <==> step.Arm? || (p in s.launchers && Trapped(s.launchers[p]) && !step.Disarm?)))
    && (step.Arm? ==> s.launchers[p].Missing?) && (step.Disarm? ==> t.launchers[p].Ready?)
    && (p in s.launchers && (s.launchers[p].Ready? || s.launchers[p].Serving?) && t.launchers[p] != Gone ==>
          t.launchers[p].Ready? || t.launchers[p].Serving?)
  }

  lemma SweepMovesTrap(pin: Pin, s: State, step: Step)
    requires Inv(pin, s) && Enabled(pin, s, step) && SweepStep(step)
    ensures TrapMove(s, step, Apply(pin, s, step))
  {
  }

  lemma CurlMovesTrap(pin: Pin, s: State, step: Step)
    requires Inv(pin, s) && Enabled(pin, s, step) && CurlStep(step)
    ensures TrapMove(s, step, Apply(pin, s, step))
  {
  }

  lemma InstallMovesTrap(pin: Pin, s: State, step: Step)
    requires Inv(pin, s) && Enabled(pin, s, step) && InstallStep(step)
    ensures TrapMove(s, step, Apply(pin, s, step))
  {
  }

  lemma LastMovesTrap(pin: Pin, s: State, step: Step)
    requires Inv(pin, s) && Enabled(pin, s, step) && !SweepStep(step) && !CurlStep(step) && !InstallStep(step)
    ensures TrapMove(s, step, Apply(pin, s, step))
  {
  }

  lemma OwnStepMovesTrap(pin: Pin, s: State, step: Step)
    requires Inv(pin, s) && Enabled(pin, s, step)
    ensures TrapMove(s, step, Apply(pin, s, step))
  {
    if SweepStep(step) {
      SweepMovesTrap(pin, s, step);
    } else if CurlStep(step) {
      CurlMovesTrap(pin, s, step);
    } else if InstallStep(step) {
      InstallMovesTrap(pin, s, step);
    } else {
      LastMovesTrap(pin, s, step);
    }
  }

  lemma PastGrows(past: seq<Step>, step: Step, p: Pid)
    ensures Arm(p) in past + [step] <==> Arm(p) in past || step == Arm(p)
    ensures Disarm(p) in past + [step] <==> Disarm(p) in past || step == Disarm(p)
  {
  }

  lemma TrapMoveKeeps(s: State, step: Step, t: State, past: seq<Step>)
    requires TrapMove(s, step, t) && TrapHistory(s, past, step.p)
    ensures TrapHistory(t, past + [step], step.p)
  {
    PastGrows(past, step, step.p);
  }

  lemma OtherKeepsTrap(pin: Pin, s: State, step: Step, past: seq<Step>, p: Pid)
    requires Enabled(pin, s, step) && step.p != p && TrapHistory(s, past, p)
    ensures TrapHistory(Apply(pin, s, step), past + [step], p)
  {
    var t := Apply(pin, s, step);
    PastGrows(past, step, p);
    assert p in t.launchers <==> p in s.launchers;
    assert p in s.launchers ==> t.launchers[p] == s.launchers[p];
  }

  lemma {:induction false} TrapIsSetBetween(pin: Pin, states: seq<State>, steps: seq<Step>, i: nat, p: Pid)
    requires Run(pin, states, steps) && i < |states|
    ensures TrapHistory(states[i], steps[..i], p)
  {
    if i > 0 {
      var past, step := steps[..i - 1], steps[i - 1];
      TrapIsSetBetween(pin, states, steps, i - 1, p);
      RunKeeps(pin, states, steps, i - 1);
      assert steps[..i] == past + [step];
      if step.p == p {
        OwnStepMovesTrap(pin, states[i - 1], step);
        TrapMoveKeeps(states[i - 1], step, states[i], past);
      } else {
        OtherKeepsTrap(pin, states[i - 1], step, past, p);
      }
    }
  }
}

/** plugin/bin/launch.sh: any number of launchers share one cache directory. Each sweeps
    the temp files of dead launchers, downloads to a temp file named by its pid, checks
    the checksum, marks the file executable and renames it to the cached binary. The
    steps of all launchers and of their curl processes interleave freely; a signal may
    strike between any two steps. Pids are not reused, a rename is atomic, and file
    operations do not fail. */
module Launcher {

  type Pid = nat
  type Bytes = seq<nat>
  type Digest = string

  // The digest function and the checksum the release pin gives.
  datatype Pin = Pin(hash: Bytes -> Digest, checksum: Digest)

  datatype Name = Cached | Temp(pid: Pid)

  datatype File = File(content: Bytes, executable: bool)

  datatype Stage =
    | Started
    | Sweeping(todo: seq<Pid>)               // the pids of the expanded glob still to look at
    | Orphaned(orphan: Pid, todo: seq<Pid>)  // kill -0 failed for orphan, rm is next
    | Checking                               // the test of the cached binary is next
    | Missing                                // no executable cached binary
    | Armed                                  // the trap is set, curl_pid is empty
    | Forked                                 // curl runs, curl_pid is not assigned yet
    | Waiting                                // wait "$curl_pid"
    | Downloaded
    | Hashed(digest: Digest)
    | Verified
    | Marked                                 // executable
    | Installed                              // renamed, the trap still set
    | Ready
    | Discarding                             // rm -f "$tmp_bin"; fail
    | Abandoning(curlKnown: bool)            // the trap handler
    | Removing(curlKnown: bool)              // the handler after kill and wait
    | Serving                                // exec replaced the launcher with the binary
    | Gone

  // curls holds the pids of the launchers whose curl process runs.
  datatype State = State(files: map<Name, File>, launchers: map<Pid, Stage>, curls: set<Pid>)

  datatype Step =
    | Launch(p: Pid)
    | Glob(p: Pid, found: seq<Pid>)
    | SweepNext(p: Pid)
    | SweepRemove(p: Pid)
    | Check(p: Pid)
    | Arm(p: Pid)
    | Fork(p: Pid)
    | AssignCurlPid(p: Pid)
    | CurlWrites(p: Pid, content: Bytes)
    | CurlEnds(p: Pid)
    | DownloadSucceeds(p: Pid)
    | DownloadFails(p: Pid)
    | HashFile(p: Pid)
    | NoHashTool(p: Pid)
    | Compare(p: Pid)
    | Chmod(p: Pid)
    | Rename(p: Pid)
    | Disarm(p: Pid)
    | Discard(p: Pid)
    | Signal(p: Pid)
    | HandlerKillsCurl(p: Pid)
    | HandlerRemoves(p: Pid)
    | Exec(p: Pid)
    | Die(p: Pid)

  predicate At(s: State, p: Pid, stage: Stage) {
    p in s.launchers && s.launchers[p] == stage
  }

  predicate Alive(s: State, p: Pid) {
    p in s.launchers && s.launchers[p] != Gone
  }

  // The stages at which INT, TERM and HUP run the handler.
  predicate Trapped(stage: Stage) {
    stage.Armed? || stage.Forked? || stage.Waiting? || stage.Downloaded? || stage.Hashed? || stage.Verified?
    || stage.Marked? || stage.Installed? || stage.Discarding? || stage.Abandoning? || stage.Removing?
  }

  // curl_pid is empty until the assignment after the fork.
  predicate CurlPidKnown(stage: Stage) {
    match stage
    case Armed | Forked => false
    case Abandoning(known) => known
    case Removing(known) => known
    case _ => true
  }

  function TempPids(s: State): set<Pid> {
    set name | name in s.files && name.Temp? :: name.pid
  }

  predicate Enabled(pin: Pin, s: State, step: Step) {
    match step
    case Launch(p) => p !in s.launchers
    case Glob(p, found) => At(s, p, Started) && (set q | q in found) == TempPids(s)
    case SweepNext(p) => p in s.launchers && s.launchers[p].Sweeping?
    case SweepRemove(p) => p in s.launchers && s.launchers[p].Orphaned?
    case Check(p) => At(s, p, Checking)
    case Arm(p) => At(s, p, Missing)
    case Fork(p) => At(s, p, Armed)
    case AssignCurlPid(p) => At(s, p, Forked)
    case CurlWrites(p, _) => p in s.curls
    case CurlEnds(p) => p in s.curls
    case DownloadSucceeds(p) => At(s, p, Waiting) && p !in s.curls
    case DownloadFails(p) => At(s, p, Waiting) && p !in s.curls
    case HashFile(p) => At(s, p, Downloaded)
    case NoHashTool(p) => At(s, p, Downloaded)
    case Compare(p) => p in s.launchers && s.launchers[p].Hashed?
    case Chmod(p) => At(s, p, Verified) && Temp(p) in s.files
    case Rename(p) => At(s, p, Marked) && Temp(p) in s.files
    case Disarm(p) => At(s, p, Installed)
    case Discard(p) => At(s, p, Discarding)
    case Signal(p) => p in s.launchers && Trapped(s.launchers[p])
    case HandlerKillsCurl(p) => p in s.launchers && s.launchers[p].Abandoning?
    case HandlerRemoves(p) => p in s.launchers && s.launchers[p].Removing?
    case Exec(p) => At(s, p, Ready) && Cached in s.files
    case Die(p) => Alive(s, p)
  }

  function Moved(s: State, p: Pid, stage: Stage): State {
    s.(launchers := s.launchers[p := stage])
  }

  function Without(files: map<Name, File>, name: Name): map<Name, File> {
    map n | n in files && n != name :: files[n]
  }

  // kill -0 succeeds for live launchers only.
  function AfterSweepNext(s: State, p: Pid, todo: seq<Pid>): State {
    if todo == [] then Moved(s, p, Checking)
    else if Alive(s, todo[0]) then Moved(s, p, Sweeping(todo[1..]))
    else Moved(s, p, Orphaned(todo[0], todo[1..]))
  }

  function AfterCurlWrites(s: State, p: Pid, content: Bytes): State {
    // Writing keeps the mode of a file that exists; a new one is not executable.
    s.(files := s.files[Temp(p) := File(content, Temp(p) in s.files && s.files[Temp(p)].executable)])
  }

  function Apply(pin: Pin, s: State, step: Step): State
    requires Enabled(pin, s, step)
  {
    match step
    case Launch(p) => Moved(s, p, Started)
    case Glob(p, found) => Moved(s, p, Sweeping(found))
    case SweepNext(p) => AfterSweepNext(s, p, s.launchers[p].todo)
    case SweepRemove(p) =>
      Moved(s.(files := Without(s.files, Temp(s.launchers[p].orphan))), p, Sweeping(s.launchers[p].todo))
    case Check(p) => Moved(s, p, if Cached in s.files && s.files[Cached].executable then Ready else Missing)
    case Arm(p) => Moved(s, p, Armed)
    case Fork(p) => Moved(s.(curls := s.curls + {p}), p, Forked)
    case AssignCurlPid(p) => Moved(s, p, Waiting)
    case CurlWrites(p, content) => AfterCurlWrites(s, p, content)
    case CurlEnds(p) => s.(curls := s.curls - {p})
    case DownloadSucceeds(p) => Moved(s, p, Downloaded)
    case DownloadFails(p) => Moved(s, p, Discarding)
    // Without a file the digest is the empty string, which no checksum of the pin is.
    case HashFile(p) => Moved(s, p, if Temp(p) in s.files then Hashed(pin.hash(s.files[Temp(p)].content)) else Discarding)
    case NoHashTool(p) => Moved(s, p, Discarding)
    case Compare(p) => Moved(s, p, if s.launchers[p].digest == pin.checksum then Verified else Discarding)
    case Chmod(p) => Moved(s.(files := s.files[Temp(p) := s.files[Temp(p)].(executable := true)]), p, Marked)
    case Rename(p) => Moved(s.(files := Without(s.files, Temp(p))[Cached := s.files[Temp(p)]]), p, Installed)
    case Disarm(p) => Moved(s, p, Ready)
    case Discard(p) => Moved(s.(files := Without(s.files, Temp(p))), p, Gone)
    case Signal(p) => Moved(s, p, Abandoning(CurlPidKnown(s.launchers[p])))
    case HandlerKillsCurl(p) =>
      var known := s.launchers[p].curlKnown;
      Moved(s.(curls := if known then s.curls - {p} else s.curls), p, Removing(known))
    case HandlerRemoves(p) => Moved(s.(files := Without(s.files, Temp(p))), p, Gone)
    case Exec(p) => Moved(s, p, Serving)
    // SIGKILL, an untrapped signal, an exit or the end of the served binary.
    case Die(p) => Moved(s, p, Gone)
  }

  // ----- what every reachable state keeps

  predicate HashesToPin(pin: Pin, file: File) {
    pin.hash(file.content) == pin.checksum
  }

  // The cache directory before the first launcher of a run: launchers from before are gone
  // and may have left temp files, and what can be run is the pinned binary.
  ghost predicate Init(pin: Pin, s: State) {
    && s.curls == {} && (forall p | p in s.launchers :: s.launchers[p] == Gone) && TempPids(s) <= s.launchers.Keys
    && (forall name | name in s.files && s.files[name].executable :: HashesToPin(pin, s.files[name]))
  }

  predicate CurlMayRun(stage: Stage) {
    stage.Forked? || stage.Waiting? || stage.Abandoning? || stage == Removing(false) || stage.Gone?
  }

  predicate BeforeDownload(stage: Stage) {
    stage.Started? || stage.Sweeping? || stage.Orphaned? || stage.Checking? || stage.Missing? || stage.Armed?
  }

  predicate CacheIsRunnable(s: State) {
    Cached in s.files && s.files[Cached].executable
  }

  // What one launcher relies on at its stage.
  predicate StageOk(pin: Pin, s: State, p: Pid, stage: Stage) {
    && (BeforeDownload(stage) ==> Temp(p) !in s.files)
    && (p in s.curls ==> CurlMayRun(stage))
    && match stage
       case Sweeping(todo) => forall i | 0 <= i < |todo| :: todo[i] in s.launchers
       case Orphaned(orphan, todo) => At(s, orphan, Gone) && forall i | 0 <= i < |todo| :: todo[i] in s.launchers
       case Hashed(digest) => Temp(p) in s.files && pin.hash(s.files[Temp(p)].content) == digest
       case Verified => Temp(p) in s.files && HashesToPin(pin, s.files[Temp(p)])
       case Marked => Temp(p) in s.files && s.files[Temp(p)].executable
       case Installed => CacheIsRunnable(s)
       case Ready => CacheIsRunnable(s)
       case Serving => CacheIsRunnable(s)
       case _ => true
  }

  // No unverified file is executable, and a file a curl may still write is not executable.
  predicate FileOk(pin: Pin, s: State, name: Name) {
    name in s.files ==>
      && (s.files[name].executable ==> HashesToPin(pin, s.files[name]))
      && (name.Temp? ==> name.pid in s.launchers && (name.pid in s.curls ==> !s.files[name].executable))
  }

  ghost predicate Inv(pin: Pin, s: State) {
    && (forall name :: FileOk(pin, s, name))
    && (forall p | p in s.launchers :: StageOk(pin, s, p, s.launchers[p]))
    && s.curls <= s.launchers.Keys
  }

  lemma TempPidsAreThoseOfFiles(s: State, q: Pid)
    ensures q in TempPids(s) <==> Temp(q) in s.files
  {
  }

  lemma InitKeeps(pin: Pin, s: State)
    requires Init(pin, s)
    ensures Inv(pin, s)
  {
    forall name ensures FileOk(pin, s, name) {
      if name.Temp? {
        TempPidsAreThoseOfFiles(s, name.pid);
      }
    }
  }

  lemma InstallStepKeepsFiles(pin: Pin, s: State, step: Step, name: Name)
    requires Inv(pin, s) && Enabled(pin, s, step) && InstallStep(step)
    ensures FileOk(pin, Apply(pin, s, step), name)
  {
    assert FileOk(pin, s, name) && FileOk(pin, s, Temp(step.p));
    assert StageOk(pin, s, step.p, s.launchers[step.p]);
  }

  lemma CurlStepKeepsFiles(pin: Pin, s: State, step: Step, name: Name)
    requires Inv(pin, s) && Enabled(pin, s, step) && CurlStep(step)
    ensures FileOk(pin, Apply(pin, s, step), name)
  {
    assert FileOk(pin, s, name) && FileOk(pin, s, Temp(step.p));
    assert StageOk(pin, s, step.p, s.launchers[step.p]);
  }

  lemma OtherStepKeepsFiles(pin: Pin, s: State, step: Step, name: Name)
    requires Inv(pin, s) && Enabled(pin, s, step) && !InstallStep(step) && !CurlStep(step)
    ensures FileOk(pin, Apply(pin, s, step), name)
  {
    assert FileOk(pin, s, name);
  }

  lemma StepKeepsFiles(pin: Pin, s: State, step: Step, name: Name)
    requires Inv(pin, s) && Enabled(pin, s, step)
    ensures FileOk(pin, Apply(pin, s, step), name)
  {
    if InstallStep(step) {
      InstallStepKeepsFiles(pin, s, step, name);
    } else if CurlStep(step) {
      CurlStepKeepsFiles(pin, s, step, name);
    } else {
      OtherStepKeepsFiles(pin, s, step, name);
    }
  }

  predicate SweepStep(step: Step) {
    step.Launch? || step.Glob? || step.SweepNext? || step.SweepRemove? || step.Check?
  }

  lemma LookStepKeepsOwnStage(pin: Pin, s: State, step: Step)
    requires Inv(pin, s) && Enabled(pin, s, step) && (step.Launch? || step.Glob? || step.Check?)
    ensures StageOk(pin, Apply(pin, s, step), step.p, Apply(pin, s, step).launchers[step.p])
  {
    assert FileOk(pin, s, Temp(step.p));
    if step.p in s.launchers {
      assert StageOk(pin, s, step.p, s.launchers[step.p]);
    }
    if step.Glob? {
      GlobFindsStarted(pin, s, step.found);
    }
  }

  lemma SweepStepKeepsOwnStage(pin: Pin, s: State, step: Step)
    requires Inv(pin, s) && Enabled(pin, s, step) && SweepStep(step)
    ensures StageOk(pin, Apply(pin, s, step), step.p, Apply(pin, s, step).launchers[step.p])
  {
    if step.SweepNext? || step.SweepRemove? {
      assert StageOk(pin, s, step.p, s.launchers[step.p]);
    } else {
      LookStepKeepsOwnStage(pin, s, step);
    }
  }

  predicate CurlStep(step: Step) {
    step.Fork? || step.AssignCurlPid? || step.CurlWrites? || step.CurlEnds? || step.DownloadSucceeds? || step.DownloadFails?
  }

  predicate InstallStep(step: Step) {
    step.Arm? || step.HashFile? || step.NoHashTool? || step.Compare? || step.Chmod? || step.Rename? || step.Disarm?
  }

  lemma CurlStepKeepsOwnStage(pin: Pin, s: State, step: Step)
    requires Inv(pin, s) && Enabled(pin, s, step) && CurlStep(step)
    ensures StageOk(pin, Apply(pin, s, step), step.p, Apply(pin, s, step).launchers[step.p])
  {
    assert StageOk(pin, s, step.p, s.launchers[step.p]);
  }

  predicate FileStep(step: Step) {
    step.HashFile? || step.Chmod? || step.Rename?
  }

  lemma FileStepKeepsOwnStage(pin: Pin, s: State, step: Step)
    requires Inv(pin, s) && Enabled(pin, s, step) && FileStep(step)
    ensures StageOk(pin, Apply(pin, s, step), step.p, Apply(pin, s, step).launchers[step.p])
  {
    assert StageOk(pin, s, step.p, s.launchers[step.p]);
  }

  lemma InstallStepKeepsOwnStage(pin: Pin, s: State, step: Step)
    requires Inv(pin, s) && Enabled(pin, s, step) && InstallStep(step)
    ensures StageOk(pin, Apply(pin, s, step), step.p, Apply(pin, s, step).launchers[step.p])
  {
    if FileStep(step) {
      FileStepKeepsOwnStage(pin, s, step);
    } else {
      assert StageOk(pin, s, step.p, s.launchers[step.p]);
    }
  }

  lemma LastStepKeepsOwnStage(pin: Pin, s: State, step: Step)
    requires Inv(pin, s) && Enabled(pin, s, step) && !SweepStep(step) && !CurlStep(step) && !InstallStep(step)
    ensures StageOk(pin, Apply(pin, s, step), step.p, Apply(pin, s, step).launchers[step.p])
  {
    assert StageOk(pin, s, step.p, s.launchers[step.p]);
  }

  lemma StepKeepsOwnStage(pin: Pin, s: State, step: Step)
    requires Inv(pin, s) && Enabled(pin, s, step)
    ensures StageOk(pin, Apply(pin, s, step), step.p, Apply(pin, s, step).launchers[step.p])
  {
    if SweepStep(step) {
      SweepStepKeepsOwnStage(pin, s, step);
    } else if CurlStep(step) {
      CurlStepKeepsOwnStage(pin, s, step);
    } else if InstallStep(step) {
      InstallStepKeepsOwnStage(pin, s, step);
    } else {
      LastStepKeepsOwnStage(pin, s, step);
    }
  }

  lemma GlobFindsStarted(pin: Pin, s: State, found: seq<Pid>)
    requires Inv(pin, s) && (set q | q in found) == TempPids(s)
    ensures forall i | 0 <= i < |found| :: found[i] in s.launchers
  {
    forall i | 0 <= i < |found| ensures found[i] in s.launchers {
      assert found[i] in (set q | q in found);
      TempPidsAreThoseOfFiles(s, found[i]);
      assert FileOk(pin, s, Temp(found[i]));
    }
  }

  // A step leaves the temp file of every other live launcher alone.
  lemma StepSparesOtherFiles(pin: Pin, s: State, step: Step, p: Pid)
    requires Inv(pin, s) && Enabled(pin, s, step) && p != step.p && Alive(s, p)
    ensures var t := Apply(pin, s, step);
            && (Temp(p) in t.files <==> Temp(p) in s.files)
            && (Temp(p) in s.files ==> t.files[Temp(p)] == s.files[Temp(p)])
            && (p in t.curls <==> p in s.curls)
  {
    if step.SweepRemove? {
      assert StageOk(pin, s, step.p, s.launchers[step.p]);
    }
  }

  // The cached binary once runnable stays runnable.
  lemma StepKeepsCache(pin: Pin, s: State, step: Step)
    requires Inv(pin, s) && Enabled(pin, s, step)
    ensures CacheIsRunnable(s) ==> CacheIsRunnable(Apply(pin, s, step))
    ensures step.Rename? ==> CacheIsRunnable(Apply(pin, s, step))
  {
    if step.p in s.launchers {
      assert StageOk(pin, s, step.p, s.launchers[step.p]);
    }
  }

  lemma StepKeepsOtherStage(pin: Pin, s: State, step: Step, p: Pid)
    requires Inv(pin, s) && Enabled(pin, s, step) && p in s.launchers && p != step.p
    ensures StageOk(pin, Apply(pin, s, step), p, s.launchers[p])
  {
    assert StageOk(pin, s, p, s.launchers[p]);
    if Alive(s, p) {
      StepSparesOtherFiles(pin, s, step, p);
      StepKeepsCache(pin, s, step);
      GoneStaysGone(pin, s, step);
    }
  }

  lemma GoneStaysGone(pin: Pin, s: State, step: Step)
    requires Enabled(pin, s, step)
    ensures forall q | q in s.launchers :: q in Apply(pin, s, step).launchers
    ensures forall q | At(s, q, Gone) :: At(Apply(pin, s, step), q, Gone)
  {
  }

  lemma StepKeeps(pin: Pin, s: State, step: Step)
    requires Inv(pin, s) && Enabled(pin, s, step)
    ensures Inv(pin, Apply(pin, s, step))
  {
    var t := Apply(pin, s, step);
    forall name ensures FileOk(pin, t, name) {
      StepKeepsFiles(pin, s, step, name);
    }
    forall p | p in t.launchers ensures StageOk(pin, t, p, t.launchers[p]) {
      if p == step.p {
        StepKeepsOwnStage(pin, s, step);
      } else {
        StepKeepsOtherStage(pin, s, step, p);
      }
    }
  }

  // ----- whole runs

  // states[i + 1] is what steps[i] makes of states[i].
  ghost predicate Run(pin: Pin, states: seq<State>, steps: seq<Step>) {
    && |states| == |steps| + 1 && Init(pin, states[0])
    && forall i | 0 <= i < |steps| :: Enabled(pin, states[i], steps[i]) && states[i + 1] == Apply(pin, states[i], steps[i])
  }

  lemma {:induction false} RunKeeps(pin: Pin, states: seq<State>, steps: seq<Step>, i: nat)
    requires Run(pin, states, steps) && i < |states|
    ensures Inv(pin, states[i])
  {
    if i == 0 {
      InitKeeps(pin, states[0]);
    } else {
      RunKeeps(pin, states, steps, i - 1);
      StepKeeps(pin, states[i - 1], steps[i - 1]);
    }
  }

  // In every state of every run no unverified file is executable, cached or temporary,
  // and a launcher that serves the cached binary serves the pinned bytes.
  lemma OnlyVerifiedFilesRun(pin: Pin, states: seq<State>, steps: seq<Step>, i: nat)
    requires Run(pin, states, steps) && i < |states|
    ensures forall name | name in states[i].files && states[i].files[name].executable :: HashesToPin(pin, states[i].files[name])
    ensures forall p | p in states[i].launchers && (states[i].launchers[p].Ready? || states[i].launchers[p].Serving?) ::
              CacheIsRunnable(states[i])
  {
    RunKeeps(pin, states, steps, i);
    forall name | name in states[i].files && states[i].files[name].executable ensures HashesToPin(pin, states[i].files[name]) {
      assert FileOk(pin, states[i], name);
    }
    forall p | p in states[i].launchers && (states[i].launchers[p].Ready? || states[i].launchers[p].Serving?)
      ensures CacheIsRunnable(states[i])
    {
      assert StageOk(pin, states[i], p, states[i].launchers[p]);
    }
  }

  predicate CacheIsAbsentOrRunnable(s: State) {
    Cached in s.files ==> s.files[Cached].executable
  }

  lemma CacheStaysAt(pin: Pin, states: seq<State>, steps: seq<Step>, k: nat)
    requires Run(pin, states, steps) && k < |steps|
    ensures CacheIsRunnable(states[k]) ==> CacheIsRunnable(states[k + 1])
    ensures CacheIsAbsentOrRunnable(states[k]) ==> CacheIsAbsentOrRunnable(states[k + 1])
  {
    RunKeeps(pin, states, steps, k);
    StepKeepsCache(pin, states[k], steps[k]);
    if !steps[k].Rename? {
      OnlyRenameInstalls(pin, states[k], steps[k]);
    }
  }

  lemma OnlyRenameInstalls(pin: Pin, s: State, step: Step)
    requires Enabled(pin, s, step) && !step.Rename?
    ensures Cached in Apply(pin, s, step).files ==> Cached in s.files
  {
  }

  // A cached binary, once there, can be run from then on, and so can every one installed.
  lemma {:induction false} CachedBinaryStaysRunnable(pin: Pin, states: seq<State>, steps: seq<Step>, i: nat, j: nat)
    requires Run(pin, states, steps) && i <= j < |states|
    ensures CacheIsRunnable(states[i]) ==> CacheIsRunnable(states[j])
    ensures CacheIsAbsentOrRunnable(states[i]) ==> CacheIsAbsentOrRunnable(states[j])
    decreases j - i
  {
    if i < j {
      CachedBinaryStaysRunnable(pin, states, steps, i, j - 1);
      CacheStaysAt(pin, states, steps, j - 1);
    }
  }

  // A temp file disappears only by a step of its own launcher, or when that launcher is
  // gone: the sweep never removes the temp file of a live launcher.
  lemma SweepSparesTheLiving(pin: Pin, states: seq<State>, steps: seq<Step>, i: nat, q: Pid)
    requires Run(pin, states, steps) && i < |steps|
    requires Temp(q) in states[i].files && Temp(q) !in states[i + 1].files
    ensures At(states[i], q, Gone) || steps[i].p == q
    ensures steps[i].SweepRemove? ==> At(states[i], q, Gone)
  {
    RunKeeps(pin, states, steps, i);
    assert StageOk(pin, states[i], steps[i].p, states[i].launchers[steps[i].p]);
  }

  // ----- a rename installs the bytes that were hashed

  predicate HoldsHashedBytes(stage: Stage) {
    stage.Hashed? || stage.Verified? || stage.Marked?
  }

  // Stages from which no step leads back to the hashed file.
  predicate PastDownload(stage: Stage) {
    stage.Discarding? || stage.Abandoning? || stage.Removing? || stage.Installed? || stage.Ready? || stage.Serving? || stage.Gone?
  }

  predicate KeepsBytes(s: State, p: Pid, content: Bytes) {
    p in s.launchers
    && (PastDownload(s.launchers[p])
        || (HoldsHashedBytes(s.launchers[p]) && Temp(p) in s.files && s.files[Temp(p)].content == content))
  }

  lemma StepKeepsBytes(pin: Pin, s: State, step: Step, p: Pid, content: Bytes)
    requires Inv(pin, s) && Enabled(pin, s, step) && KeepsBytes(s, p, content)
    ensures KeepsBytes(Apply(pin, s, step), p, content)
  {
    assert StageOk(pin, s, p, s.launchers[p]);
    if step.p != p && Alive(s, p) {
      StepSparesOtherFiles(pin, s, step, p);
    }
  }

  lemma {:induction false} BytesAreKept(pin: Pin, states: seq<State>, steps: seq<Step>, i: nat, j: nat, p: Pid, content: Bytes)
    requires Run(pin, states, steps) && i <= j < |states| && KeepsBytes(states[i], p, content)
    ensures KeepsBytes(states[j], p, content)
    decreases j - i
  {
    if i < j {
      BytesAreKept(pin, states, steps, i, j - 1, p, content);
      RunKeeps(pin, states, steps, j - 1);
      StepKeepsBytes(pin, states[j - 1], steps[j - 1], p, content);
    }
  }

  // Between the hash of a temp file and its rename nothing changes its bytes, so the
  // cached binary is the file that was hashed, and its digest is the pinned checksum.
  lemma RenameInstallsHashedBytes(pin: Pin, states: seq<State>, steps: seq<Step>, i: nat, j: nat, p: Pid)
    requires Run(pin, states, steps) && i < j < |steps| && steps[i] == HashFile(p) && steps[j] == Rename(p)
    ensures Temp(p) in states[i].files && Cached in states[j + 1].files
    ensures states[j + 1].files[Cached] == File(states[i].files[Temp(p)].content, true)
    ensures HashesToPin(pin, states[j + 1].files[Cached])
  {
    var content := if Temp(p) in states[i].files then states[i].files[Temp(p)].content else [];
    assert KeepsBytes(states[i + 1], p, content);
    BytesAreKept(pin, states, steps, i + 1, j, p, content);
    RunKeeps(pin, states, steps, j);
    assert StageOk(pin, states[j], p, Marked) && FileOk(pin, states[j], Temp(p));
    if Temp(p) !in states[i].files {
      NoFileNoRename(pin, states, steps, i + 1, j, p);
    }
  }

  lemma PastStaysPast(pin: Pin, s: State, step: Step, p: Pid)
    requires Enabled(pin, s, step) && IsPast(s, p)
    ensures IsPast(Apply(pin, s, step), p)
  {
  }

  predicate IsPast(s: State, p: Pid) {
    p in s.launchers && PastDownload(s.launchers[p])
  }

  lemma {:induction false} PastToTheEnd(states: seq<State>, i: nat, j: nat, p: Pid)
    requires i <= j < |states| && IsPast(states[i], p)
    requires forall k | i <= k < j && IsPast(states[k], p) :: IsPast(states[k + 1], p)
    ensures IsPast(states[j], p)
    decreases j - i
  {
    if i < j {
      PastToTheEnd(states, i, j - 1, p);
    }
  }

  lemma NoFileNoRename(pin: Pin, states: seq<State>, steps: seq<Step>, i: nat, j: nat, p: Pid)
    requires Run(pin, states, steps) && i <= j < |states| && IsPast(states[i], p)
    ensures IsPast(states[j], p)
  {
    forall k | i <= k < j && IsPast(states[k], p) ensures IsPast(states[k + 1], p) {
      PastStaysPast(pin, states[k], steps[k], p);
    }
    PastToTheEnd(states, i, j, p);
  }

  // ----- a sweep removes every orphan

  predicate Orphan(s: State, q: Pid) {
    At(s, q, Gone) && q !in s.curls
  }

  // The launcher p has dealt with the temp file of q, or still has q on its list.
  predicate Covered(s: State, p: Pid, q: Pid) {
    Orphan(s, q) && p in s.launchers
    && (Temp(q) in s.files ==>
          match s.launchers[p]
          case Sweeping(todo) => q in todo
          case Orphaned(orphan, todo) => orphan == q || q in todo
          case Gone => true
          case _ => false)
  }

  lemma StepKeepsCovered(pin: Pin, s: State, step: Step, p: Pid, q: Pid)
    requires Inv(pin, s) && Enabled(pin, s, step) && Covered(s, p, q) && !s.launchers[p].Started?
    ensures Covered(Apply(pin, s, step), p, q) && !Apply(pin, s, step).launchers[p].Started?
  {
    OrphanStaysOrphan(pin, s, step, q);
    if step.p == p {
      OwnStepKeepsCovered(pin, s, step, p, q);
    }
  }

  lemma OrphanStaysOrphan(pin: Pin, s: State, step: Step, q: Pid)
    requires Enabled(pin, s, step) && Orphan(s, q)
    ensures Orphan(Apply(pin, s, step), q) && (Temp(q) !in s.files ==> Temp(q) !in Apply(pin, s, step).files)
  {
    GoneStaysGone(pin, s, step);
    NoNewFileOfOrphan(pin, s, step, q);
  }

  lemma NoNewFileOfOrphan(pin: Pin, s: State, step: Step, q: Pid)
    requires Enabled(pin, s, step) && Orphan(s, q)
    ensures q !in Apply(pin, s, step).curls && (Temp(q) !in s.files ==> Temp(q) !in Apply(pin, s, step).files)
  {
  }

  lemma OwnStepKeepsCovered(pin: Pin, s: State, step: Step, p: Pid, q: Pid)
    requires Enabled(pin, s, step) && step.p == p && Covered(s, p, q) && !s.launchers[p].Started?
    ensures Covered(Apply(pin, s, step), p, q) && !Apply(pin, s, step).launchers[p].Started?
  {
    OrphanStaysOrphan(pin, s, step, q);
    if step.SweepNext? {
      var todo := s.launchers[p].todo;
      assert todo == [] || todo == [todo[0]] + todo[1..];
    }
  }

  lemma {:induction false} CoveredIsKept(pin: Pin, states: seq<State>, steps: seq<Step>, i: nat, j: nat, p: Pid, q: Pid)
    requires Run(pin, states, steps) && i <= j < |states|
    requires Covered(states[i], p, q) && !states[i].launchers[p].Started?
    ensures Covered(states[j], p, q)
    ensures !states[j].launchers[p].Started?
    decreases j - i
  {
    if i < j {
      CoveredIsKept(pin, states, steps, i, j - 1, p, q);
      RunKeeps(pin, states, steps, j - 1);
      StepKeepsCovered(pin, states[j - 1], steps[j - 1], p, q);
    }
  }

  // However the others interleave, once a sweep has run to its end no temp file is left
  // of a launcher that was gone, with no curl running, when the sweep listed the files.
  lemma SweepRemovesOrphans(pin: Pin, states: seq<State>, steps: seq<Step>, i: nat, j: nat, p: Pid, q: Pid)
    requires Run(pin, states, steps) && i < j < |states| && steps[i].Glob? && steps[i].p == p
    requires Orphan(states[i], q)
    requires p in states[j].launchers && !states[j].launchers[p].Sweeping? && !states[j].launchers[p].Orphaned? && Alive(states[j], p)
    ensures Temp(q) !in states[j].files
  {
    var found := steps[i].found;
    TempPidsAreThoseOfFiles(states[i], q);
    assert q in found <==> q in (set x | x in found);
    CoveredIsKept(pin, states, steps, i + 1, j, p, q);
  }

  // ----- what a launcher that stops on its own leaves behind

  // The temp file of p is not there, and whatever anyone does next it does not come back.
  ghost predicate NeverBack(pin: Pin, s: State, p: Pid) {
    forall states: seq<State>, steps: seq<Step> | Follows(pin, s, states, steps) :: NoTempFile(states, p)
  }

  ghost predicate Follows(pin: Pin, s: State, states: seq<State>, steps: seq<Step>) {
    && |states| == |steps| + 1 && states[0] == s
    && forall i | 0 <= i < |steps| :: Enabled(pin, states[i], steps[i]) && states[i + 1] == Apply(pin, states[i], steps[i])
  }

  ghost predicate NoTempFile(states: seq<State>, p: Pid) {
    forall i | 0 <= i < |states| :: Temp(p) !in states[i].files
  }

  predicate LeftNothing(s: State, p: Pid) {
    At(s, p, Gone) && Temp(p) !in s.files && p !in s.curls
  }

  lemma StepLeavesNothing(pin: Pin, s: State, step: Step, p: Pid)
    requires Enabled(pin, s, step) && LeftNothing(s, p)
    ensures LeftNothing(Apply(pin, s, step), p)
  {
    OrphanStaysOrphan(pin, s, step, p);
  }

  lemma {:induction false} NothingStaysNothing(pin: Pin, s: State, states: seq<State>, steps: seq<Step>, i: nat, p: Pid)
    requires Follows(pin, s, states, steps) && i < |states| && LeftNothing(s, p)
    ensures LeftNothing(states[i], p)
  {
    if i > 0 {
      NothingStaysNothing(pin, s, states, steps, i - 1, p);
      StepLeavesNothing(pin, states[i - 1], steps[i - 1], p);
    }
  }

  // The temp file of a launcher that is gone stays away exactly when none of its curls runs.
  lemma NeverBackIffNoCurl(pin: Pin, s: State, p: Pid)
    requires At(s, p, Gone) && Temp(p) !in s.files
    ensures NeverBack(pin, s, p) <==> p !in s.curls
  {
    if p in s.curls {
      var t := Apply(pin, s, CurlWrites(p, []));
      assert Follows(pin, s, [s, t], [CurlWrites(p, [])]);
      assert [s, t][1] == t && Temp(p) in t.files;
    } else {
      forall states: seq<State>, steps: seq<Step> | Follows(pin, s, states, steps) ensures NoTempFile(states, p) {
        forall i | 0 <= i < |states| ensures Temp(p) !in states[i].files {
          NothingStaysNothing(pin, s, states, steps, i, p);
        }
      }
    }
  }

  // A failed download leaves nothing behind, for good.
  lemma FailedDownloadLeavesNothing(pin: Pin, states: seq<State>, steps: seq<Step>, i: nat, p: Pid)
    requires Run(pin, states, steps) && i < |steps| && steps[i] == Discard(p)
    ensures At(states[i + 1], p, Gone) && NeverBack(pin, states[i + 1], p)
  {
    RunKeeps(pin, states, steps, i);
    assert StageOk(pin, states[i], p, states[i].launchers[p]);
    NeverBackIffNoCurl(pin, states[i + 1], p);
  }

  // What the steps so far say of one launcher and its curl.
  predicate CurlHistory(s: State, past: seq<Step>, p: Pid) {
    && (p in s.curls ==> Fork(p) in past && CurlEnds(p) !in past)
    && (CurlOutlives(past, p) ==> p in s.curls)
    && (p !in s.launchers || BeforeDownload(s.launchers[p]) ==>
          Fork(p) !in past && AssignCurlPid(p) !in past && CurlEnds(p) !in past)
    && (p in s.launchers && Trapped(s.launchers[p]) ==> (CurlPidKnown(s.launchers[p]) <==> AssignCurlPid(p) in past))
  }

  // curl was started and did not end, and its pid was never assigned to curl_pid.
  predicate CurlOutlives(past: seq<Step>, p: Pid) {
    Fork(p) in past && AssignCurlPid(p) !in past && CurlEnds(p) !in past
  }

  predicate HistoryStep(step: Step) {
    step.Fork? || step.AssignCurlPid? || step.CurlEnds?
  }

  lemma OtherStepKeepsHistory(pin: Pin, s: State, past: seq<Step>, step: Step, p: Pid)
    requires Enabled(pin, s, step) && CurlHistory(s, past, p) && step.p != p
    ensures CurlHistory(Apply(pin, s, step), past + [step], p)
  {
    var t := Apply(pin, s, step);
    assert p in t.curls <==> p in s.curls;
    assert p in t.launchers <==> p in s.launchers;
    assert p in s.launchers ==> t.launchers[p] == s.launchers[p];
  }

  lemma HistoryStepKeepsHistory(pin: Pin, s: State, past: seq<Step>, step: Step)
    requires Inv(pin, s) && Enabled(pin, s, step) && CurlHistory(s, past, step.p) && HistoryStep(step)
    ensures CurlHistory(Apply(pin, s, step), past + [step], step.p)
  {
    assert StageOk(pin, s, step.p, s.launchers[step.p]);
  }

  // How any other step moves its own launcher and curl.
  predicate PlainMove(s: State, t: State, p: Pid) {
    && (p in t.curls ==> p in s.curls)
    && (p in s.curls && p !in t.curls ==> p in s.launchers && s.launchers[p] == Abandoning(true))
    && (p in s.launchers ==> p in t.launchers)
    && (p in t.launchers && BeforeDownload(t.launchers[p]) ==> p !in s.launchers || BeforeDownload(s.launchers[p]))
    && (p in t.launchers && Trapped(t.launchers[p]) && !t.launchers[p].Armed? ==>
          p in s.launchers && Trapped(s.launchers[p]) && (CurlPidKnown(t.launchers[p]) <==> CurlPidKnown(s.launchers[p])))
  }

  lemma SweepStepIsPlain(pin: Pin, s: State, step: Step)
    requires Enabled(pin, s, step) && SweepStep(step)
    ensures PlainMove(s, Apply(pin, s, step), step.p)
  {
  }

  lemma CurlStepIsPlain(pin: Pin, s: State, step: Step)
    requires Enabled(pin, s, step) && CurlStep(step) && !HistoryStep(step)
    ensures PlainMove(s, Apply(pin, s, step), step.p)
  {
  }

  lemma InstallStepIsPlain(pin: Pin, s: State, step: Step)
    requires Enabled(pin, s, step) && InstallStep(step)
    ensures PlainMove(s, Apply(pin, s, step), step.p)
  {
  }

  lemma LastStepIsPlain(pin: Pin, s: State, step: Step)
    requires Enabled(pin, s, step) && !SweepStep(step) && !CurlStep(step) && !InstallStep(step)
    ensures PlainMove(s, Apply(pin, s, step), step.p)
  {
  }

  lemma OwnStepIsPlain(pin: Pin, s: State, step: Step)
    requires Enabled(pin, s, step) && !HistoryStep(step)
    ensures PlainMove(s, Apply(pin, s, step), step.p)
  {
    if SweepStep(step) {
      SweepStepIsPlain(pin, s, step);
    } else if CurlStep(step) {
      CurlStepIsPlain(pin, s, step);
    } else if InstallStep(step) {
      InstallStepIsPlain(pin, s, step);
    } else {
      LastStepIsPlain(pin, s, step);
    }
  }

  lemma PlainMoveKeepsHistory(s: State, t: State, past: seq<Step>, now: seq<Step>, p: Pid)
    requires PlainMove(s, t, p) && CurlHistory(s, past, p)
    requires Fork(p) in now <==> Fork(p) in past
    requires AssignCurlPid(p) in now <==> AssignCurlPid(p) in past
    requires CurlEnds(p) in now <==> CurlEnds(p) in past
    ensures CurlHistory(t, now, p)
  {
  }

  lemma OwnStepKeepsHistory(pin: Pin, s: State, past: seq<Step>, step: Step)
    requires Enabled(pin, s, step) && CurlHistory(s, past, step.p) && !HistoryStep(step)
    ensures CurlHistory(Apply(pin, s, step), past + [step], step.p)
  {
    SamePast(past, step, step.p);
    OwnStepIsPlain(pin, s, step);
    PlainMoveKeepsHistory(s, Apply(pin, s, step), past, past + [step], step.p);
  }

  lemma SamePast(past: seq<Step>, step: Step, p: Pid)
    requires !HistoryStep(step)
    ensures Fork(p) in past + [step] <==> Fork(p) in past
    ensures AssignCurlPid(p) in past + [step] <==> AssignCurlPid(p) in past
    ensures CurlEnds(p) in past + [step] <==> CurlEnds(p) in past
  {
  }

  lemma StepKeepsHistory(pin: Pin, s: State, past: seq<Step>, step: Step, p: Pid)
    requires Inv(pin, s) && Enabled(pin, s, step) && CurlHistory(s, past, p)
    ensures CurlHistory(Apply(pin, s, step), past + [step], p)
  {
    if step.p != p {
      OtherStepKeepsHistory(pin, s, past, step, p);
    } else if HistoryStep(step) {
      HistoryStepKeepsHistory(pin, s, past, step);
    } else {
      OwnStepKeepsHistory(pin, s, past, step);
    }
  }

  lemma {:induction false} RunKeepsHistory(pin: Pin, states: seq<State>, steps: seq<Step>, i: nat, p: Pid)
    requires Run(pin, states, steps) && i < |states|
    ensures CurlHistory(states[i], steps[..i], p)
  {
    if i > 0 {
      RunKeepsHistory(pin, states, steps, i - 1, p);
      RunKeeps(pin, states, steps, i - 1);
      StepKeepsHistory(pin, states[i - 1], steps[..i - 1], steps[i - 1], p);
      assert steps[..i] == steps[..i - 1] + [steps[i - 1]];
    }
  }

  // The trap handler leaves nothing behind, for good, unless the signal struck between the
  // start of curl and the assignment of curl_pid and curl has not ended by itself.
  lemma HandlerLeavesNothingIff(pin: Pin, states: seq<State>, steps: seq<Step>, i: nat, p: Pid)
    requires Run(pin, states, steps) && i < |steps| && steps[i] == HandlerRemoves(p)
    ensures At(states[i + 1], p, Gone) && Temp(p) !in states[i + 1].files
    ensures NeverBack(pin, states[i + 1], p) <==> !CurlOutlives(steps[..i], p)
  {
    RunKeeps(pin, states, steps, i);
    RunKeepsHistory(pin, states, steps, i, p);
    assert StageOk(pin, states[i], p, states[i].launchers[p]);
    NeverBackIffNoCurl(pin, states[i + 1], p);
  }

  // A signal between the fork of curl and the assignment of curl_pid is handled without
  // killing curl: the launcher is gone, and its temp file comes back.
  lemma SignalBeforeAssignmentLeavesAFile(pin: Pin, p: Pid, content: Bytes) returns (states: seq<State>, steps: seq<Step>)
    ensures Run(pin, states, steps) && |steps| == 10 && steps[6] == Signal(p) && steps[8] == HandlerRemoves(p)
    ensures At(states[10], p, Gone) && Temp(p) in states[10].files && p in states[10].curls
  {
    states, steps := RunToHandled(pin, p);
    states, steps := Extended(pin, states, steps, CurlWrites(p, content));
  }

  lemma RunToHandled(pin: Pin, p: Pid) returns (states: seq<State>, steps: seq<Step>)
    ensures Run(pin, states, steps) && |steps| == 9 && steps[6] == Signal(p) && steps[8] == HandlerRemoves(p)
    ensures states[9] == State(map[], map[p := Gone], {p})
  {
    states, steps := RunToFork(pin, p);
    states, steps := Extended(pin, states, steps, Signal(p));
    states, steps := Extended(pin, states, steps, HandlerKillsCurl(p));
    states, steps := Extended(pin, states, steps, HandlerRemoves(p));
  }

  lemma RunToFork(pin: Pin, p: Pid) returns (states: seq<State>, steps: seq<Step>)
    ensures Run(pin, states, steps) && |steps| == 6 && states[6] == State(map[], map[p := Forked], {p})
  {
    states, steps := RunToCheck(pin, p);
    states, steps := Extended(pin, states, steps, Check(p));
    states, steps := Extended(pin, states, steps, Arm(p));
    states, steps := Extended(pin, states, steps, Fork(p));
  }

  lemma RunToCheck(pin: Pin, p: Pid) returns (states: seq<State>, steps: seq<Step>)
    ensures Run(pin, states, steps) && |steps| == 3 && states[3] == State(map[], map[p := Checking], {})
  {
    states, steps := [State(map[], map[], {})], [];
    states, steps := Extended(pin, states, steps, Launch(p));
    states, steps := Extended(pin, states, steps, Glob(p, []));
    states, steps := Extended(pin, states, steps, SweepNext(p));
  }

  lemma Extended(pin: Pin, states0: seq<State>, steps0: seq<Step>, step: Step) returns (states: seq<State>, steps: seq<Step>)
    requires Run(pin, states0, steps0) && Enabled(pin, states0[|steps0|], step)
    ensures Run(pin, states, steps) && steps == steps0 + [step]
    ensures states == states0 + [Apply(pin, states0[|steps0|], step)]
  {
    states, steps := states0 + [Apply(pin, states0[|steps0|], step)], steps0 + [step];
  }
}

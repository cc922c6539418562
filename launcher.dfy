/** The job driver (cmd/abibinder/launcher/launcher.go, `generateBindings`):
    for each configured ABI in order, load it, run the generator, and for
    jobs that ask for it, extract and emit the deployed bytecode. The first
    failure ends the run. */
module Launcher {
  import opened Wrappers
  import opened Json
  import opened Paths
  import Loader
  import Binder
  import Foundry

  /** One entry of the configuration's `abis` list. */
  datatype AbiConfig = AbiConfig(
    abi: string,
    package: string,
    output: string,
    kind: string,
    deployedBytecode: bool)

  const DefaultVersion: string := "latest"
  const VarsFileName: string := "vars.go"
  const BytecodeVarName: string := "DeployedBytecode"

  /** The toolchain version after defaulting an empty flag value. */
  function EffectiveVersion(flag: string): string {
    if flag == "" then DefaultVersion else flag
  }

  /** The file the deployed bytecode goes to: `vars.go` beside the output. */
  function VarsPath(output: string): string {
    Join(Dir(output), VarsFileName)
  }

  /** What the effectful steps of one job report: the ABI read by
      `LoadABI`, the generator's world, the second read of the same path by
      the bytecode loader, and the creation and writing of `vars.go`. */
  datatype JobWorld = JobWorld(
    abiFile: Loader.FileRead,
    abigen: Binder.AbigenWorld,
    bytecodeFile: Loader.FileRead,
    emit: Foundry.EmitWorld)

  /** What is the same for every job: the effective version, the process's
      uid and gid, and the JSON codec. */
  datatype Env = Env(version: string, uid: nat, gid: nat, codec: JsonCodec)

  /** The steps a job attempts, in order, tagged with the job's position. */
  datatype Step =
    | LoadedAbi(job: nat, path: string, kind: string)
    | RanAbigen(job: nat, events: seq<Binder.Event>)
    | CheckedBytecodeType(job: nat)
    | LoadedBytecode(job: nat, path: string)
    | EmittedBytecode(job: nat, path: string, effect: Foundry.FileEffect)

  datatype StepKind = LoadAbiStep | AbigenStep | TypeCheckStep | BytecodeLoadStep | EmitStep

  function KindOf(s: Step): StepKind {
    match s
    case LoadedAbi(_, _, _) => LoadAbiStep
    case RanAbigen(_, _) => AbigenStep
    case CheckedBytecodeType(_) => TypeCheckStep
    case LoadedBytecode(_, _) => BytecodeLoadStep
    case EmittedBytecode(_, _, _) => EmitStep
  }

  function Kinds(steps: seq<Step>): seq<StepKind> {
    seq(|steps|, i requires 0 <= i < |steps| => KindOf(steps[i]))
  }


  /** The errors `generateBindings` returns; the ones wrapped with "for %s"
      carry the job's ABI path. */
  datatype LaunchError =
    | ConfigLoadFailed                                                         // "failed to load config"
    | AbiLoadFailed(abiPath: string, loadCause: Loader.LoadError)              // "failed to load abi for %s"
    | BindingsFailed(abiPath: string, abigenCause: Binder.AbigenError)         // "failed to generate bindings for %s"
    | BytecodeTypeViolation                                                    // "deployed bytecode is allowed only for foundry type"
    | BytecodeLoadFailed(abiPath: string, bytecodeCause: Foundry.BytecodeError) // "failed to load foundry %s"
    | BytecodeEmitFailed(emitCause: Foundry.EmitError)                         // "failed to generate bytecode"

  datatype LaunchTrace = LaunchTrace(outcome: Outcome<LaunchError>, steps: seq<Step>)

  /** What each step of a job yields: the loaded ABI, the generator run on
      given ABI bytes, the extracted bytecode, and the emission of given
      bytes. */
  datatype StepResults = StepResults(
    loadAbi: Result<seq<Byte>, Loader.LoadError>,
    runAbigen: seq<Byte> -> Binder.AbigenTrace,
    loadBytecode: Result<seq<Byte>, Foundry.BytecodeError>,
    emitBytecode: seq<Byte> -> Foundry.EmitTrace)

  /** The steps of one job, as the components model them. */
  function StepResultsOf(job: AbiConfig, env: Env, w: JobWorld): StepResults {
    StepResults(
      Loader.LoadAbi(job.kind, w.abiFile, env.codec),
      data => Binder.ExpectedAbigen(data, env.version, job.output, job.package, env.uid, env.gid, w.abigen),
      Foundry.LoadDeployedBytecode(w.bytecodeFile, env.codec),
      bytecode => Foundry.ExpectedEmit(job.package, VarsPath(job.output), BytecodeVarName, bytecode, w.emit))
  }

  /** One job, step by step, as the loop body runs it, whatever its steps
      yield. */
  function JobRun(k: nat, job: AbiConfig, r: StepResults): LaunchTrace {
    var s1 := [LoadedAbi(k, job.abi, job.kind)];
    if r.loadAbi.Err? then LaunchTrace(Fail(AbiLoadFailed(job.abi, r.loadAbi.error)), s1)
    else
      var run := r.runAbigen(r.loadAbi.value);
      var s2 := s1 + [RanAbigen(k, run.events)];
      if run.outcome.Fail? then LaunchTrace(Fail(BindingsFailed(job.abi, run.outcome.error)), s2)
      else if !job.deployedBytecode then LaunchTrace(Pass, s2)
      else
        var s3 := s2 + [CheckedBytecodeType(k)];
        if job.kind != Loader.Foundry then LaunchTrace(Fail(BytecodeTypeViolation), s3)
        else
          var s4 := s3 + [LoadedBytecode(k, job.abi)];
          if r.loadBytecode.Err? then LaunchTrace(Fail(BytecodeLoadFailed(job.abi, r.loadBytecode.error)), s4)
          else
            var emitted := r.emitBytecode(r.loadBytecode.value);
            var s5 := s4 + [EmittedBytecode(k, VarsPath(job.output), emitted.file)];
            if emitted.outcome.Fail? then LaunchTrace(Fail(BytecodeEmitFailed(emitted.outcome.error)), s5)
            else LaunchTrace(Pass, s5)
  }

  /** The k-th job of a run. */
  function JobSpec(k: nat, job: AbiConfig, env: Env, w: JobWorld): LaunchTrace {
    JobRun(k, job, StepResultsOf(job, env, w))
  }

  /** Jobs run one after another; the first failure ends the run. */
  function Sequenced(runs: seq<LaunchTrace>): LaunchTrace {
    if |runs| == 0 then LaunchTrace(Pass, [])
    else
      var before := Sequenced(runs[..|runs| - 1]);
      if before.outcome.Fail? then before
      else
        var last := runs[|runs| - 1];
        LaunchTrace(last.outcome, before.steps + last.steps)
  }

  /** What each job would do if it ran. */
  function JobTraces(jobs: seq<AbiConfig>, env: Env, world: nat -> JobWorld): (r: seq<LaunchTrace>)
    ensures |r| == |jobs|
    ensures forall k :: 0 <= k < |jobs| ==> r[k] == JobSpec(k, jobs[k], env, world(k))
  {
    seq(|jobs|, k requires 0 <= k < |jobs| => JobSpec(k, jobs[k], env, world(k)))
  }

  function EnvOf(versionFlag: string, uid: nat, gid: nat, codec: JsonCodec): Env {
    Env(EffectiveVersion(versionFlag), uid, gid, codec)
  }

  /** The whole run: a failed configuration load, or the jobs in order. */
  function ExpectedLaunch(config: Option<seq<AbiConfig>>, versionFlag: string, uid: nat, gid: nat,
                          codec: JsonCodec, world: nat -> JobWorld): LaunchTrace
  {
    if config.None? then LaunchTrace(Fail(ConfigLoadFailed), [])
    else Sequenced(JobTraces(config.value, EnvOf(versionFlag, uid, gid, codec), world))
  }

  /** The body of the loop of `generateBindings`: one job, with an early
      return at each failing step. */
  method RunJob(k: nat, abi: AbiConfig, env: Env, w: JobWorld) returns (r: Outcome<LaunchError>, steps: seq<Step>)
    ensures LaunchTrace(r, steps) == JobSpec(k, abi, env, w)
  {
    steps := [LoadedAbi(k, abi.abi, abi.kind)];
    var data := Loader.LoadAbi(abi.kind, w.abiFile, env.codec);
    if data.Err? {
      return Fail(AbiLoadFailed(abi.abi, data.error)), steps;
    }
    var err, events := Binder.RunAbigen(data.value, env.version, abi.output, abi.package, env.uid, env.gid, w.abigen);
    steps := steps + [RanAbigen(k, events)];
    if err.Fail? {
      return Fail(BindingsFailed(abi.abi, err.error)), steps;
    }
    if abi.deployedBytecode {
      steps := steps + [CheckedBytecodeType(k)];
      if abi.kind != Loader.Foundry {
        return Fail(BytecodeTypeViolation), steps;
      }
      var bytecode := Foundry.LoadDeployedBytecode(w.bytecodeFile, env.codec);
      steps := steps + [LoadedBytecode(k, abi.abi)];
      if bytecode.Err? {
        return Fail(BytecodeLoadFailed(abi.abi, bytecode.error)), steps;
      }
      var emitErr, effect := Foundry.GenerateGoFileWithBytecode(
        abi.package, Join(Dir(abi.output), VarsFileName), BytecodeVarName, bytecode.value, w.emit);
      steps := steps + [EmittedBytecode(k, Join(Dir(abi.output), VarsFileName), effect)];
      if emitErr.Fail? {
        return Fail(BytecodeEmitFailed(emitErr.error)), steps;
      }
    }
    return Pass, steps;
  }

  /** `generateBindings`. The configuration arrives already loaded (`None`
      when `Load` failed); `world(k)` answers for the k-th job. */
  method GenerateBindings(config: Option<seq<AbiConfig>>, versionFlag: string, uid: nat, gid: nat,
                          codec: JsonCodec, world: nat -> JobWorld)
    returns (r: Outcome<LaunchError>, steps: seq<Step>)
    ensures LaunchTrace(r, steps) == ExpectedLaunch(config, versionFlag, uid, gid, codec, world)
  {
    steps := [];
    if config.None? {
      return Fail(ConfigLoadFailed), steps;
    }
    var toolchainVersion := versionFlag;
    if toolchainVersion == "" {
      toolchainVersion := DefaultVersion;
    }
    var env := Env(toolchainVersion, uid, gid, codec);
    assert env == EnvOf(versionFlag, uid, gid, codec);
    var abis := config.value;
    ghost var runs := JobTraces(abis, env, world);
    var i := 0;
    while i < |abis|
      invariant 0 <= i <= |abis|
      invariant Sequenced(runs[..i]) == LaunchTrace(Pass, steps)
    {
      var jobResult, jobSteps := RunJob(i, abis[i], env, world(i));
      assert runs[i] == JobSpec(i, abis[i], env, world(i));
      SequencedAppend(runs, i, steps);
      steps := steps + jobSteps;
      if jobResult.Fail? {
        StopsAtFirstFailure(runs, i + 1);
        assert runs[..|abis|] == runs;
        return jobResult, steps;
      }
      i := i + 1;
    }
    assert runs[..|abis|] == runs;
    return Pass, steps;
  }

  /** One more job after a successful prefix. */
  lemma SequencedAppend(runs: seq<LaunchTrace>, i: nat, steps: seq<Step>)
    requires i < |runs| && Sequenced(runs[..i]) == LaunchTrace(Pass, steps)
    ensures Sequenced(runs[..i + 1]) == LaunchTrace(runs[i].outcome, steps + runs[i].steps)
  {
    assert runs[..i + 1][..i] == runs[..i];
  }

  // ---------------------------------------------------------------------
  // Properties

  /** The version is "latest" when the flag is empty, else the flag,
      so it is never empty; one value serves every job. */
  lemma EffectiveVersionDefaults(flag: string)
    ensures EffectiveVersion(flag) != ""
    ensures flag != "" ==> EffectiveVersion(flag) == flag
    ensures flag == "" <==> EffectiveVersion(flag) == "latest" && flag != "latest"
  {
  }

  /** Once a prefix of the jobs has failed, later jobs change nothing. */
  lemma {:induction false} StopsAtFirstFailure(runs: seq<LaunchTrace>, m: nat)
    requires m <= |runs|
    requires Sequenced(runs[..m]).outcome.Fail?
    ensures Sequenced(runs) == Sequenced(runs[..m])
  {
    if |runs| > m {
      var shorter := runs[..|runs| - 1];
      assert shorter[..m] == runs[..m];
      StopsAtFirstFailure(shorter, m);
    } else {
      assert runs[..m] == runs;
    }
  }

  /** The steps of a shorter run begin the steps of a longer one. */
  lemma {:induction false} StepsExtend(runs: seq<LaunchTrace>, m: nat)
    requires m <= |runs|
    ensures var a, b := Sequenced(runs[..m]).steps, Sequenced(runs).steps;
      |a| <= |b| && b[..|a|] == a
  {
    if |runs| > m {
      var shorter := runs[..|runs| - 1];
      assert shorter[..m] == runs[..m];
      StepsExtend(shorter, m);
      var a, c := Sequenced(runs[..m]).steps, Sequenced(shorter).steps;
      var b := Sequenced(runs).steps;
      if !Sequenced(shorter).outcome.Fail? {
        assert b == c + runs[|runs| - 1].steps;
        assert b[..|a|] == c[..|a|];
      }
    } else {
      assert runs[..m] == runs;
    }
  }

  /** The run succeeds exactly when every job succeeds. */
  lemma {:induction false} SucceedsIffAllSucceed(runs: seq<LaunchTrace>)
    ensures Sequenced(runs).outcome.Pass? <==> forall k :: 0 <= k < |runs| ==> runs[k].outcome.Pass?
  {
    if |runs| > 0 {
      var shorter := runs[..|runs| - 1];
      SucceedsIffAllSucceed(shorter);
      if Sequenced(shorter).outcome.Fail? {
        var k :| 0 <= k < |shorter| && !shorter[k].outcome.Pass?;
        assert runs[k] == shorter[k];
      }
    }
  }

  lemma LaunchSucceedsIff(config: Option<seq<AbiConfig>>, versionFlag: string, uid: nat, gid: nat,
                          codec: JsonCodec, world: nat -> JobWorld)
    ensures var env := EnvOf(versionFlag, uid, gid, codec);
      ExpectedLaunch(config, versionFlag, uid, gid, codec, world).outcome.Pass?
      <==> config.Some? && forall k :: 0 <= k < |config.value| ==> JobSpec(k, config.value[k], env, world(k)).outcome.Pass?
  {
    if config.Some? {
      SucceedsIffAllSucceed(JobTraces(config.value, EnvOf(versionFlag, uid, gid, codec), world));
    }
  }

  /** Every step of a job carries that job's index. */
  lemma JobStepsAreTagged(k: nat, job: AbiConfig, r: StepResults)
    ensures forall s :: s in JobRun(k, job, r).steps ==> s.job == k
  {
    var t := JobRun(k, job, r);
    var load := LoadedAbi(k, job.abi, job.kind);
    if r.loadAbi.Err? {
      assert t.steps == [load];
    } else {
      var run := r.runAbigen(r.loadAbi.value);
      var bindings := [load, RanAbigen(k, run.events)];
      if run.outcome.Fail? || !job.deployedBytecode {
        assert t.steps == bindings;
      } else if job.kind != Loader.Foundry {
        assert t.steps == bindings + [CheckedBytecodeType(k)];
      } else {
        var s4 := bindings + [CheckedBytecodeType(k), LoadedBytecode(k, job.abi)];
        if r.loadBytecode.Err? {
          assert t.steps == s4;
        } else {
          var emitted := r.emitBytecode(r.loadBytecode.value);
          assert t.steps == s4 + [EmittedBytecode(k, VarsPath(job.output), emitted.file)];
        }
      }
    }
  }

  predicate Tagged(runs: seq<LaunchTrace>) {
    forall k, s :: 0 <= k < |runs| && s in runs[k].steps ==> s.job == k
  }

  lemma TaggedPrefix(runs: seq<LaunchTrace>)
    requires |runs| > 0 && Tagged(runs)
    ensures Tagged(runs[..|runs| - 1])
  {
    var shorter := runs[..|runs| - 1];
    forall k, s | 0 <= k < |shorter| && s in shorter[k].steps ensures s.job == k {
      assert shorter[k] == runs[k];
    }
  }

  /** Jobs run in order: every step belongs to one of the jobs, and the job
      indices of the steps never decrease. */
  lemma {:induction false} StepsInJobOrder(runs: seq<LaunchTrace>)
    requires Tagged(runs)
    ensures var t := Sequenced(runs);
      && (forall i :: 0 <= i < |t.steps| ==> t.steps[i].job < |runs|)
      && (forall i, j :: 0 <= i < j < |t.steps| ==> t.steps[i].job <= t.steps[j].job)
  {
    if |runs| > 0 {
      var n := |runs|;
      var shorter := runs[..n - 1];
      TaggedPrefix(runs);
      StepsInJobOrder(shorter);
      var before := Sequenced(shorter);
      assert forall i :: 0 <= i < |Sequenced(shorter).steps| ==> Sequenced(shorter).steps[i].job < |shorter|;
      assert forall i, j :: 0 <= i < j < |Sequenced(shorter).steps| ==>
        Sequenced(shorter).steps[i].job <= Sequenced(shorter).steps[j].job;
      if before.outcome.Pass? {
        var last := runs[n - 1].steps;
        var t := Sequenced(runs).steps;
        assert t == before.steps + last;
        var m := |before.steps|;
        forall i | m <= i < |t| ensures t[i].job == n - 1 {
          assert t[i] == last[i - m];
          assert last[i - m] in runs[n - 1].steps;
        }
        forall i | 0 <= i < |t| ensures t[i].job < n {
          if i < m {
            assert t[i] == before.steps[i];
          }
        }
        forall i, j | 0 <= i < j < |t| ensures t[i].job <= t[j].job {
          if j < m {
            assert t[i] == before.steps[i] && t[j] == before.steps[j];
          } else if i < m {
            assert t[i] == before.steps[i];
            assert before.steps[i].job < n - 1;
            assert t[j].job == n - 1;
          } else {
            assert t[i].job == n - 1 && t[j].job == n - 1;
          }
        }
      }
    }
  }

  /** The run failed first at job `f`: every job before it succeeded, the
      run has `f`'s outcome and no step belongs to a later job. */
  predicate FailedFirstAt(runs: seq<LaunchTrace>, f: int) {
    && 0 <= f < |runs|
    && (forall k :: 0 <= k < f ==> runs[k].outcome.Pass?)
    && runs[f].outcome == Sequenced(runs).outcome
    && forall i :: 0 <= i < |Sequenced(runs).steps| ==> Sequenced(runs).steps[i].job <= f
  }

  /** None after the first failure: a failed run failed first at some job. */
  lemma {:induction false} FirstFailureEndsRun(runs: seq<LaunchTrace>)
    requires Tagged(runs)
    requires Sequenced(runs).outcome.Fail?
    ensures exists f :: FailedFirstAt(runs, f)
  {
    var n := |runs|;
    var shorter := runs[..n - 1];
    TaggedPrefix(runs);
    var before := Sequenced(shorter);
    if before.outcome.Pass? {
      SucceedsIffAllSucceed(shorter);
      StepsInJobOrder(runs);
      assert forall k :: 0 <= k < n - 1 ==> runs[k] == shorter[k];
      assert FailedFirstAt(runs, n - 1);
    } else {
      FirstFailureEndsRun(shorter);
      var f :| FailedFirstAt(shorter, f);
      assert Sequenced(runs) == before;
      assert forall k :: 0 <= k <= f ==> runs[k] == shorter[k];
      assert FailedFirstAt(runs, f);
    }
  }

  /** A step of the run is a step of its job's own trace. */
  lemma {:induction false} StepInRun(runs: seq<LaunchTrace>, s: Step)
    requires Tagged(runs)
    requires s in Sequenced(runs).steps
    ensures s.job < |runs| && s in runs[s.job].steps
  {
    var n := |runs|;
    var shorter := runs[..n - 1];
    TaggedPrefix(runs);
    if s in Sequenced(shorter).steps {
      StepInRun(shorter, s);
      assert shorter[s.job] == runs[s.job];
    }
  }

  /** The job traces of a configuration are tagged with their positions. */
  lemma JobTracesTagged(jobs: seq<AbiConfig>, env: Env, world: nat -> JobWorld)
    ensures Tagged(JobTraces(jobs, env, world))
  {
    var runs := JobTraces(jobs, env, world);
    forall k, s | 0 <= k < |runs| && s in runs[k].steps ensures s.job == k {
      JobStepsAreTagged(k, jobs[k], StepResultsOf(jobs[k], env, world(k)));
    }
  }

  /** The same, for the configured jobs of a run. */
  lemma LaunchJobOrder(config: Option<seq<AbiConfig>>, versionFlag: string, uid: nat, gid: nat,
                       codec: JsonCodec, world: nat -> JobWorld)
    requires config.Some?
    ensures var env := EnvOf(versionFlag, uid, gid, codec);
      var t := ExpectedLaunch(config, versionFlag, uid, gid, codec, world);
      var jobs := config.value;
      && (forall i, j :: 0 <= i < j < |t.steps| ==> t.steps[i].job <= t.steps[j].job)
      && (t.outcome.Fail? ==>
            exists f :: 0 <= f < |jobs|
              && (forall k :: 0 <= k < f ==> JobSpec(k, jobs[k], env, world(k)).outcome.Pass?)
              && JobSpec(f, jobs[f], env, world(f)).outcome == t.outcome
              && forall i :: 0 <= i < |t.steps| ==> t.steps[i].job <= f)
  {
    var env := EnvOf(versionFlag, uid, gid, codec);
    var runs := JobTraces(config.value, env, world);
    JobTracesTagged(config.value, env, world);
    StepsInJobOrder(runs);
    if Sequenced(runs).outcome.Fail? {
      FirstFailureEndsRun(runs);
      var f :| FailedFirstAt(runs, f);
      assert 0 <= f < |config.value|;
    }
  }

  /** The fixed order of one job's steps. */
  function Planned(job: AbiConfig): seq<StepKind> {
    if job.deployedBytecode then [LoadAbiStep, AbigenStep, TypeCheckStep, BytecodeLoadStep, EmitStep]
    else [LoadAbiStep, AbigenStep]
  }

  /** The step whose failure an error reports. */
  function FailedAt(e: LaunchError): StepKind
    requires !e.ConfigLoadFailed?
  {
    match e
    case AbiLoadFailed(_, _) => LoadAbiStep
    case BindingsFailed(_, _) => AbigenStep
    case BytecodeTypeViolation => TypeCheckStep
    case BytecodeLoadFailed(_, _) => BytecodeLoadStep
    case BytecodeEmitFailed(_) => EmitStep
  }

  /** A job attempts a non-empty prefix of its planned steps, all of them
      when it succeeds; when it fails, the last step attempted is the one
      its error reports. */
  lemma JobStepOrder(k: nat, job: AbiConfig, r: StepResults)
    ensures var t, p := JobRun(k, job, r), Planned(job);
      && 0 < |t.steps| <= |p|
      && Kinds(t.steps) == p[..|t.steps|]
      && (t.outcome.Pass? ==> |t.steps| == |p|)
      && (t.outcome.Fail? ==> && !t.outcome.error.ConfigLoadFailed?
                              && KindOf(t.steps[|t.steps| - 1]) == FailedAt(t.outcome.error))
  {
    var t := JobRun(k, job, r);
    var load := LoadedAbi(k, job.abi, job.kind);
    if r.loadAbi.Err? {
      assert t.steps == [load];
    } else {
      var run := r.runAbigen(r.loadAbi.value);
      var bindings := [load, RanAbigen(k, run.events)];
      if run.outcome.Fail? || !job.deployedBytecode {
        assert t.steps == bindings;
      } else if job.kind != Loader.Foundry {
        assert t.steps == bindings + [CheckedBytecodeType(k)];
      } else {
        var s4 := bindings + [CheckedBytecodeType(k), LoadedBytecode(k, job.abi)];
        if r.loadBytecode.Err? {
          assert t.steps == s4;
        } else {
          var emitted := r.emitBytecode(r.loadBytecode.value);
          assert t.steps == s4 + [EmittedBytecode(k, VarsPath(job.output), emitted.file)];
        }
      }
    }
  }

  /** The foundry-only check on bytecode fails a job exactly when the job
      asks for bytecode, is not of type "foundry", and its ABI load and its
      generator run have already succeeded; it is then the third step. */
  lemma TypeViolationAfterBindings(k: nat, job: AbiConfig, r: StepResults)
    ensures var t := JobRun(k, job, r);
      && (t.outcome == Fail(BytecodeTypeViolation) <==>
            && job.deployedBytecode && job.kind != Loader.Foundry && r.loadAbi.Ok?
            && r.runAbigen(r.loadAbi.value).outcome.Pass?)
      && (t.outcome == Fail(BytecodeTypeViolation) ==> |t.steps| == 3 && t.steps[1].RanAbigen?)
  {
  }

  /** Since an unknown type already fails at the ABI load, the type that
      violates the foundry-only rule is always "file". */
  lemma TypeViolationMeansFileType(k: nat, job: AbiConfig, env: Env, w: JobWorld)
    requires JobSpec(k, job, env, w).outcome == Fail(BytecodeTypeViolation)
    ensures job.kind == Loader.File
  {
    TypeViolationAfterBindings(k, job, StepResultsOf(job, env, w));
  }

  /** The bytecode step writes to `vars.go` beside the output, with what the
      emission of the extracted bytes yields. */
  lemma BytecodeStepOfJob(k: nat, job: AbiConfig, r: StepResults, s: Step)
    requires s in JobRun(k, job, r).steps && s.EmittedBytecode?
    ensures s.path == VarsPath(job.output)
    ensures r.loadBytecode.Ok? && s.effect == r.emitBytecode(r.loadBytecode.value).file
  {
  }

  /** The bytes go to `vars.go` in the output's directory, under the
      variable name `DeployedBytecode` and the job's own package; a failed
      emission names that path too. */
  lemma BytecodeDestination(k: nat, job: AbiConfig, env: Env, w: JobWorld, s: Step)
    requires s in JobSpec(k, job, env, w).steps && s.EmittedBytecode?
    ensures s.path == VarsPath(job.output)
    ensures s.effect != Foundry.Untouched ==> s.effect.path == VarsPath(job.output)
    ensures Foundry.LoadDeployedBytecode(w.bytecodeFile, env.codec).Ok?
    ensures s.effect.Written? ==>
      s.effect.text == Foundry.RenderSource(job.package, "DeployedBytecode",
                                            Foundry.Formatted(Foundry.LoadDeployedBytecode(w.bytecodeFile, env.codec).value))
  {
    BytecodeStepOfJob(k, job, StepResultsOf(job, env, w), s);
  }

  /** For a clean output path, `vars.go` sits in the same directory as the
      generated bindings. */
  lemma VarsFileIsSibling(output: string)
    requires IsCleanFilePath(output)
    ensures Dir(VarsPath(output)) == Dir(output)
    ensures Base(VarsPath(output)) == "vars.go"
  {
    DirBaseJoin(output);
    JoinDirBase(Dir(output), VarsFileName);
  }

  /** Every container of the run uses the image of the one effective version. */
  lemma SameVersionEverywhere(config: Option<seq<AbiConfig>>, versionFlag: string, uid: nat, gid: nat,
                              codec: JsonCodec, world: nat -> JobWorld, s: Step, e: Binder.Event)
    requires s in ExpectedLaunch(config, versionFlag, uid, gid, codec, world).steps
    requires s.RanAbigen? && e in s.events && e.ContainerRequested?
    ensures e.req.image == Binder.ImagePrefix + EffectiveVersion(versionFlag)
  {
    var env := EnvOf(versionFlag, uid, gid, codec);
    var jobs := config.value;
    var runs := JobTraces(jobs, env, world);
    JobTracesTagged(jobs, env, world);
    StepInRun(runs, s);
    var k := s.job;
    AbigenStepUsesVersion(k, jobs[k], env, world(k), s, e);
  }

  /** The generator step records the events of the generator run on the
      loaded ABI. */
  lemma AbigenStepOfJob(k: nat, job: AbiConfig, r: StepResults, s: Step)
    requires s in JobRun(k, job, r).steps && s.RanAbigen?
    ensures r.loadAbi.Ok? && s.events == r.runAbigen(r.loadAbi.value).events
  {
  }

  /** Within one job, the container of its generator run carries the job's
      version. */
  lemma AbigenStepUsesVersion(k: nat, job: AbiConfig, env: Env, w: JobWorld, s: Step, e: Binder.Event)
    requires s in JobSpec(k, job, env, w).steps
    requires s.RanAbigen? && e in s.events && e.ContainerRequested?
    ensures e.req.image == Binder.ImagePrefix + env.version
  {
    var r := StepResultsOf(job, env, w);
    AbigenStepOfJob(k, job, r, s);
    Binder.ContainerRequestOfRun(r.loadAbi.value, env.version, job.output, job.package, env.uid, env.gid, w.abigen, e);
  }

  /** Load and generation failures name the failing job's ABI path. */
  lemma ErrorsNameTheJob(k: nat, job: AbiConfig, r: StepResults)
    ensures var t := JobRun(k, job, r);
      t.outcome.Fail? && (t.outcome.error.AbiLoadFailed? || t.outcome.error.BindingsFailed? || t.outcome.error.BytecodeLoadFailed?)
      ==> t.outcome.error.abiPath == job.abi
    ensures JobRun(k, job, r).outcome != Fail(ConfigLoadFailed)
  {
  }
}

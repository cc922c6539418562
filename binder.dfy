/** The container orchestrator (internal/binder/binder.go): stage the ABI
    bytes in a temporary file, build the container request, run the
    generator, and release the file and the container on the way out. */
module Binder {
  import opened Wrappers
  import opened Paths
  import Decimal

  // ---------------------------------------------------------------------
  // The container request

  /** A bind mount: host directory, path inside the container, read-only flag. */
  datatype Mount = Mount(hostDir: string, target: string, readOnly: bool)

  /** `wait.ForExit().WithPollInterval(time.Second)`. */
  datatype WaitStrategy = ForExit(pollIntervalSeconds: nat)

  datatype ContainerRequest = ContainerRequest(
    image: string,
    cmd: seq<string>,
    autoRemove: bool,
    waitingFor: WaitStrategy,
    mounts: seq<Mount>,
    user: string)

  const ImagePrefix: string := "ethereum/client-go:alltools-"
  const AbiMountTarget: string := "/contracts"
  const OutputMountTarget: string := "/output"

  /** `testcontainers.BindMount`: a writable bind mount. */
  function BindMount(hostDir: string, target: string): Mount {
    Mount(hostDir, target, false)
  }

  /** `createMounts`: the ABI file's directory, then made read-only, and the
      output file's directory. */
  function CreateMounts(abiFilePath: string, outputPath: string): seq<Mount> {
    var abiMount := BindMount(Dir(abiFilePath), AbiMountTarget);
    var abiMount := abiMount.(readOnly := true);
    var outputMount := BindMount(Dir(outputPath), OutputMountTarget);
    [abiMount, outputMount]
  }

  /** `fmt.Sprintf("%d:%d", uid, gid)`. */
  function UserSpec(uid: nat, gid: nat): string {
    Decimal.Digits(uid) + ":" + Decimal.Digits(gid)
  }

  /** `createContainerRequest`. The version is used as given: an empty one
      leaves the image name ending in "-". */
  function CreateContainerRequest(toolchainVersion: string, abiFile: string, outputPath: string,
                                  outputPackageName: string, uid: nat, gid: nat): ContainerRequest
  {
    var outputFile := Base(outputPath);
    ContainerRequest(
      image := ImagePrefix + toolchainVersion,
      cmd := ["abigen",
              Flag("abi", Join(AbiMountTarget, Base(abiFile))),
              Flag("pkg", outputPackageName),
              Flag("out", Join(OutputMountTarget, outputFile))],
      autoRemove := true,
      waitingFor := ForExit(1),
      mounts := CreateMounts(abiFile, outputPath),
      user := UserSpec(uid, gid))
  }

  /** Where a path inside the container lands on the host: the first mount
      whose target is its directory, with the read-only flag of that mount. */
  function Resolve(mounts: seq<Mount>, containerPath: string): Option<(string, bool)> {
    if |mounts| == 0 then None
    else if Dir(containerPath) == mounts[0].target && IsElement(Base(containerPath)) then
      Some((Join(mounts[0].hostDir, Base(containerPath)), mounts[0].readOnly))
    else Resolve(mounts[1..], containerPath)
  }

  /** A `--name=value` argument. */
  function Flag(name: string, value: string): string {
    "--" + name + "=" + value
  }

  /** The value of a `--flag=value` argument. */
  function FlagValue(arg: string, flag: string): Option<string> {
    var prefix := "--" + flag + "=";
    if |prefix| <= |arg| && arg[..|prefix|] == prefix then Some(arg[|prefix|..]) else None
  }

  /** The request has the image for exactly the given version, the four
      arguments in order, auto-removal, exit waiting polled every second,
      two mounts (the ABI directory read-only on /contracts, then the
      output directory writable on /output) and the uid:gid user. */
  lemma RequestShape(toolchainVersion: string, abiFile: string, outputPath: string,
                     outputPackageName: string, uid: nat, gid: nat)
    ensures var req := CreateContainerRequest(toolchainVersion, abiFile, outputPath, outputPackageName, uid, gid);
      && |req.image| >= |ImagePrefix| && req.image[..|ImagePrefix|] == ImagePrefix
      && req.image[|ImagePrefix|..] == toolchainVersion
      && |req.cmd| == 4 && req.cmd[0] == "abigen"
      && FlagValue(req.cmd[2], "pkg") == Some(outputPackageName)
      && req.autoRemove && req.waitingFor == ForExit(1)
      && req.mounts == [Mount(Dir(abiFile), "/contracts", true), Mount(Dir(outputPath), "/output", false)]
      && req.user == UserSpec(uid, gid)
  {
    FlagValueOf("pkg", outputPackageName);
  }

  /** The four arguments: `abigen`, the ABI file's base name under
      /contracts, the package, and the output file's base name under
      /output. */
  lemma CommandArguments(toolchainVersion: string, abiFile: string, outputPath: string,
                         outputPackageName: string, uid: nat, gid: nat)
    ensures CreateContainerRequest(toolchainVersion, abiFile, outputPath, outputPackageName, uid, gid).cmd
         == ["abigen",
             Flag("abi", "/contracts/" + Base(abiFile)),
             Flag("pkg", outputPackageName),
             Flag("out", "/output/" + Base(outputPath))]
  {
    UnderTarget(AbiMountTarget, Base(abiFile));
    UnderTarget(OutputMountTarget, Base(outputPath));
    assert AbiMountTarget + "/" == "/contracts/";
    assert OutputMountTarget + "/" == "/output/";
  }

  lemma UnderTarget(target: string, e: string)
    requires target == AbiMountTarget || target == OutputMountTarget
    ensures Join(target, e) == target + "/" + e
  {
  }

  lemma EmptyVersionImage(abiFile: string, outputPath: string, outputPackageName: string, uid: nat, gid: nat)
    ensures CreateContainerRequest("", abiFile, outputPath, outputPackageName, uid, gid).image
            == "ethereum/client-go:alltools-"
  {
  }

  /** The user field splits at its one ':' into the decimal uid and gid. */
  lemma UserRoundTrip(uid: nat, gid: nat)
    ensures var u := UserSpec(uid, gid); var i := |Decimal.Digits(uid)|;
      && i < |u| && u[i] == ':'
      && (forall k :: 0 <= k < |u| && k != i ==> u[k] != ':')
      && Decimal.AllDigits(u[..i]) && Decimal.Value(u[..i]) == uid
      && Decimal.AllDigits(u[i + 1..]) && Decimal.Value(u[i + 1..]) == gid
  {
    var u, a, b := UserSpec(uid, gid), Decimal.Digits(uid), Decimal.Digits(gid);
    assert u[..|a|] == a && u[|a| + 1..] == b;
    forall k | 0 <= k < |u| && k != |a| ensures u[k] != ':' {
      if k < |a| { assert u[k] == a[k]; assert a[k] in a; }
      else { assert u[k] == b[k - |a| - 1]; assert b[k - |a| - 1] in b; }
    }
    Decimal.ValueOfDigits(uid);
    Decimal.ValueOfDigits(gid);
  }

  lemma FlagValueOf(flag: string, v: string)
    ensures FlagValue(Flag(flag, v), flag) == Some(v)
  {
    var prefix := "--" + flag + "=";
    assert Flag(flag, v) == prefix + v;
    assert (prefix + v)[..|prefix|] == prefix;
    assert (prefix + v)[|prefix|..] == v;
  }

  lemma MountTargetsAreClean()
    ensures IsCleanFilePath(AbiMountTarget) && IsCleanFilePath(OutputMountTarget)
  {
    LastSlashAt(AbiMountTarget, 0);
    LastSlashAt(OutputMountTarget, 0);
    assert AbiMountTarget[1..] == "contracts";
    assert OutputMountTarget[1..] == "output";
  }

  /** A file directly under a mount target resolves to the host file of the
      same name in the mount's directory. */
  lemma ResolveUnderTarget(m: Mount, rest: seq<Mount>, e: string)
    requires IsCleanFilePath(m.target) && IsElement(e)
    ensures Join(m.target, e) == m.target + "/" + e
    ensures Resolve([m] + rest, m.target + "/" + e) == Some((Join(m.hostDir, e), m.readOnly))
  {
    NoSlashAtEnd(m.target);
    JoinDirBase(m.target, e);
    assert ([m] + rest)[0] == m;
  }

  /** Coherence of the `--abi` argument with the mounts: for a clean path,
      the file it names inside the container resolves to the staged ABI
      file itself, on a read-only mount. */
  lemma AbiArgumentDesignatesAbiFile(toolchainVersion: string, abiFile: string, outputPath: string,
                                     outputPackageName: string, uid: nat, gid: nat)
    requires IsCleanFilePath(abiFile)
    ensures var req := CreateContainerRequest(toolchainVersion, abiFile, outputPath, outputPackageName, uid, gid);
      && FlagValue(req.cmd[1], "abi").Some?
      && Resolve(req.mounts, FlagValue(req.cmd[1], "abi").value) == Some((abiFile, true))
  {
    var req := CreateContainerRequest(toolchainVersion, abiFile, outputPath, outputPackageName, uid, gid);
    var a := Base(abiFile);
    var ma, mo := Mount(Dir(abiFile), AbiMountTarget, true), Mount(Dir(outputPath), OutputMountTarget, false);
    assert req.mounts == [ma] + [mo];
    assert req.cmd[1] == Flag("abi", Join(AbiMountTarget, a));
    DirBaseJoin(abiFile);
    MountTargetsAreClean();
    ResolveUnderTarget(ma, [mo], a);
    FlagValueOf("abi", Join(AbiMountTarget, a));
  }

  /** Coherence of the `--out` argument with the mounts: for a clean path,
      the file it names inside the container resolves to the output file,
      on a writable mount. */
  lemma OutArgumentDesignatesOutputFile(toolchainVersion: string, abiFile: string, outputPath: string,
                                        outputPackageName: string, uid: nat, gid: nat)
    requires IsCleanFilePath(outputPath)
    ensures var req := CreateContainerRequest(toolchainVersion, abiFile, outputPath, outputPackageName, uid, gid);
      && FlagValue(req.cmd[3], "out").Some?
      && Resolve(req.mounts, FlagValue(req.cmd[3], "out").value) == Some((outputPath, false))
  {
    var req := CreateContainerRequest(toolchainVersion, abiFile, outputPath, outputPackageName, uid, gid);
    var o := Base(outputPath);
    var ma, mo := Mount(Dir(abiFile), AbiMountTarget, true), Mount(Dir(outputPath), OutputMountTarget, false);
    assert req.mounts == [ma] + [mo];
    assert req.cmd[3] == Flag("out", Join(OutputMountTarget, o));
    DirBaseJoin(outputPath);
    MountTargetsAreClean();
    ResolveUnderTarget(mo, [], o);
    FlagValueOf("out", Join(OutputMountTarget, o));
    JoinDirBase(OutputMountTarget, o);
    assert Dir(Join(OutputMountTarget, o)) != ma.target by {
      assert |OutputMountTarget| != |AbiMountTarget|;
    }
    assert ([ma] + [mo])[1..] == [mo] + [];
  }

  // ---------------------------------------------------------------------
  // RunAbigen and writeABIDataToFile

  /** Outcomes of the effectful steps, in the order `RunAbigen` takes them:
      `os.CreateTemp` (the name of the new file, or failure), the write,
      `os.Getwd` (consulted by `filepath.Abs` for a relative path),
      `os.MkdirAll`, and starting the container and waiting for its exit.
      The generator's own exit status is not observed by the source. */
  datatype AbigenWorld = AbigenWorld(
    tempFile: Option<string>,
    writeOk: bool,
    workingDir: Option<string>,
    mkdirOk: bool,
    startOk: bool)

  datatype StagingError =
    | TempCreateFailed  // "failed to create temporary ABI file"
    | TempWriteFailed   // "failed to write ABI data to file"

  datatype AbigenError =
    | EmptyInput                         // "empty abi data"
    | StagingFailed(cause: StagingError) // "failed to write ABI data to file"
    | OutputPathFailed                   // "failed to resolve output path"
    | OutputDirFailed                    // "failed to create output directory"
    | ContainerStartFailed               // "failed to start container"

  /** Host effects, in the order they happen. */
  datatype Event =
    | CreatedTemp(path: string)
    | WroteTemp(path: string, data: seq<Byte>)
    | ClosedTemp(path: string)
    | RemovedTemp(path: string)
    | MadeDirs(dir: string)
    | ContainerRequested(req: ContainerRequest)  // a start was attempted, whether or not it succeeded
    | TerminatedContainer

  datatype AbigenTrace = AbigenTrace(outcome: Outcome<AbigenError>, events: seq<Event>)

  /** Deferred calls run last-registered first. */
  function Unwind(deferred: seq<Event>): (r: seq<Event>)
    ensures |r| == |deferred|
    ensures forall i :: 0 <= i < |r| ==> r[i] == deferred[|deferred| - 1 - i]
  {
    if |deferred| == 0 then [] else [deferred[|deferred| - 1]] + Unwind(deferred[..|deferred| - 1])
  }

  /** `writeABIDataToFile`: create the file, defer its closing, write. A
      failed write returns the error without removing the file. */
  method WriteAbiDataToFile(abiData: seq<Byte>, created: Option<string>, writeOk: bool)
    returns (r: Result<string, StagingError>, events: seq<Event>)
    ensures created.None? ==> r == Err(TempCreateFailed) && events == []
    ensures created.Some? ==>
      && events == [CreatedTemp(created.value), WroteTemp(created.value, abiData), ClosedTemp(created.value)]
      && r == (if writeOk then Ok(created.value) else Err(TempWriteFailed))
  {
    events := [];
    if created.None? {
      return Err(TempCreateFailed), events;
    }
    var tmpFile := created.value;
    events := events + [CreatedTemp(tmpFile)];
    var deferred := [ClosedTemp(tmpFile)];
    events := events + [WroteTemp(tmpFile, abiData)];
    if !writeOk {
      return Err(TempWriteFailed), events + Unwind(deferred);
    }
    return Ok(tmpFile), events + Unwind(deferred);
  }

  /** The control flow of `RunAbigen` for a given absolute output path
      (None when it cannot be resolved) and a given way of building the
      container request from the staged file and that path: every exit
      path, with the result and the host effects in order. */
  function AbigenFlow(abiData: seq<Byte>, w: AbigenWorld, abs: Option<string>,
                      mk: (string, string) -> ContainerRequest): AbigenTrace
  {
    if |abiData| == 0 then AbigenTrace(Fail(EmptyInput), [])
    else if w.tempFile.None? then AbigenTrace(Fail(StagingFailed(TempCreateFailed)), [])
    else
      var tmp := w.tempFile.value;
      var staged := [CreatedTemp(tmp), WroteTemp(tmp, abiData), ClosedTemp(tmp)];
      if !w.writeOk then AbigenTrace(Fail(StagingFailed(TempWriteFailed)), staged)
      else if abs.None? then AbigenTrace(Fail(OutputPathFailed), staged + [RemovedTemp(tmp)])
      else
        var made := staged + [MadeDirs(Dir(abs.value))];
        if !w.mkdirOk then AbigenTrace(Fail(OutputDirFailed), made + [RemovedTemp(tmp)])
        else
          var ran := made + [ContainerRequested(mk(tmp, abs.value))];
          if !w.startOk then AbigenTrace(Fail(ContainerStartFailed), ran + [RemovedTemp(tmp)])
          else AbigenTrace(Pass, ran + [TerminatedContainer, RemovedTemp(tmp)])
  }

  /** The request `RunAbigen` builds from the staged file and the absolute
      output path. */
  function RequestMaker(toolchainVersion: string, outputPackageName: string, uid: nat, gid: nat)
    : (string, string) -> ContainerRequest
  {
    (tmp: string, out: string) => CreateContainerRequest(toolchainVersion, tmp, out, outputPackageName, uid, gid)
  }

  /** Every exit path of `RunAbigen`: the result and the host effects in
      order. */
  function ExpectedAbigen(abiData: seq<Byte>, toolchainVersion: string, outPath: string,
                          outputPackageName: string, uid: nat, gid: nat, w: AbigenWorld): AbigenTrace
  {
    AbigenFlow(abiData, w, Abs(outPath, w.workingDir), RequestMaker(toolchainVersion, outputPackageName, uid, gid))
  }

  /** `RunAbigen`, with Go's `defer` as a stack of cleanups unwound at every
      return. */
  method RunAbigen(abiData: seq<Byte>, toolchainVersion: string, outPath: string,
                   outputPackageName: string, uid: nat, gid: nat, w: AbigenWorld)
    returns (r: Outcome<AbigenError>, events: seq<Event>)
    ensures AbigenTrace(r, events) == ExpectedAbigen(abiData, toolchainVersion, outPath, outputPackageName, uid, gid, w)
  {
    events := [];
    if |abiData| == 0 {
      return Fail(EmptyInput), events;
    }
    var deferred: seq<Event> := [];
    var staged, stagingEvents := WriteAbiDataToFile(abiData, w.tempFile, w.writeOk);
    events := events + stagingEvents;
    if staged.Err? {
      return Fail(StagingFailed(staged.error)), events + Unwind(deferred);
    }
    var abiFilePath := staged.value;
    deferred := deferred + [RemovedTemp(abiFilePath)];
    assert Unwind(deferred) == [RemovedTemp(abiFilePath)];
    assert events == [CreatedTemp(abiFilePath), WroteTemp(abiFilePath, abiData), ClosedTemp(abiFilePath)];
    var absOut := Abs(outPath, w.workingDir);
    if absOut.None? {
      return Fail(OutputPathFailed), events + Unwind(deferred);
    }
    var out := absOut.value;
    events := events + [MadeDirs(Dir(out))];
    if !w.mkdirOk {
      return Fail(OutputDirFailed), events + Unwind(deferred);
    }
    var containerReq := CreateContainerRequest(toolchainVersion, abiFilePath, out, outputPackageName, uid, gid);
    assert containerReq == RequestMaker(toolchainVersion, outputPackageName, uid, gid)(abiFilePath, out);
    events := events + [ContainerRequested(containerReq)];
    if !w.startOk {
      return Fail(ContainerStartFailed), events + Unwind(deferred);
    }
    deferred := deferred + [TerminatedContainer];
    assert Unwind(deferred) == [TerminatedContainer, RemovedTemp(abiFilePath)];
    return Pass, events + Unwind(deferred);
  }

  /** All steps that can fail succeed exactly when the run succeeds. */
  predicate AllStepsSucceed(abiData: seq<Byte>, outPath: string, w: AbigenWorld) {
    |abiData| > 0 && w.tempFile.Some? && w.writeOk && Abs(outPath, w.workingDir).Some? && w.mkdirOk && w.startOk
  }

  lemma AbigenSucceedsIff(abiData: seq<Byte>, toolchainVersion: string, outPath: string,
                          outputPackageName: string, uid: nat, gid: nat, w: AbigenWorld)
    ensures ExpectedAbigen(abiData, toolchainVersion, outPath, outputPackageName, uid, gid, w).outcome.Pass?
            <==> AllStepsSucceed(abiData, outPath, w)
  {
  }

  /** Empty ABI data is refused before any file, directory or container step. */
  lemma EmptyInputHasNoEffects(toolchainVersion: string, outPath: string,
                               outputPackageName: string, uid: nat, gid: nat, w: AbigenWorld)
    ensures ExpectedAbigen([], toolchainVersion, outPath, outputPackageName, uid, gid, w) == AbigenTrace(Fail(EmptyInput), [])
  {
  }

  function CountRemovals(events: seq<Event>, p: string): nat {
    if |events| == 0 then 0
    else (if events[0] == RemovedTemp(p) then 1 else 0) + CountRemovals(events[1..], p)
  }

  lemma {:induction false} CountRemovalsAppend(a: seq<Event>, b: seq<Event>, p: string)
    ensures CountRemovals(a + b, p) == CountRemovals(a, p) + CountRemovals(b, p)
  {
    if |a| > 0 {
      assert (a + b)[1..] == a[1..] + b;
      CountRemovalsAppend(a[1..], b, p);
    } else {
      assert a + b == b;
    }
  }

  /** Once the staged file has been written, it is removed exactly once, as
      the very last effect, on every return path. */
  lemma StagedFileAlwaysRemoved(abiData: seq<Byte>, toolchainVersion: string, outPath: string,
                                outputPackageName: string, uid: nat, gid: nat, w: AbigenWorld)
    requires |abiData| > 0 && w.tempFile.Some? && w.writeOk
    ensures var ev := ExpectedAbigen(abiData, toolchainVersion, outPath, outputPackageName, uid, gid, w).events;
      && |ev| > 0 && ev[|ev| - 1] == RemovedTemp(w.tempFile.value)
      && CountRemovals(ev, w.tempFile.value) == 1
  {
    FlowRemovesStagedFile(abiData, w, Abs(outPath, w.workingDir), RequestMaker(toolchainVersion, outputPackageName, uid, gid));
  }

  lemma FlowRemovesStagedFile(abiData: seq<Byte>, w: AbigenWorld, abs: Option<string>,
                              mk: (string, string) -> ContainerRequest)
    requires |abiData| > 0 && w.tempFile.Some? && w.writeOk
    ensures var ev := AbigenFlow(abiData, w, abs, mk).events;
      && |ev| > 0 && ev[|ev| - 1] == RemovedTemp(w.tempFile.value)
      && CountRemovals(ev, w.tempFile.value) == 1
  {
    var tmp := w.tempFile.value;
    var t := AbigenFlow(abiData, w, abs, mk);
    var staged := [CreatedTemp(tmp), WroteTemp(tmp, abiData), ClosedTemp(tmp)];
    var made := if abs.Some? then staged + [MadeDirs(Dir(abs.value))] else staged;
    var ran := if abs.Some? then made + [ContainerRequested(mk(tmp, abs.value))] else made;
    var pre :=
      if abs.None? then staged
      else if !w.mkdirOk then made
      else if !w.startOk then ran
      else ran + [TerminatedContainer];
    assert t.events == pre + [RemovedTemp(tmp)];
    assert forall i :: 0 <= i < |pre| ==> !pre[i].RemovedTemp?;
    RemovalFree(pre, tmp);
    CountRemovalsAppend(pre, [RemovedTemp(tmp)], tmp);
    assert [RemovedTemp(tmp)][1..] == [];
  }

  lemma {:induction false} RemovalFree(events: seq<Event>, p: string)
    requires forall i :: 0 <= i < |events| ==> !events[i].RemovedTemp?
    ensures CountRemovals(events, p) == 0
  {
    if |events| > 0 {
      RemovalFree(events[1..], p);
    }
  }

  /** A failed write leaks the temporary file: it was created and is never
      removed. */
  lemma WriteFailureLeaksTempFile(abiData: seq<Byte>, toolchainVersion: string, outPath: string,
                                  outputPackageName: string, uid: nat, gid: nat, w: AbigenWorld)
    requires |abiData| > 0 && w.tempFile.Some? && !w.writeOk
    ensures var t := ExpectedAbigen(abiData, toolchainVersion, outPath, outputPackageName, uid, gid, w);
      && t.outcome == Fail(StagingFailed(TempWriteFailed))
      && CreatedTemp(w.tempFile.value) in t.events
      && RemovedTemp(w.tempFile.value) !in t.events
  {
  }

  /** The container is terminated exactly when it was started successfully,
      which is exactly when the run succeeds; termination comes after the
      run and before the staged file is removed. */
  lemma TerminateOnlyAfterStart(abiData: seq<Byte>, toolchainVersion: string, outPath: string,
                                outputPackageName: string, uid: nat, gid: nat, w: AbigenWorld)
    ensures var t := ExpectedAbigen(abiData, toolchainVersion, outPath, outputPackageName, uid, gid, w);
      && (TerminatedContainer in t.events <==> t.outcome.Pass?)
      && (t.outcome.Pass? ==>
            var n := |t.events|;
            && n >= 3 && t.events[n - 2] == TerminatedContainer && t.events[n - 3].ContainerRequested?)
  {
    FlowTerminatesOnlyAfterStart(abiData, w, Abs(outPath, w.workingDir), RequestMaker(toolchainVersion, outputPackageName, uid, gid));
  }

  lemma FlowTerminatesOnlyAfterStart(abiData: seq<Byte>, w: AbigenWorld, abs: Option<string>,
                                     mk: (string, string) -> ContainerRequest)
    ensures var t := AbigenFlow(abiData, w, abs, mk);
      && (TerminatedContainer in t.events <==> t.outcome.Pass?)
      && (t.outcome.Pass? ==>
            var n := |t.events|;
            && n >= 3 && t.events[n - 2] == TerminatedContainer && t.events[n - 3].ContainerRequested?)
  {
  }

  /** Every release follows its acquisition: a removal follows the creation
      of the same file, a termination follows a container run. */
  ghost predicate ReleasesFollowAcquires(events: seq<Event>) {
    && (forall i :: 0 <= i < |events| && events[i].RemovedTemp? ==>
          exists j :: 0 <= j < i && events[j] == CreatedTemp(events[i].path))
    && (forall i :: 0 <= i < |events| && events[i] == TerminatedContainer ==>
          exists j :: 0 <= j < i && events[j].ContainerRequested?)
  }

  predicate NoReleases(events: seq<Event>) {
    forall i :: 0 <= i < |events| ==> !events[i].RemovedTemp? && events[i] != TerminatedContainer
  }

  /** The shape every non-empty trace of `RunAbigen` has: the creation of the
      file, effects that release nothing, then no cleanup, its removal, or
      termination right after the run followed by its removal. */
  lemma StagedTraceReleases(tmp: string, mid: seq<Event>, tail: seq<Event>)
    requires NoReleases(mid)
    requires || tail == [] || tail == [RemovedTemp(tmp)]
             || (|mid| > 0 && mid[|mid| - 1].ContainerRequested? && tail == [TerminatedContainer, RemovedTemp(tmp)])
    ensures ReleasesFollowAcquires([CreatedTemp(tmp)] + mid + tail)
  {
    var ev := [CreatedTemp(tmp)] + mid + tail;
    assert forall k :: 1 <= k <= |mid| ==> ev[k] == mid[k - 1];
    forall i | 0 <= i < |ev| && ev[i].RemovedTemp?
      ensures exists j :: 0 <= j < i && ev[j] == CreatedTemp(ev[i].path)
    {
      assert ev[0] == CreatedTemp(ev[i].path);
    }
    forall i | 0 <= i < |ev| && ev[i] == TerminatedContainer
      ensures exists j :: 0 <= j < i && ev[j].ContainerRequested?
    {
      assert ev[i - 1] == mid[|mid| - 1];
    }
  }

  lemma AbigenReleasesFollowAcquires(abiData: seq<Byte>, toolchainVersion: string, outPath: string,
                                     outputPackageName: string, uid: nat, gid: nat, w: AbigenWorld)
    ensures ReleasesFollowAcquires(ExpectedAbigen(abiData, toolchainVersion, outPath, outputPackageName, uid, gid, w).events)
  {
    FlowReleasesFollowAcquires(abiData, w, Abs(outPath, w.workingDir), RequestMaker(toolchainVersion, outputPackageName, uid, gid));
  }

  lemma FlowReleasesFollowAcquires(abiData: seq<Byte>, w: AbigenWorld, abs: Option<string>,
                                   mk: (string, string) -> ContainerRequest)
    ensures ReleasesFollowAcquires(AbigenFlow(abiData, w, abs, mk).events)
  {
    var ev := AbigenFlow(abiData, w, abs, mk).events;
    if |abiData| > 0 && w.tempFile.Some? {
      var tmp := w.tempFile.value;
      var staged := [WroteTemp(tmp, abiData), ClosedTemp(tmp)];
      if !w.writeOk {
        StagedTraceReleases(tmp, staged, []);
        assert ev == [CreatedTemp(tmp)] + staged + [];
      } else if abs.None? {
        StagedTraceReleases(tmp, staged, [RemovedTemp(tmp)]);
        assert ev == [CreatedTemp(tmp)] + staged + [RemovedTemp(tmp)];
      } else {
        var made := staged + [MadeDirs(Dir(abs.value))];
        if !w.mkdirOk {
          StagedTraceReleases(tmp, made, [RemovedTemp(tmp)]);
          assert ev == [CreatedTemp(tmp)] + made + [RemovedTemp(tmp)];
        } else {
          var ran := made + [ContainerRequested(mk(tmp, abs.value))];
          if !w.startOk {
            StagedTraceReleases(tmp, ran, [RemovedTemp(tmp)]);
            assert ev == [CreatedTemp(tmp)] + ran + [RemovedTemp(tmp)];
          } else {
            StagedTraceReleases(tmp, ran, [TerminatedContainer, RemovedTemp(tmp)]);
            assert ev == [CreatedTemp(tmp)] + ran + [TerminatedContainer, RemovedTemp(tmp)];
          }
        }
      }
    }
  }

  /** The container runs on the request built from the staged file and the
      absolute output path. */
  lemma ContainerRequestOfRun(abiData: seq<Byte>, toolchainVersion: string, outPath: string,
                              outputPackageName: string, uid: nat, gid: nat, w: AbigenWorld, e: Event)
    requires e in ExpectedAbigen(abiData, toolchainVersion, outPath, outputPackageName, uid, gid, w).events
    requires e.ContainerRequested?
    ensures w.tempFile.Some? && Abs(outPath, w.workingDir).Some?
    ensures e.req == CreateContainerRequest(toolchainVersion, w.tempFile.value, Abs(outPath, w.workingDir).value,
                                            outputPackageName, uid, gid)
  {
  }
}

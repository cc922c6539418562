# evm-abigen core, modelled in Dafny

evm-abigen turns the ABIs of Ethereum contracts into Go bindings. For each
entry of its configuration, it loads the ABI. The ABI is either a raw `.abi`
file or the `abi` array of a Foundry build artifact. It stages the ABI bytes
in a temporary file and runs go-ethereum's `abigen` in a Docker container.
The container's mounts map the staged file's directory and the output directory.
Optionally it extracts the contract's deployed bytecode from the Foundry
artifact and writes it as a Go byte-slice variable into `vars.go`, beside
the bindings.

This project models the core of that program, in nine modules:

- `Wrappers`: bytes, `Option` and `Result`, and the `error` return as `Outcome`.
- `Json`: an abstract JSON value. `encoding/json` is a `JsonCodec` parameter with a
  `Lawful` predicate: marshalling then unmarshalling gives the value back, and
  empty input is not JSON. Numbers carry their literal text, so values are
  finite trees over strings and an injective `marshal` can exist. Go's `map[string]any` decoding and its type
  assertions are functions over it.
- `Hex`: `hex.DecodeString` (section 8 of RFC 4648, base16, both cases), and
  the lower-case `%02x` encoding.
- `Decimal`: `%d` on a non-negative integer, and reading it back.
- `Paths`: `filepath.Dir`, `filepath.Base`, `path.Join` and `filepath.Abs` on
  clean slash-separated paths.
- `Loader` (internal/binder/loader.go): `LoadABI` and its two loaders.
- `Foundry` (internal/binder/foundry.go): `hexStringToByteSlice`,
  `LoadDeployedBytecodeFromFoundryJSON`, and `GenerateGoFileWithBytecode`.
  The last one has its formatting loop as a method and its template as a
  list of lines.
- `Binder` (internal/binder/binder.go): `createMounts`, `createContainerRequest`,
  `writeABIDataToFile` and `RunAbigen`. `RunAbigen` is a method that keeps Go's
  `defer` as an explicit stack, unwound last-in first-out at every return.
  It is proved equal to `ExpectedAbigen`, which spells out every exit path as
  a result and a sequence of host effects.
- `Launcher` (cmd/abibinder/launcher/launcher.go): `generateBindings`. Its
  loop body is the method `RunJob`, and it is proved against `JobSpec`. The
  loop itself is the method `GenerateBindings`, proved against
  `ExpectedLaunch`. A job's steps are generic over what each component
  returns (`StepResults`), and the run is generic over the job traces
  (`Sequenced`). The ordering and first-failure lemmas are proved at that
  level.

The file system, Docker and the process identity are replaced by
world records. A world record holds what each effectful call reports:
`FileRead` for `os.Stat` followed by `os.ReadFile`. `AbigenWorld` covers
`os.CreateTemp`, the write, `os.Getwd`, `os.MkdirAll` and starting the
container. `EmitWorld` covers `os.Create` and executing the template.
`JobWorld` holds all of these for one job. The uid and gid are parameters.

Three behaviours of the code are easy to misread, and the model keeps them
as the code has them:

- 1300 bytes of bytecode get two line breaks, before bytes 512 and 1024,
  not three (`Foundry.Formatted1300`).
- An empty version flag is replaced by "latest" only in `generateBindings`.
  `createContainerRequest` uses the version as given, so an empty one gives
  the image `ethereum/client-go:alltools-` (`Binder.EmptyVersionImage`).
- The rule that deployed bytecode needs the "foundry" type is checked inside
  each job, after that job's generator has already run. It is not checked
  before any job starts (`Launcher.TypeViolationAfterBindings`).

## Model

| member | source | states |
|---|---|---|
| Loader.DispatchIsExact | internal/binder/loader.go:18-26 | `LoadABI` matches the tag exactly: "foundry" and "file" select their loaders; every other tag, "" and "Foundry" among them, is "unknown type", whatever the file |
| Loader.RawBytesUnchanged | internal/binder/loader.go:22-23 | the raw loader passes any bytes through, the empty file included |
| Loader.FoundryLoadCases | internal/binder/loader.go:43-69 | the Foundry loader gives each error exactly on its condition: not JSON or not an object gives the parse error; `null`, a missing `abi` or a non-array `abi` gives the field error; otherwise the marshalled array |
| Loader.FoundryAbiRoundTrip | internal/binder/loader.go:58-68 | with a lawful codec, the Foundry loader's result unmarshals to the artifact's `abi` array, and it is never empty |
| Loader.OnlyRawFileCanBeEmpty | internal/binder/loader.go:18-69 | empty ABI bytes can come only from an empty raw `.abi` file |
| Json.MarshalNonEmpty | internal/binder/loader.go:63-68 | a lawful codec never marshals a value to empty bytes |
| Foundry.Literal | internal/binder/foundry.go:71 | `0x%02x,` is five characters: "0x", two lower-case hex digits whose values give the byte, then "," |
| Hex.DecodeOkIff | internal/binder/foundry.go:50 | `hex.DecodeString` succeeds exactly on even-length strings of hex digits |
| Hex.DecodeValues | internal/binder/foundry.go:50 | on success, byte k is 16 times the value of digit 2k plus the value of digit 2k+1 |
| Hex.DecodeFirstInvalid | internal/binder/foundry.go:50 | the error reports the first byte of the first character that is not a hex digit: the character itself when it is ASCII, its UTF-8 lead byte (0xC0 or above) otherwise |
| Hex.DecodeOddLength | internal/binder/foundry.go:50 | an odd-length string of hex digits gives the length error |
| Hex.DecodeEncode | internal/binder/foundry.go:50 | decoding the lower-case encoding of any bytes gives them back |
| Hex.EncodeDecode | internal/binder/foundry.go:50 | re-encoding decoded bytes gives the input in lower case |
| Hex.EncodeByte | internal/binder/foundry.go:71 | `%02x` of a byte is two lower-case hex digits whose values give the byte back |
| Foundry.TrimHexPrefixCases | internal/binder/foundry.go:46-48 | the "0x" prefix is removed once, only in lower case and only from strings longer than two characters |
| Foundry.HexPrefixQuirks | internal/binder/foundry.go:45-51 | "" decodes to no bytes; "0x" alone, "0X12" and "0x0x12" are rejected at the 'x' or 'X'; "0x6001" and "6001" both give 0x60 0x01 |
| Foundry.HexStringToBytesSpec | internal/binder/foundry.go:45-51 | decoding succeeds exactly when the text left after the prefix rule is even-length hex; then it gives one byte per digit pair, and those bytes re-encode to that text in lower case |
| Foundry.HexStringRoundTrip | internal/binder/foundry.go:45-51 | lower-case hex of any bytes decodes back without the prefix, and with it when there is at least one byte; "0x" before no bytes is rejected at the 'x' |
| Foundry.BytecodeExtraction | internal/binder/foundry.go:12-43 | extraction fails on a missing or non-object `deployedBytecode`, or on a missing or non-string `object`; otherwise its result is the decoding of that string, success and error alike |
| Foundry.FormatBytecode | internal/binder/foundry.go:66-72 | the formatting loop produces `Formatted(bytecode)`: literals in lines of 512, separated by "\n\t" |
| Foundry.FormattedAppend | internal/binder/foundry.go:67-71 | appending a byte appends "\n\t" when its index is a non-zero multiple of 512, then its literal |
| Foundry.FormattedLength | internal/binder/foundry.go:66-72 | n bytes give 5n characters plus two for each of the (n-1)/512 line breaks |
| Foundry.Formatted1300 | internal/binder/foundry.go:68-69 | 1300 bytes are split before bytes 512 and 1024, with exactly two line breaks |
| Foundry.ParseFormatted | internal/binder/foundry.go:66-72 | removing the "\n\t" separators and reading back the literals of the formatted text gives the bytes in order |
| Foundry.RenderedBodyRecovered | internal/binder/foundry.go:55-64 | substituting names without newlines into the template leaves the formatted bytes readable from the rendered text |
| Foundry.GenerateGoFileWithBytecode | internal/binder/foundry.go:54-101 | the emission gives the result and file effect of `ExpectedEmit`: nothing on a failed create, a partial file on a failed execution, else the rendered template |
| Foundry.EmittedFileRecoversBytecode | internal/binder/foundry.go:84-100 | emission succeeds exactly when creation and execution do; it touches only the named file; on success, the bytecode can be read back from the file's text |
| Decimal.ValueOfDigits | internal/binder/binder.go:93 | the digits `%d` prints read back as the number |
| Paths.DirBaseJoin | internal/binder/binder.go:75-89 | a clean file path is the join of its `Dir` and `Base`; its base is one element and its directory is clean |
| Paths.JoinDirBase | internal/binder/binder.go:89 | joining a clean directory with an element gives a clean path whose `Dir` and `Base` are the two parts |
| Paths.AbsKeepsBase | internal/binder/binder.go:30 | making a clean path absolute against a working directory keeps its base name |
| Binder.RequestShape | internal/binder/binder.go:73-95 | the request's image is the prefix followed by exactly the version; the command is `abigen` with `--pkg` set to the package; it auto-removes and waits for exit, polling every second; the mounts are the ABI directory read-only on /contracts, then the output directory writable on /output |
| Binder.CommandArguments | internal/binder/binder.go:86-89 | the command is exactly `abigen`, `--abi=/contracts/` with the ABI file's base name, `--pkg=` with the package, and `--out=/output/` with the output file's base name, in that order |
| Binder.EmptyVersionImage | internal/binder/binder.go:88 | an empty version yields the image name ending in "alltools-" |
| Binder.UserRoundTrip | internal/binder/binder.go:93 | the user field splits at its one ':' into the decimal uid and gid |
| Binder.AbiArgumentDesignatesAbiFile | internal/binder/binder.go:75-76 | for a clean path, the file that `--abi` names inside the container resolves through the mounts to the staged ABI file, read-only |
| Binder.OutArgumentDesignatesOutputFile | internal/binder/binder.go:79-89 | for a clean path, the file that `--out` names inside the container resolves through the mounts to the output file, writable |
| Binder.Unwind | internal/binder/binder.go:28-51 | deferred calls run in reverse order of registration |
| Binder.WriteAbiDataToFile | internal/binder/binder.go:58-70 | a failed create has no effect; otherwise the file is created, written and closed; the result is its name, or the write error without removing the file |
| Binder.RunAbigen | internal/binder/binder.go:18-55 | the method, with its deferred stack, produces exactly the result and effects of `ExpectedAbigen` on every path |
| Binder.AbigenSucceedsIff | internal/binder/binder.go:18-55 | the run succeeds exactly when the data is non-empty and the temp file, write, path resolution, directory creation and container start all succeed |
| Binder.EmptyInputHasNoEffects | internal/binder/binder.go:19-21 | empty ABI data is refused before any file, directory or container effect |
| Binder.StagedFileAlwaysRemoved | internal/binder/binder.go:28 | once the ABI file has been written, it is removed exactly once, as the last effect, on every return path |
| Binder.WriteFailureLeaksTempFile | internal/binder/binder.go:59-67 | a failed write returns the staging error with the temporary file created and never removed |
| Binder.TerminateOnlyAfterStart | internal/binder/binder.go:44-51 | the container is terminated exactly when the run succeeds, right after the container was requested and before the file is removed |
| Binder.AbigenReleasesFollowAcquires | internal/binder/binder.go:24-51 | each removal follows the creation of the same file, and each termination follows a container request (the started container) |
| Binder.ContainerRequestOfRun | internal/binder/binder.go:30-47 | a container runs only on the request built from the staged file and the absolute output path |
| Launcher.EffectiveVersionDefaults | cmd/abibinder/launcher/launcher.go:45-48 | the effective version is never empty: it is "latest" when the flag is empty and the flag otherwise |
| Launcher.RunJob | cmd/abibinder/launcher/launcher.go:51-72 | the loop body produces exactly the result and steps of `JobSpec` |
| Launcher.GenerateBindings | cmd/abibinder/launcher/launcher.go:38-77 | the loop produces exactly the result and steps of `ExpectedLaunch` |
| Launcher.StopsAtFirstFailure | cmd/abibinder/launcher/launcher.go:50-73 | once a prefix of the jobs has failed, later jobs change nothing |
| Launcher.StepsExtend | cmd/abibinder/launcher/launcher.go:50-73 | the steps of a shorter run form a prefix of the steps of a longer one |
| Launcher.SucceedsIffAllSucceed | cmd/abibinder/launcher/launcher.go:50-76 | a sequence of jobs succeeds exactly when every job succeeds |
| Launcher.LaunchSucceedsIff | cmd/abibinder/launcher/launcher.go:38-76 | the run succeeds exactly when the configuration loads and every configured job succeeds |
| Launcher.StepsInJobOrder | cmd/abibinder/launcher/launcher.go:50 | every step belongs to a job of the run, and job indices never decrease along the steps |
| Launcher.FirstFailureEndsRun | cmd/abibinder/launcher/launcher.go:50-73 | a failed run failed first at some job f: every earlier job succeeded, the run has f's outcome, and no step belongs to a later job |
| Launcher.LaunchJobOrder | cmd/abibinder/launcher/launcher.go:50-73 | the same two facts for the configured jobs of a run |
| Launcher.JobStepsAreTagged | cmd/abibinder/launcher/launcher.go:50-72 | every step of a job carries that job's index |
| Launcher.JobStepOrder | cmd/abibinder/launcher/launcher.go:51-72 | a job attempts a non-empty prefix of its planned steps, all of them when it succeeds; when it fails, its last step is the one its error reports |
| Launcher.TypeViolationAfterBindings | cmd/abibinder/launcher/launcher.go:56-63 | the foundry-only check fails a job exactly when it asks for bytecode, is not "foundry", and its load and generator run succeeded; the check is then the third step |
| Launcher.TypeViolationMeansFileType | cmd/abibinder/launcher/launcher.go:51-63 | since unknown types fail at the ABI load, a job that breaks the foundry-only rule has type "file" |
| Launcher.BytecodeDestination | cmd/abibinder/launcher/launcher.go:64-68 | the bytecode goes to `vars.go` beside the output, under `DeployedBytecode` and the job's package, with the extracted bytes |
| Launcher.VarsFileIsSibling | cmd/abibinder/launcher/launcher.go:68 | for a clean output path, `vars.go` has the output's directory and the base name "vars.go" |
| Launcher.SameVersionEverywhere | cmd/abibinder/launcher/launcher.go:45-56 | every container of the run uses the image of the one effective version |
| Launcher.AbigenStepUsesVersion | cmd/abibinder/launcher/launcher.go:56 | the container of a job's generator run carries the run's one effective version, `env.version`; a job has no version of its own |
| Launcher.ErrorsNameTheJob | cmd/abibinder/launcher/launcher.go:53-66 | load and generation errors carry the failing job's ABI path; a job never reports a configuration error |

## Left out

- Docker and testcontainers: the container's own behaviour and the exit status of `abigen` are not observed by the code. Of the container, only the request, the fact that it started, and its termination are modelled.
- The file system: the effects of create, write, remove and mkdir are recorded as events, not applied to a model of files. `os.Stat` and `os.ReadFile` are one `FileRead` answer per path and step, and the two reads of a Foundry artifact are answered independently.
- `encoding/json` at the byte level: the codec is a parameter, and numbers are kept as their literal text, never interpreted. `json.Marshal` of a decoded `[]any` cannot fail, so its error path is not modelled.
- `text/template`: the constant template always parses, so "failed to parse template" is not modelled. Executing it is modelled by substituting the three strings verbatim, since `text/template` does not escape. An execution failure is a world answer that leaves a partly written file.
- `filepath.Abs`, `Dir`, `Base` and `path.Join` are modelled only on clean paths. The `Clean` step for paths with "..", "." or repeated slashes is not modelled. `filepath.Abs` consults the working directory from the world.
- `createContainerRequest` always returns a nil error, so `RunAbigen`'s "failed to create container request" branch cannot be taken and is not modelled.
- The errors of the deferred `Close`, `Remove` and `Terminate` calls are ignored by the code, and by the model.
- `os.Getuid` and `os.Getgid` are parameters.
- Json.Lawful: demands the round trip for every abstract value, including number texts that Go's float64 decoding would normalise. Go gives the round trip only for values its own `Unmarshal` produces; the model uses the law only on such values, sub-values of an unmarshal result.
- Log output (`log.Printf`, `log.Println`) is not modelled.
- Error message texts: each error is a datatype case, and the text is named in a comment next to it. `%w` keeps the cause in a field when the cause is a modelled error; causes reported by the OS, Docker, encoding/json or the YAML loader are dropped.
- `Launch` (command-line parsing with urfave/cli), config.go (YAML loading) and main.go are not part of this model. The configuration arrives already loaded, with `None` standing for a failed `Load`.
- Launcher.JobStepOrder: states that a successful job attempted all of its planned steps, but not the converse. The converse does not hold: a job also fails when its last planned step is attempted and fails, for example a generator failure in a job without bytecode.
- Strings are sequences of Unicode characters, not of bytes. `hex.DecodeString` works on bytes, so `Hex.Decode` reports a non-hex character by its UTF-8 lead byte (`Hex.LeadByte`). The strings come from `json.Unmarshal`, which never yields invalid UTF-8.

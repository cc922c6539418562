/** ABI acquisition (internal/binder/loader.go): a raw `.abi` file, or the
    `abi` array of a Foundry build artifact, re-serialized. */
module Loader {
  import opened Wrappers
  import opened Json

  /** What `os.Stat` then `os.ReadFile` report for one path: the file does
      not exist, it cannot be read, or its bytes. */
  datatype FileRead = NotExist | ReadError | Contents(data: seq<Byte>)

  /** The two format tags `TypeABI` names; any other string is a `TypeABI` too. */
  const Foundry: string := "foundry"
  const File: string := "file"

  datatype LoadError =
    | NotFound          // "file not found"
    | ReadFailure       // "failed to read ..."
    | ParseFailure      // "failed to parse Foundry JSON"
    | AbiFieldInvalid   // "foundry JSON ABI field is missing or incorrectly formatted"
    | UnknownType       // "unknown type"

  /** `loadABIFromFile`: the file's bytes, unchanged. */
  function LoadAbiFromFile(file: FileRead): (r: Result<seq<Byte>, LoadError>)
    ensures file.NotExist? <==> r == Err(NotFound)
    ensures file.ReadError? <==> r == Err(ReadFailure)
    ensures file.Contents? ==> r == Ok(file.data)
    ensures r.Ok? ==> file.Contents?
  {
    match file
    case NotExist => Err(NotFound)
    case ReadError => Err(ReadFailure)
    case Contents(data) => Ok(data)
  }

  /** `loadABIFromFoundryJSON`: unmarshal into a map, take its `abi` member
      as an array and marshal that array afresh. */
  function LoadAbiFromFoundryJson(file: FileRead, codec: JsonCodec): Result<seq<Byte>, LoadError> {
    match file
    case NotExist => Err(NotFound)
    case ReadError => Err(ReadFailure)
    case Contents(data) =>
      match AsGoMap(codec.unmarshal(data))
      case None => Err(ParseFailure)
      case Some(top) =>
        match ArrayField(top, "abi")
        case None => Err(AbiFieldInvalid)
        case Some(abi) => Ok(codec.marshal(abi))
  }

  /** `LoadABI`: dispatch on the exact tag. */
  function LoadAbi(t: string, file: FileRead, codec: JsonCodec): Result<seq<Byte>, LoadError> {
    if t == Foundry then LoadAbiFromFoundryJson(file, codec)
    else if t == File then LoadAbiFromFile(file)
    else Err(UnknownType)
  }

  /** The tag is matched exactly: only "foundry" and "file" are known, so
      "" and "Foundry" are unknown, and an unknown tag is reported before
      the file is looked at. */
  lemma DispatchIsExact(t: string, file: FileRead, codec: JsonCodec)
    ensures LoadAbi(t, file, codec) == Err(UnknownType) <==> t != "foundry" && t != "file"
    ensures t == "foundry" ==> LoadAbi(t, file, codec) == LoadAbiFromFoundryJson(file, codec)
    ensures t == "file" ==> LoadAbi(t, file, codec) == LoadAbiFromFile(file)
    ensures LoadAbi("", file, codec) == Err(UnknownType)
    ensures LoadAbi("Foundry", file, codec) == Err(UnknownType)
  {
  }

  /** The raw loader passes any bytes through, the empty file included. */
  lemma RawBytesUnchanged(data: seq<Byte>, codec: JsonCodec)
    ensures LoadAbi("file", Contents(data), codec) == Ok(data)
    ensures LoadAbi("file", Contents([]), codec) == Ok([])
    ensures LoadAbi("file", NotExist, codec) == Err(NotFound)
  {
  }

  /** The Foundry loader fails exactly when the file is absent or unreadable,
      is not JSON, is JSON other than an object or `null`, or has no array
      `abi` member (so `null`, an absent `abi` and an `abi` that is `null` or
      not an array all give the schema error); otherwise it returns the
      marshalled array. */
  lemma FoundryLoadCases(file: FileRead, codec: JsonCodec)
    ensures var r := LoadAbiFromFoundryJson(file, codec);
      && (file.NotExist? ==> r == Err(NotFound))
      && (file.ReadError? ==> r == Err(ReadFailure))
      && (file.Contents? ==>
            var parsed := codec.unmarshal(file.data);
            && (r == Err(ParseFailure) <==> parsed.None? || !(parsed.value.JObject? || parsed.value.JNull?))
            && (parsed == Some(JNull) ==> r == Err(AbiFieldInvalid))
            && (parsed.Some? && parsed.value.JObject? ==>
                  var m := parsed.value.members;
                  && (r == Err(AbiFieldInvalid) <==> "abi" !in m || !m["abi"].JArray?)
                  && ("abi" in m && m["abi"].JArray? ==> r == Ok(codec.marshal(m["abi"])))))
  {
  }

  /** What the Foundry loader returns unmarshals to the artifact's `abi`
      array, element for element, and is never empty (even `"abi": []`
      gives the bytes of `[]`). */
  lemma FoundryAbiRoundTrip(file: FileRead, codec: JsonCodec, out: seq<Byte>)
    requires Lawful(codec)
    requires LoadAbiFromFoundryJson(file, codec) == Ok(out)
    ensures file.Contents?
    ensures var top := AsGoMap(codec.unmarshal(file.data));
      && top.Some? && "abi" in top.value && top.value["abi"].JArray?
      && codec.unmarshal(out) == Some(top.value["abi"])
    ensures |out| > 0
  {
    var top := AsGoMap(codec.unmarshal(file.data)).value;
    MarshalNonEmpty(codec, top["abi"]);
  }

  /** Only a raw `file` source can yield empty ABI bytes. */
  lemma OnlyRawFileCanBeEmpty(t: string, file: FileRead, codec: JsonCodec)
    requires Lawful(codec)
    requires LoadAbi(t, file, codec) == Ok([])
    ensures t == "file" && file == Contents([])
  {
    if t == Foundry {
      FoundryAbiRoundTrip(file, codec, []);
    }
  }
}

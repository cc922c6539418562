/** Deployed bytecode (internal/binder/foundry.go): extraction from a
    Foundry build artifact, hex decoding, and emission of a Go source file
    that declares the bytes. */
module Foundry {
  import opened Wrappers
  import opened Json
  import opened Hex
  import Loader

  // ---------------------------------------------------------------------
  // hexStringToByteSlice

  /** The reslice `hexStr = hexStr[2:]`, taken only for strings longer than
      two characters that start with exactly "0x". */
  function TrimHexPrefix(s: string): string {
    if |s| > 2 && s[..2] == "0x" then s[2..] else s
  }

  /** `hexStringToByteSlice`. */
  function HexStringToBytes(s: string): Result<seq<Byte>, HexError> {
    Decode(TrimHexPrefix(s))
  }

  /** At most one prefix is removed, and only a lower-case one on a string
      longer than two characters. */
  lemma TrimHexPrefixCases(s: string)
    ensures |s| > 2 && s[0] == '0' && s[1] == 'x' ==> TrimHexPrefix(s) == s[2..]
    ensures !(|s| > 2 && s[0] == '0' && s[1] == 'x') ==> TrimHexPrefix(s) == s
  {
    if |s| > 2 && s[0] == '0' && s[1] == 'x' {
      assert s[..2] == "0x";
    } else if |s| > 2 {
      assert s[..2][0] == s[0] && s[..2][1] == s[1];
    }
  }

  /** The edge cases of the prefix rule. */
  lemma HexPrefixQuirks()
    ensures HexStringToBytes("") == Ok([])
    ensures HexStringToBytes("0x") == Err(InvalidByte('x' as int))
    ensures HexStringToBytes("0X12") == Err(InvalidByte('X' as int))
    ensures HexStringToBytes("0x0x12") == Err(InvalidByte('x' as int))
    ensures HexStringToBytes("0x6001") == Ok([0x60, 0x01])
    ensures HexStringToBytes("6001") == Ok([0x60, 0x01])
  {
    assert "0X12"[..2][1] == 'X';
    assert "0x0x12"[..2] == "0x" && "0x0x12"[2..] == "0x12";
    assert "0x6001"[..2] == "0x" && "0x6001"[2..] == "6001";
    assert "6001"[..2][0] == '6';
    assert "6001"[2..] == "01" && "01"[2..] == [];
    DecodePairs();
  }

  lemma DecodePairs()
    ensures Decode("6001") == Ok([0x60, 0x01])
  {
    var s, t := "6001", "01";
    assert HexValue(s[0]) == 6 && HexValue(s[1]) == 0 && HexValue(t[0]) == 0 && HexValue(t[1]) == 1;
    assert t[2..] == [] && s[2..] == t;
    assert Decode(t) == Ok([16 * HexValue(t[0]) + HexValue(t[1])] + []);
    var b: seq<Byte> := [16 * HexValue(t[0]) + HexValue(t[1])] + [];
    assert b == [1];
    assert Decode(s) == Ok([16 * HexValue(s[0]) + HexValue(s[1])] + b);
    assert [16 * HexValue(s[0]) + HexValue(s[1])] + b == [0x60, 0x01];
  }

  /** Decoding succeeds exactly when what remains after the prefix rule has
      even length and only hex digits; then byte k is the value of the
      digit pair k, and re-encoding gives the remainder in lower case. */
  lemma HexStringToBytesSpec(s: string)
    ensures var rem := TrimHexPrefix(s);
      && (HexStringToBytes(s).Ok? <==> |rem| % 2 == 0 && AllHex(rem))
      && (HexStringToBytes(s).Ok? ==>
            var b := HexStringToBytes(s).value;
            && |b| == |rem| / 2
            && (forall k :: 0 <= k < |b| ==> b[k] == 16 * HexValue(rem[2 * k]) + HexValue(rem[2 * k + 1]))
            && Encode(b) == LowerAll(rem))
  {
    var rem := TrimHexPrefix(s);
    DecodeOkIff(rem);
    if Decode(rem).Ok? {
      DecodeValues(rem);
      EncodeDecode(rem);
    }
  }

  /** Bytes encoded in lower case, with or without the prefix, decode back. */
  lemma HexStringRoundTrip(bs: seq<Byte>)
    ensures HexStringToBytes(Encode(bs)) == Ok(bs)
    ensures |bs| > 0 ==> HexStringToBytes("0x" + Encode(bs)) == Ok(bs)
    ensures HexStringToBytes("0x" + Encode([])) == Err(InvalidByte('x' as int))
  {
    DecodeEncode(bs);
    EncodingKeepsNoPrefix(bs);
    if |bs| > 0 {
      PrefixedEncodingTrimmed(bs);
    }
    assert "0x" + Encode([]) == "0x";
    HexPrefixQuirks();
  }

  /** An encoding never starts with "0x", since 'x' is not a hex digit. */
  lemma EncodingKeepsNoPrefix(bs: seq<Byte>)
    ensures TrimHexPrefix(Encode(bs)) == Encode(bs)
  {
    var e := Encode(bs);
    if |bs| >= 2 {
      assert e[1] == EncodeByte(bs[0])[1];
      assert e[..2][1] == e[1];
    }
  }

  lemma PrefixedEncodingTrimmed(bs: seq<Byte>)
    requires |bs| > 0
    ensures TrimHexPrefix("0x" + Encode(bs)) == Encode(bs)
  {
    var e := Encode(bs);
    assert ("0x" + e)[..2] == "0x" && ("0x" + e)[2..] == e;
  }

  // ---------------------------------------------------------------------
  // LoadDeployedBytecodeFromFoundryJSON

  datatype BytecodeError =
    | NotFound                    // "file not found"
    | ReadFailure                 // "failed to read Foundry JSON file"
    | ParseFailure                // "failed to parse Foundry JSON"
    | DeployedBytecodeInvalid     // "deployedBytecode field is missing or incorrectly formatted"
    | ObjectFieldInvalid          // "deployedBytecode.object field is missing or incorrectly formatted"
    | DecodeFailure(cause: HexError)  // "failed to convert deployed bytecode to []byte"

  /** `LoadDeployedBytecodeFromFoundryJSON`. */
  function LoadDeployedBytecode(file: Loader.FileRead, codec: JsonCodec): Result<seq<Byte>, BytecodeError> {
    match file
    case NotExist => Err(NotFound)
    case ReadError => Err(ReadFailure)
    case Contents(data) =>
      match AsGoMap(codec.unmarshal(data))
      case None => Err(ParseFailure)
      case Some(top) =>
        match ObjectField(top, "deployedBytecode")
        case None => Err(DeployedBytecodeInvalid)
        case Some(deployed) =>
          match StringField(deployed, "object")
          case None => Err(ObjectFieldInvalid)
          case Some(hex) =>
            match HexStringToBytes(hex)
            case Err(e) => Err(DecodeFailure(e))
            case Ok(bytecode) => Ok(bytecode)
  }

  /** Extraction fails on a missing or non-object `deployedBytecode`, or a
      missing or non-string `object` inside it; otherwise the result is
      exactly the decoding of that string. */
  lemma BytecodeExtraction(data: seq<Byte>, codec: JsonCodec, top: map<string, Json>)
    requires AsGoMap(codec.unmarshal(data)) == Some(top)
    ensures var r := LoadDeployedBytecode(Loader.Contents(data), codec);
      && (r == Err(DeployedBytecodeInvalid) <==> "deployedBytecode" !in top || !top["deployedBytecode"].JObject?)
      && ("deployedBytecode" in top && top["deployedBytecode"].JObject? ==>
            var d := top["deployedBytecode"].members;
            && (r == Err(ObjectFieldInvalid) <==> "object" !in d || !d["object"].JString?)
            && ("object" in d && d["object"].JString? ==>
                  match HexStringToBytes(d["object"].s)
                  case Ok(b) => r == Ok(b)
                  case Err(e) => r == Err(DecodeFailure(e))))
  {
  }

  // ---------------------------------------------------------------------
  // The formatting loop of GenerateGoFileWithBytecode

  /** `fmt.Sprintf("0x%02x,", b)`. */
  function Literal(b: Byte): (s: string)
    ensures |s| == 5 && s[0] == '0' && s[1] == 'x' && s[4] == ','
    ensures IsHexDigit(s[2]) && IsHexDigit(s[3])
    ensures !('A' <= s[2] <= 'F') && !('A' <= s[3] <= 'F')
    ensures 16 * HexValue(s[2]) + HexValue(s[3]) == b
  {
    "0x" + EncodeByte(b) + ","
  }

  /** The literals of all bytes, one after another. */
  function Literals(bs: seq<Byte>): (s: string)
    ensures |s| == 5 * |bs|
  {
    if |bs| == 0 then "" else Literal(bs[0]) + Literals(bs[1..])
  }

  const LineLength: nat := 512
  const LineBreak: string := "\n\t"

  /** The formatted bytes as lines of at most 512 literals, joined by
      "\n\t". */
  function Formatted(bs: seq<Byte>): string
    decreases |bs|
  {
    if |bs| <= LineLength then Literals(bs)
    else Literals(bs[..LineLength]) + LineBreak + Formatted(bs[LineLength..])
  }

  /** What the loop adds before the literal of byte i. */
  function Separator(i: nat): string {
    if i % LineLength == 0 && i != 0 then LineBreak else ""
  }

  /** The number of line breaks among n literals. */
  function BreakCount(n: nat): nat {
    if n == 0 then 0 else (n - 1) / LineLength
  }

  lemma {:induction false} LiteralsAppend(bs: seq<Byte>, b: Byte)
    ensures Literals(bs + [b]) == Literals(bs) + Literal(b)
  {
    if |bs| > 0 {
      assert (bs + [b])[1..] == bs[1..] + [b];
      LiteralsAppend(bs[1..], b);
    }
  }

  lemma SeparatorShift(n: nat)
    requires n > LineLength
    ensures Separator(n - LineLength) == Separator(n)
  {
    assert (n - LineLength) % LineLength == n % LineLength;
  }

  /** Appending a byte appends its separator and its literal: the step of
      the formatting loop. */
  lemma {:induction false} FormattedAppend(bs: seq<Byte>, b: Byte)
    ensures Formatted(bs + [b]) == Formatted(bs) + Separator(|bs|) + Literal(b)
    decreases |bs|
  {
    if |bs| < LineLength {
      FormattedAppendInLine(bs, b);
    } else if |bs| == LineLength {
      FormattedAppendAtBreak(bs, b);
    } else {
      var tail := bs[LineLength..];
      FormattedAppend(tail, b);
      SeparatorShift(|bs|);
      FormattedAppendPastBreak(bs, b);
    }
  }

  /** Within the first line, the literal is appended directly. */
  lemma FormattedAppendInLine(bs: seq<Byte>, b: Byte)
    requires |bs| < LineLength
    ensures Formatted(bs + [b]) == Formatted(bs) + Separator(|bs|) + Literal(b)
  {
    SeparatorInLine(|bs|);
    LiteralsAppend(bs, b);
  }

  /** No byte of the first line is preceded by a break. */
  lemma SeparatorInLine(n: nat)
    requires n < LineLength
    ensures Separator(n) == ""
  {
    assert n == 0 || n % LineLength == n;
  }

  /** The byte after a full line starts a new one. */
  lemma FormattedAppendAtBreak(bs: seq<Byte>, b: Byte)
    requires |bs| == LineLength
    ensures Formatted(bs + [b]) == Formatted(bs) + LineBreak + Literal(b)
  {
    var bs' := bs + [b];
    assert bs'[..LineLength] == bs;
    assert bs'[LineLength..] == [b];
    assert Formatted([b]) == Literal(b) + "";
  }

  /** Past the first line, appending happens in the rest. */
  lemma FormattedAppendPastBreak(bs: seq<Byte>, b: Byte)
    requires |bs| > LineLength
    ensures Formatted(bs + [b]) == Literals(bs[..LineLength]) + LineBreak + Formatted(bs[LineLength..] + [b])
    ensures Formatted(bs) == Literals(bs[..LineLength]) + LineBreak + Formatted(bs[LineLength..])
  {
    var bs' := bs + [b];
    assert bs'[..LineLength] == bs[..LineLength];
    assert bs'[LineLength..] == bs[LineLength..] + [b];
  }

  /** The formatting loop: a "\n\t" before every byte whose index is a
      non-zero multiple of 512, then the byte's literal. */
  method FormatBytecode(bytecode: seq<Byte>) returns (formatted: string)
    ensures formatted == Formatted(bytecode)
  {
    formatted := "";
    for i := 0 to |bytecode|
      invariant formatted == Formatted(bytecode[..i])
    {
      if i % 512 == 0 && i != 0 {
        formatted := formatted + "\n\t";
      }
      formatted := formatted + Literal(bytecode[i]);
      assert bytecode[..i + 1] == bytecode[..i] + [bytecode[i]];
      FormattedAppend(bytecode[..i], bytecode[i]);
    }
    assert bytecode[..|bytecode|] == bytecode;
  }

  /** n bytes give 5n characters of literals and two per line break, and
      there are max(0, (n-1)/512) line breaks. */
  lemma {:induction false} FormattedLength(bs: seq<Byte>)
    ensures |Formatted(bs)| == 5 * |bs| + 2 * BreakCount(|bs|)
    decreases |bs|
  {
    if |bs| > LineLength {
      FormattedLength(bs[LineLength..]);
      var n := |bs|;
      assert (n - 1) / 512 == 1 + (n - 513) / 512;
    }
  }

  /** 1300 bytes give two line breaks, before bytes 512 and 1024. */
  lemma Formatted1300(bs: seq<Byte>)
    requires |bs| == 1300
    ensures Formatted(bs) == Literals(bs[..512]) + "\n\t" + Literals(bs[512..1024]) + "\n\t" + Literals(bs[1024..])
    ensures BreakCount(|bs|) == 2
  {
    var tail := bs[512..];
    assert tail[..512] == bs[512..1024];
    assert tail[512..] == bs[1024..];
    assert Formatted(tail) == Literals(bs[512..1024]) + "\n\t" + Literals(bs[1024..]);
    assert Formatted(bs) == Literals(bs[..512]) + "\n\t" + Formatted(tail);
  }

  /** Reading formatted bytes back: "\n\t" separators are skipped and each
      5-character literal `0x`, two hex digits, `,` gives one byte. */
  function ParseLiterals(s: string): Option<seq<Byte>>
    decreases |s|
  {
    if |s| == 0 then Some([])
    else if |s| >= 2 && s[..2] == LineBreak then ParseLiterals(s[2..])
    else if |s| >= 5 && s[0] == '0' && s[1] == 'x' && IsHexDigit(s[2]) && IsHexDigit(s[3]) && s[4] == ',' then
      match ParseLiterals(s[5..])
      case Some(rest) => Some([16 * HexValue(s[2]) + HexValue(s[3])] + rest)
      case None => None
    else None
  }

  /** One literal in front is parsed back to its byte. */
  lemma ParseLiteralHead(b: Byte, t: string, r: seq<Byte>)
    requires ParseLiterals(t) == Some(r)
    ensures ParseLiterals(Literal(b) + t) == Some([b] + r)
  {
    var s := Literal(b) + t;
    var e := EncodeByte(b);
    assert s == "0x" + e + "," + t;
    assert s[0] == '0' && s[1] == 'x' && s[2] == e[0] && s[3] == e[1] && s[4] == ',';
    assert s[..2] != LineBreak by {
      assert s[..2][0] == '0';
    }
    assert s[5..] == t;
  }

  /** Literals in front of a parsable text are parsed back to their bytes. */
  lemma {:induction false} ParseLiteralsAppend(bs: seq<Byte>, t: string, r: seq<Byte>)
    requires ParseLiterals(t) == Some(r)
    ensures ParseLiterals(Literals(bs) + t) == Some(bs + r)
  {
    if |bs| > 0 {
      var rest := Literals(bs[1..]) + t;
      LiteralsCons(bs, t);
      ParseLiteralsAppend(bs[1..], t, r);
      ParseLiteralHead(bs[0], rest, bs[1..] + r);
      ConsAppend(bs, r);
    } else {
      assert Literals(bs) + t == t;
      assert bs + r == r;
    }
  }

  lemma LiteralsCons(bs: seq<Byte>, t: string)
    requires |bs| > 0
    ensures Literals(bs) + t == Literal(bs[0]) + (Literals(bs[1..]) + t)
  {
    assert Literals(bs) == Literal(bs[0]) + Literals(bs[1..]);
  }

  lemma ConsAppend(bs: seq<Byte>, r: seq<Byte>)
    requires |bs| > 0
    ensures [bs[0]] + (bs[1..] + r) == bs + r
  {
    assert [bs[0]] + bs[1..] == bs;
  }

  /** Deleting the separators and parsing the literals recovers the bytes,
      in order. */
  lemma {:induction false} ParseFormatted(bs: seq<Byte>)
    ensures ParseLiterals(Formatted(bs)) == Some(bs)
    decreases |bs|
  {
    if |bs| <= LineLength {
      ParseLiteralsAppend(bs, "", []);
      assert Literals(bs) + "" == Literals(bs);
      assert bs + [] == bs;
    } else {
      var head, rest := bs[..LineLength], bs[LineLength..];
      var t := LineBreak + Formatted(rest);
      assert Formatted(bs) == Literals(head) + t;
      ParseFormatted(rest);
      assert t[..2] == LineBreak && t[2..] == Formatted(rest);
      ParseLiteralsAppend(head, t, rest);
      assert head + rest == bs;
    }
  }

  // ---------------------------------------------------------------------
  // Template rendering

  /** The two comment lines at the head of the template. */
  const GeneratedNotice: string := "// Code generated - DO NOT EDIT."
  const BindingNotice: string := "// This file is a generated binding" + " and any manual changes will be lost."

  /** Lines joined by newlines. */
  function JoinLines(lines: seq<string>): string
    requires |lines| > 0
  {
    if |lines| == 1 then lines[0] else lines[0] + "\n" + JoinLines(lines[1..])
  }

  /** The lines of `goFileTemplate` once the three values are substituted
      verbatim (`text/template` does not escape). */
  function SourceLines(packageName: string, varName: string, bytecode: string): seq<string> {
    ["", GeneratedNotice, BindingNotice, "", "package " + packageName, "",
     "var " + varName + " = []byte{", "\t" + bytecode, "}", ""]
  }

  /** The text `goFileTemplate` renders to. */
  function RenderSource(packageName: string, varName: string, bytecode: string): string {
    JoinLines(SourceLines(packageName, varName, bytecode))
  }

  /** What follows the first newline of `s` ("" when there is none). */
  function AfterLine(s: string): string
    decreases |s|
  {
    if |s| == 0 then "" else if s[0] == '\n' then s[1..] else AfterLine(s[1..])
  }

  function AfterLines(s: string, k: nat): string
    decreases k
  {
    if k == 0 then s else AfterLines(AfterLine(s), k - 1)
  }

  /** A reader of rendered files: the text after the seventh newline, without
      its leading tab and the closing "\n}\n". */
  function BytesBody(text: string): string {
    var rest := AfterLines(text, 7);
    if |rest| >= 4 && rest[0] == '\t' && rest[|rest| - 3..] == "\n}\n" then rest[1..|rest| - 3] else ""
  }

  lemma {:induction false} AfterLineSkips(a: string, b: string)
    requires '\n' !in a
    ensures AfterLine(a + "\n" + b) == b
  {
    if |a| > 0 {
      assert a[0] in a;
      assert (a + "\n" + b)[1..] == a[1..] + "\n" + b;
      assert forall c :: c in a[1..] ==> c in a;
      AfterLineSkips(a[1..], b);
    }
  }

  /** Skipping k newlines of joined lines, none of the first k holding a
      newline, leaves the remaining lines joined. */
  lemma {:induction false} AfterLinesJoin(lines: seq<string>, k: nat)
    requires k < |lines|
    requires forall i :: 0 <= i < k ==> '\n' !in lines[i]
    ensures AfterLines(JoinLines(lines), k) == JoinLines(lines[k..])
    decreases k
  {
    if k > 0 {
      AfterLineSkips(lines[0], JoinLines(lines[1..]));
      AfterLinesJoin(lines[1..], k - 1);
      assert lines[1..][k - 1..] == lines[k..];
    }
  }

  lemma GeneratedNoticeHoldsNoNewline()
    ensures '\n' !in GeneratedNotice
  {
    assert GeneratedNotice == "// Code generated" + " - DO NOT EDIT.";
  }

  lemma BindingNoticeHoldsNoNewline()
    ensures '\n' !in BindingNotice
  {
    assert '\n' !in "// This file is a generated binding";
    assert '\n' !in " and any manual changes will be lost.";
  }

  /** When the package and variable names hold no newline, the reader gets
      back exactly the formatted bytes from the rendered text. */
  lemma RenderedBodyRecovered(packageName: string, varName: string, body: string)
    requires '\n' !in packageName && '\n' !in varName
    ensures BytesBody(RenderSource(packageName, varName, body)) == body
  {
    var lines := SourceLines(packageName, varName, body);
    HeadLinesHoldNoNewline(packageName, varName, body);
    AfterLinesJoin(lines, 7);
    assert lines[7..] == ["\t" + body, "}", ""];
    ClosingLines(body);
  }

  lemma HeadLinesHoldNoNewline(packageName: string, varName: string, body: string)
    requires '\n' !in packageName && '\n' !in varName
    ensures forall i :: 0 <= i < 7 ==> '\n' !in SourceLines(packageName, varName, body)[i]
  {
    GeneratedNoticeHoldsNoNewline();
    BindingNoticeHoldsNoNewline();
    assert '\n' !in "package " && '\n' !in "var " && '\n' !in " = []byte{";
  }

  lemma ClosingLines(body: string)
    ensures var tail := JoinLines(["\t" + body, "}", ""]);
      |tail| >= 4 && tail[0] == '\t' && tail[|tail| - 3..] == "\n}\n" && tail[1..|tail| - 3] == body
  {
    var ls := ["\t" + body, "}", ""];
    assert ls[1..] == ["}", ""] && ls[1..][1..] == [""];
    var tail := JoinLines(ls);
    assert JoinLines(ls[1..][1..]) == "";
    assert JoinLines(ls[1..]) == "}" + "\n" + "";
    assert tail == ls[0] + "\n" + JoinLines(ls[1..]);
    assert tail == "\t" + body + "\n" + ("}" + "\n" + "");
    assert tail[|tail| - 3..] == "\n}\n";
    assert tail[1..|tail| - 3] == body;
  }

  // ---------------------------------------------------------------------
  // GenerateGoFileWithBytecode

  /** Outcomes of the two effectful steps: `os.Create` and executing the
      template into the file. Parsing the constant template cannot fail. */
  datatype EmitWorld = EmitWorld(createOk: bool, executeOk: bool)

  datatype EmitError =
    | CreateFailed   // "failed to create Go file"
    | ExecuteFailed  // "failed to execute template"

  /** What happens to the output file: nothing, created but only partly
      written, or written with the given text. */
  datatype FileEffect = Untouched | PartlyWritten(path: string) | Written(path: string, text: string)

  datatype EmitTrace = EmitTrace(outcome: Outcome<EmitError>, file: FileEffect)

  /** The effect of `GenerateGoFileWithBytecode`. */
  function ExpectedEmit(packageName: string, outputFilePath: string, varName: string,
                        bytecode: seq<Byte>, w: EmitWorld): EmitTrace
  {
    if !w.createOk then EmitTrace(Fail(CreateFailed), Untouched)
    else if !w.executeOk then EmitTrace(Fail(ExecuteFailed), PartlyWritten(outputFilePath))
    else EmitTrace(Pass, Written(outputFilePath, RenderSource(packageName, varName, Formatted(bytecode))))
  }

  /** `GenerateGoFileWithBytecode`: format the bytes, create the file, run
      the template into it. */
  method GenerateGoFileWithBytecode(packageName: string, outputFilePath: string, varName: string,
                                    bytecode: seq<Byte>, w: EmitWorld)
    returns (r: Outcome<EmitError>, file: FileEffect)
    ensures EmitTrace(r, file) == ExpectedEmit(packageName, outputFilePath, varName, bytecode, w)
  {
    var formatted := FormatBytecode(bytecode);
    if !w.createOk {
      return Fail(CreateFailed), Untouched;
    }
    if !w.executeOk {
      return Fail(ExecuteFailed), PartlyWritten(outputFilePath);
    }
    r, file := Pass, Written(outputFilePath, RenderSource(packageName, varName, formatted));
  }

  /** A successful emission writes only the named file, and its bytes can be
      read back from the text; the text depends on nothing but the three
      inputs. */
  lemma EmittedFileRecoversBytecode(packageName: string, outputFilePath: string, varName: string,
                                    bytecode: seq<Byte>, w: EmitWorld)
    requires '\n' !in packageName && '\n' !in varName
    ensures var e := ExpectedEmit(packageName, outputFilePath, varName, bytecode, w);
      && (e.outcome.Pass? <==> w.createOk && w.executeOk)
      && (e.file != Untouched ==> e.file.path == outputFilePath)
      && (e.outcome.Pass? ==> e.file.Written? && ParseLiterals(BytesBody(e.file.text)) == Some(bytecode))
  {
    RenderedBodyRecovered(packageName, varName, Formatted(bytecode));
    ParseFormatted(bytecode);
  }
}

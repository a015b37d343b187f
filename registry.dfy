/** `ParserRegistry` (backend/parser/src/registry_parser.rs): an ordered list
    of parsers, looked up by name or by file extension, with content sniffing
    for inputs whose format is not given. */
module Registry {
  import opened Wrappers
  import opened Types
  import opened Text
  import opened Utf8
  import opened BaseParser
  import opened Parsers
  import opened Readers
  import JsonParser

  /** Size of the sample buffer `parse_auto` reads into. */
  const SAMPLE_SIZE: nat := 512

  const UNABLE_TO_DETECT: string := "Unable to detect format"

  /** `find(|p| p.name() == name)`: the index of the first parser so named. */
  function FirstByName(ps: seq<Parser>, name: string): (r: Option<nat>)
    ensures r.Some? ==> (r.value < |ps| && ps[r.value].Name() == name &&
      forall j :: 0 <= j < r.value ==> ps[j].Name() != name)
    ensures r.None? ==> forall j :: 0 <= j < |ps| ==> ps[j].Name() != name
    decreases |ps|
  {
    if ps == [] then None
    else if ps[0].Name() == name then Some(0)
    else match FirstByName(ps[1..], name)
      case None => None
      case Some(i) => Some(i + 1)
  }

  /** `find(|p| p.extensions().contains(&extension))` */
  function FirstByExtension(ps: seq<Parser>, ext: string): (r: Option<nat>)
    ensures r.Some? ==> (r.value < |ps| && ext in ps[r.value].Extensions() &&
      forall j :: 0 <= j < r.value ==> ext !in ps[j].Extensions())
    ensures r.None? ==> forall j :: 0 <= j < |ps| ==> ext !in ps[j].Extensions()
    decreases |ps|
  {
    if ps == [] then None
    else if ext in ps[0].Extensions() then Some(0)
    else match FirstByExtension(ps[1..], ext)
      case None => None
      case Some(i) => Some(i + 1)
  }

  /** `find(|p| p.can_parse(&sample))` */
  function FirstAccepting(dec: Decoders, ps: seq<Parser>, sample: seq<byte>): (r: Option<nat>)
    ensures r.Some? ==> (r.value < |ps| && ps[r.value].CanParse(dec, sample) &&
      forall j :: 0 <= j < r.value ==> !ps[j].CanParse(dec, sample))
    ensures r.None? ==> forall j :: 0 <= j < |ps| ==> !ps[j].CanParse(dec, sample)
    decreases |ps|
  {
    if ps == [] then None
    else if ps[0].CanParse(dec, sample) then Some(0)
    else match FirstAccepting(dec, ps[1..], sample)
      case None => None
      case Some(i) => Some(i + 1)
  }

  /** Appending a parser never changes a name lookup that already
      succeeded; one that failed now finds the new parser when its name
      matches. */
  lemma {:induction false} AppendKeepsNameLookup(ps: seq<Parser>, p: Parser, name: string)
    ensures FirstByName(ps + [p], name) ==
      if FirstByName(ps, name).Some? then FirstByName(ps, name)
      else if p.Name() == name then Some(|ps|)
      else None
  {
    var r := FirstByName(ps, name);
    var r' := FirstByName(ps + [p], name);
    var qs := ps + [p];
    assert forall j :: 0 <= j < |ps| ==> qs[j] == ps[j];
    if r.Some? {
      assert r'.Some? && r'.value <= r.value;
    } else if p.Name() == name {
      assert qs[|ps|].Name() == name;
    }
  }

  /** The same for extension lookup. */
  lemma {:induction false} AppendKeepsExtensionLookup(ps: seq<Parser>, p: Parser, ext: string)
    ensures FirstByExtension(ps + [p], ext) ==
      if FirstByExtension(ps, ext).Some? then FirstByExtension(ps, ext)
      else if ext in p.Extensions() then Some(|ps|)
      else None
  {
    var r := FirstByExtension(ps, ext);
    var r' := FirstByExtension(ps + [p], ext);
    var qs := ps + [p];
    assert forall j :: 0 <= j < |ps| ==> qs[j] == ps[j];
    if r.Some? {
      assert r'.Some? && r'.value <= r.value;
    } else if ext in p.Extensions() {
      assert ext in qs[|ps|].Extensions();
    }
  }

  /** `filename.rsplit('.').next().unwrap_or("")`: the text after the last
      `.`, or the whole name when it has none. */
  function ExtensionOf(filename: string): (ext: string)
    ensures |ext| <= |filename| && EndsWith(filename, ext)
    ensures '.' !in ext
    ensures ext != filename ==> |ext| < |filename| && filename[|filename| - |ext| - 1] == '.'
    decreases |filename|
  {
    if filename == [] then []
    else if filename[|filename| - 1] == '.' then []
    else ExtensionOf(filename[..|filename| - 1]) + [filename[|filename| - 1]]
  }

  /** A name without a dot is its own extension. */
  lemma NoDotWholeName(filename: string)
    requires '.' !in filename
    ensures ExtensionOf(filename) == filename
  {
  }

  /** A name that ends in a dot has the empty extension. */
  lemma TrailingDotEmpty(filename: string)
    requires filename != [] && filename[|filename| - 1] == '.'
    ensures ExtensionOf(filename) == []
  {
  }

  /** Otherwise the extension is what follows the last dot. */
  lemma {:induction false} AfterLastDot(stem: string, ext: string)
    requires '.' !in ext
    ensures ExtensionOf(stem + "." + ext) == ext
  {
    var filename := stem + "." + ext;
    var e := ExtensionOf(filename);
    var n := |filename|;
    assert filename[n - |ext| - 1] == '.';
    assert e == filename[n - |e|..];
    assert ext == filename[n - |ext|..];
  }

  /** The parser `parse_auto` picks for a sniffed text: the three hints go
      to the parser of that name without asking it, Unknown to the first
      parser that accepts the text. */
  function Select(dec: Decoders, ps: seq<Parser>, text: seq<byte>): (c: Option<nat>)
    ensures c.Some? ==> c.value < |ps|
  {
    match DetectFormat(text)
    case Csv => FirstByName(ps, "csv")
    case Ndjson => FirstByName(ps, "ndjson")
    case Json => FirstByName(ps, "json")
    case Unknown => FirstAccepting(dec, ps, text)
  }

  /** The outcome of `parse_auto` once the parser choice is known. */
  function ParseChosen(dec: Decoders, ps: seq<Parser>, choice: Option<nat>, s: Stream): Outcome
    requires choice.Some? ==> choice.value < |ps|
  {
    match choice
    case None => Err(Io(UNABLE_TO_DETECT))
    case Some(i) => ps[i].Output(dec, s)
  }

  /** `parse_auto` as written, on a reader whose unread bytes are `rest`:
      one read of at most 512 bytes, then detection and every `can_parse`
      on that raw sample. */
  function AutoParseAsWritten(dec: Decoders, ps: seq<Parser>, rest: seq<byte>, fails: bool, burst: nat): Outcome {
    match ReadResult(rest, fails, burst, SAMPLE_SIZE)
    case Err(e) => Err(e)
    case Ok(sample) =>
      var choice := Select(dec, ps, sample);
      ParseChosen(dec, ps, choice, Stream(rest, fails))
  }

  /** `parse_auto`, corrected: the sample is sniffed up to its last whole
      character, so a character cut by the 512-byte limit does not turn the
      whole sample into the empty text. The parser still gets every byte. */
  function AutoParse(dec: Decoders, ps: seq<Parser>, rest: seq<byte>, fails: bool, burst: nat): Outcome {
    match ReadResult(rest, fails, burst, SAMPLE_SIZE)
    case Err(e) => Err(e)
    case Ok(sample) =>
      var choice := Select(dec, ps, ValidPrefix(sample));
      ParseChosen(dec, ps, choice, Stream(rest, fails))
  }

  /** A well-formed sample is sniffed unchanged: the correction only
      differs from the code as written on samples that are not UTF-8. */
  lemma SameOnWellFormedSample(dec: Decoders, ps: seq<Parser>, rest: seq<byte>, fails: bool, burst: nat)
    requires var r := ReadResult(rest, fails, burst, SAMPLE_SIZE);
      r.Ok? ==> ValidUtf8(r.value)
    ensures AutoParse(dec, ps, rest, fails, burst) == AutoParseAsWritten(dec, ps, rest, fails, burst)
  {
  }

  /** On a well-formed input the corrected sniffer sees all of the sample
      but at most the three bytes of a character the limit cut. */
  lemma {:induction false} SniffedTextOfWellFormedInput(rest: seq<byte>, fails: bool, burst: nat)
    requires ValidUtf8(rest) && 0 < burst
    ensures var r := ReadResult(rest, fails, burst, SAMPLE_SIZE);
      r.Ok? ==> var t := ValidPrefix(r.value);
      |r.value| - 3 <= |t| && t == rest[..|t|]
  {
    var r := ReadResult(rest, fails, burst, SAMPLE_SIZE);
    if r.Ok? {
      ValidPrefixOfCut(rest, |r.value|);
    }
  }

  /** The input `[`, 510 spaces, `é` (C3 A9) and `]`: a JSON array whose
      512-byte sample ends in the middle of the `é`. */
  function CutSampleInput(): (b: seq<byte>)
    ensures |b| == 514 && b[0] == LBRACKET
  {
    [LBRACKET] + seq(510, i => 0x20) + [0xC3, 0xA9, 0x5D]
  }

  /** The input is well-formed, but its first 512 bytes are not: they end
      with the lead byte C3 alone. Its first 511 bytes are ASCII. */
  lemma CutSampleBytes()
    ensures ValidUtf8(CutSampleInput())
    ensures !ValidUtf8(CutSampleInput()[..512])
    ensures forall i :: 0 <= i < 511 ==> CutSampleInput()[i] < 0x80
    ensures CutSampleInput()[..512] == CutSampleInput()[..511] + [0xC3]
  {
    var b := CutSampleInput();
    var ascii := b[..511];
    assert forall i :: 0 <= i < 511 ==> ascii[i] < 0x80;
    AsciiValid(ascii);
    AsciiValid([0x5D]);
    var w: seq<byte> := [0xC3, 0xA9] + [0x5D];
    assert ValidUtf8(w) by {
      assert w[..2] == [0xC3, 0xA9] && w[2..] == [0x5D];
    }
    ConcatValid(ascii, w);
    assert b == ascii + w;
    CutInsideChar(b, 512);
  }

  /** No built-in parser accepts a sample that is not UTF-8. */
  lemma {:induction false} NoBuiltinAcceptsInvalid(dec: Decoders, sample: seq<byte>)
    requires !ValidUtf8(sample)
    ensures FirstAccepting(dec, AllParsers(), sample) == None
  {
    assert SampleText(sample) == [];
    TrimOfEmpty();
    assert !Contains([], DIR_COLUMN);
    assert !Contains([], CsvParser.SF_COLUMNS);
    assert Lines([]) == [];
    assert !NdjsonParser.CanParse(dec, sample);
    assert !CsvParser.CanParse(sample);
    assert !JsonParser.CanParse(sample);
  }

  /** Spaces after a leading `[` are classified as a JSON array. */
  lemma {:induction false} BracketAndSpacesIsJson(t: seq<byte>)
    requires |t| > 0 && t[0] == LBRACKET && forall i :: 1 <= i < |t| ==> t[i] == 0x20
    ensures DetectFormat(t) == Json
  {
    AsciiValid(t);
    assert SampleText(t) == t;
    assert TrimStart(t) == t;
    var u := Trim(t);
    assert u == t[..|u|];
    assert u != [] && u[0] == LBRACKET;
    assert !StartsWith(u, CSV_HEADER_START) by {
      assert u[0] != CSV_HEADER_START[0];
    }
    assert !Contains(u, DIR_COLUMN) by {
      assert u == [LBRACKET];
    }
    assert !NdjsonCue(u);
  }

  /** As written, the cut sample is not UTF-8, detection says Unknown and
      no built-in parser accepts it: the input fails with "Unable to detect
      format". The corrected sniffer finds the `[` and hands the whole
      input to the JSON parser. */
  lemma CutSampleFinding(dec: Decoders, burst: nat)
    requires SAMPLE_SIZE <= burst
    ensures AutoParseAsWritten(dec, AllParsers(), CutSampleInput(), false, burst) == Err(Io(UNABLE_TO_DETECT))
    ensures AutoParse(dec, AllParsers(), CutSampleInput(), false, burst) ==
      JsonParser.Decode(dec, Stream(CutSampleInput(), false))
  {
    CutSampleAsWritten(dec, burst);
    CutSampleCorrected(dec, burst);
  }

  /** The first read takes 512 bytes of the input. */
  lemma CutSampleRead(burst: nat)
    requires SAMPLE_SIZE <= burst
    ensures ReadResult(CutSampleInput(), false, burst, SAMPLE_SIZE) == Ok(CutSampleInput()[..512])
  {
  }

  lemma {:induction false} CutSampleAsWritten(dec: Decoders, burst: nat)
    requires SAMPLE_SIZE <= burst
    ensures AutoParseAsWritten(dec, AllParsers(), CutSampleInput(), false, burst) == Err(Io(UNABLE_TO_DETECT))
  {
    CutSampleRead(burst);
    var sample := CutSampleInput()[..512];
    CutSampleBytes();
    InvalidUtf8IsUnknown(sample);
    NoBuiltinAcceptsInvalid(dec, sample);
    assert Select(dec, AllParsers(), sample) == None;
  }

  lemma {:induction false} CutSampleCorrected(dec: Decoders, burst: nat)
    requires SAMPLE_SIZE <= burst
    ensures AutoParse(dec, AllParsers(), CutSampleInput(), false, burst) ==
      JsonParser.Decode(dec, Stream(CutSampleInput(), false))
  {
    CutSampleRead(burst);
    var ascii := CutSampleInput()[..511];
    CutSampleSniffed();
    BracketAndSpacesIsJson(ascii);
    BuiltinNamesResolve(dec, ascii);
    assert Select(dec, AllParsers(), ascii) == Some(2);
  }

  /** The corrected sniffer sees the 511 ASCII bytes of the sample. */
  lemma CutSampleSniffed()
    ensures var b := CutSampleInput();
      ValidPrefix(b[..512]) == b[..511] &&
      b[..511][0] == LBRACKET && forall i :: 1 <= i < 511 ==> b[..511][i] == 0x20
  {
    var b := CutSampleInput();
    var sample, ascii := b[..512], b[..511];
    CutSampleBytes();
    AsciiValid(ascii);
    assert sample[..511] == ascii;
    assert sample[511..] == [0xC3];
    assert CutShort(sample, 1);
  }

  /** `ParserRegistry`: the registered parsers, in registration order. */
  class ParserRegistry {
    var parsers: seq<Parser>

    /** `ParserRegistry::new()`: the built-in parsers of `all_parsers()`. */
    constructor ()
      ensures parsers == AllParsers()
    {
      parsers := AllParsers();
    }

    /** `register`: the parser goes at the end. */
    method Register(p: Parser)
      modifies this
      ensures parsers == old(parsers) + [p]
    {
      parsers := parsers + [p];
    }

    /** `get_parser(name)` */
    function GetParser(name: string): (r: Option<Parser>)
      reads this
      ensures r.Some? <==> FirstByName(parsers, name).Some?
      ensures r.Some? ==> r.value == parsers[FirstByName(parsers, name).value] && r.value.Name() == name
    {
      match FirstByName(parsers, name)
      case None => None
      case Some(i) => Some(parsers[i])
    }

    /** `get_parser_by_extension(extension)` */
    function GetParserByExtension(ext: string): (r: Option<Parser>)
      reads this
      ensures r.Some? <==> FirstByExtension(parsers, ext).Some?
      ensures r.Some? ==> r.value == parsers[FirstByExtension(parsers, ext).value] && ext in r.value.Extensions()
    {
      match FirstByExtension(parsers, ext)
      case None => None
      case Some(i) => Some(parsers[i])
    }

    /** `parse_auto(reader)`: one read into a 512-byte buffer, the parser
        choice on that raw sample, then the parser drains the sample and the
        rest of the reader through a `CombinedReader`. */
    method ParseAuto(dec: Decoders, source: SourceReader) returns (r: Outcome)
      requires source.Valid()
      modifies source
      ensures r == AutoParseAsWritten(dec, parsers, old(source.Pending()), source.fails, source.burst)
    {
      var first := source.Read(SAMPLE_SIZE);
      if first.Err? {
        return Err(first.error);
      }
      r := ParseSample(dec, first.value, source);
    }

    /** The part of `parse_auto` after the sample was read: the parser
        choice on the sample as read, then the chosen parser over the sample
        and the rest. */
    method ParseSample(dec: Decoders, sample: seq<byte>, source: SourceReader) returns (r: Outcome)
      requires source.Valid()
      modifies source
      ensures r == ParseChosen(dec, parsers, Select(dec, parsers, sample),
                               Stream(sample + old(source.Pending()), source.fails))
    {
      var choice := Select(dec, parsers, sample);
      r := RunChoice(dec, choice, sample, source);
    }

    /** `parse_auto` with the corrected sniffing: the parser choice is made
        on the sample up to its last whole character. */
    method ParseAutoCorrected(dec: Decoders, source: SourceReader) returns (r: Outcome)
      requires source.Valid()
      modifies source
      ensures r == AutoParse(dec, parsers, old(source.Pending()), source.fails, source.burst)
    {
      var first := source.Read(SAMPLE_SIZE);
      if first.Err? {
        return Err(first.error);
      }
      var choice := Select(dec, parsers, ValidPrefix(first.value));
      r := RunChoice(dec, choice, first.value, source);
    }

    /** The chosen parser, if any, over the sample followed by the rest of
        the reader; "Unable to detect format" when none was chosen. */
    method RunChoice(dec: Decoders, choice: Option<nat>, sample: seq<byte>, source: SourceReader) returns (r: Outcome)
      requires choice.Some? ==> choice.value < |parsers|
      requires source.Valid()
      modifies source
      ensures r == ParseChosen(dec, parsers, choice, Stream(sample + old(source.Pending()), source.fails))
    {
      if choice.None? {
        return Err(Io(UNABLE_TO_DETECT));
      }
      var combined := new CombinedReader(sample, source);
      var s := combined.ReadToEnd();
      r := Run(dec, parsers[choice.value], s);
    }

    /** `parse_with_hint(reader, filename)`: a parser registered for the
        file's extension gets the reader as it is; otherwise `parse_auto`. */
    method ParseWithHint(dec: Decoders, source: SourceReader, filename: string) returns (r: Outcome)
      requires source.Valid()
      modifies source
      ensures var rest := old(source.Pending());
        match FirstByExtension(parsers, ExtensionOf(filename))
        case Some(i) => r == parsers[i].Output(dec, Stream(rest, source.fails))
        case None => r == AutoParseAsWritten(dec, parsers, rest, source.fails, source.burst)
    {
      var ext := ExtensionOf(filename);
      match FirstByExtension(parsers, ext)
      case Some(i) =>
        var s := source.ReadToEnd();
        r := Run(dec, parsers[i], s);
      case None =>
        r := ParseAuto(dec, source);
    }
  }

  /** With the built-ins, the three names that the format hints use all
      resolve, so a hint other than Unknown always yields a parser. */
  lemma BuiltinNamesResolve(dec: Decoders, text: seq<byte>)
    ensures FirstByName(AllParsers(), "ndjson") == Some(0)
    ensures FirstByName(AllParsers(), "csv") == Some(1)
    ensures FirstByName(AllParsers(), "json") == Some(2)
    ensures DetectFormat(text) != Unknown ==> Select(dec, AllParsers(), text).Some?
  {
    var ps := AllParsers();
    assert ps[0].Name() != "csv" && ps[0].Name() != "json" && ps[1].Name() != "json";
  }

  /** With the built-ins, each built-in extension resolves to the one parser
      that lists it. */
  lemma BuiltinExtensionsResolve()
    ensures FirstByExtension(AllParsers(), "ndjson") == Some(0)
    ensures FirstByExtension(AllParsers(), "jsonl") == Some(0)
    ensures FirstByExtension(AllParsers(), "csv") == Some(1)
    ensures FirstByExtension(AllParsers(), "json") == Some(2)
  {
    var ps := AllParsers();
    assert "csv" !in ps[0].Extensions() && "json" !in ps[0].Extensions() && "json" !in ps[1].Extensions();
  }

  /** Parsers registered after the built-ins never take a built-in name or
      extension away from them. */
  lemma {:induction false} RegisteredLaterNeverShadow(extra: seq<Parser>, name: string, ext: string)
    ensures FirstByName(AllParsers(), name).Some? ==>
      FirstByName(AllParsers() + extra, name) == FirstByName(AllParsers(), name)
    ensures FirstByExtension(AllParsers(), ext).Some? ==>
      FirstByExtension(AllParsers() + extra, ext) == FirstByExtension(AllParsers(), ext)
    decreases |extra|
  {
    if extra != [] {
      var base := AllParsers();
      var init := extra[..|extra| - 1];
      var last := extra[|extra| - 1];
      RegisteredLaterNeverShadow(init, name, ext);
      assert base + extra == (base + init) + [last];
      AppendKeepsNameLookup(base + init, last, name);
      AppendKeepsExtensionLookup(base + init, last, ext);
    } else {
      assert AllParsers() + extra == AllParsers();
    }
  }
}

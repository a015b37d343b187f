/** Content sniffing (backend/parser/src/base_parser.rs): `detect_format`
    classifies a byte sample by an ordered chain of syntactic cues. */
module BaseParser {
  import opened Wrappers
  import opened Types
  import opened Text
  import opened Utf8

  datatype FormatHint = Csv | Ndjson | Json | Unknown

  /** What `Parser::parse` returns: every message, or the first error. */
  type Outcome = Result<seq<ParsedMessage>, ParseError>

  /** Puts messages already decoded in front of the outcome for the rest. */
  function Prepend(done: seq<ParsedMessage>, rest: Outcome): Outcome {
    match rest
    case Ok(ms) => Ok(done + ms)
    case Err(e) => Err(e)
  }

  lemma PrependNothing(rest: Outcome)
    ensures Prepend([], rest) == rest
  {
    if rest.Ok? {
      assert [] + rest.value == rest.value;
    }
  }

  lemma PrependTwice(a: seq<ParsedMessage>, b: seq<ParsedMessage>, rest: Outcome)
    ensures Prepend(a, Prepend(b, rest)) == Prepend(a + b, rest)
  {
    if rest.Ok? {
      assert a + (b + rest.value) == (a + b) + rest.value;
    }
  }

  /** `std::str::from_utf8(data).unwrap_or("")`: the sample as text, or the
      empty text when it is not well-formed UTF-8. */
  function SampleText(data: seq<byte>): (t: seq<byte>)
    ensures ValidUtf8(t) && (t == data || t == [])
    ensures t == data <==> ValidUtf8(data)
  {
    if ValidUtf8(data) then data else []
  }

  const CSV_HEADER_START: seq<byte> := Ascii("ts_iso,")
  const DIR_COLUMN: seq<byte> := Ascii(",dir,")

  /** The CSV test of `detect_format`, on the trimmed text. */
  predicate CsvCue(t: seq<byte>) {
    StartsWith(t, CSV_HEADER_START) || Contains(t, DIR_COLUMN)
  }

  /** The line-delimited JSON test: starts with `{`, more than one line, and
      the first line without trailing whitespace ends with `}`. */
  predicate NdjsonCue(t: seq<byte>) {
    StartsWith(t, [LBRACE]) && |Lines(t)| > 1 && EndsWith(TrimEnd(Lines(t)[0]), [RBRACE])
  }

  predicate JsonCue(t: seq<byte>) {
    StartsWith(t, [LBRACKET])
  }

  /** `detect_format`: the first cue that holds of the trimmed text decides. */
  function DetectFormat(data: seq<byte>): (h: FormatHint)
    ensures h == Csv <==> CsvCue(Trim(SampleText(data)))
    ensures h == Ndjson ==> StartsWith(Trim(SampleText(data)), [LBRACE])
    ensures h == Json ==> StartsWith(Trim(SampleText(data)), [LBRACKET])
    ensures h == Unknown ==> !JsonCue(Trim(SampleText(data)))
  {
    var t := Trim(SampleText(data));
    if CsvCue(t) then Csv
    else if NdjsonCue(t) then Ndjson
    else if JsonCue(t) then Json
    else Unknown
  }

  /** A text of more than one line contains a line feed. */
  lemma {:induction false} SeveralLinesHaveLf(t: seq<byte>)
    requires |Lines(t)| > 1
    ensures exists i :: 0 <= i < |t| && t[i] == LF
  {
    if forall i :: 0 <= i < |t| ==> t[i] != LF {
      LinesWithoutLf(t);
    }
  }

  /** The CSV cues win over the braces: a sample that starts with `{` or `[`
      but carries a `,dir,` column is classified CSV, never NDJSON or JSON. */
  lemma CsvOutranksBraces(data: seq<byte>)
    requires Contains(Trim(SampleText(data)), DIR_COLUMN)
    ensures DetectFormat(data) == Csv
  {
  }

  /** NDJSON is reported only when all three of its conditions hold: the
      trimmed sample starts with `{`, spans more than one line (so holds a line
      feed), and its first line, right-trimmed, ends with `}`. */
  lemma NdjsonNeedsAllThree(data: seq<byte>)
    requires DetectFormat(data) == Ndjson
    ensures var t := Trim(SampleText(data));
      StartsWith(t, [LBRACE]) &&
      (exists i :: 0 <= i < |t| && t[i] == LF) &&
      EndsWith(TrimEnd(Lines(t)[0]), [RBRACE]) &&
      !CsvCue(t)
  {
    SeveralLinesHaveLf(Trim(SampleText(data)));
  }

  /** A one-line object sample is never NDJSON: without a CSV cue it is
      Unknown, since it does not start with `[` either. */
  lemma SingleLineObjectIsUnknown(data: seq<byte>)
    requires var t := Trim(SampleText(data));
      StartsWith(t, [LBRACE]) && !CsvCue(t) && forall i :: 0 <= i < |t| ==> t[i] != LF
    ensures DetectFormat(data) == Unknown
  {
    var t := Trim(SampleText(data));
    LinesWithoutLf(t);
    assert !NdjsonCue(t);
    assert !JsonCue(t) by {
      assert t[..1] == [LBRACE];
    }
  }

  /** Once neither CSV nor NDJSON matched, a leading `[` means JSON. */
  lemma BracketMeansJson(data: seq<byte>)
    requires var t := Trim(SampleText(data));
      !CsvCue(t) && !NdjsonCue(t) && StartsWith(t, [LBRACKET])
    ensures DetectFormat(data) == Json
  {
  }

  /** A sample that is not well-formed UTF-8 reads as the empty text, which
      no cue matches. */
  lemma {:induction false} InvalidUtf8IsUnknown(data: seq<byte>)
    requires !ValidUtf8(data)
    ensures DetectFormat(data) == Unknown
  {
    TrimOfEmpty();
    assert Trim(SampleText(data)) == [];
    assert !Contains([], DIR_COLUMN);
    assert Lines([]) == [];
  }
}

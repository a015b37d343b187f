/** The CSV parser (backend/parser/src/csv_parser.rs). */
module CsvParser {
  import opened Wrappers
  import opened Types
  import opened Text
  import opened Utf8
  import opened BaseParser

  const NAME: string := "csv"
  const EXTENSIONS: seq<string> := ["csv"]

  const SF_COLUMNS: seq<byte> := Ascii(",s,f,")

  /** `can_parse`: the trimmed sample starts with `ts_iso,` or contains
      `,dir,` or `,s,f,`. */
  predicate CanParse(data: seq<byte>) {
    var t := Trim(SampleText(data));
    CsvCue(t) || Contains(t, SF_COLUMNS)
  }

  /** Every sample that `detect_format` classifies as CSV is accepted. */
  lemma DetectedCsvIsAccepted(data: seq<byte>)
    requires DetectFormat(data) == Csv
    ensures CanParse(data)
  {
  }

  /** The converse fails: `x,s,f,` carries neither `ts_iso,` nor `,dir,`, so
      `detect_format` does not call it CSV, yet `can_parse` accepts it. */
  lemma {:induction false} AcceptsMoreThanDetect()
    ensures var data := Ascii("x,s,f,");
      CanParse(data) && DetectFormat(data) != Csv
  {
    var data := Ascii("x,s,f,");
    assert |data| == 6;
    AsciiValid(data);
    assert SampleText(data) == data;
    assert Trim(data) == data by {
      assert TrimStart(data) == data;
      assert TrimEnd(data) == data;
    }
    assert OccursAt(data, SF_COLUMNS, 1) by {
      assert data[1..6] == SF_COLUMNS;
    }
    assert !StartsWith(data, CSV_HEADER_START) by {
      assert |CSV_HEADER_START| > |data|;
    }
    assert !Contains(data, DIR_COLUMN) by {
      assert |DIR_COLUMN| == 5;
      forall i | 0 <= i <= |data| - 5 ensures !OccursAt(data, DIR_COLUMN, i) {
        assert data[i + 1] != DIR_COLUMN[1];
      }
    }
  }

  /** The message built from one record and its decoded body. `ceid` is
      `#[serde(default)]`, so a missing column gives 0; the record has no
      `vid` or `rptid` columns and the message gets 0 for both. */
  function Convert(rec: CsvRecord, body: Json): (m: ParsedMessage)
    ensures m.ts_iso == rec.ts_iso && m.dir == rec.dir
    ensures m.s == rec.s && m.f == rec.f && m.wbit == rec.wbit && m.sysbytes == rec.sysbytes
    ensures m.ceid == (if rec.ceid.Some? then rec.ceid.value else 0)
    ensures m.vid == 0 && m.rptid == 0
    ensures m.body_json == body
  {
    ParsedMessage(rec.ts_iso, rec.dir, rec.s, rec.f, rec.wbit, rec.sysbytes,
      match rec.ceid case Some(c) => c case None => 0,
      0, 0, body)
  }

  /** One turn of the record loop: a record error or a `body_json` column
      that is not JSON ends everything; otherwise the message goes in front
      of the outcome `rest` of the later records. */
  function Step(dec: Decoders, item: Result<CsvRecord, ParseError>, rest: Outcome): Outcome {
    match item
    case Err(e) => Err(e)
    case Ok(rec) =>
      match dec.jsonBody(rec.body_json)
      case Err(m) => Err(JsonError(m))
      case Ok(body) => Prepend([Convert(rec, body)], rest)
  }

  /** The outcome of the record loop, first record first. */
  function Decode(dec: Decoders, items: seq<Result<CsvRecord, ParseError>>): Outcome
    decreases |items|
  {
    if items == [] then Ok([]) else Step(dec, items[0], Decode(dec, items[1..]))
  }

  lemma DecodeAt(dec: Decoders, items: seq<Result<CsvRecord, ParseError>>, i: nat)
    requires i < |items|
    ensures Decode(dec, items[i..]) == Step(dec, items[i], Decode(dec, items[i + 1..]))
  {
    assert items[i..][1..] == items[i + 1..];
  }

  /** `parse`: the loop over the deserialized records that pushes one
      message per record and returns at the first error. */
  method Parse(dec: Decoders, s: Stream) returns (r: Outcome)
    ensures r == Decode(dec, dec.csvRecords(s))
  {
    var items := dec.csvRecords(s);
    var messages: seq<ParsedMessage> := [];
    var i := 0;
    assert items[i..] == items;
    PrependNothing(Decode(dec, items));
    while i < |items|
      invariant 0 <= i <= |items|
      invariant Decode(dec, items) == Prepend(messages, Decode(dec, items[i..]))
    {
      ghost var rest := Decode(dec, items[i + 1..]);
      DecodeAt(dec, items, i);
      match items[i]
      case Err(e) =>
        return Err(e);
      case Ok(rec) =>
        match dec.jsonBody(rec.body_json)
        case Err(m) =>
          return Err(JsonError(m));
        case Ok(body) =>
          PrependTwice(messages, [Convert(rec, body)], rest);
          messages := messages + [Convert(rec, body)];
      i := i + 1;
    }
    assert items[i..] == [];
    assert messages + [] == messages;
    return Ok(messages);
  }

  /** The record was read and its `body_json` column decodes. */
  predicate RowOk(dec: Decoders, item: Result<CsvRecord, ParseError>) {
    item.Ok? && dec.jsonBody(item.value.body_json).Ok?
  }

  /** The message a good row gives. */
  function Message(dec: Decoders, item: Result<CsvRecord, ParseError>): ParsedMessage
    requires RowOk(dec, item)
  {
    Convert(item.value, dec.jsonBody(item.value.body_json).value)
  }

  /** The parse succeeds exactly when every record was read and every
      `body_json` column decodes; a single bad row fails it all. */
  lemma {:induction false} DecodeOkIff(dec: Decoders, items: seq<Result<CsvRecord, ParseError>>)
    ensures Decode(dec, items).Ok? <==> forall i :: 0 <= i < |items| ==> RowOk(dec, items[i])
    decreases |items|
  {
    if items != [] {
      var rest := items[1..];
      DecodeOkIff(dec, rest);
      assert Decode(dec, items) == Step(dec, items[0], Decode(dec, rest));
      if forall i :: 0 <= i < |items| ==> RowOk(dec, items[i]) {
        assert RowOk(dec, items[0]);
        forall i | 0 <= i < |rest| ensures RowOk(dec, rest[i]) {
          assert rest[i] == items[i + 1];
        }
      } else if RowOk(dec, items[0]) {
        var j :| 0 <= j < |items| && !RowOk(dec, items[j]);
        assert !RowOk(dec, rest[j - 1]);
      }
    }
  }

  /** A successful parse holds one message per record, in row order, each
      the conversion of its record. */
  lemma {:induction false} DecodeContents(dec: Decoders, items: seq<Result<CsvRecord, ParseError>>)
    requires Decode(dec, items).Ok?
    ensures var ms := Decode(dec, items).value;
      |ms| == |items| &&
      forall i :: 0 <= i < |items| ==> RowOk(dec, items[i]) && ms[i] == Message(dec, items[i])
    decreases |items|
  {
    DecodeOkIff(dec, items);
    if items != [] {
      var rest := items[1..];
      assert Decode(dec, items) == Step(dec, items[0], Decode(dec, rest));
      var rec := items[0].value;
      var msg := Convert(rec, dec.jsonBody(rec.body_json).value);
      assert Decode(dec, items) == Prepend([msg], Decode(dec, rest));
      DecodeContents(dec, rest);
      var ms := Decode(dec, items).value;
      var mr := Decode(dec, rest).value;
      assert ms == [msg] + mr;
      forall i | 1 <= i < |items| ensures ms[i] == Message(dec, items[i]) {
        assert ms[i] == mr[i - 1] && items[i] == rest[i - 1];
      }
    }
  }
}

/** Shared value types of the parser crate (backend/parser/src/types.rs) and the
    machine-integer ranges used across both crates. */
module Types {
  import opened Wrappers

  /** A byte of input, and the fixed-width integers of the Rust structs.
      They are unbounded integers restricted to the range of the Rust type. */
  type byte = b: int | 0 <= b < 0x100
  type u8 = x: int | 0 <= x < 0x100
  type u32 = x: int | 0 <= x < 0x1_0000_0000
  type i8 = x: int | -0x80 <= x < 0x80
  type i64 = x: int | -0x8000_0000_0000_0000 <= x < 0x8000_0000_0000_0000

  const I64_MIN: i64 := -0x8000_0000_0000_0000
  const I64_MAX: i64 := 0x7FFF_FFFF_FFFF_FFFF
  const U32_MODULUS: int := 0x1_0000_0000

  predicate InI64(x: int) { I64_MIN <= x <= I64_MAX }

  /** A JSON document (`serde_json::Value`). Numbers keep their literal text. */
  datatype Json =
    | Null
    | Bool(b: bool)
    | Number(literal: string)
    | Str(s: string)
    | Array(items: seq<Json>)
    | Object(members: seq<(string, Json)>)

  /** One decoded input record (`ParsedMessage`). The three tag fields are
      `#[serde(default)]`: a decoder that finds them absent yields 0. */
  datatype ParsedMessage = ParsedMessage(
    ts_iso: string,
    dir: string,
    s: u8,
    f: u8,
    wbit: u8,
    sysbytes: u32,
    ceid: u32,
    vid: u32,
    rptid: u32,
    body_json: Json)

  /** `ParseError`: the failures a parser reports. */
  datatype ParseError =
    | Io(message: string)
    | JsonError(message: string)
    | CsvError(message: string)
    | InvalidTimestamp(message: string)
    | InvalidDirection(message: string)
    | MissingBodyJson
    | Custom(message: string)

  /** What a reader delivers when drained: the bytes it yields, in order, and
      whether it then fails with an I/O error (true) or reports end of input. */
  datatype Stream = Stream(content: seq<byte>, fails: bool)

  /** The message of the I/O error a failing reader reports. */
  const READ_FAILED: string := "read failed"

  /** One row of the CSV format as the `csv` crate deserializes it into
      `CsvRecord`. `ceid` is None when the column is missing; the
      `#[serde(default)]` that turns that into 0 is modelled by the CSV parser. */
  datatype CsvRecord = CsvRecord(
    ts_iso: string,
    dir: string,
    s: u8,
    f: u8,
    wbit: u8,
    sysbytes: u32,
    ceid: Option<u32>,
    body_json: string)

  /** The external decoders the parsers call, none of which is modelled:
      - jsonValue(line): `serde_json::from_str::<Value>(line)` succeeds;
      - jsonMessage(line): `serde_json::from_str::<ParsedMessage>(line)`;
      - jsonMessages(bytes): `serde_json::from_slice::<Vec<ParsedMessage>>(bytes)`;
      - csvRecords(stream): the items `csv::Reader::deserialize::<CsvRecord>()`
        yields over the stream, header row consumed;
      - jsonBody(text): `serde_json::from_str::<Value>(text)` for a CSV body column.
      Decoder error messages are kept as opaque strings. */
  datatype Decoders = Decoders(
    jsonValue: seq<byte> -> bool,
    jsonMessage: seq<byte> -> Result<ParsedMessage, string>,
    jsonMessages: seq<byte> -> Result<seq<ParsedMessage>, string>,
    csvRecords: Stream -> seq<Result<CsvRecord, ParseError>>,
    jsonBody: string -> Result<Json, string>)
}

/** The `Parser` capability (backend/parser/src/base_parser.rs) and the set of
    built-in parsers (backend/parser/src/parsers.rs). A parser is a value: one
    of the three built-ins, or a custom parser given by its four operations. */
module Parsers {
  import opened Types
  import opened BaseParser
  import NdjsonParser
  import CsvParser
  import JsonParser

  datatype Parser =
    | NdjsonFormat
    | CsvFormat
    | JsonFormat
    | Custom(name: string, extensions: seq<string>, accepts: seq<byte> -> bool, parse: Stream -> Outcome)
  {
    /** `name()` */
    function Name(): string {
      match this
      case NdjsonFormat => NdjsonParser.NAME
      case CsvFormat => CsvParser.NAME
      case JsonFormat => JsonParser.NAME
      case Custom(n, _, _, _) => n
    }

    /** `extensions()` */
    function Extensions(): seq<string> {
      match this
      case NdjsonFormat => NdjsonParser.EXTENSIONS
      case CsvFormat => CsvParser.EXTENSIONS
      case JsonFormat => JsonParser.EXTENSIONS
      case Custom(_, e, _, _) => e
    }

    /** `can_parse(data)` */
    predicate CanParse(dec: Decoders, data: seq<byte>) {
      match this
      case NdjsonFormat => NdjsonParser.CanParse(dec, data)
      case CsvFormat => CsvParser.CanParse(data)
      case JsonFormat => JsonParser.CanParse(data)
      case Custom(_, _, accepts, _) => accepts(data)
    }

    /** What `parse` returns on a reader that delivers the stream `s`. */
    function Output(dec: Decoders, s: Stream): Outcome {
      match this
      case NdjsonFormat => NdjsonParser.Decode(dec, NdjsonParser.LineItems(s))
      case CsvFormat => CsvParser.Decode(dec, dec.csvRecords(s))
      case JsonFormat => JsonParser.Decode(dec, s)
      case Custom(_, _, _, parse) => parse(s)
    }
  }

  /** `parse(reader)`: runs the parser's own loop. */
  method Run(dec: Decoders, p: Parser, s: Stream) returns (r: Outcome)
    ensures r == p.Output(dec, s)
  {
    match p
    case NdjsonFormat =>
      r := NdjsonParser.Parse(dec, s);
    case CsvFormat =>
      r := CsvParser.Parse(dec, s);
    case JsonFormat =>
      r := JsonParser.Parse(dec, s);
    case Custom(_, _, _, parse) =>
      r := parse(s);
  }

  /** `all_parsers()`: the three built-ins, NDJSON first, then CSV, then JSON. */
  function AllParsers(): (ps: seq<Parser>)
    ensures |ps| == 3
    ensures ps[0].Name() == "ndjson" && ps[1].Name() == "csv" && ps[2].Name() == "json"
    ensures ps[0].Extensions() == ["ndjson", "jsonl"]
    ensures ps[1].Extensions() == ["csv"]
    ensures ps[2].Extensions() == ["json"]
  {
    [NdjsonFormat, CsvFormat, JsonFormat]
  }

  /** The built-ins have pairwise distinct names and pairwise disjoint
      extension lists. */
  lemma BuiltinsDistinct()
    ensures forall i, j :: 0 <= i < j < 3 ==> AllParsers()[i].Name() != AllParsers()[j].Name()
    ensures forall i, j, e :: 0 <= i < j < 3 && e in AllParsers()[i].Extensions() ==>
      e !in AllParsers()[j].Extensions()
  {
    var ps := AllParsers();
    assert ps[0].Extensions() == ["ndjson", "jsonl"];
  }
}

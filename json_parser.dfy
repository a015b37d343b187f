/** The JSON array parser (backend/parser/src/json_parser.rs). */
module JsonParser {
  import opened Wrappers
  import opened Types
  import opened Text
  import opened Utf8
  import opened BaseParser

  const NAME: string := "json"
  const EXTENSIONS: seq<string> := ["json"]

  /** `can_parse`: the trimmed sample starts with `[`. */
  predicate CanParse(data: seq<byte>) {
    JsonCue(Trim(SampleText(data)))
  }

  /** Whatever `detect_format` classifies as a JSON array is accepted. */
  lemma DetectedJsonIsAccepted(data: seq<byte>)
    requires DetectFormat(data) == Json
    ensures CanParse(data)
  {
  }

  /** Only the first non-blank byte is looked at: any well-formed text that
      starts with `[`, however the rest is malformed, is accepted, and one
      that starts with `{` is refused. */
  lemma {:induction false} FirstByteDecides(data: seq<byte>)
    requires ValidUtf8(data) && data != []
    ensures data[0] == LBRACKET ==> CanParse(data)
    ensures data[0] == LBRACE ==> !CanParse(data)
  {
    if data[0] == LBRACKET || data[0] == LBRACE {
      assert SampleText(data) == data;
      assert TrimStart(data) == data;
      var t := Trim(data);
      assert t != [] && t[0] == data[0] by {
        assert t == TrimEnd(data);
        assert t == data[..|t|];
      }
    }
  }

  /** The lone `[` is no JSON array of messages, yet it is accepted. */
  lemma MalformedArrayAccepted()
    ensures CanParse([LBRACKET])
  {
    AsciiValid([LBRACKET]);
    FirstByteDecides([LBRACKET]);
  }

  /** The outcome of `parse` on a stream: a read failure, or the one decode
      of the whole buffer. */
  function Decode(dec: Decoders, s: Stream): (r: Outcome)
    ensures s.fails <==> r == Err(Io(READ_FAILED))
    ensures r.Ok? <==> !s.fails && dec.jsonMessages(s.content).Ok?
    ensures r.Ok? ==> r.value == dec.jsonMessages(s.content).value
  {
    if s.fails then Err(Io(READ_FAILED))
    else match dec.jsonMessages(s.content)
      case Err(m) => Err(JsonError(m))
      case Ok(ms) => Ok(ms)
  }

  /** `parse`: `read_to_end` fills the buffer (the stream's bytes, or the
      read error), then one decode of the whole buffer; no partial list. */
  method Parse(dec: Decoders, s: Stream) returns (r: Outcome)
    ensures r == Decode(dec, s)
  {
    var buffer: seq<byte> := [];
    buffer := buffer + s.content;
    if s.fails {
      return Err(Io(READ_FAILED));
    }
    assert buffer == s.content;
    match dec.jsonMessages(buffer)
    case Err(m) =>
      r := Err(JsonError(m));
    case Ok(ms) =>
      r := Ok(ms);
  }
}

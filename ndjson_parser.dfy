/** The line-delimited JSON parser (backend/parser/src/ndjson_parser.rs). */
module NdjsonParser {
  import opened Wrappers
  import opened Types
  import opened Text
  import opened Utf8
  import opened BaseParser

  const NAME: string := "ndjson"
  const EXTENSIONS: seq<string> := ["ndjson", "jsonl"]

  /** `can_parse`: the trimmed sample starts with `{` and its first line ends,
      after right-trimming, with `}` and decodes as a JSON value. Unlike
      `detect_format`, a single line is enough. */
  predicate CanParse(dec: Decoders, data: seq<byte>) {
    var t := Trim(SampleText(data));
    StartsWith(t, [LBRACE]) &&
    |Lines(t)| > 0 &&
    EndsWith(TrimEnd(Lines(t)[0]), [RBRACE]) &&
    dec.jsonValue(Lines(t)[0])
  }

  /** Every sample that `detect_format` calls NDJSON and whose first line
      decodes is accepted here too; a lone `{...}` line is accepted as well
      although `detect_format` rejects it. */
  lemma CanParseIsWeakerThanDetect(dec: Decoders, data: seq<byte>)
    requires DetectFormat(data) == Ndjson
    requires dec.jsonValue(Lines(Trim(SampleText(data)))[0])
    ensures CanParse(dec, data)
  {
  }

  /** Without a leading `{` after trimming, the sample is refused whatever
      the decoder says. */
  lemma NoBraceNoParse(dec: Decoders, data: seq<byte>)
    requires !StartsWith(Trim(SampleText(data)), [LBRACE])
    ensures !CanParse(dec, data)
  {
  }

  const INVALID_UTF8: string := "stream did not contain valid UTF-8"

  /** A line read by `BufRead::lines`: the text without its LF and, when an
      LF ended it, without the CR before that; or an I/O error when the line
      is not UTF-8. */
  function LineItem(raw: seq<byte>, terminated: bool): Result<seq<byte>, ParseError> {
    if !ValidUtf8(raw) then Err(Io(INVALID_UTF8))
    else if terminated then Ok(StripCr(raw))
    else Ok(raw)
  }

  /** The items `BufRead::lines()` yields over a stream: one per LF-terminated
      line, then the unterminated rest when it is non-empty; a stream that
      fails yields an error in place of its unterminated rest. */
  function LineItems(s: Stream): (items: seq<Result<seq<byte>, ParseError>>)
    ensures s.fails ==> items != [] && items[|items| - 1] == Err(Io(READ_FAILED))
    decreases |s.content|
  {
    var c := s.content;
    if c == [] then
      if s.fails then [Err(Io(READ_FAILED))] else []
    else
      var k := LineEnd(c);
      if k < |c| then [LineItem(c[..k], true)] + LineItems(Stream(c[k + 1..], s.fails))
      else if s.fails then [Err(Io(READ_FAILED))]
      else [LineItem(c, false)]
  }

  /** One turn of the parse loop: a read error ends everything, a blank line
      leaves the outcome `rest` of the later lines as it is, and any other
      line is decoded and its message put in front of `rest`. */
  function Step(dec: Decoders, item: Result<seq<byte>, ParseError>, rest: Outcome): Outcome {
    match item
    case Err(e) => Err(e)
    case Ok(line) =>
      var t := Trim(line);
      if t == [] then rest
      else match dec.jsonMessage(t)
        case Err(m) => Err(JsonError(m))
        case Ok(msg) => Prepend([msg], rest)
  }

  /** The outcome of the parse loop over the line items, first line first. */
  function Decode(dec: Decoders, items: seq<Result<seq<byte>, ParseError>>): Outcome
    decreases |items|
  {
    if items == [] then Ok([]) else Step(dec, items[0], Decode(dec, items[1..]))
  }

  /** `parse`: the loop over `lines()` that pushes one message per
      non-blank line and returns at the first error. */
  method Parse(dec: Decoders, s: Stream) returns (r: Outcome)
    ensures r == Decode(dec, LineItems(s))
  {
    var items := LineItems(s);
    var messages: seq<ParsedMessage> := [];
    var i := 0;
    assert items[i..] == items;
    PrependNothing(Decode(dec, items));
    while i < |items|
      invariant 0 <= i <= |items|
      invariant Decode(dec, items) == Prepend(messages, Decode(dec, items[i..]))
    {
      ghost var rest := Decode(dec, items[i + 1..]);
      DecodeAt(dec, items, i);
      match items[i]
      case Err(e) =>
        return Err(e);
      case Ok(line) =>
        var t := Trim(line);
        if t != [] {
          match dec.jsonMessage(t)
          case Err(m) =>
            return Err(JsonError(m));
          case Ok(msg) =>
            PrependTwice(messages, [msg], rest);
            messages := messages + [msg];
        }
      i := i + 1;
    }
    assert items[i..] == [];
    assert messages + [] == messages;
    return Ok(messages);
  }

  lemma DecodeAt(dec: Decoders, items: seq<Result<seq<byte>, ParseError>>, i: nat)
    requires i < |items|
    ensures Decode(dec, items[i..]) == Step(dec, items[i], Decode(dec, items[i + 1..]))
  {
    assert items[i..][1..] == items[i + 1..];
  }

  /** All items are lines: nothing failed while reading. */
  predicate AllRead(items: seq<Result<seq<byte>, ParseError>>) {
    forall i :: 0 <= i < |items| ==> items[i].Ok?
  }

  /** The trimmed non-blank lines, in order. */
  function NonBlank(items: seq<Result<seq<byte>, ParseError>>): seq<seq<byte>>
    requires AllRead(items)
    decreases |items|
  {
    if items == [] then []
    else
      var t := Trim(items[0].value);
      if t == [] then NonBlank(items[1..]) else [t] + NonBlank(items[1..])
  }

  /** Every non-blank line decodes to a message. */
  predicate AllDecode(dec: Decoders, lines: seq<seq<byte>>) {
    forall k :: 0 <= k < |lines| ==> dec.jsonMessage(lines[k]).Ok?
  }

  /** The parse succeeds exactly when every line was read and every
      non-blank line decodes. */
  lemma {:induction false} DecodeOkIff(dec: Decoders, items: seq<Result<seq<byte>, ParseError>>)
    ensures Decode(dec, items).Ok? <==> AllRead(items) && AllDecode(dec, NonBlank(items))
    decreases |items|
  {
    if items != [] {
      var rest := items[1..];
      DecodeOkIff(dec, rest);
      if items[0].Err? {
        assert !AllRead(items);
      } else {
        assert AllRead(items) <==> AllRead(rest) by {
          if AllRead(rest) {
            forall i | 0 <= i < |items| ensures items[i].Ok? {
              if i > 0 { assert items[i] == rest[i - 1]; }
            }
          }
        }
        var t := Trim(items[0].value);
        if AllRead(items) && t != [] {
          var nb := NonBlank(items);
          var nr := NonBlank(rest);
          assert nb == [t] + nr;
          assert AllDecode(dec, nb) <==> dec.jsonMessage(t).Ok? && AllDecode(dec, nr) by {
            if dec.jsonMessage(t).Ok? && AllDecode(dec, nr) {
              forall k | 0 <= k < |nb| ensures dec.jsonMessage(nb[k]).Ok? {
                if k > 0 { assert nb[k] == nr[k - 1]; }
              }
            }
            if AllDecode(dec, nb) {
              assert nb[0] == t;
              forall k | 0 <= k < |nr| ensures dec.jsonMessage(nr[k]).Ok? {
                assert nr[k] == nb[k + 1];
              }
            }
          }
        }
      }
    }
  }

  /** A successful parse holds one message per non-blank line, in input
      order: the k-th message is what the k-th non-blank line decodes to. */
  lemma {:induction false} DecodeContents(dec: Decoders, items: seq<Result<seq<byte>, ParseError>>)
    requires Decode(dec, items).Ok?
    ensures AllRead(items)
    ensures var ms := Decode(dec, items).value;
      |ms| == |NonBlank(items)| &&
      forall k :: 0 <= k < |ms| ==> dec.jsonMessage(NonBlank(items)[k]) == Ok(ms[k])
    decreases |items|
  {
    if items != [] {
      var rest := items[1..];
      assert Decode(dec, items) == Step(dec, items[0], Decode(dec, rest));
      assert items[0].Ok?;
      var t := Trim(items[0].value);
      if t == [] {
        assert Decode(dec, items) == Decode(dec, rest);
        DecodeContents(dec, rest);
        AllReadTail(items);
        assert NonBlank(items) == NonBlank(rest);
      } else {
        assert dec.jsonMessage(t).Ok?;
        var msg := dec.jsonMessage(t).value;
        assert Decode(dec, items) == Prepend([msg], Decode(dec, rest));
        assert Decode(dec, rest).Ok?;
        DecodeContents(dec, rest);
        AllReadTail(items);
        var ms := Decode(dec, items).value;
        var mr := Decode(dec, rest).value;
        assert ms == [msg] + mr;
        var nb := NonBlank(items);
        var nr := NonBlank(rest);
        assert nb == [t] + nr;
        forall k | 0 <= k < |ms| ensures dec.jsonMessage(nb[k]) == Ok(ms[k]) {
          if k > 0 { assert nb[k] == nr[k - 1] && ms[k] == mr[k - 1]; }
        }
      }
    }
  }

  /** A line followed by lines that were all read: all were read. */
  lemma AllReadTail(items: seq<Result<seq<byte>, ParseError>>)
    requires items != [] && items[0].Ok? && AllRead(items[1..])
    ensures AllRead(items)
  {
    forall i | 0 <= i < |items| ensures items[i].Ok? {
      if i > 0 { assert items[i] == items[1..][i - 1]; }
    }
  }

  /** A stream that fails while being read gives an error, whatever it
      held before the failure. */
  lemma {:induction false} ReadFailureAborts(dec: Decoders, s: Stream)
    requires s.fails
    ensures Decode(dec, LineItems(s)).Err?
  {
    var items := LineItems(s);
    DecodeOkIff(dec, items);
    assert !items[|items| - 1].Ok?;
  }
}

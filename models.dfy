/** The service's record and query shapes (backend/service/src/models.rs)
    and the conversion of a parsed message into a stored row. */
module Models {
  import opened Wrappers
  import opened Types

  /** The ten columns a stored row has (`ConvertedMessage` without its
      body). `dir` is 1 for host to equipment and -1 for equipment to host. */
  datatype Row = Row(
    ts_ns: i64,
    dir: i8,
    s: u8,
    f: u8,
    wbit: u8,
    sysbytes: u32,
    ceid: u32,
    vid: u32,
    rptid: u32,
    row_id: u32)

  /** `ConvertedMessage`: a row and its JSON body. */
  datatype ConvertedMessage = ConvertedMessage(row: Row, body_json: Json)

  /** `SessionMeta`: the summary written beside a session's chunks. */
  datatype SessionMeta = SessionMeta(
    row_count: nat,
    t_min_ns: i64,
    t_max_ns: i64,
    distinct_s: seq<u8>,
    distinct_f: seq<u8>,
    distinct_ceid: seq<u32>,
    distinct_vid: seq<u32>,
    distinct_rptid: seq<u32>)

  /** `TimeFilter`: bounds in nanoseconds; 0 (the default) means none. */
  datatype TimeFilter = TimeFilter(from_ns: i64, to_ns: i64)

  /** `FilterExpr`: every field defaults to "no constraint". */
  datatype FilterExpr = FilterExpr(
    time: TimeFilter,
    dir: i8,
    s: seq<u8>,
    f: seq<u8>,
    ceid: seq<u32>,
    vid: seq<u32>,
    rptid: seq<u32>,
    text: string)

  /** The filter every `#[serde(default)]` gives when a request names no field. */
  const DEFAULT_FILTER: FilterExpr := FilterExpr(TimeFilter(0, 0), 0, [], [], [], [], [], "")

  const HOST_TO_EQUIPMENT: string := "H->E"
  const EQUIPMENT_TO_HOST: string := "E->H"

  /** `parse_timestamp`: `rfc3339` stands for chrono's RFC 3339 parser and
      UTC conversion, giving nanoseconds since the epoch as an unbounded
      integer, or None when the text is not an RFC 3339 date-time. A value
      outside i64 is the "out of range" error of `timestamp_nanos_opt`. */
  function ParseTimestamp(rfc3339: string -> Option<int>, ts_iso: string): (r: Result<i64, string>)
    ensures r.Ok? <==> rfc3339(ts_iso).Some? && InI64(rfc3339(ts_iso).value)
    ensures r.Ok? ==> r.value == rfc3339(ts_iso).value
  {
    match rfc3339(ts_iso)
    case None => Err("Invalid timestamp " + ts_iso)
    case Some(ns) =>
      if InI64(ns) then Ok(ns) else Err("Timestamp out of range: " + ts_iso)
  }

  /** The direction code of a direction string, or None when it is neither
      `H->E` nor `E->H`. */
  function DirCode(dir: string): (r: Option<i8>)
    ensures r.Some? <==> dir == HOST_TO_EQUIPMENT || dir == EQUIPMENT_TO_HOST
    ensures r.Some? ==> r.value != 0
  {
    if dir == HOST_TO_EQUIPMENT then Some(1)
    else if dir == EQUIPMENT_TO_HOST then Some(-1)
    else None
  }

  /** `ConvertedMessage::from_parsed`: the timestamp is checked first, then
      the direction; everything else is copied, and the row id is the
      caller's. */
  function FromParsed(rfc3339: string -> Option<int>, msg: ParsedMessage, row_id: u32): (r: Result<ConvertedMessage, string>)
    ensures r.Ok? <==> ParseTimestamp(rfc3339, msg.ts_iso).Ok? && DirCode(msg.dir).Some?
    ensures ParseTimestamp(rfc3339, msg.ts_iso).Err? ==> r == Err(ParseTimestamp(rfc3339, msg.ts_iso).error)
    ensures ParseTimestamp(rfc3339, msg.ts_iso).Ok? && DirCode(msg.dir).None? ==>
      r == Err("Invalid direction: " + msg.dir)
    ensures r.Ok? ==> var m := r.value.row;
      m.ts_ns == rfc3339(msg.ts_iso).value &&
      (m.dir == 1 <==> msg.dir == HOST_TO_EQUIPMENT) &&
      (m.dir == -1 <==> msg.dir == EQUIPMENT_TO_HOST) &&
      m.s == msg.s && m.f == msg.f && m.wbit == msg.wbit && m.sysbytes == msg.sysbytes &&
      m.ceid == msg.ceid && m.vid == msg.vid && m.rptid == msg.rptid &&
      m.row_id == row_id && r.value.body_json == msg.body_json
  {
    match ParseTimestamp(rfc3339, msg.ts_iso)
    case Err(e) => Err(e)
    case Ok(ts_ns) =>
      match DirCode(msg.dir)
      case None => Err("Invalid direction: " + msg.dir)
      case Some(dir) =>
        Ok(ConvertedMessage(
          Row(ts_ns, dir, msg.s, msg.f, msg.wbit, msg.sysbytes, msg.ceid, msg.vid, msg.rptid, row_id),
          msg.body_json))
  }
}

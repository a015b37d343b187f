/** The two pieces of the HTTP layer (backend/service/src/routes.rs) that
    hold logic of their own: the row ids given to parsed messages on upload,
    and `apply_filter`, which selects the rows of one chunk for a query. */
module Routes {
  import opened Wrappers
  import opened Types
  import opened Text
  import opened Models
  import opened Storage

  // ---------------------------------------------------------------------
  // Row ids on upload
  // ---------------------------------------------------------------------

  /** `idx as u32`: the enumeration index truncated to 32 bits. */
  function RowIdOf(idx: nat): (id: u32)
    ensures idx < U32_MODULUS ==> id == idx
  {
    idx % U32_MODULUS
  }

  /** `enumerate().map(|(idx, msg)| from_parsed(msg, idx as u32))` collected
      into a `Result`, for the messages from position `start` on: the
      conversions in order, or the error of the first one that fails. */
  function ConvertFrom(rfc3339: string -> Option<int>, msgs: seq<ParsedMessage>, start: nat)
    : Result<seq<ConvertedMessage>, string>
    decreases |msgs|
  {
    if msgs == [] then Ok([])
    else match FromParsed(rfc3339, msgs[0], RowIdOf(start))
      case Err(e) => Err(e)
      case Ok(m) =>
        match ConvertFrom(rfc3339, msgs[1..], start + 1)
        case Err(e) => Err(e)
        case Ok(ms) => Ok([m] + ms)
  }

  /** The conversion of a whole upload, ids counted from 0. */
  function ConvertAll(rfc3339: string -> Option<int>, msgs: seq<ParsedMessage>): Result<seq<ConvertedMessage>, string> {
    ConvertFrom(rfc3339, msgs, 0)
  }

  /** The message converts: its timestamp and its direction are valid (the
      row id plays no part). */
  predicate Converts(rfc3339: string -> Option<int>, msg: ParsedMessage) {
    ParseTimestamp(rfc3339, msg.ts_iso).Ok? && DirCode(msg.dir).Some?
  }

  /** A successful conversion holds, at position i, the conversion of the
      i-th message with row id `i as u32`; it succeeds exactly when every
      message converts. */
  lemma {:induction false} ConvertFromContents(rfc3339: string -> Option<int>, msgs: seq<ParsedMessage>, start: nat)
    ensures ConvertFrom(rfc3339, msgs, start).Ok? <==> forall i :: 0 <= i < |msgs| ==> Converts(rfc3339, msgs[i])
    ensures ConvertFrom(rfc3339, msgs, start).Ok? ==>
      var ms := ConvertFrom(rfc3339, msgs, start).value;
      |ms| == |msgs| &&
      forall i :: 0 <= i < |msgs| ==> FromParsed(rfc3339, msgs[i], RowIdOf(start + i)) == Ok(ms[i])
    decreases |msgs|
  {
    if msgs != [] {
      var tail := msgs[1..];
      ConvertFromContents(rfc3339, tail, start + 1);
      assert (forall i :: 0 <= i < |msgs| ==> Converts(rfc3339, msgs[i])) <==>
             Converts(rfc3339, msgs[0]) && forall i :: 0 <= i < |tail| ==> Converts(rfc3339, tail[i]) by {
        if Converts(rfc3339, msgs[0]) && forall i :: 0 <= i < |tail| ==> Converts(rfc3339, tail[i]) {
          forall i | 0 <= i < |msgs| ensures Converts(rfc3339, msgs[i]) {
            if i > 0 { assert msgs[i] == tail[i - 1]; }
          }
        }
        if forall i :: 0 <= i < |msgs| ==> Converts(rfc3339, msgs[i]) {
          forall i | 0 <= i < |tail| ensures Converts(rfc3339, tail[i]) {
            assert tail[i] == msgs[i + 1];
          }
        }
      }
      var r := ConvertFrom(rfc3339, msgs, start);
      if r.Ok? {
        var m := FromParsed(rfc3339, msgs[0], RowIdOf(start)).value;
        var ms := ConvertFrom(rfc3339, tail, start + 1).value;
        assert r.value == [m] + ms;
        forall i | 0 <= i < |msgs| ensures FromParsed(rfc3339, msgs[i], RowIdOf(start + i)) == Ok(r.value[i]) {
          if i > 0 {
            assert msgs[i] == tail[i - 1] && r.value[i] == ms[i - 1];
            assert start + i == (start + 1) + (i - 1);
          }
        }
      }
    }
  }

  /** A failed conversion reports the error of the first message that does
      not convert. */
  lemma {:induction false} ConvertFromFirstError(rfc3339: string -> Option<int>, msgs: seq<ParsedMessage>, start: nat)
    requires ConvertFrom(rfc3339, msgs, start).Err?
    ensures exists k :: (0 <= k < |msgs| && !Converts(rfc3339, msgs[k]) &&
      (forall i :: 0 <= i < k ==> Converts(rfc3339, msgs[i])) &&
      ConvertFrom(rfc3339, msgs, start).error == FromParsed(rfc3339, msgs[k], RowIdOf(start + k)).error)
    decreases |msgs|
  {
    var tail := msgs[1..];
    if Converts(rfc3339, msgs[0]) {
      ConvertFromFirstError(rfc3339, tail, start + 1);
      var k :| 0 <= k < |tail| && !Converts(rfc3339, tail[k]) &&
        (forall i :: 0 <= i < k ==> Converts(rfc3339, tail[i])) &&
        ConvertFrom(rfc3339, tail, start + 1).error == FromParsed(rfc3339, tail[k], RowIdOf(start + 1 + k)).error;
      assert msgs[k + 1] == tail[k];
      forall i | 0 <= i < k + 1 ensures Converts(rfc3339, msgs[i]) {
        if i > 0 { assert msgs[i] == tail[i - 1]; }
      }
    } else {
      assert RowIdOf(start + 0) == RowIdOf(start);
    }
  }

  /** The row ids of a converted upload: position i gets `i as u32`, so
      uploads of at most 2^32 messages get pairwise distinct ids, and the
      ids repeat from position 2^32 on. */
  lemma RowIds(rfc3339: string -> Option<int>, msgs: seq<ParsedMessage>)
    requires ConvertAll(rfc3339, msgs).Ok?
    ensures var ms := ConvertAll(rfc3339, msgs).value;
      |ms| == |msgs| &&
      (forall i :: 0 <= i < |ms| ==> ms[i].row.row_id == i % U32_MODULUS) &&
      (|msgs| <= U32_MODULUS ==> forall i, j :: 0 <= i < j < |ms| ==> ms[i].row.row_id != ms[j].row.row_id) &&
      (U32_MODULUS < |msgs| ==> ms[0].row.row_id == ms[U32_MODULUS].row.row_id)
  {
    ConvertFromContents(rfc3339, msgs, 0);
    var ms := ConvertAll(rfc3339, msgs).value;
    forall i | 0 <= i < |ms| ensures ms[i].row.row_id == i % U32_MODULUS {
      assert FromParsed(rfc3339, msgs[i], RowIdOf(0 + i)) == Ok(ms[i]);
    }
  }

  // ---------------------------------------------------------------------
  // apply_filter
  // ---------------------------------------------------------------------

  /** Where the text search reads payloads: the storage's files and the
      session id, present only when both were given. */
  datatype SearchSource = SearchSource(files: map<Path, Content>, id: string)

  function SourceOf(storage: SessionStorage?, sessionId: Option<string>): Option<SearchSource>
    reads storage
  {
    if storage != null && sessionId.Some? then Some(SearchSource(storage.files, sessionId.value)) else None
  }

  /** An empty list places no constraint; otherwise the value must be in it. */
  predicate Allowed<T(==)>(list: seq<T>, v: T) {
    list == [] || v in list
  }

  /** A bound of 0 or below is no bound; the bounds are inclusive. */
  predicate InTimeRange(t: TimeFilter, ts: i64) {
    (t.from_ns > 0 ==> t.from_ns <= ts) && (t.to_ns > 0 ==> ts <= t.to_ns)
  }

  /** The column tests: direction (0 accepts both), the five tag lists and
      the time window. */
  predicate ColumnsMatch(filter: FilterExpr, r: Row) {
    (filter.dir == 0 || filter.dir == r.dir) &&
    Allowed(filter.s, r.s) && Allowed(filter.f, r.f) &&
    Allowed(filter.ceid, r.ceid) && Allowed(filter.vid, r.vid) && Allowed(filter.rptid, r.rptid) &&
    InTimeRange(filter.time, r.ts_ns)
  }

  /** The text test: with a non-empty search text and a place to read from,
      the row's payload must load and its serialisation (`toJson`, standing
      for `serde_json::to_string`), lower-cased, must contain the lower-cased
      text. A payload that does not load drops the row. */
  predicate TextMatches(filter: FilterExpr, src: Option<SearchSource>, toJson: Json -> string, r: Row) {
    filter.text == [] || src.None? ||
    match LoadPayload(src.value.files, src.value.id, r.row_id)
    case Err(_) => false
    case Ok(payload) => Contains(Lower(toJson(payload)), Lower(filter.text))
  }

  predicate Keep(filter: FilterExpr, src: Option<SearchSource>, toJson: Json -> string, r: Row) {
    ColumnsMatch(filter, r) && TextMatches(filter, src, toJson, r)
  }

  /** The message a kept row becomes: every column copied, the body Null. */
  function Stripped(r: Row): ConvertedMessage {
    ConvertedMessage(r, Null)
  }

  /** The rows of `batch` that pass, as messages, in batch order. */
  function FilterRows(batch: seq<Row>, filter: FilterExpr, src: Option<SearchSource>, toJson: Json -> string)
    : seq<ConvertedMessage>
    decreases |batch|
  {
    if batch == [] then []
    else
      var last := batch[|batch| - 1];
      FilterRows(batch[..|batch| - 1], filter, src, toJson) + (if Keep(filter, src, toJson, last) then [Stripped(last)] else [])
  }

  /** `apply_filter`: the index loop over the batch that skips a row at the
      first test it fails and otherwise pushes it with a Null body. The
      columns of the record batch are the fields of `batch`'s rows. */
  method ApplyFilter(batch: seq<Row>, filter: FilterExpr, storage: SessionStorage?, sessionId: Option<string>,
                     toJson: Json -> string)
    returns (results: seq<ConvertedMessage>)
    ensures results == FilterRows(batch, filter, SourceOf(storage, sessionId), toJson)
  {
    ghost var src := SourceOf(storage, sessionId);
    var searchText := if filter.text != [] then Some(Lower(filter.text)) else None;
    results := [];
    for i := 0 to |batch|
      invariant results == FilterRows(batch[..i], filter, src, toJson)
    {
      var r := batch[i];
      FilterStep(batch, i, filter, src, toJson);
      if filter.dir != 0 && filter.dir != r.dir {
        continue;
      }
      if filter.s != [] && r.s !in filter.s {
        continue;
      }
      if filter.f != [] && r.f !in filter.f {
        continue;
      }
      if filter.ceid != [] && r.ceid !in filter.ceid {
        continue;
      }
      if filter.vid != [] && r.vid !in filter.vid {
        continue;
      }
      if filter.rptid != [] && r.rptid !in filter.rptid {
        continue;
      }
      if filter.time.from_ns > 0 && r.ts_ns < filter.time.from_ns {
        continue;
      }
      if filter.time.to_ns > 0 && r.ts_ns > filter.time.to_ns {
        continue;
      }
      if searchText.Some? && storage != null && sessionId.Some? {
        var loaded := storage.ReadPayload(sessionId.value, r.row_id);
        if loaded.Err? {
          continue;
        }
        if !Contains(Lower(toJson(loaded.value)), searchText.value) {
          continue;
        }
      }
      results := results + [Stripped(r)];
    }
    assert batch[..|batch|] == batch;
  }

  /** One more row of the batch: it is appended exactly when it is kept. */
  lemma FilterStep(batch: seq<Row>, i: nat, filter: FilterExpr, src: Option<SearchSource>, toJson: Json -> string)
    requires i < |batch|
    ensures FilterRows(batch[..i + 1], filter, src, toJson) ==
      FilterRows(batch[..i], filter, src, toJson) + (if Keep(filter, src, toJson, batch[i]) then [Stripped(batch[i])] else [])
  {
    assert batch[..i + 1][..i] == batch[..i];
  }

  /** The positions of the rows that pass, in increasing order. */
  function KeptIndices(batch: seq<Row>, filter: FilterExpr, src: Option<SearchSource>, toJson: Json -> string)
    : seq<nat>
    decreases |batch|
  {
    if batch == [] then []
    else
      var n := |batch| - 1;
      KeptIndices(batch[..n], filter, src, toJson) + (if Keep(filter, src, toJson, batch[n]) then [n] else [])
  }

  /** The kept positions lie in the batch, increase, and are exactly the
      positions of the rows that pass every test. */
  lemma {:induction false} KeptIndicesExact(batch: seq<Row>, filter: FilterExpr, src: Option<SearchSource>,
                                            toJson: Json -> string)
    ensures var ix := KeptIndices(batch, filter, src, toJson);
      (forall k :: 0 <= k < |ix| ==> ix[k] < |batch|) &&
      (forall k, l :: 0 <= k < l < |ix| ==> ix[k] < ix[l]) &&
      (forall j :: 0 <= j < |batch| ==> (j in ix <==> Keep(filter, src, toJson, batch[j])))
    decreases |batch|
  {
    if batch != [] {
      var n := |batch| - 1;
      var init := batch[..n];
      KeptIndicesExact(init, filter, src, toJson);
      var ix0 := KeptIndices(init, filter, src, toJson);
      AppendPosition(ix0, n, Keep(filter, src, toJson, batch[n]));
      forall j | 0 <= j < n ensures init[j] == batch[j] { }
    }
  }

  /** Appending position `n` (or nothing) to increasing positions below
      `n` keeps them increasing and adds `n` alone. */
  lemma AppendPosition(ix0: seq<nat>, n: nat, add: bool)
    requires forall k :: 0 <= k < |ix0| ==> ix0[k] < n
    requires forall k, l :: 0 <= k < l < |ix0| ==> ix0[k] < ix0[l]
    ensures var ix := ix0 + (if add then [n] else []);
      (forall k :: 0 <= k < |ix| ==> ix[k] < n + 1) &&
      (forall k, l :: 0 <= k < l < |ix| ==> ix[k] < ix[l]) &&
      (n in ix <==> add) &&
      (forall j :: 0 <= j < n ==> (j in ix <==> j in ix0))
  {
  }

  /** What `apply_filter` returns, stated by positions: the k-th result is
      the row at the k-th kept position. */
  lemma {:induction false} FilterRowsByPosition(batch: seq<Row>, filter: FilterExpr, src: Option<SearchSource>,
                                                toJson: Json -> string)
    ensures var out, ix := FilterRows(batch, filter, src, toJson), KeptIndices(batch, filter, src, toJson);
      |out| == |ix| &&
      (forall k :: 0 <= k < |ix| ==> ix[k] < |batch| && out[k] == Stripped(batch[ix[k]]))
    decreases |batch|
  {
    if batch != [] {
      var n := |batch| - 1;
      FilterRowsByPosition(batch[..n], filter, src, toJson);
      KeptIndicesExact(batch[..n], filter, src, toJson);
      var out0, ix0 := FilterRows(batch[..n], filter, src, toJson), KeptIndices(batch[..n], filter, src, toJson);
      assert forall k :: 0 <= k < |ix0| ==> batch[..n][ix0[k]] == batch[ix0[k]];
    }
  }

  /** The results are exactly the kept rows: each result is a kept row of
      the batch with a Null body, and each kept row is among the results. */
  lemma FilterRowsSoundComplete(batch: seq<Row>, filter: FilterExpr, src: Option<SearchSource>, toJson: Json -> string)
    ensures var out := FilterRows(batch, filter, src, toJson);
      (forall m :: m in out ==> m.body_json == Null && m.row in batch && Keep(filter, src, toJson, m.row)) &&
      (forall j :: 0 <= j < |batch| && Keep(filter, src, toJson, batch[j]) ==> Stripped(batch[j]) in out)
  {
    FilterRowsByPosition(batch, filter, src, toJson);
    KeptIndicesExact(batch, filter, src, toJson);
    var out, ix := FilterRows(batch, filter, src, toJson), KeptIndices(batch, filter, src, toJson);
    forall m | m in out ensures m.body_json == Null && m.row in batch && Keep(filter, src, toJson, m.row) {
      var k :| 0 <= k < |out| && out[k] == m;
      assert batch[ix[k]] == m.row;
      assert ix[k] in ix;
    }
    forall j | 0 <= j < |batch| && Keep(filter, src, toJson, batch[j]) ensures Stripped(batch[j]) in out {
      var k :| 0 <= k < |ix| && ix[k] == j;
      assert out[k] == Stripped(batch[j]);
    }
  }

  /** A filter with every field at its default returns every row, in
      order. */
  lemma {:induction false} DefaultFilterKeepsAll(batch: seq<Row>, src: Option<SearchSource>, toJson: Json -> string)
    ensures FilterRows(batch, DEFAULT_FILTER, src, toJson) == seq(|batch|, i requires 0 <= i < |batch| => Stripped(batch[i]))
    decreases |batch|
  {
    if batch != [] {
      var n := |batch| - 1;
      DefaultFilterKeepsAll(batch[..n], src, toJson);
      assert Keep(DEFAULT_FILTER, src, toJson, batch[n]);
    }
  }

  /** Without a storage or a session id the search text is ignored: the
      result is what the same filter with no text gives. */
  lemma {:induction false} NoSourceIgnoresText(batch: seq<Row>, filter: FilterExpr, toJson: Json -> string)
    ensures FilterRows(batch, filter, None, toJson) == FilterRows(batch, filter.(text := ""), None, toJson)
    decreases |batch|
  {
    if batch != [] {
      NoSourceIgnoresText(batch[..|batch| - 1], filter, toJson);
    }
  }

  /** With a non-empty search text, a row whose payload file is missing is
      never returned, whatever its columns. */
  lemma MissingPayloadDropsRow(batch: seq<Row>, filter: FilterExpr, src: SearchSource, toJson: Json -> string, r: Row)
    requires filter.text != [] && PayloadPath(src.id, r.row_id) !in src.files
    ensures Stripped(r) !in FilterRows(batch, filter, Some(src), toJson)
  {
    FilterRowsSoundComplete(batch, filter, Some(src), toJson);
  }

  /** The search is case-insensitive in ASCII: two search texts that differ
      only in the case of their letters select the same rows. */
  lemma {:induction false} SearchIgnoresCase(batch: seq<Row>, filter: FilterExpr, src: Option<SearchSource>,
                                            toJson: Json -> string, text: string)
    requires EqualIgnoringCase(filter.text, text)
    ensures FilterRows(batch, filter, src, toJson) == FilterRows(batch, filter.(text := text), src, toJson)
    decreases |batch|
  {
    if batch != [] {
      SearchIgnoresCase(batch[..|batch| - 1], filter, src, toJson, text);
      LowerIgnoresCase(filter.text, text);
      var last := batch[|batch| - 1];
      assert TextMatches(filter, src, toJson, last) == TextMatches(filter.(text := text), src, toJson, last);
    }
  }
}

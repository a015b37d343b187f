/** `ingest_messages` (backend/service/src/storage.rs): one payload file per
    message, a chunk file every `CHUNK_SIZE` rows and one for the rest, and
    the session summary last. Its effect is specified by the sequence of
    writes it makes when nothing fails, applied in order up to the first
    write the filesystem refuses. */
module Ingest {
  import opened Wrappers
  import opened Types
  import opened Models
  import opened ArrowIo
  import opened Storage

  /** One file created during ingestion: the payload of a row, or a
      chunk of rows. */
  datatype Write =
    | Payload(id: string, rowId: u32, body: Json)
    | Chunk(id: string, idx: nat, rows: seq<Row>)
  {
    function FilePath(): Path {
      match this
      case Payload(id, rowId, _) => PayloadPath(id, rowId)
      case Chunk(id, idx, _) => ChunkPath(id, idx)
    }

    function FileContent(): Content {
      match this
      case Payload(_, _, body) => PayloadFile(body)
      case Chunk(_, _, rows) => ChunkFile(rows)
    }
  }

  function RowsOf(msgs: seq<ConvertedMessage>): (rows: seq<Row>)
    ensures |rows| == |msgs|
    ensures forall i :: 0 <= i < |msgs| ==> rows[i] == msgs[i].row
  {
    seq(|msgs|, i requires 0 <= i < |msgs| => msgs[i].row)
  }

  function PayloadWrite(id: string, m: ConvertedMessage): Write {
    Payload(id, m.row.row_id, m.body_json)
  }

  function ChunkWrite(id: string, idx: nat, rows: seq<Row>): Write {
    Chunk(id, idx, rows)
  }

  /** The payload writes for `ms`, in message order. */
  function Payloads(id: string, ms: seq<ConvertedMessage>): (ws: seq<Write>)
    ensures |ws| == |ms|
    ensures forall i :: 0 <= i < |ms| ==> ws[i] == PayloadWrite(id, ms[i])
  {
    seq(|ms|, i requires 0 <= i < |ms| => PayloadWrite(id, ms[i]))
  }

  /** The messages as the builder groups them: `CHUNK_SIZE` at a time, the
      rest, if any, last. */
  function Batches(msgs: seq<ConvertedMessage>): seq<seq<ConvertedMessage>>
    decreases |msgs|
  {
    if msgs == [] then []
    else if |msgs| <= CHUNK_SIZE then [msgs]
    else [msgs[..CHUNK_SIZE]] + Batches(msgs[CHUNK_SIZE..])
  }

  function Flatten(bs: seq<seq<ConvertedMessage>>): seq<ConvertedMessage>
    decreases |bs|
  {
    if bs == [] then [] else bs[0] + Flatten(bs[1..])
  }

  /** The batches hold every message once, in order; every batch holds
      between 1 and `CHUNK_SIZE` messages, and all but the last exactly
      `CHUNK_SIZE`. */
  lemma {:induction false} BatchesCover(msgs: seq<ConvertedMessage>)
    ensures Flatten(Batches(msgs)) == msgs
    ensures forall k :: 0 <= k < |Batches(msgs)| ==> 0 < |Batches(msgs)[k]| <= CHUNK_SIZE
    ensures forall k :: 0 <= k < |Batches(msgs)| - 1 ==> |Batches(msgs)[k]| == CHUNK_SIZE
    decreases |msgs|
  {
    var bs := Batches(msgs);
    if |msgs| > CHUNK_SIZE {
      var rest := Batches(msgs[CHUNK_SIZE..]);
      BatchesCover(msgs[CHUNK_SIZE..]);
      assert bs[1..] == rest;
      assert msgs == msgs[..CHUNK_SIZE] + msgs[CHUNK_SIZE..];
      forall k | 1 <= k < |bs| ensures 0 < |bs[k]| <= CHUNK_SIZE && (k < |bs| - 1 ==> |bs[k]| == CHUNK_SIZE) {
        assert bs[k] == rest[k - 1];
      }
    } else if msgs != [] {
      assert bs[1..] == [];
      assert msgs + [] == msgs;
    }
  }

  /** A full batch in front is a batch of its own. */
  lemma BatchesOfFull(b: seq<ConvertedMessage>, rest: seq<ConvertedMessage>)
    requires |b| == CHUNK_SIZE
    ensures Batches(b + rest) == [b] + Batches(rest)
  {
    var m := b + rest;
    if |m| > CHUNK_SIZE {
      assert m[..CHUNK_SIZE] == b && m[CHUNK_SIZE..] == rest;
    } else {
      assert rest == [] && m == b;
    }
  }

  /** Messages behind full batches are batched on their own. */
  lemma {:induction false} BatchesAfter(done: seq<seq<ConvertedMessage>>, rest: seq<ConvertedMessage>)
    requires forall b :: b in done ==> |b| == CHUNK_SIZE
    ensures Batches(Flatten(done) + rest) == done + Batches(rest)
    decreases |done|
  {
    if done != [] {
      var d0, ds := done[0], done[1..];
      FullTail(done);
      BatchesAfter(ds, rest);
      FlattenFront(done, rest);
      BatchesOfFull(d0, Flatten(ds) + rest);
      ConsAppend(done, Batches(rest));
    } else {
      assert Flatten(done) + rest == rest;
    }
  }

  /** Batches behind a full first batch are full. */
  lemma FullTail(done: seq<seq<ConvertedMessage>>)
    requires done != [] && forall b :: b in done ==> |b| == CHUNK_SIZE
    ensures |done[0]| == CHUNK_SIZE && forall b :: b in done[1..] ==> |b| == CHUNK_SIZE
  {
    assert done[0] in done;
  }

  lemma FlattenFront(done: seq<seq<ConvertedMessage>>, rest: seq<ConvertedMessage>)
    requires done != []
    ensures Flatten(done) + rest == done[0] + (Flatten(done[1..]) + rest)
  {
  }

  lemma ConsAppend<T>(xs: seq<T>, ys: seq<T>)
    requires xs != []
    ensures [xs[0]] + (xs[1..] + ys) == xs + ys
  {
    assert xs == [xs[0]] + xs[1..];
  }

  /** The writes for batches numbered from `j`: each batch's payloads, then
      its chunk. */
  function BatchLog(id: string, bs: seq<seq<ConvertedMessage>>, j: nat): seq<Write>
    decreases |bs|
  {
    if bs == [] then []
    else Payloads(id, bs[0]) + [ChunkWrite(id, j, RowsOf(bs[0]))] + BatchLog(id, bs[1..], j + 1)
  }

  lemma {:induction false} BatchLogAppend(id: string, a: seq<seq<ConvertedMessage>>, b: seq<seq<ConvertedMessage>>,
                                          j: nat, k: nat)
    requires k == j + |a|
    ensures BatchLog(id, a + b, j) == BatchLog(id, a, j) + BatchLog(id, b, k)
    decreases |a|
  {
    if a == [] {
      assert a + b == b;
    } else {
      BatchLogAppend(id, a[1..], b, j + 1, k);
      var h := Payloads(id, a[0]) + [ChunkWrite(id, j, RowsOf(a[0]))];
      var x, y := BatchLog(id, a[1..], j + 1), BatchLog(id, b, k);
      assert (a + b)[0] == a[0] && (a + b)[1..] == a[1..] + b;
      assert BatchLog(id, a + b, j) == h + (x + y);
      assert h + (x + y) == (h + x) + y;
    }
  }

  lemma BatchLogSingle(id: string, b: seq<ConvertedMessage>, j: nat)
    ensures BatchLog(id, [b], j) == Payloads(id, b) + [ChunkWrite(id, j, RowsOf(b))]
  {
    assert [b][1..] == [];
  }

  /** Every write of `ingest_messages` but the summary, when none fails. */
  function IngestLog(id: string, msgs: seq<ConvertedMessage>): seq<Write> {
    BatchLog(id, Batches(msgs), 0)
  }

  /** The writes after some full batches are done. */
  lemma LogShape(id: string, msgs: seq<ConvertedMessage>, done: seq<seq<ConvertedMessage>>, start: nat)
    requires start <= |msgs| && Flatten(done) == msgs[..start]
    requires forall b :: b in done ==> |b| == CHUNK_SIZE
    ensures IngestLog(id, msgs) == BatchLog(id, done, 0) + BatchLog(id, Batches(msgs[start..]), |done|)
  {
    BatchesSplit(msgs, done, start);
    BatchLogAppend(id, done, Batches(msgs[start..]), 0, |done|);
  }

  /** The batches of messages whose beginning is made of full batches. */
  lemma BatchesSplit(msgs: seq<ConvertedMessage>, done: seq<seq<ConvertedMessage>>, start: nat)
    requires start <= |msgs| && Flatten(done) == msgs[..start]
    requires forall b :: b in done ==> |b| == CHUNK_SIZE
    ensures Batches(msgs) == done + Batches(msgs[start..])
  {
    var tail := msgs[start..];
    assert msgs == Flatten(done) + tail;
    BatchesAfter(done, tail);
  }

  /** The files after a sequence of writes, and whether all succeeded. */
  datatype Effect = Effect(files: map<Path, Content>, ok: bool)

  /** Writes applied in order; the first refused write ends the sequence and
      leaves what was written before it in place. */
  function Perform(files: map<Path, Content>, dirs: set<Path>, faults: set<Path>, log: seq<Write>): Effect
    decreases |log|
  {
    if log == [] then Effect(files, true)
    else
      var e := Perform(files, dirs, faults, log[..|log| - 1]);
      var w := log[|log| - 1];
      if !e.ok then e
      else if Writable(dirs, faults, w.FilePath()) then Effect(e.files[w.FilePath() := w.FileContent()], true)
      else Effect(e.files, false)
  }

  lemma PerformAppend(files: map<Path, Content>, dirs: set<Path>, faults: set<Path>, log: seq<Write>, w: Write)
    ensures var e := Perform(files, dirs, faults, log);
      Perform(files, dirs, faults, log + [w]) ==
        if !e.ok then e
        else if Writable(dirs, faults, w.FilePath()) then Effect(e.files[w.FilePath() := w.FileContent()], true)
        else Effect(e.files, false)
  {
    assert (log + [w])[..|log|] == log;
  }

  /** After a refused write nothing more is written. */
  lemma {:induction false} PerformStops(files: map<Path, Content>, dirs: set<Path>, faults: set<Path>,
                                        log: seq<Write>, more: seq<Write>)
    requires !Perform(files, dirs, faults, log).ok
    ensures Perform(files, dirs, faults, log + more) == Perform(files, dirs, faults, log)
    decreases |more|
  {
    if more == [] {
      assert log + more == log;
    } else {
      var init := more[..|more| - 1];
      PerformStops(files, dirs, faults, log, init);
      assert log + more == (log + init) + [more[|more| - 1]];
      PerformAppend(files, dirs, faults, log + init, more[|more| - 1]);
    }
  }

  /** The files after applying every write, later writes replacing
      earlier ones. */
  function Apply(files: map<Path, Content>, log: seq<Write>): map<Path, Content>
    decreases |log|
  {
    if log == [] then files
    else Apply(files, log[..|log| - 1])[log[|log| - 1].FilePath() := log[|log| - 1].FileContent()]
  }

  /** When the filesystem accepts every path written, all writes succeed. */
  lemma {:induction false} PerformAllAccepted(files: map<Path, Content>, dirs: set<Path>, faults: set<Path>,
                                              log: seq<Write>)
    requires forall w :: w in log ==> Writable(dirs, faults, w.FilePath())
    ensures Perform(files, dirs, faults, log) == Effect(Apply(files, log), true)
    decreases |log|
  {
    if log != [] {
      var init := log[..|log| - 1];
      forall w | w in init ensures Writable(dirs, faults, w.FilePath()) {
        assert w in log;
      }
      PerformAllAccepted(files, dirs, faults, init);
    }
  }

  /** A successful sequence of writes applied them all, and the
      filesystem accepted each path written. */
  lemma {:induction false} PerformOk(files: map<Path, Content>, dirs: set<Path>, faults: set<Path>, log: seq<Write>)
    requires Perform(files, dirs, faults, log).ok
    ensures Perform(files, dirs, faults, log).files == Apply(files, log)
    ensures forall w :: w in log ==> Writable(dirs, faults, w.FilePath())
    decreases |log|
  {
    if log != [] {
      var init, last := log[..|log| - 1], log[|log| - 1];
      PerformOk(files, dirs, faults, init);
      assert Writable(dirs, faults, last.FilePath());
      forall w | w in log ensures Writable(dirs, faults, w.FilePath()) {
        if w != last {
          assert log == init + [last];
          assert w in init;
        }
      }
    }
  }

  /** A path written at least once, always with `c`, holds `c` at the end. */
  lemma {:induction false} ApplyLookup(files: map<Path, Content>, log: seq<Write>, p: Path, c: Content)
    requires exists w :: w in log && w.FilePath() == p
    requires forall w :: w in log && w.FilePath() == p ==> w.FileContent() == c
    ensures p in Apply(files, log) && Apply(files, log)[p] == c
    decreases |log|
  {
    var last := log[|log| - 1];
    var init := log[..|log| - 1];
    assert log == init + [last];
    if last.FilePath() != p {
      var w :| w in log && w.FilePath() == p;
      assert w in init;
      ApplyLookup(files, init, p, c);
    }
  }

  /** The chunk writes of a write sequence, in write order. */
  function ChunksOf(log: seq<Write>): seq<Write>
    decreases |log|
  {
    if log == [] then []
    else (if log[0].Chunk? then [log[0]] else []) + ChunksOf(log[1..])
  }

  /** The payload writes of a write sequence, in write order. */
  function PayloadsOf(log: seq<Write>): seq<Write>
    decreases |log|
  {
    if log == [] then []
    else (if log[0].Payload? then [log[0]] else []) + PayloadsOf(log[1..])
  }

  /** The filters keep writes of the sequence, of their kind. */
  lemma {:induction false} FiltersKeep(log: seq<Write>, w: Write)
    ensures w in ChunksOf(log) ==> w in log && w.Chunk?
    ensures w in PayloadsOf(log) ==> w in log && w.Payload?
    decreases |log|
  {
    if log != [] {
      FiltersKeep(log[1..], w);
    }
  }

  lemma {:induction false} ChunksDistribute(a: seq<Write>, b: seq<Write>)
    ensures ChunksOf(a + b) == ChunksOf(a) + ChunksOf(b)
    decreases |a|
  {
    if a == [] {
      assert a + b == b;
    } else {
      var ab := a + b;
      assert ab[0] == a[0] && ab[1..] == a[1..] + b;
      ChunksDistribute(a[1..], b);
      var h := if a[0].Chunk? then [a[0]] else [];
      assert ChunksOf(ab) == h + (ChunksOf(a[1..]) + ChunksOf(b));
    }
  }

  lemma {:induction false} PayloadsDistribute(a: seq<Write>, b: seq<Write>)
    ensures PayloadsOf(a + b) == PayloadsOf(a) + PayloadsOf(b)
    decreases |a|
  {
    if a == [] {
      assert a + b == b;
    } else {
      var ab := a + b;
      assert ab[0] == a[0] && ab[1..] == a[1..] + b;
      PayloadsDistribute(a[1..], b);
      var h := if a[0].Payload? then [a[0]] else [];
      assert PayloadsOf(ab) == h + (PayloadsOf(a[1..]) + PayloadsOf(b));
    }
  }

  lemma FiltersDistribute(a: seq<Write>, b: seq<Write>)
    ensures ChunksOf(a + b) == ChunksOf(a) + ChunksOf(b)
    ensures PayloadsOf(a + b) == PayloadsOf(a) + PayloadsOf(b)
  {
    ChunksDistribute(a, b);
    PayloadsDistribute(a, b);
  }

  lemma {:induction false} PayloadsOnly(id: string, ms: seq<ConvertedMessage>)
    ensures ChunksOf(Payloads(id, ms)) == []
    ensures PayloadsOf(Payloads(id, ms)) == Payloads(id, ms)
    decreases |ms|
  {
    if ms != [] {
      PayloadsOnly(id, ms[1..]);
      assert Payloads(id, ms)[1..] == Payloads(id, ms[1..]);
    }
  }

  lemma PayloadsAppend(id: string, a: seq<ConvertedMessage>, b: seq<ConvertedMessage>)
    ensures Payloads(id, a + b) == Payloads(id, a) + Payloads(id, b)
  {
  }

  lemma OneChunk(w: Write)
    requires w.Chunk?
    ensures ChunksOf([w]) == [w] && PayloadsOf([w]) == []
  {
    assert [w][1..] == [];
  }

  /** The chunk files of batches numbered from `j`, in batch order. */
  function ChunkWrites(id: string, bs: seq<seq<ConvertedMessage>>, j: nat): seq<Write>
    decreases |bs|
  {
    if bs == [] then [] else [ChunkWrite(id, j, RowsOf(bs[0]))] + ChunkWrites(id, bs[1..], j + 1)
  }

  /** One chunk per batch, numbered consecutively from `j`. */
  lemma {:induction false} ChunkWritesAt(id: string, bs: seq<seq<ConvertedMessage>>, j: nat)
    ensures |ChunkWrites(id, bs, j)| == |bs|
    ensures forall k :: 0 <= k < |bs| ==> ChunkWrites(id, bs, j)[k] == ChunkWrite(id, j + k, RowsOf(bs[k]))
    decreases |bs|
  {
    if bs != [] {
      ChunkWritesAt(id, bs[1..], j + 1);
      var cs := ChunkWrites(id, bs, j);
      var cr := ChunkWrites(id, bs[1..], j + 1);
      forall k | 1 <= k < |bs| ensures cs[k] == ChunkWrite(id, j + k, RowsOf(bs[k])) {
        assert cs[k] == cr[k - 1];
        assert bs[1..][k - 1] == bs[k];
      }
    }
  }

  /** The chunk writes for batches numbered from `j`. */
  lemma {:induction false} BatchLogChunks(id: string, bs: seq<seq<ConvertedMessage>>, j: nat)
    ensures ChunksOf(BatchLog(id, bs, j)) == ChunkWrites(id, bs, j)
    decreases |bs|
  {
    if bs != [] {
      var cw := ChunkWrite(id, j, RowsOf(bs[0]));
      var ps := Payloads(id, bs[0]);
      var rest := BatchLog(id, bs[1..], j + 1);
      BatchLogChunks(id, bs[1..], j + 1);
      FiltersDistribute(ps + [cw], rest);
      FiltersDistribute(ps, [cw]);
      PayloadsOnly(id, bs[0]);
      OneChunk(cw);
    }
  }

  /** The payload writes for batches are those of their messages, in
      order. */
  lemma {:induction false} BatchLogPayloads(id: string, bs: seq<seq<ConvertedMessage>>, j: nat)
    ensures PayloadsOf(BatchLog(id, bs, j)) == Payloads(id, Flatten(bs))
    decreases |bs|
  {
    if bs != [] {
      var cw := ChunkWrite(id, j, RowsOf(bs[0]));
      var ps := Payloads(id, bs[0]);
      var rest := BatchLog(id, bs[1..], j + 1);
      BatchLogPayloads(id, bs[1..], j + 1);
      FiltersDistribute(ps + [cw], rest);
      FiltersDistribute(ps, [cw]);
      PayloadsOnly(id, bs[0]);
      OneChunk(cw);
      PayloadsAppend(id, bs[0], Flatten(bs[1..]));
    }
  }

  /** Ingestion writes chunks `0 .. |Batches(msgs)| - 1` in index order,
      chunk `k` holding the rows of batch `k`, and one payload per message
      in message order. */
  lemma IngestWrites(id: string, msgs: seq<ConvertedMessage>)
    ensures |ChunksOf(IngestLog(id, msgs))| == |Batches(msgs)|
    ensures forall k :: 0 <= k < |Batches(msgs)| ==>
      ChunksOf(IngestLog(id, msgs))[k] == ChunkWrite(id, k, RowsOf(Batches(msgs)[k]))
    ensures PayloadsOf(IngestLog(id, msgs)) == Payloads(id, msgs)
  {
    BatchLogChunks(id, Batches(msgs), 0);
    ChunkWritesAt(id, Batches(msgs), 0);
    BatchLogPayloads(id, Batches(msgs), 0);
    BatchesCover(msgs);
  }

  /** Every write of ingestion goes to the chunk of a batch or to the
      payload of a message. */
  lemma {:induction false} BatchLogWrite(id: string, bs: seq<seq<ConvertedMessage>>, j: nat, w: Write)
    requires w in BatchLog(id, bs, j)
    ensures (exists k :: 0 <= k < |bs| && w == ChunkWrite(id, j + k, RowsOf(bs[k]))) ||
            w in Payloads(id, Flatten(bs))
    decreases |bs|
  {
    var ps := Payloads(id, bs[0]);
    var cw := ChunkWrite(id, j, RowsOf(bs[0]));
    var rest := BatchLog(id, bs[1..], j + 1);
    PayloadsAppend(id, bs[0], Flatten(bs[1..]));
    if w in ps {
      assert w in Payloads(id, Flatten(bs));
    } else if w == cw {
      assert w == ChunkWrite(id, j + 0, RowsOf(bs[0]));
    } else {
      assert w in rest;
      BatchLogWrite(id, bs[1..], j + 1, w);
      if w !in Payloads(id, Flatten(bs[1..])) {
        var k :| 0 <= k < |bs[1..]| && w == ChunkWrite(id, j + 1 + k, RowsOf(bs[1..][k]));
        assert w == ChunkWrite(id, j + (k + 1), RowsOf(bs[k + 1]));
      }
    }
  }

  lemma ChunkPathInjective(id: string, i: nat, j: nat)
    requires ChunkPath(id, i) == ChunkPath(id, j)
    ensures i == j
  {
    assert ChunkPath(id, i)[2] == ChunkName(i);
    ChunkNameInjective(i, j);
  }

  /** Every write of ingestion is the chunk of a batch or the payload of a
      message. */
  lemma IngestWriteKinds(id: string, msgs: seq<ConvertedMessage>, w: Write)
    requires w in IngestLog(id, msgs)
    ensures (exists k :: 0 <= k < |Batches(msgs)| && w == ChunkWrite(id, k, RowsOf(Batches(msgs)[k]))) ||
            (exists i :: 0 <= i < |msgs| && w == PayloadWrite(id, msgs[i]))
  {
    var bs := Batches(msgs);
    BatchLogWrite(id, bs, 0, w);
    BatchesCover(msgs);
    if w in Payloads(id, msgs) {
      var i :| 0 <= i < |msgs| && Payloads(id, msgs)[i] == w;
    } else {
      var k :| 0 <= k < |bs| && w == ChunkWrite(id, 0 + k, RowsOf(bs[k]));
    }
  }

  /** After a successful ingestion, the payload of a message can be read
      back, provided no message with the same row id has another body. */
  lemma PayloadRoundTrip(files: map<Path, Content>, dirs: set<Path>, faults: set<Path>,
                         id: string, msgs: seq<ConvertedMessage>, x: ConvertedMessage)
    requires x in msgs
    requires forall m :: m in msgs && m.row.row_id == x.row.row_id ==> m.body_json == x.body_json
    requires Perform(files, dirs, faults, IngestLog(id, msgs)).ok
    ensures LoadPayload(Perform(files, dirs, faults, IngestLog(id, msgs)).files, id, x.row.row_id)
            == Ok(x.body_json)
  {
    var log := IngestLog(id, msgs);
    var p := PayloadPath(id, x.row.row_id);
    var c := PayloadFile(x.body_json);
    PerformOk(files, dirs, faults, log);
    IngestWrites(id, msgs);
    FiltersKeep(log, PayloadWrite(id, x));
    forall k: nat ensures ChunkPath(id, k) != p {
      FileKindsApart(id, x.row.row_id, k);
    }
    forall w | w in log && w.FilePath() == p ensures w.FileContent() == c {
      IngestWriteKinds(id, msgs, w);
      var i :| 0 <= i < |msgs| && w == PayloadWrite(id, msgs[i]);
      PayloadPathInjective(id, msgs[i].row.row_id, x.row.row_id);
      assert msgs[i] in msgs;
    }
    ApplyLookup(files, log, p, c);
  }

  /** After a successful ingestion, chunk `k` holds the rows of batch `k`. */
  lemma ChunkRoundTrip(files: map<Path, Content>, dirs: set<Path>, faults: set<Path>,
                       id: string, msgs: seq<ConvertedMessage>, k: nat)
    requires k < |Batches(msgs)|
    requires Perform(files, dirs, faults, IngestLog(id, msgs)).ok
    ensures var after := Perform(files, dirs, faults, IngestLog(id, msgs)).files;
      ChunkPath(id, k) in after && after[ChunkPath(id, k)] == ChunkFile(RowsOf(Batches(msgs)[k]))
  {
    var log := IngestLog(id, msgs);
    var bs := Batches(msgs);
    var p := ChunkPath(id, k);
    var c := ChunkFile(RowsOf(bs[k]));
    PerformOk(files, dirs, faults, log);
    IngestWrites(id, msgs);
    FiltersKeep(log, ChunksOf(log)[k]);
    forall i | 0 <= i < |msgs| ensures PayloadWrite(id, msgs[i]).FilePath() != p {
      FileKindsApart(id, msgs[i].row.row_id, k);
    }
    forall w | w in log && w.FilePath() == p ensures w.FileContent() == c {
      IngestWriteKinds(id, msgs, w);
      var k' :| 0 <= k' < |bs| && w == ChunkWrite(id, k', RowsOf(bs[k']));
      ChunkPathInjective(id, k', k);
    }
    ApplyLookup(files, log, p, c);
  }

  /** The first batch: up to `CHUNK_SIZE` messages from the front. */
  lemma FirstBatch(msgs: seq<ConvertedMessage>)
    requires msgs != []
    ensures |Batches(msgs)| > 0
    ensures Batches(msgs)[0] == msgs[..if |msgs| <= CHUNK_SIZE then |msgs| else CHUNK_SIZE]
  {
  }

  /** `a` is the beginning of `log`. */
  predicate Begins(a: seq<Write>, log: seq<Write>) {
    |a| <= |log| && log[..|a|] == a
  }

  lemma BeginsConcat(a: seq<Write>, b: seq<Write>)
    ensures Begins(a, a + b)
  {
    assert (a + b)[..|a|] == a;
  }

  /** The writes of batches whose first batch begins with `pm`. */
  lemma FirstBatchSplit(id: string, bs: seq<seq<ConvertedMessage>>, j: nat, m: nat)
    requires bs != [] && m <= |bs[0]|
    ensures BatchLog(id, bs, j) ==
      Payloads(id, bs[0][..m]) +
      (Payloads(id, bs[0][m..]) + [ChunkWrite(id, j, RowsOf(bs[0]))] + BatchLog(id, bs[1..], j + 1))
  {
    var b0 := bs[0];
    assert b0 == b0[..m] + b0[m..];
    PayloadsAppend(id, b0[..m], b0[m..]);
  }

  /** The writes made up to the payload of message `i`, and up to the chunk
      that message completes, begin the full sequence. */
  lemma PendingIsPrefix(id: string, msgs: seq<ConvertedMessage>, done: seq<seq<ConvertedMessage>>, start: nat, i: nat)
    requires start <= i < |msgs| && i - start < CHUNK_SIZE
    requires Flatten(done) == msgs[..start]
    requires forall b :: b in done ==> |b| == CHUNK_SIZE
    ensures Begins(BatchLog(id, done, 0) + Payloads(id, msgs[start..i + 1]), IngestLog(id, msgs))
    ensures i + 1 - start == CHUNK_SIZE ==>
      Begins(BatchLog(id, done, 0) + Payloads(id, msgs[start..i + 1]) +
             [ChunkWrite(id, |done|, RowsOf(msgs[start..i + 1]))], IngestLog(id, msgs))
  {
    var head, bs, m := BatchLog(id, done, 0), Batches(msgs[start..]), i + 1 - start;
    LogShape(id, msgs, done, start);
    PendingBatch(msgs, start, i);
    BeginsWithin(id, head, bs, |done|, m);
    if m == CHUNK_SIZE {
      CompletedBatch(id, head, Payloads(id, bs[0][..m]), bs, |done|, m);
    }
  }

  /** Messages `start .. i` begin the first batch of the messages from
      `start`. */
  lemma PendingBatch(msgs: seq<ConvertedMessage>, start: nat, i: nat)
    requires start <= i < |msgs| && i - start < CHUNK_SIZE
    ensures var bs := Batches(msgs[start..]);
      bs != [] && i + 1 - start <= |bs[0]| <= CHUNK_SIZE && bs[0][..i + 1 - start] == msgs[start..i + 1]
  {
    FirstBatch(msgs[start..]);
  }

  /** Payloads of the beginning of the first batch begin the writes of the
      batches. */
  lemma BeginsWithin(id: string, head: seq<Write>, bs: seq<seq<ConvertedMessage>>, j: nat, m: nat)
    requires bs != [] && m <= |bs[0]|
    ensures Begins(head + Payloads(id, bs[0][..m]), head + BatchLog(id, bs, j))
  {
    FirstPayloadsBegin(id, bs, j, m);
    BeginsJoin(head, Payloads(id, bs[0][..m]), BatchLog(id, bs, j));
  }

  lemma FirstPayloadsBegin(id: string, bs: seq<seq<ConvertedMessage>>, j: nat, m: nat)
    requires bs != [] && m <= |bs[0]|
    ensures Begins(Payloads(id, bs[0][..m]), BatchLog(id, bs, j))
  {
    FirstBatchSplit(id, bs, j, m);
    var rest := Payloads(id, bs[0][m..]) + [ChunkWrite(id, j, RowsOf(bs[0]))] + BatchLog(id, bs[1..], j + 1);
    BeginsConcat(Payloads(id, bs[0][..m]), rest);
  }

  /** Putting the same writes in front keeps one sequence the beginning of
      another. */
  lemma BeginsJoin(head: seq<Write>, a: seq<Write>, log: seq<Write>)
    requires Begins(a, log)
    ensures Begins(head + a, head + log)
  {
    assert (head + log)[..|head + a|] == head + log[..|a|];
  }

  /** When the message completes its batch, its chunk follows its payload. */
  lemma CompletedBatch(id: string, head: seq<Write>, pm: seq<Write>, bs: seq<seq<ConvertedMessage>>, j: nat, m: nat)
    requires bs != [] && m == |bs[0]|
    requires pm == Payloads(id, bs[0][..m])
    ensures Begins(head + pm + [ChunkWrite(id, j, RowsOf(bs[0][..m]))], head + BatchLog(id, bs, j))
  {
    var cw := ChunkWrite(id, j, RowsOf(bs[0]));
    assert bs[0][..m] == bs[0] && bs[0][m..] == [];
    FirstBatchSplit(id, bs, j, m);
    var later := BatchLog(id, bs[1..], j + 1);
    assert head + BatchLog(id, bs, j) == (head + pm + [cw]) + later;
    BeginsConcat(head + pm + [cw], later);
  }

  /** A refused write at the beginning of a sequence ends it. */
  lemma PerformStopsEarly(files: map<Path, Content>, dirs: set<Path>, faults: set<Path>, a: seq<Write>, log: seq<Write>)
    requires Begins(a, log) && !Perform(files, dirs, faults, a).ok
    ensures Perform(files, dirs, faults, log) == Perform(files, dirs, faults, a)
  {
    assert log == a + log[|a|..];
    PerformStops(files, dirs, faults, a, log[|a|..]);
  }

  /** The writes of one turn of the loop: the payload of `msg`, then, when
      `msg` fills the builder that held `pending`, the chunk `idx`. */
  function Turn(id: string, msg: ConvertedMessage, idx: nat, pending: seq<Row>): seq<Write> {
    if |pending| + 1 == CHUNK_SIZE then [PayloadWrite(id, msg), ChunkWrite(id, idx, pending + [msg.row])]
    else [PayloadWrite(id, msg)]
  }

  /** One turn of the loop of `ingest_messages` (lines 110-127): fold the
      row into the summary, write the payload, push the row, and write
      and clear the builder once it holds `CHUNK_SIZE` rows. The writes
      made are those of `Turn`, up to the first refused one. */
  method IngestOne(st: SessionStorage, builder: ArrowBuilder, collector: MetaCollector, id: string,
                   msg: ConvertedMessage, idx: nat, ghost files0: map<Path, Content>, ghost sent: seq<Write>)
    returns (r: Result<(), StorageError>, flushed: bool)
    requires st.Valid() && builder.Valid() && collector.Valid()
    requires builder.Len() < CHUNK_SIZE
    requires Perform(files0, st.dirs, st.faults, sent) == Effect(st.files, true)
    modifies st, builder, collector
    ensures st.Valid() && builder.Valid() && collector.Valid() && st.dirs == old(st.dirs)
    ensures collector.seen == old(collector.seen) + [msg.row]
    ensures flushed <==> old(builder.Len()) + 1 == CHUNK_SIZE
    ensures Perform(files0, st.dirs, st.faults, sent + Turn(id, msg, idx, old(builder.Rows())))
            == Effect(st.files, r.Ok?)
    ensures r.Ok? ==> builder.Rows() == if flushed then [] else old(builder.Rows()) + [msg.row]
  {
    PerformTurn(files0, st.dirs, st.faults, sent, st.files, id, msg, idx, builder.Rows());
    flushed := builder.Len() + 1 == CHUNK_SIZE;
    collector.Update(msg.row);
    r := st.WritePayload(id, msg.row.row_id, msg.body_json);
    if r.Err? {
      return;
    }
    builder.Push(msg);
    if builder.Len() >= CHUNK_SIZE {
      r := st.WriteChunk(id, idx, builder.Rows());
      if r.Err? {
        return;
      }
      builder.Clear();
    }
  }

  /** The files a turn leaves: the payload when its path is writable, then
      the chunk when the turn completes a batch and the chunk path is
      writable. */
  lemma PerformTurn(files0: map<Path, Content>, dirs: set<Path>, faults: set<Path>, sent: seq<Write>,
                    files: map<Path, Content>, id: string, msg: ConvertedMessage, idx: nat, pending: seq<Row>)
    requires Perform(files0, dirs, faults, sent) == Effect(files, true)
    ensures var afterPayload := files[PayloadPath(id, msg.row.row_id) := PayloadFile(msg.body_json)];
      Perform(files0, dirs, faults, sent + Turn(id, msg, idx, pending)) ==
        if !Writable(dirs, faults, PayloadPath(id, msg.row.row_id)) then Effect(files, false)
        else if |pending| + 1 != CHUNK_SIZE then Effect(afterPayload, true)
        else if !Writable(dirs, faults, ChunkPath(id, idx)) then Effect(afterPayload, false)
        else Effect(afterPayload[ChunkPath(id, idx) := ChunkFile(pending + [msg.row])], true)
  {
    var pw, cw := PayloadWrite(id, msg), ChunkWrite(id, idx, pending + [msg.row]);
    PerformAppend(files0, dirs, faults, sent, pw);
    if |pending| + 1 == CHUNK_SIZE {
      PerformAppend(files0, dirs, faults, sent + [pw], cw);
      assert sent + [pw] + [cw] == sent + [pw, cw];
    }
  }

  /** The writes made once full batches `done` are written and messages
      `start .. i-1` have their payloads. */
  function Sent(id: string, msgs: seq<ConvertedMessage>, done: seq<seq<ConvertedMessage>>, start: nat, i: nat): seq<Write>
    requires start <= i <= |msgs|
  {
    BatchLog(id, done, 0) + Payloads(id, msgs[start..i])
  }

  /** Where the loop of `ingest_messages` stands: full batches `done`
      cover the messages before `start`, and fewer than `CHUNK_SIZE`
      messages wait in the builder. */
  ghost predicate Progress(msgs: seq<ConvertedMessage>, done: seq<seq<ConvertedMessage>>, start: nat, i: nat) {
    start <= i <= |msgs| && i - start < CHUNK_SIZE &&
    Flatten(done) == msgs[..start] &&
    forall b :: b in done ==> |b| == CHUNK_SIZE
  }

  /** One turn of the loop continues the full sequence of writes, and
      moves a completed batch into `done`. */
  lemma StepLog(id: string, msgs: seq<ConvertedMessage>, done: seq<seq<ConvertedMessage>>, start: nat, i: nat)
    requires Progress(msgs, done, start, i) && i < |msgs|
    ensures var turn := Turn(id, msgs[i], |done|, RowsOf(msgs[start..i]));
      Begins(Sent(id, msgs, done, start, i) + turn, IngestLog(id, msgs)) &&
      if i + 1 - start == CHUNK_SIZE then
        var done' := done + [msgs[start..i + 1]];
        Progress(msgs, done', i + 1, i + 1) && Sent(id, msgs, done, start, i) + turn == Sent(id, msgs, done', i + 1, i + 1)
      else
        Progress(msgs, done, start, i + 1) && Sent(id, msgs, done, start, i) + turn == Sent(id, msgs, done, start, i + 1)
  {
    var msg := msgs[i];
    var batch := msgs[start..i + 1];
    var head := BatchLog(id, done, 0);
    assert batch == msgs[start..i] + [msg];
    TurnLog(id, head, msgs[start..i], msg, |done|);
    PendingIsPrefix(id, msgs, done, start, i);
    if i + 1 - start == CHUNK_SIZE {
      BatchLogAppend(id, done, [batch], 0, |done|);
      BatchLogSingle(id, batch, |done|);
      FlattenAppend(done, batch);
      assert msgs[..i + 1] == msgs[..start] + batch;
      assert msgs[i + 1..i + 1] == [];
      assert Payloads(id, msgs[i + 1..i + 1]) == [];
      assert BatchLog(id, done + [batch], 0) + [] == BatchLog(id, done + [batch], 0);
    }
  }

  /** After the loop, the rows left in the builder make the last chunk. */
  lemma FinalLog(id: string, msgs: seq<ConvertedMessage>, done: seq<seq<ConvertedMessage>>, start: nat)
    requires Progress(msgs, done, start, |msgs|)
    ensures start == |msgs| ==> IngestLog(id, msgs) == Sent(id, msgs, done, start, |msgs|)
    ensures start < |msgs| ==>
      IngestLog(id, msgs) == Sent(id, msgs, done, start, |msgs|) + [ChunkWrite(id, |done|, RowsOf(msgs[start..]))]
  {
    LogShape(id, msgs, done, start);
    var tail := msgs[start..];
    if tail == [] {
      assert BatchLog(id, done, 0) + Payloads(id, tail) == BatchLog(id, done, 0);
    } else {
      BatchLogSingle(id, tail, |done|);
    }
  }

  /** Rows of a message range grow with the range. */
  lemma RowsStep(msgs: seq<ConvertedMessage>, start: nat, i: nat)
    requires start <= i < |msgs|
    ensures RowsOf(msgs[..i]) + [msgs[i].row] == RowsOf(msgs[..i + 1])
    ensures RowsOf(msgs[start..i]) + [msgs[i].row] == RowsOf(msgs[start..i + 1])
  {
  }

  /** The state of `ingest_messages` before message `i`: the summary has
      seen the rows before it, the builder holds the rows of the pending
      batch, and the files are those the writes made so far leave. */
  ghost predicate Ingesting(st: SessionStorage, builder: ArrowBuilder, collector: MetaCollector, id: string,
                            msgs: seq<ConvertedMessage>, files0: map<Path, Content>,
                            done: seq<seq<ConvertedMessage>>, start: nat, i: nat, chunkIdx: nat)
    reads st, builder, collector
  {
    Progress(msgs, done, start, i) && chunkIdx == |done| &&
    st.Valid() && builder.Valid() && collector.Valid() &&
    collector.seen == RowsOf(msgs[..i]) && builder.Rows() == RowsOf(msgs[start..i]) &&
    Perform(files0, st.dirs, st.faults, Sent(id, msgs, done, start, i)) == Effect(st.files, true)
  }

  /** A turn of the loop of `ingest_messages` placed in the full sequence
      of writes: after it the loop goes on from message `i + 1`, with the
      batch moved into the written ones when its chunk was written, or a
      write was refused and the files are those the full sequence leaves. */
  method IngestStep(st: SessionStorage, builder: ArrowBuilder, collector: MetaCollector, id: string,
                    msgs: seq<ConvertedMessage>, i: nat, chunkIdx: nat, ghost files0: map<Path, Content>,
                    ghost done: seq<seq<ConvertedMessage>>, ghost start: nat)
    returns (r: Result<(), StorageError>, flushed: bool)
    requires i < |msgs| && Ingesting(st, builder, collector, id, msgs, files0, done, start, i, chunkIdx)
    modifies st, builder, collector
    ensures st.Valid() && st.dirs == old(st.dirs)
    ensures flushed <==> i + 1 - start == CHUNK_SIZE
    ensures r.Err? ==> Perform(files0, st.dirs, st.faults, IngestLog(id, msgs)) == Effect(st.files, false)
    ensures r.Ok? && flushed ==>
      Ingesting(st, builder, collector, id, msgs, files0, done + [msgs[start..i + 1]], i + 1, i + 1, chunkIdx + 1)
    ensures r.Ok? && !flushed ==>
      Ingesting(st, builder, collector, id, msgs, files0, done, start, i + 1, chunkIdx)
  {
    StepLog(id, msgs, done, start, i);
    RowsStep(msgs, start, i);
    ghost var sent := Sent(id, msgs, done, start, i);
    ghost var turn := Turn(id, msgs[i], |done|, RowsOf(msgs[start..i]));
    r, flushed := IngestOne(st, builder, collector, id, msgs[i], chunkIdx, files0, sent);
    if r.Err? {
      PerformStopsEarly(files0, st.dirs, st.faults, sent + turn, IngestLog(id, msgs));
    }
  }

  /** The rows left in the builder after the loop of `ingest_messages`
      become the last chunk, when there are any (lines 130-135). */
  method WriteLastChunk(st: SessionStorage, builder: ArrowBuilder, id: string, msgs: seq<ConvertedMessage>,
                        chunkIdx: nat, ghost files0: map<Path, Content>,
                        ghost done: seq<seq<ConvertedMessage>>, ghost start: nat)
    returns (c: Result<(), StorageError>)
    requires Progress(msgs, done, start, |msgs|) && chunkIdx == |done|
    requires st.Valid() && builder.Valid() && builder.Rows() == RowsOf(msgs[start..|msgs|])
    requires Perform(files0, st.dirs, st.faults, Sent(id, msgs, done, start, |msgs|)) == Effect(st.files, true)
    modifies st
    ensures st.Valid() && st.dirs == old(st.dirs)
    ensures Perform(files0, st.dirs, st.faults, IngestLog(id, msgs)) == Effect(st.files, c.Ok?)
  {
    FinalLog(id, msgs, done, start);
    assert msgs[start..|msgs|] == msgs[start..];
    c := Ok(());
    if !builder.IsEmpty() {
      c := st.WriteChunk(id, chunkIdx, builder.Rows());
      PerformAppend(files0, st.dirs, st.faults, Sent(id, msgs, done, start, |msgs|), ChunkWrite(id, chunkIdx, RowsOf(msgs[start..])));
    }
  }

  /** The end of `ingest_messages` (lines 130-140): the last chunk, then
      the summary of all rows. */
  method FinishIngest(st: SessionStorage, builder: ArrowBuilder, collector: MetaCollector, id: string,
                      msgs: seq<ConvertedMessage>, chunkIdx: nat, ghost files0: map<Path, Content>,
                      ghost done: seq<seq<ConvertedMessage>>, ghost start: nat)
    returns (r: Result<SessionMeta, StorageError>)
    requires Ingesting(st, builder, collector, id, msgs, files0, done, start, |msgs|, chunkIdx)
    modifies st
    ensures st.Valid() && st.dirs == old(st.dirs)
    ensures var e := Perform(files0, st.dirs, st.faults, IngestLog(id, msgs));
      (r.Ok? <==> e.ok && Writable(st.dirs, st.faults, MetaPath(id))) &&
      (r.Ok? ==> SummarizesRows(r.value, RowsOf(msgs)) &&
                 st.files == e.files[MetaPath(id) := MetaFile(r.value)]) &&
      (r.Err? ==> st.files == e.files)
  {
    assert msgs[..|msgs|] == msgs;
    ghost var rows := RowsOf(msgs);
    assert collector.seen == rows;
    var c := WriteLastChunk(st, builder, id, msgs, chunkIdx, files0, done, start);
    if c.Err? {
      return Err(c.error);
    }
    var meta := collector.IntoMeta();
    assert SummarizesRows(meta, rows);
    var m := st.WriteMeta(id, meta);
    if m.Err? {
      return Err(m.error);
    }
    return Ok(meta);
  }

  /** `ingest_messages`: for each message, fold its row into the summary,
      write its payload and push its row; write a chunk whenever the builder
      holds `CHUNK_SIZE` rows; write what remains as a last chunk; write the
      summary. A refused write ends ingestion with an error and leaves the
      files written before it. */
  method IngestMessages(st: SessionStorage, id: string, msgs: seq<ConvertedMessage>)
    returns (r: Result<SessionMeta, StorageError>)
    requires st.Valid()
    modifies st
    ensures st.Valid() && st.dirs == old(st.dirs)
    ensures var e := Perform(old(st.files), st.dirs, st.faults, IngestLog(id, msgs));
      (r.Ok? <==> e.ok && Writable(st.dirs, st.faults, MetaPath(id))) &&
      (r.Ok? ==> SummarizesRows(r.value, RowsOf(msgs)) &&
                 st.files == e.files[MetaPath(id) := MetaFile(r.value)]) &&
      (r.Err? ==> st.files == e.files)
  {
    ghost var files0 := st.files;
    var builder := new ArrowBuilder();
    var collector := new MetaCollector();
    var chunkIdx := 0;
    ghost var done: seq<seq<ConvertedMessage>> := [];
    ghost var start := 0;
    var i := 0;
    while i < |msgs|
      invariant i <= |msgs| && Ingesting(st, builder, collector, id, msgs, files0, done, start, i, chunkIdx)
      invariant st.dirs == old(st.dirs) && fresh(builder) && fresh(collector)
    {
      var w, flushed := IngestStep(st, builder, collector, id, msgs, i, chunkIdx, files0, done, start);
      if w.Err? {
        return Err(w.error);
      }
      if flushed {
        chunkIdx := chunkIdx + 1;
        done := done + [msgs[start..i + 1]];
        start := i + 1;
      }
      i := i + 1;
    }
    r := FinishIngest(st, builder, collector, id, msgs, chunkIdx, files0, done, start);
  }

  /** The writes of a turn continue those already made for the batch. */
  lemma TurnLog(id: string, head: seq<Write>, pending: seq<ConvertedMessage>, msg: ConvertedMessage, idx: nat)
    ensures var sent := head + Payloads(id, pending);
      var next := head + Payloads(id, pending + [msg]);
      sent + Turn(id, msg, idx, RowsOf(pending)) ==
        if |pending| + 1 == CHUNK_SIZE then next + [ChunkWrite(id, idx, RowsOf(pending + [msg]))] else next
  {
    PayloadsAppend(id, pending, [msg]);
    assert RowsOf(pending) + [msg.row] == RowsOf(pending + [msg]);
  }

  lemma {:induction false} FlattenAppend(bs: seq<seq<ConvertedMessage>>, b: seq<ConvertedMessage>)
    ensures Flatten(bs + [b]) == Flatten(bs) + b
    decreases |bs|
  {
    if bs == [] {
      assert [b][1..] == [];
      assert b + [] == b;
    } else {
      FlattenAppend(bs[1..], b);
      assert (bs + [b])[1..] == bs[1..] + [b];
    }
  }
}

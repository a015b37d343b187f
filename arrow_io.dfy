/** Columnar accumulation (backend/service/src/arrow_io.rs): the builder of
    one chunk's ten columns, the chunk schema, and the running summary of a
    session's rows. */
module ArrowIo {
  import opened Types
  import opened Models

  /** Rows per chunk. */
  const CHUNK_SIZE: nat := 50000

  datatype DataType = Int64 | Int8 | UInt8 | UInt32

  datatype Field = Field(name: string, dataType: DataType, nullable: bool)

  /** The values a column of the given type can hold. */
  predicate Fits(t: DataType, v: int) {
    match t
    case Int64 => InI64(v)
    case Int8 => -0x80 <= v < 0x80
    case UInt8 => 0 <= v < 0x100
    case UInt32 => 0 <= v < 0x1_0000_0000
  }

  /** `get_arrow_schema()`: ten non-nullable columns with distinct names. */
  function ArrowSchema(): (fields: seq<Field>)
    ensures |fields| == 10
    ensures forall i :: 0 <= i < |fields| ==> !fields[i].nullable
    ensures forall i, j :: 0 <= i < j < |fields| ==> fields[i].name != fields[j].name
  {
    [ Field("ts_ns", Int64, false),
      Field("dir", Int8, false),
      Field("s", UInt8, false),
      Field("f", UInt8, false),
      Field("wbit", UInt8, false),
      Field("sysbytes", UInt32, false),
      Field("ceid", UInt32, false),
      Field("vid", UInt32, false),
      Field("rptid", UInt32, false),
      Field("row_id", UInt32, false) ]
  }

  /** A row's values in the order the builder hands its columns over. */
  function Columns(r: Row): seq<int> {
    [r.ts_ns, r.dir, r.s, r.f, r.wbit, r.sysbytes, r.ceid, r.vid, r.rptid, r.row_id]
  }

  /** Every row fits the schema: the i-th value of a row has the type of
      the i-th field, so building a batch from the columns cannot fail on
      a type or a null. */
  lemma RowFitsSchema(r: Row)
    ensures |Columns(r)| == |ArrowSchema()|
    ensures forall i :: 0 <= i < 10 ==> Fits(ArrowSchema()[i].dataType, Columns(r)[i])
  {
  }

  /** `ArrowBuilder`: ten parallel columns. */
  class ArrowBuilder {
    var ts_ns: seq<i64>
    var dir: seq<i8>
    var s: seq<u8>
    var f: seq<u8>
    var wbit: seq<u8>
    var sysbytes: seq<u32>
    var ceid: seq<u32>
    var vid: seq<u32>
    var rptid: seq<u32>
    var row_id: seq<u32>

    /** All columns have the same length. */
    ghost predicate Valid()
      reads this
    {
      var n := |ts_ns|;
      |dir| == n && |s| == n && |f| == n && |wbit| == n && |sysbytes| == n &&
      |ceid| == n && |vid| == n && |rptid| == n && |row_id| == n
    }

    /** The rows the columns hold, row i made of the i-th value of each. */
    function Rows(): (rows: seq<Row>)
      reads this
      requires Valid()
      ensures |rows| == |ts_ns|
      ensures forall i :: 0 <= i < |rows| ==>
        rows[i] == Row(ts_ns[i], dir[i], s[i], f[i], wbit[i], sysbytes[i], ceid[i], vid[i], rptid[i], row_id[i])
    {
      var n := |ts_ns|;
      var (c0, c1, c2, c3, c4) := (ts_ns, dir, s, f, wbit);
      var (c5, c6, c7, c8, c9) := (sysbytes, ceid, vid, rptid, row_id);
      seq(n, i requires 0 <= i < n => Row(c0[i], c1[i], c2[i], c3[i], c4[i], c5[i], c6[i], c7[i], c8[i], c9[i]))
    }

    /** `ArrowBuilder::new()` */
    constructor ()
      ensures Valid() && Rows() == []
    {
      ts_ns, dir, s, f, wbit := [], [], [], [], [];
      sysbytes, ceid, vid, rptid, row_id := [], [], [], [], [];
    }

    /** `push`: one value onto each column. */
    method Push(msg: ConvertedMessage)
      requires Valid()
      modifies this
      ensures Valid()
      ensures Rows() == old(Rows()) + [msg.row]
    {
      var r := msg.row;
      ghost var before := Rows();
      ts_ns, dir, s, f, wbit := ts_ns + [r.ts_ns], dir + [r.dir], s + [r.s], f + [r.f], wbit + [r.wbit];
      sysbytes, ceid, vid, rptid, row_id :=
        sysbytes + [r.sysbytes], ceid + [r.ceid], vid + [r.vid], rptid + [r.rptid], row_id + [r.row_id];
      Extends(before, Rows(), r);
    }

    /** `b` is `a` with `r` after it. */
    static lemma Extends(a: seq<Row>, b: seq<Row>, r: Row)
      requires |b| == |a| + 1 && b[|a|] == r
      requires forall i :: 0 <= i < |a| ==> b[i] == a[i]
      ensures b == a + [r]
    {
    }

    /** `len`: the number of rows held. */
    function Len(): (n: nat)
      reads this
      requires Valid()
      ensures n == |Rows()|
    {
      |ts_ns|
    }

    /** `is_empty` */
    predicate IsEmpty()
      reads this
      requires Valid()
      ensures IsEmpty() <==> Rows() == []
    {
      |ts_ns| == 0
    }

    /** `clear`: every column emptied. */
    method Clear()
      requires Valid()
      modifies this
      ensures Valid() && Rows() == []
    {
      ts_ns, dir, s, f, wbit := [], [], [], [], [];
      sysbytes, ceid, vid, rptid, row_id := [], [], [], [], [];
    }
  }

  /** The least timestamp of the rows, starting from i64::MAX as `new` does. */
  function MinTs(rows: seq<Row>): (m: i64)
    ensures forall i :: 0 <= i < |rows| ==> m <= rows[i].ts_ns
    ensures rows == [] ==> m == I64_MAX
    ensures rows != [] ==> exists i :: 0 <= i < |rows| && m == rows[i].ts_ns
    decreases |rows|
  {
    if rows == [] then I64_MAX
    else
      var m := MinTs(rows[..|rows| - 1]);
      var t := rows[|rows| - 1].ts_ns;
      if t < m then t else m
  }

  /** The greatest timestamp of the rows, starting from i64::MIN. */
  function MaxTs(rows: seq<Row>): (m: i64)
    ensures forall i :: 0 <= i < |rows| ==> rows[i].ts_ns <= m
    ensures rows == [] ==> m == I64_MIN
    ensures rows != [] ==> exists i :: 0 <= i < |rows| && m == rows[i].ts_ns
    decreases |rows|
  {
    if rows == [] then I64_MIN
    else
      var m := MaxTs(rows[..|rows| - 1]);
      var t := rows[|rows| - 1].ts_ns;
      if t > m then t else m
  }

  function SValues(rows: seq<Row>): set<u8> {
    set i | 0 <= i < |rows| :: rows[i].s
  }

  function FValues(rows: seq<Row>): set<u8> {
    set i | 0 <= i < |rows| :: rows[i].f
  }

  /** The non-zero `ceid`s of the rows: 0 means "none" and is not recorded. */
  function CeidValues(rows: seq<Row>): set<u32> {
    set i | 0 <= i < |rows| && rows[i].ceid > 0 :: rows[i].ceid
  }

  function VidValues(rows: seq<Row>): set<u32> {
    set i | 0 <= i < |rows| && rows[i].vid > 0 :: rows[i].vid
  }

  function RptidValues(rows: seq<Row>): set<u32> {
    set i | 0 <= i < |rows| && rows[i].rptid > 0 :: rows[i].rptid
  }

  predicate StrictlyIncreasing(xs: seq<nat>) {
    forall i, j :: 0 <= i < j < |xs| ==> xs[i] < xs[j]
  }

  /** `xs` lists the elements of `s` in ascending order, each once. */
  predicate SortedListOf(xs: seq<nat>, s: set<nat>) {
    StrictlyIncreasing(xs) && (forall x | x in xs :: x in s) && (forall x | x in s :: x in xs)
  }

  /** `meta` is the summary of `rows` that `into_meta` reports. */
  predicate SummarizesRows(meta: SessionMeta, rows: seq<Row>) {
    meta.row_count == |rows| &&
    meta.t_min_ns == (if rows == [] then 0 else MinTs(rows)) &&
    meta.t_max_ns == (if rows == [] then 0 else MaxTs(rows)) &&
    SortedListOf(meta.distinct_s, SValues(rows)) &&
    SortedListOf(meta.distinct_f, FValues(rows)) &&
    SortedListOf(meta.distinct_ceid, CeidValues(rows)) &&
    SortedListOf(meta.distinct_vid, VidValues(rows)) &&
    SortedListOf(meta.distinct_rptid, RptidValues(rows))
  }

  /** What a summary says about the rows: the count, bounds that every
      timestamp lies within and some timestamp reaches, and tag lists
      without 0. */
  lemma SummaryFacts(meta: SessionMeta, rows: seq<Row>)
    requires SummarizesRows(meta, rows)
    ensures meta.row_count == |rows|
    ensures rows == [] ==> meta.t_min_ns == 0 && meta.t_max_ns == 0
    ensures forall i :: 0 <= i < |rows| ==> meta.t_min_ns <= rows[i].ts_ns <= meta.t_max_ns
    ensures rows != [] ==> (exists i :: 0 <= i < |rows| && rows[i].ts_ns == meta.t_min_ns) &&
                           (exists i :: 0 <= i < |rows| && rows[i].ts_ns == meta.t_max_ns)
    ensures forall i :: 0 <= i < |rows| ==> rows[i].s in meta.distinct_s && rows[i].f in meta.distinct_f
    ensures 0 !in meta.distinct_ceid && 0 !in meta.distinct_vid && 0 !in meta.distinct_rptid
    ensures forall i :: 0 <= i < |rows| && rows[i].ceid > 0 ==> rows[i].ceid in meta.distinct_ceid
  {
    forall i | 0 <= i < |rows| ensures rows[i].s in meta.distinct_s && rows[i].f in meta.distinct_f {
      assert rows[i].s in SValues(rows);
      assert rows[i].f in FValues(rows);
    }
    forall i | 0 <= i < |rows| && rows[i].ceid > 0 ensures rows[i].ceid in meta.distinct_ceid {
      assert rows[i].ceid in CeidValues(rows);
    }
  }

  /** Only the empty list lists the empty set. */
  lemma EmptyListOfEmptySet(xs: seq<nat>, s: set<nat>)
    requires SortedListOf(xs, s)
    ensures xs == [] <==> s == {}
  {
    if xs != [] {
      assert xs[0] in xs;
    }
  }

  /** The head of a sorted list is the least element of its set, and the
      tail lists the rest. */
  lemma HeadAndTail(xs: seq<nat>, s: set<nat>)
    requires SortedListOf(xs, s) && xs != []
    ensures xs[0] in s && forall x :: x in s ==> xs[0] <= x
    ensures SortedListOf(xs[1..], s - {xs[0]})
  {
    assert xs[0] in xs;
    forall x | x in s ensures xs[0] <= x {
      var k :| 0 <= k < |xs| && xs[k] == x;
    }
    forall x | x in xs[1..] ensures x in s - {xs[0]} {
      var k :| 0 <= k < |xs[1..]| && xs[1..][k] == x;
      assert xs[k + 1] == x;
    }
    forall x | x in s - {xs[0]} ensures x in xs[1..] {
      var k :| 0 <= k < |xs| && xs[k] == x;
      assert xs[1..][k - 1] == x;
    }
  }

  /** Two ascending duplicate-free lists of the same set are the same list. */
  lemma {:induction false} SortedListUnique(xs: seq<nat>, ys: seq<nat>, s: set<nat>)
    requires SortedListOf(xs, s) && SortedListOf(ys, s)
    ensures xs == ys
    decreases |xs|
  {
    EmptyListOfEmptySet(xs, s);
    EmptyListOfEmptySet(ys, s);
    if xs != [] {
      HeadAndTail(xs, s);
      HeadAndTail(ys, s);
      assert xs[0] == ys[0];
      SortedListUnique(xs[1..], ys[1..], s - {xs[0]});
      assert xs == [xs[0]] + xs[1..] && ys == [ys[0]] + ys[1..];
    }
  }

  /** The summary of a row sequence is unique: `into_meta` has exactly one
      correct answer, whatever order the hash sets hand out their elements. */
  lemma SummaryIsUnique(m1: SessionMeta, m2: SessionMeta, rows: seq<Row>)
    requires SummarizesRows(m1, rows) && SummarizesRows(m2, rows)
    ensures m1 == m2
  {
    SortedListUnique(m1.distinct_s, m2.distinct_s, SValues(rows));
    SortedListUnique(m1.distinct_f, m2.distinct_f, FValues(rows));
    SortedListUnique(m1.distinct_ceid, m2.distinct_ceid, CeidValues(rows));
    SortedListUnique(m1.distinct_vid, m2.distinct_vid, VidValues(rows));
    SortedListUnique(m1.distinct_rptid, m2.distinct_rptid, RptidValues(rows));
  }

  /** A non-empty finite set of naturals has a least element. */
  lemma {:induction false} Least(s: set<nat>) returns (m: nat)
    requires s != {}
    ensures m in s && forall x :: x in s ==> m <= x
    decreases |s|
  {
    var y :| y in s;
    var rest := s - {y};
    if rest == {} {
      m := y;
      forall x | x in s ensures m <= x {
        assert x !in rest;
      }
    } else {
      var k := Least(rest);
      m := if y < k then y else k;
      forall x | x in s ensures m <= x {
        if x != y {
          assert x in rest;
        }
      }
    }
  }

  /** The state of the selection in `SortedElements`: the elements taken,
      in ascending order, lie below every element still remaining. */
  ghost predicate Taking(xs: seq<nat>, done: set<nat>, rest: set<nat>, s: set<nat>) {
    done + rest == s && SortedListOf(xs, done) &&
    (xs != [] ==> forall y :: y in rest ==> xs[|xs| - 1] < y)
  }

  /** Taking the least remaining element, which lies above everything taken
      so far, keeps the taken list sorted, and the element lies below
      everything still remaining. */
  lemma TakeLeast(xs: seq<nat>, done: set<nat>, rest: set<nat>, m: nat)
    requires SortedListOf(xs, done)
    requires xs != [] ==> forall y :: y in rest ==> xs[|xs| - 1] < y
    requires m in rest && forall x :: x in rest ==> m <= x
    ensures SortedListOf(xs + [m], done + {m})
    ensures forall y :: y in rest - {m} ==> m < y
  {
    var ys := xs + [m];
    forall i, j | 0 <= i < j < |ys| ensures ys[i] < ys[j] {
      if j == |xs| && i < |xs| - 1 {
        assert xs[i] < xs[|xs| - 1];
      }
    }
    forall x | x in ys ensures x in done + {m} {
      var k :| 0 <= k < |ys| && ys[k] == x;
      if k < |xs| { assert xs[k] in xs; }
    }
    forall x | x in done + {m} ensures x in ys {
      if x != m {
        var k :| 0 <= k < |xs| && xs[k] == x;
        assert ys[k] == x;
      } else {
        assert ys[|xs|] == m;
      }
    }
  }

  /** Moving one element from the remaining set to the taken one keeps
      their union and shrinks what remains. */
  lemma MoveOne(done: set<nat>, rest: set<nat>, s: set<nat>, m: nat)
    requires done + rest == s && m in rest
    ensures (done + {m}) + (rest - {m}) == s
    ensures |rest - {m}| < |rest|
  {
  }

  /** One turn of the selection in `SortedElements`. */
  lemma TakeStep(xs: seq<nat>, done: set<nat>, rest: set<nat>, s: set<nat>, m: nat)
    requires Taking(xs, done, rest, s)
    requires m in rest && forall x :: x in rest ==> m <= x
    ensures Taking(xs + [m], done + {m}, rest - {m}, s)
    ensures |rest - {m}| < |rest|
  {
    TakeLeast(xs, done, rest, m);
    MoveOne(done, rest, s, m);
  }

  /** `into_iter().collect()` then `sort_unstable()`: the elements of a set
      in ascending order, taken least first. */
  method SortedElements(s: set<nat>) returns (xs: seq<nat>)
    ensures SortedListOf(xs, s)
  {
    xs := [];
    var rest := s;
    ghost var done: set<nat> := {};
    while rest != {}
      invariant Taking(xs, done, rest, s)
      decreases |rest|
    {
      ghost var least := Least(rest);
      var m :| m in rest && forall x :: x in rest ==> m <= x;
      TakeStep(xs, done, rest, s, m);
      xs, rest, done := xs + [m], rest - {m}, done + {m};
    }
    assert done == s;
  }

  /** The state of a `MetaCollector`, as a value. */
  datatype Tally = Tally(
    count: nat, tMin: i64, tMax: i64,
    s: set<u8>, f: set<u8>, ceid: set<u32>, vid: set<u32>, rptid: set<u32>)

  /** What `MetaCollector::new()` starts from. */
  const EMPTY_TALLY := Tally(0, I64_MAX, I64_MIN, {}, {}, {}, {}, {})

  /** One `update`: count the row, widen the bounds, record the tags
      (`ceid`, `vid` and `rptid` only when non-zero). */
  function Add(t: Tally, r: Row): Tally {
    Tally(t.count + 1, Lower(t.tMin, r.ts_ns), Upper(t.tMax, r.ts_ns),
      t.s + {r.s}, t.f + {r.f},
      WithTag(t.ceid, r.ceid), WithTag(t.vid, r.vid), WithTag(t.rptid, r.rptid))
  }

  /** The lower bound after seeing timestamp `t`. */
  function Lower(m: i64, t: i64): i64 {
    if t < m then t else m
  }

  /** The upper bound after seeing timestamp `t`. */
  function Upper(m: i64, t: i64): i64 {
    if t > m then t else m
  }

  /** A tag set after seeing tag `v`: 0 means "absent" and is not recorded. */
  function WithTag(tags: set<u32>, v: u32): set<u32> {
    if v > 0 then tags + {v} else tags
  }

  /** The tally after updating with each row in turn. */
  function TallyOf(rows: seq<Row>): Tally
    decreases |rows|
  {
    if rows == [] then EMPTY_TALLY else Add(TallyOf(rows[..|rows| - 1]), rows[|rows| - 1])
  }

  /** The running tally is the batch summary of the rows seen: their
      number, their least and greatest timestamp and their tag sets,
      whatever the order of the updates. */
  lemma {:induction false} TallyIsSummary(rows: seq<Row>)
    ensures TallyOf(rows) ==
      Tally(|rows|, MinTs(rows), MaxTs(rows), SValues(rows), FValues(rows),
            CeidValues(rows), VidValues(rows), RptidValues(rows))
    decreases |rows|
  {
    if rows != [] {
      TallyIsSummary(rows[..|rows| - 1]);
      ValuesLast(rows);
    }
  }

  lemma TallyAppend(rows: seq<Row>, r: Row)
    ensures TallyOf(rows + [r]) == Add(TallyOf(rows), r)
  {
    assert (rows + [r])[..|rows|] == rows;
  }

  /** `MetaCollector`: the running summary of the rows seen so far (the
      ghost `seen`). */
  class MetaCollector {
    var row_count: nat
    var t_min_ns: i64
    var t_max_ns: i64
    var distinct_s: set<u8>
    var distinct_f: set<u8>
    var distinct_ceid: set<u32>
    var distinct_vid: set<u32>
    var distinct_rptid: set<u32>
    ghost var seen: seq<Row>

    /** The fields as a value. */
    function Current(): Tally
      reads this
    {
      Tally(row_count, t_min_ns, t_max_ns, distinct_s, distinct_f, distinct_ceid, distinct_vid, distinct_rptid)
    }

    /** The fields hold the tally of the rows seen. */
    ghost predicate Valid()
      reads this
    {
      Current() == TallyOf(seen)
    }

    /** `MetaCollector::new()` */
    constructor ()
      ensures Valid() && seen == []
    {
      row_count := 0;
      t_min_ns := I64_MAX;
      t_max_ns := I64_MIN;
      distinct_s, distinct_f := {}, {};
      distinct_ceid, distinct_vid, distinct_rptid := {}, {}, {};
      seen := [];
    }

    /** `update(msg)` */
    method Update(r: Row)
      requires Valid()
      modifies this
      ensures Valid() && seen == old(seen) + [r]
      ensures Current() == Add(old(Current()), r)
    {
      TallyAppend(seen, r);
      Record(r);
      seen := seen + [r];
    }

    /** The field updates of `update`, one per field. */
    method Record(r: Row)
      modifies this
      ensures Current() == Add(old(Current()), r) && seen == old(seen)
    {
      row_count := row_count + 1;
      t_min_ns := Lower(t_min_ns, r.ts_ns);
      t_max_ns := Upper(t_max_ns, r.ts_ns);
      distinct_s := distinct_s + {r.s};
      distinct_f := distinct_f + {r.f};
      distinct_ceid := WithTag(distinct_ceid, r.ceid);
      distinct_vid := WithTag(distinct_vid, r.vid);
      distinct_rptid := WithTag(distinct_rptid, r.rptid);
    }

    /** `into_meta`: sorted tag lists, and bounds of 0 when no row was seen. */
    method IntoMeta() returns (meta: SessionMeta)
      requires Valid()
      ensures SummarizesRows(meta, seen)
    {
      TallyIsSummary(seen);
      var ss := SortedElements(distinct_s);
      var fs := SortedElements(distinct_f);
      var cs := SortedElements(distinct_ceid);
      var vs := SortedElements(distinct_vid);
      var rs := SortedElements(distinct_rptid);
      forall i | 0 <= i < |ss| ensures ss[i] in distinct_s { assert ss[i] in ss; }
      forall i | 0 <= i < |fs| ensures fs[i] in distinct_f { assert fs[i] in fs; }
      forall i | 0 <= i < |cs| ensures cs[i] in distinct_ceid { assert cs[i] in cs; }
      forall i | 0 <= i < |vs| ensures vs[i] in distinct_vid { assert vs[i] in vs; }
      forall i | 0 <= i < |rs| ensures rs[i] in distinct_rptid { assert rs[i] in rs; }
      meta := SessionMeta(
        row_count,
        if row_count > 0 then t_min_ns else 0,
        if row_count > 0 then t_max_ns else 0,
        ss, fs, cs, vs, rs);
    }
  }

  /** How the recorded values grow with the last row seen. */
  lemma ValuesLast(rows: seq<Row>)
    requires rows != []
    ensures var init, r := rows[..|rows| - 1], rows[|rows| - 1];
      SValues(rows) == SValues(init) + {r.s} &&
      FValues(rows) == FValues(init) + {r.f} &&
      CeidValues(rows) == CeidValues(init) + (if r.ceid > 0 then {r.ceid} else {}) &&
      VidValues(rows) == VidValues(init) + (if r.vid > 0 then {r.vid} else {}) &&
      RptidValues(rows) == RptidValues(init) + (if r.rptid > 0 then {r.rptid} else {})
  {
    var init := rows[..|rows| - 1];
    assert forall i :: 0 <= i < |init| ==> rows[i] == init[i];
  }
}

/** Session storage (backend/service/src/storage.rs) over an in-memory
    filesystem: a map from paths below the storage root to what the files
    hold, the set of directories, and the set of paths where the operating
    system refuses to create a file or a directory. */
module Storage {
  import opened Wrappers
  import opened Types
  import opened Text
  import opened Models
  import opened Decimal
  import opened Ordering

  /** A path below the storage root, one component per element; the root
      itself is `[]`. */
  type Path = seq<string>

  /** What a file holds. Serialisation is not modelled: a payload is read
      back as the value written, a chunk as the rows written, the metadata
      as the summary written. */
  datatype Content =
    | PayloadFile(body: Json)
    | ChunkFile(rows: seq<Row>)
    | MetaFile(meta: SessionMeta)

  datatype StorageError =
    | IoError(path: Path)       // the operating system refused the write
    | NotFound(path: Path)      // no such file or directory
    | Malformed(path: Path)     // the file does not decode as expected

  const CHUNKS_DIR: string := "chunks"
  const PAYLOADS_DIR: string := "payloads"
  const META_FILE: string := "meta.json"
  const ARROW_SUFFIX: string := ".arrow"
  const PAYLOAD_SUFFIX: string := ".mp"

  function Parent(p: Path): Path
    requires p != []
  {
    p[..|p| - 1]
  }

  /** `p` lies at or below `root`. */
  predicate Under(p: Path, root: Path) {
    |root| <= |p| && p[..|root|] == root
  }

  /** Every directory from the root down to `p`, as `create_dir_all` makes
      them. */
  function Ancestry(p: Path): (s: set<Path>)
    ensures p in s && [] in s
    ensures forall q :: q in s ==> |q| <= |p| && p[..|q|] == q
  {
    assert p[..|p|] == p && p[..0] == [];
    set k | 0 <= k <= |p| :: p[..k]
  }

  /** A file can be created at `p` when its directory exists, `p` is not a
      directory and the system does not refuse it. */
  predicate Writable(dirs: set<Path>, faults: set<Path>, p: Path) {
    p != [] && Parent(p) in dirs && p !in dirs && p !in faults
  }

  function SessionPath(id: string): Path {
    [id]
  }

  /** The directories `create_session` makes for a session. */
  function SessionDirs(id: string): set<Path> {
    {[id], [id, CHUNKS_DIR], [id, PAYLOADS_DIR]}
  }

  function MetaPath(id: string): (p: Path)
    ensures Under(p, SessionPath(id))
  {
    [id, META_FILE]
  }

  /** `write_payload`/`read_payload`: `payloads/{row_id}.mp`. */
  function PayloadPath(id: string, rowId: u32): (p: Path)
    ensures Under(p, SessionPath(id))
  {
    [id, PAYLOADS_DIR, Digits(rowId) + PAYLOAD_SUFFIX]
  }

  /** `format!("{:03}.arrow", chunk_idx)` */
  function ChunkName(idx: nat): string {
    ZeroPad(Digits(idx), 3) + ARROW_SUFFIX
  }

  /** `chunk_path`: `chunks/{idx:03}.arrow`. */
  function ChunkPath(id: string, idx: nat): (p: Path)
    ensures Under(p, SessionPath(id))
  {
    [id, CHUNKS_DIR, ChunkName(idx)]
  }

  /** `Path::extension() == Some("arrow")`: the name ends in `.arrow` and
      something precedes that dot. */
  predicate IsArrowName(name: string) {
    |name| > |ARROW_SUFFIX| && EndsWith(name, ARROW_SUFFIX)
  }

  /** Every chunk file name counts as a chunk when listing. */
  lemma ChunkNameIsArrow(idx: nat)
    ensures IsArrowName(ChunkName(idx))
  {
    var s := ChunkName(idx);
    assert s[|s| - |ARROW_SUFFIX|..] == ARROW_SUFFIX;
  }

  /** Distinct indices give distinct chunk files, and the name gives the
      index back. */
  lemma ChunkNameInjective(i: nat, j: nat)
    ensures ChunkName(i) == ChunkName(j) <==> i == j
  {
    if ChunkName(i) == ChunkName(j) {
      var a, b := ZeroPad(Digits(i), 3), ZeroPad(Digits(j), 3);
      assert a == ChunkName(i)[..|a|];
      assert b == ChunkName(j)[..|b|];
      PaddedValue(i, 3);
      PaddedValue(j, 3);
    }
  }

  /** Distinct row ids give distinct payload files. */
  lemma PayloadPathInjective(id: string, r1: u32, r2: u32)
    ensures PayloadPath(id, r1) == PayloadPath(id, r2) <==> r1 == r2
  {
    if PayloadPath(id, r1) == PayloadPath(id, r2) {
      var a, b := Digits(r1), Digits(r2);
      assert a == (a + PAYLOAD_SUFFIX)[..|a|];
      assert b == (b + PAYLOAD_SUFFIX)[..|b|];
      DigitsInjective(r1, r2);
    }
  }

  /** Payload, chunk and metadata files never share a path. */
  lemma FileKindsApart(id: string, rowId: u32, idx: nat)
    ensures PayloadPath(id, rowId) != ChunkPath(id, idx)
    ensures PayloadPath(id, rowId) != MetaPath(id) && ChunkPath(id, idx) != MetaPath(id)
  {
    assert PayloadPath(id, rowId)[1] != ChunkPath(id, idx)[1];
  }

  /** A longer chunk name has the larger index. */
  lemma LongerChunkNameLargerIndex(i: nat, j: nat)
    requires |ChunkName(i)| < |ChunkName(j)|
    ensures i < j
  {
    var a, b := ZeroPad(Digits(i), 3), ZeroPad(Digits(j), 3);
    assert |b| == |Digits(j)| > 3;
    DigitsLowerBound(j);
    ValueBound(a);
    PaddedValue(i, 3);
    Pow10Monotone(|a|, |b| - 1);
  }

  lemma {:induction false} Pow10Monotone(m: nat, n: nat)
    requires m <= n
    ensures Pow10(m) <= Pow10(n)
    decreases n
  {
    if m < n {
      Pow10Monotone(m, n - 1);
    }
  }

  /** Length-first order on chunk names is exactly index order. */
  lemma ChunkNamesShortLex(i: nat, j: nat)
    ensures i < j <==> ShortLexLess(ChunkName(i), ChunkName(j))
  {
    var a, b := ZeroPad(Digits(i), 3), ZeroPad(Digits(j), 3);
    if |a| == |b| {
      LexCommonSuffix(a, b, ARROW_SUFFIX);
      LexIsNumericOnEqualLength(a, b);
      PaddedValue(i, 3);
      PaddedValue(j, 3);
    } else if |a| < |b| {
      LongerChunkNameLargerIndex(i, j);
    } else {
      LongerChunkNameLargerIndex(j, i);
    }
  }

  /** Below index 1000 every name has the same length, so plain
      lexicographic order is index order too. */
  lemma ChunkNamesLexBelow1000(i: nat, j: nat)
    requires i < 1000 && j < 1000
    ensures i < j <==> LexLess(ChunkName(i), ChunkName(j))
  {
    var a, b := ZeroPad(Digits(i), 3), ZeroPad(Digits(j), 3);
    DigitsShort(i);
    DigitsShort(j);
    LexCommonSuffix(a, b, ARROW_SUFFIX);
    LexIsNumericOnEqualLength(a, b);
    PaddedValue(i, 3);
    PaddedValue(j, 3);
  }

  lemma DigitsShort(n: nat)
    requires n < 1000
    ensures |Digits(n)| <= 3
  {
    if |Digits(n)| > 3 {
      DigitsLowerBound(n);
      Pow10Monotone(3, |Digits(n)| - 1);
    }
  }

  /** Lexicographic order puts chunk 1000 before chunk 999: "1000.arrow"
      and "999.arrow" differ first at '1' < '9'. */
  lemma LexPutsChunk1000Before999()
    ensures LexLess(ChunkName(1000), ChunkName(999))
    ensures !ShortLexLess(ChunkName(1000), ChunkName(999))
  {
    assert Digits(1000) == "1000";
    assert Digits(999) == "999";
    assert ChunkName(1000) == "1000.arrow";
    assert ChunkName(999) == "999.arrow";
  }

  /** The names directly inside directory `dir` that `list_chunks` keeps:
      file and directory entries whose extension is `arrow`. */
  function ArrowEntries(files: map<Path, Content>, dirs: set<Path>, dir: Path): (names: set<string>)
    ensures forall n :: n in names ==> IsArrowName(n) && (dir + [n] in files || dir + [n] in dirs)
    ensures forall n :: IsArrowName(n) && (dir + [n] in files || dir + [n] in dirs) ==> n in names
  {
    var inFiles := set p | p in files.Keys && |p| == |dir| + 1 && p[..|dir|] == dir && IsArrowName(p[|dir|]) :: p[|dir|];
    var inDirs := set p | p in dirs && |p| == |dir| + 1 && p[..|dir|] == dir && IsArrowName(p[|dir|]) :: p[|dir|];
    var names := inFiles + inDirs;
    assert forall n :: dir + [n] in files && IsArrowName(n) ==> n in inFiles by {
      forall n | dir + [n] in files && IsArrowName(n) ensures n in inFiles {
        var p := dir + [n];
        assert p[..|dir|] == dir && p[|dir|] == n;
      }
    }
    assert forall n :: dir + [n] in dirs && IsArrowName(n) ==> n in inDirs by {
      forall n | dir + [n] in dirs && IsArrowName(n) ensures n in inDirs {
        var p := dir + [n];
        assert p[..|dir|] == dir && p[|dir|] == n;
      }
    }
    assert forall n :: n in names ==> dir + [n] in files || dir + [n] in dirs by {
      forall n | n in names ensures dir + [n] in files || dir + [n] in dirs {
        if n in inFiles {
          var p :| p in files.Keys && |p| == |dir| + 1 && p[..|dir|] == dir && p[|dir|] == n;
          assert p == dir + [n];
        } else {
          var p :| p in dirs && |p| == |dir| + 1 && p[..|dir|] == dir && p[|dir|] == n;
          assert p == dir + [n];
        }
      }
    }
    names
  }

  /** Reading a payload back: present and a payload, or an error. */
  function LoadPayload(files: map<Path, Content>, id: string, rowId: u32): (r: Result<Json, StorageError>)
    ensures r.Ok? <==> PayloadPath(id, rowId) in files && files[PayloadPath(id, rowId)].PayloadFile?
    ensures r.Ok? ==> files[PayloadPath(id, rowId)] == PayloadFile(r.value)
    ensures PayloadPath(id, rowId) !in files ==> r == Err(NotFound(PayloadPath(id, rowId)))
  {
    var p := PayloadPath(id, rowId);
    if p !in files then Err(NotFound(p))
    else match files[p]
      case PayloadFile(body) => Ok(body)
      case _ => Err(Malformed(p))
  }

  /** Reading the metadata back. */
  function LoadMeta(files: map<Path, Content>, id: string): (r: Result<SessionMeta, StorageError>)
    ensures r.Ok? <==> MetaPath(id) in files && files[MetaPath(id)].MetaFile?
    ensures r.Ok? ==> files[MetaPath(id)] == MetaFile(r.value)
    ensures MetaPath(id) !in files ==> r == Err(NotFound(MetaPath(id)))
  {
    var p := MetaPath(id);
    if p !in files then Err(NotFound(p))
    else match files[p]
      case MetaFile(meta) => Ok(meta)
      case _ => Err(Malformed(p))
  }

  /** The filesystem with everything at or below `root` removed. */
  function RemoveTree(files: map<Path, Content>, root: Path): (r: map<Path, Content>)
    ensures forall p :: p in r <==> p in files && !Under(p, root)
    ensures forall p :: p in r ==> r[p] == files[p]
  {
    map p | p in files && !Under(p, root) :: files[p]
  }

  /** `SessionStorage`: the storage root and what lies below it. */
  class SessionStorage {
    var files: map<Path, Content>
    var dirs: set<Path>
    const faults: set<Path>

    /** Every file and directory lies in an existing directory. */
    ghost predicate Valid()
      reads this
    {
      [] in dirs &&
      (forall p :: p in files ==> p != [] && Parent(p) in dirs && p !in dirs) &&
      (forall p, k :: p in dirs && 0 <= k < |p| ==> p[..k] in dirs)
    }

    /** `SessionStorage::new`: an empty root directory. */
    constructor (faults: set<Path>)
      ensures Valid() && files == map[] && dirs == {[]} && this.faults == faults
    {
      files := map[];
      dirs := {[]};
      this.faults := faults;
    }

    /** Creating a file: `fs::write` / `File::create`. */
    method WriteFile(p: Path, c: Content) returns (r: Result<(), StorageError>)
      requires Valid()
      modifies this
      ensures Valid() && dirs == old(dirs)
      ensures r.Ok? <==> Writable(dirs, faults, p)
      ensures files == if r.Ok? then old(files)[p := c] else old(files)
      ensures r.Err? ==> r.error == IoError(p)
    {
      if p != [] && Parent(p) in dirs && p !in dirs && p !in faults {
        files := files[p := c];
        r := Ok(());
      } else {
        r := Err(IoError(p));
      }
    }

    /** `fs::create_dir_all`: the directory and every missing ancestor, or
      an error when the system refuses `p` or a file is in the way. */
    method CreateDirAll(p: Path) returns (r: Result<(), StorageError>)
      requires Valid()
      modifies this
      ensures Valid() && files == old(files)
      ensures r.Ok? <==> p !in faults && Ancestry(p) !! files.Keys
      ensures dirs == if r.Ok? then old(dirs) + Ancestry(p) else old(dirs)
    {
      if p in faults || exists q :: q in Ancestry(p) && q in files {
        return Err(IoError(p));
      }
      dirs := dirs + Ancestry(p);
      forall q, k | q in dirs && 0 <= k < |q| ensures q[..k] in dirs {
        if q in Ancestry(p) {
          assert q[..k] == p[..k];
        }
      }
      r := Ok(());
    }

    /** `create_session`: the session directory with its `chunks` and
      `payloads` subdirectories. `id` is the fresh identifier the caller
      generated. */
    method CreateSession(id: string) returns (r: Result<string, StorageError>)
      requires Valid()
      modifies this
      ensures Valid() && files == old(files)
      ensures r.Ok? <==> SessionDirs(id) !! faults && SessionDirs(id) !! files.Keys
      ensures r.Ok? ==> (r.value == id && dirs == old(dirs) + SessionDirs(id))
      ensures old(dirs) <= dirs
    {
      assert Ancestry([id]) == {[], [id]} by {
        assert [id][..0] == [] && [id][..1] == [id];
      }
      assert Ancestry([id, CHUNKS_DIR]) == {[], [id], [id, CHUNKS_DIR]} by {
        assert [id, CHUNKS_DIR][..1] == [id];
      }
      assert Ancestry([id, PAYLOADS_DIR]) == {[], [id], [id, PAYLOADS_DIR]} by {
        assert [id, PAYLOADS_DIR][..1] == [id];
      }
      var a := CreateDirAll(SessionPath(id));
      if a.Err? {
        return Err(a.error);
      }
      var b := CreateDirAll([id, CHUNKS_DIR]);
      if b.Err? {
        return Err(b.error);
      }
      var c := CreateDirAll([id, PAYLOADS_DIR]);
      if c.Err? {
        return Err(c.error);
      }
      r := Ok(id);
    }

    /** `delete_session`: removes the session tree when the session
      directory exists and does nothing when nothing is there; removing a
      plain file in its place fails as `remove_dir_all` does. */
    method DeleteSession(id: string) returns (r: Result<(), StorageError>)
      requires Valid()
      modifies this
      ensures Valid()
      ensures r.Ok? <==> SessionPath(id) !in old(files)
      ensures SessionPath(id) in old(dirs) ==>
        files == RemoveTree(old(files), SessionPath(id)) &&
        dirs == set p | p in old(dirs) && !Under(p, SessionPath(id))
      ensures SessionPath(id) !in old(dirs) ==> files == old(files) && dirs == old(dirs)
      ensures r.Ok? ==> forall p :: p in files ==> !Under(p, SessionPath(id))
    {
      var root := SessionPath(id);
      if root in dirs {
        files := RemoveTree(files, root);
        dirs := set p | p in dirs && !Under(p, root);
        forall p | p in files ensures p != [] && Parent(p) in dirs && p !in dirs {
          assert !Under(Parent(p), root);
        }
        forall q, k | q in dirs && 0 <= k < |q| ensures q[..k] in dirs {
          if |root| <= k {
            assert q[..k][..|root|] == q[..|root|];
          }
        }
        r := Ok(());
      } else if root in files {
        r := Err(IoError(root));
      } else {
        forall p | p in files ensures !Under(p, root) {
          assert p[..1] == [p[0]];
          if |p| > 1 {
            SessionDirOfFile(p);
          } else {
            assert p[..1] == p;
          }
        }
        r := Ok(());
      }
    }

    /** In a valid tree every ancestor of a file is a directory. */
    lemma AncestorIsDir(p: Path, k: nat)
      requires Valid() && p in files && 0 <= k < |p|
      ensures p[..k] in dirs
      decreases |p| - k
    {
      assert Parent(p) in dirs;
      if k < |p| - 1 {
        assert Parent(p)[..k] == p[..k];
      }
    }

    /** In a valid tree the top-level directory of a nested file exists. */
    lemma SessionDirOfFile(p: Path)
      requires Valid() && p in files && |p| > 1
      ensures [p[0]] in dirs
    {
      AncestorIsDir(p, 1);
      assert p[..1] == [p[0]];
    }

    /** `write_meta` */
    method WriteMeta(id: string, meta: SessionMeta) returns (r: Result<(), StorageError>)
      requires Valid()
      modifies this
      ensures Valid() && dirs == old(dirs)
      ensures r.Ok? <==> Writable(dirs, faults, MetaPath(id))
      ensures files == if r.Ok? then old(files)[MetaPath(id) := MetaFile(meta)] else old(files)
    {
      r := WriteFile(MetaPath(id), MetaFile(meta));
    }

    /** `read_meta` */
    function ReadMeta(id: string): (r: Result<SessionMeta, StorageError>)
      reads this
      ensures r == LoadMeta(files, id)
    {
      LoadMeta(files, id)
    }

    /** `write_payload` */
    method WritePayload(id: string, rowId: u32, body: Json) returns (r: Result<(), StorageError>)
      requires Valid()
      modifies this
      ensures Valid() && dirs == old(dirs)
      ensures r.Ok? <==> Writable(dirs, faults, PayloadPath(id, rowId))
      ensures files == if r.Ok? then old(files)[PayloadPath(id, rowId) := PayloadFile(body)] else old(files)
    {
      r := WriteFile(PayloadPath(id, rowId), PayloadFile(body));
    }

    /** `read_payload` */
    function ReadPayload(id: string, rowId: u32): (r: Result<Json, StorageError>)
      reads this
      ensures r == LoadPayload(files, id, rowId)
    {
      LoadPayload(files, id, rowId)
    }

    /** `write_arrow_chunk` to `chunk_path(id, idx)`: one chunk's rows. */
    method WriteChunk(id: string, idx: nat, rows: seq<Row>) returns (r: Result<(), StorageError>)
      requires Valid()
      modifies this
      ensures Valid() && dirs == old(dirs)
      ensures r.Ok? <==> Writable(dirs, faults, ChunkPath(id, idx))
      ensures files == if r.Ok? then old(files)[ChunkPath(id, idx) := ChunkFile(rows)] else old(files)
    {
      r := WriteFile(ChunkPath(id, idx), ChunkFile(rows));
    }

    /** The `chunks` directory's `.arrow` entries as full paths, in the
      order `less` puts their names (returned as `names`). */
    method ListChunksBy(id: string, less: (string, string) -> bool)
      returns (r: Result<seq<Path>, StorageError>, ghost names: seq<string>)
      requires StrictTotalOrder(less)
      ensures r.Ok? <==> [id, CHUNKS_DIR] in dirs
      ensures r.Err? ==> r.error == NotFound([id, CHUNKS_DIR])
      ensures r.Ok? ==> ListsChunks(r.value, names, id, less, ArrowEntries(files, dirs, [id, CHUNKS_DIR]))
    {
      var dir := [id, CHUNKS_DIR];
      if dir !in dirs {
        return Err(NotFound(dir)), [];
      }
      var sorted := SortNames(ArrowEntries(files, dirs, dir), less);
      names := sorted;
      r := Ok(ChunkPaths(id, sorted));
    }

    /** `list_chunks`: the `.arrow` entries sorted as paths, which for
      names in one directory is lexicographic order of the names. */
    method ListChunks(id: string) returns (r: Result<seq<Path>, StorageError>, ghost names: seq<string>)
      ensures r.Ok? <==> [id, CHUNKS_DIR] in dirs
      ensures r.Ok? ==> ListsChunks(r.value, names, id, LexLess, ArrowEntries(files, dirs, [id, CHUNKS_DIR]))
    {
      LexIsTotalOrder();
      r, names := ListChunksBy(id, LexLess);
    }

    /** `list_chunks` as its callers need it: the chunks in index order,
      which length-first order on the names gives for every index. */
    method ListChunksInIndexOrder(id: string) returns (r: Result<seq<Path>, StorageError>, ghost names: seq<string>)
      ensures r.Ok? <==> [id, CHUNKS_DIR] in dirs
      ensures r.Ok? ==> ListsChunks(r.value, names, id, ShortLexLess, ArrowEntries(files, dirs, [id, CHUNKS_DIR]))
    {
      ShortLexIsTotalOrder();
      r, names := ListChunksBy(id, ShortLexLess);
    }
  }

  /** The paths of the named files in a session's `chunks` directory. */
  function ChunkPaths(id: string, names: seq<string>): (ps: seq<Path>)
    ensures |ps| == |names|
    ensures forall i :: 0 <= i < |names| ==> ps[i] == [id, CHUNKS_DIR, names[i]]
  {
    seq(|names|, i requires 0 <= i < |names| => [id, CHUNKS_DIR, names[i]])
  }

  /** `paths` lists the entries `entries` of the `chunks` directory, each
      once, sorted by `less` on their names. */
  ghost predicate ListsChunks(paths: seq<Path>, names: seq<string>, id: string,
                              less: (string, string) -> bool, entries: set<string>) {
    SortedBy(names, less) &&
    (forall n :: n in names <==> n in entries) &&
    paths == ChunkPaths(id, names)
  }

  /** The names of chunks `0 .. k-1`, in index order. */
  function ChunkNames(k: nat): (ns: seq<string>)
    ensures |ns| == k
    ensures forall j :: 0 <= j < k ==> ns[j] == ChunkName(j)
  {
    seq(k, j requires 0 <= j < k => ChunkName(j))
  }

  /** A directory holding exactly chunks `0 .. k-1`, listed in length-first
      order, is listed in index order. */
  lemma {:induction false} IndexOrderListing(names: seq<string>, k: nat)
    requires SortedBy(names, ShortLexLess)
    requires forall n :: n in names <==> exists j :: 0 <= j < k && n == ChunkName(j)
    ensures names == ChunkNames(k)
  {
    var expected := ChunkNames(k);
    forall i, j | 0 <= i < j < k ensures ShortLexLess(expected[i], expected[j]) {
      ChunkNamesShortLex(i, j);
    }
    forall n ensures n in expected <==> n in names {
      if n in names {
        var j :| 0 <= j < k && n == ChunkName(j);
        assert expected[j] == n;
      }
    }
    ShortLexIsTotalOrder();
    SortedNamesUnique(names, expected, ShortLexLess);
  }

  /** With at most 1000 chunks the lexicographic listing is index order too. */
  lemma {:induction false} LexListingBelow1000(names: seq<string>, k: nat)
    requires k <= 1000
    requires SortedBy(names, LexLess)
    requires forall n :: n in names <==> exists j :: 0 <= j < k && n == ChunkName(j)
    ensures names == ChunkNames(k)
  {
    var expected := ChunkNames(k);
    forall i, j | 0 <= i < j < k ensures LexLess(expected[i], expected[j]) {
      ChunkNamesLexBelow1000(i, j);
    }
    forall n ensures n in expected <==> n in names {
      if n in names {
        var j :| 0 <= j < k && n == ChunkName(j);
        assert expected[j] == n;
      }
    }
    LexIsTotalOrder();
    SortedNamesUnique(names, expected, LexLess);
  }

  /** From 1001 chunks on, the lexicographic listing is not index order:
      chunk 1000 is listed before chunk 999. */
  lemma {:induction false} LexListingMisordersFrom1001(names: seq<string>, k: nat)
    requires k > 1000
    requires SortedBy(names, LexLess)
    requires forall n :: n in names <==> exists j :: 0 <= j < k && n == ChunkName(j)
    ensures names != ChunkNames(k)
  {
    var expected := ChunkNames(k);
    if names == expected {
      LexPutsChunk1000Before999();
      LexIsTotalOrder();
      assert LexLess(names[999], names[1000]);
      LexAsymmetric(names[999], names[1000]);
      assert false;
    }
  }

  lemma LexAsymmetric(a: string, b: string)
    requires LexLess(a, b)
    ensures !LexLess(b, a)
  {
    if LexLess(b, a) {
      LexTransitive(a, b, a);
      LexIrreflexive(a);
    }
  }
}

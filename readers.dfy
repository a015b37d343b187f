/** The byte readers of the registry (backend/parser/src/registry_parser.rs):
    the caller's reader, and `CombinedReader`, which replays the sniffed
    sample before the rest of the caller's reader. */
module Readers {
  import opened Wrappers
  import opened Types

  function Min(a: nat, b: nat): nat {
    if a <= b then a else b
  }

  /** What one `read` into a buffer of `max` bytes gives on a reader whose
      unread bytes are `rest`, that hands out at most `burst` bytes per call
      and fails once it has none left when `fails` holds. */
  function ReadResult(rest: seq<byte>, fails: bool, burst: nat, max: nat): (r: Result<seq<byte>, ParseError>)
    ensures r.Ok? ==> |r.value| <= |rest| && r.value == rest[..|r.value|]
    ensures r.Ok? ==> |r.value| <= max && |r.value| <= burst
    ensures r.Err? <==> rest == [] && fails
    ensures 0 < max && 0 < burst && r == Ok([]) ==> rest == []
  {
    if rest != [] then Ok(rest[..Min(max, Min(burst, |rest|))])
    else if fails then Err(Io(READ_FAILED))
    else Ok([])
  }

  /** The size of the buffer `read_to_end` reads into. */
  const READ_BUFFER: nat := 8192

  /** The caller's reader: it delivers `content` in pieces of at most `burst`
      bytes, then reports end of input, or an I/O error when `fails`. */
  class SourceReader {
    const content: seq<byte>
    const fails: bool
    const burst: nat
    var pos: nat

    ghost predicate Valid()
      reads this
    {
      pos <= |content| && 0 < burst
    }

    /** The bytes not yet read. */
    function Pending(): seq<byte>
      reads this
      requires Valid()
    {
      content[pos..]
    }

    constructor (content: seq<byte>, fails: bool, burst: nat)
      requires 0 < burst
      ensures Valid()
      ensures this.content == content && this.fails == fails && this.burst == burst
      ensures Pending() == content
    {
      this.content := content;
      this.fails := fails;
      this.burst := burst;
      pos := 0;
    }

    /** `read(buf)` with a buffer of `max` bytes. */
    method Read(max: nat) returns (r: Result<seq<byte>, ParseError>)
      requires Valid()
      modifies this
      ensures Valid()
      ensures r == ReadResult(old(Pending()), fails, burst, max)
      ensures r.Ok? ==> r.value + Pending() == old(Pending())
      ensures r.Err? ==> Pending() == old(Pending())
    {
      if pos < |content| {
        var n := Min(max, Min(burst, |content| - pos));
        r := Ok(content[pos..pos + n]);
        pos := pos + n;
        assert content[pos - n..pos] + content[pos..] == content[pos - n..];
      } else if fails {
        r := Err(Io(READ_FAILED));
      } else {
        r := Ok([]);
      }
    }

    /** `read_to_end`: reads until end of input or the first error. */
    method ReadToEnd() returns (s: Stream)
      requires Valid()
      modifies this
      ensures Valid()
      ensures s == Stream(old(Pending()), fails)
      ensures Pending() == []
    {
      var acc: seq<byte> := [];
      while true
        invariant Valid()
        invariant acc + Pending() == old(Pending())
        decreases |Pending()|
      {
        var r := Read(READ_BUFFER);
        if r.Err? {
          assert acc == old(Pending());
          return Stream(acc, true);
        }
        if r.value == [] {
          assert acc == old(Pending());
          return Stream(acc, false);
        }
        acc := acc + r.value;
      }
    }
  }

  /** `CombinedReader`: the sample first, then the underlying reader. */
  class CombinedReader {
    const sample: seq<byte>
    var cursor: nat
    var readingSample: bool
    const inner: SourceReader

    ghost predicate Valid()
      reads this, inner
    {
      cursor <= |sample| && inner.Valid()
    }

    /** The bytes still to come: the unread sample while the reader is on
        it, then the underlying reader's. */
    function Pending(): seq<byte>
      reads this, inner
      requires Valid()
    {
      (if readingSample then sample[cursor..] else []) + inner.Pending()
    }

    /** `CombinedReader::new(sample, reader)` */
    constructor (sample: seq<byte>, inner: SourceReader)
      requires inner.Valid()
      ensures Valid() && this.sample == sample && this.inner == inner
      ensures readingSample && cursor == 0
      ensures Pending() == sample + inner.Pending()
    {
      this.sample := sample;
      this.inner := inner;
      cursor := 0;
      readingSample := true;
    }

    /** `read(buf)` as written: the sample cursor is read first, and a read
        that returns nothing from it switches to the underlying reader for
        good. A buffer of zero bytes returns nothing from the cursor too, so
        the unread rest of the sample is dropped. */
    method ReadAsWritten(max: nat) returns (r: Result<seq<byte>, ParseError>)
      requires Valid()
      modifies this, inner
      ensures Valid()
      ensures !old(readingSample) ==> !readingSample
      ensures 0 < max ==> (r.Ok? ==> r.value + Pending() == old(Pending()))
      ensures max == 0 && old(readingSample) && old(cursor) < |sample| ==>
        !readingSample && Pending() == old(inner.Pending()) &&
        (r.Ok? ==> r.value + Pending() != old(Pending()))
    {
      if readingSample {
        var n := Min(max, |sample| - cursor);
        var piece := sample[cursor..cursor + n];
        cursor := cursor + n;
        if n == 0 {
          readingSample := false;
          r := inner.Read(max);
        } else {
          r := Ok(piece);
          assert piece + sample[cursor..] == sample[cursor - n..];
        }
      } else {
        r := inner.Read(max);
      }
    }

    /** `read(buf)`, corrected: the reader leaves the sample only once all
        of it has been handed out. Every call hands out a prefix of the
        pending bytes, and a call with room for a byte that hands out
        nothing means end of input. */
    method Read(max: nat) returns (r: Result<seq<byte>, ParseError>)
      requires Valid()
      modifies this, inner
      ensures Valid()
      ensures !old(readingSample) ==> !readingSample
      ensures r.Ok? ==> r.value + Pending() == old(Pending())
      ensures r.Err? ==> Pending() == old(Pending()) == [] && inner.fails
      ensures 0 < max && r == Ok([]) ==> old(Pending()) == [] && !inner.fails
      ensures old(readingSample) && old(cursor) < |sample| && 0 < max ==>
        r.Ok? && r.value != [] && old(cursor) + |r.value| <= |sample| &&
        r.value == sample[old(cursor)..old(cursor) + |r.value|]
    {
      if readingSample && cursor < |sample| {
        var n := Min(max, |sample| - cursor);
        r := Ok(sample[cursor..cursor + n]);
        cursor := cursor + n;
        assert sample[cursor - n..cursor] + sample[cursor..] == sample[cursor - n..];
      } else {
        readingSample := false;
        r := inner.Read(max);
      }
    }

    /** `read_to_end` over the combined reader, as a parser drains it: the
        sample, then the rest of the underlying reader, then its ending. */
    method ReadToEnd() returns (s: Stream)
      requires Valid()
      modifies this, inner
      ensures Valid()
      ensures s == Stream(old(Pending()), inner.fails)
    {
      var acc: seq<byte> := [];
      while true
        invariant Valid()
        invariant acc + Pending() == old(Pending())
        decreases |Pending()|
      {
        var r := Read(READ_BUFFER);
        if r.Err? {
          assert acc == old(Pending());
          return Stream(acc, true);
        }
        if r.value == [] {
          assert acc == old(Pending());
          return Stream(acc, false);
        }
        acc := acc + r.value;
      }
    }
  }
}

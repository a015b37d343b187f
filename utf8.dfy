/** UTF-8 well-formedness as `std::str::from_utf8` checks it (the table of
    section 4 of RFC 3629), and the "valid up to" prefix its error reports. */
module Utf8 {
  import opened Types

  predicate IsContinuation(b: byte) {
    0x80 <= b <= 0xBF
  }

  /** Number of bytes of the character that `lead` starts; 0 when `lead`
      cannot start a character (a continuation byte, C0, C1 or F5..FF). */
  function SequenceLength(lead: byte): nat {
    if lead < 0x80 then 1
    else if 0xC2 <= lead <= 0xDF then 2
    else if 0xE0 <= lead <= 0xEF then 3
    else if 0xF0 <= lead <= 0xF4 then 4
    else 0
  }

  /** The admissible second byte after a multi-byte lead byte. */
  predicate SecondByteOk(lead: byte, b: byte) {
    if lead == 0xE0 then 0xA0 <= b <= 0xBF
    else if lead == 0xED then 0x80 <= b <= 0x9F
    else if lead == 0xF0 then 0x90 <= b <= 0xBF
    else if lead == 0xF4 then 0x80 <= b <= 0x8F
    else IsContinuation(b)
  }

  /** `t` is the beginning of one encoded character: a lead byte followed by
      at most the continuation bytes it calls for, each in its range. */
  predicate CharPrefix(t: seq<byte>) {
    0 < |t| <= SequenceLength(t[0]) &&
    (|t| >= 2 ==> SecondByteOk(t[0], t[1])) &&
    (forall k :: 2 <= k < |t| ==> IsContinuation(t[k]))
  }

  predicate WholeChar(t: seq<byte>) {
    CharPrefix(t) && |t| == SequenceLength(t[0])
  }

  /** A character cut short by the end of the input. */
  predicate IncompleteChar(t: seq<byte>) {
    CharPrefix(t) && |t| < SequenceLength(t[0])
  }

  predicate ValidUtf8(s: seq<byte>)
    decreases |s|
  {
    s == [] ||
    var n := SequenceLength(s[0]);
    0 < n <= |s| && WholeChar(s[..n]) && ValidUtf8(s[n..])
  }

  /** `from_utf8(b)` succeeds: b itself. Otherwise, when the only defect is a
      character cut short at the end (`error_len() == None`), the prefix up to
      `valid_up_to()`; otherwise the empty text. */
  function ValidPrefix(b: seq<byte>): (p: seq<byte>)
    ensures |p| <= |b| && p == b[..|p|]
    ensures ValidUtf8(p)
    ensures ValidUtf8(b) ==> p == b
  {
    if ValidUtf8(b) then b
    else if CutShort(b, 1) then b[..|b| - 1]
    else if CutShort(b, 2) then b[..|b| - 2]
    else if CutShort(b, 3) then b[..|b| - 3]
    else []
  }

  /** When `b` is well-formed or a well-formed text cut inside its last
      character (as every prefix of a well-formed text is, by CutShape),
      `ValidPrefix` keeps the longest well-formed prefix of `b`. */
  lemma ValidPrefixLongest(b: seq<byte>)
    requires ValidUtf8(b) || CutShort(b, 1) || CutShort(b, 2) || CutShort(b, 3)
    ensures LongestValid(b, |ValidPrefix(b)|)
  {
    if !ValidUtf8(b) {
      if CutShort(b, 1) {
        NothingLonger(b, 1);
      } else if CutShort(b, 2) {
        NothingLonger(b, 2);
      } else {
        NothingLonger(b, 3);
      }
    }
  }

  /** No prefix of `b` longer than `n` bytes is well-formed. */
  predicate LongestValid(b: seq<byte>, n: nat) {
    forall k :: n < k <= |b| ==> !ValidUtf8(b[..k])
  }

  /** A well-formed text followed by an incomplete character is not
      well-formed. */
  lemma {:induction false} ValidThenIncomplete(v: seq<byte>, c: seq<byte>)
    requires ValidUtf8(v) && IncompleteChar(c)
    ensures !ValidUtf8(v + c)
    decreases |v|
  {
    if v == [] {
      assert v + c == c;
    } else {
      var n := SequenceLength(v[0]);
      ValidThenIncomplete(v[n..], c);
      assert (v + c)[0] == v[0];
      assert (v + c)[n..] == v[n..] + c;
    }
  }

  /** When the last `d` bytes are an incomplete character after a
      well-formed text, no prefix longer than that text is well-formed. */
  lemma NothingLonger(b: seq<byte>, d: nat)
    requires CutShort(b, d)
    ensures LongestValid(b, |b| - d)
  {
    var j := |b| - d;
    forall k | j < k <= |b| ensures !ValidUtf8(b[..k]) {
      var c := b[j..k];
      assert c == b[j..][..k - j];
      assert IncompleteChar(c);
      assert b[..k] == b[..j] + c;
      ValidThenIncomplete(b[..j], c);
    }
  }

  /** The last `d` bytes of `b` are an incomplete character after a
      well-formed text. */
  predicate CutShort(b: seq<byte>, d: nat) {
    d <= |b| && ValidUtf8(b[..|b| - d]) && IncompleteChar(b[|b| - d..])
  }

  /** Cutting a well-formed text just before a continuation byte leaves a
      text that is not well-formed: the cut falls inside a character. */
  lemma {:induction false} CutInsideChar(x: seq<byte>, k: nat)
    requires ValidUtf8(x) && 0 < k < |x| && IsContinuation(x[k])
    ensures !ValidUtf8(x[..k])
    decreases |x|
  {
    var n := SequenceLength(x[0]);
    if n < |x| {
      LeadNotContinuation(x[n..]);
      assert x[n..][0] == x[n];
    }
    if k < n {
      assert x[..k][0] == x[0];
    } else {
      var y := x[n..];
      assert y[k - n] == x[k];
      CutInsideChar(y, k - n);
      assert x[..k][0] == x[0];
      assert x[..k][..n] == x[..n];
      assert x[..k][n..] == y[..k - n];
    }
  }

  /** A well-formed non-empty text does not start with a continuation byte. */
  lemma LeadNotContinuation(s: seq<byte>)
    requires ValidUtf8(s) && s != []
    ensures !IsContinuation(s[0])
  {
  }

  /** Every prefix of a well-formed text is a well-formed text followed by at
      most one incomplete character, which is at most three bytes long. */
  lemma {:induction false} PrefixSplit(x: seq<byte>, k: nat) returns (j: nat)
    requires ValidUtf8(x) && k <= |x|
    ensures k - 3 <= j <= k
    ensures ValidUtf8(x[..j])
    ensures j == k || IncompleteChar(x[j..k])
    decreases |x|
  {
    if k == 0 {
      return 0;
    }
    var n := SequenceLength(x[0]);
    if k < n {
      j := 0;
      assert x[..k] == x[..n][..k];
      assert x[j..k] == x[..k];
    } else {
      var y := x[n..];
      var j' := PrefixSplit(y, k - n);
      j := n + j';
      assert x[..j][..n] == x[..n];
      assert x[..j][n..] == y[..j'] by {
        forall i | 0 <= i < j' ensures x[..j][n..][i] == y[..j'][i] {
          assert x[..j][n..][i] == x[n + i];
        }
      }
      if j < k {
        assert x[j..k] == y[j'..k - n] by {
          forall i | 0 <= i < k - j ensures x[j..k][i] == y[j'..k - n][i] {
            assert y[j'..k - n][i] == x[n + j' + i];
          }
        }
      }
    }
  }

  /** A prefix of a well-formed text is well-formed or a well-formed text
      cut inside its last character. */
  lemma CutShape(x: seq<byte>, k: nat)
    requires ValidUtf8(x) && k <= |x|
    ensures var b := x[..k];
      ValidUtf8(b) || CutShort(b, 1) || CutShort(b, 2) || CutShort(b, 3)
  {
    var b := x[..k];
    var j := PrefixSplit(x, k);
    if j < k {
      assert b[..j] == x[..j];
      assert b[j..] == x[j..k];
      assert CutShort(b, k - j);
    }
  }

  /** On the prefix of a well-formed text, `ValidPrefix` loses at most the
      three bytes of a character that the cut split, and keeps the longest
      well-formed prefix of the cut. */
  lemma ValidPrefixOfCut(x: seq<byte>, k: nat)
    requires ValidUtf8(x) && k <= |x|
    ensures k - 3 <= |ValidPrefix(x[..k])| <= k
    ensures ValidPrefix(x[..k]) == x[..|ValidPrefix(x[..k])|]
    ensures LongestValid(x[..k], |ValidPrefix(x[..k])|)
  {
    var b := x[..k];
    CutShape(x, k);
    KeepsAllButThree(b);
    ValidPrefixLongest(b);
    var p := ValidPrefix(b);
    assert b[..|p|] == x[..|p|];
  }

  /** When the text is well-formed or only cut short at the end,
      `ValidPrefix` drops at most three bytes. */
  lemma KeepsAllButThree(b: seq<byte>)
    requires ValidUtf8(b) || CutShort(b, 1) || CutShort(b, 2) || CutShort(b, 3)
    ensures |b| - 3 <= |ValidPrefix(b)|
  {
  }

  lemma CutKeepsAllButThree(b: seq<byte>, d: nat)
    requires 1 <= d <= 3 && CutShort(b, d)
    ensures |b| - 3 <= |ValidPrefix(b)|
  {
    KeepsAllButThree(b);
  }

  lemma {:induction false} ConcatValid(a: seq<byte>, b: seq<byte>)
    requires ValidUtf8(a) && ValidUtf8(b)
    ensures ValidUtf8(a + b)
    decreases |a|
  {
    if a == [] {
      assert a + b == b;
    } else {
      var n := SequenceLength(a[0]);
      ConcatValid(a[n..], b);
      assert (a + b)[0] == a[0];
      assert (a + b)[..n] == a[..n];
      assert (a + b)[n..] == a[n..] + b;
    }
  }

  lemma {:induction false} AsciiValid(s: seq<byte>)
    requires forall i :: 0 <= i < |s| ==> s[i] < 0x80
    ensures ValidUtf8(s)
  {
    if s != [] {
      AsciiValid(s[1..]);
      assert s[..1] == [s[0]];
    }
  }
}

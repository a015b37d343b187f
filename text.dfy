/** Sequence and ASCII text helpers standing in for the `str` methods the
    Rust code calls: `starts_with`, `ends_with`, `contains`, `trim`,
    `trim_end`, `lines` and `to_lowercase`. Whitespace and case are ASCII only. */
module Text {
  import opened Types

  predicate StartsWith<T(==)>(s: seq<T>, prefix: seq<T>) {
    |prefix| <= |s| && s[..|prefix|] == prefix
  }

  predicate EndsWith<T(==)>(s: seq<T>, suffix: seq<T>) {
    |suffix| <= |s| && s[|s| - |suffix|..] == suffix
  }

  /** `needle` occurs in `s` starting at index `i`. */
  predicate OccursAt<T(==)>(s: seq<T>, needle: seq<T>, i: int) {
    0 <= i && i + |needle| <= |s| && s[i..i + |needle|] == needle
  }

  predicate Contains<T(==)>(s: seq<T>, needle: seq<T>) {
    exists i | 0 <= i <= |s| - |needle| :: OccursAt(s, needle, i)
  }

  /** The bytes of an ASCII string literal. */
  function Ascii(s: string): (b: seq<byte>)
    requires forall i :: 0 <= i < |s| ==> s[i] as int < 0x80
    ensures |b| == |s| && forall i :: 0 <= i < |s| ==> b[i] == s[i] as int
  {
    seq(|s|, i requires 0 <= i < |s| => s[i] as int)
  }

  const LF: byte := 0x0A
  const CR: byte := 0x0D
  const LBRACE: byte := 0x7B
  const RBRACE: byte := 0x7D
  const LBRACKET: byte := 0x5B

  /** ASCII part of Unicode White_Space: tab, LF, VT, FF, CR and space. */
  predicate IsWhitespace(b: byte) {
    b == 0x20 || 0x09 <= b <= 0x0D
  }

  /** `trim_start`: drop the leading whitespace. */
  function TrimStart(s: seq<byte>): (r: seq<byte>)
    ensures |r| <= |s| && r == s[|s| - |r|..]
    ensures r == [] || !IsWhitespace(r[0])
    ensures forall i :: 0 <= i < |s| - |r| ==> IsWhitespace(s[i])
  {
    if s == [] || !IsWhitespace(s[0]) then s else TrimStart(s[1..])
  }

  /** `trim_end`: drop the trailing whitespace. */
  function TrimEnd(s: seq<byte>): (r: seq<byte>)
    ensures |r| <= |s| && r == s[..|r|]
    ensures r == [] || !IsWhitespace(r[|r| - 1])
    ensures forall i :: |r| <= i < |s| ==> IsWhitespace(s[i])
  {
    if s == [] || !IsWhitespace(s[|s| - 1]) then s else TrimEnd(s[..|s| - 1])
  }

  /** `trim`: drop whitespace at both ends. */
  function Trim(s: seq<byte>): (r: seq<byte>)
    ensures r == [] || (!IsWhitespace(r[0]) && !IsWhitespace(r[|r| - 1]))
  {
    TrimEnd(TrimStart(s))
  }

  lemma TrimOfEmpty()
    ensures Trim([]) == []
  {
  }

  /** Index of the first line feed in `s`, or |s| when there is none. */
  function LineEnd(s: seq<byte>): (k: nat)
    ensures k <= |s|
    ensures k < |s| ==> s[k] == LF
    ensures forall i :: 0 <= i < k ==> s[i] != LF
  {
    if s == [] then 0 else if s[0] == LF then 0 else 1 + LineEnd(s[1..])
  }

  /** A line without its terminator: a trailing CR is removed. */
  function StripCr(line: seq<byte>): seq<byte> {
    if line != [] && line[|line| - 1] == CR then line[..|line| - 1] else line
  }

  /** `str::lines`: split at LF, strip a CR before each LF, no empty last line
      after a final terminator, and no line at all for the empty string. A
      last line without LF keeps a final CR, as `str::lines` does. */
  function Lines(s: seq<byte>): seq<seq<byte>>
    decreases |s|
  {
    if s == [] then []
    else
      var k := LineEnd(s);
      if k == |s| then [s] else [StripCr(s[..k])] + Lines(s[k + 1..])
  }

  /** A text with no line feed has at most one line, and it is the text
      itself, a final CR included. */
  lemma {:induction false} LinesWithoutLf(s: seq<byte>)
    requires forall i :: 0 <= i < |s| ==> s[i] != LF
    ensures |Lines(s)| <= 1
    ensures s != [] ==> Lines(s) == [s]
  {
    if s != [] {
      assert LineEnd(s) == |s|;
    }
  }

  /** A non-empty text that contains a line feed before its last byte has at
      least two lines. */
  lemma {:induction false} LinesWithInnerLf(s: seq<byte>, i: nat)
    requires i + 1 < |s| && s[i] == LF
    ensures |Lines(s)| >= 2
  {
    var k := LineEnd(s);
    assert k <= i;
    assert s[k + 1..] != [];
  }

  predicate IsUpper(c: char) {
    'A' <= c <= 'Z'
  }

  /** The two characters are equal, or are one ASCII letter in its two cases. */
  predicate SameLetter(c: char, d: char) {
    c == d || (IsUpper(c) && d as int == c as int + 32) || (IsUpper(d) && c as int == d as int + 32)
  }

  /** The two texts differ at most in the case of ASCII letters. */
  predicate EqualIgnoringCase(s: string, t: string) {
    |s| == |t| && forall i :: 0 <= i < |s| ==> SameLetter(s[i], t[i])
  }

  /** ASCII lower-casing of one character (`to_lowercase` restricted to
      ASCII): the one character of the same letter that is not upper-case. */
  function LowerChar(c: char): (r: char)
    ensures !IsUpper(r) && SameLetter(c, r)
  {
    if IsUpper(c) then (c as int + 32) as char else c
  }

  /** `to_lowercase`: a text with no upper-case ASCII letter that differs
      from the input only in the case of its letters. */
  function Lower(s: string): (r: string)
    ensures EqualIgnoringCase(s, r)
    ensures forall i :: 0 <= i < |r| ==> !IsUpper(r[i])
  {
    seq(|s|, i requires 0 <= i < |s| => LowerChar(s[i]))
  }

  /** Lower-casing twice is lower-casing once. */
  lemma LowerIdempotent(s: string)
    ensures Lower(Lower(s)) == Lower(s)
  {
    var l := Lower(s);
    forall i | 0 <= i < |l| ensures Lower(l)[i] == l[i] {
      assert !IsUpper(l[i]);
    }
  }

  /** Two texts lower-case alike exactly when they differ only in the case
      of ASCII letters. */
  lemma LowerIgnoresCase(s: string, t: string)
    ensures Lower(s) == Lower(t) <==> EqualIgnoringCase(s, t)
  {
    if EqualIgnoringCase(s, t) {
      forall i | 0 <= i < |s| ensures Lower(s)[i] == Lower(t)[i] {
        assert SameLetter(s[i], t[i]);
      }
    }
    if Lower(s) == Lower(t) {
      forall i | 0 <= i < |s| ensures SameLetter(s[i], t[i]) {
        assert Lower(s)[i] == LowerChar(s[i]) && Lower(t)[i] == LowerChar(t[i]);
      }
    }
  }
}

/** Orders on file names: the lexicographic order in which `sort()` puts
    paths that differ only in their last component, and the length-first
    ("shortlex") order that puts zero-padded numerals in numeric order. */
module Ordering {
  import opened Decimal

  /** Lexicographic order on characters: at the first difference the
      smaller character wins; a proper prefix comes first. */
  predicate LexLess(a: string, b: string)
    decreases |a|
  {
    if a == [] then b != []
    else if b == [] then false
    else if a[0] != b[0] then a[0] < b[0]
    else LexLess(a[1..], b[1..])
  }

  /** Shorter names first, names of equal length lexicographically. */
  predicate ShortLexLess(a: string, b: string) {
    |a| < |b| || (|a| == |b| && LexLess(a, b))
  }

  ghost predicate StrictTotalOrder(less: (string, string) -> bool) {
    (forall a :: !less(a, a)) &&
    (forall a, b, c :: less(a, b) && less(b, c) ==> less(a, c)) &&
    (forall a, b :: a != b ==> less(a, b) || less(b, a))
  }

  lemma {:induction false} LexIrreflexive(a: string)
    ensures !LexLess(a, a)
    decreases |a|
  {
    if a != [] {
      LexIrreflexive(a[1..]);
    }
  }

  lemma {:induction false} LexTransitive(a: string, b: string, c: string)
    requires LexLess(a, b) && LexLess(b, c)
    ensures LexLess(a, c)
    decreases |a|
  {
    if a != [] && a[0] == b[0] && b[0] == c[0] {
      LexTransitive(a[1..], b[1..], c[1..]);
    }
  }

  lemma {:induction false} LexTotal(a: string, b: string)
    requires a != b
    ensures LexLess(a, b) || LexLess(b, a)
    decreases |a|
  {
    if a != [] && b != [] && a[0] == b[0] {
      assert a == [a[0]] + a[1..] && b == [b[0]] + b[1..];
      LexTotal(a[1..], b[1..]);
    }
  }

  /** `sort()` on names uses a strict total order. */
  lemma LexIsTotalOrder()
    ensures StrictTotalOrder(LexLess)
  {
    forall a ensures !LexLess(a, a) {
      LexIrreflexive(a);
    }
    forall a, b, c | LexLess(a, b) && LexLess(b, c) ensures LexLess(a, c) {
      LexTransitive(a, b, c);
    }
    forall a, b | a != b ensures LexLess(a, b) || LexLess(b, a) {
      LexTotal(a, b);
    }
  }

  lemma ShortLexIsTotalOrder()
    ensures StrictTotalOrder(ShortLexLess)
  {
    forall a ensures !ShortLexLess(a, a) {
      LexIrreflexive(a);
    }
    forall a, b, c | ShortLexLess(a, b) && ShortLexLess(b, c) ensures ShortLexLess(a, c) {
      if |a| == |b| == |c| {
        LexTransitive(a, b, c);
      }
    }
    forall a, b | a != b ensures ShortLexLess(a, b) || ShortLexLess(b, a) {
      if |a| == |b| {
        LexTotal(a, b);
      }
    }
  }

  /** Appending the same text to two names of equal length keeps their
      order. */
  lemma {:induction false} LexCommonSuffix(a: string, b: string, t: string)
    requires |a| == |b|
    ensures LexLess(a + t, b + t) <==> LexLess(a, b)
    decreases |a|
  {
    if a == [] {
      LexIrreflexive(t);
      assert a + t == t && b + t == t;
    } else {
      assert (a + t)[1..] == a[1..] + t && (b + t)[1..] == b[1..] + t;
      LexCommonSuffix(a[1..], b[1..], t);
    }
  }

  /** For digit strings of one length, lexicographic order is numeric
      order. */
  lemma {:induction false} LexIsNumericOnEqualLength(a: string, b: string)
    requires AllDigits(a) && AllDigits(b) && |a| == |b|
    ensures LexLess(a, b) <==> Value(a) < Value(b)
    decreases |a|
  {
    if a != [] {
      ValueFromFront(a);
      ValueFromFront(b);
      ValueBound(a[1..]);
      ValueBound(b[1..]);
      LexIsNumericOnEqualLength(a[1..], b[1..]);
      var p := Pow10(|a| - 1);
      var da, db := DigitValue(a[0]), DigitValue(b[0]);
      if da < db {
        FirstDigitDecides(da, db, p, Value(a[1..]), Value(b[1..]));
      } else if db < da {
        FirstDigitDecides(db, da, p, Value(b[1..]), Value(a[1..]));
      } else {
        assert a[0] == b[0];
      }
    }
  }

  /** A smaller leading digit makes a smaller number, whatever follows. */
  lemma FirstDigitDecides(da: nat, db: nat, p: nat, ra: nat, rb: nat)
    requires da < db && ra < p
    ensures da * p + ra < db * p + rb
  {
    var d := db - da;
    assert db * p == da * p + d * p by {
      assert db == da + d;
    }
    MultipleAtLeast(d, p);
  }

  lemma {:induction false} MultipleAtLeast(d: nat, p: nat)
    requires d >= 1
    ensures d * p >= p
  {
    if d > 1 {
      MultipleAtLeast(d - 1, p);
      assert d * p == (d - 1) * p + p;
    }
  }

  /** `xs` is in strictly ascending order. */
  predicate SortedBy(xs: seq<string>, less: (string, string) -> bool) {
    forall i, j :: 0 <= i < j < |xs| ==> less(xs[i], xs[j])
  }

  /** A non-empty finite set of names has a least one. */
  lemma {:induction false} LeastName(s: set<string>, less: (string, string) -> bool) returns (m: string)
    requires s != {} && StrictTotalOrder(less)
    ensures m in s && forall x :: x in s && x != m ==> less(m, x)
    decreases |s|
  {
    var y :| y in s;
    var rest := s - {y};
    if rest == {} {
      m := y;
      assert s == {y};
    } else {
      var k := LeastName(rest, less);
      m := if less(y, k) then y else k;
      forall x | x in s && x != m ensures less(m, x) {
        if x != y {
          assert x in rest;
        }
      }
    }
  }

  /** The state of the selection in `SortNames`: the names taken, in
      ascending order, lie below every name still remaining. */
  ghost predicate Selecting(xs: seq<string>, done: set<string>, rest: set<string>, s: set<string>,
                            less: (string, string) -> bool) {
    done + rest == s && SortedBy(xs, less) &&
    (forall x :: x in xs <==> x in done) &&
    (forall i, y :: 0 <= i < |xs| && y in rest ==> less(xs[i], y))
  }

  /** `sort()` on a collection of distinct names: the names in ascending
      order, each once, taken least first. */
  method SortNames(s: set<string>, less: (string, string) -> bool) returns (xs: seq<string>)
    requires StrictTotalOrder(less)
    ensures SortedBy(xs, less)
    ensures forall x :: x in xs <==> x in s
  {
    xs := [];
    var rest := s;
    ghost var done: set<string> := {};
    while rest != {}
      invariant Selecting(xs, done, rest, s, less)
      decreases |rest|
    {
      ghost var least := LeastName(rest, less);
      var m :| m in rest && forall x :: x in rest && x != m ==> less(m, x);
      SelectStep(xs, done, rest, s, m, less);
      xs, rest, done := xs + [m], rest - {m}, done + {m};
    }
    assert done == s;
  }

  /** One turn of the selection in `SortNames`. */
  lemma SelectStep(xs: seq<string>, done: set<string>, rest: set<string>, s: set<string>, m: string,
                   less: (string, string) -> bool)
    requires StrictTotalOrder(less) && Selecting(xs, done, rest, s, less)
    requires m in rest && forall x :: x in rest && x != m ==> less(m, x)
    ensures Selecting(xs + [m], done + {m}, rest - {m}, s, less)
    ensures |rest - {m}| < |rest|
  {
    TakeLeastName(xs, done, rest, m, less);
    MoveName(done, rest, s, m);
  }

  /** Moving one name from the remaining set to the taken one keeps their
      union and shrinks what remains. */
  lemma MoveName(done: set<string>, rest: set<string>, s: set<string>, m: string)
    requires done + rest == s && m in rest
    ensures (done + {m}) + (rest - {m}) == s
    ensures |rest - {m}| < |rest|
  {
  }

  /** Taking the least remaining name keeps the taken names sorted and
      below every name still remaining. */
  lemma TakeLeastName(xs: seq<string>, done: set<string>, rest: set<string>, m: string,
                      less: (string, string) -> bool)
    requires StrictTotalOrder(less) && SortedBy(xs, less)
    requires forall x :: x in xs <==> x in done
    requires forall i, y :: 0 <= i < |xs| && y in rest ==> less(xs[i], y)
    requires m in rest && forall x :: x in rest && x != m ==> less(m, x)
    ensures SortedBy(xs + [m], less)
    ensures forall x :: x in xs + [m] <==> x in done + {m}
    ensures forall i, y :: 0 <= i < |xs| + 1 && y in rest - {m} ==> less((xs + [m])[i], y)
  {
    var ys := xs + [m];
    forall x ensures x in ys <==> x in done + {m} {
      if x in ys {
        var k :| 0 <= k < |ys| && ys[k] == x;
        if k < |xs| { assert xs[k] in xs; }
      }
      if x in done {
        var k :| 0 <= k < |xs| && xs[k] == x;
        assert ys[k] == x;
      }
      if x == m {
        assert ys[|xs|] == m;
      }
    }
  }

  /** The first name of a sorted list is below all the others. */
  lemma HeadIsLeast(xs: seq<string>, less: (string, string) -> bool)
    requires SortedBy(xs, less) && xs != []
    ensures forall n :: n in xs && n != xs[0] ==> less(xs[0], n)
  {
    forall n | n in xs && n != xs[0] ensures less(xs[0], n) {
      var k :| 0 <= k < |xs| && xs[k] == n;
    }
  }

  /** Two sorted lists of the same names are the same list: sorting has
      one answer, whatever order the names came in. */
  lemma {:induction false} SortedNamesUnique(xs: seq<string>, ys: seq<string>, less: (string, string) -> bool)
    requires StrictTotalOrder(less) && SortedBy(xs, less) && SortedBy(ys, less)
    requires forall n :: n in xs <==> n in ys
    ensures xs == ys
    decreases |xs|
  {
    if xs != [] {
      assert xs[0] in ys;
    }
    if ys != [] {
      assert ys[0] in xs;
    }
    if xs != [] && ys != [] {
      assert xs[0] == ys[0] by {
        HeadIsLeast(xs, less);
        HeadIsLeast(ys, less);
      }
      forall n ensures n in xs[1..] <==> n in ys[1..] {
        if n in xs[1..] {
          var k :| 0 <= k < |xs[1..]| && xs[1..][k] == n;
          assert less(xs[0], xs[k + 1]);
          assert n in ys && n != ys[0];
          var m :| 0 <= m < |ys| && ys[m] == n;
          assert ys[1..][m - 1] == n;
        }
        if n in ys[1..] {
          var k :| 0 <= k < |ys[1..]| && ys[1..][k] == n;
          assert less(ys[0], ys[k + 1]);
          assert n in xs && n != xs[0];
          var m :| 0 <= m < |xs| && xs[m] == n;
          assert xs[1..][m - 1] == n;
        }
      }
      SortedNamesUnique(xs[1..], ys[1..], less);
      assert xs == [xs[0]] + xs[1..] && ys == [ys[0]] + ys[1..];
    }
  }

  /** In a sorted list, `a` sits before `b` exactly when `a` is the smaller. */
  lemma PositionFollowsOrder(xs: seq<string>, less: (string, string) -> bool, i: nat, j: nat)
    requires StrictTotalOrder(less) && SortedBy(xs, less)
    requires i < |xs| && j < |xs|
    ensures i < j <==> less(xs[i], xs[j])
  {
  }
}

/** Small string facilities the TypeScript code gets from its runtime:
    `toLowerCase`, `includes`, number-to-string interpolation and `join`. */
module Text {

  datatype Option<+T> = None | Some(value: T)

  /** ASCII lower-casing of one character (Unicode case folding is not modelled). */
  function LowerChar(c: char): (d: char)
    ensures 'A' <= c <= 'Z' ==> 'a' <= d <= 'z' && d as int - c as int == 32
    ensures !('A' <= c <= 'Z') ==> d == c
  {
    if 'A' <= c <= 'Z' then (c as int + 32) as char else c
  }

  /** `s.toLowerCase()`, restricted to ASCII letters. */
  function Lower(s: string): (r: string)
    ensures |r| == |s|
    ensures forall i :: 0 <= i < |s| ==> r[i] == LowerChar(s[i])
  {
    seq(|s|, i requires 0 <= i < |s| => LowerChar(s[i]))
  }

  /** `needle` occurs in `hay` starting at index `i`. */
  ghost predicate OccursAt(hay: string, needle: string, i: int)
  {
    0 <= i && i + |needle| <= |hay| && hay[i..i + |needle|] == needle
  }

  lemma OccursAtShift(hay: string, needle: string, i: int)
    requires |hay| > 0 && i >= 0
    ensures OccursAt(hay[1..], needle, i) <==> OccursAt(hay, needle, i + 1)
  {
    if 0 <= i && i + |needle| <= |hay| - 1 {
      assert hay[1..][i..i + |needle|] == hay[i + 1..i + 1 + |needle|];
    }
  }

  /** `hay.includes(needle)`: true exactly when `needle` occurs somewhere in `hay`
      (the empty string occurs everywhere). */
  function Includes(hay: string, needle: string): (b: bool)
    ensures b <==> exists i :: OccursAt(hay, needle, i)
    decreases |hay|
  {
    if |needle| <= |hay| && hay[..|needle|] == needle then
      assert OccursAt(hay, needle, 0);
      true
    else if |hay| == 0 then
      assert forall i :: !OccursAt(hay, needle, i);
      false
    else
      var b := Includes(hay[1..], needle);
      if b then
        assert exists i :: OccursAt(hay, needle, i) by {
          var i :| OccursAt(hay[1..], needle, i);
          OccursAtShift(hay, needle, i);
        }
        true
      else
        assert forall i :: !OccursAt(hay, needle, i) by {
          forall i | OccursAt(hay, needle, i)
            ensures false
          {
            if i > 0 {
              OccursAtShift(hay, needle, i - 1);
            }
          }
        }
        false
  }

  /** The two strings contain one another in either direction, ignoring case:
      `a.toLowerCase().includes(b.toLowerCase()) || b.toLowerCase().includes(a.toLowerCase())`. */
  predicate MutuallyIncluded(a: string, b: string)
  {
    Includes(Lower(a), Lower(b)) || Includes(Lower(b), Lower(a))
  }

  /** Every string is included in itself, so a string always matches itself. */
  lemma MutuallyIncludedReflexive(a: string)
    ensures MutuallyIncluded(a, a)
  {
    assert OccursAt(Lower(a), Lower(a), 0);
  }

  // ---------------------------------------------------------------------
  // Decimal rendering of integers, as template-literal interpolation does.

  predicate IsDigit(c: char) { '0' <= c <= '9' }

  function DigitChar(d: nat): (c: char)
    requires d < 10
    ensures IsDigit(c) && c as int - '0' as int == d
  {
    ('0' as int + d) as char
  }

  function DigitValue(c: char): (d: nat)
    requires IsDigit(c)
    ensures d < 10
  {
    c as int - '0' as int
  }

  /** The decimal digits of `n`, most significant first, without leading zeros. */
  function NatString(n: nat): (s: string)
    ensures |s| >= 1
    ensures forall i :: 0 <= i < |s| ==> IsDigit(s[i])
    ensures |s| > 1 ==> s[0] != '0'
    decreases n
  {
    if n < 10 then [DigitChar(n)] else NatString(n / 10) + [DigitChar(n % 10)]
  }

  /** Reads a string of decimal digits back as a number. */
  function ParseNat(s: string): (n: nat)
    requires forall i :: 0 <= i < |s| ==> IsDigit(s[i])
    decreases |s|
  {
    if s == [] then 0 else ParseNat(s[..|s| - 1]) * 10 + DigitValue(s[|s| - 1])
  }

  /** Rendering a number and reading it back gives the number: the rendered
      digits carry exactly the value shown to the user. */
  lemma {:induction false} ParseNatString(n: nat)
    ensures ParseNat(NatString(n)) == n
    decreases n
  {
    var s := NatString(n);
    if n >= 10 {
      ParseNatString(n / 10);
      assert s[..|s| - 1] == NatString(n / 10);
    }
  }

  /** `${i}` for an integer `i`. */
  function IntString(i: int): string
  {
    if i < 0 then "-" + NatString(-i) else NatString(i)
  }

  // ---------------------------------------------------------------------
  // Array.prototype.join

  /** Where the `i`-th element starts in `xs.join(sep)`: after each earlier
      element and the separator that follows it. */
  function Offset(xs: seq<string>, sep: string, i: int): (n: nat)
    requires 0 <= i <= |xs|
    decreases i
  {
    if i == 0 then 0 else Offset(xs, sep, i - 1) + |xs[i - 1]| + |sep|
  }

  /** Where the `i`-th element ends, and the separator after it starts. */
  function PieceEnd(xs: seq<string>, sep: string, i: int): nat
    requires 0 <= i < |xs|
  {
    Offset(xs, sep, i) + |xs[i]|
  }

  /** Every element of `xs` sits in `r` at its offset. */
  ghost predicate PiecesAt(r: string, xs: seq<string>, sep: string)
  {
    forall i {:trigger PieceEnd(xs, sep, i)} :: 0 <= i < |xs| ==>
      PieceEnd(xs, sep, i) <= |r| && r[Offset(xs, sep, i)..PieceEnd(xs, sep, i)] == xs[i]
  }

  /** A separator follows every element of `xs` but the last. */
  ghost predicate SeparatorsAt(r: string, xs: seq<string>, sep: string)
  {
    forall i {:trigger PieceEnd(xs, sep, i)} :: 0 <= i < |xs| - 1 ==>
      PieceEnd(xs, sep, i) + |sep| <= |r| && r[PieceEnd(xs, sep, i)..PieceEnd(xs, sep, i) + |sep|] == sep
  }

  /** `r` is the elements of `xs`, in order, with `sep` between each two
      neighbours and nothing else: every element and every separator sits at
      its offset, and the last element ends the string. */
  ghost predicate JoinedBy(r: string, xs: seq<string>, sep: string)
  {
    if xs == [] then r == ""
    else |r| == PieceEnd(xs, sep, |xs| - 1) && PiecesAt(r, xs, sep) && SeparatorsAt(r, xs, sep)
  }

  /** Offsets depend only on the elements before them. */
  lemma {:induction false} OffsetPrefix(xs: seq<string>, ys: seq<string>, sep: string, i: int)
    requires 0 <= i <= |xs| && i <= |ys| && xs[..i] == ys[..i]
    ensures Offset(xs, sep, i) == Offset(ys, sep, i)
    decreases i
  {
    if i > 0 {
      assert xs[..i - 1] == xs[..i][..i - 1] && ys[..i - 1] == ys[..i][..i - 1];
      assert xs[i - 1] == xs[..i][i - 1] && ys[i - 1] == ys[..i][i - 1];
      OffsetPrefix(xs, ys, sep, i - 1);
    }
  }

  /** The list without its last element has the same offsets. */
  lemma OffsetsOfInit(xs: seq<string>, sep: string)
    requires |xs| >= 1
    ensures Offset(xs[..|xs| - 1], sep, |xs| - 1) == Offset(xs, sep, |xs| - 1)
    ensures forall i {:trigger PieceEnd(xs[..|xs| - 1], sep, i)} :: 0 <= i < |xs| - 1 ==>
      && Offset(xs[..|xs| - 1], sep, i) == Offset(xs, sep, i)
      && PieceEnd(xs[..|xs| - 1], sep, i) == PieceEnd(xs, sep, i)
  {
    var init := xs[..|xs| - 1];
    forall i | 0 <= i <= |xs| - 1
      ensures Offset(init, sep, i) == Offset(xs, sep, i)
    {
      assert init[..i] == xs[..i];
      OffsetPrefix(init, xs, sep, i);
    }
  }

  /** Pieces end in increasing order. */
  lemma {:induction false} PieceEndMonotone(xs: seq<string>, sep: string, i: int, k: int)
    requires 0 <= i <= k < |xs|
    ensures PieceEnd(xs, sep, i) <= PieceEnd(xs, sep, k)
    ensures i < k ==> PieceEnd(xs, sep, i) + |sep| <= Offset(xs, sep, k)
    decreases k - i
  {
    if i < k {
      PieceEndMonotone(xs, sep, i, k - 1);
    }
  }

  lemma SliceLeft(a: string, b: string, lo: int, hi: int)
    requires 0 <= lo <= hi <= |a|
    ensures (a + b)[lo..hi] == a[lo..hi]
  {
  }

  lemma SliceRight(a: string, b: string, lo: int, hi: int)
    requires |a| <= lo <= hi <= |a| + |b|
    ensures (a + b)[lo..hi] == b[lo - |a|..hi - |a|]
  {
  }

  /** Appending a separator and one more element to a joined list joins the
      longer list. */
  lemma JoinedByStep(j: string, xs: seq<string>, sep: string)
    requires |xs| >= 2 && JoinedBy(j, xs[..|xs| - 1], sep)
    ensures JoinedBy(j + (sep + xs[|xs| - 1]), xs, sep)
  {
    OffsetsOfInit(xs, sep);
    assert |j| == PieceEnd(xs, sep, |xs| - 2);
    PiecesStep(j, xs, sep);
    SeparatorsStep(j, xs, sep);
  }

  lemma PiecesStep(j: string, xs: seq<string>, sep: string)
    requires |xs| >= 2 && PiecesAt(j, xs[..|xs| - 1], sep)
    requires |j| == PieceEnd(xs, sep, |xs| - 2)
    ensures PiecesAt(j + (sep + xs[|xs| - 1]), xs, sep)
  {
    var n := |xs|;
    var init := xs[..n - 1];
    var tail := sep + xs[n - 1];
    var r := j + tail;
    OffsetsOfInit(xs, sep);
    forall i {:trigger PieceEnd(xs, sep, i)} | 0 <= i < n - 1
      ensures PieceEnd(xs, sep, i) <= |r| && r[Offset(xs, sep, i)..PieceEnd(xs, sep, i)] == xs[i]
    {
      assert init[i] == xs[i];
      assert PieceEnd(init, sep, i) <= |j| && j[Offset(init, sep, i)..PieceEnd(init, sep, i)] == init[i];
      SliceLeft(j, tail, Offset(xs, sep, i), PieceEnd(xs, sep, i));
    }
    LastPiece(j, xs, sep);
  }

  lemma LastPiece(j: string, xs: seq<string>, sep: string)
    requires |xs| >= 2 && |j| == PieceEnd(xs, sep, |xs| - 2)
    ensures var r, n := j + (sep + xs[|xs| - 1]), |xs|;
      PieceEnd(xs, sep, n - 1) <= |r| && r[Offset(xs, sep, n - 1)..PieceEnd(xs, sep, n - 1)] == xs[n - 1]
  {
    var n := |xs|;
    var tail := sep + xs[n - 1];
    SliceRight(j, tail, Offset(xs, sep, n - 1), PieceEnd(xs, sep, n - 1));
    assert tail[|sep|..] == xs[n - 1];
  }

  lemma SeparatorsStep(j: string, xs: seq<string>, sep: string)
    requires |xs| >= 2 && SeparatorsAt(j, xs[..|xs| - 1], sep)
    requires |j| == PieceEnd(xs, sep, |xs| - 2)
    ensures SeparatorsAt(j + (sep + xs[|xs| - 1]), xs, sep)
  {
    var n := |xs|;
    var init := xs[..n - 1];
    var tail := sep + xs[n - 1];
    var r := j + tail;
    OffsetsOfInit(xs, sep);
    forall i {:trigger PieceEnd(xs, sep, i)} | 0 <= i < n - 1
      ensures PieceEnd(xs, sep, i) + |sep| <= |r|
        && r[PieceEnd(xs, sep, i)..PieceEnd(xs, sep, i) + |sep|] == sep
    {
      if i < n - 2 {
        assert PieceEnd(init, sep, i) + |sep| <= |j|
          && j[PieceEnd(init, sep, i)..PieceEnd(init, sep, i) + |sep|] == sep;
        SliceLeft(j, tail, PieceEnd(xs, sep, i), PieceEnd(xs, sep, i) + |sep|);
      } else {
        SliceRight(j, tail, PieceEnd(xs, sep, i), PieceEnd(xs, sep, i) + |sep|);
        assert tail[..|sep|] == sep;
      }
    }
  }

  /** Dropping the last separator and element of a joined list leaves the
      shorter list joined, and the string is that prefix, the separator and
      the last element. */
  lemma JoinedByPrefix(r: string, xs: seq<string>, sep: string)
    requires |xs| >= 2 && JoinedBy(r, xs, sep)
    ensures PieceEnd(xs, sep, |xs| - 2) + |sep| <= |r|
    ensures JoinedBy(r[..PieceEnd(xs, sep, |xs| - 2)], xs[..|xs| - 1], sep)
    ensures r == r[..PieceEnd(xs, sep, |xs| - 2)] + (sep + xs[|xs| - 1])
  {
    var n := |xs|;
    var cut := PieceEnd(xs, sep, n - 2);
    OffsetsOfInit(xs, sep);
    PiecesPrefix(r, xs, sep);
    SeparatorsPrefix(r, xs, sep);
    assert PieceEnd(xs, sep, n - 2) + |sep| <= |r| && r[cut..cut + |sep|] == sep;
    assert Offset(xs, sep, n - 1) == cut + |sep|;
    assert PieceEnd(xs, sep, n - 1) <= |r| && r[Offset(xs, sep, n - 1)..PieceEnd(xs, sep, n - 1)] == xs[n - 1];
    assert r[cut + |sep|..] == xs[n - 1];
    assert r == r[..cut] + r[cut..cut + |sep|] + r[cut + |sep|..];
  }

  lemma PiecesPrefix(r: string, xs: seq<string>, sep: string)
    requires |xs| >= 2 && PiecesAt(r, xs, sep)
    ensures PieceEnd(xs, sep, |xs| - 2) <= |r|
    ensures PiecesAt(r[..PieceEnd(xs, sep, |xs| - 2)], xs[..|xs| - 1], sep)
  {
    var n := |xs|;
    var init := xs[..n - 1];
    var cut := PieceEnd(xs, sep, n - 2);
    var p := r[..cut];
    OffsetsOfInit(xs, sep);
    assert PieceEnd(xs, sep, n - 2) <= |r|;
    forall i {:trigger PieceEnd(init, sep, i)} | 0 <= i < n - 1
      ensures PieceEnd(init, sep, i) <= |p| && p[Offset(init, sep, i)..PieceEnd(init, sep, i)] == init[i]
    {
      PieceEndMonotone(xs, sep, i, n - 2);
      assert init[i] == xs[i];
      assert PieceEnd(xs, sep, i) <= |r| && r[Offset(xs, sep, i)..PieceEnd(xs, sep, i)] == xs[i];
      assert p[Offset(xs, sep, i)..PieceEnd(xs, sep, i)] == r[Offset(xs, sep, i)..PieceEnd(xs, sep, i)];
    }
  }

  lemma SeparatorsPrefix(r: string, xs: seq<string>, sep: string)
    requires |xs| >= 2 && SeparatorsAt(r, xs, sep)
    ensures SeparatorsAt(r[..PieceEnd(xs, sep, |xs| - 2)], xs[..|xs| - 1], sep)
  {
    var n := |xs|;
    var init := xs[..n - 1];
    var cut := PieceEnd(xs, sep, n - 2);
    OffsetsOfInit(xs, sep);
    assert PieceEnd(xs, sep, n - 2) + |sep| <= |r|;
    var p := r[..cut];
    forall i {:trigger PieceEnd(init, sep, i)} | 0 <= i < n - 2
      ensures PieceEnd(init, sep, i) + |sep| <= |p|
        && p[PieceEnd(init, sep, i)..PieceEnd(init, sep, i) + |sep|] == sep
    {
      PieceEndMonotone(xs, sep, i, n - 2);
      assert PieceEnd(xs, sep, i) + |sep| <= |r| && r[PieceEnd(xs, sep, i)..PieceEnd(xs, sep, i) + |sep|] == sep;
      assert p[PieceEnd(xs, sep, i)..PieceEnd(xs, sep, i) + |sep|]
          == r[PieceEnd(xs, sep, i)..PieceEnd(xs, sep, i) + |sep|];
    }
  }

  /** `xs.join(sep)`. */
  function Join(xs: seq<string>, sep: string): (r: string)
    ensures JoinedBy(r, xs, sep)
    decreases |xs|
  {
    if xs == [] then ""
    else if |xs| == 1 then
      xs[0]
    else
      var j := Join(xs[..|xs| - 1], sep);
      JoinedByStep(j, xs, sep);
      j + (sep + xs[|xs| - 1])
  }

  /** The layout determines the string: a list can be joined in one way only,
      so JoinedBy specifies `join` completely. */
  lemma {:induction false} JoinedByUnique(r1: string, r2: string, xs: seq<string>, sep: string)
    requires JoinedBy(r1, xs, sep) && JoinedBy(r2, xs, sep)
    ensures r1 == r2
    decreases |xs|
  {
    if |xs| >= 2 {
      var cut := PieceEnd(xs, sep, |xs| - 2);
      JoinedByPrefix(r1, xs, sep);
      JoinedByPrefix(r2, xs, sep);
      JoinedByUnique(r1[..cut], r2[..cut], xs[..|xs| - 1], sep);
    } else if |xs| == 1 {
      assert r1 == r1[Offset(xs, sep, 0)..PieceEnd(xs, sep, 0)];
      assert r2 == r2[Offset(xs, sep, 0)..PieceEnd(xs, sep, 0)];
    }
  }

  function Min(a: int, b: int): int { if a <= b then a else b }

  function Max(a: int, b: int): int { if a >= b then a else b }
}

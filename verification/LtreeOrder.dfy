/**
 Label paths and their order (contrib/ltree/ltree_op.c).

 `ltree_compare` multiplies its result by ten times the number of levels left, in 32-bit
 arithmetic.  The order it is meant to compute is the lexicographic order of label sequences
 (`PathOrd`); the two agree exactly as long as that product does not overflow.
 */
module LtreeOrder {

  type Label = string
  type Path = seq<Label>

  // What the input functions accept as a label: 1 to 255 bytes, none of them NUL.
  ghost predicate IsLabel(l: Label) {
    0 < |l| <= 255 && forall i :: 0 <= i < |l| ==> 0 < l[i] as int < 256
  }

  // The number of levels is a 16-bit field.
  ghost predicate IsPath(p: Path) {
    |p| <= 0xffff && forall i :: 0 <= i < |p| ==> IsLabel(p[i])
  }

  // ---------------------------------------------------------------- the intended order

  function CharOrd(a: char, b: char): (r: int) { if a < b then -1 else if a > b then 1 else 0 }

  function LabelOrd(a: Label, b: Label): (r: int) {
    if a == [] then (if b == [] then 0 else -1)
    else if b == [] then 1
    else if a[0] != b[0] then CharOrd(a[0], b[0])
    else LabelOrd(a[1..], b[1..])
  }

  function PathOrd(a: Path, b: Path): (r: int) {
    if a == [] then (if b == [] then 0 else -1)
    else if b == [] then 1
    else if a[0] != b[0] then LabelOrd(a[0], b[0])
    else PathOrd(a[1..], b[1..])
  }

  lemma {:induction false} LabelOrdIsTotal(a: Label, b: Label)
    ensures -1 <= LabelOrd(a, b) <= 1
    ensures LabelOrd(a, b) == 0 <==> a == b
    ensures LabelOrd(b, a) == -LabelOrd(a, b)
  {
    if a != [] && b != [] && a[0] == b[0] {
      LabelOrdIsTotal(a[1..], b[1..]);
      assert a == [a[0]] + a[1..] && b == [b[0]] + b[1..];
    }
  }

  lemma {:induction false} LabelOrdIsTransitive(a: Label, b: Label, c: Label)
    requires LabelOrd(a, b) <= 0 && LabelOrd(b, c) <= 0
    ensures LabelOrd(a, c) <= 0
  {
    if a != [] && b != [] && c != [] && a[0] == b[0] == c[0] {
      LabelOrdIsTransitive(a[1..], b[1..], c[1..]);
    }
  }

  lemma {:induction false} PathOrdIsTotal(a: Path, b: Path)
    ensures -1 <= PathOrd(a, b) <= 1
    ensures PathOrd(a, b) == 0 <==> a == b
    ensures PathOrd(b, a) == -PathOrd(a, b)
  {
    if a != [] && b != [] {
      LabelOrdIsTotal(a[0], b[0]);
      assert a == [a[0]] + a[1..] && b == [b[0]] + b[1..];
      if a[0] == b[0] { PathOrdIsTotal(a[1..], b[1..]); }
    }
  }

  lemma {:induction false} PathOrdIsTransitive(a: Path, b: Path, c: Path)
    requires PathOrd(a, b) <= 0 && PathOrd(b, c) <= 0
    ensures PathOrd(a, c) <= 0
  {
    if a != [] && b != [] && c != [] {
      LabelOrdIsTotal(a[0], b[0]);
      LabelOrdIsTotal(b[0], c[0]);
      LabelOrdIsTotal(a[0], c[0]);
      if a[0] == b[0] == c[0] {
        PathOrdIsTransitive(a[1..], b[1..], c[1..]);
      } else {
        LabelOrdIsTransitive(a[0], b[0], c[0]);
      }
    }
  }

  function Cut(p: Path, n: nat): (q: Path) { if n < |p| then p[..n] else p }

  // Truncating two paths to the same number of levels keeps their order.
  lemma {:induction false} CutIsMonotone(a: Path, b: Path, n: nat)
    requires PathOrd(a, b) <= 0
    ensures PathOrd(Cut(a, n), Cut(b, n)) <= 0
  {
    if n > 0 && a != [] && b != [] && a[0] == b[0] {
      CutIsMonotone(a[1..], b[1..], n - 1);
      assert Cut(a, n)[1..] == Cut(a[1..], n - 1) && Cut(b, n)[1..] == Cut(b[1..], n - 1);
    } else if n == 0 {
      assert Cut(a, n) == [] == Cut(b, n);
    }
  }

  // ---------------------------------------------------------------- ltree_compare

  // the value kept by a 32-bit int
  function Wrap32(x: int): (r: int)
    ensures -0x8000_0000 <= r < 0x8000_0000
    ensures -0x8000_0000 <= x < 0x8000_0000 ==> r == x
  {
    (x + 0x8000_0000) % 0x1_0000_0000 - 0x8000_0000
  }

  // strncmp over the first n bytes of two labels
  function Strncmp(a: string, b: string, n: nat): (r: int)
    requires n <= |a| && n <= |b|
  {
    if n == 0 then 0
    else if a[0] != b[0] then a[0] as int - b[0] as int
    else Strncmp(a[1..], b[1..], n - 1)
  }

  // The difference found in one pair of levels: of bytes, or of lengths.
  function LabelDiff(a: Label, b: Label): (r: int) {
    var d := Strncmp(a, b, if |a| <= |b| then |a| else |b|);
    if d != 0 then d else |a| - |b|
  }

  // ltree_compare from the levels a and b on; `diff` is the difference of the level counts.
  function CompareFrom(a: Path, b: Path, diff: int): (r: int) {
    if a == [] || b == [] then Wrap32(diff * 10 * (|a| + 1))
    else
      var d := LabelDiff(a[0], b[0]);
      if d != 0 then Wrap32(d * 10 * (|a| + 1)) else CompareFrom(a[1..], b[1..], diff)
  }

  function Compare(a: Path, b: Path): (r: int) { CompareFrom(a, b, |a| - |b|) }

  function Sign(x: int): (r: int) { if x < 0 then -1 else if x > 0 then 1 else 0 }

  lemma {:induction false} LabelDiffIsOrd(a: Label, b: Label)
    requires forall i :: 0 <= i < |a| ==> 0 < a[i] as int < 256
    requires forall i :: 0 <= i < |b| ==> 0 < b[i] as int < 256
    requires |a| <= 255 && |b| <= 255
    ensures Sign(LabelDiff(a, b)) == LabelOrd(a, b) && -255 <= LabelDiff(a, b) <= 255
  {
    if a != [] && b != [] && a[0] == b[0] {
      LabelDiffIsOrd(a[1..], b[1..]);
    }
  }

  lemma {:induction false} Scaled(d: int, n: nat)
    requires -255 <= d <= 255 && n <= 0x1_0000
    ensures Sign(Wrap32(d * 10 * n)) == if n == 0 then 0 else Sign(d)
  {
    assert d * 10 * n == 10 * (d * n);
    if d >= 0 {
      MulBound(d, n, 255, 0x1_0000);
    } else {
      MulBound(-d, n, 255, 0x1_0000);
      assert (-d) * n == -(d * n);
    }
  }

  lemma {:induction false} MulBound(x: nat, y: nat, mx: nat, my: nat)
    requires x <= mx && y <= my
    ensures 0 <= x * y <= mx * my && (x * y == 0 <==> x == 0 || y == 0)
  {
    assert x * y <= mx * y <= mx * my;
  }

  // The product overflows when a extends b by too many levels.
  predicate Overshoots(a: Path, b: Path) {
    b < a && Wrap32((|a| - |b|) * 10 * (|a| - |b| + 1)) <= 0
  }

  lemma {:induction false} CompareFromIsOrd(a: Path, b: Path, diff: int)
    requires IsPath(a) && IsPath(b) && diff == |a| - |b|
    ensures Overshoots(a, b) ==> Sign(CompareFrom(a, b, diff)) != 1 && PathOrd(a, b) == 1
    ensures !Overshoots(a, b) ==> Sign(CompareFrom(a, b, diff)) == PathOrd(a, b)
  {
    if a != [] && b != [] {
      LabelDiffIsOrd(a[0], b[0]);
      LabelOrdIsTotal(a[0], b[0]);
      if a[0] == b[0] {
        CompareFromIsOrd(a[1..], b[1..], diff);
        assert b < a <==> b[1..] < a[1..] by {
          assert a == [a[0]] + a[1..] && b == [b[0]] + b[1..];
        }
      } else {
        Scaled(LabelDiff(a[0], b[0]), |a| + 1);
      }
    }
  }

  // ltree_compare has the sign of the lexicographic order if and only if a does not extend b by a
  // number d of levels for which 10 * d * (d + 1) leaves the range of positive 32-bit integers.
  lemma {:induction false} CompareIsOrdExactly(a: Path, b: Path)
    requires IsPath(a) && IsPath(b)
    ensures Sign(Compare(a, b)) == PathOrd(a, b) <==> !Overshoots(a, b)
  {
    CompareFromIsOrd(a, b, |a| - |b|);
  }

  // A path whose comparisons never overflow.
  const SAFE_DEPTH := 14653

  ghost predicate Safe(p: Path) { IsPath(p) && |p| <= SAFE_DEPTH }

  lemma {:induction false} CompareIsOrd(a: Path, b: Path)
    requires Safe(a) && Safe(b)
    ensures Sign(Compare(a, b)) == PathOrd(a, b)
  {
    CompareIsOrdExactly(a, b);
    if b < a { SafeProduct(|a| - |b|); }
  }

  lemma {:induction false} SafeProduct(d: nat)
    requires 0 < d <= SAFE_DEPTH
    ensures Wrap32(d * 10 * (d + 1)) > 0
  {
    MulBound(d, d + 1, SAFE_DEPTH, SAFE_DEPTH + 1);
    assert d * 10 * (d + 1) == 10 * (d * (d + 1));
  }

  // Paths that can be compared with each other without overflow.
  ghost predicate Tame(known: set<Path>) {
    forall a, b :: a in known && b in known ==> IsPath(a) && IsPath(b) && !Overshoots(a, b)
  }

  lemma {:induction false} TameCompare(known: set<Path>, a: Path, b: Path)
    requires Tame(known) && a in known && b in known
    ensures Sign(Compare(a, b)) == PathOrd(a, b) && IsPath(a) && IsPath(b)
  {
    assert !Overshoots(a, b);
    CompareIsOrdExactly(a, b);
  }

  // Any paths up to the safe depth are.
  lemma {:induction false} SafeIsTame(known: set<Path>)
    requires forall p :: p in known ==> Safe(p)
    ensures Tame(known)
  {
    forall a, b | a in known && b in known ensures !Overshoots(a, b) {
      if b < a { SafeProduct(|a| - |b|); }
    }
  }

  // One level more and the longer path compares as smaller than its own prefix.
  lemma {:induction false} DeepPathsCompareWrongly(p: Path)
    requires IsPath(p) && |p| == SAFE_DEPTH + 1
    ensures PathOrd(p, []) == 1 && Compare(p, []) < 0
  {
  }

  // The loop of ltree_compare.
  method LtreeCompare(a: Path, b: Path) returns (r: int)
    ensures r == Compare(a, b)
  {
    var i := 0;
    var an, bn := |a|, |b|;
    while an > 0 && bn > 0
      invariant an == |a| - i && bn == |b| - i && 0 <= i <= |a| && i <= |b|
      invariant Compare(a, b) == CompareFrom(a[i..], b[i..], |a| - |b|)
    {
      var al, bl := a[i], b[i];
      var res := RunStrncmp(al, bl, if |al| <= |bl| then |al| else |bl|);
      if res == 0 {
        if |al| != |bl| {
          return Wrap32((|al| - |bl|) * 10 * (an + 1));
        }
      } else {
        return Wrap32(res * 10 * (an + 1));
      }
      assert a[i..][1..] == a[i + 1..] && b[i..][1..] == b[i + 1..];
      an, bn, i := an - 1, bn - 1, i + 1;
    }
    return Wrap32((|a| - |b|) * 10 * (an + 1));
  }

  method RunStrncmp(a: string, b: string, n: nat) returns (r: int)
    requires n <= |a| && n <= |b|
    ensures r == Strncmp(a, b, n)
  {
    var i := 0;
    while i < n
      invariant i <= n && Strncmp(a, b, n) == Strncmp(a[i..], b[i..], n - i)
    {
      if a[i] != b[i] {
        return a[i] as int - b[i] as int;
      }
      assert a[i..][1..] == a[i + 1..] && b[i..][1..] == b[i + 1..];
      i := i + 1;
    }
    return 0;
  }

  // inner_isparent: is p an ancestor of c, or c itself?
  method IsParent(c: Path, p: Path) returns (r: bool)
    ensures r <==> p <= c
  {
    if |p| > |c| {
      return false;
    }
    var i := 0;
    while i < |p|
      invariant 0 <= i <= |p| && p[..i] == c[..i]
    {
      if |c[i]| != |p[i]| {
        assert p[i] != c[i];
        return false;
      }
      var d := RunStrncmp(c[i], p[i], |c[i]|);
      StrncmpZero(c[i], p[i]);
      if d != 0 {
        assert p[i] != c[i];
        return false;
      }
      assert p[..i + 1] == p[..i] + [p[i]] && c[..i + 1] == c[..i] + [c[i]];
      i := i + 1;
    }
    assert p[..i] == p;
    return true;
  }

  lemma {:induction false} StrncmpZero(a: string, b: string)
    requires |a| == |b|
    ensures Strncmp(a, b, |a|) == 0 <==> a == b
  {
    if a != [] {
      if a[0] == b[0] { StrncmpZero(a[1..], b[1..]); }
      assert a == [a[0]] + a[1..] && b == [b[0]] + b[1..];
    }
  }
}

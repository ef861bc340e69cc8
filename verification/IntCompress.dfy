/**
 The lossy key compression of gist__int_ops (g_int_compress and g_int_decompress in
 contrib/intarray/_int.c): an internal key of 200 or more elements is stored as 100 ranges,
 found by repeatedly merging the two neighbouring ranges with the smallest gap.
 */
module IntCompress {
  import opened IntSets

  const MAXNUMRANGE: nat := 100
  const INT_MAX: int := 0x7fff_ffff

  predicate Int4(x: int) { -0x8000_0000 <= x <= INT_MAX }

  ghost predicate AllInt4(s: seq<int>) { forall i :: 0 <= i < |s| ==> Int4(s[i]) }

  // the result of a 32-bit subtraction that may wrap around
  function Sub4(x: int, y: int): (r: int)
    requires Int4(x) && Int4(y)
    ensures Int4(r)
  {
    if x - y > INT_MAX then x - y - 0x1_0000_0000
    else if x - y < -0x8000_0000 then x - y + 0x1_0000_0000
    else x - y
  }

  // ---------------------------------------------------------------- ranges

  // dr[0..1], dr[2..3], ... are ranges in ascending order that do not touch each other's ends.
  ghost predicate Ranges(dr: seq<int>) {
    && |dr| % 2 == 0
    && (forall i, j :: 0 <= i < j < |dr| ==> dr[i] <= dr[j])
    && (forall i, j :: 0 <= i < j < |dr| && i / 2 < j / 2 ==> dr[i] < dr[j])
  }

  ghost predicate InRange(dr: seq<int>, k: nat, x: int)
    requires 2 * k + 1 < |dr|
  {
    dr[2 * k] <= x <= dr[2 * k + 1]
  }

  ghost predicate Covered(dr: seq<int>, x: int) {
    exists k: nat :: 2 * k + 1 < |dr| && InRange(dr, k, x)
  }

  ghost function Doubled(s: seq<int>): (dr: seq<int>)
    ensures |dr| == 2 * |s|
  {
    seq(2 * |s|, i requires 0 <= i < 2 * |s| => s[i / 2])
  }

  // Drop the gap before dr[cand]: the ranges on both sides of it become one.
  ghost function Joined(dr: seq<int>, cand: nat): (r: seq<int>)
    requires 2 <= cand < |dr|
    ensures |r| == |dr| - 2
  {
    dr[..cand - 1] + dr[cand + 1..]
  }

  lemma {:induction false} DoubledIsRanges(s: seq<int>)
    requires Strict(s)
    ensures Ranges(Doubled(s)) && forall x :: x in s ==> Covered(Doubled(s), x)
  {
    forall x | x in s ensures Covered(Doubled(s), x) {
      var k :| 0 <= k < |s| && s[k] == x;
      assert InRange(Doubled(s), k, x);
    }
  }

  lemma {:induction false} JoinedIsRanges(dr: seq<int>, cand: nat)
    requires Ranges(dr) && 2 <= cand < |dr| && cand % 2 == 0
    ensures Ranges(Joined(dr, cand))
  {
    var r := Joined(dr, cand);
    forall i, j | 0 <= i < j < |r| && i / 2 < j / 2 ensures r[i] < r[j] {
      var i1, j1 := if i < cand - 1 then i else i + 2, if j < cand - 1 then j else j + 2;
      assert r[i] == dr[i1] && r[j] == dr[j1] && i1 / 2 < j1 / 2;
    }
  }

  // The ranges before the gap stay, the one before it grows, and those behind it move down.
  lemma {:induction false} JoinedBefore(dr: seq<int>, c: nat, k: nat)
    requires 1 <= c && 2 * c < |dr| && |dr| % 2 == 0 && k < c
    ensures var r := Joined(dr, 2 * c);
            2 * k + 1 < |r| && r[2 * k] == dr[2 * k] && r[2 * k + 1] == if k == c - 1 then dr[2 * c + 1] else dr[2 * k + 1]
  {
  }

  lemma {:induction false} JoinedBehind(dr: seq<int>, c: nat, k: nat)
    requires 1 <= c <= k && 2 * k + 1 < |dr| && |dr| % 2 == 0
    ensures var r := Joined(dr, 2 * c);
            && 2 * k - 1 < |r| && r[2 * k - 1] == dr[2 * k + 1]
            && r[2 * k - 2] == if k == c then dr[2 * c - 2] else dr[2 * k]
  {
  }

  lemma {:induction false} JoinedCovers(dr: seq<int>, cand: nat, x: int)
    requires Ranges(dr) && 2 <= cand < |dr| && cand % 2 == 0 && Covered(dr, x)
    ensures Covered(Joined(dr, cand), x)
  {
    var r, c := Joined(dr, cand), cand / 2;
    var k: nat :| 2 * k + 1 < |dr| && InRange(dr, k, x);
    assert cand == 2 * c;
    if k < c {
      JoinedBefore(dr, c, k);
      assert k == c - 1 ==> dr[2 * k + 1] <= dr[2 * c + 1];
      assert InRange(r, k, x);
    } else {
      JoinedBehind(dr, c, k);
      assert k == c ==> dr[2 * c - 2] <= dr[2 * k];
      assert 2 * (k - 1) == 2 * k - 2;
      assert InRange(r, k - 1, x);
    }
  }

  // ---------------------------------------------------------------- compress

  // the computed width of the gap before range k
  function Gap(dr: seq<int>, k: nat): (g: int)
    requires AllInt4(dr) && 0 < k && 2 * k < |dr|
    ensures Int4(g)
  {
    Sub4(dr[2 * k], dr[2 * k - 1])
  }

  // The value the search starts from is beaten by one of the first three gaps: three gaps of
  // INT_MAX do not fit into 32 bits.
  lemma {:induction false} SomeGapIsSmall(dr: seq<int>)
    requires Ranges(dr) && AllInt4(dr) && 7 < |dr|
    ensures Gap(dr, 1) < INT_MAX || Gap(dr, 2) < INT_MAX || Gap(dr, 3) < INT_MAX
  {
    assert dr[2] <= dr[3] && dr[4] <= dr[5];
    assert dr[1] < dr[2] && dr[3] < dr[4] && dr[5] < dr[6];
  }

  // Range c has a smallest gap before it among the ranges 1..n.
  ghost predicate Smallest(dr: seq<int>, n: nat, c: nat)
    requires AllInt4(dr) && 2 * n <= |dr|
  {
    1 <= c < n && forall k :: 1 <= k < n ==> Gap(dr, c) <= Gap(dr, k)
  }

  // The state of the search for a smallest gap before range k.
  ghost predicate Best(dr: seq<int>, k: nat, min: int, c: nat)
    requires AllInt4(dr) && 2 * k <= |dr|
  {
    && min <= INT_MAX
    && (min == INT_MAX ==> forall j :: 1 <= j < k ==> INT_MAX <= Gap(dr, j))
    && (min < INT_MAX ==> Smallest(dr, k, c) && min == Gap(dr, c))
  }

  lemma {:induction false} BestStep(dr: seq<int>, k: nat, min: int, c: nat)
    requires AllInt4(dr) && 1 <= k && 2 * k + 2 <= |dr| && Best(dr, k, min, c)
    ensures if min > Gap(dr, k) then Best(dr, k + 1, Gap(dr, k), k) else Best(dr, k + 1, min, c)
  {
  }

  lemma {:induction false} BestIsSmallest(dr: seq<int>, k: nat, min: int, c: nat)
    requires AllInt4(dr) && Ranges(dr) && 3 < k && |dr| == 2 * k && Best(dr, k, min, c)
    ensures Smallest(dr, k, c)
  {
    SomeGapIsSmall(dr);
  }

  method SmallestGap(dr: array<int>, len: nat) returns (cand: nat)
    requires 7 < len <= dr.Length && Ranges(dr[..len]) && AllInt4(dr[..len])
    ensures cand % 2 == 0 && Smallest(dr[..len], len / 2, cand / 2)
  {
    ghost var s := dr[..len];
    var min := INT_MAX;
    cand := 1;
    var i := 2;
    ghost var k, c := 1, 0;
    while i < len
      invariant i == 2 * k && 1 <= k <= len / 2
      invariant Best(s, k, min, c) && (min < INT_MAX ==> cand == 2 * c)
    {
      assert dr[i] == s[2 * k] && dr[i - 1] == s[2 * k - 1];
      BestStep(s, k, min, c);
      if min > Sub4(dr[i], dr[i - 1]) {
        min := Sub4(dr[i], dr[i - 1]);
        cand, c := i, k;
      }
      i, k := i + 2, k + 1;
    }
    BestIsSmallest(s, k, min, c);
    assert min < INT_MAX by { SomeGapIsSmall(s); }
  }

  // memmove over the gap
  method Join(dr: array<int>, len: nat, cand: nat)
    requires 2 <= cand < len <= dr.Length
    modifies dr
    ensures dr[..len - 2] == Joined(old(dr[..len]), cand)
  {
    ghost var s := dr[..len];
    var k := cand - 1;
    while k < len - 2
      invariant cand - 1 <= k <= len - 2
      invariant forall i :: 0 <= i < k ==> dr[i] == Joined(s, cand)[i]
      invariant forall i :: k <= i < len ==> dr[i] == s[i]
    {
      assert Joined(s, cand)[k] == s[k + 2];
      dr[k] := dr[k + 2];
      k := k + 1;
    }
  }

  // In-place doubling, from the end so that no element is overwritten before it is read.
  method Double(s: seq<int>) returns (dr: array<int>)
    ensures fresh(dr) && dr[..] == Doubled(s)
  {
    dr := new int[2 * |s|](i requires 0 <= i < 2 * |s| => if i < |s| then s[i] else 0);
    DoubleInPlace(dr, s, Doubled(s));
  }

  // Every element is copied to its two places, from the last one down.
  method DoubleInPlace(dr: array<int>, s: seq<int>, ghost d: seq<int>)
    requires dr.Length == |d| == 2 * |s| && dr[..|s|] == s
    requires forall i :: 0 <= i < |s| ==> s[i] == d[2 * i] && s[i] == d[2 * i + 1]
    modifies dr
    ensures dr[..] == d
  {
    var i := |s| - 1;
    while i >= 0
      invariant -1 <= i < |s|
      invariant forall k :: 0 <= k <= i ==> dr[k] == s[k]
      invariant forall k :: 2 * i + 2 <= k < |d| ==> dr[k] == d[k]
    {
      var x := dr[i];
      dr[2 * i + 1] := x;
      dr[2 * i] := x;
      i := i - 1;
    }
  }

  // One step of the compressor: a smallest gap is closed.
  ghost predicate Squeeze(a: seq<int>, b: seq<int>) {
    AllInt4(a) && |a| % 2 == 0 && exists c: nat :: Smallest(a, |a| / 2, c) && b == Joined(a, 2 * c)
  }

  // Steps lead from a to b.
  ghost predicate Squeezes(a: seq<int>, b: seq<int>, trace: seq<seq<int>>) {
    && |trace| > 0 && trace[0] == a && trace[|trace| - 1] == b
    && forall i :: 0 <= i < |trace| - 1 ==> Squeeze(trace[i], trace[i + 1])
  }

  lemma {:induction false} SqueezeOn(a: seq<int>, b: seq<int>, c: seq<int>, trace: seq<seq<int>>)
    requires Squeezes(a, b, trace) && Squeeze(b, c)
    ensures Squeezes(a, c, trace + [c])
  {
    var t := trace + [c];
    forall i | 0 <= i < |t| - 1 ensures Squeeze(t[i], t[i + 1]) {
      assert i < |trace| - 1 ==> Squeeze(trace[i], trace[i + 1]);
    }
  }

  // What a compressed key keeps of the key: everything is covered, and the last element is last.
  ghost predicate Keeps(s: seq<int>, dr: seq<int>) {
    && Ranges(dr) && AllInt4(dr) && (forall x :: x in s ==> Covered(dr, x))
    && (s != [] && dr != [] ==> dr[|dr| - 1] == s[|s| - 1])
  }

  ghost predicate Compresses(s: seq<int>, r: seq<int>) {
    && (|s| < 2 * MAXNUMRANGE ==> r == s)
    && (|s| >= 2 * MAXNUMRANGE ==> |r| == 2 * MAXNUMRANGE && Keeps(s, r))
  }

  lemma {:induction false} JoinedKeeps(s: seq<int>, dr: seq<int>, cand: nat)
    requires Keeps(s, dr) && |dr| % 2 == 0 && 2 <= cand < |dr| && cand % 2 == 0
    ensures Keeps(s, Joined(dr, cand))
  {
    JoinedIsRanges(dr, cand);
    forall x | x in s ensures Covered(Joined(dr, cand), x) { JoinedCovers(dr, cand, x); }
  }

  lemma {:induction false} DoubledKeeps(s: seq<int>)
    requires Strict(s) && AllInt4(s)
    ensures Keeps(s, Doubled(s))
  {
    DoubledIsRanges(s);
  }

  // g_int_compress on an internal key: from one range per element, smallest gaps are closed until
  // MAXNUMRANGE ranges are left.
  method Compress(s: seq<int>) returns (r: seq<int>, ghost trace: seq<seq<int>>)
    requires Strict(s) && AllInt4(s)
    ensures Compresses(s, r)
    ensures |s| >= 2 * MAXNUMRANGE ==> Squeezes(Doubled(s), r, trace)
  {
    if |s| < 2 * MAXNUMRANGE {
      return s, [];
    }
    var dr := Double(s);
    DoubledKeeps(s);
    var len := 2 * |s|;
    assert dr[..len] == dr[..];
    trace := [Doubled(s)];
    while len > 2 * MAXNUMRANGE
      invariant 2 * MAXNUMRANGE <= len <= dr.Length && len % 2 == 0
      invariant Keeps(s, dr[..len]) && Squeezes(Doubled(s), dr[..len], trace)
    {
      len, trace := CompressStep(dr, len, s, trace);
    }
    r := dr[..len];
  }

  method CompressStep(dr: array<int>, len: nat, ghost s: seq<int>, ghost trace0: seq<seq<int>>)
    returns (len1: nat, ghost trace: seq<seq<int>>)
    requires 7 < len <= dr.Length && len % 2 == 0 && Keeps(s, dr[..len]) && Squeezes(Doubled(s), dr[..len], trace0)
    modifies dr
    ensures len1 == len - 2 && Keeps(s, dr[..len1]) && Squeezes(Doubled(s), dr[..len1], trace)
  {
    ghost var before := dr[..len];
    var cand := SmallestGap(dr, len);
    Join(dr, len, cand);
    JoinedKeeps(s, before, cand);
    len1 := len - 2;
    SqueezedBy(before, dr[..len1], cand);
    SqueezeOn(Doubled(s), before, dr[..len1], trace0);
    trace := trace0 + [dr[..len1]];
  }

  lemma {:induction false} SqueezedBy(a: seq<int>, b: seq<int>, cand: nat)
    requires AllInt4(a) && |a| % 2 == 0 && cand % 2 == 0 && Smallest(a, |a| / 2, cand / 2) && b == Joined(a, cand)
    ensures Squeeze(a, b)
  {
    assert 2 * (cand / 2) == cand;
  }

  // ---------------------------------------------------------------- decompress

  function RangeOf(lo: int, hi: int): (s: seq<int>)
    ensures |s| == if lo <= hi then hi - lo + 1 else 0
    ensures forall i :: 0 <= i < |s| ==> s[i] == lo + i
  {
    seq(if lo <= hi then hi - lo + 1 else 0, i => lo + i)
  }

  // The elements of all ranges, in order.
  function Expand(dr: seq<int>): (s: seq<int>) {
    if |dr| < 2 then [] else Expand(dr[..|dr| - 2]) + RangeOf(dr[|dr| - 2], dr[|dr| - 1])
  }

  lemma {:induction false} RangesInit(dr: seq<int>)
    requires Ranges(dr) && 2 <= |dr|
    ensures Ranges(dr[..|dr| - 2])
  {
  }

  lemma {:induction false} CoveredInit(dr: seq<int>, x: int)
    requires |dr| % 2 == 0 && 2 <= |dr|
    ensures Covered(dr, x) <==> Covered(dr[..|dr| - 2], x) || dr[|dr| - 2] <= x <= dr[|dr| - 1]
  {
    var n, init := |dr| / 2 - 1, dr[..|dr| - 2];
    if Covered(dr, x) {
      var k: nat :| 2 * k + 1 < |dr| && InRange(dr, k, x);
      if k < n { assert InRange(init, k, x); }
    }
    if Covered(init, x) {
      var k: nat :| 2 * k + 1 < |init| && InRange(init, k, x);
      assert InRange(dr, k, x);
    }
    if dr[|dr| - 2] <= x <= dr[|dr| - 1] { assert InRange(dr, n, x); }
  }

  // The expansion is sorted, without duplicates, and holds exactly what the ranges cover.
  lemma {:induction false} ExpandIsCovered(dr: seq<int>)
    requires Ranges(dr)
    ensures Strict(Expand(dr))
    ensures forall x :: x in Expand(dr) <==> Covered(dr, x)
  {
    if |dr| >= 2 {
      var init, lo, hi := dr[..|dr| - 2], dr[|dr| - 2], dr[|dr| - 1];
      RangesInit(dr);
      ExpandIsCovered(init);
      forall x ensures x in RangeOf(lo, hi) <==> lo <= x <= hi {
        if lo <= x <= hi { assert RangeOf(lo, hi)[x - lo] == x; }
      }
      forall x ensures x in Expand(dr) <==> Covered(dr, x) { CoveredInit(dr, x); }
      forall x | x in Expand(init) ensures x < lo {
        var k: nat :| 2 * k + 1 < |init| && InRange(init, k, x);
        assert dr[2 * k + 1] < lo;
      }
      StrictConcat(Expand(init), RangeOf(lo, hi), lo);
    }
  }

  lemma {:induction false} StrictConcat(a: seq<int>, b: seq<int>, m: int)
    requires Strict(a) && Strict(b) && (forall x :: x in a ==> x < m) && (forall x :: x in b ==> m <= x)
    ensures Strict(a + b)
  {
    assert forall i :: 0 <= i < |a| ==> a[i] in a;
    assert forall i :: 0 <= i < |b| ==> b[i] in b;
  }

  // ---------------------------------------------------------------- sizes in 32 bits

  const TWO32: nat := 0x1_0000_0000

  // the value of an int after wrap-around
  function Wrap4(x: int): (r: int)
    ensures Int4(r) && (Int4(x) ==> r == x)
  {
    (x + 0x8000_0000) % TWO32 - 0x8000_0000
  }

  lemma {:induction false} Wraps(x: int, r: int, q: int)
    requires x == TWO32 * q + r && Int4(r)
    ensures Wrap4(x) == r
  {
    ModOf(x + 0x8000_0000, q, r + 0x8000_0000);
  }

  lemma {:induction false} ModOf(x: int, q: int, r: int)
    requires x == TWO32 * q + r && 0 <= r < TWO32
    ensures x % TWO32 == r && x / TWO32 == q
  {
  }

  lemma {:induction false} Unwrap(x: int) returns (q: int)
    ensures x == TWO32 * q + Wrap4(x)
  {
    q := (x + 0x8000_0000) / TWO32;
  }

  lemma {:induction false} WrapSum(x: int, y: int)
    ensures Wrap4(Wrap4(x) + y) == Wrap4(x + y)
  {
    var p := Unwrap(x);
    var q := Unwrap(x + y);
    assert Wrap4(x) + y == TWO32 * (q - p) + Wrap4(x + y);
    Wraps(Wrap4(x) + y, Wrap4(x + y), q - p);
  }

  // internal_size: how many elements decompression will produce, as an int.
  method InternalSize(a: seq<int>) returns (size: int)
    requires Ranges(a)
    ensures size == Wrap4(|Expand(a)|)
    ensures size == |Expand(a)| <==> |Expand(a)| <= INT_MAX
  {
    size := 0;
    var i := 0;
    while i < |a|
      invariant 0 <= i <= |a| && i % 2 == 0
      invariant size == Wrap4(|Expand(a[..i])|)
    {
      assert a[..i + 2][..i] == a[..i];
      if i == 0 || a[i] != a[i - 1] {
        ghost var n := |Expand(a[..i])|;
        WrapSum(n, Wrap4(a[i + 1] - a[i]) + 1);
        WrapSum(a[i + 1] - a[i], n + 1);
        size := Wrap4(size + (Wrap4(a[i + 1] - a[i]) + 1));
      }
      i := i + 2;
    }
    assert a[..i] == a;
  }

  // the fixed part of a one-dimensional array, and the largest request that is not refused
  const OVERHEAD := 24
  const MAX_ALLOC := 0x3fff_ffff

  // new_intArrayType: the number of bytes asked for, as an int
  function Request(size: int): (bytes: int) { Wrap4(OVERHEAD + 4 * size) }

  // `limit` is the largest request that there is memory for.
  predicate Granted(bytes: int, limit: nat) { 0 < bytes <= limit && bytes <= MAX_ALLOC }

  function Bytes(key: seq<int>): (n: nat) { OVERHEAD + 4 * |Expand(key)| }

  // Unpacking can fail: the array may be larger than can be allocated, what was allocated may be
  // smaller than the array, and a range that ends at INT_MAX makes the loop counter overflow.
  datatype Unpacked = Unpacked(elems: seq<int>) | AllocFails | Overruns | Overflows

  function Decompressed(key: seq<int>, limit: nat): (u: Unpacked) {
    if |key| < 2 * MAXNUMRANGE then Unpacked(key)
    else if !Granted(Request(Wrap4(|Expand(key)|)), limit) then AllocFails
    else if Request(Wrap4(|Expand(key)|)) < Bytes(key) then Overruns
    else if key[|key| - 1] == INT_MAX then Overflows
    else Unpacked(Expand(key))
  }

  lemma {:induction false} RequestIs(n: nat)
    ensures Request(Wrap4(n)) == Wrap4(OVERHEAD + 4 * n)
  {
    var q := Unwrap(n);
    var p := Unwrap(OVERHEAD + 4 * n);
    assert OVERHEAD + 4 * Wrap4(n) == TWO32 * (p - 4 * q) + Wrap4(OVERHEAD + 4 * n);
    Wraps(OVERHEAD + 4 * Wrap4(n), Wrap4(OVERHEAD + 4 * n), p - 4 * q);
  }

  // Exactly when a long key is refused, fits, or is written past the end of what was allocated.
  lemma {:induction false} AllocationExactly(key: seq<int>, limit: nat)
    requires |key| >= 2 * MAXNUMRANGE
    ensures var n := Bytes(key);
            var u := Decompressed(key, limit);
            && (u == Overruns <==> n >= TWO32 && Granted(n % TWO32, limit))
            && (u == Overflows || u.Unpacked? <==> Granted(n, limit))
            && (u == AllocFails <==> !Granted(n % TWO32, limit))
  {
    var n := Bytes(key);
    RequestIs(|Expand(key)|);
    var q, r := n / TWO32, n % TWO32;
    if r <= INT_MAX {
      Wraps(n, r, q);
    } else {
      Wraps(n, r - TWO32, q + 1);
    }
    assert n < TWO32 ==> n == r;
  }

  // g_int_decompress on an internal key.
  method Decompress(key: seq<int>, limit: nat) returns (u: Unpacked)
    requires |key| >= 2 * MAXNUMRANGE ==> Ranges(key) && AllInt4(key)
    ensures u == Decompressed(key, limit)
  {
    if |key| < 2 * MAXNUMRANGE {
      return Unpacked(key);
    }
    var lenr := InternalSize(key);
    var nbytes := Wrap4(OVERHEAD + 4 * lenr);
    if !Granted(nbytes, limit) {
      return AllocFails;
    }
    // the loop would write more elements than there is room for
    if OVERHEAD + 4 * |Expand(key)| > nbytes {
      return Overruns;
    }
    AllocationExactly(key, limit);
    u := Unfold(key);
  }

  // The loops over an array that is large enough.
  method Unfold(key: seq<int>) returns (u: Unpacked)
    requires |key| >= 2 * MAXNUMRANGE && Ranges(key) && AllInt4(key)
    ensures u == if key[|key| - 1] == INT_MAX then Overflows else Unpacked(Expand(key))
  {
    var dr := new int[|Expand(key)|];
    var i, n := 0, 0;
    while i < |key|
      invariant 0 <= i <= |key| && i % 2 == 0 && 0 <= n <= dr.Length && Filled(key, i, dr[..n])
    {
      OnlyTheLastEndsAtMax(key, i);
      if key[i + 1] == INT_MAX {
        return Overflows;
      }
      n := FillNext(key, i, dr, n);
      i := i + 2;
    }
    assert key[..i] == key;
    return Unpacked(dr[..n]);
  }

  // The ranges before place i have been written out.
  ghost predicate Filled(key: seq<int>, i: nat, done: seq<int>) {
    && i <= |key| && done == Expand(key[..i])
    && (0 < i ==> key[i - 1] != INT_MAX && done != [] && done[|done| - 1] == key[i - 1])
  }

  lemma {:induction false} OnlyTheLastEndsAtMax(key: seq<int>, i: nat)
    requires Ranges(key) && AllInt4(key) && i % 2 == 0 && i + 1 < |key|
    ensures i + 2 < |key| ==> key[i + 1] < INT_MAX
  {
    if i + 2 < |key| { assert key[i + 1] < key[i + 2]; }
  }

  method FillNext(key: seq<int>, i: nat, dr: array<int>, n0: nat) returns (n: nat)
    requires Ranges(key) && i % 2 == 0 && i + 2 <= |key| && key[i + 1] != INT_MAX
    requires n0 <= dr.Length == |Expand(key)| && Filled(key, i, dr[..n0])
    modifies dr
    ensures n <= dr.Length && Filled(key, i + 2, dr[..n])
  {
    ExpandPrefix(key, i);
    assert 0 < i ==> dr[n0 - 1] == dr[..n0][n0 - 1];
    n := FillRange(key, i, dr, n0);
    assert dr[..n][n - 1] == dr[n - 1];
  }

  lemma {:induction false} ExpandPrefix(key: seq<int>, i: nat)
    requires Ranges(key) && i % 2 == 0 && i + 2 <= |key|
    ensures Expand(key[..i + 2]) == Expand(key[..i]) + RangeOf(key[i], key[i + 1])
    ensures |Expand(key[..i + 2])| <= |Expand(key)|
    decreases |key| - i
  {
    assert key[..i + 2][..i] == key[..i];
    if i + 2 < |key| {
      assert i + 4 <= |key|;
      ExpandPrefix(key, i + 2);
    } else {
      assert key[..i + 2] == key;
    }
  }

  // The inner loop: append key[i], ..., key[i + 1], skipping a value equal to the last one stored.
  method FillRange(key: seq<int>, i: nat, dr: array<int>, n0: nat) returns (n: nat)
    requires Ranges(key) && i % 2 == 0 && i + 2 <= |key|
    requires n0 + |RangeOf(key[i], key[i + 1])| <= dr.Length
    requires 0 < i ==> 0 < n0 && dr[n0 - 1] == key[i - 1]
    modifies dr
    ensures n == n0 + |RangeOf(key[i], key[i + 1])| && n0 < n
    ensures dr[..n] == old(dr[..n0]) + RangeOf(key[i], key[i + 1])
    ensures dr[n - 1] == key[i + 1]
  {
    ghost var range := RangeOf(key[i], key[i + 1]);
    assert dr[..n0] == old(dr[..n0]) + range[..0];
    n := n0;
    var j := key[i];
    while j <= key[i + 1]
      invariant key[i] <= j <= key[i + 1] + 1
      invariant n == n0 + (j - key[i])
      invariant dr[..n] == old(dr[..n0]) + range[..j - key[i]]
      invariant 0 < n && 0 < i ==> dr[n - 1] < j
      invariant key[i] < j ==> dr[n - 1] == j - 1
    {
      if i == 0 || dr[n - 1] != j {
        ghost var before := dr[..n];
        dr[n] := j;
        assert dr[..n + 1] == before + [j];
        assert range[..j - key[i] + 1] == range[..j - key[i]] + [j];
        n := n + 1;
      }
      j := j + 1;
    }
    assert range[..j - key[i]] == range;
  }

  // Compressing a key and reading it back gives a superset; it is the key itself when there are
  // fewer than 200 elements, and otherwise that comes back exactly if the array can be allocated
  // and the key does not end in INT_MAX.
  lemma {:induction false} RoundTripIsSuperset(s: seq<int>, r: seq<int>, limit: nat)
    requires Strict(s) && AllInt4(s) && Compresses(s, r)
    ensures var u := Decompressed(r, limit);
            && (u.Unpacked? ==> Strict(u.elems) && Elems(s) <= Elems(u.elems))
            && (|s| < 2 * MAXNUMRANGE ==> u == Unpacked(s))
            && (|s| >= 2 * MAXNUMRANGE ==>
                  && (u.Unpacked? <==> Granted(Bytes(r), limit) && s[|s| - 1] != INT_MAX)
                  && (u == Overflows <==> Granted(Bytes(r), limit) && s[|s| - 1] == INT_MAX))
  {
    if |s| >= 2 * MAXNUMRANGE {
      ExpandIsCovered(r);
      AllocationExactly(r, limit);
    }
  }

  // ---------------------------------------------------------------- a key that is too wide

  const FAR := 10737419

  // 200 elements over the negative half of the integers: the first hundred are FAR apart, the rest
  // one less.
  function Wide(): (s: seq<int>)
    ensures |s| == 200
  {
    seq(200, i => -0x8000_0000 + i * FAR - if i > 99 then i - 99 else 0)
  }

  lemma {:induction false} WideIsKey()
    ensures Strict(Wide()) && AllInt4(Wide())
  {
  }

  // What the compressor makes of it: the first 99 elements alone, then ranges up to the last one
  // with the narrower gaps between them.
  ghost predicate Narrowed(r: seq<int>) {
    && |r| % 2 == 0 && |r| >= 200
    && (forall i :: 0 <= i < 198 ==> r[i] == Wide()[i / 2])
    && r[198] == Wide()[99] && r[|r| - 1] == Wide()[199]
    && forall k :: 100 <= k && 2 * k < |r| ==> NarrowGap(r, k)
  }

  predicate NarrowGap(r: seq<int>, k: nat)
    requires 0 < k && 2 * k < |r|
  {
    r[2 * k] - r[2 * k - 1] == FAR - 1
  }

  lemma {:induction false} DoubledIsNarrowed()
    ensures Narrowed(Doubled(Wide()))
  {
    var r := Doubled(Wide());
    forall k | 100 <= k && 2 * k < |r| ensures NarrowGap(r, k) {
      assert r[2 * k] == Wide()[k] && r[2 * k - 1] == Wide()[k - 1];
    }
  }

  lemma {:induction false} GapBefore(r: seq<int>, c: nat)
    requires Narrowed(r) && AllInt4(r) && 1 <= c && 2 * c < |r|
    ensures Gap(r, c) == if c < 100 then FAR else FAR - 1
  {
    if c < 100 {
      assert r[2 * c] == Wide()[c] && r[2 * c - 1] == Wide()[c - 1];
    } else {
      assert NarrowGap(r, c);
    }
  }

  // Only a narrow gap can be a smallest one.
  lemma {:induction false} SmallestIsNarrow(r: seq<int>, c: nat)
    requires Narrowed(r) && |r| > 200 && AllInt4(r) && Smallest(r, |r| / 2, c)
    ensures 100 <= c
  {
    GapBefore(r, 100);
    GapBefore(r, c);
  }

  lemma {:induction false} JoinedIsNarrowed(r: seq<int>, c: nat)
    requires Narrowed(r) && |r| > 200 && 100 <= c && 2 * c < |r|
    ensures Narrowed(Joined(r, 2 * c))
  {
    var t := Joined(r, 2 * c);
    forall k | 100 <= k && 2 * k < |t| ensures NarrowGap(t, k) {
      assert NarrowGap(r, if k < c then k else k + 1);
    }
  }

  lemma {:induction false} SqueezedIsNarrowed(a: seq<int>, b: seq<int>)
    requires Narrowed(a) && |a| > 200 && Squeeze(a, b)
    ensures Narrowed(b) && |b| == |a| - 2
  {
    var c: nat :| Smallest(a, |a| / 2, c) && b == Joined(a, 2 * c);
    SmallestIsNarrow(a, c);
    JoinedIsNarrowed(a, c);
  }

  lemma {:induction false} StepsShorten(a: seq<int>, b: seq<int>, trace: seq<seq<int>>, i: nat)
    requires Squeezes(a, b, trace) && i < |trace|
    ensures |trace[i]| == |a| - 2 * i
  {
    if i > 0 {
      StepsShorten(a, b, trace, i - 1);
      assert Squeeze(trace[i - 1], trace[i - 1 + 1]);
    }
  }

  lemma {:induction false} StepsNarrow(r: seq<int>, trace: seq<seq<int>>, i: nat)
    requires Squeezes(Doubled(Wide()), r, trace) && |r| == 200 && i < |trace|
    ensures Narrowed(trace[i])
  {
    if i == 0 {
      DoubledIsNarrowed();
    } else {
      StepsNarrow(r, trace, i - 1);
      StepsShorten(Doubled(Wide()), r, trace, i - 1);
      StepsShorten(Doubled(Wide()), r, trace, |trace| - 1);
      assert Squeeze(trace[i - 1], trace[i - 1 + 1]);
      SqueezedIsNarrowed(trace[i - 1], trace[i]);
    }
  }

  // Ranges of one element each.
  ghost predicate Singles(r: seq<int>, k: nat) { |r| == 2 * k && forall j :: 0 <= j < 2 * k - 1 && j % 2 == 0 ==> r[j] == r[j + 1] }

  lemma {:induction false} SinglesExpand(r: seq<int>, k: nat)
    requires Singles(r, k)
    ensures |Expand(r)| == k
  {
    if k > 0 {
      SinglesExpand(r[..2 * k - 2], k - 1);
      assert r[2 * k - 2] == r[2 * k - 1];
    }
  }

  lemma {:induction false} NarrowedBegins(r: seq<int>)
    requires Narrowed(r)
    ensures Singles(r[..198], 99)
  {
    forall j | 0 <= j < 197 && j % 2 == 0 ensures r[j] == r[j + 1] { assert j / 2 == (j + 1) / 2; }
  }

  lemma {:induction false} NarrowedExpands(r: seq<int>)
    requires Narrowed(r) && |r| == 200
    ensures |Expand(r)| == 0x4000_0000 + 76
  {
    NarrowedBegins(r);
    SinglesExpand(r[..198], 99);
    WideSpan(r[198], r[199]);
  }

  lemma {:induction false} WideSpan(lo: int, hi: int)
    requires lo == Wide()[99] && hi == Wide()[199]
    ensures |RangeOf(lo, hi)| == 100 * (FAR - 1) + 1
  {
  }

  // However the smallest gaps are chosen, the compressed key stands for 2^30 + 76 elements; of the
  // 2^32 + 328 bytes they take, 328 are asked for.
  lemma {:induction false} WideKeyOverruns(r: seq<int>, trace: seq<seq<int>>, limit: nat)
    requires Squeezes(Doubled(Wide()), r, trace) && |r| == 2 * MAXNUMRANGE && limit >= 328
    ensures |Expand(r)| == 0x4000_0000 + 76 && Request(Wrap4(|Expand(r)|)) == 328
    ensures Decompressed(r, limit) == Overruns
  {
    StepsNarrow(r, trace, |trace| - 1);
    NarrowedExpands(r);
    assert Bytes(r) == TWO32 + 328;
    ModOf(Bytes(r), 1, 328);
    AllocationExactly(r, limit);
    RequestIs(|Expand(r)|);
    Wraps(OVERHEAD + 4 * |Expand(r)|, 328, 1);
  }

  // And it is what the compressor makes of that key.
  method CompressWide(limit: nat) returns (u: Unpacked)
    requires limit >= 328
    ensures u == Overruns
  {
    WideIsKey();
    var r, trace := Compress(Wide());
    WideKeyOverruns(r, trace, limit);
    u := Decompress(r, limit);
  }
}

/**
 The array routines underneath contrib/intarray/_int.c: the in-place sort that also detects
 duplicates, the in-place removal of duplicates, and the merges that union, containment and
 overlap are made of.  Each is proved against the set of elements of the array.
 */
module IntSets {

  ghost predicate Sorted(s: seq<int>) { forall i, j :: 0 <= i < j < |s| ==> s[i] <= s[j] }

  ghost predicate Strict(s: seq<int>) { forall i, j :: 0 <= i < j < |s| ==> s[i] < s[j] }

  ghost function Elems(s: seq<int>): (r: set<int>) { set x | x in s }

  ghost predicate Repeats(m: multiset<int>) { exists x :: m[x] > 1 }

  // The last m places hold the largest elements in order.
  ghost predicate Settled(s: seq<int>, m: nat) {
    forall i, j :: 0 <= i < j < |s| && |s| - m <= j ==> s[i] <= s[j]
  }

  lemma {:induction false} NeighboursRepeat(s: seq<int>, i: nat)
    requires 0 < i < |s| && s[i - 1] == s[i]
    ensures Repeats(multiset(s))
  {
    assert s == s[..i] + s[i..];
    assert s[i] in s[..i] && s[i] in s[i..];
    assert multiset(s)[s[i]] == multiset(s[..i])[s[i]] + multiset(s[i..])[s[i]];
  }

  lemma {:induction false} StrictHasNoRepeats(s: seq<int>)
    requires Strict(s)
    ensures !Repeats(multiset(s))
  {
    if s != [] {
      var n := |s| - 1;
      StrictHasNoRepeats(s[..n]);
      assert s == s[..n] + [s[n]];
      assert forall x :: x in s[..n] ==> x < s[n];
      assert multiset(s[..n])[s[n]] == 0;
    }
  }

  // The state of a pass that has reached `cur`: s[cur - 1] is the largest element so far.
  ghost predicate Passing(s: seq<int>, m: nat, cur: nat) {
    && Settled(s, m) && 1 <= cur <= |s|
    && (forall i :: 0 <= i < cur ==> s[i] <= s[cur - 1])
    && (|s| - m <= cur && m < |s| ==> forall i :: 0 <= i < |s| - m - 1 ==> s[i] <= s[|s| - m - 1])
  }

  function Swapped(s: seq<int>, cur: nat): (t: seq<int>)
    requires 0 < cur < |s|
    ensures |t| == |s|
  {
    s[cur - 1 := s[cur]][cur := s[cur - 1]]
  }

  lemma {:induction false} PassSwaps(s: seq<int>, m: nat, cur: nat)
    requires cur < |s| && Passing(s, m, cur) && s[cur - 1] > s[cur]
    ensures cur < |s| - m && Passing(Swapped(s, cur), m, cur + 1)
    ensures multiset(Swapped(s, cur)) == multiset(s)
  {
    var t := Swapped(s, cur);
    assert Settled(t, m) by {
      forall i, j | 0 <= i < j < |t| && |t| - m <= j ensures t[i] <= t[j] {
        assert t[j] == s[j] && s[cur - 1] <= s[j] && s[cur] <= s[j];
      }
    }
    assert s == s[..cur - 1] + [s[cur - 1], s[cur]] + s[cur + 1..];
    assert t == s[..cur - 1] + [s[cur], s[cur - 1]] + s[cur + 1..];
  }

  lemma {:induction false} PassKeeps(s: seq<int>, m: nat, cur: nat)
    requires cur < |s| && Passing(s, m, cur) && s[cur - 1] <= s[cur]
    ensures Passing(s, m, cur + 1)
  {
  }

  lemma {:induction false} StillSorted(s: seq<int>, cur: nat)
    requires 0 < cur < |s| && s[cur - 1] <= s[cur]
    ensures Sorted(s[..cur]) ==> Sorted(s[..cur + 1])
    ensures Strict(s[..cur]) && s[cur - 1] < s[cur] ==> Strict(s[..cur + 1])
  {
    assert s[..cur + 1] == s[..cur] + [s[cur]];
    assert s[..cur][cur - 1] == s[cur - 1];
  }

  // What the flags of a pass say.
  ghost predicate Flags(s: seq<int>, m: nat, cur: nat, swapped: bool, r: bool)
    requires cur <= |s|
  {
    && (r ==> Repeats(multiset(s)))
    && (!swapped ==> Sorted(s[..cur]) && (r || Strict(s[..cur])))
    && (m == |s| ==> !swapped)
  }

  // One step of a pass: compare neighbours, swap them or notice that they are equal.
  method BubbleStep(a: array<int>, cur: nat, swapped0: bool, r0: bool, ghost m: nat) returns (swapped: bool, r: bool)
    requires cur < a.Length && Passing(a[..], m, cur) && Flags(a[..], m, cur, swapped0, r0)
    modifies a
    ensures multiset(a[..]) == old(multiset(a[..]))
    ensures Passing(a[..], m, cur + 1) && Flags(a[..], m, cur + 1, swapped, r)
  {
    swapped, r := swapped0, r0;
    ghost var s := a[..];
    if a[cur - 1] > a[cur] {
      PassSwaps(s, m, cur);
      var tmp := a[cur - 1];
      a[cur - 1] := a[cur];
      a[cur] := tmp;
      assert a[..] == Swapped(s, cur);
      swapped := true;
    } else {
      PassKeeps(s, m, cur);
      StillSorted(s, cur);
      if !r && a[cur - 1] == a[cur] {
        NeighboursRepeat(s, cur);
        r := true;
      }
    }
  }

  // One pass of isort over the whole array.
  method BubblePass(a: array<int>, r0: bool, ghost m: nat) returns (swapped: bool, r: bool)
    requires 0 < a.Length && m <= a.Length && Settled(a[..], m)
    requires r0 ==> Repeats(multiset(a[..]))
    modifies a
    ensures multiset(a[..]) == old(multiset(a[..]))
    ensures Settled(a[..], if m < a.Length then m + 1 else m)
    ensures Flags(a[..], m, a.Length, swapped, r)
  {
    swapped, r := false, r0;
    var cur := 1;
    while cur < a.Length
      invariant Passing(a[..], m, cur) && Flags(a[..], m, cur, swapped, r)
      invariant multiset(a[..]) == old(multiset(a[..]))
    {
      swapped, r := BubbleStep(a, cur, swapped, r, m);
      cur := cur + 1;
    }
  }

  // isort: sorts in place and reports whether some value occurs twice.
  method ISort(a: array<int>) returns (r: bool)
    requires 0 < a.Length
    modifies a
    ensures Sorted(a[..]) && multiset(a[..]) == old(multiset(a[..]))
    ensures r <==> Repeats(old(multiset(a[..])))
  {
    ghost var m := 0;
    r := false;
    var swapped := true;
    while swapped
      invariant m <= a.Length && Settled(a[..], m)
      invariant multiset(a[..]) == old(multiset(a[..]))
      invariant r ==> Repeats(multiset(a[..]))
      invariant !swapped ==> Flags(a[..], 0, a.Length, swapped, r)
      decreases if swapped then 1 else 0, a.Length - m
    {
      swapped, r := BubblePass(a, r, m);
      m := if m < a.Length then m + 1 else m;
    }
    assert a[..][..a.Length] == a[..];
    if !r { StrictHasNoRepeats(a[..]); }
  }

  // ---------------------------------------------------------------- duplicates

  // The first `n` places hold the distinct elements of the sorted sequence `seen`.
  ghost predicate Distilled(a: seq<int>, n: nat, seen: seq<int>) {
    && n <= |a| && Strict(a[..n]) && Elems(a[..n]) == Elems(seen)
    && (seen != [] ==> 0 < n <= |seen| && a[n - 1] == seen[|seen| - 1])
  }

  lemma {:induction false} DistilMore(a: seq<int>, n: nat, seen: seq<int>, x: int, b: seq<int>)
    requires Distilled(a, n, seen) && seen != [] && seen[|seen| - 1] <= x
    requires n < |a| || x == a[n - 1]
    requires if x == a[n - 1] then b == a else b == a[n := x]
    ensures Distilled(b, if x == a[n - 1] then n else n + 1, seen + [x])
  {
    assert Elems(seen + [x]) == Elems(seen) + {x};
    if x == a[n - 1] {
      assert x == seen[|seen| - 1];
      assert x in Elems(seen);
    } else {
      assert b[..n + 1] == a[..n] + [x];
      assert Elems(a[..n] + [x]) == Elems(a[..n]) + {x};
      assert a[..n][n - 1] == a[n - 1];
    }
  }

  // The array when the first `tmp` elements of the sorted sequence s have been looked at.
  ghost predicate Scanned(a: seq<int>, s: seq<int>, tmp: nat, dr: nat) {
    && |a| == |s| && tmp <= |s| && Sorted(s)
    && (dr < tmp || (dr == tmp == 0 && a == s && s != []))
    && (0 < tmp ==> Distilled(a, dr + 1, s[..tmp]))
    && forall k :: tmp <= k < |s| ==> a[k] == s[k]
  }

  lemma {:induction false} ScanFirst(s: seq<int>)
    requires Sorted(s) && s != []
    ensures Scanned(s, s, 1, 0)
  {
    assert s[..1] == [s[0]];
  }

  lemma {:induction false} ScanKeeps(a: seq<int>, s: seq<int>, tmp: nat, dr: nat)
    requires Scanned(a, s, tmp, dr) && 0 < tmp < |s| && a[tmp] == a[dr]
    ensures Scanned(a, s, tmp + 1, dr)
  {
    assert s[..tmp + 1] == s[..tmp] + [s[tmp]];
    DistilMore(a, dr + 1, s[..tmp], s[tmp], a);
  }

  lemma {:induction false} ScanMoves(a: seq<int>, s: seq<int>, tmp: nat, dr: nat)
    requires Scanned(a, s, tmp, dr) && 0 < tmp < |s| && a[tmp] != a[dr]
    ensures Scanned(a[dr + 1 := a[tmp]], s, tmp + 1, dr + 1)
  {
    assert s[..tmp + 1] == s[..tmp] + [s[tmp]];
    DistilMore(a, dr + 1, s[..tmp], s[tmp], a[dr + 1 := s[tmp]]);
  }

  // _int_unique: moves the distinct elements of a sorted array to its front; the result is the
  // new length.
  method Unique(a: array<int>) returns (n: nat)
    requires 0 < a.Length && Sorted(a[..])
    modifies a
    ensures 0 < n <= a.Length && Strict(a[..n])
    ensures Elems(a[..n]) == Elems(old(a[..]))
  {
    ghost var s := a[..];
    var tmp, dr := 0, 0;
    while tmp < a.Length
      invariant tmp <= a.Length && Scanned(a[..], s, tmp, dr)
    {
      ghost var before := a[..];
      if tmp == 0 { ScanFirst(s); }
      if a[tmp] != a[dr] {
        ScanMoves(before, s, tmp, dr);
        dr := dr + 1;
        a[dr] := a[tmp];
        assert a[..] == before[dr := before[tmp]];
      } else if tmp > 0 {
        ScanKeeps(before, s, tmp, dr);
      }
      tmp := tmp + 1;
    }
    assert s[..tmp] == s;
    assert a[..][..dr + 1] == a[..dr + 1];
    return dr + 1;
  }

  lemma {:induction false} PermutationElems(a: seq<int>, b: seq<int>)
    requires multiset(a) == multiset(b)
    ensures Elems(a) == Elems(b)
  {
    assert forall x :: x in a <==> x in multiset(a);
    assert forall x :: x in b <==> x in multiset(b);
  }

  lemma {:induction false} NoRepeatsIsStrict(s: seq<int>)
    requires Sorted(s) && !Repeats(multiset(s))
    ensures Strict(s)
  {
    forall i, j | 0 <= i < j < |s| ensures s[i] < s[j] {
      if s[i] == s[j] {
        assert s[i] <= s[i + 1] <= s[j];
        NeighboursRepeat(s, i + 1);
      }
    }
  }

  // PREPAREARR: the array as a set, in ascending order.
  method Prepare(s: seq<int>) returns (r: seq<int>)
    ensures Strict(r) && Elems(r) == Elems(s)
    ensures r == [] <==> s == []
  {
    if |s| <= 1 {
      return s;
    }
    var a := new int[|s|](i requires 0 <= i < |s| => s[i]);
    assert a[..] == s;
    var dup := ISort(a);
    PermutationElems(a[..], s);
    var n := a.Length;
    if dup {
      n := Unique(a);
    } else {
      NoRepeatsIsStrict(a[..]);
      assert a[..n] == a[..];
    }
    return a[..n];
  }

  // ---------------------------------------------------------------- merges

  // `done` is the sorted merge of the first i elements of a and the first j of b, as far as the
  // set of elements goes; everything still to come is at least as large.
  ghost predicate Merged(done: seq<int>, a: seq<int>, b: seq<int>, i: nat, j: nat)
    requires i <= |a| && j <= |b|
  {
    && Sorted(done) && Elems(done) == Elems(a[..i]) + Elems(b[..j])
    && AtMost(done, a, i) && AtMost(done, b, j)
  }

  lemma {:induction false} ElemsPush(s: seq<int>, x: int)
    ensures Elems(s + [x]) == Elems(s) + {x}
  {
  }

  lemma {:induction false} SortedPush(s: seq<int>, x: int)
    requires Sorted(s) && forall y :: y in s ==> y <= x
    ensures Sorted(s + [x])
  {
    assert forall i :: 0 <= i < |s| ==> s[i] in s;
  }

  lemma {:induction false} ElemsNext(s: seq<int>, i: nat)
    requires i < |s|
    ensures Elems(s[..i + 1]) == Elems(s[..i]) + {s[i]}
  {
    assert s[..i + 1] == s[..i] + [s[i]];
    ElemsPush(s[..i], s[i]);
  }

  // Nothing merged is larger than what is still to come.
  ghost predicate AtMost(done: seq<int>, s: seq<int>, i: nat) { i < |s| ==> forall x :: x in done ==> x <= s[i] }

  lemma {:induction false} AtMostPush(done: seq<int>, s: seq<int>, i: nat, x: int)
    requires AtMost(done, s, i) && (i < |s| ==> x <= s[i])
    ensures AtMost(done + [x], s, i)
  {
  }

  lemma {:induction false} AtMostNext(done: seq<int>, s: seq<int>, i: nat)
    requires Sorted(s) && i < |s| && AtMost(done, s, i)
    ensures AtMost(done + [s[i]], s, i + 1)
  {
    assert i + 1 < |s| ==> s[i] <= s[i + 1];
  }

  lemma {:induction false} MergedSwap(done: seq<int>, a: seq<int>, b: seq<int>, i: nat, j: nat)
    requires i <= |a| && j <= |b| && Merged(done, a, b, i, j)
    ensures Merged(done, b, a, j, i)
  {
  }

  // Append the next element of a to the merged prefix.
  lemma {:induction false} MergeTakes(done: seq<int>, a: seq<int>, b: seq<int>, i: nat, j: nat)
    requires Sorted(a) && i < |a| && j <= |b| && Merged(done, a, b, i, j) && (j < |b| ==> a[i] <= b[j])
    ensures Merged(done + [a[i]], a, b, i + 1, j)
  {
    SortedPush(done, a[i]);
    ElemsPush(done, a[i]);
    ElemsNext(a, i);
    AtMostNext(done, a, i);
    AtMostPush(done, b, j, a[i]);
  }

  // The array begins with a merge of the first i elements of a and the first j of b.
  ghost predicate Filled(r: array<int>, a: seq<int>, b: seq<int>, i: nat, j: nat)
    reads r
  {
    exists done :: Holds(r, done) && MergedAll(done, a, b, i, j)
  }

  ghost predicate Holds(r: array<int>, done: seq<int>)
    reads r
  {
    |done| <= r.Length && r[..|done|] == done
  }

  ghost predicate MergedAll(done: seq<int>, a: seq<int>, b: seq<int>, i: nat, j: nat) {
    i <= |a| && j <= |b| && |done| == i + j && Merged(done, a, b, i, j)
  }

  method Append(r: array<int>, ghost done: seq<int>, n: nat, x: int)
    requires Holds(r, done) && n == |done| < r.Length
    modifies r
    ensures Holds(r, done + [x])
  {
    r[n] := x;
    assert r[..n + 1] == done + [x];
  }

  method TakeA(r: array<int>, a: seq<int>, b: seq<int>, i: nat, j: nat)
    requires Sorted(a) && Filled(r, a, b, i, j) && i + j < r.Length && i < |a| && (j < |b| ==> a[i] <= b[j])
    modifies r
    ensures Filled(r, a, b, i + 1, j)
  {
    ghost var done :| Holds(r, done) && MergedAll(done, a, b, i, j);
    Append(r, done, i + j, a[i]);
    MergeTakes(done, a, b, i, j);
    assert MergedAll(done + [a[i]], a, b, i + 1, j);
  }

  method TakeB(r: array<int>, a: seq<int>, b: seq<int>, i: nat, j: nat)
    requires Sorted(b) && Filled(r, a, b, i, j) && i + j < r.Length && j < |b| && (i < |a| ==> b[j] <= a[i])
    modifies r
    ensures Filled(r, a, b, i, j + 1)
  {
    ghost var done :| Holds(r, done) && MergedAll(done, a, b, i, j);
    Append(r, done, i + j, b[j]);
    MergedSwap(done, a, b, i, j);
    MergeTakes(done, b, a, j, i);
    MergedSwap(done + [b[j]], b, a, j + 1, i);
    assert MergedAll(done + [b[j]], a, b, i, j + 1);
  }

  lemma {:induction false} NothingMerged(a: seq<int>, b: seq<int>)
    ensures MergedAll([], a, b, 0, 0)
  {
  }

  lemma {:induction false} AllMerged(done: seq<int>, a: seq<int>, b: seq<int>)
    requires MergedAll(done, a, b, |a|, |b|)
    ensures Sorted(done) && Elems(done) == Elems(a) + Elems(b) && |done| == |a| + |b|
  {
    assert a[..|a|] == a && b[..|b|] == b;
  }

  // The merge at the heart of inner_int_union.
  method Merge(a: seq<int>, b: seq<int>) returns (r: array<int>)
    requires Sorted(a) && Sorted(b)
    ensures fresh(r) && r.Length == |a| + |b|
    ensures Sorted(r[..]) && Elems(r[..]) == Elems(a) + Elems(b)
  {
    r := new int[|a| + |b|];
    NothingMerged(a, b);
    assert Holds(r, []);
    var i, j := MergeBoth(r, a, b);
    MergeRestA(r, a, b, i, j);
    MergeRestB(r, a, b, |a|, j);
    ghost var done :| Holds(r, done) && MergedAll(done, a, b, |a|, |b|);
    AllMerged(done, a, b);
    assert r[..] == done;
  }

  // While there are elements in both.
  method MergeBoth(r: array<int>, a: seq<int>, b: seq<int>) returns (i: nat, j: nat)
    requires Sorted(a) && Sorted(b) && r.Length == |a| + |b| && Filled(r, a, b, 0, 0)
    modifies r
    ensures i <= |a| && j <= |b| && (i == |a| || j == |b|) && Filled(r, a, b, i, j)
  {
    i, j := 0, 0;
    while i < |a| && j < |b|
      invariant i <= |a| && j <= |b| && Filled(r, a, b, i, j)
      decreases |a| - i + |b| - j
    {
      if a[i] < b[j] {
        TakeA(r, a, b, i, j);
        i := i + 1;
      } else {
        TakeB(r, a, b, i, j);
        j := j + 1;
      }
    }
  }

  // What is left of a once b is used up, and the other way round.
  method MergeRestA(r: array<int>, a: seq<int>, b: seq<int>, i0: nat, j: nat)
    requires Sorted(a) && i0 <= |a| && j <= |b| && (i0 == |a| || j == |b|)
    requires r.Length == |a| + |b| && Filled(r, a, b, i0, j)
    modifies r
    ensures Filled(r, a, b, |a|, j)
  {
    var i := i0;
    while i < |a|
      invariant i <= |a| && Filled(r, a, b, i, j)
    {
      TakeA(r, a, b, i, j);
      i := i + 1;
    }
  }

  method MergeRestB(r: array<int>, a: seq<int>, b: seq<int>, i: nat, j0: nat)
    requires Sorted(b) && i <= |a| && j0 <= |b| && (i == |a| || j0 == |b|)
    requires r.Length == |a| + |b| && Filled(r, a, b, i, j0)
    modifies r
    ensures Filled(r, a, b, i, |b|)
  {
    var j := j0;
    while j < |b|
      invariant j <= |b| && Filled(r, a, b, i, j)
    {
      TakeB(r, a, b, i, j);
      j := j + 1;
    }
  }

  // The loop of inner_int_contains: does a contain every element of b?
  method ContainsAll(a: seq<int>, b: seq<int>) returns (r: bool)
    requires Strict(a) && Strict(b)
    ensures r <==> Elems(b) <= Elems(a)
  {
    var i, j, n := 0, 0, 0;
    while i < |a| && j < |b|
      invariant i <= |a| && n <= j <= |b|
      invariant j < |b| ==> forall k :: 0 <= k < i ==> a[k] < b[j]
      invariant i < |a| ==> forall k :: 0 <= k < j ==> b[k] < a[i]
      invariant n == j ==> forall k :: 0 <= k < j ==> b[k] in a
      invariant n < j ==> exists k :: 0 <= k < j && b[k] !in a
      decreases |a| - i + |b| - j
    {
      if a[i] < b[j] {
        i := i + 1;
      } else if a[i] == b[j] {
        n, i, j := n + 1, i + 1, j + 1;
      } else {
        assert b[j] !in a;
        j := j + 1;
      }
    }
    if j < |b| {
      assert b[j] !in a && b[j] in Elems(b);
    } else if n < j {
      var k :| 0 <= k < j && b[k] !in a;
      assert b[k] in Elems(b);
    }
    return n == |b|;
  }

  // The loop of inner_int_overlap: is some element common?
  method Overlaps(a: seq<int>, b: seq<int>) returns (r: bool)
    requires Sorted(a) && Sorted(b)
    ensures r <==> Elems(a) * Elems(b) != {}
  {
    var i, j := 0, 0;
    while i < |a| && j < |b|
      invariant i <= |a| && j <= |b|
      invariant forall k :: 0 <= k < i ==> a[k] !in b
      invariant forall k :: 0 <= k < j ==> b[k] !in a
      decreases |a| - i + |b| - j
    {
      if a[i] < b[j] {
        assert a[i] !in b by {
          forall k | 0 <= k < |b| ensures b[k] != a[i] { assert k < j ==> b[k] !in a; }
        }
        i := i + 1;
      } else if a[i] == b[j] {
        assert a[i] in Elems(a) * Elems(b);
        return true;
      } else {
        assert b[j] !in a by {
          forall k | 0 <= k < |a| ensures a[k] != b[j] { assert k < i ==> a[k] !in b; }
        }
        j := j + 1;
      }
    }
    assert forall x :: x in Elems(a) * Elems(b) ==> x in a && x in b;
    return false;
  }

  // checkcondition_arr: binary search.
  method Find(a: seq<int>, val: int) returns (r: bool)
    requires Sorted(a)
    ensures r <==> val in a
  {
    var low, high := 0, |a|;
    while low < high
      invariant 0 <= low <= high <= |a|
      invariant forall k :: 0 <= k < low ==> a[k] < val
      invariant forall k :: high <= k < |a| ==> val < a[k]
    {
      var middle := low + (high - low) / 2;
      if a[middle] == val {
        return true;
      } else if a[middle] < val {
        low := middle + 1;
      } else {
        high := middle;
      }
    }
    return false;
  }
}

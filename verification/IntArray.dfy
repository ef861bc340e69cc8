/**
 The GiST operator class gist__int_ops (contrib/intarray/_int.c): union, page splitting, the
 consistency check with its five strategies, and the proof that searching the index gives the
 same rows as scanning the table.
 */
module IntArray {
  import opened IntSets
  import opened IntCompress
  import BQ = BoolQuery
  import Gist

  // ---------------------------------------------------------------- arrays

  // An int4[] value.  The literal '{}' has no dimension; operators can also produce arrays with
  // one dimension of length 0.  Arrays of more dimensions are rejected by every operator.
  datatype Raw = Raw(ndim: nat, elems: seq<int>)

  type Arr = a: Raw | a.ndim <= 1 && (a.ndim == 0 ==> a.elems == []) witness Raw(0, [])

  // ARRISVOID: one dimension and no elements; the zero-dimensional array is not void.
  predicate IsVoid(a: Arr) { a.ndim == 1 && a.elems == [] }

  ghost predicate Contains(a: Arr, b: Arr) { !IsVoid(a) && !IsVoid(b) && Elems(b.elems) <= Elems(a.elems) }

  ghost predicate Overlap(a: Arr, b: Arr) { Elems(a.elems) * Elems(b.elems) != {} }

  method InnerContains(a: Arr, b: Arr) returns (r: bool)
    requires Strict(a.elems) && Strict(b.elems)
    ensures r <==> Contains(a, b)
  {
    if IsVoid(a) || IsVoid(b) {
      return false;
    }
    r := ContainsAll(a.elems, b.elems);
  }

  method InnerOverlap(a: Arr, b: Arr) returns (r: bool)
    requires Sorted(a.elems) && Sorted(b.elems)
    ensures r <==> Overlap(a, b)
  {
    if IsVoid(a) || IsVoid(b) {
      return false;
    }
    r := Overlaps(a.elems, b.elems);
  }

  // inner_int_union
  method InnerUnion(a: Arr, b: Arr) returns (r: Arr)
    requires Sorted(a.elems) && Sorted(b.elems)
    ensures Strict(r.elems) && Elems(r.elems) == Elems(a.elems) + Elems(b.elems)
    ensures r.elems == [] ==> (IsVoid(r) <==> IsVoid(a) == IsVoid(b))
  {
    if IsVoid(a) && IsVoid(b) {
      return Raw(1, []);
    }
    var dr: array<int>;
    var ndim := 1;
    if IsVoid(b) {
      dr := new int[|a.elems|](i requires 0 <= i < |a.elems| => a.elems[i]);
      ndim := a.ndim;
      assert dr[..] == a.elems;
    } else if IsVoid(a) {
      dr := new int[|b.elems|](i requires 0 <= i < |b.elems| => b.elems[i]);
      ndim := b.ndim;
      assert dr[..] == b.elems;
    } else {
      dr := Merge(a.elems, b.elems);
    }
    var n := dr.Length;
    assert dr[..n] == dr[..];
    if n > 1 {
      n := Unique(dr);
    }
    r := Raw(if n == 0 then ndim else 1, dr[..n]);
  }

  // ---------------------------------------------------------------- union of a page

  ghost function AllElems(entries: seq<Arr>): (r: set<int>) { set e, x | e in entries && x in Elems(e.elems) :: x }

  lemma {:induction false} AllElemsPush(entries: seq<Arr>, e: Arr)
    ensures AllElems(entries + [e]) == AllElems(entries) + Elems(e.elems)
  {
    var l, r := AllElems(entries + [e]), AllElems(entries) + Elems(e.elems);
    forall x | x in l ensures x in r {
      var f :| f in entries + [e] && x in Elems(f.elems);
    }
    forall x | x in r ensures x in l {
      if x in AllElems(entries) {
        var f :| f in entries && x in Elems(f.elems);
        assert f in entries + [e];
      } else {
        assert e in entries + [e];
      }
    }
  }

  // _int_common_union: the key of a page of at least two entries.
  method CommonUnion(entries: seq<Arr>) returns (out: Arr)
    requires |entries| >= 2 && forall e :: e in entries ==> Sorted(e.elems)
    ensures Strict(out.elems) && Elems(out.elems) == AllElems(entries)
  {
    var tmp := entries[0];
    out := tmp;
    assert entries[..1] == [] + [entries[0]];
    AllElemsPush([], entries[0]);
    for i := 1 to |entries|
      invariant Sorted(tmp.elems) && Elems(tmp.elems) == AllElems(entries[..i])
      invariant i > 1 ==> out == tmp && Strict(out.elems)
    {
      assert entries[..i + 1] == entries[..i] + [entries[i]];
      AllElemsPush(entries[..i], entries[i]);
      out := InnerUnion(tmp, entries[i]);
      tmp := out;
    }
    assert entries[..|entries|] == entries;
  }

  // ---------------------------------------------------------------- page split

  // The elements of the entries at the given offsets.
  ghost function ElemsAt(entries: seq<Arr>, side: seq<nat>): (r: set<int>) {
    set o, x | o in side && o < |entries| && x in Elems(entries[o].elems) :: x
  }

  lemma {:induction false} ElemsAtPush(entries: seq<Arr>, side: seq<nat>, o: nat)
    requires o < |entries|
    ensures ElemsAt(entries, side + [o]) == ElemsAt(entries, side) + Elems(entries[o].elems)
  {
    var l, r := ElemsAt(entries, side + [o]), ElemsAt(entries, side) + Elems(entries[o].elems);
    forall x | x in l ensures x in r {
      var p :| p in side + [o] && p < |entries| && x in Elems(entries[p].elems);
      assert p in side || p == o;
    }
    forall x | x in r ensures x in l {
      if x in ElemsAt(entries, side) {
        var p :| p in side && p < |entries| && x in Elems(entries[p].elems);
        assert p in side + [o];
      } else {
        assert o in side + [o];
      }
    }
  }

  lemma {:induction false} ElemsAtMember(entries: seq<Arr>, side: seq<nat>, o: nat)
    requires o in side && o < |entries|
    ensures Elems(entries[o].elems) <= ElemsAt(entries, side)
  {
    forall x | x in Elems(entries[o].elems) ensures x in ElemsAt(entries, side) {
      assert o in side && o < |entries| && x in Elems(entries[o].elems);
    }
  }

  // The pair of entries whose union wastes most, among all but the last one.
  method PickSeeds(maxoff: nat, waste: (nat, nat) -> real) returns (seed1: nat, seed2: nat)
    ensures 1 <= seed1 < seed2
    ensures maxoff < 2 ==> (seed1, seed2) == (1, 2)
    ensures maxoff >= 2 ==> seed2 <= maxoff && forall i, j :: 1 <= i < j <= maxoff ==> waste(i, j) <= waste(seed1, seed2)
  {
    var firsttime, worst := true, 0.0;
    seed1, seed2 := 0, 0;
    var i := 1;
    while i < maxoff
      invariant 1 <= i && (1 < i ==> i <= maxoff)
      invariant firsttime <==> i == 1
      invariant firsttime ==> seed1 == seed2 == 0
      invariant !firsttime ==> 1 <= seed1 < seed2 <= maxoff && worst == waste(seed1, seed2)
      invariant !firsttime ==> forall a, b :: 1 <= a < i && a < b <= maxoff ==> waste(a, b) <= worst
    {
      var j := i + 1;
      while j <= maxoff
        invariant i < j <= maxoff + 1
        invariant firsttime <==> i == 1 && j == 2
        invariant firsttime ==> seed1 == seed2 == 0
        invariant !firsttime ==> 1 <= seed1 < seed2 <= maxoff && worst == waste(seed1, seed2)
        invariant !firsttime ==> forall a, b :: 1 <= a < i && a < b <= maxoff ==> waste(a, b) <= worst
        invariant !firsttime ==> forall b :: i < b < j ==> waste(i, b) <= worst
      {
        if waste(i, j) > worst || firsttime {
          worst, seed1, seed2, firsttime := waste(i, j), i, j, false;
        }
        j := j + 1;
      }
      i := i + 1;
    }
    if seed1 == 0 || seed2 == 0 {
      seed1, seed2 := 1, 2;
    }
  }

  datatype Split = Split(left: seq<nat>, right: seq<nat>, ldatum: Arr, rdatum: Arr)

  // The state of the distribution after the offsets in `placed`.
  ghost predicate Splitting(entries: seq<Arr>, seed1: nat, seed2: nat, placed: seq<nat>, s: Split)
    requires seed1 < |entries| && seed2 < |entries|
  {
    && (forall o :: o in s.left ==> o < |entries|) && (forall o :: o in s.right ==> o < |entries|)
    && multiset(s.left) + multiset(s.right) == multiset(placed)
    && (seed1 in placed ==> seed1 in s.left) && (seed2 in placed ==> seed2 in s.right)
    && Strict(s.ldatum.elems) && Elems(s.ldatum.elems) == ElemsAt(entries, s.left) + Elems(entries[seed1].elems)
    && Strict(s.rdatum.elems) && Elems(s.rdatum.elems) == ElemsAt(entries, s.right) + Elems(entries[seed2].elems)
  }

  lemma {:induction false} SplitPlaces(entries: seq<Arr>, seed1: nat, seed2: nat, placed: seq<nat>, s: Split, o: nat, left: bool, datum: Arr)
    requires seed1 < |entries| && seed2 < |entries| && o < |entries| && Splitting(entries, seed1, seed2, placed, s)
    requires Strict(datum.elems) && (if left then o != seed2 else o != seed1)
    requires Elems(datum.elems) == Elems(if left then s.ldatum.elems else s.rdatum.elems) + Elems(entries[o].elems)
    ensures Splitting(entries, seed1, seed2, placed + [o],
                      if left then s.(left := s.left + [o], ldatum := datum) else s.(right := s.right + [o], rdatum := datum))
  {
    ElemsAtPush(entries, if left then s.left else s.right, o);
    assert multiset(placed + [o]) == multiset(placed) + multiset{o};
  }

  method PlaceEntry(entries: seq<Arr>, seed1: nat, seed2: nat, ghost placed: seq<nat>, s: Split, o: nat, wish: bool) returns (t: Split)
    requires seed1 < |entries| && seed2 < |entries| && seed1 != seed2 && o < |entries|
    requires Splitting(entries, seed1, seed2, placed, s) && Strict(entries[o].elems)
    ensures Splitting(entries, seed1, seed2, placed + [o], t)
  {
    if o == seed1 {
      t := s.(left := s.left + [o]);
      SplitPlaces(entries, seed1, seed2, placed, s, o, true, s.ldatum);
      return;
    } else if o == seed2 {
      t := s.(right := s.right + [o]);
      SplitPlaces(entries, seed1, seed2, placed, s, o, false, s.rdatum);
      return;
    }
    if wish {
      var union_dl := InnerUnion(s.ldatum, entries[o]);
      SplitPlaces(entries, seed1, seed2, placed, s, o, true, union_dl);
      t := s.(left := s.left + [o], ldatum := union_dl);
    } else {
      var union_dr := InnerUnion(s.rdatum, entries[o]);
      SplitPlaces(entries, seed1, seed2, placed, s, o, false, union_dr);
      t := s.(right := s.right + [o], rdatum := union_dr);
    }
  }

  // _int_common_picksplit.  Offset 0 is unused and `order` is the order of the cost vector; which
  // side needs least enlargement is a matter of floating-point costs and left open (`wish`).
  method PickSplit(entries: seq<Arr>, waste: (nat, nat) -> real, order: seq<nat>, wish: (nat, nat, nat) -> bool) returns (s: Split)
    requires |entries| >= 3 && forall e :: e in entries ==> Strict(e.elems)
    requires forall o :: o in order <==> 1 <= o < |entries|
    ensures multiset(s.left) + multiset(s.right) == multiset(order)
    ensures s.left != [] && s.right != []
    ensures forall o :: o in s.left ==> 1 <= o < |entries| && Elems(entries[o].elems) <= Elems(s.ldatum.elems)
    ensures forall o :: o in s.right ==> 1 <= o < |entries| && Elems(entries[o].elems) <= Elems(s.rdatum.elems)
    ensures Strict(s.ldatum.elems) && Strict(s.rdatum.elems)
    ensures Elems(s.ldatum.elems) + Elems(s.rdatum.elems) == ElemsAt(entries, order)
  {
    var maxoff := |entries| - 2;
    var seed1, seed2 := PickSeeds(maxoff, waste);
    s := Split([], [], entries[seed1], entries[seed2]);
    for j := 0 to |order|
      invariant Splitting(entries, seed1, seed2, order[..j], s)
    {
      assert order[j] in order;
      assert order[..j + 1] == order[..j] + [order[j]];
      s := PlaceEntry(entries, seed1, seed2, order[..j], s, order[j], wish(order[j], |s.left|, |s.right|));
    }
    assert order[..|order|] == order;
    SplitDone(entries, seed1, seed2, order, s);
  }

  lemma {:induction false} SplitDone(entries: seq<Arr>, seed1: nat, seed2: nat, order: seq<nat>, s: Split)
    requires seed1 < |entries| && seed2 < |entries| && Splitting(entries, seed1, seed2, order, s)
    requires seed1 in order && seed2 in order && forall o :: o in order <==> 1 <= o < |entries|
    ensures s.left != [] && s.right != []
    ensures forall o :: o in s.left ==> 1 <= o < |entries| && Elems(entries[o].elems) <= Elems(s.ldatum.elems)
    ensures forall o :: o in s.right ==> 1 <= o < |entries| && Elems(entries[o].elems) <= Elems(s.rdatum.elems)
    ensures Elems(s.ldatum.elems) + Elems(s.rdatum.elems) == ElemsAt(entries, order)
  {
    forall o ensures o in order <==> o in s.left || o in s.right {
      assert o in order <==> o in multiset(order);
      assert o in s.left <==> o in multiset(s.left);
      assert o in s.right <==> o in multiset(s.right);
    }
    forall o | o in s.left ensures Elems(entries[o].elems) <= ElemsAt(entries, s.left) { ElemsAtMember(entries, s.left, o); }
    forall o | o in s.right ensures Elems(entries[o].elems) <= ElemsAt(entries, s.right) { ElemsAtMember(entries, s.right, o); }
    assert ElemsAt(entries, order) == ElemsAt(entries, s.left) + ElemsAt(entries, s.right);
  }

  // ---------------------------------------------------------------- operators and strategies

  // A query: an array under one of four strategies, or a compiled boolean query.
  datatype Query =
    | OverlapQ(q: Arr)
    | SameQ(q: Arr)
    | ContainsQ(q: Arr)
    | ContainedByQ(q: Arr)
    | BoolQ(items: seq<BQ.Item<int>>)

  // A boolean query can be evaluated; unused items and links that wrap to the right sign do no harm.
  ghost predicate ValidQuery(query: Query) { query.BoolQ? ==> BQ.Reach(false, query.items, |query.items| - 1) }

  ghost predicate Eval(items: seq<BQ.Item<int>>, calcnot: bool, elems: seq<int>)
    requires BQ.Reach(false, items, |items| - 1)
  {
    BQ.Execute(false, items, |items| - 1, calcnot, x => x in elems)
  }

  // The operators, as a sequential scan evaluates them on a row.
  ghost predicate Accepts(query: Query, row: Arr)
    requires ValidQuery(query)
  {
    match query
    case OverlapQ(q) => !IsVoid(row) && !IsVoid(q) && Overlap(row, q)
    case SameQ(q) => if IsVoid(row) || IsVoid(q) then IsVoid(row) && IsVoid(q) else multiset(row.elems) == multiset(q.elems)
    case ContainsQ(q) => Contains(row, q)
    case ContainedByQ(q) => Contains(q, row)
    case BoolQ(items) => !IsVoid(row) && Eval(items, true, row.elems)
  }

  // A key as it reaches the consistency check; `leaf` is the LEAFKEY flag.
  datatype Key = Key(arr: Arr, leaf: bool)

  // g_int_consistent on a decompressed key, `onLeaf` being GIST_LEAF.
  ghost predicate Consistent(query: Query, key: Key, onLeaf: bool)
    requires ValidQuery(query)
  {
    match query
    case BoolQ(items) => Eval(items, key.leaf, key.arr.elems)
    case OverlapQ(q) => !IsVoid(q) && Overlap(key.arr, q)
    case SameQ(q) => !IsVoid(q) && if onLeaf then Elems(key.arr.elems) == Elems(q.elems) else Contains(key.arr, q)
    case ContainsQ(q) => Contains(key.arr, q)
    case ContainedByQ(q) => !IsVoid(q) && if onLeaf then Contains(q, key.arr) else Overlap(key.arr, q)
  }

  lemma {:induction false} StrictIsDetermined(a: seq<int>, b: seq<int>)
    requires Strict(a) && Strict(b) && Elems(a) == Elems(b)
    ensures a == b
  {
    SameEmptiness(a, b);
    if a != [] {
      var n, m := |a| - 1, |b| - 1;
      SameLast(a, b);
      WithoutLast(a, n);
      WithoutLast(b, m);
      StrictIsDetermined(a[..n], b[..m]);
    }
  }

  lemma {:induction false} WithoutLast(a: seq<int>, n: nat)
    requires Strict(a) && |a| == n + 1
    ensures a == a[..n] + [a[n]] && Strict(a[..n]) && Elems(a[..n]) == Elems(a) - {a[n]}
  {
    assert a == a[..n] + [a[n]];
    ElemsPush(a[..n], a[n]);
    assert a[n] !in a[..n];
  }

  // g_int_same: element by element
  method SameArrays(a: seq<int>, b: seq<int>) returns (r: bool)
    ensures r <==> a == b
  {
    if |a| != |b| {
      return false;
    }
    for n := 0 to |a|
      invariant a[..n] == b[..n]
    {
      if a[n] != b[n] {
        return false;
      }
      assert a[..n + 1] == a[..n] + [a[n]] && b[..n + 1] == b[..n] + [b[n]];
    }
    assert a[..|a|] == a && b[..|b|] == b;
    return true;
  }

  // The evaluation of a boolean query on a sorted array, by binary search.
  method RunQuery(items: seq<BQ.Item<int>>, pos: nat, calcnot: bool, elems: seq<int>) returns (r: bool)
    requires BQ.Reach(false, items, pos) && Sorted(elems)
    ensures r == BQ.Execute(false, items, pos, calcnot, x => x in elems)
    decreases pos
  {
    var item := items[pos];
    if item.node.Arg? {
      r := Find(elems, item.node.v);
    } else if item.node.c == '!' {
      if !calcnot {
        return true;
      }
      r := RunQuery(items, pos - 1, calcnot, elems);
      r := !r;
    } else if item.node.c == '&' {
      r := RunQuery(items, pos + item.left, calcnot, elems);
      if r {
        r := RunQuery(items, pos - 1, calcnot, elems);
      }
    } else {
      r := RunQuery(items, pos + item.left, calcnot, elems);
      if !r {
        r := RunQuery(items, pos - 1, calcnot, elems);
      }
    }
  }

  lemma {:induction false} SameLast(a: seq<int>, b: seq<int>)
    requires Sorted(a) && Sorted(b) && Elems(a) == Elems(b) && a != [] && b != []
    ensures a[|a| - 1] == b[|b| - 1]
  {
    assert a[|a| - 1] in Elems(a) && b[|b| - 1] in Elems(b);
    var j :| 0 <= j < |b| && b[j] == a[|a| - 1];
    var i :| 0 <= i < |a| && a[i] == b[|b| - 1];
  }

  lemma {:induction false} DropLast(a: seq<int>, n: nat)
    requires Sorted(a) && |a| == n + 1
    ensures a == a[..n] + [a[n]] && Sorted(a[..n]) && multiset(a[..n]) == multiset(a) - multiset{a[n]}
  {
    assert a == a[..n] + [a[n]];
  }

  lemma {:induction false} SortedIsDetermined(a: seq<int>, b: seq<int>)
    requires Sorted(a) && Sorted(b) && multiset(a) == multiset(b)
    ensures a == b
  {
    assert |a| == |multiset(a)| == |multiset(b)| == |b|;
    if a != [] {
      PermutationElems(a, b);
      SameLast(a, b);
      DropLast(a, |a| - 1);
      DropLast(b, |a| - 1);
      SortedIsDetermined(a[..|a| - 1], b[..|a| - 1]);
    }
  }

  // SORT on a copy
  method SortCopy(s: seq<int>) returns (r: seq<int>)
    ensures Sorted(r) && multiset(r) == multiset(s)
  {
    if |s| <= 1 {
      return s;
    }
    var a := new int[|s|](i requires 0 <= i < |s| => s[i]);
    assert a[..] == s;
    var dup := ISort(a);
    r := a[..];
  }

  // The operators of a sequential scan: _int_overlap, _int_same, _int_contains, _int_contained
  // and boolop.
  method RunOperator(query: Query, row: Arr) returns (r: bool)
    requires ValidQuery(query)
    ensures r == Accepts(query, row)
  {
    if query.BoolQ? {
      if IsVoid(row) {
        return false;
      }
      var val := Prepare(row.elems);
      r := RunQuery(query.items, |query.items| - 1, true, val);
      EvalOfSet(query.items, val, row.elems);
      return;
    }
    if IsVoid(row) || IsVoid(query.q) {
      return query.SameQ? && IsVoid(row) && IsVoid(query.q);
    }
    if query.OverlapQ? || query.SameQ? {
      var a := SortCopy(row.elems);
      var b := SortCopy(query.q.elems);
      PermutationElems(a, row.elems);
      PermutationElems(b, query.q.elems);
      if query.OverlapQ? {
        r := Overlaps(a, b);
      } else {
        r := SameArrays(a, b);
        if multiset(a) == multiset(b) { SortedIsDetermined(a, b); }
      }
    } else {
      var a := Prepare(row.elems);
      var b := Prepare(query.q.elems);
      if query.ContainsQ? {
        r := ContainsAll(a, b);
      } else {
        r := ContainsAll(b, a);
      }
    }
  }

  // g_int_consistent
  method GConsistent(query: Query, key: Key, onLeaf: bool) returns (r: bool)
    requires ValidQuery(query)
    requires Strict(key.arr.elems)
    ensures r == Consistent(query, key, onLeaf)
  {
    if query.BoolQ? {
      r := RunQuery(query.items, |query.items| - 1, key.leaf, key.arr.elems);
      return;
    }
    if IsVoid(query.q) {
      return false;
    }
    var prepared := Prepare(query.q.elems);
    var q: Arr := Raw(query.q.ndim, prepared);
    match query {
      case OverlapQ(_) =>
        r := InnerOverlap(key.arr, q);
      case SameQ(_) =>
        if onLeaf {
          r := SameArrays(key.arr.elems, q.elems);
          if Elems(key.arr.elems) == Elems(q.elems) { StrictIsDetermined(key.arr.elems, q.elems); }
        } else {
          r := InnerContains(key.arr, q);
        }
      case ContainsQ(_) =>
        r := InnerContains(key.arr, q);
      case ContainedByQ(_) =>
        if onLeaf {
          r := InnerContains(q, key.arr);
        } else {
          r := InnerOverlap(key.arr, q);
        }
    }
  }

  // ---------------------------------------------------------------- the index

  // A stored key after g_int_decompress; on failure (see Decompress) the search is aborted.
  ghost predicate Unpacks(k: Key, limit: nat) {
    k.leaf || Decompressed(k.arr.elems, limit).Unpacked?
  }

  ghost function Unpack(k: Key, limit: nat): (u: Key)
    requires Unpacks(k, limit)
  {
    if k.leaf || |k.arr.elems| < 2 * MAXNUMRANGE then k
    else Key(Raw(1, Decompressed(k.arr.elems, limit).elems), false)
  }

  // The key of a leaf entry is the prepared row; any other key unpacks to a superset of the row.
  ghost predicate Covers(limit: nat, k: Key, onLeaf: bool, row: Arr) {
    && k.leaf == onLeaf && Unpacks(k, limit)
    && Strict(Unpack(k, limit).arr.elems)
    && if onLeaf then k.arr.ndim == row.ndim && Elems(k.arr.elems) == Elems(row.elems)
       else Elems(row.elems) <= Elems(Unpack(k, limit).arr.elems)
  }

  ghost function Check(query: Query, limit: nat): (f: (Key, bool) -> bool)
    requires ValidQuery(query)
  {
    (k: Key, onLeaf: bool) => Unpacks(k, limit) && Consistent(query, Unpack(k, limit), onLeaf)
  }

  ghost function Op(query: Query): (f: Arr -> bool)
    requires ValidQuery(query)
  {
    (row: Arr) => Accepts(query, row)
  }

  ghost function CoversFun(limit: nat): (f: (Key, bool, Arr) -> bool) {
    (k: Key, onLeaf: bool, row: Arr) => Covers(limit, k, onLeaf, row)
  }

  // g_int_compress on a row builds the key of its leaf entry.
  method LeafKey(row: Arr) returns (k: Key)
    ensures forall limit: nat :: Covers(limit, k, true, row)
  {
    var prepared := Prepare(row.elems);
    k := Key(Raw(row.ndim, prepared), true);
  }

  // The key of a page: the union of the unpacked keys on it, compressed.
  ghost predicate PageKey(limit: nat, kids: seq<Gist.Tree<Key, Arr>>, u: seq<int>, k: Key) {
    && !k.leaf && Unpacks(k, limit) && Strict(u) && AllInt4(u) && Compresses(u, k.arr.elems)
    && forall t :: t in kids ==> Unpacks(t.key, limit) && Elems(Unpack(t.key, limit).arr.elems) <= Elems(u)
  }

  // A tree built by union and compression, level by level, satisfies the cover invariant.
  lemma {:induction false} PageKeyCovers(limit: nat, kids: seq<Gist.Tree<Key, Arr>>, u: seq<int>, k: Key)
    requires Gist.Keyed(kids, CoversFun(limit))
    requires PageKey(limit, kids, u, k)
    ensures Gist.Keyed([Gist.Inner(k, kids)], CoversFun(limit))
  {
    RoundTripIsSuperset(u, k.arr.elems, limit);
    forall r | r in Gist.Rows(kids) ensures Covers(limit, k, false, r) {
      var t := Gist.RowHasTree(kids, r);
      assert Covers(limit, t.key, t.Leaf?, r);
    }
  }

  // Trees as the index builds them: leaf entries hold prepared rows, and the key of a page comes
  // from the keys on it by union or split and compression.
  ghost predicate Built(limit: nat, t: Gist.Tree<Key, Arr>) {
    match t
    case Leaf(k, row) => k.leaf && k.arr.ndim == row.ndim && Strict(k.arr.elems) && Elems(k.arr.elems) == Elems(row.elems)
    case Inner(k, kids) => (forall c :: c in kids ==> Built(limit, c)) && exists u :: PageKey(limit, kids, u, k)
  }

  // All of them satisfy the cover invariant.
  lemma {:induction false} BuiltIsKeyed(limit: nat, forest: seq<Gist.Tree<Key, Arr>>)
    requires forall t :: t in forest ==> Built(limit, t)
    ensures Gist.Keyed(forest, CoversFun(limit))
    decreases forest
  {
    forall t | t in forest
      ensures (forall r :: r in Gist.Below(t) ==> Covers(limit, t.key, t.Leaf?, r))
              && (t.Inner? ==> Gist.Keyed(t.kids, CoversFun(limit)))
    {
      if t.Inner? {
        BuiltIsKeyed(limit, t.kids);
        var u :| PageKey(limit, t.kids, u, t.key);
        PageKeyCovers(limit, t.kids, u, t.key);
        assert t in [t];
      }
    }
  }

  // g_int_compress on the key of a page.
  method PageKeyOf(datum: Arr) returns (k: Key)
    requires Strict(datum.elems) && AllInt4(datum.elems)
    ensures !k.leaf && Compresses(datum.elems, k.arr.elems)
  {
    var elems, _ := Compress(datum.elems);
    k := Key(if |datum.elems| < 2 * MAXNUMRANGE then datum else Raw(1, elems), false);
  }

  // What g_int_union and g_int_compress make of the unpacked keys of a page is a page key.
  method UnionKey(ghost limit: nat, ghost kids: seq<Gist.Tree<Key, Arr>>, entries: seq<Arr>) returns (k: Key, ghost u: seq<int>)
    requires |entries| >= 2 && (forall e :: e in entries ==> Sorted(e.elems) && AllInt4(e.elems))
    requires forall t :: t in kids ==> Unpacks(t.key, limit) && Unpack(t.key, limit).arr in entries
    ensures !k.leaf && Strict(u) && Elems(u) == AllElems(entries) && Compresses(u, k.arr.elems)
    ensures Unpacks(k, limit) ==> PageKey(limit, kids, u, k)
  {
    var out := CommonUnion(entries);
    UnionIsInt4(entries, out.elems);
    k := PageKeyOf(out);
    u := out.elems;
    forall t | t in kids ensures Elems(Unpack(t.key, limit).arr.elems) <= Elems(u) {
      InAllElems(entries, Unpack(t.key, limit).arr);
    }
  }

  lemma {:induction false} InAllElems(entries: seq<Arr>, e: Arr)
    requires e in entries
    ensures Elems(e.elems) <= AllElems(entries)
  {
    forall x | x in Elems(e.elems) ensures x in AllElems(entries) {}
  }

  lemma {:induction false} UnionIsInt4(entries: seq<Arr>, u: seq<int>)
    requires Elems(u) == AllElems(entries) && forall e :: e in entries ==> AllInt4(e.elems)
    ensures AllInt4(u)
  {
    forall i | 0 <= i < |u| ensures Int4(u[i]) {
      assert u[i] in Elems(u);
      var e, x :| e in entries && x in Elems(e.elems) && x == u[i];
      var j :| 0 <= j < |e.elems| && e.elems[j] == x;
    }
  }

  // So is what a split makes of one of its sides.
  method SideKey(ghost limit: nat, ghost kids: seq<Gist.Tree<Key, Arr>>, ghost entries: seq<Arr>, ghost side: seq<nat>, datum: Arr)
    returns (k: Key)
    requires Strict(datum.elems) && AllInt4(datum.elems)
    requires forall o :: o in side ==> 1 <= o < |entries| && Elems(entries[o].elems) <= Elems(datum.elems)
    requires forall t :: t in kids ==> Unpacks(t.key, limit) && exists o :: o in side && o < |entries| && Unpack(t.key, limit).arr == entries[o]
    ensures !k.leaf && Compresses(datum.elems, k.arr.elems)
    ensures Unpacks(k, limit) ==> PageKey(limit, kids, datum.elems, k)
  {
    k := PageKeyOf(datum);
  }

  // ---------------------------------------------------------------- search is scan

  // What the check decides on a leaf page: it compares sets where equality compares arrays, and
  // does not look for void rows where boolop does.
  ghost predicate LeafAccepts(query: Query, row: Arr)
    requires ValidQuery(query)
  {
    match query
    case SameQ(q) => !IsVoid(q) && Elems(row.elems) == Elems(q.elems)
    case BoolQ(items) => Eval(items, true, row.elems)
    case _ => Accepts(query, row)
  }

  lemma {:induction false} LeafCheckIs(query: Query, limit: nat, k: Key, row: Arr)
    requires ValidQuery(query) && Covers(limit, k, true, row)
    ensures Consistent(query, Unpack(k, limit), true) <==> LeafAccepts(query, row)
  {
    SameEmptiness(k.arr.elems, row.elems);
    if query.BoolQ? {
      EvalOfSet(query.items, k.arr.elems, row.elems);
    }
  }

  lemma {:induction false} SameEmptiness(a: seq<int>, b: seq<int>)
    requires Elems(a) == Elems(b)
    ensures a == [] <==> b == []
  {
    assert a != [] ==> a[0] in Elems(a);
    assert b != [] ==> b[0] in Elems(b);
  }

  // Evaluation depends on the set of elements only.
  lemma {:induction false} EvalOfSet(items: seq<BQ.Item<int>>, a: seq<int>, b: seq<int>)
    requires ValidQuery(BoolQ(items)) && Elems(a) == Elems(b)
    ensures Eval(items, true, a) == Eval(items, true, b)
  {
    var f, g := (x: int) => x in a, (x: int) => x in b;
    ElemsIn(a);
    ElemsIn(b);
    forall v ensures f(v) == g(v) { assert v in a <==> v in b; }
    BQ.ExecuteIsPointwise(false, items, |items| - 1, true, f, g);
  }

  // Queries that no index gets wrong for want of elements: `{}` and the void array do not overlap
  // anything, and nothing contains the void array.  Contained-by has its own trouble, see below.
  predicate Meets(query: Query) {
    match query
    case BoolQ(_) => true
    case OverlapQ(_) => true
    case ContainedByQ(_) => true
    case SameQ(q) => q.elems != []
    case ContainsQ(q) => q.elems != [] || IsVoid(q)
  }

  lemma {:induction false} AcceptedIsLeafAccepted(query: Query, row: Arr)
    requires ValidQuery(query) && Meets(query) && Accepts(query, row)
    ensures LeafAccepts(query, row)
  {
    if query.SameQ? {
      PermutationElems(row.elems, query.q.elems);
    }
  }

  // A key above a row that the leaf check accepts is consistent, unless the row is the
  // zero-dimensional array and the strategy is contained-by.
  lemma {:induction false} CoverIsConsistent(query: Query, limit: nat, k: Key, onLeaf: bool, row: Arr)
    requires ValidQuery(query) && Meets(query)
    requires Covers(limit, k, onLeaf, row) && LeafAccepts(query, row)
    requires query.ContainedByQ? && !onLeaf ==> row.elems != []
    ensures Consistent(query, Unpack(k, limit), onLeaf)
  {
    if onLeaf {
      LeafCheckIs(query, limit, k, row);
    } else {
      var key := Unpack(k, limit);
      match query
      case OverlapQ(q) =>
        OverlapGrows(row, key.arr, q);
      case SameQ(q) =>
        assert q.elems[0] in Elems(q.elems);
      case ContainsQ(q) =>
        if q.elems != [] { assert q.elems[0] in Elems(q.elems); }
      case ContainedByQ(q) =>
        assert row.elems[0] in Elems(row.elems);
        assert row.elems[0] in Elems(key.arr.elems) * Elems(q.elems);
      case BoolQ(items) =>
        EvalGrows(items, row.elems, key.arr.elems);
    }
  }

  lemma {:induction false} EvalGrows(items: seq<BQ.Item<int>>, a: seq<int>, b: seq<int>)
    requires ValidQuery(BoolQ(items)) && Elems(a) <= Elems(b) && Eval(items, true, a)
    ensures Eval(items, false, b)
  {
    var holds, more := (x: int) => x in a, (x: int) => x in b;
    ElemsIn(a);
    ElemsIn(b);
    forall v | holds(v) ensures more(v) { assert v in Elems(a); }
    BQ.ExecuteIsSound(false, items, |items| - 1, holds, more);
  }

  lemma {:induction false} OverlapGrows(a: Arr, b: Arr, q: Arr)
    requires Overlap(a, q) && Elems(a.elems) <= Elems(b.elems)
    ensures Overlap(b, q)
  {
    assert Elems(a.elems) * Elems(q.elems) <= Elems(b.elems) * Elems(q.elems);
  }

  lemma {:induction false} ElemsIn(s: seq<int>)
    ensures forall x {:trigger x in s} :: x in s <==> x in Elems(s)
  {
  }

  ghost function LeafOp(query: Query): (f: Arr -> bool)
    requires ValidQuery(query)
  {
    (row: Arr) => LeafAccepts(query, row)
  }

  // For every index tree of any height, every non-empty query and every strategy but contained-by
  // (see below), searching the index is scanning the table with the leaf check.
  lemma {:induction false} SearchIsLeafScan(forest: seq<Gist.Tree<Key, Arr>>, query: Query, limit: nat)
    requires Gist.Keyed(forest, CoversFun(limit)) && !query.ContainedByQ?
    requires ValidQuery(query) && Meets(query)
    ensures Gist.Search(forest, Check(query, limit)) == Gist.Scan(Gist.Rows(forest), LeafOp(query))
  {
    var covers, check, op := CoversFun(limit), Check(query, limit), LeafOp(query);
    forall k, leaf, r | covers(k, leaf, r) && op(r) ensures check(k, leaf) {
      CoverIsConsistent(query, limit, k, leaf, r);
    }
    forall k, r | covers(k, true, r) && check(k, true) ensures op(r) {
      LeafCheckIs(query, limit, k, r);
    }
    Gist.SearchIsScan(forest, covers, check, op);
  }

  // The rows on which the leaf check and the operator part: arrays with the same set of elements
  // for equality, and the void array for a boolean query that holds of no elements.
  ghost predicate Parts(query: Query, rows: seq<Arr>)
    requires ValidQuery(query)
  {
    match query
    case SameQ(q) => exists r :: r in rows && Elems(r.elems) == Elems(q.elems) && multiset(r.elems) != multiset(q.elems)
    case BoolQ(items) => Eval(items, true, []) && Raw(1, []) in rows
    case _ => false
  }

  lemma {:induction false} PartsExactly(query: Query, rows: seq<Arr>)
    requires ValidQuery(query) && Meets(query)
    ensures Parts(query, rows) <==> exists r :: r in rows && LeafAccepts(query, r) && !Accepts(query, r)
  {
    if query.BoolQ? && Parts(query, rows) {
      var void: Arr := Raw(1, []);
      assert void in rows && LeafAccepts(query, void) && !Accepts(query, void);
    }
    if query.SameQ? {
      forall r | r in rows ensures LeafAccepts(query, r) && !Accepts(query, r) <==>
                                   Elems(r.elems) == Elems(query.q.elems) && multiset(r.elems) != multiset(query.q.elems) {
        if Elems(r.elems) == Elems(query.q.elems) {
          SameEmptiness(r.elems, query.q.elems);
        }
      }
    }
  }

  // The rechecked search is the scan, and the search alone is the scan exactly if the leaf check
  // and the operator part on no row.
  lemma {:induction false} IndexSearchIsScan(forest: seq<Gist.Tree<Key, Arr>>, query: Query, limit: nat)
    requires Gist.Keyed(forest, CoversFun(limit)) && !query.ContainedByQ?
    requires ValidQuery(query) && Meets(query)
    ensures Gist.Scan(Gist.Search(forest, Check(query, limit)), Op(query)) == Gist.Scan(Gist.Rows(forest), Op(query))
    ensures Gist.Search(forest, Check(query, limit)) == Gist.Scan(Gist.Rows(forest), Op(query))
            <==> !Parts(query, Gist.Rows(forest))
  {
    var covers, check, op := CoversFun(limit), Check(query, limit), Op(query);
    forall k, leaf, r | covers(k, leaf, r) && op(r) ensures check(k, leaf) {
      AcceptedIsLeafAccepted(query, r);
      CoverIsConsistent(query, limit, k, leaf, r);
    }
    Gist.KeyedIsNotBlocked(forest, covers, check, op);
    Gist.SearchIsScanExactly(forest, check, op);
    NoRecheckExactly(forest, query, limit);
  }

  lemma {:induction false} NoRecheckExactly(forest: seq<Gist.Tree<Key, Arr>>, query: Query, limit: nat)
    requires Gist.Keyed(forest, CoversFun(limit)) && !query.ContainedByQ?
    requires ValidQuery(query) && Meets(query)
    ensures Gist.Search(forest, Check(query, limit)) == Gist.Scan(Gist.Rows(forest), Op(query))
            <==> !Parts(query, Gist.Rows(forest))
  {
    var rows, weak, strong := Gist.Rows(forest), LeafOp(query), Op(query);
    SearchIsLeafScan(forest, query, limit);
    forall r | r in rows && strong(r) ensures weak(r) { AcceptedIsLeafAccepted(query, r); }
    Gist.SameScanExactly(rows, weak, strong);
    PartsExactly(query, rows);
  }

  // A table of one void array under the query `!x`: the index returns it and boolop does not.
  lemma {:induction false} VoidArrayIsReturned(x: int, void: Arr, items: seq<BQ.Item<int>>, forest: seq<Gist.Tree<Key, Arr>>, limit: nat)
    requires void == Raw(1, []) && items == [BQ.Item(BQ.Arg(x), 0), BQ.Item(BQ.Opr('!'), -1)]
    requires forest == [Gist.Leaf(Key(void, true), void)]
    ensures Gist.Keyed(forest, CoversFun(limit)) && ValidQuery(BoolQ(items))
    ensures Gist.Search(forest, Check(BoolQ(items), limit)) == [void]
    ensures Gist.Scan(Gist.Rows(forest), Op(BoolQ(items))) == []
  {
    var none := (y: int) => y in void.elems;
    assert BQ.Reach(false, items, 0) && BQ.Reach(false, items, 1);
    assert !BQ.Execute(false, items, 0, true, none) && BQ.Execute(false, items, 1, true, none);
    assert Eval(items, true, void.elems) && LeafAccepts(BoolQ(items), void);
    assert forest[1..] == [];
    SearchIsLeafScan(forest, BoolQ(items), limit);
    assert Gist.Rows(forest) == [void];
  }

  // ---------------------------------------------------------------- queries without elements

  ghost predicate AnswersRight(query: Query, limit: nat, t: Gist.Tree<Key, Arr>)
    requires ValidQuery(query)
  {
    Gist.Scan(Gist.Search([t], Check(query, limit)), Op(query)) == Gist.Scan(Gist.Rows([t]), Op(query))
  }

  // A page that holds `{}` twice: the union of the two is void.
  ghost function EmptyPage(): (t: Gist.Tree<Key, Arr>)
    ensures t.key == Key(Raw(1, []), false) && t.Inner?
  {
    var empty: Arr, void: Arr := Raw(0, []), Raw(1, []);
    var kids: seq<Gist.Tree<Key, Arr>> := [Gist.Leaf(Key(empty, true), empty), Gist.Leaf(Key(empty, true), empty)];
    Gist.Inner(Key(void, false), kids)
  }

  ghost function VoidLeaf(): (t: Gist.Tree<Key, Arr>) {
    var void: Arr := Raw(1, []);
    Gist.Leaf(Key(void, true), void)
  }

  lemma {:induction false} EmptyPageIsBuilt(limit: nat)
    ensures Built(limit, EmptyPage()) && Built(limit, VoidLeaf())
    ensures Raw(0, []) in Gist.Rows([EmptyPage()]) && Raw(1, []) in Gist.Rows([VoidLeaf()])
  {
    var t, v := EmptyPage(), VoidLeaf();
    assert PageKey(limit, t.kids, [], t.key);
    Gist.RowOfTree(t.kids, t.kids[0], t.kids[0].row);
    Gist.RowOfTree([t], t, t.kids[0].row);
    Gist.RowOfTree([v], v, v.row);
  }

  // A row that is accepted and pruned at the top is an error of the index.
  lemma {:induction false} PrunedIsWrong(query: Query, limit: nat, t: Gist.Tree<Key, Arr>, r: Arr)
    requires ValidQuery(query) && r in Gist.Rows([t]) && Accepts(query, r)
    requires Unpacks(t.key, limit) && !Consistent(query, Unpack(t.key, limit), t.Leaf?)
    ensures !AnswersRight(query, limit, t)
  {
    assert [t][1..] == [];
    assert Gist.Found(t, Check(query, limit)) == [];
    assert Gist.Search([t], Check(query, limit)) == [];
    Gist.ScanSome(Gist.Rows([t]), Op(query));
    assert Op(query)(r);
  }

  // Without contained-by, the rechecked search of every tree that can be built is the scan if and
  // only if the query is not `{}` for contains, nor an array without elements for equality.
  lemma {:induction false} RecheckIsEnoughExactly(query: Query, limit: nat)
    requires ValidQuery(query) && !query.ContainedByQ?
    ensures Meets(query) <==> forall t :: Built(limit, t) ==> AnswersRight(query, limit, t)
  {
    if Meets(query) {
      forall t | Built(limit, t) ensures AnswersRight(query, limit, t) {
        BuiltIsKeyed(limit, [t]);
        IndexSearchIsScan([t], query, limit);
      }
    } else {
      EmptyPageIsBuilt(limit);
      if IsVoid(query.q) {
        PrunedIsWrong(query, limit, VoidLeaf(), Raw(1, []));
      } else {
        PrunedIsWrong(query, limit, EmptyPage(), Raw(0, []));
      }
    }
  }

  // ---------------------------------------------------------------- the array without dimensions

  // An internal key that shares no element with q hides a zero-dimensional array.
  ghost predicate HidesEmpty(forest: seq<Gist.Tree<Key, Arr>>, q: Arr, limit: nat) {
    exists t :: t in forest && t.Inner? &&
      ((Unpacks(t.key, limit) && !Overlap(Unpack(t.key, limit).arr, q) && Raw(0, []) in Gist.Below(t)) || HidesEmpty(t.kids, q, limit))
  }

  // Contained-by goes wrong exactly there: `{}` is contained in everything, but keys are pruned
  // by overlap.
  lemma {:induction false} BlockedIsHidden(forest: seq<Gist.Tree<Key, Arr>>, q: Arr, limit: nat)
    requires Gist.Keyed(forest, CoversFun(limit)) && !IsVoid(q)
    ensures Gist.Blocked(forest, Check(ContainedByQ(q), limit), Op(ContainedByQ(q))) <==> HidesEmpty(forest, q, limit)
    decreases forest
  {
    var query := ContainedByQ(q);
    var check, op := Check(query, limit), Op(query);
    forall t | t in forest
      ensures (!check(t.key, t.Leaf?) && Gist.Some(Gist.Below(t), op)) <==>
              (t.Inner? && Unpacks(t.key, limit) && !Overlap(Unpack(t.key, limit).arr, q) && Raw(0, []) in Gist.Below(t))
      ensures t.Inner? ==> (Gist.Blocked(t.kids, check, op) <==> HidesEmpty(t.kids, q, limit))
    {
      if t.Inner? { BlockedIsHidden(t.kids, q, limit); }
      if !check(t.key, t.Leaf?) && Gist.Some(Gist.Below(t), op) {
        var r :| r in Gist.Below(t) && op(r);
        HiddenRow(t, q, limit, r);
      }
      if t.Inner? && Raw(0, []) in Gist.Below(t) {
        assert Covers(limit, t.key, false, Raw(0, []));
        assert op(Raw(0, []));
      }
    }
  }

  lemma {:induction false} HiddenRow(t: Gist.Tree<Key, Arr>, q: Arr, limit: nat, r: Arr)
    requires Gist.Keyed([t], CoversFun(limit)) && !IsVoid(q)
    requires r in Gist.Below(t) && Accepts(ContainedByQ(q), r) && !Check(ContainedByQ(q), limit)(t.key, t.Leaf?)
    ensures t.Inner? && Unpacks(t.key, limit) && !Overlap(Unpack(t.key, limit).arr, q) && r == Raw(0, [])
  {
    assert t in [t];
    assert Covers(limit, t.key, t.Leaf?, r);
    if t.Leaf? || r.elems != [] {
      AcceptedIsLeafAccepted(ContainedByQ(q), r);
      CoverIsConsistent(ContainedByQ(q), limit, t.key, t.Leaf?, r);
    }
  }

  // The contained-by search of any index equals the scan, rechecked or not, if and only if the query
  // is void or no key disjoint from it hides a zero-dimensional array.
  lemma {:induction false} ContainedBySearchIsScanExactly(forest: seq<Gist.Tree<Key, Arr>>, q: Arr, limit: nat)
    requires Gist.Keyed(forest, CoversFun(limit))
    ensures var query := ContainedByQ(q);
            var found, all := Gist.Search(forest, Check(query, limit)), Gist.Scan(Gist.Rows(forest), Op(query));
            Gist.Scan(found, Op(query)) == found && (found == all <==> IsVoid(q) || !HidesEmpty(forest, q, limit))
  {
    var covers, check, op := CoversFun(limit), Check(ContainedByQ(q), limit), Op(ContainedByQ(q));
    if IsVoid(q) {
      Gist.KeyedIsNotBlocked(forest, covers, check, op);
    } else {
      BlockedIsHidden(forest, q, limit);
    }
    Gist.SearchIsScanExactly(forest, check, op);
    forall k, r | covers(k, true, r) && check(k, true) ensures op(r) {
      LeafCheckIs(ContainedByQ(q), limit, k, r);
    }
    Gist.NoRecheck(forest, covers, check, op);
  }

  // A page holding `{}` and `{1}` under the key `{1}`: the query `{2}` contains `{}` and misses it.
  lemma {:induction false} EmptyArrayIsMissed(empty: Arr, one: Arr, two: Arr, kids: seq<Gist.Tree<Key, Arr>>)
    requires empty == Raw(0, []) && one == Raw(1, [1]) && two == Raw(1, [2])
    requires kids == [Gist.Leaf(Key(empty, true), empty), Gist.Leaf(Key(one, true), one)]
    ensures Gist.Keyed([Gist.Inner(Key(one, false), kids)], CoversFun(10))
    ensures empty in Gist.Rows(kids) && Accepts(ContainedByQ(two), empty)
    ensures Gist.Search([Gist.Inner(Key(one, false), kids)], Check(ContainedByQ(two), 10)) == []
  {
    var page := Gist.Inner(Key(one, false), kids);
    Gist.RowOfTree(kids, kids[0], empty);
    PageKeyOfOne(one, kids);
    BuiltIsKeyed(10, [page]);
    assert Elems(one.elems) == {1} && Elems(two.elems) == {2};
    assert !Overlap(one, two);
    assert Unpack(page.key, 10) == Key(one, false);
    assert Gist.Found(page, Check(ContainedByQ(two), 10)) == [];
    assert [page][1..] == [];
  }

  lemma {:induction false} PageKeyOfOne(one: Arr, kids: seq<Gist.Tree<Key, Arr>>)
    requires one == Raw(1, [1])
    requires forall t :: t in kids ==> t.Leaf? && t.key == Key(t.row, true) && (t.row == one || t.row == Raw(0, []))
    ensures Built(10, Gist.Inner(Key(one, false), kids))
  {
    forall t | t in kids ensures Unpacks(t.key, 10) && Elems(Unpack(t.key, 10).arr.elems) <= Elems(one.elems) {
      assert Unpack(t.key, 10) == t.key;
    }
    assert PageKey(10, kids, one.elems, Key(one, false));
  }
}

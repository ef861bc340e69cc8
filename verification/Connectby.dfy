/**
 The connectby function (contrib/tablefunc/tablefunc.c): a recursive walk down a parent/child
 table that stores one row per path and stops with an error when the text of a key is found in the
 text of the branch above it.
 */
module Connectby {
  import opened Wrappers

  // A row of the source table; either column may be null.
  datatype Link = Link(key: Option<string>, parent: Option<string>)

  datatype OutRow = OutRow(key: string, parent: Option<string>, level: nat, branch: string)

  // ---------------------------------------------------------------- finding text in text

  predicate At(s: string, o: nat, piece: string) { o + |piece| <= |s| && s[o..o + |piece|] == piece }

  // strstr
  predicate Contains(s: string, piece: string) { exists o :: 0 <= o <= |s| && At(s, o, piece) }

  // The keys of a branch with the delimiter before, between and after them.
  function Wrapped(path: seq<string>, d: string): (s: string) {
    if path == [] then d else Wrapped(path[..|path| - 1], d) + path[|path| - 1] + d
  }

  // The text of a branch.
  function Joined(path: seq<string>, d: string): (s: string)
    requires path != []
  {
    if |path| == 1 then path[0] else Joined(path[..|path| - 1], d) + d + path[|path| - 1]
  }

  lemma {:induction false} WrappedIsJoined(path: seq<string>, d: string)
    requires path != []
    ensures Wrapped(path, d) == d + Joined(path, d) + d
  {
    var front, k := path[..|path| - 1], path[|path| - 1];
    if |path| == 1 {
      assert front == [] && Wrapped(front, d) == d;
    } else {
      WrappedIsJoined(front, d);
      assert (d + Joined(front, d) + d) + k + d == d + (Joined(front, d) + d + k) + d;
    }
  }

  // The test for a cycle.
  predicate Caught(path: seq<string>, k: string, d: string) { Contains(Wrapped(path, d), d + k + d) }

  // Where the delimiter before key i stands.
  function Base(path: seq<string>, d: string, i: nat): (n: nat)
    requires i <= |path|
  {
    if i == 0 then 0 else Base(path, d, i - 1) + |d| + |path[i - 1]|
  }

  lemma {:induction false} BaseOfFront(path: seq<string>, d: string, i: nat)
    requires i < |path|
    ensures Base(path[..|path| - 1], d, i) == Base(path, d, i)
  {
    if i > 0 {
      BaseOfFront(path, d, i - 1);
    }
  }

  lemma {:induction false} WrappedLength(path: seq<string>, d: string)
    ensures |Wrapped(path, d)| == Base(path, d, |path|) + |d|
  {
    if path != [] {
      WrappedLength(path[..|path| - 1], d);
      BaseOfFront(path, d, |path| - 1);
    }
  }

  lemma {:induction false} AtFront(a: string, b: string, o: nat, piece: string)
    requires o + |piece| <= |a|
    ensures At(a + b, o, piece) == At(a, o, piece)
  {
    assert (a + b)[o..o + |piece|] == a[o..o + |piece|];
  }

  lemma {:induction false} AtBack(a: string, b: string, o: nat, piece: string)
    requires |a| <= o
    ensures At(a + b, o, piece) == At(b, o - |a|, piece)
  {
    if o + |piece| <= |a + b| {
      assert (a + b)[o..o + |piece|] == b[o - |a|..o - |a| + |piece|];
    }
  }

  // The last delimiter, the key before it and the delimiter before that.
  lemma {:induction false} WrappedEnd(path: seq<string>, d: string) returns (a: string)
    requires path != []
    ensures Wrapped(path, d) == a + (d + path[|path| - 1] + d) && |a| == Base(path, d, |path| - 1)
    ensures Wrapped(path[..|path| - 1], d) == a + d
  {
    var front, k := path[..|path| - 1], path[|path| - 1];
    var w := Wrapped(front, d);
    WrappedLength(front, d);
    BaseOfFront(path, d, |path| - 1);
    WrappedEndsInDelimiter(front, d);
    a := w[..|w| - |d|];
    assert w == a + d;
    assert (a + d) + k + d == a + (d + k + d);
  }

  lemma {:induction false} WrappedEndsInDelimiter(path: seq<string>, d: string)
    ensures |d| <= |Wrapped(path, d)| && Wrapped(path, d)[|Wrapped(path, d)| - |d|..] == d
  {
  }

  // Key i of a branch stands between its two delimiters.
  lemma {:induction false} KeyAt(path: seq<string>, d: string, i: nat)
    requires i < |path|
    ensures At(Wrapped(path, d), Base(path, d, i), d + path[i] + d)
    decreases |path|
  {
    var a := WrappedEnd(path, d);
    var front, k := path[..|path| - 1], path[|path| - 1];
    if i == |path| - 1 {
      AtBack(a, d + k + d, |a|, d + k + d);
      assert At(d + k + d, 0, d + k + d);
    } else {
      KeyAt(front, d, i);
      BaseOfFront(path, d, i);
      AtFront(Wrapped(front, d), k + d, Base(path, d, i), d + path[i] + d);
      assert Wrapped(path, d) == Wrapped(front, d) + (k + d);
    }
  }

  // A key that is on the branch is always found, whatever the delimiter is.
  lemma {:induction false} OnPathIsCaught(path: seq<string>, k: string, d: string)
    requires k in path
    ensures Caught(path, k, d)
  {
    var i :| 0 <= i < |path| && path[i] == k;
    KeyAt(path, d, i);
  }

  // The delimiter stands around the key only where it was put.
  predicate Clean(k: string, d: string) {
    forall o: nat :: o <= |d + k + d| && At(d + k + d, o, d) ==> o == 0 || o == |d| + |k|
  }

  predicate AllClean(path: seq<string>, d: string) { forall i :: 0 <= i < |path| ==> Clean(path[i], d) }

  // In a branch of clean keys the delimiter stands only where it was put.
  lemma {:induction false} DelimitersAreBases(path: seq<string>, d: string, o: nat) returns (i: nat)
    requires AllClean(path, d) && At(Wrapped(path, d), o, d)
    ensures i <= |path| && o == Base(path, d, i)
    decreases |path|
  {
    if path == [] {
      i := 0;
    } else {
      var a := WrappedEnd(path, d);
      var front, k := path[..|path| - 1], path[|path| - 1];
      if o <= |a| {
        assert Wrapped(path, d) == (a + d) + (k + d);
        AtFront(a + d, k + d, o, d);
        i := DelimitersAreBases(front, d, o);
        if i < |path| {
          BaseOfFront(path, d, i);
        }
      } else {
        AtBack(a, d + k + d, o, d);
        assert Clean(path[|path| - 1], d);
        i := |path|;
      }
    }
  }

  lemma {:induction false} BaseGrows(path: seq<string>, d: string, i: nat, j: nat)
    requires i <= j <= |path|
    ensures if i == j then Base(path, d, i) == Base(path, d, j) else Base(path, d, i) + |d| <= Base(path, d, j)
    decreases j - i
  {
    if i < j {
      BaseGrows(path, d, i, j - 1);
    }
  }

  lemma {:induction false} AtTwice(s: string, o: nat, piece: string, p: nat, q: string)
    requires At(s, o, piece) && o <= p && p + |q| <= o + |piece|
    ensures At(s, p, q) == At(piece, p - o, q)
  {
    var x, y, z := s[p..p + |q|], piece[p - o..p - o + |q|], s[o..o + |piece|];
    forall m | 0 <= m < |q| ensures x[m] == y[m] {
      assert z[p - o + m] == s[p + m];
    }
    assert x == y;
  }

  // With clean keys nothing else is found.
  lemma {:induction false} CaughtIsOnPath(path: seq<string>, k: string, d: string)
    requires d != "" && AllClean(path, d) && Clean(k, d) && Caught(path, k, d)
    ensures k in path
  {
    var w := Wrapped(path, d);
    var o :| 0 <= o <= |w| && At(w, o, d + k + d);
    DelimitersAround(w, o, k, d);
    var i := DelimitersAreBases(path, d, o);
    var j := DelimitersAreBases(path, d, o + |d| + |k|);
    BasesInOrder(path, d, i, j);
    NextBase(path, k, d, o, i, j);
    KeyAt(path, d, i);
    SameKey(w, o, k, path[i], d);
  }

  lemma {:induction false} DelimitersAround(w: string, o: nat, k: string, d: string)
    requires At(w, o, d + k + d)
    ensures At(w, o, d) && At(w, o + |d| + |k|, d)
  {
    AtTwice(w, o, d + k + d, o, d);
    AtTwice(w, o, d + k + d, o + |d| + |k|, d);
    assert At(d + k + d, 0, d) && At(d + k + d, |d| + |k|, d);
  }

  lemma {:induction false} SameKey(w: string, o: nat, k: string, l: string, d: string)
    requires At(w, o, d + k + d) && At(w, o, d + l + d) && |k| == |l|
    ensures k == l
  {
    AtTwice(w, o, d + k + d, o + |d|, k);
    assert At(d + k + d, |d|, k);
    AtTwice(w, o, d + l + d, o + |d|, l);
    assert At(d + l + d, |d|, l);
  }

  lemma {:induction false} BasesInOrder(path: seq<string>, d: string, i: nat, j: nat)
    requires i <= |path| && j <= |path| && Base(path, d, i) < Base(path, d, j)
    ensures i < j
  {
    if j <= i {
      BaseGrows(path, d, j, i);
    }
  }

  // The two ends of a clean key that was found are neighbours.
  lemma {:induction false} NextBase(path: seq<string>, k: string, d: string, o: nat, i: nat, j: nat)
    requires d != "" && Clean(k, d) && At(Wrapped(path, d), o, d + k + d) && i < j <= |path|
    requires o == Base(path, d, i) && o + |d| + |k| == Base(path, d, j)
    ensures j == i + 1
  {
    if i + 1 < j {
      var w, p := Wrapped(path, d), Base(path, d, i + 1);
      KeyAt(path, d, i + 1);
      DelimitersAround(w, p, path[i + 1], d);
      BaseGrows(path, d, i + 1, j);
      AtTwice(w, o, d + k + d, p, d);
    }
  }

  // ---------------------------------------------------------------- paths down the table

  function KeyOf(table: seq<Link>, r: nat): (k: string) {
    if r < |table| && table[r].key.Some? then table[r].key.value else ""
  }

  // The keys on the way from the root along the rows c.
  function Keys(table: seq<Link>, root: string, c: seq<nat>): (path: seq<string>)
    ensures |path| == |c| + 1
  {
    if c == [] then [root] else Keys(table, root, c[..|c| - 1]) + [KeyOf(table, c[|c| - 1])]
  }

  // The key that c ends in.
  function EndKey(table: seq<Link>, root: string, c: seq<nat>): (k: string) {
    if c == [] then root else KeyOf(table, c[|c| - 1])
  }

  predicate Follows(table: seq<Link>, key: string, r: nat) {
    r < |table| && table[r].parent == Some(key) && table[r].key != None
  }

  predicate Descends(table: seq<Link>, root: string, c: seq<nat>) {
    c != [] ==> Descends(table, root, c[..|c| - 1]) && Follows(table, EndKey(table, root, c[..|c| - 1]), c[|c| - 1])
  }

  // A path downward of at least one row, within the depth if one is given.
  predicate IsChain(table: seq<Link>, root: string, maxDepth: int, c: seq<nat>) {
    c != [] && Descends(table, root, c) && (maxDepth > 0 ==> |c| <= maxDepth)
  }

  // The last key of c is found in the text above it.
  predicate IsCaught(table: seq<Link>, root: string, d: string, c: seq<nat>) {
    c != [] && Caught(Keys(table, root, c[..|c| - 1]), EndKey(table, root, c), d)
  }

  // The last key of c is among those above it.
  predicate IsCyclic(table: seq<Link>, root: string, c: seq<nat>) {
    c != [] && EndKey(table, root, c) in Keys(table, root, c[..|c| - 1])
  }

  // The row of a path: its last key and the key above, its length, and all its keys joined.
  function RowOf(table: seq<Link>, root: string, d: string, c: seq<nat>): (row: OutRow) {
    OutRow(EndKey(table, root, c), if c == [] then None else Some(EndKey(table, root, c[..|c| - 1])),
           |c|, Joined(Keys(table, root, c), d))
  }

  function RowsOf(table: seq<Link>, root: string, d: string, chains: seq<seq<nat>>): (rows: seq<OutRow>) {
    seq(|chains|, i requires 0 <= i < |chains| => RowOf(table, root, d, chains[i]))
  }

  lemma {:induction false} RowsOfJoin(table: seq<Link>, root: string, d: string, a: seq<seq<nat>>, b: seq<seq<nat>>)
    ensures RowsOf(table, root, d, a + b) == RowsOf(table, root, d, a) + RowsOf(table, root, d, b)
  {
  }

  // The chains that go on from prefix with one of the given rows.
  predicate Below(table: seq<Link>, root: string, maxDepth: int, prefix: seq<nat>, next: seq<nat>, c: seq<nat>) {
    IsChain(table, root, maxDepth, c) && |prefix| < |c| && c[..|prefix|] == prefix && c[|prefix|] in next
  }

  predicate Distinct<T(==)>(s: seq<T>) { forall i, j :: 0 <= i < j < |s| ==> s[i] != s[j] }

  // A list of just those chains, each once.
  ghost predicate Lists(table: seq<Link>, root: string, maxDepth: int, prefix: seq<nat>, next: seq<nat>,
                        chains: seq<seq<nat>>) {
    Distinct(chains) && forall c :: c in chains <==> Below(table, root, maxDepth, prefix, next, c)
  }

  lemma {:induction false} DescendsTo(table: seq<Link>, root: string, c: seq<nat>, m: nat)
    requires Descends(table, root, c) && m <= |c|
    ensures Descends(table, root, c[..m]) && (m < |c| ==> Follows(table, EndKey(table, root, c[..m]), c[m]))
    decreases |c| - m
  {
    if m == |c| {
      assert c[..m] == c;
    } else {
      DescendsTo(table, root, c, m + 1);
      assert c[..m + 1][..m] == c[..m];
    }
  }

  // The rows the query for one key gives.
  function Select(table: seq<Link>, key: string): (rows: seq<nat>)
    ensures forall r: nat :: r in rows <==> Follows(table, key, r)
    ensures Distinct(rows)
  {
    SelectFrom(table, key, |table|)
  }

  function SelectFrom(table: seq<Link>, key: string, n: nat): (rows: seq<nat>)
    requires n <= |table|
    ensures forall r: nat :: r in rows <==> r < n && Follows(table, key, r)
    ensures Distinct(rows)
  {
    if n == 0 then []
    else SelectFrom(table, key, n - 1) + (if Follows(table, key, n - 1) then [n - 1] else [])
  }

  // What is below one more row is that row's chain and what is below it.
  lemma {:induction false} BelowOne(table: seq<Link>, root: string, maxDepth: int, prefix: seq<nat>, r: nat, c: seq<nat>)
    requires IsChain(table, root, maxDepth, prefix + [r])
    ensures Below(table, root, maxDepth, prefix, [r], c) <==>
            c == prefix + [r] || Below(table, root, maxDepth, prefix + [r], Select(table, KeyOf(table, r)), c)
  {
    var p := prefix + [r];
    if Below(table, root, maxDepth, prefix, [r], c) {
      assert c[..|p|] == p;
      if |c| > |p| {
        DescendsTo(table, root, c, |p|);
      }
    }
    if |p| < |c| && c[..|p|] == p {
      assert c[..|prefix|] == p[..|prefix|] == prefix;
      assert c[|prefix|] == p[|prefix|] == r;
    }
  }

  lemma {:induction false} ListsMore(table: seq<Link>, root: string, maxDepth: int, prefix: seq<nat>, next: seq<nat>, r: nat,
                  chains: seq<seq<nat>>, sub: seq<seq<nat>>)
    requires Lists(table, root, maxDepth, prefix, next, chains) && r !in next
    requires IsChain(table, root, maxDepth, prefix + [r])
    requires Lists(table, root, maxDepth, prefix + [r], Select(table, KeyOf(table, r)), sub)
    ensures Lists(table, root, maxDepth, prefix, next + [r], chains + [prefix + [r]] + sub)
  {
    var p, all := prefix + [r], chains + [prefix + [r]] + sub;
    forall c ensures c in all <==> Below(table, root, maxDepth, prefix, next + [r], c) {
      BelowOne(table, root, maxDepth, prefix, r, c);
      assert c in all <==> c in chains || c == p || c in sub;
    }
    forall c ensures !(c in chains && (c == p || c in sub)) && !(c == p && c in sub) {
      BelowOne(table, root, maxDepth, prefix, r, c);
    }
    DistinctJoin(chains, [p]);
    DistinctJoin(chains + [p], sub);
  }

  lemma {:induction false} DistinctJoin<T>(a: seq<T>, b: seq<T>)
    requires Distinct(a) && Distinct(b) && forall x :: x in a ==> x !in b
    ensures Distinct(a + b)
  {
    forall i, j | 0 <= i < j < |a + b| ensures (a + b)[i] != (a + b)[j] {
      assert i < |a| <= j ==> a[i] in a && b[j - |a|] in b;
    }
  }

  // ---------------------------------------------------------------- the walk

  class Tuplestore {
    var rows: seq<OutRow>
    constructor ()
      ensures rows == []
    {
      rows := [];
    }
  }

  function AllKeys(table: seq<Link>): (keys: set<string>) { set r | 0 <= r < |table| :: KeyOf(table, r) }

  function KeySet(table: seq<Link>, root: string, c: seq<nat>): (keys: set<string>) {
    set k | k in Keys(table, root, c)
  }

  // The keys that are not yet on the branch: what makes the walk end.
  function Fresh(table: seq<Link>, root: string, c: seq<nat>): (keys: set<string>) {
    AllKeys(table) - KeySet(table, root, c)
  }

  lemma {:induction false} FreshShrinks(table: seq<Link>, root: string, c: seq<nat>, r: nat)
    requires r < |table| && KeyOf(table, r) !in Keys(table, root, c)
    ensures Fresh(table, root, c + [r]) < Fresh(table, root, c)
  {
    assert (c + [r])[..|c|] == c;
    assert KeyOf(table, r) in AllKeys(table);
    assert KeyOf(table, r) in Fresh(table, root, c) && KeyOf(table, r) !in Fresh(table, root, c + [r]);
  }

  ghost predicate NoneCaught(table: seq<Link>, root: string, d: string, chains: seq<seq<nat>>) {
    forall c :: c in chains ==> !IsCaught(table, root, d, c)
  }

  // All chains below prefix have been stored, and none of them was caught.
  ghost predicate Stored(table: seq<Link>, root: string, d: string, maxDepth: int, prefix: seq<nat>,
                         next: seq<nat>, chains: seq<seq<nat>>) {
    Lists(table, root, maxDepth, prefix, next, chains) && NoneCaught(table, root, d, chains)
  }

  ghost predicate IsBad(table: seq<Link>, root: string, d: string, maxDepth: int, c: seq<nat>) {
    IsChain(table, root, maxDepth, c) && IsCaught(table, root, d, c)
  }

  // The arguments of a call belong to the chain `prefix`.
  ghost predicate Called(table: seq<Link>, root: string, d: string, prefix: seq<nat>, startWith: string, branch: string) {
    && Descends(table, root, prefix) && startWith == EndKey(table, root, prefix)
    && branch == Joined(Keys(table, root, prefix), d)
  }

  // build_tuplestore_recursively
  method Build(store: Tuplestore, table: seq<Link>, d: string, startWith: string, branch: string, level0: nat,
               maxDepth: int, ghost root: string, ghost prefix: seq<nat>)
    returns (ok: bool, ghost chains: seq<seq<nat>>, ghost bad: seq<nat>)
    requires Called(table, root, d, prefix, startWith, branch)
    requires level0 == if prefix == [] then 0 else |prefix| + 1
    modifies store
    ensures ok ==> Stored(table, root, d, maxDepth, prefix, Select(table, startWith), chains)
    ensures ok ==> store.rows == old(store.rows) +
                   RowsOf(table, root, d, if prefix == [] && chains != [] then [[]] + chains else chains)
    ensures !ok ==> IsBad(table, root, d, maxDepth, bad)
    decreases Fresh(table, root, prefix), 3
  {
    var level := level0;
    chains, bad, ok := [], [], true;
    if maxDepth > 0 && level > maxDepth {
      NoneBelow(table, root, d, maxDepth, prefix, Select(table, startWith));
      return;
    }
    var rows := Select(table, startWith);
    if rows == [] {
      NoneBelow(table, root, d, maxDepth, prefix, rows);
      return;
    }
    ok, chains, bad := BuildSome(store, table, d, startWith, rows, branch, level, maxDepth, root, prefix);
  }

  // With rows to visit: the row of the root first, if this is the outermost call.
  method BuildSome(store: Tuplestore, table: seq<Link>, d: string, startWith: string, rows: seq<nat>, branch: string, level0: nat,
                   maxDepth: int, ghost root: string, ghost prefix: seq<nat>)
    returns (ok: bool, ghost chains: seq<seq<nat>>, ghost bad: seq<nat>)
    requires Called(table, root, d, prefix, startWith, branch) && rows == Select(table, startWith) && rows != []
    requires level0 == (if prefix == [] then 0 else |prefix| + 1) && (maxDepth > 0 ==> level0 <= maxDepth)
    modifies store
    ensures ok ==> Stored(table, root, d, maxDepth, prefix, rows, chains)
    ensures ok ==> store.rows == old(store.rows) +
                   RowsOf(table, root, d, if prefix == [] && chains != [] then [[]] + chains else chains)
    ensures !ok ==> IsBad(table, root, d, maxDepth, bad)
    decreases Fresh(table, root, prefix), 2
  {
    var level := level0;
    if level == 0 {
      store.rows := store.rows + [OutRow(startWith, None, level, startWith)];
      level := level + 1;
    }
    ok, chains, bad := BuildRows(store, table, d, rows, branch, level, maxDepth, root, prefix);
    if ok && prefix == [] {
      FirstRow(table, root, d, maxDepth, rows, chains);
      RowsAssoc(old(store.rows), [OutRow(startWith, None, 0, startWith)], RowsOf(table, root, d, chains));
    }
  }

  lemma {:induction false} RowsAssoc(a: seq<OutRow>, b: seq<OutRow>, c: seq<OutRow>)
    ensures (a + b) + c == a + (b + c)
  {
  }

  lemma {:induction false} NoneBelow(table: seq<Link>, root: string, d: string, maxDepth: int, prefix: seq<nat>, next: seq<nat>)
    requires next == [] || 0 < maxDepth <= |prefix|
    ensures Stored(table, root, d, maxDepth, prefix, next, []) && RowsOf(table, root, d, []) == []
  {
  }

  // The loop over the rows of the query.
  method BuildRows(store: Tuplestore, table: seq<Link>, d: string, rows: seq<nat>, branch: string, level: nat,
                   maxDepth: int, ghost root: string, ghost prefix: seq<nat>)
    returns (ok: bool, ghost chains: seq<seq<nat>>, ghost bad: seq<nat>)
    requires Called(table, root, d, prefix, EndKey(table, root, prefix), branch)
    requires rows == Select(table, EndKey(table, root, prefix))
    requires level == |prefix| + 1 && (maxDepth > 0 ==> level <= maxDepth)
    modifies store
    ensures ok ==> Stored(table, root, d, maxDepth, prefix, rows, chains)
    ensures ok ==> store.rows == old(store.rows) + RowsOf(table, root, d, chains)
    ensures !ok ==> IsBad(table, root, d, maxDepth, bad)
    decreases Fresh(table, root, prefix), 1
  {
    chains, bad, ok := [], [], true;
    for i := 0 to |rows|
      invariant Stored(table, root, d, maxDepth, prefix, rows[..i], chains)
      invariant ok && store.rows == old(store.rows) + RowsOf(table, root, d, chains)
    {
      ghost var sub;
      NextRow(table, root, d, maxDepth, prefix, EndKey(table, root, prefix), rows, i);
      ok, sub, bad := Visit(store, table, d, rows[i], branch, level, maxDepth, root, prefix);
      if !ok {
        return;
      }
      StoredMore(table, root, d, maxDepth, prefix, rows, i, chains, sub);
      RowsOfJoin(table, root, d, chains, [prefix + [rows[i]]] + sub);
      chains := chains + ([prefix + [rows[i]]] + sub);
    }
    assert rows[..|rows|] == rows;
  }

  // One row of the query: refuse a key that is found above, store, and go down.
  method Visit(store: Tuplestore, table: seq<Link>, d: string, r: nat, branch: string, level: nat,
               maxDepth: int, ghost root: string, ghost prefix: seq<nat>)
    returns (ok: bool, ghost sub: seq<seq<nat>>, ghost bad: seq<nat>)
    requires Called(table, root, d, prefix, EndKey(table, root, prefix), branch)
    requires level == |prefix| + 1 && IsChain(table, root, maxDepth, prefix + [r]) && r < |table|
    modifies store
    ensures ok ==> !IsCaught(table, root, d, prefix + [r])
    ensures ok ==> Stored(table, root, d, maxDepth, prefix + [r], Select(table, KeyOf(table, r)), sub)
    ensures ok ==> store.rows == old(store.rows) + RowsOf(table, root, d, [prefix + [r]] + sub)
    ensures !ok ==> IsBad(table, root, d, maxDepth, bad)
    decreases Fresh(table, root, prefix), 0
  {
    var key := KeyOf(table, r);
    ghost var p := prefix + [r];
    Extended(table, root, d, prefix, r);
    if Contains(d + branch + d, d + key + d) {
      return false, [], p;
    }
    NotOnPath(table, root, d, prefix, r);
    var current := branch + d + key;
    store.rows := store.rows + [OutRow(key, table[r].parent, level, current)];
    ok, sub, bad := Build(store, table, d, key, current, level + 1, maxDepth, root, p);
    RowsOfJoin(table, root, d, [p], sub);
  }

  lemma {:induction false} Extended(table: seq<Link>, root: string, d: string, prefix: seq<nat>, r: nat)
    requires Descends(table, root, prefix + [r]) && r < |table|
    ensures Called(table, root, d, prefix + [r], KeyOf(table, r), Joined(Keys(table, root, prefix), d) + d + KeyOf(table, r))
    ensures Wrapped(Keys(table, root, prefix), d) == d + Joined(Keys(table, root, prefix), d) + d
    ensures RowOf(table, root, d, prefix + [r]) ==
            OutRow(KeyOf(table, r), table[r].parent, |prefix| + 1, Joined(Keys(table, root, prefix), d) + d + KeyOf(table, r))
  {
    var p, path := prefix + [r], Keys(table, root, prefix);
    assert p[..|p| - 1] == prefix;
    assert Keys(table, root, p) == path + [KeyOf(table, r)];
    assert (path + [KeyOf(table, r)])[..|path|] == path;
    WrappedIsJoined(path, d);
  }

  lemma {:induction false} NotOnPath(table: seq<Link>, root: string, d: string, prefix: seq<nat>, r: nat)
    requires r < |table| && !Caught(Keys(table, root, prefix), KeyOf(table, r), d)
    ensures !IsCaught(table, root, d, prefix + [r]) && Fresh(table, root, prefix + [r]) < Fresh(table, root, prefix)
  {
    assert (prefix + [r])[..|prefix|] == prefix;
    if KeyOf(table, r) in Keys(table, root, prefix) {
      OnPathIsCaught(Keys(table, root, prefix), KeyOf(table, r), d);
    }
    FreshShrinks(table, root, prefix, r);
  }

  lemma {:induction false} NextRow(table: seq<Link>, root: string, d: string, maxDepth: int, prefix: seq<nat>, startWith: string,
                rows: seq<nat>, i: nat)
    requires Descends(table, root, prefix) && startWith == EndKey(table, root, prefix)
    requires rows == Select(table, startWith) && i < |rows| && (maxDepth > 0 ==> |prefix| + 1 <= maxDepth)
    ensures rows[i] < |table| && IsChain(table, root, maxDepth, prefix + [rows[i]])
  {
    assert rows[i] in rows;
    assert (prefix + [rows[i]])[..|prefix|] == prefix;
  }

  lemma {:induction false} StoredMore(table: seq<Link>, root: string, d: string, maxDepth: int, prefix: seq<nat>, rows: seq<nat>, i: nat,
                   chains: seq<seq<nat>>, sub: seq<seq<nat>>)
    requires i < |rows| && Distinct(rows) && Stored(table, root, d, maxDepth, prefix, rows[..i], chains)
    requires IsChain(table, root, maxDepth, prefix + [rows[i]]) && !IsCaught(table, root, d, prefix + [rows[i]])
    requires Stored(table, root, d, maxDepth, prefix + [rows[i]], Select(table, KeyOf(table, rows[i])), sub)
    ensures Stored(table, root, d, maxDepth, prefix, rows[..i + 1], chains + ([prefix + [rows[i]]] + sub))
  {
    var r := rows[i];
    ListsMore(table, root, maxDepth, prefix, rows[..i], r, chains, sub);
    assert rows[..i] + [r] == rows[..i + 1];
    assert chains + [prefix + [r]] + sub == chains + ([prefix + [r]] + sub);
  }

  lemma {:induction false} FirstRow(table: seq<Link>, root: string, d: string, maxDepth: int, rows: seq<nat>, chains: seq<seq<nat>>)
    requires rows == Select(table, root) && rows != [] && Lists(table, root, maxDepth, [], rows, chains)
    ensures chains != []
    ensures RowsOf(table, root, d, [[]] + chains) == [OutRow(root, None, 0, root)] + RowsOf(table, root, d, chains)
  {
    RowsOfJoin(table, root, d, [[]], chains);
    assert rows[0] in rows;
    assert [rows[0]][..0] == [];
    assert Descends(table, root, []);
    assert Below(table, root, maxDepth, [], rows, [rows[0]]);
  }

  // ---------------------------------------------------------------- whole queries

  datatype Result = Rows(rows: seq<OutRow>) | InfiniteRecursion

  // The rows are right: one for each path down the table within the depth, and the root before
  // them if there is any.
  ghost predicate OneRowPerPath(table: seq<Link>, root: string, d: string, maxDepth: int, rows: seq<OutRow>,
                                chains: seq<seq<nat>>) {
    && Distinct(chains) && (forall c :: c in chains <==> IsChain(table, root, maxDepth, c))
    && rows == RowsOf(table, root, d, if chains == [] then [] else [[]] + chains)
  }

  lemma {:induction false} AllChains(table: seq<Link>, root: string, maxDepth: int, chains: seq<seq<nat>>)
    requires Lists(table, root, maxDepth, [], Select(table, root), chains)
    ensures forall c :: c in chains <==> IsChain(table, root, maxDepth, c)
  {
    forall c | IsChain(table, root, maxDepth, c) ensures c in chains {
      DescendsTo(table, root, c, 0);
      assert c[..0] == [];
    }
  }

  // connectby ends on every table, for every delimiter and with no bound on the depth; it reports
  // a recursion exactly if the test catches some path, and gives one row per path otherwise.
  method Connectby(table: seq<Link>, root: string, maxDepth: int, d: string) returns (r: Result)
    ensures r.InfiniteRecursion? <==> exists c :: IsBad(table, root, d, maxDepth, c)
    ensures r.Rows? ==> exists chains :: OneRowPerPath(table, root, d, maxDepth, r.rows, chains)
  {
    var store := new Tuplestore();
    assert Keys(table, root, []) == [root];
    var ok, chains, bad := Build(store, table, d, root, root, 0, maxDepth, root, []);
    if !ok {
      assert IsBad(table, root, d, maxDepth, bad);
      return InfiniteRecursion;
    }
    AllChains(table, root, maxDepth, chains);
    assert OneRowPerPath(table, root, d, maxDepth, store.rows, chains);
    return Rows(store.rows);
  }

  // ---------------------------------------------------------------- when the test is right

  predicate CleanTable(table: seq<Link>, root: string, d: string) {
    d != "" && Clean(root, d) && forall r :: 0 <= r < |table| ==> Clean(KeyOf(table, r), d)
  }

  lemma {:induction false} CleanKeys(table: seq<Link>, root: string, d: string, c: seq<nat>)
    requires CleanTable(table, root, d) && Descends(table, root, c)
    ensures AllClean(Keys(table, root, c), d)
  {
    if c != [] {
      CleanKeys(table, root, d, c[..|c| - 1]);
    }
  }

  // With clean keys the test catches exactly the paths that come back to a key above.
  lemma {:induction false} CaughtIsCyclic(table: seq<Link>, root: string, d: string, maxDepth: int, c: seq<nat>)
    requires CleanTable(table, root, d) && IsChain(table, root, maxDepth, c)
    ensures IsCaught(table, root, d, c) <==> IsCyclic(table, root, c)
  {
    var path, k := Keys(table, root, c[..|c| - 1]), EndKey(table, root, c);
    CleanKeys(table, root, d, c[..|c| - 1]);
    if Caught(path, k, d) {
      CaughtIsOnPath(path, k, d);
    }
    if k in path {
      OnPathIsCaught(path, k, d);
    }
  }

  // A key is clean for a one-character delimiter if that character is not in it.
  lemma {:induction false} CleanForOneChar(k: string, x: char)
    ensures Clean(k, [x]) <==> x !in k
  {
    var s := [x] + k + [x];
    if x in k {
      var i :| 0 <= i < |k| && k[i] == x;
      assert s[i + 1] == x;
      assert s[i + 1..i + 2] == [x];
      assert At(s, i + 1, [x]);
    }
    forall o: nat | x !in k && o <= |s| && At(s, o, [x]) ensures o == 0 || o == 1 + |k| {
      assert s[o..o + 1][0] == s[o];
      assert s[o] in k || o == 0 || o == 1 + |k|;
    }
  }

  // A key cut at the delimiter.
  function Cut(k: string, x: char): (path: seq<string>)
    ensures path != [] && Joined(path, [x]) == k
    ensures forall p :: p in path ==> x !in p
  {
    if k == "" then [""]
    else
      var front, c := Cut(k[..|k| - 1], x), k[|k| - 1];
      assert k == k[..|k| - 1] + [c];
      if c == x then
        var path := front + [""];
        assert path[..|path| - 1] == front && path[|path| - 1] == "";
        assert Joined(path, [x]) == Joined(front, [x]) + [x] + "";
        path
      else
        var init, last := front[..|front| - 1], front[|front| - 1];
        var path := init + [last + [c]];
        assert path[..|path| - 1] == init && path[|path| - 1] == last + [c];
        assert |path| > 1 ==> (Joined(init, [x]) + [x] + last) + [c] == Joined(init, [x]) + [x] + (last + [c]);
        assert last in front;
        path
  }

  // For a one-character delimiter, and branches of keys without it, the test of a key is right
  // exactly if the key is without it too.
  lemma {:induction false} TestIsRightExactly(k: string, x: char)
    ensures (forall path: seq<string> :: (forall p :: p in path ==> x !in p) ==> (Caught(path, k, [x]) <==> k in path))
            <==> x !in k
  {
    if x in k {
      var path := Cut(k, x);
      WrappedIsJoined(path, [x]);
      assert At(Wrapped(path, [x]), 0, [x] + k + [x]);
      assert Caught(path, k, [x]) && k !in path;
    } else {
      CleanForOneChar(k, x);
      forall path: seq<string> | forall p :: p in path ==> x !in p ensures Caught(path, k, [x]) <==> k in path {
        forall i | 0 <= i < |path| ensures Clean(path[i], [x]) { CleanForOneChar(path[i], x); }
        if Caught(path, k, [x]) {
          CaughtIsOnPath(path, k, [x]);
        }
        if k in path {
          OnPathIsCaught(path, k, [x]);
        }
      }
    }
  }
}

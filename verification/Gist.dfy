/**
 The part of the GiST access method that both operator classes rely on: any finite tree, of any
 shape, in which every subtree hangs below the key its parent holds for it.  A search descends
 only where `consistent` accepts that key.
 */
module Gist {

  datatype Tree<K, R> = Leaf(key: K, row: R) | Inner(key: K, kids: seq<Tree<K, R>>)

  function Rows<K, R>(forest: seq<Tree<K, R>>): (rows: seq<R>)
    decreases forest, 1
  {
    if forest == [] then [] else Below(forest[0]) + Rows(forest[1..])
  }

  function Below<K, R>(t: Tree<K, R>): (rows: seq<R>)
    decreases t, 0
  {
    if t.Leaf? then [t.row] else Rows(t.kids)
  }

  // The search of a page; `consistent` also learns whether the page is a leaf page.
  function Search<K, R>(forest: seq<Tree<K, R>>, consistent: (K, bool) -> bool): (rows: seq<R>)
    decreases forest, 1
  {
    if forest == [] then [] else Found(forest[0], consistent) + Search(forest[1..], consistent)
  }

  function Found<K, R>(t: Tree<K, R>, consistent: (K, bool) -> bool): (rows: seq<R>)
    decreases t, 0
  {
    if !consistent(t.key, t.Leaf?) then []
    else if t.Leaf? then [t.row]
    else Search(t.kids, consistent)
  }

  // A sequential scan that keeps the rows satisfying the operator.
  function Scan<R>(rows: seq<R>, op: R -> bool): (r: seq<R>) {
    if rows == [] then [] else (if op(rows[0]) then [rows[0]] else []) + Scan(rows[1..], op)
  }

  // Some subtree is pruned although a row below it satisfies the operator.
  ghost predicate Blocked<K, R>(forest: seq<Tree<K, R>>, consistent: (K, bool) -> bool, op: R -> bool) {
    exists t :: t in forest &&
      ((!consistent(t.key, t.Leaf?) && Some(Below(t), op)) || (t.Inner? && Blocked(t.kids, consistent, op)))
  }

  ghost predicate Some<R>(rows: seq<R>, op: R -> bool) { exists r :: r in rows && op(r) }

  lemma {:induction false} ScanConcat<R>(a: seq<R>, b: seq<R>, op: R -> bool)
    ensures Scan(a + b, op) == Scan(a, op) + Scan(b, op)
  {
    if a == [] {
      assert a + b == b;
    } else {
      assert (a + b)[1..] == a[1..] + b && (a + b)[0] == a[0];
      ScanConcat(a[1..], b, op);
      var first := if op(a[0]) then [a[0]] else [];
      calc {
        Scan(a + b, op);
        first + Scan(a[1..] + b, op);
        first + (Scan(a[1..], op) + Scan(b, op));
        (first + Scan(a[1..], op)) + Scan(b, op);
        Scan(a, op) + Scan(b, op);
      }
    }
  }

  lemma {:induction false} ScanSome<R>(rows: seq<R>, op: R -> bool)
    ensures Scan(rows, op) == [] <==> !Some(rows, op)
  {
    if rows != [] {
      ScanSome(rows[1..], op);
      assert forall r :: r in rows <==> r == rows[0] || r in rows[1..];
    }
  }

  // Pruning loses rows exactly when a subtree is blocked.
  lemma {:induction false} PruningLoses<K, R>(forest: seq<Tree<K, R>>, consistent: (K, bool) -> bool, op: R -> bool)
    ensures Blocked(forest, consistent, op) ==> |Scan(Search(forest, consistent), op)| < |Scan(Rows(forest), op)|
    ensures !Blocked(forest, consistent, op) ==> Scan(Search(forest, consistent), op) == Scan(Rows(forest), op)
    decreases forest, 1
  {
    if forest != [] {
      var t, rest := forest[0], forest[1..];
      PruningLosesBelow(t, consistent, op);
      PruningLoses(rest, consistent, op);
      ScanConcat(Found(t, consistent), Search(rest, consistent), op);
      ScanConcat(Below(t), Rows(rest), op);
      BlockedFirst(forest, consistent, op);
    }
  }

  ghost predicate BlockedAt<K, R>(t: Tree<K, R>, consistent: (K, bool) -> bool, op: R -> bool) {
    (!consistent(t.key, t.Leaf?) && Some(Below(t), op)) || (t.Inner? && Blocked(t.kids, consistent, op))
  }

  lemma {:induction false} BlockedFirst<K, R>(forest: seq<Tree<K, R>>, consistent: (K, bool) -> bool, op: R -> bool)
    requires forest != []
    ensures Blocked(forest, consistent, op) <==>
            BlockedAt(forest[0], consistent, op) || Blocked(forest[1..], consistent, op)
  {
    assert forall u :: u in forest <==> u == forest[0] || u in forest[1..];
  }

  lemma {:induction false} PruningLosesBelow<K, R>(t: Tree<K, R>, consistent: (K, bool) -> bool, op: R -> bool)
    ensures var blocked := BlockedAt(t, consistent, op);
            && (blocked ==> |Scan(Found(t, consistent), op)| < |Scan(Below(t), op)|)
            && (!blocked ==> Scan(Found(t, consistent), op) == Scan(Below(t), op))
    decreases t, 0
  {
    ScanSome(Below(t), op);
    if t.Inner? { PruningLoses(t.kids, consistent, op); }
  }

  // An index search, rechecked with the operator, returns what a sequential scan returns, in the
  // same order, exactly when nothing is blocked.
  lemma {:induction false} SearchIsScanExactly<K, R>(forest: seq<Tree<K, R>>, consistent: (K, bool) -> bool, op: R -> bool)
    ensures Scan(Search(forest, consistent), op) == Scan(Rows(forest), op) <==> !Blocked(forest, consistent, op)
  {
    PruningLoses(forest, consistent, op);
  }

  // Every key in the forest speaks for all rows below it, in the sense of `covers`.
  ghost predicate Keyed<K, R>(forest: seq<Tree<K, R>>, covers: (K, bool, R) -> bool) {
    forall t :: t in forest ==>
      && (forall r :: r in Below(t) ==> covers(t.key, t.Leaf?, r))
      && (t.Inner? ==> Keyed(t.kids, covers))
  }

  lemma {:induction false} KeyedIsNotBlocked<K(!new), R(!new)>(forest: seq<Tree<K, R>>, covers: (K, bool, R) -> bool,
                                                   consistent: (K, bool) -> bool, op: R -> bool)
    requires Keyed(forest, covers)
    requires forall k, leaf, r :: covers(k, leaf, r) && op(r) ==> consistent(k, leaf)
    ensures !Blocked(forest, consistent, op)
    decreases forest
  {
    forall t | t in forest
      ensures !(!consistent(t.key, t.Leaf?) && Some(Below(t), op)) && !(t.Inner? && Blocked(t.kids, consistent, op))
    {
      if t.Inner? { KeyedIsNotBlocked(t.kids, covers, consistent, op); }
    }
  }

  // If the check on a leaf page is the operator itself, the rows found need no recheck.
  lemma {:induction false} NoRecheck<K(!new), R(!new)>(forest: seq<Tree<K, R>>, covers: (K, bool, R) -> bool,
                                           consistent: (K, bool) -> bool, op: R -> bool)
    requires Keyed(forest, covers)
    requires forall k, r :: covers(k, true, r) && consistent(k, true) ==> op(r)
    ensures Scan(Search(forest, consistent), op) == Search(forest, consistent)
    decreases forest
  {
    if forest != [] {
      var t := forest[0];
      assert t in forest;
      if t.Inner? {
        NoRecheck(t.kids, covers, consistent, op);
      } else {
        assert t.row in Below(t);
      }
      assert Scan(Found(t, consistent), op) == Found(t, consistent);
      NoRecheck(forest[1..], covers, consistent, op);
      ScanConcat(Found(t, consistent), Search(forest[1..], consistent), op);
    }
  }

  // The two together: the search alone is the sequential scan.
  lemma {:induction false} SearchIsScan<K(!new), R(!new)>(forest: seq<Tree<K, R>>, covers: (K, bool, R) -> bool,
                                       consistent: (K, bool) -> bool, op: R -> bool)
    requires Keyed(forest, covers)
    requires forall k, leaf, r :: covers(k, leaf, r) && op(r) ==> consistent(k, leaf)
    requires forall k, r :: covers(k, true, r) && consistent(k, true) ==> op(r)
    ensures Search(forest, consistent) == Scan(Rows(forest), op)
  {
    KeyedIsNotBlocked(forest, covers, consistent, op);
    SearchIsScanExactly(forest, consistent, op);
    NoRecheck(forest, covers, consistent, op);
  }

  // Scans by a weaker and a stronger operator agree exactly if no row tells the two apart.
  lemma {:induction false} SameScanExactly<R>(rows: seq<R>, weak: R -> bool, strong: R -> bool)
    requires forall r :: r in rows && strong(r) ==> weak(r)
    ensures |Scan(rows, strong)| <= |Scan(rows, weak)|
    ensures Scan(rows, weak) == Scan(rows, strong) <==> forall r :: r in rows && weak(r) ==> strong(r)
    ensures (exists r :: r in rows && weak(r) && !strong(r)) ==> |Scan(rows, strong)| < |Scan(rows, weak)|
  {
    if rows != [] {
      SameScanExactly(rows[1..], weak, strong);
      assert forall r :: r in rows <==> r == rows[0] || r in rows[1..];
    }
  }

  lemma {:induction false} RowHasTree<K, R>(kids: seq<Tree<K, R>>, r: R) returns (t: Tree<K, R>)
    requires r in Rows(kids)
    ensures t in kids && r in Below(t)
  {
    if r in Below(kids[0]) {
      t := kids[0];
    } else {
      t := RowHasTree(kids[1..], r);
    }
  }

  lemma {:induction false} RowOfTree<K, R>(forest: seq<Tree<K, R>>, t: Tree<K, R>, r: R)
    requires t in forest && r in Below(t)
    ensures r in Rows(forest)
  {
    if t != forest[0] { RowOfTree(forest[1..], t, r); }
  }
}

/**
 The GiST operator class for label paths (contrib/ltree/ltree_gist.c).  An internal key holds the
 least and the greatest path below it and a signature of the labels that occur there; search
 prunes by the order, by truncated comparisons and by the signature.
 */
module LtreeGist {
  import opened LtreeOrder
  import opened LqueryOp
  import BQ = BoolQuery
  import Gist

  const SIGLENBIT: nat := 256

  // The checksum of the lower-cased label, for any checksum function.
  type Crc = Label -> nat

  function HashVal(crc: Crc, l: Label): (i: nat)
    ensures i < SIGLENBIT
  {
    crc(Lower(l)) % SIGLENBIT
  }

  // LTG_ONENODE on leaves, otherwise bounds and signature.  With LTG_NORIGHT the two bounds are
  // the same path.
  datatype RawKey = One(node: Path) | Span(alltrue: bool, sign: seq<bool>, left: Path, right: Path)

  type GKey = k: RawKey | k.Span? ==> |k.sign| == SIGLENBIT witness One([])

  function LeftNode(k: GKey): (p: Path) { if k.One? then k.node else k.left }

  function RightNode(k: GKey): (p: Path) { if k.One? then k.node else k.right }

  // The signature of the key admits the label.
  predicate Admits(crc: Crc, k: GKey, l: Label)
    requires k.Span?
  {
    k.alltrue || k.sign[HashVal(crc, l)]
  }

  // The key speaks for the labels of the row ...
  ghost predicate Signs(crc: Crc, k: GKey, row: Path) {
    if k.One? then k.node == row else forall l :: l in row ==> Admits(crc, k, l)
  }

  // ... and for its place in the order.
  ghost predicate Bounds(k: GKey, row: Path) {
    PathOrd(LeftNode(k), row) <= 0 && PathOrd(row, RightNode(k)) <= 0
  }

  ghost predicate Within(known: set<Path>, k: GKey) { LeftNode(k) in known && RightNode(k) in known }

  // ---------------------------------------------------------------- signatures

  // hashing: set the bit of every label.
  method Hashing(crc: Crc, sign: array<bool>, t: Path)
    requires sign.Length == SIGLENBIT
    modifies sign
    ensures forall i :: 0 <= i < SIGLENBIT && old(sign[i]) ==> sign[i]
    ensures forall l :: l in t ==> sign[HashVal(crc, l)]
  {
    for k := 0 to |t|
      invariant forall i :: 0 <= i < SIGLENBIT && old(sign[i]) ==> sign[i]
      invariant forall j :: 0 <= j < k ==> sign[HashVal(crc, t[j])]
    {
      sign[HashVal(crc, t[k])] := true;
    }
  }

  method OrSign(base: array<bool>, sc: seq<bool>)
    requires base.Length == SIGLENBIT == |sc|
    modifies base
    ensures forall i :: 0 <= i < SIGLENBIT ==> base[i] == (old(base[i]) || sc[i])
  {
    for i := 0 to SIGLENBIT
      invariant forall j :: 0 <= j < i ==> base[j] == (old(base[j]) || sc[j])
      invariant forall j :: i <= j < SIGLENBIT ==> base[j] == old(base[j])
    {
      base[i] := base[i] || sc[i];
    }
  }

  method AllSet(base: array<bool>) returns (r: bool)
    requires base.Length == SIGLENBIT
    ensures r <==> forall i :: 0 <= i < SIGLENBIT ==> base[i]
  {
    for i := 0 to SIGLENBIT
      invariant forall j :: 0 <= j < i ==> base[j]
    {
      if !base[i] {
        return false;
      }
    }
    return true;
  }

  // Everything the signature part of e admits is admitted by the bits, or everything is.
  ghost predicate Absorbed(crc: Crc, bits: seq<bool>, all: bool, e: GKey)
    requires |bits| == SIGLENBIT
  {
    all || if e.One? then forall l :: l in e.node ==> bits[HashVal(crc, l)]
           else !e.alltrue && forall i :: 0 <= i < SIGLENBIT && e.sign[i] ==> bits[i]
  }

  ghost predicate Grows(a: seq<bool>, all: bool, b: seq<bool>, all1: bool) {
    |a| == |b| == SIGLENBIT && (all ==> all1) && forall i :: 0 <= i < SIGLENBIT && a[i] ==> b[i]
  }

  // Add the signature of one entry.
  method AddSign(crc: Crc, base: array<bool>, all: bool, e: GKey) returns (all1: bool)
    requires base.Length == SIGLENBIT
    modifies base
    ensures Grows(old(base[..]), all, base[..], all1)
    ensures Absorbed(crc, base[..], all1, e)
  {
    all1 := all;
    if e.One? {
      Hashing(crc, base, e.node);
    } else if all || e.alltrue {
      all1 := true;
    } else {
      OrSign(base, e.sign);
    }
  }

  lemma {:induction false} GrowsKeepsAbsorbed(crc: Crc, a: seq<bool>, all: bool, b: seq<bool>, all1: bool, e: GKey)
    requires |a| == SIGLENBIT && Absorbed(crc, a, all, e) && Grows(a, all, b, all1)
    ensures Absorbed(crc, b, all1, e)
  {
  }

  // ---------------------------------------------------------------- union

  // Bounds and signature collected from the entries so far.
  datatype Acc = Acc(all: bool, left: Path, right: Path)

  ghost predicate Widens(left: Path, right: Path, e: GKey) {
    PathOrd(left, LeftNode(e)) <= 0 && PathOrd(RightNode(e), right) <= 0
  }

  ghost predicate Collected(crc: Crc, known: set<Path>, entries: seq<GKey>, bits: seq<bool>, acc: Acc) {
    && |bits| == SIGLENBIT
    && (entries != [] ==> acc.left in known && acc.right in known)
    && forall e :: e in entries ==>
         && Absorbed(crc, bits, acc.all, e)
         && (Tame(known) ==> Widens(acc.left, acc.right, e))
  }

  function Widened(first: bool, acc: Acc, e: GKey): (r: Acc) {
    Acc(acc.all,
        if first || Compare(acc.left, LeftNode(e)) > 0 then LeftNode(e) else acc.left,
        if first || Compare(acc.right, RightNode(e)) < 0 then RightNode(e) else acc.right)
  }

  // The bounds the union loop ends with, whether or not the comparisons overflow.
  function Widest(entries: seq<GKey>): (r: Acc) {
    if entries == [] then Acc(false, [], [])
    else Widened(|entries| == 1, Widest(entries[..|entries| - 1]), entries[|entries| - 1])
  }

  lemma {:induction false} WidenedBounds(known: set<Path>, acc: Acc, e: GKey, f: GKey, first: bool)
    requires Tame(known) && Within(known, e) && (!first ==> acc.left in known && acc.right in known)
    ensures var r := Widened(first, acc, e);
            && Widens(r.left, r.right, e)
            && (!first && Widens(acc.left, acc.right, f) ==> Widens(r.left, r.right, f))
  {
    PathOrdIsTotal(LeftNode(e), LeftNode(e));
    PathOrdIsTotal(RightNode(e), RightNode(e));
    if !first {
      TameCompare(known, acc.left, LeftNode(e));
      TameCompare(known, acc.right, RightNode(e));
      PathOrdIsTotal(acc.left, LeftNode(e));
      PathOrdIsTotal(acc.right, RightNode(e));
      var r := Widened(first, acc, e);
      PathOrdIsTotal(r.left, acc.left);
      PathOrdIsTotal(r.right, acc.right);
      if Widens(acc.left, acc.right, f) {
        PathOrdIsTransitive(r.left, acc.left, LeftNode(f));
        PathOrdIsTransitive(RightNode(f), acc.right, r.right);
      }
    }
  }

  lemma {:induction false} CollectMore(crc: Crc, known: set<Path>, entries: seq<GKey>, a: seq<bool>, acc: Acc, e: GKey,
                                       b: seq<bool>, all1: bool)
    requires Collected(crc, known, entries, a, acc) && Within(known, e)
    requires Grows(a, acc.all, b, all1) && Absorbed(crc, b, all1, e)
    ensures Collected(crc, known, entries + [e], b, Widened(entries == [], acc, e).(all := all1))
  {
    var r := Widened(entries == [], acc, e);
    if Tame(known) { WidenedBounds(known, acc, e, e, entries == []); }
    forall f | f in entries + [e]
      ensures Absorbed(crc, b, all1, f) && (Tame(known) ==> Widens(r.left, r.right, f))
    {
      if f in entries {
        if Tame(known) { WidenedBounds(known, acc, e, f, false); }
        GrowsKeepsAbsorbed(crc, a, acc.all, b, all1, f);
      }
    }
  }

  // One turn of the union loop.
  method Collect(crc: Crc, ghost known: set<Path>, ghost entries: seq<GKey>, first: bool, base: array<bool>, acc: Acc, e: GKey)
    returns (r: Acc)
    requires base.Length == SIGLENBIT && Collected(crc, known, entries, base[..], acc)
    requires Within(known, e) && first == (entries == [])
    modifies base
    ensures Collected(crc, known, entries + [e], base[..], r)
    ensures r == Widened(first, acc, e).(all := r.all)
  {
    ghost var a := base[..];
    var all1 := AddSign(crc, base, acc.all, e);
    var cl, cr := 0, 0;
    if !first {
      cl := LtreeCompare(acc.left, LeftNode(e));
      cr := LtreeCompare(acc.right, RightNode(e));
    }
    r := Acc(all1, if first || cl > 0 then LeftNode(e) else acc.left, if first || cr < 0 then RightNode(e) else acc.right);
    CollectMore(crc, known, entries, a, acc, e, base[..], all1);
  }

  // A key that speaks for everything the entries speak for.  `known` holds all paths that occur as
  // bounds; the order part needs them to be comparable, the labels do not.
  ghost predicate Spans(crc: Crc, known: set<Path>, entries: seq<GKey>, k: GKey) {
    && k.Span? && Within(known, k)
    && forall e, row :: e in entries && Signs(crc, e, row) ==>
         Signs(crc, k, row) && (Tame(known) && Bounds(e, row) ==> Bounds(k, row))
  }

  // The key made from what was collected.
  method MakeKey(crc: Crc, ghost known: set<Path>, ghost entries: seq<GKey>, base: array<bool>, acc: Acc) returns (k: GKey)
    requires base.Length == SIGLENBIT && entries != [] && Collected(crc, known, entries, base[..], acc)
    ensures Spans(crc, known, entries, k)
    ensures k.left == acc.left && (IsPath(acc.left) && IsPath(acc.right) ==> k.right == acc.right)
  {
    var isalltrue := acc.all;
    if !isalltrue {
      isalltrue := AllSet(base);
    }
    var c := LtreeCompare(acc.left, acc.right);
    var isleqr := |acc.left| == |acc.right| && c == 0;
    if IsPath(acc.left) && IsPath(acc.right) {
      CompareIsOrdExactly(acc.left, acc.right);
      PathOrdIsTotal(acc.left, acc.right);
    }
    k := Span(isalltrue, base[..], acc.left, if isleqr then acc.left else acc.right);
    forall e, row | e in entries && Signs(crc, e, row)
      ensures Signs(crc, k, row) && (Tame(known) && Bounds(e, row) ==> Bounds(k, row))
    {
      KeySigns(crc, base[..], acc, k, e, row);
      if Tame(known) && Bounds(e, row) {
        TameCompare(known, acc.left, acc.right);
        KeyBounds(k, e, row);
      }
    }
  }

  lemma {:induction false} KeySigns(crc: Crc, bits: seq<bool>, acc: Acc, k: GKey, e: GKey, row: Path)
    requires |bits| == SIGLENBIT && k.Span? && k.sign == bits && (acc.all ==> k.alltrue)
    requires Absorbed(crc, bits, acc.all, e) && Signs(crc, e, row)
    ensures Signs(crc, k, row)
  {
    if e.Span? {
      forall l | l in row ensures Admits(crc, k, l) { assert Admits(crc, e, l); }
    }
  }

  lemma {:induction false} KeyBounds(k: GKey, e: GKey, row: Path)
    requires k.Span? && Widens(k.left, k.right, e) && Bounds(e, row)
    ensures Bounds(k, row)
  {
    PathOrdIsTransitive(k.left, LeftNode(e), row);
    PathOrdIsTransitive(row, RightNode(e), k.right);
  }

  // What ltree_union makes of the entries of a page.
  ghost predicate UnionOf(crc: Crc, known: set<Path>, entries: seq<GKey>, k: GKey) {
    && Spans(crc, known, entries, k)
    && k.left == Widest(entries).left
    && (IsPath(k.left) && IsPath(Widest(entries).right) ==> k.right == Widest(entries).right)
  }

  // ltree_union
  method Union(crc: Crc, ghost known: set<Path>, entries: seq<GKey>) returns (k: GKey)
    requires entries != [] && forall e :: e in entries ==> Within(known, e)
    ensures UnionOf(crc, known, entries, k)
  {
    var base := new bool[SIGLENBIT](i => false);
    var acc := Acc(false, [], []);
    for j := 0 to |entries|
      invariant Gathered(crc, known, entries[..j], base[..], acc)
    {
      acc := CollectNext(crc, known, entries, j, base, acc);
    }
    assert entries[..|entries|] == entries;
    k := MakeKey(crc, known, entries, base, acc);
  }

  // Collected, with the bounds the comparisons select.
  ghost predicate Gathered(crc: Crc, known: set<Path>, entries: seq<GKey>, bits: seq<bool>, acc: Acc) {
    Collected(crc, known, entries, bits, acc) && acc.left == Widest(entries).left && acc.right == Widest(entries).right
  }

  lemma {:induction false} WidestNext(entries: seq<GKey>, j: nat)
    requires j < |entries|
    ensures entries[..j + 1] == entries[..j] + [entries[j]]
    ensures Widest(entries[..j + 1]) == Widened(j == 0, Widest(entries[..j]), entries[j])
  {
    assert entries[..j + 1][..j] == entries[..j];
  }

  method CollectNext(crc: Crc, ghost known: set<Path>, entries: seq<GKey>, j: nat, base: array<bool>, acc: Acc) returns (r: Acc)
    requires base.Length == SIGLENBIT && j < |entries| && Within(known, entries[j])
    requires Gathered(crc, known, entries[..j], base[..], acc)
    modifies base
    ensures Gathered(crc, known, entries[..j + 1], base[..], r)
  {
    r := Collect(crc, known, entries[..j], j == 0, base, acc, entries[j]);
    WidestNext(entries, j);
  }

  // ---------------------------------------------------------------- page split

  // A permutation of the offsets 1, 2, ...
  ghost predicate Offsets(entries: seq<GKey>, order: seq<nat>) {
    && |order| == |entries| - 1
    && (forall i :: 0 <= i < |order| ==> 1 <= order[i] < |entries|)
    && forall i, j :: 0 <= i < j < |order| ==> order[i] != order[j]
  }

  ghost function EntriesAt(entries: seq<GKey>, offs: seq<nat>): (r: seq<GKey>)
    requires forall i :: 0 <= i < |offs| ==> offs[i] < |entries|
    ensures |r| == |offs|
  {
    seq(|offs|, i requires 0 <= i < |offs| => entries[offs[i]])
  }

  // Add an entry to one side; entries come in the order of their left bounds.
  method PlaceEntry(crc: Crc, ghost known: set<Path>, ghost side: seq<GKey>, first: bool, base: array<bool>, acc: Acc, e: GKey)
    returns (r: Acc)
    requires base.Length == SIGLENBIT && Collected(crc, known, side, base[..], acc)
    requires Within(known, e) && first == (side == [])
    requires Tame(known) && !first ==> PathOrd(acc.left, LeftNode(e)) <= 0
    modifies base
    ensures Collected(crc, known, side + [e], base[..], r)
    ensures r.left == if first then LeftNode(e) else acc.left
  {
    ghost var a := base[..];
    var cr := 0;
    if !first {
      cr := LtreeCompare(RightNode(e), acc.right);
    }
    var right := if first || cr > 0 then RightNode(e) else acc.right;
    var all1 := AddSign(crc, base, acc.all, e);
    r := Acc(all1, if first then LeftNode(e) else acc.left, right);
    PlacedIsCollected(crc, known, side, a, acc, e, base[..], r);
  }

  lemma {:induction false} PlacedIsCollected(crc: Crc, known: set<Path>, side: seq<GKey>, a: seq<bool>, acc: Acc, e: GKey,
                                             b: seq<bool>, r: Acc)
    requires Collected(crc, known, side, a, acc) && Within(known, e)
    requires Tame(known) && side != [] ==> PathOrd(acc.left, LeftNode(e)) <= 0
    requires Grows(a, acc.all, b, r.all) && Absorbed(crc, b, r.all, e)
    requires r.left == if side == [] then LeftNode(e) else acc.left
    requires r.right == if side == [] || Compare(RightNode(e), acc.right) > 0 then RightNode(e) else acc.right
    ensures Collected(crc, known, side + [e], b, r)
  {
    CollectMore(crc, known, side, a, acc, e, b, r.all);
    if Tame(known) && side != [] {
      TameCompare(known, RightNode(e), acc.right);
      TameCompare(known, acc.right, RightNode(e));
      TameCompare(known, acc.left, LeftNode(e));
      PathOrdIsTotal(RightNode(e), acc.right);
    } else {
      CollectLabels(crc, known, side, a, acc, e, b, r);
    }
  }

  lemma {:induction false} CollectLabels(crc: Crc, known: set<Path>, side: seq<GKey>, a: seq<bool>, acc: Acc, e: GKey,
                                         b: seq<bool>, r: Acc)
    requires Collected(crc, known, side, a, acc) && Within(known, e) && (side == [] || !Tame(known))
    requires Grows(a, acc.all, b, r.all) && Absorbed(crc, b, r.all, e)
    requires r.left == if side == [] then LeftNode(e) else acc.left
    requires r.right in {RightNode(e), acc.right} && (side == [] ==> r.right == RightNode(e))
    ensures Collected(crc, known, side + [e], b, r)
  {
    PathOrdIsTotal(LeftNode(e), LeftNode(e));
    PathOrdIsTotal(RightNode(e), RightNode(e));
    forall f | f in side + [e] ensures Absorbed(crc, b, r.all, f) && (Tame(known) ==> Widens(r.left, r.right, f)) {
      if f in side { GrowsKeepsAbsorbed(crc, a, acc.all, b, r.all, f); }
    }
  }

  ghost predicate Ascending(entries: seq<GKey>, order: seq<nat>)
    requires forall i :: 0 <= i < |order| ==> order[i] < |entries|
  {
    forall i, j :: 0 <= i < j < |order| ==> Compare(LeftNode(entries[order[i]]), LeftNode(entries[order[j]])) <= 0
  }

  // What sorting the offsets by left bound gives: a permutation, and ascending as long as the
  // comparisons are those of an order.
  ghost predicate SortedOffsets(known: set<Path>, entries: seq<GKey>, order: seq<nat>) {
    && Offsets(entries, order)
    && (forall i :: 0 <= i < |entries| ==> Within(known, entries[i]))
    && (Tame(known) ==> Ascending(entries, order))
  }

  // One side of the split: the n offsets from place lo of the order on.
  datatype Side = Side(offs: seq<nat>, acc: Acc)

  ghost predicate SideOk(crc: Crc, known: set<Path>, entries: seq<GKey>, order: seq<nat>, lo: nat, n: nat, side: Side, bits: seq<bool>)
    requires Offsets(entries, order)
  {
    && lo + n <= |order| && side.offs == order[lo..lo + n]
    && Collected(crc, known, EntriesAt(entries, side.offs), bits, side.acc)
    && (0 < n ==> side.acc.left == LeftNode(entries[order[lo]]))
  }

  method PlaceNext(crc: Crc, ghost known: set<Path>, entries: seq<GKey>, order: seq<nat>, lo: nat, n: nat, base: array<bool>, side: Side)
    returns (r: Side)
    requires SortedOffsets(known, entries, order)
    requires base.Length == SIGLENBIT && lo + n < |order| && SideOk(crc, known, entries, order, lo, n, side, base[..])
    modifies base
    ensures SideOk(crc, known, entries, order, lo, n + 1, r, base[..])
  {
    var o := order[lo + n];
    InOrder(known, entries, order, lo, lo + n);
    NextOffset(entries, order, lo, n);
    var acc := PlaceEntry(crc, known, EntriesAt(entries, side.offs), n == 0, base, side.acc, entries[o]);
    r := Side(side.offs + [o], acc);
  }

  lemma {:induction false} NextOffset(entries: seq<GKey>, order: seq<nat>, lo: nat, n: nat)
    requires Offsets(entries, order) && lo + n < |order|
    ensures order[lo..lo + n + 1] == order[lo..lo + n] + [order[lo + n]]
    ensures EntriesAt(entries, order[lo..lo + n + 1]) == EntriesAt(entries, order[lo..lo + n]) + [entries[order[lo + n]]]
  {
  }

  // ltree_picksplit.  Offset 0 is unused; `order` is the result of sorting the offsets by left
  // bound.  The first half goes to the left page, the rest to the right page.
  method PickSplit(crc: Crc, ghost known: set<Path>, entries: seq<GKey>, order: seq<nat>)
    returns (left: seq<nat>, right: seq<nat>, lu: GKey, ru: GKey)
    requires |entries| >= 3 && SortedOffsets(known, entries, order)
    ensures left + right == order && left != [] && right != []
    ensures (forall i :: 0 <= i < |left| ==> left[i] < |entries|) && Spans(crc, known, EntriesAt(entries, left), lu)
    ensures (forall i :: 0 <= i < |right| ==> right[i] < |entries|) && Spans(crc, known, EntriesAt(entries, right), ru)
  {
    var ls := new bool[SIGLENBIT](i => false);
    var rs := new bool[SIGLENBIT](i => false);
    var half := |order| / 2;
    var l, r := Distribute(crc, known, entries, order, half, ls, rs);
    lu := MakeKey(crc, known, EntriesAt(entries, l.offs), ls, l.acc);
    ru := MakeKey(crc, known, EntriesAt(entries, r.offs), rs, r.acc);
    left, right := l.offs, r.offs;
    Halves(order, half);
  }

  lemma {:induction false} Halves(order: seq<nat>, half: nat)
    requires half <= |order|
    ensures order[0..half] + order[half..half + (|order| - half)] == order
  {
  }

  // The loop over the sorted offsets.
  method Distribute(crc: Crc, ghost known: set<Path>, entries: seq<GKey>, order: seq<nat>, half: nat, ls: array<bool>, rs: array<bool>)
    returns (l: Side, r: Side)
    requires SortedOffsets(known, entries, order)
    requires half <= |order| && ls.Length == rs.Length == SIGLENBIT && ls != rs
    modifies ls, rs
    ensures SideOk(crc, known, entries, order, 0, half, l, ls[..])
    ensures SideOk(crc, known, entries, order, half, |order| - half, r, rs[..])
  {
    l, r := Side([], Acc(false, [], [])), Side([], Acc(false, [], []));
    for j := 0 to |order|
      invariant SideOk(crc, known, entries, order, 0, if j < half then j else half, l, ls[..])
      invariant SideOk(crc, known, entries, order, half, if j < half then 0 else j - half, r, rs[..])
    {
      if j + 1 <= half {
        l := PlaceNext(crc, known, entries, order, 0, j, ls, l);
      } else {
        r := PlaceNext(crc, known, entries, order, half, j - half, rs, r);
      }
    }
  }

  lemma {:induction false} InOrder(known: set<Path>, entries: seq<GKey>, order: seq<nat>, i: nat, j: nat)
    requires SortedOffsets(known, entries, order) && j < |order|
    ensures Tame(known) && i < j ==> PathOrd(LeftNode(entries[order[i]]), LeftNode(entries[order[j]])) <= 0
  {
    if Tame(known) && i < j {
      assert Within(known, entries[order[i]]) && Within(known, entries[order[j]]);
      TameCompare(known, LeftNode(entries[order[i]]), LeftNode(entries[order[j]]));
    }
  }

  // ---------------------------------------------------------------- pruning by truncated comparison

  // A path in memory: its level count can be overwritten, the levels behind it stay.
  class Ltree {
    const levels: Path
    var numlevel: nat

    constructor (levels: Path)
      ensures this.levels == levels && numlevel == |levels|
    {
      this.levels := levels;
      this.numlevel := |levels|;
    }

    predicate Whole()
      reads this
    {
      numlevel == |levels|
    }

    function View(): (p: Path)
      reads this
    {
      Cut(levels, numlevel)
    }
  }

  // Some ancestor-or-self of q lies between the bounds.
  predicate AncestorBetween(left: Path, right: Path, q: Path) {
    exists i :: 0 <= i <= |q| && Compare(q[..i], left) >= 0 && Compare(q[..i], right) <= 0
  }

  // gist_isparent: tries every truncation of the query in place, and restores it.
  method GistIsParent(left: Path, right: Path, query: Ltree) returns (r: bool)
    requires query.Whole()
    modifies query
    ensures query.Whole()
    ensures r == AncestorBetween(left, right, query.levels)
  {
    var numlevel := query.numlevel;
    var i := query.numlevel;
    while i >= 0
      invariant -1 <= i <= |query.levels| && numlevel == |query.levels|
      invariant forall k :: i < k <= |query.levels| ==> !(Compare(query.levels[..k], left) >= 0 && Compare(query.levels[..k], right) <= 0)
    {
      query.numlevel := i;
      assert query.View() == query.levels[..i];
      var c := LtreeCompare(query.View(), left);
      if c >= 0 {
        c := LtreeCompare(query.View(), right);
        if c <= 0 {
          query.numlevel := numlevel;
          return true;
        }
      }
      i := i - 1;
    }
    query.numlevel := numlevel;
    return false;
  }

  // The bounds cut to the depth of q enclose q.
  predicate DescendantBetween(left: Path, right: Path, q: Path) {
    Compare(q, Cut(left, |q|)) >= 0 && Compare(q, Cut(right, |q|)) <= 0
  }

  // gist_ischild: cuts the two bounds (which may be one object) in place, and restores them.
  method GistIsChild(left: Ltree, right: Ltree, query: Path) returns (r: bool)
    requires left.Whole() && right.Whole()
    modifies left, right
    ensures left.Whole() && right.Whole()
    ensures r == DescendantBetween(left.levels, right.levels, query)
  {
    var numlevelL, numlevelR := left.numlevel, right.numlevel;
    r := true;
    if numlevelL > |query| {
      left.numlevel := |query|;
    }
    assert left.View() == Cut(left.levels, |query|);
    var c := LtreeCompare(query, left.View());
    if c < 0 {
      r := false;
    }
    if numlevelR > |query| {
      right.numlevel := |query|;
    }
    assert right.View() == Cut(right.levels, |query|);
    if r {
      c := LtreeCompare(query, right.View());
      if c > 0 {
        r := false;
      }
    }
    left.numlevel := numlevelL;
    right.numlevel := numlevelR;
  }

  // gist_tqcmp: a path against the labels fixed by a pattern, without scaling.
  function TqCmp(t: Path, names: Path): (r: int) { TqCmpFrom(t, names, |t| - |names|) }

  function TqCmpFrom(t: Path, names: Path, diff: int): (r: int) {
    if t == [] || names == [] then diff
    else
      var d := LabelDiff(t[0], names[0]);
      if d != 0 then d else TqCmpFrom(t[1..], names[1..], diff)
  }

  lemma {:induction false} TqCmpIsOrd(t: Path, names: Path, diff: int)
    requires IsPath(t) && IsPath(names) && diff == |t| - |names|
    ensures Sign(TqCmpFrom(t, names, diff)) == PathOrd(t, names)
  {
    if t != [] && names != [] {
      LabelDiffIsOrd(t[0], names[0]);
      LabelOrdIsTotal(t[0], names[0]);
      if t[0] == names[0] { TqCmpIsOrd(t[1..], names[1..], diff); }
    }
  }

  method GistTqCmp(t: Path, names: Path) returns (r: int)
    ensures r == TqCmp(t, names)
  {
    var i := 0;
    while i < |t| && i < |names|
      invariant 0 <= i <= |t| && i <= |names|
      invariant TqCmp(t, names) == TqCmpFrom(t[i..], names[i..], |t| - |names|)
    {
      var res := RunStrncmp(t[i], names[i], if |t[i]| <= |names[i]| then |t[i]| else |names[i]|);
      if res == 0 {
        if |t[i]| != |names[i]| {
          return |t[i]| - |names[i]|;
        }
      } else {
        return res;
      }
      assert t[i..][1..] == t[i + 1..] && names[i..][1..] == names[i + 1..];
      i := i + 1;
    }
    return |t| - |names|;
  }

  // The labels fixed by the first levels of a pattern.
  function FixedLabels(levels: seq<Level>): (p: Path)
    ensures |p| == FirstGood(levels)
  {
    seq(FirstGood(levels), i requires 0 <= i < FirstGood(levels) => levels[i].vars[0].name)
  }

  predicate PatternBetween(left: Path, right: Path, names: Path) {
    names == [] || (TqCmp(Cut(left, |names|), names) <= 0 && TqCmp(Cut(right, |names|), names) >= 0)
  }

  // gist_between: the same game with the first good levels of a pattern.
  method GistBetween(left: Ltree, right: Ltree, levels: seq<Level>) returns (r: bool)
    requires left.Whole() && right.Whole()
    modifies left, right
    ensures left.Whole() && right.Whole()
    ensures r == PatternBetween(left.levels, right.levels, FixedLabels(levels))
  {
    var names := FixedLabels(levels);
    var firstgood := |names|;
    if firstgood == 0 {
      return true;
    }
    var numlevelL, numlevelR := left.numlevel, right.numlevel;
    r := true;
    if numlevelL > firstgood {
      left.numlevel := firstgood;
    }
    assert left.View() == Cut(left.levels, firstgood);
    var c := GistTqCmp(left.View(), names);
    if c > 0 {
      r := false;
    }
    if numlevelR > firstgood {
      right.numlevel := firstgood;
    }
    assert right.View() == Cut(right.levels, firstgood);
    if r {
      c := GistTqCmp(right.View(), names);
      if c < 0 {
        r := false;
      }
    }
    left.numlevel := numlevelL;
    right.numlevel := numlevelR;
  }

  // ---------------------------------------------------------------- pruning by signature

  // A word whose checksum is in the signature whenever it matches.  Case is folded before the
  // checksum is taken, so @ does no harm.
  predicate CanLookSign(v: Variant) { !v.anyend && !v.sublexem }

  predicate LevelCanLookSign(lev: Level) {
    lev.Vars? && lev.vars != [] && !lev.not && forall v :: v in lev.vars ==> CanLookSign(v)
  }

  predicate SignatureAdmits(crc: Crc, k: GKey, levels: seq<Level>)
    requires k.Span?
  {
    k.alltrue || forall lev :: lev in levels && LevelCanLookSign(lev) ==> LevelAdmitted(crc, k, lev)
  }

  predicate LevelAdmitted(crc: Crc, k: GKey, lev: Level)
    requires k.Span? && lev.Vars?
  {
    exists v :: v in lev.vars && k.sign[HashVal(crc, v.name)]
  }

  // gist_qe
  method GistQe(crc: Crc, k: GKey, levels: seq<Level>) returns (r: bool)
    requires k.Span?
    ensures r == SignatureAdmits(crc, k, levels)
  {
    if k.alltrue {
      return true;
    }
    for i := 0 to |levels|
      invariant forall j :: 0 <= j < i && LevelCanLookSign(levels[j]) ==> LevelAdmitted(crc, k, levels[j])
    {
      var lev := levels[i];
      if LevelCanLookSign(lev) {
        var isexist := false;
        for j := 0 to |lev.vars|
          invariant isexist <==> exists m :: 0 <= m < j && k.sign[HashVal(crc, lev.vars[m].name)]
        {
          if k.sign[HashVal(crc, lev.vars[j].name)] {
            isexist := true;
          }
        }
        if !isexist {
          assert !LevelAdmitted(crc, k, lev);
          return false;
        }
        assert LevelAdmitted(crc, k, lev);
      }
    }
    return true;
  }

  // A word that may look at the signature equals the label it matches, up to case.
  lemma {:induction false} MatchIsAdmitted(crc: Crc, k: GKey, v: Variant, l: Label)
    requires k.Span? && CanLookSign(v) && VariantMatches(v, l) && Admits(crc, k, l)
    ensures k.alltrue || k.sign[HashVal(crc, v.name)]
  {
    assert v.name[..|v.name|] == v.name && l[..|v.name|] == l;
    assert Lower(v.name) == Lower(l);
  }

  // ---------------------------------------------------------------- strategies

  datatype Query =
    | LessQ(q: Path)
    | LessEqualQ(q: Path)
    | EqualQ(q: Path)
    | GreaterEqualQ(q: Path)
    | GreaterQ(q: Path)
    | AncestorQ(q: Path)       // row @> q
    | DescendantQ(q: Path)     // row <@ q
    | PatternQ(levels: seq<Level>)
    | TextQ(items: seq<BQ.Item<Variant>>)

  // A text query can be evaluated; unused items and links that wrap to the right sign do no harm.
  predicate Runs(query: Query) { query.TextQ? ==> BQ.Reach(true, query.items, 0) }

  // The paths that ltree_compare or a truncated comparison sees besides those in the index.
  function Compared(query: Query): (paths: set<Path>) {
    match query
    case AncestorQ(_) => {}
    case PatternQ(_) => {}
    case TextQ(_) => {}
    case _ => {query.q}
  }

  // checkcondition_str: the word occurs in the path.
  predicate WordOccurs(row: Path, v: Variant) { exists l :: l in row && VariantMatches(v, l) }

  // checkcondition_bit: the signature does not rule the word out.
  predicate WordPossible(crc: Crc, k: GKey, v: Variant)
    requires k.Span?
  {
    CanLookSign(v) ==> k.sign[HashVal(crc, v.name)]
  }

  // ltxtq_exec
  predicate TextHolds(items: seq<BQ.Item<Variant>>, row: Path)
    requires BQ.Reach(true, items, 0)
  {
    BQ.Execute(true, items, 0, true, v => WordOccurs(row, v))
  }

  // gist_qtxt
  predicate TextPossible(crc: Crc, k: GKey, items: seq<BQ.Item<Variant>>)
    requires k.Span? && BQ.Reach(true, items, 0)
  {
    k.alltrue || BQ.Execute(true, items, 0, false, v => WordPossible(crc, k, v))
  }

  // The operators of a sequential scan.
  ghost predicate Accepts(query: Query, row: Path)
    requires Runs(query)
  {
    match query
    case LessQ(q) => Compare(row, q) < 0
    case LessEqualQ(q) => Compare(row, q) <= 0
    case EqualQ(q) => Compare(row, q) == 0
    case GreaterEqualQ(q) => Compare(row, q) >= 0
    case GreaterQ(q) => Compare(row, q) > 0
    case AncestorQ(q) => row <= q
    case DescendantQ(q) => q <= row
    case PatternQ(levels) => Matches(levels, row)
    case TextQ(items) => TextHolds(items, row)
  }

  // ltree_consistent on a leaf page, where the key holds the row
  ghost predicate LeafConsistent(query: Query, row: Path)
    requires Runs(query)
  {
    match query
    case LessQ(q) => Compare(q, row) > 0
    case LessEqualQ(q) => Compare(q, row) >= 0
    case EqualQ(q) => Compare(q, row) == 0
    case GreaterEqualQ(q) => Compare(q, row) <= 0
    case GreaterQ(q) => Compare(q, row) < 0
    case _ => Accepts(query, row)
  }

  // ltree_consistent on an internal page
  ghost predicate InnerConsistent(crc: Crc, query: Query, k: GKey)
    requires k.Span? && Runs(query)
  {
    match query
    case LessQ(q) => Compare(q, k.left) >= 0
    case LessEqualQ(q) => Compare(q, k.left) >= 0
    case EqualQ(q) => Compare(q, k.left) >= 0 && Compare(q, k.right) <= 0
    case GreaterEqualQ(q) => Compare(q, k.right) <= 0
    case GreaterQ(q) => Compare(q, k.right) <= 0
    case AncestorQ(q) => AncestorBetween(k.left, k.right, q)
    case DescendantQ(q) => DescendantBetween(k.left, k.right, q)
    case PatternQ(levels) => SignatureAdmits(crc, k, levels) && PatternBetween(k.left, k.right, FixedLabels(levels))
    case TextQ(items) => TextPossible(crc, k, items)
  }

  ghost predicate Consistent(crc: Crc, query: Query, k: GKey)
    requires Runs(query)
  {
    if k.One? then LeafConsistent(query, k.node) else InnerConsistent(crc, query, k)
  }

  // ltree_consistent.  Leaf pages hold single paths, internal pages bounds.
  method LtreeConsistent(crc: Crc, k: GKey, query: Query) returns (r: bool)
    requires Runs(query)
    ensures r == Consistent(crc, query, k)
  {
    if k.One? {
      r := OnLeaf(k.node, query);
    } else {
      r := OnPage(crc, k, query);
    }
  }

  method OnLeaf(node: Path, query: Query) returns (r: bool)
    requires Runs(query)
    ensures r == LeafConsistent(query, node)
  {
    match query
    case AncestorQ(q) => r := IsParent(q, node);
    case DescendantQ(q) => r := IsParent(node, q);
    case PatternQ(levels) => r := CheckCond(levels, node, HasNot(levels));
    case TextQ(items) => r := TextHolds(items, node);
    case _ =>
      var c := LtreeCompare(query.q, node);
      r := match query
        case LessQ(_) => c > 0
        case LessEqualQ(_) => c >= 0
        case EqualQ(_) => c == 0
        case GreaterEqualQ(_) => c <= 0
        case _ => c < 0;
  }

  method OnPage(crc: Crc, k: GKey, query: Query) returns (r: bool)
    requires k.Span? && Runs(query)
    ensures r == InnerConsistent(crc, query, k)
  {
    match query
    case AncestorQ(q) =>
      var t := new Ltree(q);
      r := GistIsParent(k.left, k.right, t);
    case DescendantQ(q) =>
      var left, right := BoundsOf(k);
      r := GistIsChild(left, right, q);
    case PatternQ(levels) =>
      r := GistQe(crc, k, levels);
      if r {
        var left, right := BoundsOf(k);
        r := GistBetween(left, right, levels);
      }
    case TextQ(items) => r := TextPossible(crc, k, items);
    case _ =>
      var cl := LtreeCompare(query.q, k.left);
      var cr := LtreeCompare(query.q, k.right);
      r := match query
        case LessQ(_) => cl >= 0
        case LessEqualQ(_) => cl >= 0
        case EqualQ(_) => cl >= 0 && cr <= 0
        case _ => cr <= 0;
  }

  // The bounds of a key in memory; a key without right bound has one object for both.
  method BoundsOf(k: GKey) returns (left: Ltree, right: Ltree)
    requires k.Span?
    ensures fresh(left) && fresh(right) && left.Whole() && right.Whole()
    ensures left.levels == k.left && right.levels == k.right
    ensures k.left == k.right <==> left == right
  {
    left := new Ltree(k.left);
    right := left;
    if k.left != k.right {
      right := new Ltree(k.right);
    }
  }

  // ---------------------------------------------------------------- soundness of pruning

  lemma {:induction false} OrderIsConsistent(crc: Crc, known: set<Path>, query: Query, k: GKey, row: Path)
    requires k.Span? && Within(known, k) && row in known && Bounds(k, row) && Tame(known + Compared(query))
    requires query.LessQ? || query.LessEqualQ? || query.EqualQ? || query.GreaterEqualQ? || query.GreaterQ?
    requires Accepts(query, row)
    ensures InnerConsistent(crc, query, k)
  {
    var q, all := query.q, known + Compared(query);
    TameCompare(all, row, q);
    TameCompare(all, q, k.left);
    TameCompare(all, q, k.right);
    PathOrdIsTotal(row, q);
    PathOrdIsTotal(q, k.left);
    PathOrdIsTotal(q, k.right);
    if PathOrd(row, q) <= 0 { PathOrdIsTransitive(k.left, row, q); }
    if PathOrd(row, q) >= 0 { PathOrdIsTransitive(q, row, k.right); }
  }

  // An accepted ancestor of the query is one of its truncations.
  lemma {:induction false} AncestorIsConsistent(known: set<Path>, q: Path, k: GKey, row: Path)
    requires k.Span? && Within(known, k) && row in known && Bounds(k, row) && Tame(known) && row <= q
    ensures AncestorBetween(k.left, k.right, q)
  {
    assert q[..|row|] == row;
    TameCompare(known, row, k.left);
    TameCompare(known, row, k.right);
    PathOrdIsTotal(row, k.left);
    PathOrdIsTotal(k.left, row);
    PathOrdIsTotal(row, k.right);
  }

  // Comparing q with a bound cut to the depth of q overflows only if comparing it with the bound does.
  lemma {:induction false} CutCompare(known: set<Path>, q: Path, bound: Path)
    requires Tame(known) && q in known && bound in known
    ensures Sign(Compare(q, Cut(bound, |q|))) == PathOrd(q, Cut(bound, |q|))
  {
    assert !Overshoots(q, bound) && IsPath(q) && IsPath(bound);
    CompareIsOrdExactly(q, Cut(bound, |q|));
  }

  // Cutting the bounds to the depth of the query keeps the query between them.
  lemma {:induction false} DescendantIsConsistent(known: set<Path>, q: Path, k: GKey, row: Path)
    requires k.Span? && Within(known, k) && row in known && Bounds(k, row) && Tame(known + {q}) && q <= row
    ensures DescendantBetween(k.left, k.right, q)
  {
    var l, r := Cut(k.left, |q|), Cut(k.right, |q|);
    assert Cut(row, |q|) == q;
    CutIsMonotone(k.left, row, |q|);
    CutIsMonotone(row, k.right, |q|);
    CutCompare(known + {q}, q, k.left);
    CutCompare(known + {q}, q, k.right);
    PathOrdIsTotal(l, q);
    PathOrdIsTotal(q, r);
  }

  lemma {:induction false} PatternIsBetween(known: set<Path>, levels: seq<Level>, k: GKey, row: Path)
    requires k.Span? && Within(known, k) && row in known && Bounds(k, row) && Tame(known) && Matches(levels, row)
    ensures PatternBetween(k.left, k.right, FixedLabels(levels))
  {
    GoodLevelsArePrefix(levels, row, HasNot(levels), 0);
    var names := FixedLabels(levels);
    assert Cut(row, |names|) == names;
    assert IsPath(k.left) && IsPath(k.right) && IsPath(row) by {
      TameCompare(known, k.left, k.right);
      TameCompare(known, row, row);
    }
    CutIsMonotone(k.left, row, |names|);
    CutIsMonotone(row, k.right, |names|);
    TqCmpIsOrd(Cut(k.left, |names|), names, |Cut(k.left, |names|)| - |names|);
    TqCmpIsOrd(Cut(k.right, |names|), names, |Cut(k.right, |names|)| - |names|);
    PathOrdIsTotal(names, Cut(k.right, |names|));
  }

  lemma {:induction false} PatternIsAdmitted(crc: Crc, levels: seq<Level>, k: GKey, row: Path)
    requires k.Span? && Signs(crc, k, row) && Matches(levels, row)
    ensures SignatureAdmits(crc, k, levels)
  {
    forall lev | lev in levels && LevelCanLookSign(lev) ensures k.alltrue || LevelAdmitted(crc, k, lev) {
      var i :| 0 <= i < |levels| && levels[i] == lev;
      PlainLevelsMatch(levels, row, HasNot(levels), START, i);
      var l :| l in row && LevelMatches(lev, l);
      var v :| v in lev.vars && VariantMatches(v, l);
      MatchIsAdmitted(crc, k, v, l);
    }
  }

  // Text queries look at the signature only: no condition on the paths.
  lemma {:induction false} TextIsConsistent(crc: Crc, items: seq<BQ.Item<Variant>>, k: GKey, row: Path)
    requires k.Span? && Signs(crc, k, row) && Runs(TextQ(items)) && TextHolds(items, row)
    ensures TextPossible(crc, k, items)
  {
    if !k.alltrue {
      var holds, more := (v: Variant) => WordOccurs(row, v), (v: Variant) => WordPossible(crc, k, v);
      forall v | holds(v) ensures more(v) {
        var l :| l in row && VariantMatches(v, l);
        assert Admits(crc, k, l);
        if CanLookSign(v) { MatchIsAdmitted(crc, k, v, l); }
      }
      BQ.ExecuteIsSound(true, items, 0, holds, more);
    }
  }

  // The paths a search compares can be compared; a text query compares none.
  ghost predicate Comparable(known: set<Path>, query: Query) { query.TextQ? || Tame(known + Compared(query)) }

  // An internal key above an accepted row is consistent, for every strategy.
  lemma {:induction false} CoverIsConsistent(crc: Crc, known: set<Path>, query: Query, k: GKey, row: Path)
    requires k.Span? && Within(known, k) && row in known && Signs(crc, k, row) && (Tame(known) ==> Bounds(k, row))
    requires Runs(query) && Comparable(known, query) && Accepts(query, row)
    ensures InnerConsistent(crc, query, k)
  {
    assert !query.TextQ? ==> Tame(known);
    match query
    case AncestorQ(q) => AncestorIsConsistent(known, q, k, row);
    case DescendantQ(q) => DescendantIsConsistent(known, q, k, row);
    case PatternQ(levels) =>
      PatternIsBetween(known, levels, k, row);
      PatternIsAdmitted(crc, levels, k, row);
    case TextQ(items) => TextIsConsistent(crc, items, k, row);
    case _ => OrderIsConsistent(crc, known, query, k, row);
  }

  // On a leaf page the check is the operator: the order compares both ways alike.
  lemma {:induction false} LeafCheckIsExact(known: set<Path>, query: Query, row: Path)
    requires Runs(query) && Comparable(known, query) && row in known
    ensures LeafConsistent(query, row) == Accepts(query, row)
  {
    if Compared(query) != {} && !query.DescendantQ? {
      TameCompare(known + Compared(query), row, query.q);
      TameCompare(known + Compared(query), query.q, row);
      PathOrdIsTotal(row, query.q);
    }
  }

  // ---------------------------------------------------------------- the index

  ghost function KeysOf(kids: seq<Gist.Tree<GKey, Path>>): (keys: seq<GKey>) {
    seq(|kids|, i requires 0 <= i < |kids| => kids[i].key)
  }

  // The trees that insertions build: rows in leaves, and above every page a key that Union or
  // PickSplit made of the keys on it.  `known` holds every path ever inserted.
  ghost predicate Built(crc: Crc, known: set<Path>, t: Gist.Tree<GKey, Path>) {
    match t
    case Leaf(k, row) => k == One(row) && row in known
    case Inner(k, kids) => (forall c :: c in kids ==> Built(crc, known, c)) && Spans(crc, known, KeysOf(kids), k)
  }

  // The key speaks for the labels of the row, and for its place in the order if paths compare.
  ghost predicate Speaks(crc: Crc, known: set<Path>, k: GKey, onLeaf: bool, row: Path) {
    && row in known && Within(known, k) && onLeaf == k.One?
    && Signs(crc, k, row) && (Tame(known) ==> Bounds(k, row))
  }

  ghost function CoversFun(crc: Crc, known: set<Path>): (f: (GKey, bool, Path) -> bool) {
    (k: GKey, onLeaf: bool, row: Path) => Speaks(crc, known, k, onLeaf, row)
  }

  lemma {:induction false} BuiltIsKeyed(crc: Crc, known: set<Path>, forest: seq<Gist.Tree<GKey, Path>>)
    requires forall t :: t in forest ==> Built(crc, known, t)
    ensures Gist.Keyed(forest, CoversFun(crc, known))
    decreases forest
  {
    forall t | t in forest
      ensures (forall r :: r in Gist.Below(t) ==> CoversFun(crc, known)(t.key, t.Leaf?, r))
              && (t.Inner? ==> Gist.Keyed(t.kids, CoversFun(crc, known)))
    {
      if t.Inner? {
        BuiltIsKeyed(crc, known, t.kids);
        forall r | r in Gist.Below(t) ensures CoversFun(crc, known)(t.key, false, r) {
          PageKeyCovers(crc, known, t.kids, t.key, r);
        }
      } else {
        PathOrdIsTotal(t.row, t.row);
        assert Speaks(crc, known, t.key, true, t.row);
      }
    }
  }

  // The key of a page covers the rows below it.
  lemma {:induction false} PageKeyCovers(crc: Crc, known: set<Path>, kids: seq<Gist.Tree<GKey, Path>>, k: GKey, r: Path)
    requires Gist.Keyed(kids, CoversFun(crc, known)) && Spans(crc, known, KeysOf(kids), k) && r in Gist.Rows(kids)
    ensures CoversFun(crc, known)(k, false, r)
  {
    var t := Gist.RowHasTree(kids, r);
    assert CoversFun(crc, known)(t.key, t.Leaf?, r);
    var i :| 0 <= i < |kids| && kids[i] == t;
    assert KeysOf(kids)[i] == t.key;
  }

  ghost function Check(crc: Crc, query: Query): (f: (GKey, bool) -> bool)
    requires Runs(query)
  {
    (k: GKey, onLeaf: bool) => Consistent(crc, query, k)
  }

  ghost function Op(query: Query): (f: Path -> bool)
    requires Runs(query)
  {
    (row: Path) => Accepts(query, row)
  }

  // For every index tree that insertions can build, of any height, and every comparison, ancestor,
  // descendant, pattern and text query: searching the index is scanning the table, provided the
  // paths in the index and the one the query compares are comparable.  A text query needs no proviso.
  lemma {:induction false} IndexSearchIsScan(crc: Crc, known: set<Path>, forest: seq<Gist.Tree<GKey, Path>>, query: Query)
    requires forall t :: t in forest ==> Built(crc, known, t)
    requires Runs(query) && Comparable(known, query)
    ensures Gist.Search(forest, Check(crc, query)) == Gist.Scan(Gist.Rows(forest), Op(query))
  {
    BuiltIsKeyed(crc, known, forest);
    var covers, check, op := CoversFun(crc, known), Check(crc, query), Op(query);
    forall k, leaf, r | covers(k, leaf, r) && op(r) ensures check(k, leaf) {
      assert Speaks(crc, known, k, leaf, r);
      LeafCheckIsExact(known, query, r);
      if k.Span? { CoverIsConsistent(crc, known, query, k, r); }
    }
    forall k, r | covers(k, true, r) && check(k, true) ensures op(r) {
      assert Speaks(crc, known, k, true, r);
      LeafCheckIsExact(known, query, r);
    }
    Gist.SearchIsScan(forest, covers, check, op);
  }

  // ---------------------------------------------------------------- deep paths

  ghost function PairPage(p: Path, a: Path, k: GKey): (t: Gist.Tree<GKey, Path>) {
    var first: GKey, second: GKey := One(p), One(a);
    var rows: seq<Gist.Tree<GKey, Path>> := [Gist.Leaf(first, p), Gist.Leaf(second, a)];
    Gist.Inner(k, rows)
  }

  lemma {:induction false} PairBounds(p: Path, a: Path)
    ensures Widest([One(p), One(a)]).left == if Compare(p, a) > 0 then a else p
    ensures Widest([One(p), One(a)]).right == if Compare(p, a) < 0 then a else p
  {
    assert [One(p), One(a)][..1] == [One(p)];
    assert [One(p)][..0] == [];
  }

  // A path that overshoots one of its ancestors becomes the left bound although it is the greater
  // one, and the ancestor is no longer found by equality.
  lemma {:induction false} DeepPairIsLost(crc: Crc, known: set<Path>, p: Path, a: Path, k: GKey)
    requires IsPath(p) && IsPath(a) && Overshoots(p, a) && UnionOf(crc, known, [One(p), One(a)], k)
    ensures Gist.Search([PairPage(p, a, k)], Check(crc, EqualQ(a))) == []
    ensures a in Gist.Scan(Gist.Rows([PairPage(p, a, k)]), Op(EqualQ(a)))
  {
    CompareFromIsOrd(p, a, |p| - |a|);
    PairBounds(p, a);
    CompareIsOrdExactly(a, p);
    PathOrdIsTotal(a, p);
    CompareIsOrdExactly(a, a);
    PathOrdIsTotal(a, a);
    var page := PairPage(p, a, k);
    assert Gist.Found(page, Check(crc, EqualQ(a))) == [];
    PairRows(p, a, k);
    AcceptedIsScanned(Gist.Rows([page]), Op(EqualQ(a)), a);
  }

  // The first such depth: under a page of a path of 14654 levels and the empty path, the bounds
  // are the wrong way round and the empty path is not found.
  lemma {:induction false} FirstLostDepth(crc: Crc, p: Path, k: GKey)
    requires IsPath(p) && |p| == SAFE_DEPTH + 1 && UnionOf(crc, {p, []}, [One(p), One([])], k)
    ensures k.left == p && k.right == []
    ensures Gist.Search([PairPage(p, [], k)], Check(crc, EqualQ([]))) == []
    ensures [] in Gist.Scan(Gist.Rows([PairPage(p, [], k)]), Op(EqualQ([])))
  {
    DeepPathsCompareWrongly(p);
    PairBounds(p, []);
    CompareIsOrdExactly(p, []);
    DeepPairIsLost(crc, {p, []}, p, [], k);
  }

  lemma {:induction false} PairRows(p: Path, a: Path, k: GKey)
    ensures a in Gist.Rows([PairPage(p, a, k)])
  {
    var kids := PairPage(p, a, k).kids;
    Gist.RowOfTree(kids, kids[1], a);
    Gist.RowOfTree([PairPage(p, a, k)], PairPage(p, a, k), a);
  }

  lemma {:induction false} AcceptedIsScanned(rows: seq<Path>, op: Path -> bool, r: Path)
    requires r in rows && op(r)
    ensures r in Gist.Scan(rows, op)
  {
    if r != rows[0] { AcceptedIsScanned(rows[1..], op, r); }
  }

  ghost predicate AnswersAll(crc: Crc, t: Gist.Tree<GKey, Path>, about: set<Path>) {
    forall query :: Runs(query) && Compared(query) <= about ==>
      Gist.Search([t], Check(crc, query)) == Gist.Scan(Gist.Rows([t]), Op(query))
  }

  // Two rows on a page, inserted in either order: the index answers every query about them as a
  // scan does if and only if neither path overshoots the other.
  lemma {:induction false} PairIsFoundExactly(crc: Crc, p: Path, a: Path, k: GKey, k1: GKey)
    requires IsPath(p) && IsPath(a)
    requires UnionOf(crc, {p, a}, [One(p), One(a)], k) && UnionOf(crc, {p, a}, [One(a), One(p)], k1)
    ensures AnswersAll(crc, PairPage(p, a, k), {p, a}) && AnswersAll(crc, PairPage(a, p, k1), {p, a})
            <==> !Overshoots(p, a) && !Overshoots(a, p)
  {
    if Overshoots(p, a) {
      DeepPairIsLost(crc, {p, a}, p, a, k);
      LostIsUnanswered(crc, PairPage(p, a, k), a, {p, a});
    } else if Overshoots(a, p) {
      DeepPairIsLost(crc, {p, a}, a, p, k1);
      LostIsUnanswered(crc, PairPage(a, p, k1), p, {p, a});
    } else {
      PairIsAnswered(crc, p, a, k);
      assert {a, p} == {p, a};
      PairIsAnswered(crc, a, p, k1);
    }
  }

  lemma {:induction false} LostIsUnanswered(crc: Crc, t: Gist.Tree<GKey, Path>, q: Path, about: set<Path>)
    requires q in about && Gist.Search([t], Check(crc, EqualQ(q))) == []
    requires q in Gist.Scan(Gist.Rows([t]), Op(EqualQ(q)))
    ensures !AnswersAll(crc, t, about)
  {
    assert Runs(EqualQ(q)) && Compared(EqualQ(q)) <= about;
  }

  lemma {:induction false} PairIsAnswered(crc: Crc, p: Path, a: Path, k: GKey)
    requires IsPath(p) && IsPath(a) && !Overshoots(p, a) && !Overshoots(a, p)
    requires UnionOf(crc, {p, a}, [One(p), One(a)], k)
    ensures AnswersAll(crc, PairPage(p, a, k), {p, a})
  {
    assert KeysOf(PairPage(p, a, k).kids) == [One(p), One(a)];
    TameIsAnswered(crc, {p, a}, PairPage(p, a, k));
  }

  // The key of a page of two paths: the bounds the comparisons select, and the bits of their labels.
  ghost function PairKey(crc: Crc, p: Path, a: Path): (k: GKey)
    ensures k.Span?
  {
    var w := Widest([One(p), One(a)]);
    Span(false, seq(SIGLENBIT, i requires 0 <= i < SIGLENBIT => exists l :: l in p + a && HashVal(crc, l) == i), w.left, w.right)
  }

  lemma {:induction false} PairKeyIsUnion(crc: Crc, known: set<Path>, p: Path, a: Path)
    requires p in known && a in known && !Tame(known)
    ensures UnionOf(crc, known, [One(p), One(a)], PairKey(crc, p, a))
    ensures Built(crc, known, PairPage(p, a, PairKey(crc, p, a)))
  {
    var k, entries := PairKey(crc, p, a), [One(p), One(a)];
    PairBounds(p, a);
    forall e, row | e in entries && Signs(crc, e, row) ensures Signs(crc, k, row) {
      forall l | l in row ensures Admits(crc, k, l) { assert l in p + a; }
    }
    assert KeysOf(PairPage(p, a, k).kids) == entries;
  }

  // Over a given set of paths, the index answers every query about them as a scan does, whatever
  // tree insertions build, if and only if no path overshoots another.
  lemma {:induction false} IndexSearchIsScanExactly(crc: Crc, known: set<Path>)
    requires forall p :: p in known ==> IsPath(p)
    ensures Tame(known) <==> forall t :: Built(crc, known, t) ==> AnswersAll(crc, t, known)
  {
    if Tame(known) {
      forall t | Built(crc, known, t) ensures AnswersAll(crc, t, known) { TameIsAnswered(crc, known, t); }
    } else {
      var p, a :| p in known && a in known && Overshoots(p, a);
      var k := PairKey(crc, p, a);
      PairKeyIsUnion(crc, known, p, a);
      DeepPairIsLost(crc, known, p, a, k);
      LostIsUnanswered(crc, PairPage(p, a, k), a, known);
    }
  }

  lemma {:induction false} TameIsAnswered(crc: Crc, known: set<Path>, t: Gist.Tree<GKey, Path>)
    requires Tame(known) && Built(crc, known, t)
    ensures AnswersAll(crc, t, known)
  {
    forall query | Runs(query) && Compared(query) <= known
      ensures Gist.Search([t], Check(crc, query)) == Gist.Scan(Gist.Rows([t]), Op(query))
    {
      assert known + Compared(query) == known;
      IndexSearchIsScan(crc, known, [t], query);
    }
  }
}

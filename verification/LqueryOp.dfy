/**
 Matching a label path against an lquery pattern (contrib/ltree/lquery_op.c), which is the check
 made on every leaf of the index, and what a successful match says about the path: the facts the
 index may rely on when it prunes.
 */
module LqueryOp {
  import opened LtreeOrder

  // ---------------------------------------------------------------- patterns

  // One alternative of a level, with its modifiers @, * and %.
  datatype Variant = Variant(name: string, incase: bool, anyend: bool, sublexem: bool)

  // A level is a list of alternatives, possibly negated, or a star with its bounds.
  datatype Level = Vars(not: bool, vars: seq<Variant>) | Star(low: nat, high: nat)

  function LowerChar(c: char): (r: char) { if 'A' <= c <= 'Z' then (c as int + 32) as char else c }

  function Lower(s: string): (r: string)
    ensures |r| == |s|
  {
    seq(|s|, i requires 0 <= i < |s| => LowerChar(s[i]))
  }

  // strncmp or strncasecmp over n bytes
  predicate SameN(incase: bool, a: string, b: string, n: nat)
    requires n <= |a| && n <= |b|
  {
    if incase then Lower(a[..n]) == Lower(b[..n]) else a[..n] == b[..n]
  }

  // One word against another: equal, or a prefix if * is given.
  predicate WordMatches(q: string, t: string, incase: bool, anyend: bool) {
    (|t| == |q| || (|t| > |q| && anyend)) && SameN(incase, q, t, |q|)
  }

  // The words of a label are separated by underscores.
  function SkipBlanks(s: string, i: nat): (j: nat)
    requires i <= |s|
    ensures i <= j <= |s| && (j < |s| ==> s[j] != '_')
    decreases |s| - i
  {
    if i < |s| && s[i] == '_' then SkipBlanks(s, i + 1) else i
  }

  function WordEnd(s: string, i: nat): (j: nat)
    requires i <= |s|
    ensures i <= j <= |s| && (i < |s| && s[i] != '_' ==> i < j)
    decreases |s| - i
  {
    if i < |s| && s[i] != '_' then WordEnd(s, i + 1) else i
  }

  function Words(s: string, i: nat): (ws: seq<string>)
    requires i <= |s|
    decreases |s| - i
  {
    var b := SkipBlanks(s, i);
    if b == |s| then [] else [s[b..WordEnd(s, b)]] + Words(s, WordEnd(s, b))
  }

  predicate SomeWord(t: Label, q: string, incase: bool, anyend: bool) {
    exists w :: w in Words(t, 0) && WordMatches(q, w, incase, anyend)
  }

  predicate VariantMatches(v: Variant, t: Label) {
    if v.sublexem then forall q :: q in Words(v.name, 0) ==> SomeWord(t, q, v.incase, v.anyend)
    else WordMatches(v.name, t, v.incase, v.anyend)
  }

  predicate LevelMatches(lev: Level, t: Label)
    requires lev.Vars?
  {
    exists v :: v in lev.vars && VariantMatches(v, t)
  }

  // ---------------------------------------------------------------- checkCond

  // The stretch of negated levels seen last: `nq` query levels from `q` on must not match the
  // `nt` tree levels from `t` on.
  datatype Field = NoField | Field(q: nat, nq: nat, t: nat, nt: nat, post: nat)

  // The loop state: query position, tree position and the window for the next match.
  datatype State = State(qi: nat, cur: nat, low: nat, high: nat, fn: Field)

  const START := State(0, 0, 0, 0, NoField)

  predicate FieldOk(levels: seq<Level>, tree: Path, s: State) {
    && s.qi <= |levels| && s.cur <= |tree|
    && (s.fn.Field? ==>
          && s.fn.q + s.fn.nq == s.qi && 0 < s.fn.nq
          && s.fn.t <= s.fn.post < |tree| && s.fn.t + s.fn.nt <= |tree|
          && (s.qi < |levels| ==> s.fn.t + s.fn.nt <= s.cur))
  }

  // The first position from i on, not after high, whose label matches.
  function FirstMatch(lev: Level, tree: Path, i: nat, high: nat): (r: nat)
    requires lev.Vars? && i <= |tree|
    ensures i <= r <= |tree|
    ensures r < |tree| && r <= high ==> LevelMatches(lev, tree[r])
    decreases |tree| - i
  {
    if i == |tree| || i > high || LevelMatches(lev, tree[i]) then i else FirstMatch(lev, tree, i + 1, high)
  }

  // A negated level is recorded and skipped.
  function SkipNegated(levels: seq<Level>, tree: Path, s: State, at: nat): (r: State)
    requires FieldOk(levels, tree, s) && s.qi < |levels| && s.cur <= at < |tree|
    ensures FieldOk(levels, tree, r) && r.qi == s.qi + 1
  {
    var star := s.qi > 0 && levels[s.qi - 1].Star?;
    var fn :=
      if s.fn.Field? then s.fn.(nt := s.fn.nt + (at - s.cur) + 1, nq := s.fn.nq + 1)
      else Field(if star then s.qi - 1 else s.qi, if star then 2 else 1, s.cur, 1, at);
    var fn1 := if s.qi + 1 == |levels| && levels[fn.q].Star? then fn.(nt := |tree| - fn.post) else fn;
    State(s.qi + 1, at + 1, s.low, if s.high < at + 1 then s.high + 1 else s.high, fn1)
  }

  // A star opens the window.
  function OpenWindow(levels: seq<Level>, tree: Path, s: State): (r: State)
    requires FieldOk(levels, tree, s) && s.qi < |levels| && levels[s.qi].Star?
    ensures FieldOk(levels, tree, r) && r.qi == s.qi + 1 && r.cur == s.cur
  {
    var lev := levels[s.qi];
    var fn :=
      if s.fn.NoField? then NoField
      else s.fn.(nq := s.fn.nq + 1, nt := if s.qi + 1 == |levels| then |tree| - s.fn.post else s.fn.nt);
    State(s.qi + 1, s.cur, s.cur + lev.low, s.cur + lev.high, fn)
  }

  // The levels left when the tree is exhausted; the result is the last window.
  function Remaining(levels: seq<Level>, s: State): (r: (bool, nat, nat))
    requires s.qi <= |levels|
    decreases |levels| - s.qi
  {
    if s.qi == |levels| then (true, s.low, s.high)
    else if levels[s.qi].Vars? then
      if levels[s.qi].not then Remaining(levels, s.(qi := s.qi + 1)) else (false, 0, 0)
    else
      Remaining(levels, State(s.qi + 1, s.cur, s.cur + levels[s.qi].low, s.cur + levels[s.qi].high, s.fn))
  }

  datatype Turn = Fails | Goes(next: State)

  // One turn of the main loop; `track` says whether negated levels are kept apart (ptr is given).
  function TurnOf(levels: seq<Level>, tree: Path, track: bool, s: State): (r: Turn)
    requires FieldOk(levels, tree, s) && (!track ==> s.fn.NoField?) && s.cur < |tree| && s.qi < |levels|
    ensures r.Goes? ==> FieldOk(levels, tree, r.next) && (!track ==> r.next.fn.NoField?) && r.next.qi == s.qi + 1
    decreases track, |levels| - s.qi, 0
  {
    var lev := levels[s.qi];
    if lev.Star? then Goes(OpenWindow(levels, tree, s))
    else
      var at := if s.cur < s.low then s.low else s.cur;
      if at >= |tree| then Fails
      else if track && lev.not then Goes(SkipNegated(levels, tree, s, at))
      else
        var hit := FirstMatch(lev, tree, at, s.high);
        if hit == |tree| || hit > s.high then Fails
        else if s.fn.Field? && Excluded(levels, tree, s.fn, hit - s.cur) then Fails
        else Goes(State(s.qi + 1, hit + 1, hit + 1, hit + 1, NoField))
  }

  // checkCond from state s on
  predicate Cond(levels: seq<Level>, tree: Path, track: bool, s: State)
    requires FieldOk(levels, tree, s) && (!track ==> s.fn.NoField?)
    decreases track, |levels| - s.qi, 1
  {
    if s.cur < |tree| && s.qi < |levels| then
      match TurnOf(levels, tree, track, s)
      case Fails => false
      case Goes(next) => Cond(levels, tree, track, next)
    else
      var (ok, low, high) := Remaining(levels, s);
      if s.low > |tree| || |tree| > s.high then false
      else if !ok || low > |tree| || |tree| > high then false
      else !(s.fn.Field? && Excluded(levels, tree, s.fn, 0))
  }

  // The recorded stretch does match what it must not match.
  predicate Excluded(levels: seq<Level>, tree: Path, fn: Field, more: nat)
    requires fn.Field? && fn.q + fn.nq <= |levels| && fn.t + fn.nt + more <= |tree|
    decreases true, 0, 0
  {
    Cond(levels[fn.q..fn.q + fn.nq], tree[fn.t..fn.t + fn.nt + more], false, START)
  }

  predicate HasNot(levels: seq<Level>) { exists lev :: lev in levels && lev.Vars? && lev.not }

  // ltq_regex
  ghost predicate Matches(levels: seq<Level>, tree: Path) { Cond(levels, tree, HasNot(levels), START) }

  // ---------------------------------------------------------------- the code

  // getlexem: the next word, as its bounds; none if only blanks are left.
  method GetLexem(s: string, start: nat) returns (b: nat, len: nat)
    requires start <= |s|
    ensures b == SkipBlanks(s, start)
    ensures b < |s| ==> len == WordEnd(s, b) - b && 0 < len && b + len <= |s|
  {
    b := start;
    while b < |s| && s[b] == '_'
      invariant start <= b <= |s| && SkipBlanks(s, start) == SkipBlanks(s, b)
    {
      b := b + 1;
    }
    var ptr := b;
    while ptr < |s| && s[ptr] != '_'
      invariant b <= ptr <= |s| && WordEnd(s, b) == WordEnd(s, ptr)
    {
      ptr := ptr + 1;
    }
    len := ptr - b;
  }

  // compare_subnode: every word of q occurs among the words of t.
  method CompareSubnode(t: Label, q: string, incase: bool, anyend: bool) returns (r: bool)
    ensures r <==> forall w :: w in Words(q, 0) ==> SomeWord(t, w, incase, anyend)
  {
    var qn := 0;
    while true
      invariant qn <= |q|
      invariant (forall w :: w in Words(q, 0) ==> SomeWord(t, w, incase, anyend))
           <==> (forall w :: w in Words(q, qn) ==> SomeWord(t, w, incase, anyend))
      decreases |q| - qn
    {
      var b, lenq := GetLexem(q, qn);
      if b == |q| {
        return true;
      }
      var word := q[b..b + lenq];
      assert Words(q, qn) == [word] + Words(q, b + lenq);
      assert forall w :: w in Words(q, qn) <==> w == word || w in Words(q, b + lenq);
      var isok := SomeWordMatches(t, word, incase, anyend);
      if !isok {
        assert word in Words(q, qn);
        return false;
      }
      qn := b + lenq;
    }
    assert false;
  }

  method SomeWordMatches(t: Label, word: string, incase: bool, anyend: bool) returns (r: bool)
    ensures r == SomeWord(t, word, incase, anyend)
  {
    var tn := 0;
    while true
      invariant tn <= |t|
      invariant (exists x :: x in Words(t, 0) && WordMatches(word, x, incase, anyend))
           <==> (exists x :: x in Words(t, tn) && WordMatches(word, x, incase, anyend))
      decreases |t| - tn
    {
      var b, lent := GetLexem(t, tn);
      if b == |t| {
        return false;
      }
      var x := t[b..b + lent];
      assert Words(t, tn) == [x] + Words(t, b + lent);
      if WordMatches(word, x, incase, anyend) {
        assert x in Words(t, tn);
        return true;
      }
      tn := b + lent;
    }
    assert false;
  }

  // checkLevel: does some alternative match?
  method CheckLevel(lev: Level, t: Label) returns (r: bool)
    requires lev.Vars?
    ensures r == LevelMatches(lev, t)
  {
    for i := 0 to |lev.vars|
      invariant forall j :: 0 <= j < i ==> !VariantMatches(lev.vars[j], t)
    {
      var v := lev.vars[i];
      if v.sublexem {
        var sub := CompareSubnode(t, v.name, v.incase, v.anyend);
        if sub {
          assert VariantMatches(v, t);
          return true;
        }
      } else if (|v.name| == |t| || (|t| > |v.name| && v.anyend)) && SameN(v.incase, v.name, t, |v.name|) {
        assert VariantMatches(v, t);
        return true;
      }
    }
    return false;
  }

  // The recursive call of checkCond on the recorded stretch.
  method CheckExcluded(levels: seq<Level>, tree: Path, fn: Field, more: nat) returns (r: bool)
    requires fn.Field? && fn.q + fn.nq <= |levels| && fn.t + fn.nt + more <= |tree|
    ensures r == Excluded(levels, tree, fn, more)
    decreases true, 0
  {
    r := CheckCond(levels[fn.q..fn.q + fn.nq], tree[fn.t..fn.t + fn.nt + more], false);
  }

  // Step over the levels before the window; reaching the end of the path means failure.
  method Advance(cur: nat, low: nat, n: nat) returns (at: nat)
    requires cur < n
    ensures at == if cur >= low then cur else if low < n then low else n
  {
    at := cur;
    while at < low
      invariant cur <= at < n && (cur < low ==> at <= low) && (cur >= low ==> at == cur)
    {
      at := at + 1;
      if at >= n {
        return n;
      }
    }
  }

  method CheckTurn(levels: seq<Level>, tree: Path, track: bool, s: State) returns (r: Turn)
    requires FieldOk(levels, tree, s) && (!track ==> s.fn.NoField?) && s.cur < |tree| && s.qi < |levels|
    ensures r == TurnOf(levels, tree, track, s)
    decreases track, 1
  {
    var lev := levels[s.qi];
    if lev.Star? {
      return Goes(OpenWindow(levels, tree, s));
    }
    var at := Advance(s.cur, s.low, |tree|);
    if at == |tree| {
      return Fails;
    }
    if track && lev.not {
      return Goes(SkipNegated(levels, tree, s, at));
    }
    var hit, isok := FindLevel(lev, tree, at, s.high);
    if !isok {
      return Fails;
    }
    if s.fn.Field? {
      var excluded := CheckExcluded(levels, tree, s.fn, hit - s.cur);
      if excluded {
        return Fails;
      }
    }
    return Goes(State(s.qi + 1, hit + 1, hit + 1, hit + 1, NoField));
  }

  // checkCond.  The cursors of the original are indices here; `track` is whether ptr is given.
  method CheckCond(levels: seq<Level>, tree: Path, track: bool) returns (r: bool)
    ensures r == Cond(levels, tree, track, START)
    decreases track, 2
  {
    var s := START;
    while s.cur < |tree| && s.qi < |levels|
      invariant FieldOk(levels, tree, s) && (!track ==> s.fn.NoField?)
      invariant Cond(levels, tree, track, START) == Cond(levels, tree, track, s)
      decreases |levels| - s.qi
    {
      var turn := CheckTurn(levels, tree, track, s);
      if turn.Fails? {
        return false;
      }
      s := turn.next;
    }
    if s.low > |tree| || |tree| > s.high {
      return false;
    }
    var ok, low, high := RunRemaining(levels, s);
    if !ok || low > |tree| || |tree| > high {
      return false;
    }
    if s.fn.Field? {
      var excluded := CheckExcluded(levels, tree, s.fn, 0);
      return !excluded;
    }
    return true;
  }

  method FindLevel(lev: Level, tree: Path, at: nat, high: nat) returns (hit: nat, isok: bool)
    requires lev.Vars? && at < |tree|
    ensures hit == FirstMatch(lev, tree, at, high)
    ensures isok <==> hit < |tree| && hit <= high
  {
    hit, isok := at, false;
    while hit <= high && hit < |tree|
      invariant at <= hit <= |tree| && FirstMatch(lev, tree, at, high) == FirstMatch(lev, tree, hit, high)
    {
      isok := CheckLevel(lev, tree[hit]);
      if isok {
        return;
      }
      hit := hit + 1;
    }
    isok := false;
  }

  method RunRemaining(levels: seq<Level>, s: State) returns (ok: bool, low: nat, high: nat)
    requires s.qi <= |levels|
    ensures (ok, low, high) == Remaining(levels, s)
  {
    var u := s;
    while u.qi < |levels|
      invariant u.qi <= |levels| && Remaining(levels, s) == Remaining(levels, u)
      decreases |levels| - u.qi
    {
      var lev := levels[u.qi];
      if lev.Vars? {
        if !lev.not {
          return false, 0, 0;
        }
        u := u.(qi := u.qi + 1);
      } else {
        u := State(u.qi + 1, u.cur, u.cur + lev.low, u.cur + lev.high, u.fn);
      }
    }
    return true, u.low, u.high;
  }

  // ---------------------------------------------------------------- what a match implies

  predicate Plain(lev: Level) { lev.Vars? && !lev.not }

  lemma {:induction false} RemainingHasNoPlain(levels: seq<Level>, s: State, i: nat)
    requires s.qi <= i < |levels| && Plain(levels[i])
    ensures !Remaining(levels, s).0
    decreases |levels| - s.qi
  {
    if s.qi < i {
      if levels[s.qi].Vars? {
        RemainingHasNoPlain(levels, s.(qi := s.qi + 1), i);
      } else {
        RemainingHasNoPlain(levels, State(s.qi + 1, s.cur, s.cur + levels[s.qi].low, s.cur + levels[s.qi].high, s.fn), i);
      }
    }
  }

  // Every level that is not negated has found a label of the path.
  lemma {:induction false} PlainLevelsMatch(levels: seq<Level>, tree: Path, track: bool, s: State, i: nat)
    requires FieldOk(levels, tree, s) && (!track ==> s.fn.NoField?) && Cond(levels, tree, track, s)
    requires s.qi <= i < |levels| && Plain(levels[i])
    ensures exists t :: t in tree && LevelMatches(levels[i], t)
    decreases |levels| - s.qi
  {
    if s.cur < |tree| {
      var lev := levels[s.qi];
      if lev.Star? {
        PlainLevelsMatch(levels, tree, track, OpenWindow(levels, tree, s), i);
      } else {
        var at := if s.cur < s.low then s.low else s.cur;
        if track && lev.not {
          PlainLevelsMatch(levels, tree, track, SkipNegated(levels, tree, s, at), i);
        } else {
          var hit := FirstMatch(lev, tree, at, s.high);
          assert LevelMatches(lev, tree[hit]);
          if s.qi < i {
            PlainLevelsMatch(levels, tree, track, State(s.qi + 1, hit + 1, hit + 1, hit + 1, NoField), i);
          }
        }
      }
    } else {
      RemainingHasNoPlain(levels, s, i);
    }
  }

  // A level that fixes its label: one alternative, no modifier, no negation.
  predicate Good(lev: Level) {
    Plain(lev) && |lev.vars| == 1 && !lev.vars[0].incase && !lev.vars[0].anyend && !lev.vars[0].sublexem
  }

  // lquery.firstgood: how many levels at the beginning fix their label.
  function FirstGood(levels: seq<Level>): (n: nat)
    ensures n <= |levels|
    ensures forall i :: 0 <= i < n ==> Good(levels[i])
    ensures n < |levels| ==> !Good(levels[n])
  {
    if levels == [] || !Good(levels[0]) then 0 else 1 + FirstGood(levels[1..])
  }

  lemma {:induction false} GoodMatches(lev: Level, t: Label)
    requires Good(lev) && LevelMatches(lev, t)
    ensures t == lev.vars[0].name
  {
    var v :| v in lev.vars && VariantMatches(v, t);
    assert v == lev.vars[0];
    assert t[..|t|] == t && v.name[..|v.name|] == v.name;
  }

  // The path starts with the labels fixed by the first levels.
  lemma {:induction false} GoodLevelsArePrefix(levels: seq<Level>, tree: Path, track: bool, k: nat)
    requires k <= FirstGood(levels) && k <= |tree|
    requires Cond(levels, tree, track, State(k, k, k, k, NoField))
    ensures FirstGood(levels) <= |tree|
    ensures forall j :: k <= j < FirstGood(levels) ==> tree[j] == levels[j].vars[0].name
    decreases FirstGood(levels) - k
  {
    if k < FirstGood(levels) {
      if k == |tree| {
        RemainingHasNoPlain(levels, State(k, k, k, k, NoField), k);
      } else {
        assert FirstMatch(levels[k], tree, k, k) == k;
        GoodMatches(levels[k], tree[k]);
        GoodLevelsArePrefix(levels, tree, track, k + 1);
      }
    }
  }
}

/**
 Edit distance (levenshtein in contrib/fuzzystrmatch/fuzzystrmatch.c): the loop over two rows that
 change places computes the length of a shortest edit script, and that length is a metric.
 */
module Levenshtein {
  // ---------------------------------------------------------------- edit scripts

  datatype Op = Insert(pos: nat, c: char) | Delete(pos: nat) | Substitute(pos: nat, c: char)

  predicate Fits(op: Op, s: string) {
    match op
    case Insert(i, _) => i <= |s|
    case Delete(i) => i < |s|
    case Substitute(i, _) => i < |s|
  }

  function Apply(op: Op, s: string): (t: string)
    requires Fits(op, s)
  {
    match op
    case Insert(i, c) => s[..i] + [c] + s[i..]
    case Delete(i) => s[..i] + s[i + 1..]
    case Substitute(i, c) => s[..i] + [c] + s[i + 1..]
  }

  // The script turns s into t.
  predicate Edits(script: seq<Op>, s: string, t: string) {
    if script == [] then s == t else Fits(script[0], s) && Edits(script[1..], Apply(script[0], s), t)
  }

  lemma {:induction false} EditsFirst(op: Op, p: seq<Op>, s: string, t: string)
    requires Fits(op, s) && Edits(p, Apply(op, s), t)
    ensures Edits([op] + p, s, t)
  {
    assert ([op] + p)[1..] == p;
  }

  lemma {:induction false} Regroup(p: seq<Op>, q: seq<Op>)
    requires p != []
    ensures [p[0]] + (p[1..] + q) == p + q
  {
  }

  lemma {:induction false} EditsJoin(p: seq<Op>, q: seq<Op>, s: string, t: string, u: string)
    requires Edits(p, s, t) && Edits(q, t, u)
    ensures Edits(p + q, s, u)
    decreases |p|
  {
    if p == [] {
      assert p + q == q;
    } else {
      EditsJoin(p[1..], q, Apply(p[0], s), t, u);
      EditsFirst(p[0], p[1..] + q, s, u);
      Regroup(p, q);
    }
  }

  // A script works as well in front of one more character.
  lemma {:induction false} EditsBefore(p: seq<Op>, s: string, t: string, c: char)
    requires Edits(p, s, t)
    ensures Edits(p, s + [c], t + [c])
    decreases |p|
  {
    if p != [] {
      EditsBefore(p[1..], Apply(p[0], s), t, c);
      ApplyBefore(p[0], s, c);
    }
  }

  lemma {:induction false} ApplyBefore(op: Op, s: string, c: char)
    requires Fits(op, s)
    ensures Fits(op, s + [c]) && Apply(op, s + [c]) == Apply(op, s) + [c]
  {
    var i := op.pos;
    assert (s + [c])[..i] == s[..i] && (s + [c])[i..] == s[i..] + [c];
    if i < |s| {
      assert (s + [c])[i + 1..] == s[i + 1..] + [c];
    }
  }

  // ---------------------------------------------------------------- the recurrence

  function Min(a: int, b: int): (m: int) { if a < b then a else b }

  function Front(s: string): (t: string)
    requires s != ""
    ensures |t| == |s| - 1
  {
    s[..|s| - 1]
  }

  function Last(s: string): (c: char)
    requires s != ""
  {
    s[|s| - 1]
  }

  function Cost(c: char, d: char): (n: nat) { if c == d then 0 else 1 }

  function Distance(s: string, t: string): (n: nat)
    decreases |s| + |t|
  {
    if s == "" then |t|
    else if t == "" then |s|
    else
      Min(Min(Distance(s, Front(t)) + 1, Distance(Front(s), t) + 1),
          Distance(Front(s), Front(t)) + Cost(Last(s), Last(t)))
  }

  // ---------------------------------------------------------------- no script is shorter

  predicate Near(m: nat, n: nat) { m <= n + 1 && n <= m + 1 }

  // One more character at the end changes the distance by one at most.
  lemma {:induction false} PushNear(s: string, c: char, t: string)
    ensures Near(Distance(s + [c], t), Distance(s, t))
    decreases |t|
  {
    assert Front(s + [c]) == s;
    if t != "" {
      PushNear(s, c, Front(t));
      DistanceStep(s, t);
    }
  }

  lemma {:induction false} DistanceStep(s: string, t: string)
    requires t != ""
    ensures Distance(s, t) <= Distance(s, Front(t)) + 1
  {
  }

  // So does one more character anywhere.
  lemma {:induction false} InsertNear(a: string, c: char, b: string, t: string)
    ensures Near(Distance(a + [c] + b, t), Distance(a + b, t))
    decreases |b| + |t|
  {
    if b == "" {
      assert a + [c] + b == a + [c] && a + b == a;
      PushNear(a, c, t);
    } else {
      assert Front(a + [c] + b) == a + [c] + Front(b) && Front(a + b) == a + Front(b);
      assert Last(a + [c] + b) == Last(b) == Last(a + b);
      if t != "" {
        InsertNear(a, c, Front(b), t);
        InsertNear(a, c, b, Front(t));
        InsertNear(a, c, Front(b), Front(t));
        StepNear(a + [c] + b, a + b, t);
      }
    }
  }

  // And another character in one place.
  lemma {:induction false} SubstituteNear(a: string, c: char, d: char, b: string, t: string)
    ensures Near(Distance(a + [c] + b, t), Distance(a + [d] + b, t))
    decreases |b| + |t|
  {
    var u, v := a + [c] + b, a + [d] + b;
    if t != "" {
      SubstituteNear(a, c, d, b, Front(t));
      if b == "" {
        assert Front(u) == a == Front(v);
      } else {
        FrontBehind(a, c, b);
        FrontBehind(a, d, b);
        SubstituteNear(a, c, d, Front(b), t);
        SubstituteNear(a, c, d, Front(b), Front(t));
        StepNear(u, v, t);
      }
    }
  }

  lemma {:induction false} FrontBehind(a: string, c: char, b: string)
    requires b != ""
    ensures Front(a + [c] + b) == a + [c] + Front(b) && Last(a + [c] + b) == Last(b)
  {
  }

  lemma {:induction false} StepNear(u: string, v: string, t: string)
    requires u != "" && v != "" && t != "" && Last(u) == Last(v)
    requires Near(Distance(Front(u), t), Distance(Front(v), t)) && Near(Distance(u, Front(t)), Distance(v, Front(t)))
    requires Near(Distance(Front(u), Front(t)), Distance(Front(v), Front(t)))
    ensures Near(Distance(u, t), Distance(v, t))
  {
  }

  lemma {:induction false} ApplyNear(op: Op, s: string, t: string)
    requires Fits(op, s)
    ensures Near(Distance(Apply(op, s), t), Distance(s, t))
  {
    var i := op.pos;
    match op
    case Insert(_, c) =>
      InsertNear(s[..i], c, s[i..], t);
      assert s[..i] + s[i..] == s;
    case Delete(_) =>
      InsertNear(s[..i], s[i], s[i + 1..], t);
      assert s[..i] + [s[i]] + s[i + 1..] == s;
    case Substitute(_, c) =>
      SubstituteNear(s[..i], c, s[i], s[i + 1..], t);
      assert s[..i] + [s[i]] + s[i + 1..] == s;
  }

  lemma {:induction false} SameIsZero(s: string)
    ensures Distance(s, s) == 0
  {
    if s != "" {
      SameIsZero(Front(s));
    }
  }

  lemma {:induction false} NoScriptIsShorter(script: seq<Op>, s: string, t: string)
    requires Edits(script, s, t)
    ensures Distance(s, t) <= |script|
    decreases |script|
  {
    if script == [] {
      SameIsZero(s);
    } else {
      NoScriptIsShorter(script[1..], Apply(script[0], s), t);
      ApplyNear(script[0], s, t);
    }
  }

  // ---------------------------------------------------------------- some script is as short

  lemma {:induction false} InsertAll(t: string) returns (script: seq<Op>)
    ensures |script| == |t| && Edits(script, "", t)
  {
    if t == "" {
      script := [];
    } else {
      script := InsertAll(Front(t));
      script := PushInsert(script, "", t);
    }
  }

  lemma {:induction false} PushInsert(p: seq<Op>, s: string, t: string) returns (script: seq<Op>)
    requires t != "" && Edits(p, s, Front(t))
    ensures |script| == |p| + 1 && Edits(script, s, t)
  {
    var op := Insert(|t| - 1, Last(t));
    assert Apply(op, Front(t)) == t;
    assert Edits([op][1..], t, t);
    EditsJoin(p, [op], s, Front(t), t);
    script := p + [op];
  }

  lemma {:induction false} PushDelete(p: seq<Op>, s: string, t: string) returns (script: seq<Op>)
    requires s != "" && Edits(p, Front(s), t)
    ensures |script| == |p| + 1 && Edits(script, s, t)
  {
    var op := Delete(|s| - 1);
    assert Apply(op, s) == Front(s);
    EditsFirst(op, p, s, t);
    script := [op] + p;
  }

  lemma {:induction false} PushKeep(p: seq<Op>, s: string, t: string)
    requires s != "" && t != "" && Last(s) == Last(t) && Edits(p, Front(s), Front(t))
    ensures Edits(p, s, t)
  {
    EditsBefore(p, Front(s), Front(t), Last(t));
    FrontLast(s);
    FrontLast(t);
  }

  lemma {:induction false} FrontLast(s: string)
    requires s != ""
    ensures Front(s) + [Last(s)] == s
  {
  }

  lemma {:induction false} PushSubstitute(p: seq<Op>, s: string, t: string) returns (script: seq<Op>)
    requires s != "" && t != "" && Edits(p, Front(s), Front(t))
    ensures |script| == |p| + 1 && Edits(script, s, t)
  {
    EditsBefore(p, Front(s), Front(t), Last(t));
    assert Front(t) + [Last(t)] == t;
    var op := Substitute(|s| - 1, Last(t));
    assert Apply(op, s) == Front(s) + [Last(t)];
    EditsFirst(op, p, s, t);
    script := [op] + p;
  }

  lemma {:induction false} DeleteAll(s: string) returns (script: seq<Op>)
    ensures |script| == |s| && Edits(script, s, "")
  {
    if s == "" {
      script := [];
    } else {
      script := DeleteAll(Front(s));
      script := PushDelete(script, s, "");
    }
  }

  lemma {:induction false} SomeScriptIsAsShort(s: string, t: string) returns (script: seq<Op>)
    ensures |script| == Distance(s, t) && Edits(script, s, t)
    decreases |s| + |t|
  {
    if s == "" {
      script := InsertAll(t);
    } else if t == "" {
      script := DeleteAll(s);
    } else if Distance(s, t) == Distance(s, Front(t)) + 1 {
      script := SomeScriptIsAsShort(s, Front(t));
      script := PushInsert(script, s, t);
    } else if Distance(s, t) == Distance(Front(s), t) + 1 {
      script := SomeScriptIsAsShort(Front(s), t);
      script := PushDelete(script, s, t);
    } else {
      script := SomeScriptIsAsShort(Front(s), Front(t));
      if Last(s) == Last(t) {
        PushKeep(script, s, t);
      } else {
        script := PushSubstitute(script, s, t);
      }
    }
  }

  // n is the length of a shortest script.
  ghost predicate IsShortest(s: string, t: string, n: nat) {
    (exists script :: |script| == n && Edits(script, s, t)) && forall script :: Edits(script, s, t) ==> n <= |script|
  }

  lemma {:induction false} DistanceIsShortest(s: string, t: string)
    ensures IsShortest(s, t, Distance(s, t))
  {
    var shortest := SomeScriptIsAsShort(s, t);
    forall script | Edits(script, s, t) ensures Distance(s, t) <= |script| { NoScriptIsShorter(script, s, t); }
  }

  // ---------------------------------------------------------------- a metric

  lemma {:induction false} ZeroIffEqual(s: string, t: string)
    ensures Distance(s, t) == 0 <==> s == t
  {
    var script := SomeScriptIsAsShort(s, t);
    SameIsZero(s);
  }

  lemma {:induction false} Symmetric(s: string, t: string)
    ensures Distance(s, t) == Distance(t, s)
    decreases |s| + |t|
  {
    if s != "" && t != "" {
      Symmetric(Front(s), t);
      Symmetric(s, Front(t));
      Symmetric(Front(s), Front(t));
    }
  }

  lemma {:induction false} Triangle(s: string, t: string, u: string)
    ensures Distance(s, u) <= Distance(s, t) + Distance(t, u)
  {
    var p := SomeScriptIsAsShort(s, t);
    var q := SomeScriptIsAsShort(t, u);
    EditsJoin(p, q, s, t, u);
    NoScriptIsShorter(p + q, s, u);
  }

  // ---------------------------------------------------------------- the code

  const MAX_STRLEN := 255

  datatype Result = Ok(distance: nat) | TooLong

  // The first n cells are the distances of the prefixes of s to t.
  predicate IsRow(cells: seq<int>, s: string, t: string, n: nat) {
    n <= |cells| == |s| + 1 && forall i :: 0 <= i < n ==> cells[i] == Distance(s[..i], t)
  }

  lemma {:induction false} CellIs(s: string, t: string, i: nat, j: nat)
    requires 0 < i <= |s| && 0 < j <= |t|
    ensures Distance(s[..i], t[..j]) ==
            Min(Min(Distance(s[..i], t[..j - 1]) + 1, Distance(s[..i - 1], t[..j]) + 1),
                Distance(s[..i - 1], t[..j - 1]) + Cost(s[i - 1], t[j - 1]))
  {
    FrontOf(s, i);
    FrontOf(t, j);
    DistanceIs(s[..i], t[..j]);
  }

  lemma {:induction false} FrontOf(s: string, i: nat)
    requires 0 < i <= |s|
    ensures Front(s[..i]) == s[..i - 1] && Last(s[..i]) == s[i - 1]
  {
  }

  lemma {:induction false} DistanceIs(s: string, t: string)
    requires s != "" && t != ""
    ensures Distance(s, t) ==
            Min(Min(Distance(s, Front(t)) + 1, Distance(Front(s), t) + 1),
                Distance(Front(s), Front(t)) + Cost(Last(s), Last(t)))
  {
  }

  // One row below another.
  method LowerRow(s: string, t: string, j: nat, upper: array<int>, lower: array<int>)
    requires 0 < j <= |t| && upper != lower && lower.Length == |s| + 1
    requires IsRow(upper[..], s, t[..j - 1], |s| + 1)
    modifies lower
    ensures IsRow(lower[..], s, t[..j], |s| + 1)
  {
    lower[0] := j;
    for i := 1 to |s| + 1
      invariant IsRow(lower[..], s, t[..j], i)
    {
      var c := if s[i - 1] == t[j - 1] then 0 else 1;
      var c1 := upper[i] + 1;
      var c2 := lower[i - 1] + 1;
      var c3 := upper[i - 1] + c;
      var least := if (if c1 < c2 then c1 else c2) < c3 then (if c1 < c2 then c1 else c2) else c3;
      NextCell(s, t, i, j, upper[..], lower[..], least);
      lower[i] := least;
    }
  }

  lemma {:induction false} NextCell(s: string, t: string, i: nat, j: nat, upper: seq<int>, lower: seq<int>, least: int)
    requires 0 < i <= |s| && 0 < j <= |t|
    requires IsRow(upper, s, t[..j - 1], |s| + 1) && IsRow(lower, s, t[..j], i)
    requires least == Min(Min(upper[i] + 1, lower[i - 1] + 1), upper[i - 1] + Cost(s[i - 1], t[j - 1]))
    ensures IsRow(lower[i := least], s, t[..j], i + 1)
  {
    CellIs(s, t, i, j);
  }

  method Compute(s: string, t: string) returns (r: Result)
    ensures r == TooLong <==> |s| > MAX_STRLEN || |t| > MAX_STRLEN
    ensures r.Ok? ==> IsShortest(s, t, r.distance)
  {
    if |s| > MAX_STRLEN || |t| > MAX_STRLEN {
      return TooLong;
    }
    var upper := new int[|s| + 1](i => i);
    var lower := new int[|s| + 1];
    FirstRow(s, t, upper[..]);
    for j := 1 to |t| + 1
      invariant upper != lower && upper.Length == lower.Length == |s| + 1 && fresh(upper) && fresh(lower)
      invariant IsRow(upper[..], s, t[..j - 1], |s| + 1)
    {
      LowerRow(s, t, j, upper, lower);
      upper, lower := lower, upper;
    }
    DistanceIsShortest(s, t);
    assert upper[..][|s|] == Distance(s[..|s|], t[..|t|]);
    assert s[..|s|] == s && t[..|t|] == t;
    return Ok(upper[|s|]);
  }

  lemma {:induction false} FirstRow(s: string, t: string, cells: seq<int>)
    requires |cells| == |s| + 1 && forall i :: 0 <= i < |cells| ==> cells[i] == i
    ensures IsRow(cells, s, t[..0], |s| + 1)
  {
  }
}

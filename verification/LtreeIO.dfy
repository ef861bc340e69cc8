/**
 Input and output of label paths (ltree_in and ltree_out in contrib/ltree/ltree_io.c): the
 two-state parser and the printer are inverse to each other as long as the number of levels fits
 the 16-bit field it is stored in.
 */
module LtreeIO {
  import opened LtreeOrder
  import opened Wrappers

  // ISALNUM in the C locale
  predicate IsAlnum(c: char) { 'a' <= c <= 'z' || 'A' <= c <= 'Z' || '0' <= c <= '9' || c == '_' }

  predicate AllAlnum(s: string) { forall i :: 0 <= i < |s| ==> IsAlnum(s[i]) }

  predicate IsName(l: Label) { 0 < |l| <= 255 && AllAlnum(l) }

  predicate IsNames(p: Path) { forall i :: 0 <= i < |p| ==> IsName(p[i]) }

  // The text of a path.
  function Join(p: Path): (s: string) {
    if p == [] then "" else if |p| == 1 then p[0] else p[0] + "." + Join(p[1..])
  }

  // ---------------------------------------------------------------- reading a path back

  function NameEnd(s: string, i: nat): (e: nat)
    requires i <= |s|
    ensures i <= e <= |s| && AllAlnum(s[i..e]) && (e < |s| ==> !IsAlnum(s[e]))
    decreases |s| - i
  {
    if i < |s| && IsAlnum(s[i]) then NameEnd(s, i + 1) else i
  }

  // One or more names separated by dots.
  function Names(s: string): (r: Option<Path>)
    decreases |s|
  {
    var e := NameEnd(s, 0);
    if e == 0 || e > 255 then None
    else if e == |s| then Some([s])
    else if s[e] != '.' then None
    else
      match Names(s[e + 1..])
      case None => None
      case Some(p) => Some([s[..e]] + p)
  }

  // The only path with the text s, if there is one.
  function Split(s: string): (r: Option<Path>) { if s == "" then Some([]) else Names(s) }

  lemma {:induction false} NameEndIs(s: string, i: nat, n: nat)
    requires i <= n <= |s| && AllAlnum(s[i..n]) && (n < |s| ==> !IsAlnum(s[n]))
    ensures NameEnd(s, i) == n
    decreases n - i
  {
    if i < n {
      assert s[i] == s[i..n][0];
      assert s[i + 1..n] == s[i..n][1..];
      NameEndIs(s, i + 1, n);
    }
  }

  lemma {:induction false} NamesOfJoin(p: Path)
    requires p != [] && IsNames(p)
    ensures Names(Join(p)) == Some(p)
  {
    var s, n := Join(p), |p[0]|;
    assert s[0..n] == p[0];
    NameEndIs(s, 0, n);
    if |p| == 1 {
      assert p == [p[0]];
    } else {
      assert s[n] == '.' && s[n + 1..] == Join(p[1..]) && s[..n] == p[0];
      assert p == [p[0]] + p[1..];
      NamesOfJoin(p[1..]);
    }
  }

  lemma {:induction false} CutAt(s: string, e: nat)
    requires e < |s| && s[e] == '.'
    ensures s == s[..e] + "." + s[e + 1..]
  {
  }

  lemma {:induction false} JoinOfNames(s: string)
    requires Names(s).Some?
    ensures Names(s).value != [] && IsNames(Names(s).value) && Join(Names(s).value) == s
    decreases |s|
  {
    var e := NameEnd(s, 0);
    assert s[0..e] == s[..e];
    if e < |s| {
      JoinOfNames(s[e + 1..]);
      CutAt(s, e);
    } else {
      assert s[..e] == s;
    }
  }

  // Reading undoes printing, and printing undoes reading.
  lemma {:induction false} SplitJoin(p: Path)
    requires IsNames(p)
    ensures Split(Join(p)) == Some(p)
  {
    if p != [] {
      NamesOfJoin(p);
      assert Names("") == None;
    }
  }

  lemma {:induction false} JoinSplit(s: string)
    requires Split(s).Some?
    ensures IsNames(Split(s).value) && Join(Split(s).value) == s
  {
    if s != "" { JoinOfNames(s); }
  }

  // ---------------------------------------------------------------- the code

  datatype PathState = WaitName | WaitDot

  // What is read so far and what the rest would give.
  function Resume(list: Path, rest: Option<Path>): (r: Option<Path>) {
    if rest.None? then None else Some(list + rest.value)
  }

  // The parser is at ptr, after the names in `list`; in a name it began at `start`.
  ghost predicate Parsing(s: string, ptr: nat, st: PathState, list: Path, start: nat) {
    && ptr <= |s|
    && match st
       case WaitName => (list == [] && ptr == 0) || (list != [] && s != "" && Split(s) == Resume(list, Names(s[ptr..])))
       case WaitDot => start < ptr && AllAlnum(s[start..ptr]) && Split(s) == Resume(list, Names(s[start..]))
  }

  lemma {:induction false} NameAt(s: string, start: nat, ptr: nat)
    requires start < ptr <= |s| && AllAlnum(s[start..ptr]) && (ptr < |s| ==> !IsAlnum(s[ptr]))
    ensures NameEnd(s[start..], 0) == ptr - start
  {
    var t := s[start..];
    assert t[0..ptr - start] == s[start..ptr];
    NameEndIs(t, 0, ptr - start);
  }

  // A name that is too long, or is not followed by a dot, cannot be continued.
  lemma {:induction false} NameFails(s: string, start: nat, ptr: nat)
    requires start < ptr <= |s| && AllAlnum(s[start..ptr]) && (ptr < |s| ==> !IsAlnum(s[ptr]))
    ensures ptr - start > 255 || (ptr < |s| && s[ptr] != '.') ==> Names(s[start..]) == None
    ensures ptr - start <= 255 && ptr == |s| ==> Names(s[start..]) == Some([s[start..ptr]])
    ensures ptr - start <= 255 && ptr < |s| && s[ptr] == '.' ==>
              Names(s[start..]) == Resume([s[start..ptr]], Names(s[ptr + 1..]))
  {
    NameAt(s, start, ptr);
    var t := s[start..];
    assert t[..ptr - start] == s[start..ptr];
    if ptr < |s| {
      assert t[ptr - start] == s[ptr] && t[ptr - start + 1..] == s[ptr + 1..];
    } else {
      assert t == s[start..ptr];
    }
  }

  lemma {:induction false} WrongFirstChar(s: string, i: nat)
    requires i < |s| && !IsAlnum(s[i])
    ensures Names(s[i..]) == None
  {
    assert s[i..][0] == s[i];
  }

  lemma {:induction false} ResumeTwice(a: Path, b: Path, rest: Option<Path>)
    ensures Resume(a, Resume(b, rest)) == Resume(a + b, rest)
  {
    if rest.Some? { assert a + (b + rest.value) == (a + b) + rest.value; }
  }

  // One turn of the parser loop.
  method ParseChar(s: string, ptr: nat, st: PathState, list: Path, start: nat) returns (ok: bool, st1: PathState, list1: Path, start1: nat)
    requires Parsing(s, ptr, st, list, start) && ptr < |s|
    ensures ok ==> Parsing(s, ptr + 1, st1, list1, start1)
    ensures !ok ==> Split(s) == None
  {
    st1, list1, start1 := st, list, start;
    if st == WaitName {
      if IsAlnum(s[ptr]) {
        assert s[ptr..ptr + 1] == [s[ptr]];
        assert ptr == 0 ==> s[ptr..] == s && forall p: Option<Path> :: Resume([], p) == p by {
          assert forall q: Path :: [] + q == q;
        }
        return true, WaitDot, list, ptr;
      }
      WrongFirstChar(s, ptr);
      assert ptr == 0 ==> s[ptr..] == s;
      return false, st, list, start;
    }
    if s[ptr] == '.' {
      NameFails(s, start, ptr);
      if ptr - start > 255 {
        return false, st, list, start;
      }
      ResumeTwice(list, [s[start..ptr]], Names(s[ptr + 1..]));
      return true, WaitName, list + [s[start..ptr]], start;
    } else if !IsAlnum(s[ptr]) {
      NameFails(s, start, ptr);
      return false, st, list, start;
    }
    assert s[start..ptr + 1] == s[start..ptr] + [s[ptr]];
    return true, st, list, start;
  }

  // ltree_in.  The number of levels is stored in 16 bits.
  method LtreeIn(s: string) returns (r: Option<Path>)
    ensures r.Some? <==> Split(s).Some?
    ensures r.Some? ==> r.value == Split(s).value[..|Split(s).value| % 0x1_0000]
  {
    var st: PathState, list: Path, start: nat := WaitName, [], 0;
    var ptr := 0;
    while ptr < |s|
      invariant Parsing(s, ptr, st, list, start)
    {
      var ok;
      ok, st, list, start := ParseChar(s, ptr, st, list, start);
      if !ok {
        return None;
      }
      ptr := ptr + 1;
    }
    if st == WaitDot {
      NameFails(s, start, ptr);
      if ptr - start > 255 {
        return None;
      }
      list := list + [s[start..ptr]];
    } else if list != [] {
      assert s[ptr..] == "" && Names("") == None;
      return None;
    }
    return Some(list[..|list| % 0x1_0000]);
  }

  // ltree_out
  method LtreeOut(p: Path) returns (s: string)
    ensures s == Join(p)
  {
    s := "";
    for i := 0 to |p|
      invariant s == Join(p[..i])
    {
      JoinPush(p[..i], p[i]);
      assert p[..i + 1] == p[..i] + [p[i]];
      if i != 0 {
        s := s + ".";
      }
      s := s + p[i];
    }
    assert p[..|p|] == p;
  }

  lemma {:induction false} JoinPush(p: Path, l: Label)
    ensures Join(p + [l]) == if p == [] then l else Join(p) + "." + l
  {
    if |p| > 1 {
      assert (p + [l])[1..] == p[1..] + [l];
      JoinPush(p[1..], l);
      assert p[0] + "." + (Join(p[1..]) + "." + l) == (p[0] + "." + Join(p[1..])) + "." + l;
    } else if |p| == 1 {
      assert (p + [l])[1..] == [l];
    }
  }

  // What ltree_in returns for s prints as s if and only if s has fewer than 65536 levels.
  lemma {:induction false} InputIsKeptExactly(s: string, p: Path)
    requires Split(s) == Some(p)
    ensures Join(p[..|p| % 0x1_0000]) == s <==> |p| <= 0xffff
  {
    JoinSplit(s);
    var q := p[..|p| % 0x1_0000];
    if |p| <= 0xffff {
      assert q == p;
    } else if Join(q) == s {
      SplitJoin(q);
    }
  }
}

/**
 The stored form of lquery patterns (contrib/ltree/ltree.h) and the 16-bit fields in it.  A level
 records its number of alternatives and its size in bytes in 16 bits each; the next level is
 written, and later looked for, that many bytes further on.  Sizes are those of an 8-byte MAXALIGN.
 */
module LqueryStore {
  import opened LqueryOp

  // LQUERY_HDRSIZE and LQL_HDRSIZE
  const HEADER: nat := 16
  const WORD: nat := 0x1_0000

  function Aligned(n: nat): (r: nat)
    ensures n <= r < n + 8 && r % 8 == 0 && (n % 8 == 0 ==> r == n)
  {
    (n + 7) / 8 * 8
  }

  function VarSize(v: Variant): (n: nat) { Aligned(8 + |v.name|) }

  function VarsSize(vars: seq<Variant>): (n: nat) {
    if vars == [] then 0 else VarsSize(vars[..|vars| - 1]) + VarSize(vars[|vars| - 1])
  }

  // The bytes a level takes.
  function Size(lev: Level): (n: nat) { HEADER + if lev.Star? then 0 else VarsSize(lev.vars) }

  lemma {:induction false} VarsAreAligned(vars: seq<Variant>)
    ensures VarsSize(vars) % 8 == 0
  {
    if vars != [] {
      VarsAreAligned(vars[..|vars| - 1]);
      Eights(VarsSize(vars[..|vars| - 1]), VarSize(vars[|vars| - 1]));
    }
  }

  lemma {:induction false} Eights(a: nat, b: nat)
    requires a % 8 == 0 && b % 8 == 0
    ensures (a + b) % 8 == 0
  {
  }

  lemma {:induction false} LevelIsAligned(lev: Level)
    ensures Size(lev) % 8 == 0
  {
    if lev.Vars? {
      VarsAreAligned(lev.vars);
      Eights(HEADER, VarsSize(lev.vars));
    }
  }

  // What is left of a level when its alternatives are counted in 16 bits.  A level without
  // alternatives is a star, with the bounds that were never set.
  function Kept(lev: Level): (k: Level) {
    if lev.Star? then lev
    else
      var n := |lev.vars| % WORD;
      if n == 0 then Star(0, 0) else Vars(lev.not, lev.vars[..n])
  }

  function KeptAll(levels: seq<Level>): (r: seq<Level>)
    ensures |r| == |levels| && forall i :: 0 <= i < |r| ==> r[i] == Kept(levels[i])
  {
    seq(|levels|, i requires 0 <= i < |levels| => Kept(levels[i]))
  }

  predicate FewVars(lev: Level) { lev.Vars? ==> |lev.vars| < WORD }

  lemma {:induction false} KeptExactly(lev: Level)
    requires lev.Vars? ==> lev.vars != []
    ensures Kept(lev) == lev <==> FewVars(lev)
  {
    if lev.Vars? && |lev.vars| < WORD {
      assert |lev.vars| % WORD == |lev.vars| && lev.vars[..|lev.vars|] == lev.vars;
    }
  }

  // ---------------------------------------------------------------- places

  // Where the i-th level is written: LQL_NEXT adds the 16-bit size of the one before.
  function Place(levels: seq<Level>, i: nat): (p: nat)
    requires i <= |levels|
  {
    if i == 0 then HEADER else Place(levels, i - 1) + Aligned(Size(levels[i - 1]) % WORD)
  }

  // Two levels share bytes: the later one is written over the earlier one.
  ghost predicate Overlap(levels: seq<Level>) {
    exists i, j :: 0 <= i < j < |levels| && Meet(levels, i, j)
  }

  predicate Meet(levels: seq<Level>, i: nat, j: nat)
    requires i < |levels| && j < |levels|
  {
    Place(levels, i) < Place(levels, j) + Size(levels[j]) && Place(levels, j) < Place(levels, i) + Size(levels[i])
  }

  // Every level but the last has a size that fits its field.
  predicate SizesFit(levels: seq<Level>) { forall i :: 0 <= i < |levels| - 1 ==> Size(levels[i]) < WORD }

  lemma {:induction false} FitIsApart(levels: seq<Level>, i: nat, j: nat)
    requires i < j < |levels| && SizesFit(levels)
    ensures Place(levels, i) + Size(levels[i]) <= Place(levels, j)
  {
    if i + 1 < j {
      FitIsApart(levels, i, j - 1);
    } else {
      NextPlace(levels, i);
    }
  }

  // The step to the next level is the size of this one, or less if that does not fit.
  lemma {:induction false} NextPlace(levels: seq<Level>, i: nat)
    requires i < |levels|
    ensures var step, s := Place(levels, i + 1) - Place(levels, i), Size(levels[i]);
            0 <= step && (s < WORD ==> step == s) && (s >= WORD ==> step < s)
  {
    LevelIsAligned(levels[i]);
    WordStep(Size(levels[i]));
  }

  lemma {:induction false} WordStep(s: nat)
    requires s % 8 == 0
    ensures s < WORD ==> Aligned(s % WORD) == s
    ensures s >= WORD ==> Aligned(s % WORD) < s
  {
    if s < WORD {
      assert s % WORD == s;
    } else {
      assert s % WORD <= s - WORD;
    }
  }

  lemma {:induction false} LongMeetsNext(levels: seq<Level>, i: nat)
    requires i < |levels| - 1
    ensures Meet(levels, i, i + 1) <==> Size(levels[i]) >= WORD
    ensures Place(levels, i + 1) < Place(levels, i) + Size(levels[i]) <==> Size(levels[i]) >= WORD
  {
    NextPlace(levels, i);
  }

  // Levels overlap if and only if one of them, not the last, is too long.
  lemma {:induction false} OverlapExactly(levels: seq<Level>)
    ensures Overlap(levels) <==> !SizesFit(levels)
  {
    if SizesFit(levels) {
      forall i, j | 0 <= i < j < |levels| ensures !Meet(levels, i, j) { FitIsApart(levels, i, j); }
    } else {
      var i :| 0 <= i < |levels| - 1 && Size(levels[i]) >= WORD;
      LongMeetsNext(levels, i);
    }
  }

  // ---------------------------------------------------------------- writing the levels

  lemma {:induction false} AddWord(a: nat, b: nat)
    ensures (a % WORD + b) % WORD == (a + b) % WORD
  {
    ModSkips(a % WORD + b, a / WORD);
  }

  lemma {:induction false} ModSkips(a: nat, q: nat)
    ensures (a + WORD * q) % WORD == a % WORD
  {
    if q > 0 { ModSkips(a, q - 1); }
  }

  lemma {:induction false} VarsSizeNext(vars: seq<Variant>, j: nat)
    requires j < |vars|
    ensures VarsSize(vars[..j + 1]) == VarsSize(vars[..j]) + VarSize(vars[j])
  {
    assert vars[..j + 1][..j] == vars[..j];
  }

  // The size of a level, and the same added up in its 16-bit field.
  method LevelSize(lev: Level) returns (size: nat, totallen: nat)
    ensures size == Size(lev) && totallen == Size(lev) % WORD
  {
    size, totallen := HEADER, HEADER;
    if lev.Vars? {
      for j := 0 to |lev.vars|
        invariant size == HEADER + VarsSize(lev.vars[..j]) && totallen == size % WORD
      {
        VarsSizeNext(lev.vars, j);
        AddWord(size, VarSize(lev.vars[j]));
        size := size + VarSize(lev.vars[j]);
        totallen := (totallen + VarSize(lev.vars[j])) % WORD;
      }
      assert lev.vars[..|lev.vars|] == lev.vars;
    }
  }

  // The loop that writes the levels; it notes whether a level was begun inside the one before.
  method Lay(levels: seq<Level>) returns (overlap: bool)
    ensures overlap <==> Overlap(levels)
  {
    var cur := HEADER;
    overlap := false;
    for i := 0 to |levels|
      invariant cur == Place(levels, i)
      invariant overlap <==> exists j :: 0 <= j < i && j < |levels| - 1 && Size(levels[j]) >= WORD
    {
      var size, totallen := LevelSize(levels[i]);
      var next := cur + Aligned(totallen);
      if i < |levels| - 1 {
        LongMeetsNext(levels, i);
        overlap := overlap || next < cur + size;
      }
      cur := next;
    }
    OverlapExactly(levels);
  }

  // ---------------------------------------------------------------- the printer's buffer

  // What lquery_out reckons for one level.
  function Room(lev: Level): (n: nat) {
    1 + if lev.Star? then 2 * 11 + 4 else |lev.vars| * 4 + 1 + Size(lev) % WORD
  }

  // It keeps the figure for the last level only.
  function OutSize(levels: seq<Level>): (n: nat) {
    if levels == [] then 0 else Room(levels[|levels| - 1])
  }

  method Reckon(levels: seq<Level>) returns (totallen: nat)
    ensures totallen == OutSize(levels)
  {
    totallen := 0;
    for i := 0 to |levels|
      invariant totallen == OutSize(levels[..i])
    {
      var _, size := LevelSize(levels[i]);
      totallen := if levels[i].Vars? then |levels[i].vars| * 4 + 1 + size else 2 * 11 + 4;
      totallen := totallen + 1;
    }
    assert levels[..|levels|] == levels;
  }
}

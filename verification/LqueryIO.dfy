/**
 Input and output of lquery patterns (lquery_in and lquery_out in contrib/ltree/ltree_io.c): the
 nine-state parser, the printer, and the proof that parsing undoes printing exactly as long as the
 16-bit fields of the stored form hold the pattern.
 */
module LqueryIO {
  import opened LtreeIO
  import opened LqueryOp
  import opened LqueryStore

  // A stored pattern.  The bits of a level's flag word are the modifiers of its alternatives and
  // the negation, so they are not kept twice.
  datatype Lquery = Lquery(levels: seq<Level>, firstgood: nat, hasnot: bool)

  predicate IsDigit(c: char) { '0' <= c <= '9' }

  // ---------------------------------------------------------------- printing

  function Digits(n: nat): (s: string)
    ensures 0 < |s| && forall i :: 0 <= i < |s| ==> IsDigit(s[i])
  {
    var d := [(n % 10 + '0' as int) as char];
    if n < 10 then d else Digits(n / 10) + d
  }

  function Modifiers(v: Variant): (s: string) {
    (if v.sublexem then "%" else "") + (if v.incase then "@" else "") + (if v.anyend then "*" else "")
  }

  function PrintVariant(v: Variant): (s: string) { v.name + Modifiers(v) }

  function PrintVariants(vs: seq<Variant>): (s: string) {
    if vs == [] then "" else if |vs| == 1 then PrintVariant(vs[0])
    else PrintVariant(vs[0]) + "|" + PrintVariants(vs[1..])
  }

  function Bang(not: bool): (s: string) { if not then "!" else "" }

  function PrintLevel(lev: Level): (s: string) {
    match lev
    case Vars(not, vars) => Bang(not) + PrintVariants(vars)
    case Star(low, high) =>
      if low == high then "*{" + Digits(low) + "}"
      else if low == 0 then (if high == 0xffff then "*" else "*{," + Digits(high) + "}")
      else if high == 0xffff then "*{" + Digits(low) + ",}"
      else "*{" + Digits(low) + "," + Digits(high) + "}"
  }

  function Print(levels: seq<Level>): (s: string) {
    if levels == [] then "" else if |levels| == 1 then PrintLevel(levels[0])
    else PrintLevel(levels[0]) + "." + Print(levels[1..])
  }

  // ---------------------------------------------------------------- parsing

  // atoi from position i on
  function Atoi(buf: string, i: nat, acc: nat): (n: nat)
    requires i <= |buf|
    decreases |buf| - i
  {
    if i < |buf| && IsDigit(buf[i]) then Atoi(buf, i + 1, acc * 10 + (buf[i] as int - '0' as int)) else acc
  }

  // assigned to a uint16
  function Number(buf: string, i: nat): (n: nat)
    requires i <= |buf|
    ensures n <= 0xffff
  {
    Atoi(buf, i, 0) % 0x1_0000
  }

  datatype PState =
    | WaitLevel | WaitDelim | WaitOpen | WaitFNum | WaitSNum | WaitND | WaitClose | WaitEnd | WaitVar

  // The level being read: its finished alternatives, and the start and modifiers of the current
  // one; or the bounds of a star.
  datatype St = St(ps: PState, done: seq<Level>, hasnot: bool, not: bool, vars: seq<Variant>,
                   start: nat, incase: bool, anyend: bool, sublexem: bool, low: nat, high: nat)

  datatype Result<+T> = Ok(value: T) | Err

  // A zeroed level after the finished ones.
  function Fresh(done: seq<Level>, hasnot: bool): (s: St) {
    St(WaitLevel, done, hasnot, false, [], 0, false, false, false, 0, 0)
  }

  function Flagged(s: St): (b: bool) { s.incase || s.anyend || s.sublexem }

  function One(b: bool): (n: nat) { if b then 1 else 0 }

  // The name is what lies between its start and its modifiers.
  function NameLen(s: St, ptr: nat): (n: int) { ptr - s.start - One(s.sublexem) - One(s.incase) - One(s.anyend) }

  // Finish the current alternative at ptr.
  function EndVariant(buf: string, ptr: nat, s: St): (r: Result<seq<Variant>>)
    requires ptr <= |buf|
  {
    var len := NameLen(s, ptr);
    if len < 0 || len > 255 || s.start + len > |buf| then Err
    else Ok(s.vars + [Variant(buf[s.start..s.start + len], s.incase, s.anyend, s.sublexem)])
  }

  // One turn of the parser loop.
  function Step(buf: string, ptr: nat, s: St): (r: Result<St>)
    requires ptr < |buf|
  {
    var c := buf[ptr];
    match s.ps
    case WaitLevel =>
      if IsAlnum(c) then Ok(s.(ps := WaitDelim, start := ptr))
      else if c == '!' then Ok(s.(ps := WaitDelim, start := ptr + 1, not := true, hasnot := true))
      else if c == '*' then Ok(s.(ps := WaitOpen))
      else Err
    case WaitVar =>
      if IsAlnum(c) then Ok(s.(ps := WaitDelim, start := ptr)) else Err
    case WaitDelim =>
      if c == '@' then (if s.start == ptr then Err else Ok(s.(incase := true)))
      else if c == '*' then (if s.start == ptr then Err else Ok(s.(anyend := true)))
      else if c == '%' then (if s.start == ptr then Err else Ok(s.(sublexem := true)))
      else if c == '|' then
        (match EndVariant(buf, ptr, s)
         case Err => Err
         case Ok(vars) => Ok(s.(ps := WaitVar, vars := vars, incase := false, anyend := false, sublexem := false)))
      else if c == '.' then
        (match EndVariant(buf, ptr, s)
         case Err => Err
         case Ok(vars) => Ok(Fresh(s.done + [Vars(s.not, vars)], s.hasnot)))
      else if IsAlnum(c) then (if Flagged(s) then Err else Ok(s))
      else Err
    case WaitOpen =>
      if c == '{' then Ok(s.(ps := WaitFNum))
      else if c == '.' then Ok(Fresh(s.done + [Star(0, 0xffff)], s.hasnot))
      else Err
    case WaitFNum =>
      if c == ',' then Ok(s.(ps := WaitSNum))
      else if IsDigit(c) then Ok(s.(ps := WaitND, low := Number(buf, ptr)))
      else Err
    case WaitSNum =>
      if IsDigit(c) then Ok(s.(ps := WaitClose, high := Number(buf, ptr)))
      else if c == '}' then Ok(s.(ps := WaitEnd, high := 0xffff))
      else Err
    case WaitClose =>
      if c == '}' then Ok(s.(ps := WaitEnd)) else if IsDigit(c) then Ok(s) else Err
    case WaitND =>
      if c == '}' then Ok(s.(ps := WaitEnd, high := s.low))
      else if c == ',' then Ok(s.(ps := WaitSNum))
      else if IsDigit(c) then Ok(s)
      else Err
    case WaitEnd =>
      if c == '.' then Ok(Fresh(s.done + [Star(s.low, s.high)], s.hasnot)) else Err
  }

  function Run(buf: string, ptr: nat, s: St): (r: Result<St>)
    requires ptr <= |buf|
    decreases |buf| - ptr
  {
    if ptr == |buf| then Ok(s)
    else match Step(buf, ptr, s) case Err => Err case Ok(t) => Run(buf, ptr + 1, t)
  }

  // After the last character.
  function Finish(buf: string, s: St): (r: Result<seq<Level>>) {
    match s.ps
    case WaitDelim =>
      if s.start == |buf| || NameLen(s, |buf|) == 0 then Err
      else
        (match EndVariant(buf, |buf|, s)
         case Err => Err
         case Ok(vars) => Ok(s.done + [Vars(s.not, vars)]))
    case WaitOpen => Ok(s.done + [Star(s.low, 0xffff)])
    case WaitEnd => Ok(s.done + [Star(s.low, s.high)])
    case _ => Err
  }

  predicate BoundsOk(levels: seq<Level>) { forall lev :: lev in levels && lev.Star? ==> lev.low <= lev.high }

  // What becomes of the text: a stored pattern, an error, or levels written over each other.
  datatype Input = Stored(q: Lquery) | Rejected | Overlapping

  // The flag word of a level collects the modifiers of all alternatives, also of those not kept.
  predicate KeptGood(lev: Level) {
    && lev.Vars? && !lev.not && |lev.vars| % WORD == 1
    && forall v :: v in lev.vars ==> !v.incase && !v.anyend && !v.sublexem
  }

  function KeptFirstGood(levels: seq<Level>): (n: nat)
    ensures n <= |levels|
    ensures forall i :: 0 <= i < n ==> KeptGood(levels[i])
    ensures n < |levels| ==> !KeptGood(levels[n])
  {
    if levels == [] || !KeptGood(levels[0]) then 0 else 1 + KeptFirstGood(levels[1..])
  }

  // The levels as stored; the numbers of levels and of plain levels are 16-bit fields too.
  ghost function Store(levels: seq<Level>, hasnot: bool): (r: Input) {
    if Overlap(KeptAll(levels)) then Overlapping
    else Stored(Lquery(KeptAll(levels)[..|levels| % WORD], KeptFirstGood(levels) % WORD, hasnot))
  }

  // lquery_in
  ghost function Parse(buf: string): (r: Input) {
    match Run(buf, 0, Fresh([], false))
    case Err => Rejected
    case Ok(s) =>
      match Finish(buf, s)
      case Err => Rejected
      case Ok(levels) => if !BoundsOk(levels) then Rejected else Store(levels, s.hasnot)
  }

  // ---------------------------------------------------------------- well-formed patterns

  predicate WellFormedLevel(lev: Level) {
    match lev
    case Vars(_, vars) => vars != [] && forall v :: v in vars ==> IsName(v.name)
    case Star(low, high) => low <= high <= 0xffff
  }

  // Every field of the stored pattern holds its value: the number of levels, the number of
  // alternatives of each level, and the size of each level but the last.
  predicate Fits(levels: seq<Level>) {
    |levels| < WORD && (forall i :: 0 <= i < |levels| ==> FewVars(levels[i])) && SizesFit(levels)
  }

  // piece is what stands in buf at ptr
  ghost predicate At(buf: string, ptr: nat, piece: string) {
    ptr + |piece| <= |buf| && forall i :: 0 <= i < |piece| ==> buf[ptr + i] == piece[i]
  }

  // ---------------------------------------------------------------- runs of the parser

  // The parser goes from state s at p to state t at q.
  ghost predicate Leads(buf: string, p: nat, s: St, q: nat, t: St) {
    exists states :: Visits(buf, p, s, q, t, states)
  }

  ghost predicate Visits(buf: string, p: nat, s: St, q: nat, t: St, states: seq<St>) {
    && p <= q <= |buf| && |states| == q - p + 1 && states[0] == s && states[q - p] == t
    && forall i :: 0 <= i < q - p ==> StepAt(buf, p, states, i)
  }

  ghost predicate StepAt(buf: string, p: nat, states: seq<St>, i: nat) {
    i + 1 < |states| && Goes(buf, p + i, states[i], states[i + 1])
  }

  ghost predicate Goes(buf: string, ptr: nat, s: St, t: St) { ptr < |buf| && Step(buf, ptr, s) == Ok(t) }

  lemma {:induction false} LeadsNowhere(buf: string, p: nat, s: St)
    requires p <= |buf|
    ensures Leads(buf, p, s, p, s)
  {
    assert Visits(buf, p, s, p, s, [s]);
  }

  lemma {:induction false} LeadsOne(buf: string, p: nat, s: St, t: St)
    requires Goes(buf, p, s, t)
    ensures Leads(buf, p, s, p + 1, t)
  {
    assert StepAt(buf, p, [s, t], 0);
    assert Visits(buf, p, s, p + 1, t, [s, t]);
  }

  lemma {:induction false} LeadsOn(buf: string, p: nat, s: St, q: nat, t: St, r: nat, u: St)
    requires Leads(buf, p, s, q, t) && Leads(buf, q, t, r, u)
    ensures Leads(buf, p, s, r, u)
  {
    var a :| Visits(buf, p, s, q, t, a);
    var b :| Visits(buf, q, t, r, u, b);
    var c := a + b[1..];
    forall i | 0 <= i < r - p ensures StepAt(buf, p, c, i) {
      if i >= q - p {
        assert StepAt(buf, q, b, i - (q - p));
        assert c[i] == b[i - (q - p)] && c[i + 1] == b[i - (q - p) + 1];
      } else {
        assert StepAt(buf, p, a, i);
      }
    }
    assert Visits(buf, p, s, r, u, c);
  }

  lemma {:induction false} VisitsRuns(buf: string, p: nat, s: St, q: nat, t: St, states: seq<St>)
    requires Visits(buf, p, s, q, t, states)
    ensures Run(buf, p, s) == Run(buf, q, t)
    decreases q - p
  {
    if p < q {
      assert StepAt(buf, p, states, 0);
      var rest, next := states[1..], p + 1;
      forall i | 0 <= i < q - next ensures StepAt(buf, next, rest, i) {
        assert StepAt(buf, p, states, i + 1);
      }
      VisitsRuns(buf, next, states[1], q, t, rest);
    }
  }

  lemma {:induction false} LeadsRuns(buf: string, p: nat, s: St, q: nat, t: St)
    requires Leads(buf, p, s, q, t)
    ensures p <= q <= |buf| && Run(buf, p, s) == Run(buf, q, t)
  {
    var states :| Visits(buf, p, s, q, t, states);
    VisitsRuns(buf, p, s, q, t, states);
  }

  // ---------------------------------------------------------------- pieces of text

  lemma {:induction false} AtParts(buf: string, ptr: nat, a: string, b: string)
    requires At(buf, ptr, a + b)
    ensures At(buf, ptr, a) && At(buf, ptr + |a|, b)
  {
    forall i | 0 <= i < |a| ensures buf[ptr + i] == a[i] { assert (a + b)[i] == a[i]; }
    forall i | 0 <= i < |b| ensures buf[ptr + |a| + i] == b[i] { assert (a + b)[|a| + i] == b[i]; }
  }

  lemma {:induction false} AtThree(buf: string, ptr: nat, a: string, b: string, c: string)
    requires At(buf, ptr, a + b + c)
    ensures At(buf, ptr, a) && At(buf, ptr + |a|, b) && At(buf, ptr + |a| + |b|, c)
  {
    AtParts(buf, ptr, a + b, c);
    AtParts(buf, ptr, a, b);
  }

  lemma {:induction false} AtChar(buf: string, ptr: nat, a: string, i: nat)
    requires At(buf, ptr, a) && i < |a|
    ensures buf[ptr + i] == a[i]
  {
  }

  lemma {:induction false} AtSlice(buf: string, ptr: nat, a: string)
    requires At(buf, ptr, a)
    ensures buf[ptr..ptr + |a|] == a
  {
  }

  // ---------------------------------------------------------------- alternatives

  // The rest of a name is read without any change of state.
  lemma {:induction false} RunName(buf: string, ptr: nat, e: nat, s: St)
    requires ptr <= e <= |buf| && s.ps == WaitDelim && !Flagged(s)
    requires forall i :: ptr <= i < e ==> IsAlnum(buf[i])
    ensures Leads(buf, ptr, s, e, s)
    decreases e - ptr
  {
    if ptr < e {
      LeadsOne(buf, ptr, s, s);
      RunName(buf, ptr + 1, e, s);
      LeadsOn(buf, ptr, s, ptr + 1, s, e, s);
    } else {
      LeadsNowhere(buf, ptr, s);
    }
  }

  // One modifier, if it is there, sets its flag.
  lemma {:induction false} RunModifier(buf: string, ptr: nat, s: St, m: string, t: St)
    requires s.ps == WaitDelim && s.start < ptr && At(buf, ptr, m)
    requires Sets(s, m, t)
    ensures Leads(buf, ptr, s, ptr + |m|, t)
  {
    if m == "" {
      LeadsNowhere(buf, ptr, s);
    } else {
      AtChar(buf, ptr, m, 0);
      LeadsOne(buf, ptr, s, t);
    }
  }

  function WithFlags(s: St, v: Variant): (t: St) {
    s.(incase := v.incase, anyend := v.anyend, sublexem := v.sublexem)
  }

  lemma {:induction false} RunModifiers(buf: string, ptr: nat, s: St, v: Variant)
    requires s.ps == WaitDelim && !Flagged(s) && s.start < ptr && At(buf, ptr, Modifiers(v))
    ensures Leads(buf, ptr, s, ptr + |Modifiers(v)|, WithFlags(s, v))
  {
    var a, b, c := if v.sublexem then "%" else "", if v.incase then "@" else "", if v.anyend then "*" else "";
    var t := s.(sublexem := v.sublexem);
    var u := t.(incase := v.incase);
    var w := u.(anyend := v.anyend);
    AtParts(buf, ptr, a + b, c);
    RunTwo(buf, ptr, s, a, t, b, u);
    RunModifier(buf, ptr + |a + b|, u, c, w);
    LeadsOn(buf, ptr, s, ptr + |a + b|, u, ptr + |a + b| + |c|, w);
  }

  ghost predicate Sets(s: St, m: string, t: St) {
    || (m == "" && t == s) || (m == "%" && t == s.(sublexem := true))
    || (m == "@" && t == s.(incase := true)) || (m == "*" && t == s.(anyend := true))
  }

  lemma {:induction false} RunTwo(buf: string, ptr: nat, s: St, a: string, t: St, b: string, u: St)
    requires s.ps == WaitDelim && s.start < ptr && At(buf, ptr, a + b) && Sets(s, a, t) && Sets(t, b, u)
    ensures Leads(buf, ptr, s, ptr + |a + b|, u)
  {
    AtParts(buf, ptr, a, b);
    RunModifier(buf, ptr, s, a, t);
    RunModifier(buf, ptr + |a|, t, b, u);
    LeadsOn(buf, ptr, s, ptr + |a|, t, ptr + |a| + |b|, u);
  }

  // A whole alternative, of which the parser has read up to ptr.
  lemma {:induction false} RunVariant(buf: string, ptr: nat, s: St, v: Variant)
    requires s.ps == WaitDelim && !Flagged(s) && s.start <= ptr <= s.start + |v.name| && IsName(v.name)
    requires At(buf, s.start, PrintVariant(v))
    ensures var e := s.start + |PrintVariant(v)|;
            && Leads(buf, ptr, s, e, WithFlags(s, v))
            && EndVariant(buf, e, WithFlags(s, v)) == Ok(s.vars + [v]) && NameLen(WithFlags(s, v), e) == |v.name|
  {
    AtParts(buf, s.start, v.name, Modifiers(v));
    var m := s.start + |v.name|;
    forall i | ptr <= i < m ensures IsAlnum(buf[i]) { AtChar(buf, s.start, v.name, i - s.start); }
    RunName(buf, ptr, m, s);
    RunModifiers(buf, m, s, v);
    LeadsOn(buf, ptr, s, m, s, m + |Modifiers(v)|, WithFlags(s, v));
    AtSlice(buf, s.start, v.name);
  }

  // Over the | into the next alternative.
  function NextVariant(s: St, v: Variant, start: nat): (t: St) { s.(vars := s.vars + [v], start := start) }

  lemma {:induction false} RunToNext(buf: string, ptr: nat, s: St, v: Variant, rest: string)
    requires s.ps == WaitDelim && !Flagged(s) && s.start <= ptr <= s.start + |v.name| && IsName(v.name)
    requires At(buf, s.start, PrintVariant(v) + "|" + rest) && 0 < |rest| && IsAlnum(rest[0])
    ensures var e := s.start + |PrintVariant(v)|;
            At(buf, e + 1, rest) && Leads(buf, ptr, s, e + 2, NextVariant(s, v, e + 1))
  {
    AtThree(buf, s.start, PrintVariant(v), "|", rest);
    var e := s.start + |PrintVariant(v)|;
    RunVariant(buf, ptr, s, v);
    AtChar(buf, e, "|", 0);
    AtChar(buf, e + 1, rest, 0);
    var t, w := WithFlags(s, v), NextVariant(s, v, e + 1);
    var u := s.(ps := WaitVar, vars := s.vars + [v]);
    assert Goes(buf, e, t, u);
    LeadsOne(buf, e, t, u);
    LeadsOne(buf, e + 1, u, w);
    LeadsOn(buf, ptr, s, e, t, e + 1, u);
    LeadsOn(buf, ptr, s, e + 1, u, e + 2, w);
  }

  // The same level is being read.
  predicate SameLevel(s: St, t: St) { t.ps == s.ps && t.done == s.done && t.hasnot == s.hasnot && t.not == s.not }

  // In state t at e all alternatives vs have been read, and the last one can be closed.
  ghost predicate RunVariantsTo(buf: string, ptr: nat, s: St, vs: seq<Variant>, t: St) {
    var e := s.start + |PrintVariants(vs)|;
    && e <= |buf| && t.start < e && SameLevel(s, t) && Leads(buf, ptr, s, e, t)
    && EndVariant(buf, e, t) == Ok(s.vars + vs) && NameLen(t, e) > 0
  }

  // All alternatives of a level; `ptr` is inside the first one.
  lemma {:induction false} RunVariants(buf: string, ptr: nat, s: St, vs: seq<Variant>) returns (t: St)
    requires vs != [] && s.ps == WaitDelim && !Flagged(s) && s.start <= ptr <= s.start + |vs[0].name|
    requires (forall v :: v in vs ==> IsName(v.name)) && At(buf, s.start, PrintVariants(vs))
    ensures RunVariantsTo(buf, ptr, s, vs, t)
    decreases |vs|
  {
    if |vs| == 1 {
      LastVariant(buf, ptr, s, vs);
      t := WithFlags(s, vs[0]);
    } else {
      FirstOfVariants(vs[1..]);
      RunToNext(buf, ptr, s, vs[0], PrintVariants(vs[1..]));
      var e := s.start + |PrintVariant(vs[0])|;
      t := RunVariants(buf, e + 2, NextVariant(s, vs[0], e + 1), vs[1..]);
      LaterVariants(buf, ptr, s, vs, e, t);
    }
  }

  lemma {:induction false} LastVariant(buf: string, ptr: nat, s: St, vs: seq<Variant>)
    requires |vs| == 1 && s.ps == WaitDelim && !Flagged(s) && s.start <= ptr <= s.start + |vs[0].name|
    requires IsName(vs[0].name) && At(buf, s.start, PrintVariants(vs))
    ensures RunVariantsTo(buf, ptr, s, vs, WithFlags(s, vs[0]))
  {
    RunVariant(buf, ptr, s, vs[0]);
    assert vs == [vs[0]];
  }

  lemma {:induction false} FirstOfVariants(vs: seq<Variant>)
    requires vs != [] && IsName(vs[0].name)
    ensures 0 < |PrintVariants(vs)| && PrintVariants(vs)[0] == vs[0].name[0] && IsAlnum(vs[0].name[0])
  {
  }

  lemma {:induction false} LaterVariants(buf: string, ptr: nat, s: St, vs: seq<Variant>, e: nat, t: St)
    requires |vs| > 1 && e == s.start + |PrintVariant(vs[0])|
    requires Leads(buf, ptr, s, e + 2, NextVariant(s, vs[0], e + 1))
    requires RunVariantsTo(buf, e + 2, NextVariant(s, vs[0], e + 1), vs[1..], t)
    ensures RunVariantsTo(buf, ptr, s, vs, t)
  {
    var w := NextVariant(s, vs[0], e + 1);
    assert (s.vars + [vs[0]]) + vs[1..] == s.vars + vs;
    LeadsOn(buf, ptr, s, e + 2, w, w.start + |PrintVariants(vs[1..])|, t);
  }

  // ---------------------------------------------------------------- stars

  lemma {:induction false} AtoiSkips(buf: string, p: nat, n: nat)
    requires At(buf, p, Digits(n))
    ensures Atoi(buf, p, 0) == Atoi(buf, p + |Digits(n)|, n)
  {
    var c := [(n % 10 + '0' as int) as char];
    if n < 10 {
      AtChar(buf, p, Digits(n), 0);
    } else {
      AtParts(buf, p, Digits(n / 10), c);
      AtoiSkips(buf, p, n / 10);
      AtChar(buf, p + |Digits(n / 10)|, c, 0);
    }
  }

  // A number followed by something else is read back.
  lemma {:induction false} NumberIs(buf: string, p: nat, n: nat)
    requires At(buf, p, Digits(n)) && n <= 0xffff && p + |Digits(n)| < |buf| && !IsDigit(buf[p + |Digits(n)|])
    ensures Number(buf, p) == n
    ensures forall i :: p <= i < p + |Digits(n)| ==> IsDigit(buf[i])
  {
    AtoiSkips(buf, p, n);
    forall i | p <= i < p + |Digits(n)| ensures IsDigit(buf[i]) { AtChar(buf, p, Digits(n), i - p); }
  }

  lemma {:induction false} RunDigits(buf: string, p: nat, e: nat, s: St)
    requires p <= e <= |buf| && (s.ps == WaitND || s.ps == WaitClose) && forall i :: p <= i < e ==> IsDigit(buf[i])
    ensures Leads(buf, p, s, e, s)
    decreases e - p
  {
    if p < e {
      LeadsOne(buf, p, s, s);
      RunDigits(buf, p + 1, e, s);
      LeadsOn(buf, p, s, p + 1, s, e, s);
    } else {
      LeadsNowhere(buf, p, s);
    }
  }

  // A bound: the lower one or the upper one.
  lemma {:induction false} RunBound(buf: string, p: nat, n: nat, s: St, t: St)
    requires At(buf, p, Digits(n)) && n <= 0xffff
    requires p + |Digits(n)| < |buf| && !IsDigit(buf[p + |Digits(n)|])
    requires || (s.ps == WaitFNum && t == s.(ps := WaitND, low := n))
             || (s.ps == WaitSNum && t == s.(ps := WaitClose, high := n))
    ensures Leads(buf, p, s, p + |Digits(n)|, t)
  {
    NumberIs(buf, p, n);
    LeadsOne(buf, p, s, t);
    RunDigits(buf, p + 1, p + |Digits(n)|, t);
    LeadsOn(buf, p, s, p + 1, t, p + |Digits(n)|, t);
  }

  lemma {:induction false} RunOpen(buf: string, ptr: nat, f: St)
    requires ptr + 2 <= |buf| && buf[ptr] == '*' && buf[ptr + 1] == '{' && f.ps == WaitLevel
    ensures Leads(buf, ptr, f, ptr + 2, f.(ps := WaitFNum))
  {
    LeadsOne(buf, ptr, f, f.(ps := WaitOpen));
    LeadsOne(buf, ptr + 1, f.(ps := WaitOpen), f.(ps := WaitFNum));
    LeadsOn(buf, ptr, f, ptr + 1, f.(ps := WaitOpen), ptr + 2, f.(ps := WaitFNum));
  }

  // *{low followed by rest
  lemma {:induction false} RunOpenLow(buf: string, ptr: nat, f: St, low: nat, rest: string)
    requires f.ps == WaitLevel && low <= 0xffff && At(buf, ptr, "*{" + Digits(low) + rest) && 0 < |rest| && !IsDigit(rest[0])
    ensures var p := ptr + 2 + |Digits(low)|;
            At(buf, p, rest) && Leads(buf, ptr, f, p, f.(ps := WaitND, low := low))
  {
    AtThree(buf, ptr, "*{", Digits(low), rest);
    AtChar(buf, ptr, "*{", 0);
    AtChar(buf, ptr, "*{", 1);
    AtChar(buf, ptr + 2 + |Digits(low)|, rest, 0);
    RunOpen(buf, ptr, f);
    RunBound(buf, ptr + 2, low, f.(ps := WaitFNum), f.(ps := WaitND, low := low));
    LeadsOn(buf, ptr, f, ptr + 2, f.(ps := WaitFNum), ptr + 2 + |Digits(low)|, f.(ps := WaitND, low := low));
  }

  // high} after the comma
  lemma {:induction false} RunHighClose(buf: string, p: nat, high: nat, s: St)
    requires s.ps == WaitSNum && high <= 0xffff && At(buf, p, Digits(high) + "}")
    ensures Leads(buf, p, s, p + |Digits(high)| + 1, s.(ps := WaitEnd, high := high))
  {
    AtParts(buf, p, Digits(high), "}");
    var e, t := p + |Digits(high)|, s.(ps := WaitClose, high := high);
    AtChar(buf, e, "}", 0);
    RunBound(buf, p, high, s, t);
    LeadsOne(buf, e, t, t.(ps := WaitEnd));
    LeadsOn(buf, p, s, e, t, e + 1, t.(ps := WaitEnd));
  }

  lemma {:induction false} RunStarExact(buf: string, ptr: nat, f: St, low: nat)
    requires f.ps == WaitLevel && low <= 0xffff && At(buf, ptr, "*{" + Digits(low) + "}")
    ensures Leads(buf, ptr, f, ptr + 3 + |Digits(low)|, f.(ps := WaitEnd, low := low, high := low))
  {
    RunOpenLow(buf, ptr, f, low, "}");
    var p, s := ptr + 2 + |Digits(low)|, f.(ps := WaitND, low := low);
    AtChar(buf, p, "}", 0);
    LeadsOne(buf, p, s, s.(ps := WaitEnd, high := low));
    LeadsOn(buf, ptr, f, p, s, p + 1, s.(ps := WaitEnd, high := low));
  }

  lemma {:induction false} RunStarUpTo(buf: string, ptr: nat, f: St, high: nat)
    requires f.ps == WaitLevel && high <= 0xffff && At(buf, ptr, "*{," + Digits(high) + "}")
    ensures Leads(buf, ptr, f, ptr + 4 + |Digits(high)|, f.(ps := WaitEnd, high := high))
  {
    AtThree(buf, ptr, "*{,", Digits(high), "}");
    AtChar(buf, ptr, "*{,", 0);
    AtChar(buf, ptr, "*{,", 1);
    AtChar(buf, ptr, "*{,", 2);
    AtJoin(buf, ptr + 3, Digits(high), "}");
    RunOpen(buf, ptr, f);
    LeadsOne(buf, ptr + 2, f.(ps := WaitFNum), f.(ps := WaitSNum));
    LeadsOn(buf, ptr, f, ptr + 2, f.(ps := WaitFNum), ptr + 3, f.(ps := WaitSNum));
    RunHighClose(buf, ptr + 3, high, f.(ps := WaitSNum));
    LeadsOn(buf, ptr, f, ptr + 3, f.(ps := WaitSNum), ptr + 4 + |Digits(high)|, f.(ps := WaitEnd, high := high));
  }

  lemma {:induction false} AtJoin(buf: string, ptr: nat, a: string, b: string)
    requires At(buf, ptr, a) && At(buf, ptr + |a|, b)
    ensures At(buf, ptr, a + b)
  {
    forall i | 0 <= i < |a + b| ensures buf[ptr + i] == (a + b)[i] {
      if i >= |a| { AtChar(buf, ptr + |a|, b, i - |a|); }
    }
  }

  lemma {:induction false} RunStarFrom(buf: string, ptr: nat, f: St, low: nat)
    requires f.ps == WaitLevel && low <= 0xffff && At(buf, ptr, "*{" + Digits(low) + ",}")
    ensures Leads(buf, ptr, f, ptr + 4 + |Digits(low)|, f.(ps := WaitEnd, low := low, high := 0xffff))
  {
    RunOpenLow(buf, ptr, f, low, ",}");
    var p, s := ptr + 2 + |Digits(low)|, f.(ps := WaitND, low := low);
    AtChar(buf, p, ",}", 0);
    AtChar(buf, p, ",}", 1);
    LeadsOne(buf, p, s, s.(ps := WaitSNum));
    LeadsOne(buf, p + 1, s.(ps := WaitSNum), s.(ps := WaitEnd, high := 0xffff));
    LeadsOn(buf, ptr, f, p, s, p + 1, s.(ps := WaitSNum));
    LeadsOn(buf, ptr, f, p + 1, s.(ps := WaitSNum), p + 2, s.(ps := WaitEnd, high := 0xffff));
  }

  // *{low,
  lemma {:induction false} RunOpenLowComma(buf: string, ptr: nat, f: St, low: nat)
    requires f.ps == WaitLevel && low <= 0xffff && At(buf, ptr, "*{" + Digits(low) + ",")
    ensures Leads(buf, ptr, f, ptr + 3 + |Digits(low)|, f.(ps := WaitSNum, low := low))
  {
    RunOpenLow(buf, ptr, f, low, ",");
    var p, s := ptr + 2 + |Digits(low)|, f.(ps := WaitND, low := low);
    AtChar(buf, p, ",", 0);
    LeadsOne(buf, p, s, s.(ps := WaitSNum));
    LeadsOn(buf, ptr, f, p, s, p + 1, s.(ps := WaitSNum));
  }

  lemma {:induction false} RunStarBetween(buf: string, ptr: nat, f: St, low: nat, high: nat)
    requires f.ps == WaitLevel && low <= 0xffff && high <= 0xffff
    requires At(buf, ptr, "*{" + Digits(low) + "," + Digits(high) + "}")
    ensures Leads(buf, ptr, f, ptr + 4 + |Digits(low)| + |Digits(high)|, f.(ps := WaitEnd, low := low, high := high))
  {
    AtThree(buf, ptr, "*{" + Digits(low) + ",", Digits(high), "}");
    RunOpenLowComma(buf, ptr, f, low);
    var p, s := ptr + 3 + |Digits(low)|, f.(ps := WaitSNum, low := low);
    AtJoin(buf, p, Digits(high), "}");
    RunHighClose(buf, p, high, s);
    LeadsOn(buf, ptr, f, p, s, p + |Digits(high)| + 1, s.(ps := WaitEnd, high := high));
  }

  // ---------------------------------------------------------------- levels

  // In state t at e the level lev is complete: a dot or the end of the text closes it.
  ghost predicate Ends(buf: string, e: nat, t: St, done: seq<Level>, hasnot: bool, lev: Level) {
    && e <= |buf| && t.hasnot == hasnot
    && (e == |buf| ==> Finish(buf, t) == Ok(done + [lev]))
    && (e < |buf| && buf[e] == '.' ==> Goes(buf, e, t, Fresh(done + [lev], hasnot)))
  }

  // The state after a star.
  function AfterStar(f: St, low: nat, high: nat): (t: St) {
    if low == 0 && high == 0xffff then f.(ps := WaitOpen)
    else if low == 0 && high != 0 then f.(ps := WaitEnd, high := high)
    else f.(ps := WaitEnd, low := low, high := high)
  }

  lemma {:induction false} EndsStar(buf: string, e: nat, done: seq<Level>, hasnot: bool, low: nat, high: nat)
    requires e <= |buf|
    ensures Ends(buf, e, AfterStar(Fresh(done, hasnot), low, high), done, hasnot, Star(low, high))
  {
  }

  lemma {:induction false} RunWildcard(buf: string, ptr: nat, f: St)
    requires f.ps == WaitLevel && At(buf, ptr, "*")
    ensures Leads(buf, ptr, f, ptr + 1, f.(ps := WaitOpen))
  {
    AtChar(buf, ptr, "*", 0);
    LeadsOne(buf, ptr, f, f.(ps := WaitOpen));
  }

  lemma {:induction false} RunStarTo(buf: string, ptr: nat, f: St, low: nat, high: nat)
    requires f == Fresh(f.done, f.hasnot) && low <= high <= 0xffff && At(buf, ptr, PrintLevel(Star(low, high)))
    ensures Leads(buf, ptr, f, ptr + |PrintLevel(Star(low, high))|, AfterStar(f, low, high))
  {
    if low == high {
      RunStarExact(buf, ptr, f, low);
    } else if low == 0 && high == 0xffff {
      RunWildcard(buf, ptr, f);
    } else if low == 0 {
      RunStarUpTo(buf, ptr, f, high);
    } else if high == 0xffff {
      RunStarFrom(buf, ptr, f, low);
    } else {
      RunStarBetween(buf, ptr, f, low, high);
    }
  }

  lemma {:induction false} RunStar(buf: string, ptr: nat, done: seq<Level>, hasnot: bool, lev: Level) returns (t: St)
    requires lev.Star? && WellFormedLevel(lev) && At(buf, ptr, PrintLevel(lev))
    ensures Leads(buf, ptr, Fresh(done, hasnot), ptr + |PrintLevel(lev)|, t)
    ensures Ends(buf, ptr + |PrintLevel(lev)|, t, done, hasnot, lev)
  {
    t := AfterStar(Fresh(done, hasnot), lev.low, lev.high);
    RunStarTo(buf, ptr, Fresh(done, hasnot), lev.low, lev.high);
    EndsStar(buf, ptr + |PrintLevel(lev)|, done, hasnot, lev.low, lev.high);
  }

  // The first alternative of a level, or the negation before it, begins at ptr.
  ghost predicate Begins(buf: string, ptr: nat, not: bool) {
    ptr < |buf| && if not then buf[ptr] == '!' else IsAlnum(buf[ptr])
  }

  lemma {:induction false} BangAt(buf: string, ptr: nat, not: bool, text: string)
    requires 0 < |text| && IsAlnum(text[0]) && At(buf, ptr, Bang(not) + text)
    ensures Begins(buf, ptr, not) && At(buf, ptr + One(not), text)
  {
    AtParts(buf, ptr, Bang(not), text);
    AtChar(buf, ptr + |Bang(not)|, text, 0);
    if not { AtChar(buf, ptr, Bang(not), 0); }
  }

  // The state inside the first alternative: past its first character, or past the negation.
  function Entered(f: St, ptr: nat, not: bool): (s: St) {
    f.(ps := WaitDelim, start := ptr + One(not), not := f.not || not, hasnot := f.hasnot || not)
  }

  lemma {:induction false} EnterVars(buf: string, ptr: nat, f: St, not: bool)
    requires f.ps == WaitLevel && Begins(buf, ptr, not)
    ensures Leads(buf, ptr, f, ptr + 1, Entered(f, ptr, not))
  {
    LeadsOne(buf, ptr, f, Entered(f, ptr, not));
  }

  lemma {:induction false} RunVars(buf: string, ptr: nat, done: seq<Level>, hasnot: bool, lev: Level, e: nat) returns (t: St)
    requires lev.Vars? && WellFormedLevel(lev) && Begins(buf, ptr, lev.not)
    requires At(buf, ptr + One(lev.not), PrintVariants(lev.vars)) && e == ptr + One(lev.not) + |PrintVariants(lev.vars)|
    ensures Leads(buf, ptr, Fresh(done, hasnot), e, t) && Ends(buf, e, t, done, hasnot || lev.not, lev)
  {
    var f := Fresh(done, hasnot);
    var s := Entered(f, ptr, lev.not);
    EnterVars(buf, ptr, f, lev.not);
    t := RunAlternatives(buf, ptr + 1, s, lev, e, done, hasnot || lev.not);
    LeadsOn(buf, ptr, f, ptr + 1, s, e, t);
  }

  lemma {:induction false} RunAlternatives(buf: string, ptr: nat, s: St, lev: Level, e: nat, done: seq<Level>, hasnot: bool) returns (t: St)
    requires lev.Vars? && WellFormedLevel(lev) && s.ps == WaitDelim && !Flagged(s) && s.vars == []
    requires s.start <= ptr <= s.start + 1 && s.not == lev.not && s.done == done && s.hasnot == hasnot
    requires At(buf, s.start, PrintVariants(lev.vars)) && e == s.start + |PrintVariants(lev.vars)|
    ensures Leads(buf, ptr, s, e, t) && Ends(buf, e, t, done, hasnot, lev)
  {
    t := RunVariants(buf, ptr, s, lev.vars);
    assert s.vars + lev.vars == lev.vars;
    EndsVars(buf, e, t, lev);
  }

  lemma {:induction false} VarsText(lev: Level)
    requires lev.Vars?
    ensures PrintLevel(lev) == Bang(lev.not) + PrintVariants(lev.vars)
    ensures |PrintLevel(lev)| == One(lev.not) + |PrintVariants(lev.vars)|
  {
  }

  lemma {:induction false} EndsVars(buf: string, e: nat, t: St, lev: Level)
    requires lev.Vars? && t.ps == WaitDelim && t.start < e <= |buf| && t.not == lev.not
    requires EndVariant(buf, e, t) == Ok(lev.vars) && NameLen(t, e) > 0
    ensures Ends(buf, e, t, t.done, t.hasnot, lev)
  {
  }

  function Negated(lev: Level): (b: bool) { lev.Vars? && lev.not }

  lemma {:induction false} RunLevel(buf: string, ptr: nat, done: seq<Level>, hasnot: bool, lev: Level) returns (t: St)
    requires WellFormedLevel(lev) && At(buf, ptr, PrintLevel(lev))
    ensures Leads(buf, ptr, Fresh(done, hasnot), ptr + |PrintLevel(lev)|, t)
    ensures Ends(buf, ptr + |PrintLevel(lev)|, t, done, hasnot || Negated(lev), lev)
  {
    match lev
    case Vars(_, _) =>
      VarsText(lev);
      FirstOfVariants(lev.vars);
      BangAt(buf, ptr, lev.not, PrintVariants(lev.vars));
      t := RunVars(buf, ptr, done, hasnot, lev, ptr + |PrintLevel(lev)|);
    case Star(_, _) => t := RunStar(buf, ptr, done, hasnot, lev);
  }

  lemma {:induction false} PrintFirst(levels: seq<Level>)
    requires |levels| > 1
    ensures Print(levels) == PrintLevel(levels[0]) + "." + Print(levels[1..])
  {
  }

  lemma {:induction false} DotAt(buf: string, ptr: nat, whole: string, text: string, rest: string)
    requires whole == text + "." + rest && At(buf, ptr, whole)
    ensures |whole| == |text| + 1 + |rest| && At(buf, ptr, text) && At(buf, ptr + |text| + 1, rest)
    ensures ptr + |text| < |buf| && buf[ptr + |text|] == '.'
  {
    AtThree(buf, ptr, text, ".", rest);
    AtChar(buf, ptr + |text|, ".", 0);
  }

  // The first level, the dot behind it, and the rest.
  lemma {:induction false} FirstLevelAt(buf: string, ptr: nat, levels: seq<Level>, e: nat)
    requires |levels| > 1 && At(buf, ptr, Print(levels)) && e == ptr + |PrintLevel(levels[0])|
    ensures At(buf, ptr, PrintLevel(levels[0])) && e < |buf| && buf[e] == '.' && At(buf, e + 1, Print(levels[1..]))
    ensures e + 1 + |Print(levels[1..])| == ptr + |Print(levels)|
  {
    PrintFirst(levels);
    DotAt(buf, ptr, Print(levels), PrintLevel(levels[0]), Print(levels[1..]));
  }

  // Over the dot behind a level.
  lemma {:induction false} RunDot(buf: string, ptr: nat, f: St, e: nat, t: St, done: seq<Level>, hasnot: bool, lev: Level)
    requires Leads(buf, ptr, f, e, t) && Ends(buf, e, t, done, hasnot, lev) && e < |buf| && buf[e] == '.'
    ensures Leads(buf, ptr, f, e + 1, Fresh(done + [lev], hasnot))
  {
    LeadsOne(buf, e, t, Fresh(done + [lev], hasnot));
    LeadsOn(buf, ptr, f, e, t, e + 1, Fresh(done + [lev], hasnot));
  }

  lemma {:induction false} RunLevelDot(buf: string, ptr: nat, done: seq<Level>, hasnot: bool, lev: Level, e: nat)
    requires WellFormedLevel(lev) && At(buf, ptr, PrintLevel(lev)) && e == ptr + |PrintLevel(lev)| && e < |buf| && buf[e] == '.'
    ensures Leads(buf, ptr, Fresh(done, hasnot), e + 1, Fresh(done + [lev], hasnot || Negated(lev)))
  {
    var t := RunLevel(buf, ptr, done, hasnot, lev);
    RunDot(buf, ptr, Fresh(done, hasnot), e, t, done, hasnot || Negated(lev), lev);
  }

  // From the start of some levels to the start of all but the first of them.
  lemma {:induction false} RunFirstLevel(buf: string, ptr: nat, done: seq<Level>, hasnot: bool, levels: seq<Level>) returns (e: nat)
    requires |levels| > 1 && WellFormedLevel(levels[0]) && At(buf, ptr, Print(levels))
    ensures At(buf, e, Print(levels[1..])) && e + |Print(levels[1..])| == ptr + |Print(levels)|
    ensures Leads(buf, ptr, Fresh(done, hasnot), e, Fresh(done + [levels[0]], hasnot || Negated(levels[0])))
  {
    var dot := ptr + |PrintLevel(levels[0])|;
    FirstLevelAt(buf, ptr, levels, dot);
    RunLevelDot(buf, ptr, done, hasnot, levels[0], dot);
    e := dot + 1;
  }

  // From ptr to the end of the text the parser reads exactly these levels.
  ghost predicate Reads(buf: string, ptr: nat, done: seq<Level>, hasnot: bool, levels: seq<Level>, t: St) {
    && Leads(buf, ptr, Fresh(done, hasnot), |buf|, t)
    && Finish(buf, t) == Ok(done + levels) && t.hasnot == (hasnot || HasNot(levels))
  }

  lemma {:induction false} RunLastLevel(buf: string, ptr: nat, done: seq<Level>, hasnot: bool, levels: seq<Level>) returns (t: St)
    requires |levels| == 1 && WellFormedLevel(levels[0])
    requires ptr + |Print(levels)| == |buf| && At(buf, ptr, Print(levels))
    ensures Reads(buf, ptr, done, hasnot, levels, t)
  {
    t := RunLevel(buf, ptr, done, hasnot, levels[0]);
    OnlyLevel(levels);
  }

  lemma {:induction false} ReadsMore(buf: string, ptr: nat, done: seq<Level>, hasnot: bool, levels: seq<Level>, e: nat, t: St)
    requires |levels| > 1
    requires Leads(buf, ptr, Fresh(done, hasnot), e, Fresh(done + [levels[0]], hasnot || Negated(levels[0])))
    requires Reads(buf, e, done + [levels[0]], hasnot || Negated(levels[0]), levels[1..], t)
    ensures Reads(buf, ptr, done, hasnot, levels, t)
  {
    var u := Fresh(done + [levels[0]], hasnot || Negated(levels[0]));
    LeadsOn(buf, ptr, Fresh(done, hasnot), e, u, |buf|, t);
    assert (done + [levels[0]]) + levels[1..] == done + levels;
    HasNotFirst(levels);
  }

  ghost predicate AllWellFormed(levels: seq<Level>) {
    forall i :: 0 <= i < |levels| ==> WellFormedLevel(levels[i])
  }

  lemma {:induction false} RunLevels(buf: string, ptr: nat, done: seq<Level>, hasnot: bool, levels: seq<Level>)
    returns (t: St)
    requires levels != [] && AllWellFormed(levels)
    requires ptr + |Print(levels)| == |buf| && At(buf, ptr, Print(levels))
    ensures Reads(buf, ptr, done, hasnot, levels, t)
    decreases |levels|
  {
    if |levels| == 1 {
      t := RunLastLevel(buf, ptr, done, hasnot, levels);
    } else {
      var e := RunFirstLevel(buf, ptr, done, hasnot, levels);
      t := RunLevels(buf, e, done + [levels[0]], hasnot || Negated(levels[0]), levels[1..]);
      ReadsMore(buf, ptr, done, hasnot, levels, e, t);
    }
  }

  lemma {:induction false} OnlyLevel(levels: seq<Level>)
    requires |levels| == 1
    ensures levels == [levels[0]] && HasNot(levels) == Negated(levels[0])
  {
    assert levels[0] in levels;
  }

  lemma {:induction false} HasNotFirst(levels: seq<Level>)
    requires levels != []
    ensures HasNot(levels) == (Negated(levels[0]) || HasNot(levels[1..]))
  {
    if HasNot(levels) {
      var lev :| lev in levels && lev.Vars? && lev.not;
      assert lev == levels[0] || lev in levels[1..];
    }
  }

  // What the parser makes of a printed pattern, for every list of well-formed levels.
  lemma {:induction false} ParseOfPrint(levels: seq<Level>)
    requires levels != [] && AllWellFormed(levels)
    ensures Parse(Print(levels)) == Store(levels, HasNot(levels))
  {
    ParseOfText(Print(levels), levels);
  }

  lemma {:induction false} ParseOfText(buf: string, levels: seq<Level>)
    requires levels != [] && AllWellFormed(levels) && buf == Print(levels)
    ensures Parse(buf) == Store(levels, HasNot(levels))
  {
    var t := RunLevels(buf, 0, [], false, levels);
    LeadsRuns(buf, 0, Fresh([], false), |buf|, t);
    assert [] + levels == levels;
    BoundsAreOk(levels);
  }

  lemma {:induction false} BoundsAreOk(levels: seq<Level>)
    requires AllWellFormed(levels)
    ensures BoundsOk(levels)
  {
  }

  lemma {:induction false} GoodIsKept(levels: seq<Level>)
    requires forall i :: 0 <= i < |levels| ==> FewVars(levels[i])
    ensures KeptFirstGood(levels) == FirstGood(levels)
  {
    if levels != [] {
      OneIsGood(levels[0]);
      GoodIsKept(levels[1..]);
    }
  }

  lemma {:induction false} OneIsGood(lev: Level)
    requires FewVars(lev)
    ensures KeptGood(lev) == Good(lev)
  {
    if lev.Vars? && |lev.vars| == 1 { assert lev.vars == [lev.vars[0]]; }
  }

  lemma {:induction false} KeptAllExactly(levels: seq<Level>)
    requires AllWellFormed(levels)
    ensures KeptAll(levels) == levels <==> forall i :: 0 <= i < |levels| ==> FewVars(levels[i])
  {
    forall i | 0 <= i < |levels| ensures KeptAll(levels)[i] == levels[i] <==> FewVars(levels[i]) { KeptExactly(levels[i]); }
  }

  lemma {:induction false} FittingIsStored(levels: seq<Level>, hasnot: bool)
    requires AllWellFormed(levels) && Fits(levels)
    ensures Store(levels, hasnot) == Stored(Lquery(levels, FirstGood(levels), hasnot))
  {
    KeptAllExactly(levels);
    OverlapExactly(levels);
    GoodIsKept(levels);
    Small(|levels|);
    Small(FirstGood(levels));
    assert levels[..|levels|] == levels;
  }

  lemma {:induction false} Small(n: nat)
    requires n < WORD
    ensures n % WORD == n
  {
  }

  lemma {:induction false} StoredIsFitting(levels: seq<Level>, hasnot: bool)
    requires AllWellFormed(levels) && Store(levels, hasnot).Stored? && Store(levels, hasnot).q.levels == levels
    ensures Fits(levels)
  {
    OverlapExactly(KeptAll(levels));
    FirstAll(KeptAll(levels), |levels| % WORD, levels);
    KeptAllExactly(levels);
  }

  lemma {:induction false} FirstAll(a: seq<Level>, n: nat, b: seq<Level>)
    requires |a| == |b| && n <= |a| && a[..n] == b
    ensures n == |a| && a == b
  {
  }

  // A well-formed pattern is read back exactly as it was, with the count of its plain levels and
  // its negation flag recomputed, if and only if it fits.
  lemma {:induction false} ParseUndoesPrint(levels: seq<Level>)
    requires levels != [] && AllWellFormed(levels)
    ensures Parse(Print(levels)) == Stored(Lquery(levels, FirstGood(levels), HasNot(levels))) <==> Fits(levels)
  {
    ParseOfPrint(levels);
    if Fits(levels) {
      FittingIsStored(levels, HasNot(levels));
    } else if Store(levels, HasNot(levels)) == Stored(Lquery(levels, FirstGood(levels), HasNot(levels))) {
      StoredIsFitting(levels, HasNot(levels));
    }
  }

  // ---------------------------------------------------------------- patterns that do not fit

  function Letters(n: nat): (vars: seq<Variant>)
    ensures |vars| == n
  {
    seq(n, i => Variant("a", false, false, false))
  }

  // A level of 65536 alternatives is stored as a star that matches nothing but the empty path.
  lemma {:induction false} ManyAlternativesAreLost(lev: Level)
    requires lev.Vars? && WellFormedLevel(lev) && |lev.vars| == WORD
    ensures var r := Parse(PrintLevel(lev)); r.Stored? && r.q.levels == [Star(0, 0)] && Print(r.q.levels) == "*{0}"
  {
    ParseOfPrint([lev]);
    assert KeptAll([lev]) == [Star(0, 0)] && SizesFit([Star(0, 0)]);
    OverlapExactly([Star(0, 0)]);
    assert [Star(0, 0)][..1] == [Star(0, 0)];
    assert Digits(0) == "0";
  }

  lemma {:induction false} LettersSize(n: nat)
    ensures VarsSize(Letters(n)) == 16 * n
  {
    if n > 0 {
      assert Letters(n)[..n - 1] == Letters(n - 1);
      LettersSize(n - 1);
    }
  }

  // With 4096 one-letter alternatives the next level is written over the first of them.
  lemma {:induction false} LongLevelIsOverwritten(lev: Level, next: Level)
    requires lev == Vars(false, Letters(4096)) && WellFormedLevel(next) && FewVars(next)
    ensures Parse(Print([lev, next])) == Overlapping
    ensures Place([lev, next], 1) == Place([lev, next], 0) + HEADER
  {
    LettersSize(4096);
    LettersAreNames(4096);
    LongLevelOverlaps(lev, next);
    ParseOfPrint([lev, next]);
    KeptAllExactly([lev, next]);
  }

  lemma {:induction false} LettersAreNames(n: nat)
    ensures forall v :: v in Letters(n) ==> IsName(v.name)
  {
    assert AllAlnum("a");
  }

  lemma {:induction false} LongLevelOverlaps(lev: Level, next: Level)
    requires Size(lev) == 65552
    ensures Overlap([lev, next]) && Place([lev, next], 1) == Place([lev, next], 0) + HEADER
  {
    var levels := [lev, next];
    assert Size(levels[0]) >= WORD;
    OverlapExactly(levels);
    assert Place(levels, 1) == Place(levels, 0) + Aligned(65552 % WORD);
  }

  // ---------------------------------------------------------------- the printer's buffer

  predicate OutFits(levels: seq<Level>) { |Print(levels)| + 1 <= OutSize(levels) }

  // The length of a number, of a level and of the whole text, without printing them.
  function DigitCount(n: nat): (k: nat) { if n < 10 then 1 else DigitCount(n / 10) + 1 }

  function VarsLength(vars: seq<Variant>): (n: nat) {
    if vars == [] then 0
    else |vars[0].name| + One(vars[0].sublexem) + One(vars[0].incase) + One(vars[0].anyend) + One(|vars| > 1) + VarsLength(vars[1..])
  }

  function LevelLength(lev: Level): (n: nat) {
    match lev
    case Vars(not, vars) => One(not) + VarsLength(vars)
    case Star(low, high) =>
      if low == high then DigitCount(low) + 3
      else if low == 0 then (if high == 0xffff then 1 else DigitCount(high) + 4)
      else if high == 0xffff then DigitCount(low) + 4
      else DigitCount(low) + DigitCount(high) + 4
  }

  // The text before the i-th level, dots included.
  function LengthBefore(levels: seq<Level>, i: nat): (n: nat)
    requires i <= |levels|
  {
    if i == 0 then 0 else LengthBefore(levels, i - 1) + LevelLength(levels[i - 1]) + 1
  }

  lemma {:induction false} DigitsLength(n: nat)
    ensures |Digits(n)| == DigitCount(n)
  {
    if n >= 10 { DigitsLength(n / 10); }
  }

  lemma {:induction false} VariantsLength(vars: seq<Variant>)
    ensures |PrintVariants(vars)| == VarsLength(vars)
  {
    if vars != [] { VariantsLength(vars[1..]); }
  }

  lemma {:induction false} LevelTextLength(lev: Level)
    ensures |PrintLevel(lev)| == LevelLength(lev)
  {
    match lev
    case Vars(_, vars) => VariantsLength(vars);
    case Star(low, high) =>
      DigitsLength(low);
      DigitsLength(high);
  }

  lemma {:induction false} TextLength(levels: seq<Level>, i: nat)
    requires i < |levels|
    ensures |Print(levels[..i + 1])| == LengthBefore(levels, i) + LevelLength(levels[i])
  {
    PrintNext(levels, i);
    LevelTextLength(levels[i]);
    if i > 0 { TextLength(levels, i - 1); }
  }

  // The text fits if and only if the levels before the last, with their dots, are no longer than
  // the room reckoned for the last level and not used by it.
  lemma {:induction false} OutFitsExactly(levels: seq<Level>)
    requires levels != []
    ensures var n := |levels| - 1;
            OutFits(levels) <==> LengthBefore(levels, n) <= Room(levels[n]) - LevelLength(levels[n]) - 1
  {
    WholeTextLength(levels);
  }

  lemma {:induction false} WholeTextLength(levels: seq<Level>)
    requires levels != []
    ensures |Print(levels)| == LengthBefore(levels, |levels| - 1) + LevelLength(levels[|levels| - 1])
  {
    TextLength(levels, |levels| - 1);
    assert levels[..|levels|] == levels;
  }

  lemma {:induction false} VarsRoom(vars: seq<Variant>)
    ensures VarsLength(vars) <= |vars| * 4 + VarsSize(vars)
  {
    if vars != [] {
      VarsRoom(vars[1..]);
      FirstSize(vars);
    }
  }

  lemma {:induction false} FirstSize(vars: seq<Variant>)
    requires vars != []
    ensures VarsSize(vars) == VarSize(vars[0]) + VarsSize(vars[1..])
  {
    if |vars| > 1 {
      FirstSize(vars[..|vars| - 1]);
      assert vars[..|vars| - 1][1..] == vars[1..][..|vars| - 2];
    } else {
      assert vars[..0] == [] && vars[1..] == [];
    }
  }

  // A pattern of one level fits, unless its size does not fit the 16-bit field.
  lemma {:induction false} OneLevelFits(lev: Level)
    requires WellFormedLevel(lev) && Size(lev) < WORD
    ensures OutFits([lev])
  {
    OutFitsExactly([lev]);
    LevelRoom(lev);
    Small(Size(lev));
  }

  lemma {:induction false} LevelRoom(lev: Level)
    requires WellFormedLevel(lev)
    ensures lev.Vars? ==> LevelLength(lev) <= |lev.vars| * 4 + 1 + Size(lev)
    ensures lev.Star? ==> LevelLength(lev) <= 14
  {
    match lev
    case Vars(_, vars) => VarsRoom(vars);
    case Star(low, high) =>
      FiveDigits(low);
      FiveDigits(high);
  }

  lemma {:induction false} FiveDigits(n: nat)
    requires n <= 0xffff
    ensures DigitCount(n) <= 5
  {
    OneDigitMore(n / 10 / 10 / 10, 1);
    OneDigitMore(n / 10 / 10, 2);
    OneDigitMore(n / 10, 3);
    OneDigitMore(n, 4);
  }

  lemma {:induction false} OneDigitMore(n: nat, k: nat)
    requires DigitCount(n / 10) <= k
    ensures DigitCount(n) <= k + 1
  {
  }

  lemma {:induction false} OneName(v: Variant)
    requires !v.incase && !v.anyend && !v.sublexem
    ensures VarsLength([v]) == |v.name|
  {
    assert [v][1..] == [];
  }

  // A first level of more than 35 letters, followed by a level of one letter, does not fit.
  lemma {:induction false} LongFirstLevelOverruns(name: string)
    requires IsName(name)
    ensures var levels := [Vars(false, [Variant(name, false, false, false)]), Vars(false, Letters(1))];
            OutFits(levels) <==> |name| <= 35
  {
    var levels := [Vars(false, [Variant(name, false, false, false)]), Vars(false, Letters(1))];
    OutFitsExactly(levels);
    LettersSize(1);
    assert LengthBefore(levels, 1) == LengthBefore(levels, 0) + LevelLength(levels[0]) + 1;
    OneName(Variant(name, false, false, false));
    OneName(Letters(1)[0]);
    assert Letters(1) == [Letters(1)[0]];
    assert Room(levels[1]) == 38;
  }

  // ---------------------------------------------------------------- the code

  // The parser loop.
  method ReadText(buf: string) returns (r: Result<St>)
    ensures r == Run(buf, 0, Fresh([], false))
  {
    var s := Fresh([], false);
    var ptr := 0;
    while ptr < |buf|
      invariant ptr <= |buf| && Run(buf, 0, Fresh([], false)) == Run(buf, ptr, s)
    {
      var next := Step(buf, ptr, s);
      if next == Err {
        return Err;
      }
      s := next.value;
      ptr := ptr + 1;
    }
    return Ok(s);
  }

  method CheckBounds(levels: seq<Level>) returns (ok: bool)
    ensures ok == BoundsOk(levels)
  {
    for i := 0 to |levels|
      invariant forall j :: 0 <= j < i && levels[j].Star? ==> levels[j].low <= levels[j].high
    {
      if levels[i].Star? && levels[i].low > levels[i].high {
        return false;
      }
    }
    return true;
  }

  // The loop that writes the levels and counts the plain ones.
  method WriteLevels(levels: seq<Level>, hasnot: bool) returns (r: Input)
    ensures r == Store(levels, hasnot)
  {
    var firstgood := CountGood(levels);
    var kept := KeptAll(levels);
    var overlap := Lay(kept);
    if overlap {
      return Overlapping;
    }
    return Stored(Lquery(kept[..|levels| % WORD], firstgood % WORD, hasnot));
  }

  // lquery_in
  method LqueryIn(buf: string) returns (r: Input)
    ensures r == Parse(buf)
  {
    var read := ReadText(buf);
    if read == Err {
      return Rejected;
    }
    var parsed := Finish(buf, read.value);
    if parsed == Err {
      return Rejected;
    }
    var ok := CheckBounds(parsed.value);
    if !ok {
      return Rejected;
    }
    r := WriteLevels(parsed.value, read.value.hasnot);
  }

  // The levels before the first that is not plain.
  method CountGood(levels: seq<Level>) returns (firstgood: nat)
    ensures firstgood == KeptFirstGood(levels)
  {
    var wasbad := false;
    firstgood := 0;
    for i := 0 to |levels|
      invariant firstgood <= i && (wasbad <==> firstgood < i)
      invariant (forall j :: 0 <= j < firstgood ==> KeptGood(levels[j])) && (wasbad ==> !KeptGood(levels[firstgood]))
    {
      if !KeptGood(levels[i]) {
        wasbad := true;
      } else if !wasbad {
        firstgood := firstgood + 1;
      }
    }
  }

  lemma {:induction false} PrintVariantsPush(vs: seq<Variant>, v: Variant)
    ensures PrintVariants(vs + [v]) == PrintVariants(vs) + (if vs == [] then "" else "|") + PrintVariant(v)
  {
    if |vs| > 0 {
      PrintVariantsPush(vs[1..], v);
      assert (vs + [v])[1..] == vs[1..] + [v];
    }
  }

  lemma {:induction false} PrintPush(levels: seq<Level>, lev: Level)
    ensures Print(levels + [lev]) == Print(levels) + (if levels == [] then "" else ".") + PrintLevel(lev)
  {
    if |levels| > 0 {
      PrintPush(levels[1..], lev);
      assert (levels + [lev])[1..] == levels[1..] + [lev];
    }
  }

  lemma {:induction false} PrintNext(levels: seq<Level>, i: nat)
    requires i < |levels|
    ensures Print(levels[..i + 1]) == Print(levels[..i]) + (if i == 0 then "" else ".") + PrintLevel(levels[i])
  {
    PrintPush(levels[..i], levels[i]);
    assert levels[..i + 1] == levels[..i] + [levels[i]];
  }

  // The text, or a text longer than the memory it is written to.
  datatype Output = Text(text: string) | Overrun

  // lquery_out
  method LqueryOut(q: Lquery) returns (r: Output)
    ensures r == if OutFits(q.levels) then Text(Print(q.levels)) else Overrun
  {
    var totallen := Reckon(q.levels);
    var buf := "";
    for i := 0 to |q.levels|
      invariant buf == Print(q.levels[..i])
    {
      PrintNext(q.levels, i);
      if i != 0 {
        buf := buf + ".";
      }
      var text := LevelOut(q.levels[i]);
      buf := buf + text;
    }
    assert q.levels[..|q.levels|] == q.levels;
    r := if |buf| + 1 <= totallen then Text(buf) else Overrun;
  }

  method LevelOut(lev: Level) returns (text: string)
    ensures text == PrintLevel(lev)
  {
    match lev
    case Vars(not, vars) =>
      text := VariantsOut(vars);
      text := Bang(not) + text;
    case Star(low, high) =>
      if low == high {
        text := "*{" + Digits(low) + "}";
      } else if low == 0 {
        text := if high == 0xffff then "*" else "*{," + Digits(high) + "}";
      } else if high == 0xffff {
        text := "*{" + Digits(low) + ",}";
      } else {
        text := "*{" + Digits(low) + "," + Digits(high) + "}";
      }
  }

  method VariantsOut(vars: seq<Variant>) returns (text: string)
    ensures text == PrintVariants(vars)
  {
    text := "";
    for j := 0 to |vars|
      invariant text == PrintVariants(vars[..j])
    {
      PrintVariantsPush(vars[..j], vars[j]);
      assert vars[..j + 1] == vars[..j] + [vars[j]];
      if j != 0 {
        text := text + "|";
      }
      text := text + (vars[j].name + Modifiers(vars[j]));
    }
    assert vars[..|vars|] == vars;
  }
}

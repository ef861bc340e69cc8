/**
 What the input functions of boolean queries (bqarr_in in contrib/intarray/_int.c, queryin in
 contrib/ltree/ltxtquery_io.c) do with every query, tidy or not: the links stay inside the array,
 and they are right exactly as long as they fit their 16 bits.
 */
module BoolInput {
  import opened BoolQuery

  // ---------------------------------------------------------------- values and operators balance

  // A value is worth one and a binary operator takes one.
  function Weight<V>(x: Node<V>): (w: int) { if x.Arg? then 1 else if x.c == '!' then 0 else -1 }

  function Balance<V>(s: seq<Node<V>>): (b: int) {
    if s == [] then 0 else Balance(s[..|s| - 1]) + Weight(s[|s| - 1])
  }

  lemma {:induction false} BalanceJoin<V>(a: seq<Node<V>>, b: seq<Node<V>>)
    ensures Balance(a + b) == Balance(a) + Balance(b)
    decreases |b|
  {
    if b == [] {
      assert a + b == a;
    } else {
      BalanceJoin(a, b[..|b| - 1]);
      assert (a + b)[..|a + b| - 1] == a + b[..|b| - 1];
    }
  }

  lemma {:induction false} BalanceOne<V>(x: Node<V>)
    ensures Balance([x]) == Weight(x)
  {
    assert Balance<V>([x][..0]) == 0;
  }

  predicate Known<V>(s: seq<Node<V>>) {
    forall i :: 0 <= i < |s| && s[i].Opr? ==> s[i].c == '!' || s[i].c == '&' || s[i].c == '|'
  }

  // What comes out if the group ends now.
  function Flushed<V>(stack: seq<char>, out: seq<Node<V>>): (s: seq<Node<V>>) { out + Ops(stack) }

  // The outcome has the balance b.
  ghost predicate Sound<V>(stack: seq<char>, out: seq<Node<V>>, b: int) {
    Known(Flushed(stack, out)) && Balance(Flushed(stack, out)) == b
  }

  // One more item somewhere before the pending operators.
  lemma {:induction false} SoundMore<V>(stack: seq<char>, out: seq<Node<V>>, x: Node<V>, st: seq<char>, o: seq<Node<V>>, b: int)
    requires Sound(stack, out, b) && Known([x]) && Flushed(st, o) == out + [x] + Ops(stack)
    ensures Sound(st, o, b + Weight(x))
  {
    BalanceJoin(out, Ops(stack));
    BalanceJoin(out + [x], Ops(stack));
    BalanceJoin(out, [x]);
    BalanceOne(x);
    assert [x][0] == x;
    forall i | 0 <= i < |Flushed(st, o)| && Flushed(st, o)[i].Opr?
      ensures var c := Flushed(st, o)[i].c; c == '!' || c == '&' || c == '|'
    {
      var t, u := Flushed(st, o), Flushed(stack, out);
      assert t[i] == if i < |out| then u[i] else if i == |out| then x else u[i - 1];
    }
  }

  lemma {:induction false} OpsParts<V>(stack: seq<char>, n: nat)
    requires n <= |stack|
    ensures Ops<V>(stack) == Ops(stack[n..]) + Ops(stack[..n])
  {
  }

  lemma {:induction false} OpsPush<V>(stack: seq<char>, c: char)
    ensures Ops<V>(stack + [c]) == [Opr(c)] + Ops(stack)
  {
  }

  lemma {:induction false} Four<T>(a: seq<T>, b: seq<T>, c: seq<T>, d: seq<T>)
    ensures (a + b + c) + d == a + b + (c + d)
  {
  }

  lemma {:induction false} FirstOf<V>(t: Token<V>, rest: seq<Token<V>>)
    ensures ([t] + rest)[0] == t && ([t] + rest)[1..] == rest
  {
  }

  // ---------------------------------------------------------------- every query

  lemma {:induction false} AnyValue<V>(depth: nat, v: V, stack: seq<char>, out: seq<Node<V>>, rest: seq<Token<V>>, b: int)
    returns (st: seq<char>, o: seq<Node<V>>)
    requires Sound(stack, out, b)
    ensures MakePol(depth, [TVal(v)] + rest, stack, out) == MakePol(depth, rest, st, o) && Sound(st, o, b + 1)
  {
    FirstOf(TVal(v), rest);
    var n := |stack| - RunLength(stack);
    st, o := stack[..n], out + [Arg(v)] + Ops(stack[n..]);
    OpsParts<V>(stack, n);
    Four(out, [Arg(v)], Ops(stack[n..]), Ops(stack[..n]));
    SoundMore(stack, out, Arg(v), st, o, b);
  }

  lemma {:induction false} AnyOperator<V>(depth: nat, c: char, stack: seq<char>, out: seq<Node<V>>, rest: seq<Token<V>>, b: int)
    returns (ok: bool, st: seq<char>, o: seq<Node<V>>)
    requires Sound(stack, out, b) && (c == '!' || c == '&' || c == '|')
    ensures MakePol(depth, [TOpr(c)] + rest, stack, out) == if ok then MakePol(depth, rest, st, o) else TooDeep
    ensures ok ==> Sound(st, o, b + Weight(Node<V>.Opr(c)))
  {
    FirstOf(TOpr(c), rest);
    if |stack| > 0 && c == '|' {
      ok, st, o := true, stack, out + [Opr(c)];
      SoundMore(stack, out, Opr(c), st, o, b);
    } else if |stack| == depth {
      ok, st, o := false, stack, out;
    } else {
      ok, st, o := true, stack + [c], out;
      OpsPush<V>(stack, c);
      assert out + ([Opr(c)] + Ops(stack)) == out + [Opr(c)] + Ops(stack);
      SoundMore(stack, out, Opr(c), st, o, b);
    }
  }

  lemma {:induction false} AnyParen<V>(depth: nat, d: Disj<V>, stack: seq<char>, out: seq<Node<V>>, rest: seq<Token<V>>, b: int)
    returns (ok: bool, st: seq<char>, o: seq<Node<V>>)
    requires Sound(stack, out, b)
    ensures MakePol(depth, TokensF(Paren(d)) + rest, stack, out) == if ok then MakePol(depth, rest, st, o) else TooDeep
    ensures ok ==> Sound(st, o, b + 1)
    decreases d, 2
  {
    var ts := TokensD(d) + ([TClose] + rest);
    assert TokensF(Paren(d)) + rest == [TOpen] + ts;
    FirstOf(TOpen, ts);
    var sub;
    SoundPart(stack, out, b);
    ok, sub := AnyGroup(depth, d, out, TClose, rest);
    st, o := stack, sub;
    if ok {
      PopOne(stack, out, sub, b);
      if stack != [] && Tight(stack[|stack| - 1]) {
        st, o := stack[..|stack| - 1], sub + [Opr(stack[|stack| - 1])];
      }
    }
  }

  lemma {:induction false} SoundPart<V>(stack: seq<char>, out: seq<Node<V>>, b: int)
    requires Sound(stack, out, b)
    ensures Known(out) && Known(Ops<V>(stack)) && b == Balance(out) + Balance(Ops<V>(stack))
  {
    BalanceJoin(out, Ops(stack));
    var s := Flushed(stack, out);
    assert forall i :: 0 <= i < |out| ==> out[i] == s[i];
    var t := Ops<V>(stack);
    forall i | 0 <= i < |t| && t[i].Opr? ensures t[i].c == '!' || t[i].c == '&' || t[i].c == '|' {
      assert t[i] == s[|out| + i];
    }
  }

  lemma {:induction false} KnownJoin<V>(a: seq<Node<V>>, b: seq<Node<V>>)
    requires Known(a) && Known(b)
    ensures Known(a + b)
  {
  }

  // After a group of balance one, its operator or none is taken off the stack.
  lemma {:induction false} PopOne<V>(stack: seq<char>, out: seq<Node<V>>, sub: seq<Node<V>>, b: int)
    requires Sound(stack, out, b) && Known(sub) && Balance(sub) == Balance(out) + 1
    ensures Sound(stack, sub, b + 1)
    ensures stack != [] ==> Sound(stack[..|stack| - 1], sub + [Opr(stack[|stack| - 1])], b + 1)
  {
    SoundPart(stack, out, b);
    KnownJoin(sub, Ops(stack));
    BalanceJoin(sub, Ops(stack));
    if stack != [] {
      var n := |stack| - 1;
      assert stack[..n] + [stack[n]] == stack;
      OpsPush<V>(stack[..n], stack[n]);
      assert sub + [Opr(stack[n])] + Ops(stack[..n]) == sub + ([Opr(stack[n])] + Ops(stack[..n]));
    }
  }

  lemma {:induction false} AnyF<V>(depth: nat, f: Factor<V>, stack: seq<char>, out: seq<Node<V>>, rest: seq<Token<V>>, b: int)
    returns (ok: bool, st: seq<char>, o: seq<Node<V>>)
    requires Sound(stack, out, b)
    ensures MakePol(depth, TokensF(f) + rest, stack, out) == if ok then MakePol(depth, rest, st, o) else TooDeep
    ensures ok ==> Sound(st, o, b + 1)
    decreases f, 0
  {
    match f
    case Value(v) =>
      ok := true;
      st, o := AnyValue(depth, v, stack, out, rest, b);
    case Bang(g) =>
      assert TokensF(f) + rest == [TOpr('!')] + (TokensF(g) + rest);
      ok, st, o := AnyOperator(depth, '!', stack, out, TokensF(g) + rest, b);
      if ok {
        ok, st, o := AnyF(depth, g, st, o, rest, b);
      }
    case Paren(d) =>
      ok, st, o := AnyParen(depth, d, stack, out, rest, b);
  }

  lemma {:induction false} AnyC<V>(depth: nat, c: Conj<V>, stack: seq<char>, out: seq<Node<V>>, rest: seq<Token<V>>, b: int)
    returns (ok: bool, st: seq<char>, o: seq<Node<V>>)
    requires Sound(stack, out, b)
    ensures MakePol(depth, TokensC(c) + rest, stack, out) == if ok then MakePol(depth, rest, st, o) else TooDeep
    ensures ok ==> Sound(st, o, b + 1)
    decreases c, 0
  {
    match c
    case JustF(f) =>
      ok, st, o := AnyF(depth, f, stack, out, rest, b);
    case MoreC(c1, f) =>
      Reassoc(TokensC(c1), [TOpr('&')], TokensF(f), rest);
      ok, st, o := AnyC(depth, c1, stack, out, [TOpr('&')] + (TokensF(f) + rest), b);
      if ok {
        ok, st, o := AnyOperator(depth, '&', st, o, TokensF(f) + rest, b + 1);
      }
      if ok {
        ok, st, o := AnyF(depth, f, st, o, rest, b);
      }
  }

  lemma {:induction false} AnyD<V>(depth: nat, d: Disj<V>, stack: seq<char>, out: seq<Node<V>>, rest: seq<Token<V>>, b: int)
    returns (ok: bool, st: seq<char>, o: seq<Node<V>>)
    requires Sound(stack, out, b)
    ensures MakePol(depth, TokensD(d) + rest, stack, out) == if ok then MakePol(depth, rest, st, o) else TooDeep
    ensures ok ==> Sound(st, o, b + 1)
    decreases d, 0
  {
    match d
    case JustC(c) =>
      ok, st, o := AnyC(depth, c, stack, out, rest, b);
    case MoreD(d1, c) =>
      Reassoc(TokensD(d1), [TOpr('|')], TokensC(c), rest);
      ok, st, o := AnyD(depth, d1, stack, out, [TOpr('|')] + (TokensC(c) + rest), b);
      if ok {
        ok, st, o := AnyOperator(depth, '|', st, o, TokensC(c) + rest, b + 1);
      }
      if ok {
        ok, st, o := AnyC(depth, c, st, o, rest, b);
      }
  }

  // A whole group adds items of balance one.
  lemma {:induction false} AnyGroup<V>(depth: nat, d: Disj<V>, out: seq<Node<V>>, close: Token<V>, rest: seq<Token<V>>)
    returns (ok: bool, o: seq<Node<V>>)
    requires Known(out) && (close == TClose || close == TEnd)
    ensures MakePol(depth, TokensD(d) + ([close] + rest), [], out) == if ok then Done(rest, o) else TooDeep
    ensures ok ==> Known(o) && Balance(o) == Balance(out) + 1
    decreases d, 1
  {
    assert Ops<V>([]) == [] && out + [] == out;
    var st;
    ok, st, o := AnyD(depth, d, [], out, [close] + rest, Balance(out));
    FirstOf(close, rest);
    o := Flushed(st, o);
  }

  // Every query, tidy or not, is refused for its depth or compiled to items of which there is one
  // value more than there are binary operators.
  lemma {:induction false} OutputBalances<V>(depth: nat, d: Disj<V>) returns (ok: bool, o: seq<Node<V>>)
    ensures MakePol(depth, TokensD(d) + [TEnd], [], []) == if ok then Done([], o) else TooDeep
    ensures ok ==> Known(o) && Balance(o) == 1
  {
    assert [Token<V>.TEnd] + [] == [TEnd];
    ok, o := AnyGroup(depth, d, [], TEnd, []);
  }

  // ---------------------------------------------------------------- linking what came out

  lemma {:induction false} PostfixBalances<V>(e: Expr<V>)
    ensures Balance(Postfix(e)) == 1
  {
    match e
    case Val(v) => BalanceOne(Arg(v));
    case Not(x) =>
      PostfixBalances(x);
      BalanceJoin(Postfix(x), [Opr('!')]);
      BalanceOne(Node<V>.Opr('!'));
    case _ =>
      var c := if e.And? then '&' else '|';
      PostfixBalances(e.l);
      PostfixBalances(e.r);
      BalanceJoin(Postfix(e.l), Postfix(e.r));
      BalanceJoin(Postfix(e.l) + Postfix(e.r), [Opr(c)]);
      BalanceOne(Node<V>.Opr(c));
  }

  // Items with a positive balance end in the postfix form of some expression.
  lemma {:induction false} LastOperand<V>(s: seq<Node<V>>) returns (junk: seq<Node<V>>, e: Expr<V>)
    requires Known(s) && Balance(s) >= 1
    ensures s == junk + Postfix(e) && Balance(junk) == Balance(s) - 1
    decreases |s|
  {
    var n := |s| - 1;
    var x, front := s[n], s[..n];
    if x.Arg? {
      junk, e := front, Val(x.v);
    } else if x.c == '!' {
      var e1;
      junk, e1 := LastOperand(front);
      e := Not(e1);
      Behind(front, junk, Postfix(e1), [x], s);
    } else {
      var mid, l, r;
      mid, r := LastOperand(front);
      KnownPart(s, mid, Postfix(r) + [x], front);
      junk, l := LastOperand(mid);
      e := if x.c == '&' then And(l, r) else Or(l, r);
      assert s == front + [x];
      assert (junk + Postfix(l)) + Postfix(r) + [x] == junk + (Postfix(l) + Postfix(r) + [x]);
    }
    PostfixBalances(e);
    BalanceJoin(junk, Postfix(e));
  }

  lemma {:induction false} Behind<V>(front: seq<Node<V>>, junk: seq<Node<V>>, p: seq<Node<V>>, x: seq<Node<V>>, s: seq<Node<V>>)
    requires front == junk + p && s == front + x
    ensures s == junk + (p + x)
  {
  }

  lemma {:induction false} KnownPart<V>(s: seq<Node<V>>, a: seq<Node<V>>, b: seq<Node<V>>, front: seq<Node<V>>)
    requires Known(s) && |s| > 0 && front == s[..|s| - 1] && |a| <= |front| && front[..|a|] == a
    ensures Known(a)
  {
    assert forall i :: 0 <= i < |a| ==> a[i] == front[i] == s[i];
  }

  // The input functions on every query: it is refused only for its depth; otherwise linking stays
  // inside the array and lays out some expression, which for a tidy query is its meaning.  What was
  // laid out can be evaluated if no link has the wrong sign, whatever lies unused before it.
  method Compile<V(==,0)>(up: bool, depth: nat, ts: seq<Token<V>>, ghost d: Disj<V>)
    returns (s: seq<Item<V>>, ok: bool, ghost e: Expr<V>)
    requires ts == TokensD(d) + [TEnd]
    ensures ok <==> MakePol(depth, ts, [], []).Done?
    ensures TidyD(d) ==> (ok <==> ShallowD(depth, d))
    ensures ok ==> Size(e) <= |s| && Laid(up, s, Start(up, s), e)
    ensures ok && LinksInside(up, e) ==> Reach(up, s, Start(up, s))
    ensures ok && TidyD(d) ==> e == MeaningD(d) && Compiled(up, s, e)
  {
    s, e := [], MeaningD(d);
    var r := RunMakePol(depth, ts, []);
    MakePolIsPostfix(depth, d);
    ghost var done, out := OutputBalances(depth, d);
    if !r.Done? {
      return s, false, e;
    }
    ghost var junk;
    junk, e := OperandOf(depth, d, r.out);
    s := LinkOut(up, r.out, junk, e);
    ok := true;
  }

  method LinkOut<V(==,0)>(up: bool, out: seq<Node<V>>, ghost junk: seq<Node<V>>, ghost e: Expr<V>) returns (s: seq<Item<V>>)
    requires out == junk + Postfix(e)
    ensures |s| == |out| == |junk| + Size(e) && Laid(up, s, Start(up, s), e)
    ensures LinksInside(up, e) ==> Reach(up, s, Start(up, s))
  {
    s := CopyAndLink(up, out, junk, e);
    if LinksInside(up, e) { StartIsReached(up, s, e); }
  }

  lemma {:induction false} OperandOf<V>(depth: nat, d: Disj<V>, out: seq<Node<V>>) returns (junk: seq<Node<V>>, e: Expr<V>)
    requires Known(out) && Balance(out) == 1
    requires TidyD(d) ==> out == Postfix(MeaningD(d))
    ensures out == junk + Postfix(e) && (TidyD(d) ==> junk == [] && e == MeaningD(d))
  {
    if TidyD(d) {
      junk, e := [], MeaningD(d);
    } else {
      junk, e := LastOperand(out);
    }
  }

  // ---------------------------------------------------------------- links that do not fit

  lemma {:induction false} LongLink(up: bool, n: nat)
    requires (if up then 0x7FFF else 0x8000) <= n <= 0xFFFF
    ensures Int2(At(up, 0, n + 1)) == if up then n - 0xFFFF else 0xFFFF - n
  {
  }

  // The link over a right operand of some 32768 to 65535 items has the wrong sign or is zero:
  // evaluation leaves the array at once, or calls itself for ever.
  lemma {:induction false} LongOperandIsMislinked<V>(up: bool, s: seq<Item<V>>, e: Expr<V>)
    requires Laid(up, s, Start(up, s), e) && (e.And? || e.Or?)
    requires (if up then 0x7FFF else 0x8000) <= Size(e.r) <= 0xFFFF
    ensures var pos := Start(up, s);
            var to := pos + s[pos].left;
            if Size(e.r) == 0xFFFF then to == pos else !(0 <= to < |s|)
    ensures !Reach(up, s, Start(up, s)) && !LinksInside(up, e) && !LinksFit(up, e)
  {
    LongLink(up, Size(e.r));
    assert s[Start(up, s)].left == Int2(At(up, 0, Size(e.r) + 1));
  }

  // y | y | ... | y with n bars
  function Bars<V>(y: V, n: nat): (d: Disj<V>) {
    if n == 0 then JustC(JustF(Value(y))) else MoreD(Bars(y, n - 1), JustF(Value(y)))
  }

  lemma {:induction false} BarsAre<V>(y: V, n: nat, depth: nat)
    ensures TidyD(Bars(y, n)) && LeftD(Bars(y, n)) == [] && Size(MeaningD(Bars(y, n))) == 2 * n + 1
    ensures depth >= 1 ==> ShallowD(depth, Bars(y, n))
  {
    var c: Conj<V> := JustF(Value(y));
    assert MeaningC(c) == Val(y) && LeftC(c) == [] && TidyC(c);
    assert ShallowC(depth, c, 0) && ShallowC(depth, c, 1);
    if n > 0 {
      BarsAre(y, n - 1, depth);
      assert MeaningD(Bars(y, n)) == Or(MeaningD(Bars(y, n - 1)), Val(y));
    }
  }

  // x | (y | y | ... | y) with n bars inside
  function Nested<V>(x: V, y: V, n: nat): (d: Disj<V>) {
    MoreD(JustC(JustF(Value(x))), JustF(Paren(Bars(y, n))))
  }

  // Such queries are accepted, with 16384 bars or more inside.  (With 32767 bars the words of an
  // ltxtquery do not fit its buffer, and only intarray takes the query.)
  lemma {:induction false} LongQueryIsMislinked<V>(up: bool, depth: nat, x: V, y: V, n: nat, s: seq<Item<V>>)
    requires depth >= 1 && 0x4000 <= n < 0x8000
    ensures MakePol(depth, TokensD(Nested(x, y, n)) + [TEnd], [], []) == Done([], Postfix(MeaningD(Nested(x, y, n))))
    ensures Laid(up, s, Start(up, s), MeaningD(Nested(x, y, n))) ==>
              var pos := Start(up, s);
              var to := pos + s[pos].left;
              !Reach(up, s, pos) && if n == 0x7FFF then to == pos else !(0 <= to < |s|)
  {
    var f: Factor<V> := Paren(Bars(y, n));
    var c, d1 := JustF(f), Bars(x, 0);
    var d := Nested(x, y, n);
    BarsAre(y, n, depth);
    BarsAre(x, 0, depth);
    assert MeaningF(f) == MeaningD(Bars(y, n)) && MeaningC(c) == MeaningF(f);
    assert MeaningC(JustF(Value(x))) == Val(x) && MeaningD(d1) == Val(x);
    assert MeaningD(d) == Or(Val(x), MeaningD(Bars(y, n)));
    assert TidyF(f) && TidyC(c) && LeftC(c) == [];
    assert ShallowF(depth, f, 1) && ShallowC(depth, c, 1);
    MakePolIsPostfix(depth, d);
    if Laid(up, s, Start(up, s), MeaningD(d)) { LongOperandIsMislinked(up, s, MeaningD(d)); }
  }

  // ---------------------------------------------------------------- unused items

  // !!(x) | y
  function Double<V>(x: V, y: V): (d: Disj<V>) {
    MoreD(JustC(JustF(Bang(Bang(Paren(JustC(JustF(Value(x)))))))), JustF(Value(y)))
  }

  lemma {:induction false} DoubleTokens<V>(x: V, y: V)
    ensures TokensD(Double(x, y)) + [TEnd] ==
            [TOpr('!')] + ([TOpr('!')] + ([TOpen] + ([TVal(x)] + ([TClose] + ([TOpr('|')] + ([TVal(y)] + [TEnd]))))))
  {
    var c1: Conj<V> := JustF(Value(x));
    var f1: Factor<V> := Paren(JustC(c1));
    assert TokensC(c1) == [TVal(x)] && TokensD(JustC(c1)) == [TVal(x)];
    assert TokensF(f1) == [TOpen, TVal(x), TClose] && TokensF(Bang(f1)) == [TOpr('!'), TOpen, TVal(x), TClose];
    assert TokensF(Bang(Bang(f1))) == [TOpr('!'), TOpr('!'), TOpen, TVal(x), TClose];
    var c: Conj<V>, c2: Conj<V> := JustF(Bang(Bang(f1))), JustF(Value(y));
    assert TokensC(c2) == [TVal(y)];
    assert TokensD(JustC(c)) == [TOpr('!'), TOpr('!'), TOpen, TVal(x), TClose];
  }

  // `!!(x) | y` comes out as `x ! | y !`, of which only the last two are linked: it means `!y`.
  lemma {:induction false} DoubleNegationIsLost<V>(depth: nat, x: V, y: V)
    requires depth >= 2
    ensures MakePol(depth, TokensD(Double(x, y)) + [TEnd], [], []) ==
            Done([], [Arg(x), Opr('!'), Opr('|')] + Postfix(Not(Val(y))))
  {
    var rest := [TOpr('|')] + ([TVal(y)] + [TEnd]);
    DoubleTokens(x, y);
    DoubleInside(depth, x, rest);
    DoubleOutside(depth, x, [TVal(x)] + ([TClose] + rest), rest);
    MisreadRest(depth, y, ['!'], [Arg(x), Opr('!')], [Arg(x), Opr('!'), Opr('|')]);
    assert Postfix(Not(Val(y))) == [Arg(y)] + Ops(['!']);
  }

  lemma {:induction false} DoubleInside<V>(depth: nat, x: V, rest: seq<Token<V>>)
    ensures MakePol(depth, [TVal(x)] + ([TClose] + rest), [], []) == Done(rest, [] + [Arg(x)])
  {
    assert Ops<V>([]) == [];
    StepVal(depth, x, [], [], [], [TClose] + rest);
    assert ([TClose] + rest)[1..] == rest;
  }

  lemma {:induction false} DoubleOutside<V>(depth: nat, x: V, inner: seq<Token<V>>, rest: seq<Token<V>>)
    requires depth >= 2 && MakePol(depth, inner, [], []) == Done(rest, [] + [Arg(x)])
    ensures MakePol(depth, [TOpr('!')] + ([TOpr('!')] + ([TOpen] + inner)), [], []) ==
            MakePol(depth, rest, ['!'], [Arg(x), Opr('!')])
  {
    StepPush(depth, '!', [], [], [TOpr('!')] + ([TOpen] + inner));
    StepPush(depth, '!', ['!'], [], [TOpen] + inner);
    StepParen(depth, inner, [], ['!', '!'], [], [Arg(x)], rest);
    assert [] + ['!'] == ['!'] && ['!'] + ['!'] == ['!', '!'] == [] + ['!', '!'];
    assert [] + (['!', '!'])[..1] == ['!'];
    assert [] + ([Arg(x)] + [Opr('!')]) == [Arg(x), Opr('!')];
  }
}

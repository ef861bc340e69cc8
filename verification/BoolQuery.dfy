/**
 The boolean query compiler shared (as two copies of the same code) by contrib/intarray/_int.c
 and contrib/ltree/ltxtquery_io.c: `makepol` turns infix tokens into postfix with an operator
 stack, `findoprnd` links every operator to its left operand in place, and `execute` evaluates
 the linked array, either exactly or, for index keys, as an over-approximation.
 */
module BoolQuery {

  // ---------------------------------------------------------------- expressions

  datatype Expr<V> = Val(v: V) | Not(e: Expr<V>) | And(l: Expr<V>, r: Expr<V>) | Or(l: Expr<V>, r: Expr<V>)

  // The truth value under an assignment.
  predicate Truth<V>(e: Expr<V>, holds: V -> bool) {
    match e
    case Val(v) => holds(v)
    case Not(x) => !Truth(x, holds)
    case And(l, r) => Truth(l, holds) && Truth(r, holds)
    case Or(l, r) => Truth(l, holds) || Truth(r, holds)
  }

  // What is computed for an index key, where a value may be present without being in a row below.
  predicate Possible<V>(e: Expr<V>, holds: V -> bool) {
    match e
    case Val(v) => holds(v)
    case Not(_) => true
    case And(l, r) => Possible(l, holds) && Possible(r, holds)
    case Or(l, r) => Possible(l, holds) || Possible(r, holds)
  }

  // Evaluation that gives up on negation never rejects what a smaller assignment satisfies.
  lemma {:induction false} PossibleIsSound<V(!new)>(e: Expr<V>, holds: V -> bool, more: V -> bool)
    requires forall v :: holds(v) ==> more(v)
    ensures Truth(e, holds) ==> Possible(e, more)
  {
    match e
    case Val(_) =>
    case Not(_) =>
    case And(l, r) =>
      PossibleIsSound(l, holds, more);
      PossibleIsSound(r, holds, more);
    case Or(l, r) =>
      PossibleIsSound(l, holds, more);
      PossibleIsSound(r, holds, more);
  }

  // ---------------------------------------------------------------- the query language

  // d ::= c | d '|' c      c ::= f | c '&' f      f ::= value | '!' f | '(' d ')'
  datatype Disj<V> = JustC(c: Conj<V>) | MoreD(d: Disj<V>, c: Conj<V>)
  datatype Conj<V> = JustF(f: Factor<V>) | MoreC(c: Conj<V>, f: Factor<V>)
  datatype Factor<V> = Value(v: V) | Bang(f: Factor<V>) | Paren(d: Disj<V>)

  datatype Token<V> = TVal(v: V) | TOpr(c: char) | TOpen | TClose | TEnd

  function TokensD<V>(d: Disj<V>): (ts: seq<Token<V>>) {
    match d
    case JustC(c) => TokensC(c)
    case MoreD(d1, c) => TokensD(d1) + [TOpr('|')] + TokensC(c)
  }

  function TokensC<V>(c: Conj<V>): (ts: seq<Token<V>>) {
    match c
    case JustF(f) => TokensF(f)
    case MoreC(c1, f) => TokensC(c1) + [TOpr('&')] + TokensF(f)
  }

  function TokensF<V>(f: Factor<V>): (ts: seq<Token<V>>) {
    match f
    case Value(v) => [TVal(v)]
    case Bang(f1) => [TOpr('!')] + TokensF(f1)
    case Paren(d) => [TOpen] + TokensD(d) + [TClose]
  }

  // The meaning under the precedence ! over & over |, with & and | associating to the left.
  function MeaningD<V>(d: Disj<V>): (e: Expr<V>) {
    match d
    case JustC(c) => MeaningC(c)
    case MoreD(d1, c) => Or(MeaningD(d1), MeaningC(c))
  }

  function MeaningC<V>(c: Conj<V>): (e: Expr<V>) {
    match c
    case JustF(f) => MeaningF(f)
    case MoreC(c1, f) => And(MeaningC(c1), MeaningF(f))
  }

  function MeaningF<V>(f: Factor<V>): (e: Expr<V>) {
    match f
    case Value(v) => Val(v)
    case Bang(f1) => Not(MeaningF(f1))
    case Paren(d) => MeaningD(d)
  }

  // ---------------------------------------------------------------- makepol

  datatype Node<V> = Arg(v: V) | Opr(c: char)

  datatype Polish<V> = Done(rest: seq<Token<V>>, out: seq<Node<V>>) | TooDeep | SyntaxError

  predicate Tight(c: char) { c == '&' || c == '!' }

  function Ops<V>(s: seq<char>): (r: seq<Node<V>>) { seq(|s|, i requires 0 <= i < |s| => Opr(s[|s| - 1 - i])) }

  // How many operators on top of the stack bind tighter than |.
  function RunLength(stack: seq<char>): (n: nat)
    ensures n <= |stack|
    ensures forall i :: |stack| - n <= i < |stack| ==> Tight(stack[i])
    ensures n < |stack| ==> !Tight(stack[|stack| - n - 1])
  {
    if stack == [] || !Tight(stack[|stack| - 1]) then 0 else 1 + RunLength(stack[..|stack| - 1])
  }

  // One activation of makepol from token `ts[0]` on; `depth` is STACKDEPTH.
  function MakePol<V>(depth: nat, ts: seq<Token<V>>, stack: seq<char>, out: seq<Node<V>>): (r: Polish<V>)
    ensures r.Done? ==> out <= r.out && |r.rest| <= |ts|
    decreases |ts|
  {
    if ts == [] then SyntaxError
    else match ts[0]
      case TVal(v) =>
        var n := |stack| - RunLength(stack);
        MakePol(depth, ts[1..], stack[..n], out + [Arg(v)] + Ops(stack[n..]))
      case TOpr(c) =>
        if |stack| > 0 && c == '|' then MakePol(depth, ts[1..], stack, out + [Opr(c)])
        else if |stack| == depth then TooDeep
        else MakePol(depth, ts[1..], stack + [c], out)
      case TOpen =>
        (match MakePol(depth, ts[1..], [], out)
         case Done(rest, out1) =>
           if stack != [] && Tight(stack[|stack| - 1])
           then MakePol(depth, rest, stack[..|stack| - 1], out1 + [Opr(stack[|stack| - 1])])
           else MakePol(depth, rest, stack, out1)
         case failure => failure)
      case TClose => Done(ts[1..], out + Ops(stack))
      case TEnd => Done(ts[1..], out + Ops(stack))
  }

  function Postfix<V>(e: Expr<V>): (s: seq<Node<V>>)
    ensures |s| > 0
  {
    match e
    case Val(v) => [Arg(v)]
    case Not(x) => Postfix(x) + [Opr('!')]
    case And(l, r) => Postfix(l) + Postfix(r) + [Opr('&')]
    case Or(l, r) => Postfix(l) + Postfix(r) + [Opr('|')]
  }

  // ---------------------------------------------------------------- when makepol is right

  // The operators a factor leaves on the stack, of the tight run r that was pending before it: a
  // value pops the whole run, a closing parenthesis only its last operator.
  function LeftF<V>(f: Factor<V>, r: seq<char>): (l: seq<char>)
  {
    match f
    case Value(_) => []
    case Bang(g) => LeftF(g, r + ['!'])
    case Paren(_) => if r == [] then [] else r[..|r| - 1]
  }

  function LeftC<V>(c: Conj<V>): (l: seq<char>) {
    if c.JustF? then LeftF(c.f, []) else LeftF(c.f, ['&'])
  }

  function LeftD<V>(d: Disj<V>): (l: seq<char>) { LeftC(d.c) }

  // A query is tidy when only the last factor of a group leaves operators behind: a parenthesis
  // with two or more of & and ! pending (as in `a & !(b)`) is followed by `)` or the end.
  predicate TidyF<V>(f: Factor<V>) {
    match f
    case Value(_) => true
    case Bang(g) => TidyF(g)
    case Paren(d) => TidyD(d)
  }

  predicate TidyC<V>(c: Conj<V>) {
    TidyF(c.f) && (c.MoreC? ==> TidyC(c.c) && LeftC(c.c) == [])
  }

  predicate TidyD<V>(d: Disj<V>) {
    TidyC(d.c) && (d.MoreD? ==> TidyD(d.d) && LeftD(d.d) == [])
  }

  // No group needs more than `depth` stack cells.
  predicate ShallowF<V>(depth: nat, f: Factor<V>, n: nat) {
    match f
    case Value(_) => true
    case Bang(g) => n < depth && ShallowF(depth, g, n + 1)
    case Paren(d) => ShallowD(depth, d)
  }

  predicate ShallowC<V>(depth: nat, c: Conj<V>, n: nat) {
    match c
    case JustF(f) => ShallowF(depth, f, n)
    case MoreC(c1, f) => ShallowC(depth, c1, n) && n < depth && ShallowF(depth, f, n + 1)
  }

  predicate ShallowD<V>(depth: nat, d: Disj<V>) {
    match d
    case JustC(c) => ShallowC(depth, c, 0)
    case MoreD(d1, c) => ShallowD(depth, d1) && 0 < depth && ShallowC(depth, c, 1)
  }

  // What has been emitted when a construct is complete; the rest of its postfix form is still
  // on the stack.
  function EmittedF<V>(f: Factor<V>, r: seq<char>): (s: seq<Node<V>>) {
    match f
    case Value(v) => [Arg(v)] + Ops(r)
    case Bang(g) => EmittedF(g, r + ['!'])
    case Paren(d) => Postfix(MeaningD(d)) + (if r == [] then [] else [Opr(r[|r| - 1])])
  }

  function EmittedC<V>(c: Conj<V>): (s: seq<Node<V>>) {
    match c
    case JustF(f) => EmittedF(f, [])
    case MoreC(c1, f) => Postfix(MeaningC(c1)) + EmittedF(f, ['&'])
  }

  function EmittedD<V>(d: Disj<V>): (s: seq<Node<V>>) {
    match d
    case JustC(c) => EmittedC(c)
    case MoreD(d1, c) => Postfix(MeaningD(d1)) + EmittedC(c)
  }

  function BaseD<V>(d: Disj<V>): (b: seq<char>) { if d.MoreD? then ['|'] else [] }

  predicate AllTight(r: seq<char>) { forall i :: 0 <= i < |r| ==> Tight(r[i]) }

  lemma {:induction false} EmittedAllF<V>(f: Factor<V>, r: seq<char>)
    requires AllTight(r)
    ensures AllTight(LeftF(f, r))
    ensures EmittedF(f, r) + Ops(LeftF(f, r)) == Postfix(MeaningF(f)) + Ops(r)
  {
    match f
    case Value(v) =>
    case Bang(g) =>
      EmittedAllF(g, r + ['!']);
      assert Ops<V>(r + ['!']) == Ops(['!']) + Ops(r);
      assert Ops<V>(['!']) == [Opr('!')];
    case Paren(d) =>
      if r != [] {
        assert Ops<V>(r[..|r| - 1] + [r[|r| - 1]]) == Ops([r[|r| - 1]]) + Ops(r[..|r| - 1]);
        assert r == r[..|r| - 1] + [r[|r| - 1]];
      }
  }

  lemma {:induction false} EmittedAllC<V>(c: Conj<V>)
    ensures AllTight(LeftC(c))
    ensures EmittedC(c) + Ops(LeftC(c)) == Postfix(MeaningC(c))
  {
    EmittedAllF(c.f, if c.JustF? then [] else ['&']);
    if c.MoreC? {
      assert Ops<V>(['&']) == [Opr('&')];
      var a, b := Postfix(MeaningC(c.c)), EmittedF(c.f, ['&']);
      assert (a + b) + Ops(LeftC(c)) == a + (b + Ops(LeftC(c)));
    }
  }

  lemma {:induction false} EmittedAllD<V>(d: Disj<V>)
    ensures EmittedD(d) + Ops(BaseD(d) + LeftD(d)) == Postfix(MeaningD(d))
  {
    EmittedAllC(d.c);
    assert Ops<V>(BaseD(d) + LeftD(d)) == Ops(LeftD(d)) + Ops(BaseD(d));
    if d.MoreD? {
      var a, b := Postfix(MeaningD(d.d)), EmittedC(d.c);
      assert Ops<V>(['|']) == [Opr('|')];
      assert (a + b) + (Ops(LeftD(d)) + [Opr('|')]) == a + (b + Ops(LeftD(d))) + [Opr('|')];
    } else {
      assert BaseD(d) + LeftD(d) == LeftD(d);
    }
  }

  predicate Base(b: seq<char>) { b == [] || b == ['|'] }

  // The stack is a base and a tight run; popping the run leaves the base.
  lemma {:induction false} RunOf(b: seq<char>, r: seq<char>)
    requires Base(b) && AllTight(r)
    ensures RunLength(b + r) == |r|
  {
    if r == [] {
      assert b + r == b;
    } else {
      assert (b + r)[..|b + r| - 1] == b + r[..|r| - 1];
      RunOf(b, r[..|r| - 1]);
    }
  }

  lemma {:induction false} StepVal<V>(depth: nat, v: V, b: seq<char>, r: seq<char>, out: seq<Node<V>>, rest: seq<Token<V>>)
    requires Base(b) && AllTight(r)
    ensures MakePol(depth, [TVal(v)] + rest, b + r, out) == MakePol(depth, rest, b, out + ([Arg(v)] + Ops(r)))
  {
    RunOf(b, r);
    assert ([TVal(v)] + rest)[1..] == rest;
    assert (b + r)[..|b|] == b && (b + r)[|b|..] == r;
    assert out + [Arg(v)] + Ops(r) == out + ([Arg(v)] + Ops(r));
  }

  lemma {:induction false} StepPush<V>(depth: nat, c: char, stack: seq<char>, out: seq<Node<V>>, rest: seq<Token<V>>)
    requires Tight(c)
    ensures MakePol(depth, [TOpr(c)] + rest, stack, out) ==
            if |stack| == depth then TooDeep else MakePol(depth, rest, stack + [c], out)
  {
    assert ([TOpr(c)] + rest)[1..] == rest;
  }

  // A parenthesis whose inside comes out as `inside` pops one tight operator.
  lemma {:induction false} StepParen<V>(depth: nat, ts: seq<Token<V>>, b: seq<char>, r: seq<char>, out: seq<Node<V>>, inside: seq<Node<V>>, rest: seq<Token<V>>)
    requires Base(b) && AllTight(r)
    ensures MakePol(depth, ts, [], out) == Done(rest, out + inside) ==>
              MakePol(depth, [TOpen] + ts, b + r, out) ==
              MakePol(depth, rest, b + (if r == [] then [] else r[..|r| - 1]),
                      out + (inside + if r == [] then [] else [Opr(r[|r| - 1])]))
    ensures MakePol(depth, ts, [], out) == TooDeep ==> MakePol(depth, [TOpen] + ts, b + r, out) == TooDeep
  {
    assert ([TOpen] + ts)[1..] == ts;
    if r == [] {
      assert b + r == b + [] == b && inside + [] == inside;
    } else {
      assert (b + r)[|b + r| - 1] == r[|r| - 1] && (b + r)[..|b + r| - 1] == b + r[..|r| - 1];
      assert out + inside + [Opr(r[|r| - 1])] == out + (inside + [Opr(r[|r| - 1])]);
    }
  }

  lemma {:induction false} RunsF<V>(depth: nat, f: Factor<V>, b: seq<char>, r: seq<char>, out: seq<Node<V>>, rest: seq<Token<V>>)
    requires Base(b) && AllTight(r) && |b + r| <= depth && TidyF(f)
    ensures MakePol(depth, TokensF(f) + rest, b + r, out) ==
            if ShallowF(depth, f, |b + r|)
            then MakePol(depth, rest, b + LeftF(f, r), out + EmittedF(f, r)) else TooDeep
    decreases f, 0
  {
    match f
    case Value(v) =>
      StepVal(depth, v, b, r, out, rest);
      assert b + [] == b;
    case Bang(g) =>
      assert TokensF(f) + rest == [TOpr('!')] + (TokensF(g) + rest) && (b + r) + ['!'] == b + (r + ['!']);
      StepPush(depth, '!', b + r, out, TokensF(g) + rest);
      if |b + r| < depth { RunsF(depth, g, b, r + ['!'], out, rest); }
    case Paren(d) =>
      var ts := TokensD(d) + ([TClose] + rest);
      assert TokensF(f) + rest == [TOpen] + ts;
      RunsGroup(depth, d, out, TClose, rest);
      StepParen(depth, ts, b, r, out, Postfix(MeaningD(d)), rest);
  }

  lemma {:induction false} Reassoc<T>(a: seq<T>, b: seq<T>, c: seq<T>, d: seq<T>)
    ensures a + b + c + d == a + (b + (c + d))
  {
  }

  // An and with the factor behind it, in a group with nothing pending.
  lemma {:induction false} RunsAnd<V>(depth: nat, f: Factor<V>, b: seq<char>, out: seq<Node<V>>, rest: seq<Token<V>>)
    requires Base(b) && |b| <= depth && TidyF(f)
    ensures MakePol(depth, [TOpr('&')] + (TokensF(f) + rest), b, out) ==
            if |b| < depth && ShallowF(depth, f, |b| + 1)
            then MakePol(depth, rest, b + LeftF(f, ['&']), out + EmittedF(f, ['&'])) else TooDeep
    decreases f, 1
  {
    StepPush(depth, '&', b, out, TokensF(f) + rest);
    if |b| < depth {
      RunsF(depth, f, b, ['&'], out, rest);
    }
  }

  // What a group with nothing left behind has put out is its postfix form.
  lemma {:induction false} EmittedIsAll<V>(c: Conj<V>)
    requires LeftC(c) == []
    ensures EmittedC(c) == Postfix(MeaningC(c))
  {
    EmittedAllC(c);
    assert Ops<V>([]) == [];
  }

  lemma {:induction false} AppendAssoc<T>(a: seq<T>, b: seq<T>, c: seq<T>)
    ensures (a + b) + c == a + (b + c)
  {
  }

  lemma {:induction false} RunsC<V>(depth: nat, c: Conj<V>, b: seq<char>, out: seq<Node<V>>, rest: seq<Token<V>>)
    requires Base(b) && |b| <= depth && TidyC(c)
    ensures MakePol(depth, TokensC(c) + rest, b, out) ==
            if ShallowC(depth, c, |b|) then MakePol(depth, rest, b + LeftC(c), out + EmittedC(c)) else TooDeep
    decreases c
  {
    assert b + [] == b;
    match c
    case JustF(f) =>
      RunsF(depth, f, b, [], out, rest);
    case MoreC(c1, f) =>
      Reassoc(TokensC(c1), [TOpr('&')], TokensF(f), rest);
      RunsC(depth, c1, b, out, [TOpr('&')] + (TokensF(f) + rest));
      EmittedIsAll(c1);
      RunsAnd(depth, f, b, out + Postfix(MeaningC(c1)), rest);
      AppendAssoc(out, Postfix(MeaningC(c1)), EmittedF(f, ['&']));
  }

  lemma {:induction false} RunsD<V>(depth: nat, d: Disj<V>, out: seq<Node<V>>, rest: seq<Token<V>>)
    requires TidyD(d)
    ensures MakePol(depth, TokensD(d) + rest, [], out) ==
            if ShallowD(depth, d) then MakePol(depth, rest, BaseD(d) + LeftD(d), out + EmittedD(d)) else TooDeep
    decreases d, 0
  {
    match d
    case JustC(c) =>
      RunsC(depth, c, [], out, rest);
    case MoreD(d1, c) =>
      var rest1 := [TOpr('|')] + (TokensC(c) + rest);
      assert TokensD(d) + rest == TokensD(d1) + rest1;
      RunsD(depth, d1, out, rest1);
      if ShallowD(depth, d1) {
        AfterBar(depth, d1, out, TokensC(c) + rest);
        if 0 < depth {
          RunsC(depth, c, ['|'], out + Postfix(MeaningD(d1)), rest);
          assert out + Postfix(MeaningD(d1)) + EmittedC(c) == out + EmittedD(d);
        }
      }
  }

  // Reading `|` when nothing tight is pending completes the postfix form of what precedes it.
  // A bar goes on the stack, or takes the place of the bar that is there.
  lemma {:induction false} StepBar<V>(depth: nat, stack: seq<char>, out: seq<Node<V>>, rest: seq<Token<V>>)
    requires stack == [] || (stack == ['|'] && 0 < depth)
    ensures MakePol(depth, [TOpr('|')] + rest, stack, out) ==
            if 0 < depth then MakePol(depth, rest, ['|'], out + Ops(stack)) else TooDeep
  {
    assert ([TOpr('|')] + rest)[1..] == rest;
    assert Ops<V>(['|']) == [Opr('|')] && out + Ops([]) == out;
    assert [] + ['|'] == ['|'];
  }

  lemma {:induction false} AfterBar<V>(depth: nat, d: Disj<V>, out: seq<Node<V>>, rest: seq<Token<V>>)
    requires LeftD(d) == [] && (d.MoreD? ==> 0 < depth)
    ensures MakePol(depth, [TOpr('|')] + rest, BaseD(d) + LeftD(d), out + EmittedD(d)) ==
            if 0 < depth then MakePol(depth, rest, ['|'], out + Postfix(MeaningD(d))) else TooDeep
  {
    EmittedAllD(d);
    StepBar(depth, BaseD(d) + LeftD(d), out + EmittedD(d), rest);
    assert (out + EmittedD(d)) + Ops(BaseD(d) + LeftD(d)) == out + (EmittedD(d) + Ops(BaseD(d) + LeftD(d)));
  }

  lemma {:induction false} RunsGroup<V>(depth: nat, d: Disj<V>, out: seq<Node<V>>, close: Token<V>, rest: seq<Token<V>>)
    requires TidyD(d) && (close == TClose || close == TEnd)
    ensures MakePol(depth, TokensD(d) + ([close] + rest), [], out) ==
            if ShallowD(depth, d) then Done(rest, out + Postfix(MeaningD(d))) else TooDeep
    decreases d, 1
  {
    RunsD(depth, d, out, [close] + rest);
    EmittedAllD(d);
    assert ([close] + rest)[1..] == rest;
    assert (out + EmittedD(d)) + Ops(BaseD(d) + LeftD(d)) == out + (EmittedD(d) + Ops(BaseD(d) + LeftD(d)));
  }

  // ---------------------------------------------------------------- when makepol is wrong

  // Two outputs that can no longer become equal by appending.
  ghost predicate Differ<V>(a: seq<Node<V>>, b: seq<Node<V>>) {
    exists i :: 0 <= i < |a| && i < |b| && a[i] != b[i]
  }

  lemma {:induction false} DifferGrows<V>(a: seq<Node<V>>, b: seq<Node<V>>, a1: seq<Node<V>>, b1: seq<Node<V>>)
    requires Differ(a, b) && a <= a1 && b <= b1
    ensures Differ(a1, b1)
  {
    var i :| 0 <= i < |a| && i < |b| && a[i] != b[i];
    assert a1[i] == a[i] && b1[i] == b[i];
  }

  // Whatever is pending, the next thing a factor emits is a value.
  lemma {:induction false} FirstIsValue<V>(depth: nat, f: Factor<V>, stack: seq<char>, out: seq<Node<V>>, rest: seq<Token<V>>)
    ensures var r := MakePol(depth, TokensF(f) + rest, stack, out);
            r.Done? ==> |out| < |r.out| && r.out[|out|].Arg?
    decreases f
  {
    var ts := TokensF(f) + rest;
    match f
    case Value(v) =>
    case Bang(g) =>
      assert ts[1..] == TokensF(g) + rest;
      FirstIsValue(depth, g, stack + ['!'], out, rest);
    case Paren(d) =>
      FirstIsValueD(depth, d, [], out, [TClose] + rest);
      assert ts[1..] == TokensD(d) + ([TClose] + rest);
  }

  lemma {:induction false} FirstIsValueC<V>(depth: nat, c: Conj<V>, stack: seq<char>, out: seq<Node<V>>, rest: seq<Token<V>>)
    ensures var r := MakePol(depth, TokensC(c) + rest, stack, out);
            r.Done? ==> |out| < |r.out| && r.out[|out|].Arg?
    decreases c
  {
    if c.JustF? {
      FirstIsValue(depth, c.f, stack, out, rest);
    } else {
      FirstIsValueC(depth, c.c, stack, out, [TOpr('&')] + TokensF(c.f) + rest);
      assert TokensC(c) + rest == TokensC(c.c) + ([TOpr('&')] + TokensF(c.f) + rest);
    }
  }

  lemma {:induction false} FirstIsValueD<V>(depth: nat, d: Disj<V>, stack: seq<char>, out: seq<Node<V>>, rest: seq<Token<V>>)
    ensures var r := MakePol(depth, TokensD(d) + rest, stack, out);
            r.Done? ==> |out| < |r.out| && r.out[|out|].Arg?
    decreases d
  {
    if d.JustC? {
      FirstIsValueC(depth, d.c, stack, out, rest);
    } else {
      FirstIsValueD(depth, d.d, stack, out, [TOpr('|')] + TokensC(d.c) + rest);
      assert TokensD(d) + rest == TokensD(d.d) + ([TOpr('|')] + TokensC(d.c) + rest);
    }
  }

  lemma {:induction false} WrongF<V>(depth: nat, f: Factor<V>, stack: seq<char>, out: seq<Node<V>>, rest: seq<Token<V>>)
    requires !TidyF(f)
    ensures var r := MakePol(depth, TokensF(f) + rest, stack, out);
            r.Done? ==> Differ(r.out, out + Postfix(MeaningF(f)))
    decreases f, 0
  {
    var ts := TokensF(f) + rest;
    var r := MakePol(depth, ts, stack, out);
    match f
    case Bang(g) =>
      assert ts[1..] == TokensF(g) + rest;
      WrongF(depth, g, stack + ['!'], out, rest);
      if r.Done? {
        DifferGrows(r.out, out + Postfix(MeaningF(g)), r.out, out + Postfix(MeaningF(f)));
      }
    case Paren(d) =>
      assert ts[1..] == TokensD(d) + ([TClose] + rest);
      WrongD(depth, d, out, [TClose] + rest);
      if r.Done? {
        var inner := MakePol(depth, ts[1..], [], out);
        DifferGrows(inner.out, out + Postfix(MeaningD(d)), r.out, out + Postfix(MeaningF(f)));
      }
  }

  // An & or ! left on the stack belongs before anything that is emitted next.
  lemma {:induction false} StuckAnd<V>(depth: nat, f: Factor<V>, stack: seq<char>, l: seq<char>, out: seq<Node<V>>, rest: seq<Token<V>>)
    requires l != []
    ensures var r := MakePol(depth, [TOpr('&')] + (TokensF(f) + rest), stack, out);
            r.Done? ==> Differ(r.out, out + Ops(l))
  {
    var r := MakePol(depth, [TOpr('&')] + (TokensF(f) + rest), stack, out);
    assert ([TOpr('&')] + (TokensF(f) + rest))[1..] == TokensF(f) + rest;
    FirstIsValue(depth, f, stack + ['&'], out, rest);
    if r.Done? {
      assert (out + Ops(l))[|out|].Opr?;
    }
  }

  lemma {:induction false} StuckBar<V>(depth: nat, stack: seq<char>, out: seq<Node<V>>, rest: seq<Token<V>>)
    requires stack != [] && Tight(stack[|stack| - 1])
    ensures var r := MakePol(depth, [TOpr('|')] + rest, stack, out);
            r.Done? ==> Differ(r.out, out + Ops(stack))
  {
    var r := MakePol(depth, [TOpr('|')] + rest, stack, out);
    if r.Done? {
      assert (out + Ops(stack))[|out|] == Opr(stack[|stack| - 1]);
      assert r.out[|out|] == Opr('|');
    }
  }

  lemma {:induction false} PostfixPrefixes<V>(out: seq<Node<V>>, l: Expr<V>, r: Expr<V>, e: Expr<V>)
    requires e == And(l, r) || e == Or(l, r)
    ensures out + Postfix(l) <= out + Postfix(e)
    ensures (out + Postfix(l)) + Postfix(r) <= out + Postfix(e)
  {
    Prefixes(out, Postfix(l), Postfix(r), [Opr(if e.And? then '&' else '|')]);
  }

  lemma {:induction false} Prefixes<T>(out: seq<T>, a: seq<T>, b: seq<T>, c: seq<T>)
    ensures out + a <= out + (a + b + c)
    ensures (out + a) + b <= out + (a + b + c)
  {
    assert out + (a + b + c) == (out + a) + b + c;
  }

  lemma {:induction false} WrongC<V>(depth: nat, c: Conj<V>, b: seq<char>, out: seq<Node<V>>, rest: seq<Token<V>>)
    requires Base(b) && |b| <= depth && !TidyC(c)
    ensures var r := MakePol(depth, TokensC(c) + rest, b, out);
            r.Done? ==> Differ(r.out, out + Postfix(MeaningC(c)))
    decreases c, 0
  {
    if c.JustF? {
      WrongF(depth, c.f, b, out, rest);
    } else {
      var r := MakePol(depth, TokensC(c) + rest, b, out);
      var rest1 := [TOpr('&')] + (TokensF(c.f) + rest);
      assert TokensC(c) + rest == TokensC(c.c) + rest1;
      PostfixPrefixes(out, MeaningC(c.c), MeaningF(c.f), MeaningC(c));
      var expected := out + Postfix(MeaningC(c.c));
      if !TidyC(c.c) {
        WrongC(depth, c.c, b, out, rest1);
        if r.Done? { DifferGrows(r.out, expected, r.out, out + Postfix(MeaningC(c))); }
      } else {
        RunsC(depth, c.c, b, out, rest1);
        if r.Done? {
          WrongAnd(depth, c.c, c.f, b, out, rest);
          DifferGrows(r.out, if LeftC(c.c) == [] then expected + Postfix(MeaningF(c.f)) else expected,
                      r.out, out + Postfix(MeaningC(c)));
        }
      }
    }
  }

  // A tidy left side followed by & and the factor f, when something goes wrong from there.
  lemma {:induction false} WrongAnd<V>(depth: nat, c: Conj<V>, f: Factor<V>, b: seq<char>, out: seq<Node<V>>, rest: seq<Token<V>>)
    requires TidyC(c) && (LeftC(c) == [] ==> !TidyF(f))
    ensures var r := MakePol(depth, [TOpr('&')] + (TokensF(f) + rest), b + LeftC(c), out + EmittedC(c));
            var expected := out + Postfix(MeaningC(c));
            r.Done? ==> Differ(r.out, if LeftC(c) == [] then expected + Postfix(MeaningF(f)) else expected)
    decreases f, 1
  {
    var mid, l := out + EmittedC(c), LeftC(c);
    EmittedAllC(c);
    assert out + Postfix(MeaningC(c)) == mid + Ops(l);
    if l != [] {
      StuckAnd(depth, f, b + l, l, mid, rest);
    } else {
      assert ([TOpr('&')] + (TokensF(f) + rest))[1..] == TokensF(f) + rest;
      assert mid + Ops(l) == mid;
      WrongF(depth, f, b + l + ['&'], mid, rest);
    }
  }

  lemma {:induction false} WrongD<V>(depth: nat, d: Disj<V>, out: seq<Node<V>>, rest: seq<Token<V>>)
    requires !TidyD(d)
    ensures var r := MakePol(depth, TokensD(d) + rest, [], out);
            r.Done? ==> Differ(r.out, out + Postfix(MeaningD(d)))
    decreases d, 0
  {
    if d.JustC? {
      WrongC(depth, d.c, [], out, rest);
    } else {
      var r := MakePol(depth, TokensD(d) + rest, [], out);
      var rest1 := [TOpr('|')] + (TokensC(d.c) + rest);
      assert TokensD(d) + rest == TokensD(d.d) + rest1;
      PostfixPrefixes(out, MeaningD(d.d), MeaningC(d.c), MeaningD(d));
      var expected := out + Postfix(MeaningD(d.d));
      if !TidyD(d.d) {
        WrongD(depth, d.d, out, rest1);
        if r.Done? { DifferGrows(r.out, expected, r.out, out + Postfix(MeaningD(d))); }
      } else {
        RunsD(depth, d.d, out, rest1);
        if r.Done? {
          WrongOr(depth, d.d, d.c, out, rest);
          DifferGrows(r.out, if LeftD(d.d) == [] then expected + Postfix(MeaningC(d.c)) else expected,
                      r.out, out + Postfix(MeaningD(d)));
        }
      }
    }
  }

  lemma {:induction false} WrongOr<V>(depth: nat, d: Disj<V>, c: Conj<V>, out: seq<Node<V>>, rest: seq<Token<V>>)
    requires TidyD(d) && (d.MoreD? ==> 0 < depth) && (LeftD(d) == [] ==> !TidyC(c))
    ensures var r := MakePol(depth, [TOpr('|')] + (TokensC(c) + rest), BaseD(d) + LeftD(d), out + EmittedD(d));
            var expected := out + Postfix(MeaningD(d));
            r.Done? ==> Differ(r.out, if LeftD(d) == [] then expected + Postfix(MeaningC(c)) else expected)
    decreases c, 1
  {
    var mid, l := out + EmittedD(d), LeftD(d);
    EmittedAllD(d);
    assert out + Postfix(MeaningD(d)) == mid + Ops(BaseD(d) + l);
    if l != [] {
      EmittedAllC(d.c);
      StuckBar(depth, BaseD(d) + l, mid, TokensC(c) + rest);
    } else {
      AfterBar(depth, d, out, TokensC(c) + rest);
      if 0 < depth { WrongC(depth, c, ['|'], out + Postfix(MeaningD(d)), rest); }
    }
  }

  // makepol produces the postfix form of a query exactly when the query is tidy and fits the stack.
  lemma {:induction false} MakePolIsPostfix<V>(depth: nat, d: Disj<V>)
    ensures MakePol(depth, TokensD(d) + [TEnd], [], []) == Done([], Postfix(MeaningD(d)))
            <==> TidyD(d) && ShallowD(depth, d)
    ensures TidyD(d) && !ShallowD(depth, d) ==> MakePol(depth, TokensD(d) + [TEnd], [], []) == TooDeep
  {
    var p := Postfix(MeaningD(d));
    assert [] + p == p;
    if TidyD(d) {
      assert [Token<V>.TEnd] + [] == [TEnd];
      RunsGroup(depth, d, [], TEnd, []);
    } else {
      WrongD(depth, d, [], [TEnd]);
      assert !Differ(p, p);
    }
  }

  // ---------------------------------------------------------------- the code

  // Pop operators, emitting each, until the stack is empty or (if `tight`) its top is |.
  method PopRun<V>(stack: array<char>, len: nat, tight: bool, out0: seq<Node<V>>) returns (n: nat, out: seq<Node<V>>)
    requires len <= stack.Length
    ensures n == if tight then len - RunLength(stack[..len]) else 0
    ensures out == out0 + Ops(stack[..len][n..])
  {
    n, out := len, out0;
    while n > 0 && (!tight || Tight(stack[n - 1]))
      invariant n <= len
      invariant out == out0 + Ops(stack[n..len])
      invariant RunLength(stack[..len]) == (if tight then len - n else 0) + (if tight then RunLength(stack[..n]) else RunLength(stack[..len]))
    {
      assert stack[..n][..n - 1] == stack[..n - 1];
      assert stack[n - 1..len] == [stack[n - 1]] + stack[n..len];
      n := n - 1;
      out := out + [Opr(stack[n])];
    }
    assert stack[..len][n..] == stack[n..len];
  }

  // One activation of makepol, over the tokens not yet read; a nested activation gets a stack of
  // its own and appends to the same output.
  method RunMakePol<V>(depth: nat, ts: seq<Token<V>>, out0: seq<Node<V>>) returns (r: Polish<V>)
    ensures r == MakePol(depth, ts, [], out0)
    decreases |ts|
  {
    var stack := new char[depth];
    var lenstack, rest, out := 0, ts, out0;
    assert stack[..0] == [];
    while rest != []
      invariant lenstack <= depth && |rest| <= |ts|
      invariant MakePol(depth, ts, [], out0) == MakePol(depth, rest, stack[..lenstack], out)
      decreases |rest|
    {
      ghost var st := stack[..lenstack];
      var token := rest[0];
      rest := rest[1..];
      match token {
        case TVal(v) =>
          ghost var n := lenstack - RunLength(st);
          lenstack, out := PopRun(stack, lenstack, true, out + [Arg(v)]);
          assert st[..n] == stack[..lenstack];
        case TOpr(c) =>
          if lenstack > 0 && c == '|' {
            out := out + [Opr(c)];
          } else {
            if lenstack == depth {
              return TooDeep;
            }
            stack[lenstack] := c;
            lenstack := lenstack + 1;
            assert stack[..lenstack] == st + [c];
          }
        case TOpen =>
          var inner := RunMakePol(depth, rest, out);
          if !inner.Done? {
            return inner;
          }
          rest, out := inner.rest, inner.out;
          if lenstack > 0 && Tight(stack[lenstack - 1]) {
            lenstack := lenstack - 1;
            out := out + [Opr(stack[lenstack])];
            assert st[..|st| - 1] == stack[..lenstack];
          }
        case _ =>
          lenstack, out := PopRun(stack, lenstack, false, out);
          assert st[0..] == st;
          return Done(rest, out);
      }
    }
    return SyntaxError;
  }

  // ---------------------------------------------------------------- the linked array

  // An operator's operands lie before it in an intarray query (`up` false) and after it in an
  // ltxtquery, whose array is the reverse; `left` is the relative position of the left operand.
  datatype Item<V> = Item(node: Node<V>, left: int)

  function At(up: bool, pos: int, k: int): (i: int) { if up then pos + k else pos - k }

  // the cast to int2
  function Int2(x: int): (r: int)
    ensures -0x8000 <= r < 0x8000 && (r - x) % 0x1_0000 == 0
    ensures -0x8000 <= x < 0x8000 ==> r == x
  {
    (x + 0x8000) % 0x1_0000 - 0x8000
  }

  function Size<V>(e: Expr<V>): (n: nat)
    ensures n > 0
  {
    match e
    case Val(_) => 1
    case Not(x) => Size(x) + 1
    case _ => Size(e.l) + Size(e.r) + 1
  }

  lemma {:induction false} SizeOf<V>(e: Expr<V>)
    ensures Size(e) == |Postfix(e)|
  {
    match e
    case Val(_) =>
    case Not(x) => SizeOf(x);
    case _ => SizeOf(e.l); SizeOf(e.r);
  }

  // The Size(e) places from pos on lie inside an array of length n.
  predicate Room<V>(up: bool, n: nat, pos: int, e: Expr<V>) {
    0 <= pos < n && 0 <= At(up, pos, Size(e) - 1) < n
  }

  // The nodes of e, last first, are at pos.
  ghost predicate Holds<V>(up: bool, s: seq<Item<V>>, pos: int, e: Expr<V>) {
    && Room(up, |s|, pos, e) && Size(e) == |Postfix(e)|
    && forall k :: 0 <= k < Size(e) ==> s[At(up, pos, k)].node == Postfix(e)[Size(e) - 1 - k]
  }

  // The array at pos represents e, with its links.
  predicate Laid<V(==)>(up: bool, s: seq<Item<V>>, pos: int, e: Expr<V>)
    decreases e
  {
    Room(up, |s|, pos, e) &&
    match e
    case Val(v) => s[pos] == Item(Arg(v), 0)
    case Not(x) => s[pos] == Item(Opr('!'), At(up, 0, 1)) && Laid(up, s, At(up, pos, 1), x)
    case _ =>
      && s[pos] == Item(Opr(if e.And? then '&' else '|'), Int2(At(up, 0, Size(e.r) + 1)))
      && Laid(up, s, At(up, pos, 1), e.r) && Laid(up, s, At(up, pos, 1 + Size(e.r)), e.l)
  }

  ghost predicate SameNodes<V>(a: seq<Item<V>>, b: seq<Item<V>>) {
    |a| == |b| && forall i :: 0 <= i < |a| ==> a[i].node == b[i].node
  }

  // a and b agree outside the n places from pos on.
  ghost predicate SameOutside<V>(up: bool, a: seq<Item<V>>, b: seq<Item<V>>, pos: int, n: nat) {
    |a| == |b| && forall i :: 0 <= i < |a| && !(if up then pos <= i < pos + n else pos - n < i <= pos) ==> a[i] == b[i]
  }

  lemma {:induction false} LaidFrame<V>(up: bool, a: seq<Item<V>>, b: seq<Item<V>>, pos: int, e: Expr<V>)
    requires Laid(up, a, pos, e) && |a| == |b|
    requires forall k :: 0 <= k < Size(e) ==> b[At(up, pos, k)] == a[At(up, pos, k)]
    ensures Laid(up, b, pos, e)
    decreases e
  {
    assert At(up, pos, 0) == pos;
    match e
    case Val(_) =>
    case Not(x) =>
      SameBelow(up, a, b, pos, Size(e), 1, Size(x));
      LaidFrame(up, a, b, At(up, pos, 1), x);
    case _ =>
      SameBelow(up, a, b, pos, Size(e), 1, Size(e.r));
      SameBelow(up, a, b, pos, Size(e), 1 + Size(e.r), Size(e.l));
      LaidFrame(up, a, b, At(up, pos, 1), e.r);
      LaidFrame(up, a, b, At(up, pos, 1 + Size(e.r)), e.l);
  }

  // The same items in a stretch are the same items in a part of it.
  lemma {:induction false} SameBelow<V>(up: bool, a: seq<Item<V>>, b: seq<Item<V>>, pos: int, n: nat, i: nat, m: nat)
    requires |a| == |b| && i + m <= n && forall k :: 0 <= k < n ==> 0 <= At(up, pos, k) < |a|
    requires forall k :: 0 <= k < n ==> b[At(up, pos, k)] == a[At(up, pos, k)]
    ensures forall k :: 0 <= k < m ==> 0 <= At(up, At(up, pos, i), k) < |a|
    ensures forall k :: 0 <= k < m ==> b[At(up, At(up, pos, i), k)] == a[At(up, At(up, pos, i), k)]
  {
    var p := At(up, pos, i);
    forall k | 0 <= k < m ensures 0 <= At(up, p, k) < |a| && b[At(up, p, k)] == a[At(up, p, k)] {
      assert At(up, p, k) == At(up, pos, i + k);
    }
  }

  // The operands of an operator are where its postfix form says.
  lemma {:induction false} HoldsNot<V>(up: bool, s: seq<Item<V>>, pos: int, e: Expr<V>)
    requires Holds(up, s, pos, e) && e.Not?
    ensures Holds(up, s, At(up, pos, 1), e.e)
  {
    var p := At(up, pos, 1);
    SizeOf(e.e);
    forall k | 0 <= k < Size(e.e) ensures s[At(up, p, k)].node == Postfix(e.e)[Size(e.e) - 1 - k] {
      assert At(up, p, k) == At(up, pos, 1 + k);
    }
  }

  lemma {:induction false} HoldsRight<V>(up: bool, s: seq<Item<V>>, pos: int, e: Expr<V>)
    requires Holds(up, s, pos, e) && (e.And? || e.Or?)
    ensures Holds(up, s, At(up, pos, 1), e.r)
  {
    var p, n := At(up, pos, 1), Size(e);
    SizeOf(e.l);
    SizeOf(e.r);
    forall k | 0 <= k < Size(e.r) ensures s[At(up, p, k)].node == Postfix(e.r)[Size(e.r) - 1 - k] {
      assert s[At(up, pos, 1 + k)].node == Postfix(e)[n - 1 - (1 + k)];
    }
  }

  lemma {:induction false} HoldsLeft<V>(up: bool, s: seq<Item<V>>, pos: int, e: Expr<V>)
    requires Holds(up, s, pos, e) && (e.And? || e.Or?)
    ensures Holds(up, s, At(up, pos, 1 + Size(e.r)), e.l)
  {
    var q, n := At(up, pos, 1 + Size(e.r)), Size(e);
    SizeOf(e.l);
    SizeOf(e.r);
    forall k | 0 <= k < Size(e.l) ensures s[At(up, q, k)].node == Postfix(e.l)[Size(e.l) - 1 - k] {
      assert s[At(up, pos, 1 + Size(e.r) + k)].node == Postfix(e)[n - 1 - (1 + Size(e.r) + k)];
    }
  }

  lemma {:induction false} HoldsSame<V>(up: bool, a: seq<Item<V>>, b: seq<Item<V>>, pos: int, e: Expr<V>)
    requires Holds(up, a, pos, e) && SameNodes(a, b)
    ensures Holds(up, b, pos, e)
  {
  }

  // The array when the right operand is linked and the operator's own link has been set.
  ghost predicate Halfway<V>(up: bool, first: seq<Item<V>>, mid: seq<Item<V>>, pos: int, e: Expr<V>) {
    && (e.And? || e.Or?) && Room(up, |mid|, pos, e)
    && SameNodes(first, mid) && SameOutside(up, first, mid, pos, 1 + Size(e.r))
    && mid[pos] == Item(Opr(if e.And? then '&' else '|'), Int2(At(up, 0, Size(e.r) + 1)))
    && Laid(up, mid, At(up, pos, 1), e.r)
  }

  lemma {:induction false} MidPoint<V>(up: bool, first: seq<Item<V>>, right: seq<Item<V>>, mid: seq<Item<V>>, pos: int, e: Expr<V>)
    requires Holds(up, first, pos, e) && (e.And? || e.Or?)
    requires Laid(up, right, At(up, pos, 1), e.r)
    requires SameNodes(first, right) && SameOutside(up, first, right, At(up, pos, 1), Size(e.r))
    requires mid == right[pos := right[pos].(left := Int2(At(up, 0, Size(e.r) + 1)))]
    ensures Halfway(up, first, mid, pos, e) && Holds(up, mid, At(up, pos, 1 + Size(e.r)), e.l)
  {
    assert At(up, pos, 0) == pos;
    assert first[pos].node == Postfix(e)[Size(e) - 1];
    LaidFrame(up, right, mid, At(up, pos, 1), e.r);
    HoldsLeft(up, first, pos, e);
    HoldsSame(up, first, mid, At(up, pos, 1 + Size(e.r)), e.l);
  }

  // Linking the left operand leaves the right one and the operator as they are.
  lemma {:induction false} LaidBinary<V>(up: bool, first: seq<Item<V>>, mid: seq<Item<V>>, fin: seq<Item<V>>, pos: int, e: Expr<V>)
    requires Halfway(up, first, mid, pos, e) && SameNodes(mid, fin)
    requires SameOutside(up, mid, fin, At(up, pos, 1 + Size(e.r)), Size(e.l))
    requires Laid(up, fin, At(up, pos, 1 + Size(e.r)), e.l)
    ensures Laid(up, fin, pos, e) && SameNodes(first, fin) && SameOutside(up, first, fin, pos, Size(e))
  {
    LaidFrame(up, mid, fin, At(up, pos, 1), e.r);
  }

  // findoprnd: the operand ending at pos is e; its links are set and pos moves past it.
  method FindOprnd<V(==)>(up: bool, items: array<Item<V>>, pos: int, ghost e: Expr<V>) returns (p: int)
    requires Holds(up, items[..], pos, e)
    modifies items
    ensures p == At(up, pos, Size(e))
    ensures Laid(up, items[..], pos, e)
    ensures SameNodes(old(items[..]), items[..]) && SameOutside(up, old(items[..]), items[..], pos, Size(e))
    decreases e
  {
    assert At(up, pos, 0) == pos;
    ghost var first := items[..];
    assert first[pos].node == Postfix(e)[Size(e) - 1];
    var node := items[pos].node;
    if node.Arg? {
      items[pos] := items[pos].(left := 0);
      p := At(up, pos, 1);
    } else if node.c == '!' {
      HoldsNot(up, first, pos, e);
      items[pos] := items[pos].(left := At(up, 0, 1));
      HoldsSame(up, first, items[..], At(up, pos, 1), e.e);
      p := FindOprnd(up, items, At(up, pos, 1), e.e);
    } else {
      p := LinkBinary(up, items, pos, e);
    }
  }

  method LinkBinary<V(==)>(up: bool, items: array<Item<V>>, pos: int, ghost e: Expr<V>) returns (p: int)
    requires Holds(up, items[..], pos, e) && (e.And? || e.Or?)
    modifies items
    ensures p == At(up, pos, Size(e))
    ensures Laid(up, items[..], pos, e)
    ensures SameNodes(old(items[..]), items[..]) && SameOutside(up, old(items[..]), items[..], pos, Size(e))
    decreases e, 1
  {
    ghost var first := items[..];
    p := LinkRight(up, items, pos, e);
    ghost var mid := items[..];
    p := FindOprnd(up, items, p, e.l);
    LaidBinary(up, first, mid, items[..], pos, e);
  }

  // The right operand and the operator itself.
  method LinkRight<V(==)>(up: bool, items: array<Item<V>>, pos: int, ghost e: Expr<V>) returns (p: int)
    requires Holds(up, items[..], pos, e) && (e.And? || e.Or?)
    modifies items
    ensures p == At(up, pos, 1 + Size(e.r))
    ensures Halfway(up, old(items[..]), items[..], pos, e) && Holds(up, items[..], p, e.l)
    decreases e, 0
  {
    ghost var first := items[..];
    HoldsRight(up, first, pos, e);
    p := FindOprnd(up, items, At(up, pos, 1), e.r);
    p := SetLink(up, items, pos, p, first, e);
  }

  // Between the operands the operator is linked to the left one.
  method SetLink<V(==)>(up: bool, items: array<Item<V>>, pos: int, at: int, ghost first: seq<Item<V>>, ghost e: Expr<V>)
    returns (p: int)
    requires Holds(up, first, pos, e) && (e.And? || e.Or?)
    requires at == At(up, At(up, pos, 1), Size(e.r)) && Laid(up, items[..], At(up, pos, 1), e.r)
    requires SameNodes(first, items[..]) && SameOutside(up, first, items[..], At(up, pos, 1), Size(e.r))
    modifies items
    ensures p == At(up, pos, 1 + Size(e.r))
    ensures Halfway(up, first, items[..], pos, e) && Holds(up, items[..], p, e.l)
  {
    p := at;
    ghost var right := items[..];
    assert p - pos == At(up, 0, Size(e.r) + 1);
    items[pos] := items[pos].(left := Int2(p - pos));
    assert items[..] == right[pos := right[pos].(left := Int2(At(up, 0, Size(e.r) + 1)))];
    MidPoint(up, first, right, items[..], pos, e);
  }

  // ---------------------------------------------------------------- execute

  // Every link points inside the array, at an operand.
  ghost predicate WellLinked<V>(up: bool, s: seq<Item<V>>) {
    forall i :: 0 <= i < |s| ==> LinkOk(up, s, i)
  }

  predicate LinkOk<V>(up: bool, s: seq<Item<V>>, i: nat)
    requires i < |s|
  {
    s[i].node.Opr? ==>
      && 0 <= At(up, i, 1) < |s|
      && (s[i].node.c != '!' ==> 0 <= i + s[i].left < |s| && (if up then 0 < s[i].left else s[i].left < 0))
  }

  // All that evaluation from pos can come to is inside the array, and it comes to an end.
  predicate Reach<V>(up: bool, s: seq<Item<V>>, pos: int)
    decreases if up then |s| - pos else pos
  {
    && 0 <= pos < |s| && LinkOk(up, s, pos)
    && (s[pos].node.Opr? ==> Reach(up, s, At(up, pos, 1)) && (s[pos].node.c != '!' ==> Reach(up, s, pos + s[pos].left)))
  }

  lemma {:induction false} LinkedIsReached<V>(up: bool, s: seq<Item<V>>, pos: nat)
    requires WellLinked(up, s) && pos < |s|
    ensures Reach(up, s, pos)
    decreases if up then |s| - pos else pos
  {
    assert LinkOk(up, s, pos);
    if s[pos].node.Opr? {
      LinkedIsReached(up, s, At(up, pos, 1));
      if s[pos].node.c != '!' { LinkedIsReached(up, s, pos + s[pos].left); }
    }
  }

  predicate Execute<V>(up: bool, s: seq<Item<V>>, pos: nat, calcnot: bool, holds: V -> bool)
    requires Reach(up, s, pos)
    decreases if up then |s| - pos else pos
  {
    var item := s[pos];
    if item.node.Arg? then holds(item.node.v)
    else if item.node.c == '!' then
      if calcnot then (if Execute(up, s, At(up, pos, 1), calcnot, holds) then false else true) else true
    else if item.node.c == '&' then
      if Execute(up, s, pos + item.left, calcnot, holds) then Execute(up, s, At(up, pos, 1), calcnot, holds) else false
    else
      if Execute(up, s, pos + item.left, calcnot, holds) then true else Execute(up, s, At(up, pos, 1), calcnot, holds)
  }

  // No right operand is so long that the link over it overflows int2.
  predicate LinksFit<V>(up: bool, e: Expr<V>) {
    match e
    case Val(_) => true
    case Not(x) => LinksFit(up, x)
    case _ => LinksFit(up, e.l) && LinksFit(up, e.r) && Size(e.r) < (if up then 0x7FFF else 0x8000)
  }

  // Every binary operator is linked to its left operand.
  predicate RightLinks<V>(up: bool, s: seq<Item<V>>, pos: int, e: Expr<V>)
    decreases e
  {
    Room(up, |s|, pos, e) &&
    match e
    case Val(_) => true
    case Not(x) => RightLinks(up, s, At(up, pos, 1), x)
    case _ =>
      && s[pos].left == At(up, 0, Size(e.r) + 1)
      && RightLinks(up, s, At(up, pos, 1), e.r) && RightLinks(up, s, At(up, pos, 1 + Size(e.r)), e.l)
  }

  // The links that findoprnd writes are the right ones exactly if they fit.
  lemma {:induction false} LinksAreRightExactly<V>(up: bool, s: seq<Item<V>>, pos: int, e: Expr<V>)
    requires Laid(up, s, pos, e)
    ensures RightLinks(up, s, pos, e) <==> LinksFit(up, e)
    decreases e
  {
    match e
    case Val(_) =>
    case Not(x) => LinksAreRightExactly(up, s, At(up, pos, 1), x);
    case _ =>
      LinksAreRightExactly(up, s, At(up, pos, 1), e.r);
      LinksAreRightExactly(up, s, At(up, pos, 1 + Size(e.r)), e.l);
  }

  // Index mode over more values accepts whatever holds over fewer, for every array that can be
  // evaluated at all, whatever its items mean.
  lemma {:induction false} ExecuteIsSound<V(!new)>(up: bool, s: seq<Item<V>>, pos: nat, holds: V -> bool, more: V -> bool)
    requires Reach(up, s, pos) && forall v :: holds(v) ==> more(v)
    ensures Execute(up, s, pos, true, holds) ==> Execute(up, s, pos, false, more)
    decreases if up then |s| - pos else pos
  {
    if s[pos].node.Opr? && s[pos].node.c != '!' {
      ExecuteIsSound(up, s, At(up, pos, 1), holds, more);
      ExecuteIsSound(up, s, pos + s[pos].left, holds, more);
    }
  }

  // Evaluation depends on what holds only.
  lemma {:induction false} ExecuteIsPointwise<V(!new)>(up: bool, s: seq<Item<V>>, pos: nat, calcnot: bool, f: V -> bool, g: V -> bool)
    requires Reach(up, s, pos) && forall v :: f(v) == g(v)
    ensures Execute(up, s, pos, calcnot, f) == Execute(up, s, pos, calcnot, g)
    decreases if up then |s| - pos else pos
  {
    if s[pos].node.Opr? {
      ExecuteIsPointwise(up, s, At(up, pos, 1), calcnot, f, g);
      if s[pos].node.c != '!' { ExecuteIsPointwise(up, s, pos + s[pos].left, calcnot, f, g); }
    }
  }

  lemma {:induction false} ExecuteIsTruth<V>(up: bool, s: seq<Item<V>>, pos: nat, e: Expr<V>, holds: V -> bool)
    requires Laid(up, s, pos, e) && RightLinks(up, s, pos, e)
    ensures Reach(up, s, pos)
    ensures Execute(up, s, pos, true, holds) == Truth(e, holds)
    ensures Execute(up, s, pos, false, holds) == Possible(e, holds)
    decreases e
  {
    match e
    case Val(_) =>
    case Not(x) => ExecuteIsTruth(up, s, At(up, pos, 1), x, holds);
    case _ =>
      ExecuteIsTruth(up, s, At(up, pos, 1), e.r, holds);
      ExecuteIsTruth(up, s, At(up, pos, 1 + Size(e.r)), e.l, holds);
  }

  // No link over a right operand comes out with the wrong sign.
  predicate LinksInside<V>(up: bool, e: Expr<V>) {
    match e
    case Val(_) => true
    case Not(x) => LinksInside(up, x)
    case _ => LinksInside(up, e.l) && LinksInside(up, e.r) && Points(up, Int2(At(up, 0, Size(e.r) + 1)))
  }

  predicate Points(up: bool, left: int) { if up then 0 < left else left < 0 }

  lemma {:induction false} FitIsInside<V>(up: bool, e: Expr<V>)
    requires LinksFit(up, e)
    ensures LinksInside(up, e)
  {
    match e
    case Val(_) =>
    case Not(x) => FitIsInside(up, x);
    case _ =>
      FitIsInside(up, e.l);
      FitIsInside(up, e.r);
  }

  // All n items from pos on have good links.
  ghost predicate AllLinked<V>(up: bool, s: seq<Item<V>>, pos: int, n: nat) {
    forall k :: 0 <= k < n ==> 0 <= At(up, pos, k) < |s| && LinkOk(up, s, At(up, pos, k))
  }

  lemma {:induction false} AllLinkedSplit<V>(up: bool, s: seq<Item<V>>, pos: int, m: nat, n: nat)
    ensures AllLinked(up, s, pos, m + n) <==> AllLinked(up, s, pos, m) && AllLinked(up, s, At(up, pos, m), n)
  {
    assert forall k :: At(up, At(up, pos, m), k) == At(up, pos, m + k);
    if AllLinked(up, s, pos, m) && AllLinked(up, s, At(up, pos, m), n) {
      forall k | 0 <= k < m + n ensures 0 <= At(up, pos, k) < |s| && LinkOk(up, s, At(up, pos, k)) {
        assert k >= m ==> At(up, pos, k) == At(up, At(up, pos, m), k - m);
      }
    }
  }

  lemma {:induction false} Shrinks(x: int)
    ensures 0 < x && 0 < Int2(x) ==> Int2(x) <= x
    ensures x < 0 && Int2(x) < 0 ==> x <= Int2(x)
  {
  }

  lemma {:induction false} RootIsLinked<V>(up: bool, s: seq<Item<V>>, pos: int, e: Expr<V>)
    requires Laid(up, s, pos, e) && (e.And? || e.Or?)
    ensures AllLinked(up, s, pos, 1) <==> Points(up, Int2(At(up, 0, Size(e.r) + 1)))
  {
    assert At(up, pos, 0) == pos;
    Shrinks(At(up, 0, Size(e.r) + 1));
  }

  lemma {:induction false} SimpleRootIsLinked<V>(up: bool, s: seq<Item<V>>, pos: int, e: Expr<V>)
    requires Laid(up, s, pos, e) && (e.Val? || e.Not?)
    ensures AllLinked(up, s, pos, 1)
  {
    assert At(up, pos, 0) == pos;
  }

  lemma {:induction false} LaidIsLinked<V>(up: bool, s: seq<Item<V>>, pos: int, e: Expr<V>)
    requires Laid(up, s, pos, e)
    ensures AllLinked(up, s, pos, Size(e)) <==> LinksInside(up, e)
    decreases e
  {
    match e
    case Val(_) => SimpleRootIsLinked(up, s, pos, e);
    case Not(x) =>
      SimpleRootIsLinked(up, s, pos, e);
      LaidIsLinked(up, s, At(up, pos, 1), x);
      AllLinkedSplit(up, s, pos, 1, Size(x));
    case _ =>
      LaidIsLinked(up, s, At(up, pos, 1), e.r);
      LaidIsLinked(up, s, At(up, pos, 1 + Size(e.r)), e.l);
      BinaryIsLinked(up, s, pos, e);
  }

  lemma {:induction false} BinaryIsLinked<V>(up: bool, s: seq<Item<V>>, pos: int, e: Expr<V>)
    requires Laid(up, s, pos, e) && (e.And? || e.Or?)
    requires AllLinked(up, s, At(up, pos, 1), Size(e.r)) <==> LinksInside(up, e.r)
    requires AllLinked(up, s, At(up, pos, 1 + Size(e.r)), Size(e.l)) <==> LinksInside(up, e.l)
    ensures AllLinked(up, s, pos, Size(e)) <==> LinksInside(up, e)
  {
    RootIsLinked(up, s, pos, e);
    AllLinkedParts(up, s, pos, e);
  }

  lemma {:induction false} AllLinkedParts<V>(up: bool, s: seq<Item<V>>, pos: int, e: Expr<V>)
    requires e.And? || e.Or?
    ensures AllLinked(up, s, pos, Size(e)) <==>
            && AllLinked(up, s, pos, 1) && AllLinked(up, s, At(up, pos, 1), Size(e.r))
            && AllLinked(up, s, At(up, pos, 1 + Size(e.r)), Size(e.l))
  {
    AllLinkedSplit(up, s, pos, 1, Size(e.r));
    AllLinkedSplit(up, s, pos, 1 + Size(e.r), Size(e.l));
    assert Size(e) == 1 + Size(e.r) + Size(e.l);
  }

  // Evaluation can start at any of the n items from pos on.
  ghost predicate AllReached<V>(up: bool, s: seq<Item<V>>, pos: int, n: nat) {
    forall k :: 0 <= k < n ==> Reach(up, s, At(up, pos, k))
  }

  lemma {:induction false} AllReachedJoin<V>(up: bool, s: seq<Item<V>>, pos: int, m: nat, n: nat)
    requires AllReached(up, s, pos, m) && AllReached(up, s, At(up, pos, m), n)
    ensures AllReached(up, s, pos, m + n)
  {
    forall k | 0 <= k < m + n ensures Reach(up, s, At(up, pos, k)) {
      assert k >= m ==> At(up, pos, k) == At(up, At(up, pos, m), k - m);
    }
  }

  // What findoprnd has linked can be evaluated if no link has the wrong sign, also where a link that
  // does not fit leads to an item before the left operand.
  lemma {:induction false} LaidIsReached<V>(up: bool, s: seq<Item<V>>, pos: int, e: Expr<V>)
    requires Laid(up, s, pos, e) && LinksInside(up, e)
    ensures AllReached(up, s, pos, Size(e))
    decreases e
  {
    match e
    case Val(_) =>
    case Not(x) =>
      LaidIsReached(up, s, At(up, pos, 1), x);
      UnaryIsReached(up, s, pos, e);
    case _ =>
      LaidIsReached(up, s, At(up, pos, 1), e.r);
      LaidIsReached(up, s, At(up, pos, 1 + Size(e.r)), e.l);
      AllReachedBelow(up, s, pos, e);
      BinaryIsReached(up, s, pos, e);
  }

  lemma {:induction false} UnaryIsReached<V>(up: bool, s: seq<Item<V>>, pos: int, e: Expr<V>)
    requires Laid(up, s, pos, e) && e.Not? && AllReached(up, s, At(up, pos, 1), Size(e.e))
    ensures AllReached(up, s, pos, Size(e))
  {
    assert At(up, At(up, pos, 1), 0) == At(up, pos, 1) && At(up, pos, 0) == pos;
    AllReachedJoin(up, s, pos, 1, Size(e.e));
  }

  lemma {:induction false} AllReachedBelow<V>(up: bool, s: seq<Item<V>>, pos: int, e: Expr<V>)
    requires e.And? || e.Or?
    requires AllReached(up, s, At(up, pos, 1), Size(e.r)) && AllReached(up, s, At(up, pos, 1 + Size(e.r)), Size(e.l))
    ensures AllReached(up, s, At(up, pos, 1), Size(e.r) + Size(e.l))
  {
    assert At(up, At(up, pos, 1), Size(e.r)) == At(up, pos, 1 + Size(e.r));
    AllReachedJoin(up, s, At(up, pos, 1), Size(e.r), Size(e.l));
  }

  lemma {:induction false} BinaryIsReached<V>(up: bool, s: seq<Item<V>>, pos: int, e: Expr<V>)
    requires Laid(up, s, pos, e) && (e.And? || e.Or?) && Points(up, Int2(At(up, 0, Size(e.r) + 1)))
    requires AllReached(up, s, At(up, pos, 1), Size(e.r) + Size(e.l))
    ensures AllReached(up, s, pos, Size(e))
  {
    var left := s[pos].left;
    Shrinks(At(up, 0, Size(e.r) + 1));
    var k := (if up then left else -left) - 1;
    assert At(up, At(up, pos, 1), k) == pos + left && At(up, At(up, pos, 1), 0) == At(up, pos, 1);
    assert Reach(up, s, pos) && At(up, pos, 0) == pos;
    AllReachedJoin(up, s, pos, 1, Size(e.r) + Size(e.l));
    assert Size(e) == 1 + (Size(e.r) + Size(e.l));
  }

  // Where evaluation starts: intarray at its last item, ltxtquery at its first.
  function Start<V>(up: bool, s: seq<Item<V>>): (pos: int) { if up then 0 else |s| - 1 }

  lemma {:induction false} StartIsReached<V>(up: bool, s: seq<Item<V>>, e: Expr<V>)
    requires Laid(up, s, Start(up, s), e) && LinksInside(up, e)
    ensures Reach(up, s, Start(up, s))
  {
    LaidIsReached(up, s, Start(up, s), e);
    assert At(up, Start(up, s), 0) == Start(up, s);
  }

  // The array built from a whole query: intarray copies the postfix form, ltxtquery copies it
  // reversed.
  ghost predicate Compiled<V>(up: bool, s: seq<Item<V>>, e: Expr<V>) {
    |s| == Size(e) && Laid(up, s, Start(up, s), e)
  }

  // Every link of a compiled query points at an operand inside the array exactly if none has the
  // wrong sign, which no link that fits has.
  lemma {:induction false} CompiledIsLinked<V>(up: bool, s: seq<Item<V>>, e: Expr<V>)
    requires Compiled(up, s, e)
    ensures WellLinked(up, s) <==> LinksInside(up, e)
    ensures LinksFit(up, e) ==> LinksInside(up, e)
  {
    var pos := Start(up, s);
    LaidIsLinked(up, s, pos, e);
    assert WellLinked(up, s) <==> AllLinked(up, s, pos, |s|) by {
      if AllLinked(up, s, pos, |s|) {
        forall i | 0 <= i < |s| ensures LinkOk(up, s, i) {
          assert At(up, pos, if up then i else |s| - 1 - i) == i;
        }
      }
    }
    if LinksFit(up, e) { FitIsInside(up, e); }
  }

  lemma {:induction false} EndOf<V>(out: seq<Node<V>>, junk: seq<Node<V>>, post: seq<Node<V>>, k: nat)
    requires out == junk + post && k < |post|
    ensures out[|out| - 1 - k] == post[|post| - 1 - k]
  {
  }

  lemma {:induction false} HoldsCopy<V>(up: bool, s: seq<Item<V>>, out: seq<Node<V>>, junk: seq<Node<V>>, e: Expr<V>)
    requires |s| == |out| && Size(e) == |Postfix(e)| && out == junk + Postfix(e)
    requires forall i :: 0 <= i < |s| ==> s[i].node == out[if up then |s| - 1 - i else i]
    ensures Holds(up, s, Start(up, s), e)
  {
    var pos, post := Start(up, s), Postfix(e);
    forall k | 0 <= k < Size(e) ensures s[At(up, pos, k)].node == post[Size(e) - 1 - k] {
      EndOf(out, junk, post, k);
    }
  }

  // The items in their order, linked from the last operand back; only what it needs is linked.
  method CopyAndLink<V(==,0)>(up: bool, out: seq<Node<V>>, ghost junk: seq<Node<V>>, ghost e: Expr<V>) returns (s: seq<Item<V>>)
    requires out == junk + Postfix(e)
    ensures |s| == |out| && Size(e) == |Postfix(e)| && Laid(up, s, Start(up, s), e)
  {
    SizeOf(e);
    var items := CopyNodes(up, out);
    HoldsCopy(up, items[..], out, junk, e);
    s := LinkAll(up, items, e);
  }

  method LinkAll<V(==)>(up: bool, items: array<Item<V>>, ghost e: Expr<V>) returns (s: seq<Item<V>>)
    requires Holds(up, items[..], Start(up, items[..]), e)
    modifies items
    ensures |s| == items.Length && Laid(up, s, Start(up, s), e)
  {
    var pos := FindOprnd(up, items, if up then 0 else items.Length - 1, e);
    s := items[..];
  }

  method CopyNodes<V(==,0)>(up: bool, out: seq<Node<V>>) returns (items: array<Item<V>>)
    ensures fresh(items) && items.Length == |out|
    ensures forall i :: 0 <= i < |out| ==> items[..][i].node == out[if up then |out| - 1 - i else i]
  {
    var num := |out|;
    items := new Item<V>[num](i requires 0 <= i < num => Item(if up then out[num - 1 - i] else out[i], 0));
  }

  // From the text of a query to its truth value: if no link has the wrong sign, what was linked can
  // be evaluated and index mode is sound; if the links fit, evaluation is exactly the meaning.
  lemma {:induction false} CompiledQueryIsRight<V(!new)>(up: bool, s: seq<Item<V>>, e: Expr<V>, holds: V -> bool, more: V -> bool)
    requires Laid(up, s, Start(up, s), e)
    requires forall v :: holds(v) ==> more(v)
    ensures RightLinks(up, s, Start(up, s), e) <==> LinksFit(up, e)
    ensures LinksFit(up, e) ==> LinksInside(up, e)
    ensures LinksInside(up, e) ==> Reach(up, s, Start(up, s))
    ensures LinksInside(up, e) ==>
              (Execute(up, s, Start(up, s), true, holds) ==> Execute(up, s, Start(up, s), false, more))
    ensures LinksFit(up, e) ==> Execute(up, s, Start(up, s), true, holds) == Truth(e, holds)
  {
    var pos := Start(up, s);
    LinksAreRightExactly(up, s, pos, e);
    if LinksFit(up, e) {
      FitIsInside(up, e);
      ExecuteIsTruth(up, s, pos, e, holds);
    }
    if LinksInside(up, e) {
      StartIsReached(up, s, e);
      ExecuteIsSound(up, s, pos, holds, more);
    }
  }

  // `x & !(y) | z` is read as `(x | !y) & z`: the pending & is applied after the |.
  lemma {:induction false} UntidyQueryIsMisread<V>(depth: nat, x: V, y: V, z: V)
    requires depth >= 2
    ensures !TidyD(Untidy(x, y, z))
    ensures MakePol(depth, TokensD(Untidy(x, y, z)) + [TEnd], [], []) ==
            Done([], Postfix(And(Or(Val(x), Not(Val(y))), Val(z))))
  {
    var rest := [TOpr('|')] + ([TVal(z)] + [TEnd]);
    var inner := [TVal(y)] + ([TClose] + rest);
    UntidyTokens(x, y, z);
    MisreadInside(depth, x, y, rest);
    MisreadOutside(depth, x, y, inner, rest);
    MisreadEnd(depth, x, y, z);
  }

  // x & !(y) | z
  function Untidy<V>(x: V, y: V, z: V): (d: Disj<V>) {
    MoreD(JustC(MoreC(JustF(Value(x)), Bang(Paren(JustC(JustF(Value(y))))))), JustF(Value(z)))
  }

  lemma {:induction false} UntidyTokens<V>(x: V, y: V, z: V)
    ensures !TidyD(Untidy(x, y, z))
    ensures TokensD(Untidy(x, y, z)) + [TEnd] ==
            [TVal(x)] + ([TOpr('&')] + ([TOpr('!')] + ([TOpen] + ([TVal(y)] + ([TClose] + ([TOpr('|')] + ([TVal(z)] + [TEnd])))))))
  {
    var c1: Conj<V> := JustF(Value(y));
    var f1: Factor<V> := Paren(JustC(c1));
    var f: Factor<V> := Bang(f1);
    assert TokensC(c1) == [TVal(y)] && TokensD(JustC(c1)) == [TVal(y)];
    assert TokensF(f1) == [TOpen, TVal(y), TClose] && TokensF(f) == [TOpr('!'), TOpen, TVal(y), TClose];
    var c0: Conj<V> := JustF(Value(x));
    var c: Conj<V> := MoreC(c0, f);
    assert TokensC(c0) == [TVal(x)];
    assert TokensC(c) == [TVal(x), TOpr('&'), TOpr('!'), TOpen, TVal(y), TClose] == TokensD(JustC(c));
    var c2: Conj<V> := JustF(Value(z));
    assert TokensC(c2) == [TVal(z)];
    assert LeftF(f, ['&']) == ['&'] by { assert (['&'] + ['!'])[..1] == ['&']; }
  }

  lemma {:induction false} MisreadInside<V>(depth: nat, x: V, y: V, rest: seq<Token<V>>)
    ensures MakePol(depth, [TVal(y)] + ([TClose] + rest), [], [Arg(x)]) == Done(rest, [Arg(x)] + [Arg(y)])
  {
    assert Ops<V>([]) == [];
    StepVal(depth, y, [], [], [Arg(x)], [TClose] + rest);
    assert ([TClose] + rest)[1..] == rest;
  }

  lemma {:induction false} MisreadOutside<V>(depth: nat, x: V, y: V, inner: seq<Token<V>>, rest: seq<Token<V>>)
    requires depth >= 2 && MakePol(depth, inner, [], [Arg(x)]) == Done(rest, [Arg(x)] + [Arg(y)])
    ensures MakePol(depth, [TVal(x)] + ([TOpr('&')] + ([TOpr('!')] + ([TOpen] + inner))), [], []) ==
            MakePol(depth, rest, ['&'], [Arg(x), Arg(y), Opr('!')])
  {
    StepVal(depth, x, [], [], [], [TOpr('&')] + ([TOpr('!')] + ([TOpen] + inner)));
    assert [] + ([Arg(x)] + Ops([])) == [Arg(x)];
    StepPush(depth, '&', [], [Arg(x)], [TOpr('!')] + ([TOpen] + inner));
    StepPush(depth, '!', ['&'], [Arg(x)], [TOpen] + inner);
    StepParen(depth, inner, [], ['&', '!'], [Arg(x)], [Arg(y)], rest);
    assert [] + ['&'] == ['&'] && ['&'] + ['!'] == ['&', '!'] == [] + ['&', '!'];
    assert [] + (['&', '!'])[..1] == ['&'];
    assert [Arg(x)] + ([Arg(y)] + [Opr('!')]) == [Arg(x), Arg(y), Opr('!')];
  }

  lemma {:induction false} MisreadEnd<V>(depth: nat, x: V, y: V, z: V)
    ensures MakePol(depth, [TOpr('|')] + ([TVal(z)] + [TEnd]), ['&'], [Arg(x), Arg(y), Opr('!')]) ==
            Done([], Postfix(And(Or(Val(x), Not(Val(y))), Val(z))))
  {
    var first: seq<Node<V>>, out: seq<Node<V>> := [Arg(x), Arg(y), Opr('!')], [Arg(x), Arg(y), Opr('!'), Opr('|')];
    assert first + [Opr('|')] == out;
    MisreadRest(depth, z, ['&'], first, out);
    MisreadForm(x, y, z, out);
  }

  lemma {:induction false} MisreadRest<V>(depth: nat, z: V, stack: seq<char>, first: seq<Node<V>>, out: seq<Node<V>>)
    requires stack != [] && AllTight(stack) && out == first + [Opr('|')]
    ensures MakePol(depth, [TOpr('|')] + ([TVal(z)] + [TEnd]), stack, first) == Done([], out + ([Arg(z)] + Ops(stack)))
  {
    StepSecondBar(depth, stack, first, [TVal(z)] + [TEnd]);
    assert [] + stack == stack;
    StepVal(depth, z, [], stack, out, [TEnd]);
    StepEnd(depth, out + ([Arg(z)] + Ops(stack)));
  }

  // A bar over waiting operators goes straight to the output.
  lemma {:induction false} StepSecondBar<V>(depth: nat, stack: seq<char>, out: seq<Node<V>>, rest: seq<Token<V>>)
    requires stack != []
    ensures MakePol(depth, [TOpr('|')] + rest, stack, out) == MakePol(depth, rest, stack, out + [Opr('|')])
  {
    assert ([TOpr('|')] + rest)[1..] == rest;
  }

  lemma {:induction false} StepEnd<V>(depth: nat, out: seq<Node<V>>)
    ensures MakePol(depth, [TEnd], [], out) == Done([], out)
  {
    assert out + Ops([]) == out;
  }

  lemma {:induction false} MisreadForm<V>(x: V, y: V, z: V, out: seq<Node<V>>)
    requires out == [Arg(x), Arg(y), Opr('!'), Opr('|')]
    ensures Postfix(And(Or(Val(x), Not(Val(y))), Val(z))) == out + ([Arg(z)] + Ops(['&']))
  {
    var e: Expr<V> := Or(Val(x), Not(Val(y)));
    assert Postfix(Not(Val(y))) == [Arg(y), Opr('!')] && Postfix(Val(z)) == [Arg(z)];
    assert Postfix(e) == out;
  }
}

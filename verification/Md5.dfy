/**
 The streaming part of MD5 (contrib/pgcrypto/md5.c) against RFC 1321: a message taken in by any
 sequence of calls leaves the state that its padded blocks leave, and the length in the padding is
 right exactly under a condition on the calls.  The compression of one block is a parameter.
 */
module Md5 {
  import opened Blocks
  import opened Wrappers

  const TWO32: nat := 0x1_0000_0000
  const TWO29: nat := 0x2000_0000

  // ---------------------------------------------------------------- padding, sections 3.1 and 3.2

  // The length in eight bytes, the least significant first.
  function Length64(n: nat): (b: seq<Byte>)
    ensures |b| == 8
  {
    seq(8, i requires 0 <= i < 8 => ByteOf(n, i))
  }

  // A one bit, zeros and the given length.
  function Padding(len: nat, bits: nat): (p: seq<Byte>) { [0x80] + Zeros(PadZeros(len)) + Length64(bits) }

  function Padded(text: seq<Byte>): (p: seq<Byte>) { text + Padding(|text|, |text| * 8 % TWO64) }

  lemma {:induction false} PaddedIsWhole(text: seq<Byte>)
    ensures |Padded(text)| % 64 == 0
  {
    WholeLength(|text|);
  }

  // ---------------------------------------------------------------- the count of bits

  // What the code counts over some calls: each length is multiplied by eight in 32 bits.
  function Counted(chunks: seq<seq<Byte>>): (n: nat) {
    if chunks == [] then 0
    else (Counted(chunks[..|chunks| - 1]) + |chunks[|chunks| - 1]| * 8 % TWO32) % TWO64
  }

  // How often the 32 bits overflow.
  function Overflows(chunks: seq<seq<Byte>>): (n: nat) {
    if chunks == [] then 0 else Overflows(chunks[..|chunks| - 1]) + |chunks[|chunks| - 1]| / TWO29
  }

  lemma {:induction false} Split32(n: nat)
    ensures n * 8 == TWO32 * (n / TWO29) + n * 8 % TWO32 && n * 8 / TWO32 == n / TWO29
  {
  }

  // The count and what the overflows lost make up the length.
  lemma {:induction false} CountedAndLost(chunks: seq<seq<Byte>>)
    ensures (Counted(chunks) + TWO32 * Overflows(chunks)) % TWO64 == |Concat(chunks)| * 8 % TWO64
    ensures Counted(chunks) < TWO64
  {
    if chunks != [] {
      var front, len := chunks[..|chunks| - 1], |chunks[|chunks| - 1]|;
      CountedAndLost(front);
      Split32(len);
      var c, l, o := Counted(front), len * 8 % TWO32, Overflows(front);
      AddMod(c + l, TWO32 * Overflows(chunks));
      assert TWO32 * Overflows(chunks) == TWO32 * o + TWO32 * (len / TWO29);
      AddMod(c + TWO32 * o, len * 8);
      AddMod(|Concat(front)| * 8, len * 8);
    }
  }

  lemma {:induction false} AddMod(x: nat, y: nat)
    ensures (x % TWO64 + y) % TWO64 == (x + y) % TWO64
  {
    ModDrop(x % TWO64 + y, x / TWO64);
    assert x + y == TWO64 * (x / TWO64) + (x % TWO64 + y);
  }

  // The count is the length in bits modulo 2^64 exactly if the number of overflows is a multiple
  // of 2^32.
  lemma {:induction false} CountIsRightExactly(chunks: seq<seq<Byte>>)
    ensures Counted(chunks) == |Concat(chunks)| * 8 % TWO64 <==> Overflows(chunks) % TWO32 == 0
  {
    CountedAndLost(chunks);
    LostNothing(Counted(chunks), Overflows(chunks));
  }

  lemma {:induction false} LostNothing(c: nat, o: nat)
    requires c < TWO64
    ensures (c + TWO32 * o) % TWO64 == c <==> o % TWO32 == 0
  {
    var q, r := o / TWO32, o % TWO32;
    assert c + TWO32 * o == TWO64 * q + (c + TWO32 * r);
    ModDrop(c + TWO32 * r, q);
    assert r > 0 ==> (c + TWO32 * r) % TWO64 == if c + TWO32 * r < TWO64 then c + TWO32 * r else c + TWO32 * r - TWO64;
  }

  // In particular one call is counted right exactly below 2^29 bytes, and any number of them are
  // if all are.
  lemma {:induction false} OneCall(input: seq<Byte>)
    requires |input| < TWO32
    ensures Counted([input]) == |input| * 8 % TWO64 <==> |input| < TWO29
  {
    assert [input][..0] == [] && Counted([]) == 0 && Overflows([]) == 0 && Concat([]) == [];
    assert Concat([input]) == input && Overflows([input]) == |input| / TWO29;
    CountIsRightExactly([input]);
  }

  lemma {:induction false} SmallCalls(chunks: seq<seq<Byte>>)
    requires forall i :: 0 <= i < |chunks| ==> |chunks[i]| < TWO29
    ensures Overflows(chunks) == 0 && Counted(chunks) == |Concat(chunks)| * 8 % TWO64
  {
    NoOverflow(chunks);
    CountIsRightExactly(chunks);
  }

  lemma {:induction false} NoOverflow(chunks: seq<seq<Byte>>)
    requires forall i :: 0 <= i < |chunks| ==> |chunks[i]| < TWO29
    ensures Overflows(chunks) == 0
  {
    if chunks != [] {
      NoOverflow(chunks[..|chunks| - 1]);
    }
  }

  // ---------------------------------------------------------------- the code

  // The padding the code copies: from a table that starts with 0x80 and goes on with zeros.
  const PADDAT := [0x80] + Zeros(63)

  lemma {:induction false} TableStart(n: nat)
    requires 1 <= n <= 64
    ensures PADDAT[..n] == [0x80] + Zeros(n - 1)
  {
    assert Zeros(63)[..n - 1] == Zeros(n - 1);
  }

  lemma {:induction false} TableRest(n: nat)
    requires 1 <= n <= 8
    ensures PADDAT[n..n + 56] == Zeros(56)
  {
  }

  class Context<S> {
    const step: (S, seq<Byte>) -> S
    const init: S
    var st: S
    var n: nat
    var i: nat
    const buf: array<Byte>

    // The context has taken in `text`; the bytes of the last block are in the buffer.
    ghost predicate Taken(text: seq<Byte>)
      reads this, buf
    {
      buf.Length == 64 && i < 64 && st == Fold(step, init, text) && buf[..i] == Tail(text)
    }

    // The calls so far were `chunks`.
    ghost predicate Holds(chunks: seq<seq<Byte>>)
      reads this, buf
    {
      Taken(Concat(chunks)) && n == Counted(chunks)
    }

    // md5_init
    constructor (step: (S, seq<Byte>) -> S, init: S)
      ensures this.step == step && this.init == init && Holds([]) && fresh(buf)
    {
      this.step := step;
      this.init := init;
      st := init;
      n := 0;
      i := 0;
      buf := new Byte[64](_ => 0);
    }

    // bcopy into the buffer
    method CopyIn(at: nat, piece: seq<Byte>)
      requires buf.Length == 64 && at + |piece| <= 64
      modifies buf
      ensures buf[..at] == old(buf[..at]) && buf[at..at + |piece|] == piece
      ensures buf[..at + |piece|] == old(buf[..at]) + piece
    {
      for j := 0 to |piece|
        invariant buf[..at] == old(buf[..at]) && buf[at..at + j] == piece[..j]
      {
        buf[at + j] := piece[j];
        assert buf[at..at + j + 1] == buf[at..at + j] + [piece[j]];
        assert piece[..j + 1] == piece[..j] + [piece[j]];
      }
      assert piece[..|piece|] == piece;
      assert buf[..at + |piece|] == buf[..at] + buf[at..at + |piece|];
    }

    // Bytes that fill the buffer, which is then taken in.
    method FillUp(piece: seq<Byte>, ghost text: seq<Byte>)
      requires Taken(text) && i + |piece| == 64
      modifies this`st, buf
      ensures st == Fold(step, init, text + piece) && Tail(text + piece) == []
    {
      CopyIn(i, piece);
      FoldFull(step, init, text, piece);
      assert buf[..64] == buf[..];
      st := step(st, buf[..]);
    }

    // Blocks straight from the input, and what is left into the buffer.  The index of the code
    // runs from gap on in 32 bits; when it wraps, the loop does not end.
    method Blockwise(input: seq<Byte>, gap: nat, ghost text: seq<Byte>) returns (ends: bool)
      requires buf.Length == 64 && st == Fold(step, init, text) && Tail(text) == []
      requires gap <= 64 && gap + |input| < TWO32
      modifies this`st, this`i, buf
      ensures ends <==> gap + LastBlock(|input|) + 64 < TWO32
      ensures ends ==> Taken(text + input)
    {
      var off := 0;
      ends := true;
      assert text + input[..0] == text;
      while ends && (gap + off + 64) % TWO32 <= gap + |input|
        invariant off <= |input| && off % 64 == 0
        invariant ends ==> st == Fold(step, init, text + input[..off]) && Tail(text + input[..off]) == []
        invariant !ends ==> gap + off + 64 >= TWO32
        decreases ends, |input| - off
      {
        if gap + off + 64 >= TWO32 {
          ends := false;
        } else {
          BlockStep(step, init, text, input, off);
          st := step(st, input[off..off + 64]);
          off := off + 64;
        }
      }
      LastBlockIs(|input|, off);
      if ends {
        RestStep(step, init, text, input, off);
        i := |input| - off;
        CopyIn(0, input[off..]);
        assert buf[..i] == buf[0..i];
      }
    }

    // md5_loop
    method Loop(input: seq<Byte>, ghost chunks: seq<seq<Byte>>) returns (ends: bool)
      requires Holds(chunks) && |input| < TWO32
      modifies this, buf
      ensures ends <==> Ends(old(i), |input|)
      ensures ends ==> Holds(chunks + [input])
    {
      ghost var text := Concat(chunks);
      assert (chunks + [input])[..|chunks|] == chunks;
      n := (n + |input| * 8 % TWO32) % TWO64;
      var gap := 64 - i;
      if |input| >= gap {
        FillUp(input[..gap], text);
        ends := Blockwise(input[gap..], gap, text + input[..gap]);
        assert input == input[..gap] + input[gap..];
        assert text + input == (text + input[..gap]) + input[gap..];
      } else {
        CopyIn(i, input);
        FoldPart(step, init, text, input);
        i := i + |input|;
        ends := true;
      }
    }

    // The last block: some bytes up to the place of the length, and the length.
    method Close(at: nat, piece: seq<Byte>, ghost text: seq<Byte>)
      requires buf.Length == 64 && st == Fold(step, init, text) && at + |piece| == 56
      requires at == |Tail(text)| && buf[..at] == Tail(text)
      modifies this`st, buf
      ensures st == Fold(step, init, text + (piece + Length64(n)))
    {
      CopyIn(at, piece);
      CopyIn(56, Length64(n));
      FoldFull(step, init, text, piece + Length64(n));
      assert buf[..64] == buf[..];
      assert (Tail(text) + piece) + Length64(n) == Tail(text) + (piece + Length64(n));
      st := step(st, buf[..]);
    }

    // md5_pad
    method Pad(ghost text: seq<Byte>)
      requires Taken(text)
      modifies this`st, buf
      ensures st == Fold(step, init, text + Padding(|text|, n))
    {
      var gap := 64 - i;
      TailLength(text);
      if gap > 8 {
        PadShort(text, gap, n);
        Close(i, PADDAT[..gap - 8], text);
      } else {
        PadLong(text, gap, n);
        FillUp(PADDAT[..gap], text);
        Close(0, PADDAT[gap..gap + 56], text + PADDAT[..gap]);
      }
    }
  }

  // Where the bytes that fill no block begin.
  function LastBlock(len: nat): (at: nat) { len - len % 64 }

  lemma {:induction false} LastBlockIs(len: nat, off: nat)
    requires off <= len < off + 64 && off % 64 == 0
    ensures LastBlock(len) == off
  {
  }

  // A call of md5_loop with `i` bytes in the buffer ends.
  predicate Ends(i: nat, len: nat)
    requires i < 64
  {
    var gap := 64 - i;
    len < gap || gap + LastBlock(len - gap) + 64 < TWO32
  }

  lemma {:induction false} BlockStep<S>(step: (S, seq<Byte>) -> S, init: S, text: seq<Byte>, input: seq<Byte>, off: nat)
    requires off + 64 <= |input| && Tail(text + input[..off]) == []
    ensures Fold(step, init, text + input[..off + 64]) ==
            step(Fold(step, init, text + input[..off]), input[off..off + 64])
    ensures Tail(text + input[..off + 64]) == []
  {
    var block := input[off..off + 64];
    FoldFull(step, init, text + input[..off], block);
    Chunk(text, input, off, off + 64);
    assert [] + block == block;
  }

  lemma {:induction false} RestStep<S>(step: (S, seq<Byte>) -> S, init: S, text: seq<Byte>, input: seq<Byte>, off: nat)
    requires off <= |input| < off + 64 && Tail(text + input[..off]) == []
    ensures Fold(step, init, text + input) == Fold(step, init, text + input[..off])
    ensures Tail(text + input) == input[off..]
  {
    var rest := input[off..];
    FoldPart(step, init, text + input[..off], rest);
    Chunk(text, input, off, |input|);
    assert input[..|input|] == input;
    assert [] + rest == rest;
  }

  lemma {:induction false} PadShort(text: seq<Byte>, gap: nat, n: nat)
    requires 8 < gap <= 64 && gap == 64 - |text| % 64
    ensures text + Padding(|text|, n) == text + (PADDAT[..gap - 8] + Length64(n))
  {
    TableStart(gap - 8);
    assert PadZeros(|text|) == gap - 9;
  }

  lemma {:induction false} PadLong(text: seq<Byte>, gap: nat, n: nat)
    requires 1 <= gap <= 8 && gap == 64 - |text| % 64
    ensures text + Padding(|text|, n) == (text + PADDAT[..gap]) + (PADDAT[gap..gap + 56] + Length64(n))
  {
    TableStart(gap);
    TableRest(gap);
    assert PadZeros(|text|) == gap - 1 + 56;
    assert Zeros(gap - 1) + Zeros(56) == Zeros(gap - 1 + 56);
  }

  // Every call ends.
  predicate AllEnd(chunks: seq<seq<Byte>>) { forall j :: 0 <= j < |chunks| ==> CallEnds(chunks, j) }

  predicate CallEnds(chunks: seq<seq<Byte>>, j: nat)
    requires j < |chunks|
  {
    Ends(|Concat(chunks[..j])| % 64, |chunks[j]|)
  }

  // Calls of less than 2^32 - 64 bytes do.
  lemma {:induction false} ShortCallsEnd(i: nat, len: nat)
    requires i < 64 && len + 64 < TWO32
    ensures Ends(i, len)
  {
  }

  // However a message is cut into calls, the state is that of its padded blocks exactly as far as
  // the count is right, unless a call does not end.
  method HashChunks<S>(step: (S, seq<Byte>) -> S, init: S, chunks: seq<seq<Byte>>) returns (r: Option<S>)
    requires forall j :: 0 <= j < |chunks| ==> |chunks[j]| < TWO32
    ensures r.Some? <==> AllEnd(chunks)
    ensures r.Some? ==> r.value == Fold(step, init, Concat(chunks) + Padding(|Concat(chunks)|, Counted(chunks)))
    ensures r.Some? && Overflows(chunks) % TWO32 == 0 ==> r.value == Fold(step, init, Padded(Concat(chunks)))
  {
    var context := new Context(step, init);
    var ends := TakeIn(context, chunks);
    if !ends {
      return None;
    }
    context.Pad(Concat(chunks));
    CountIsRightExactly(chunks);
    r := Some(context.st);
  }

  // The calls one after the other.
  method TakeIn<S>(context: Context<S>, chunks: seq<seq<Byte>>) returns (ends: bool)
    requires context.Holds([]) && forall j :: 0 <= j < |chunks| ==> |chunks[j]| < TWO32
    modifies context, context.buf
    ensures ends <==> AllEnd(chunks)
    ensures ends ==> context.Holds(chunks)
  {
    for j := 0 to |chunks|
      invariant context.Holds(chunks[..j])
      invariant forall k :: 0 <= k < j ==> CallEnds(chunks, k)
    {
      ends := TakeNext(context, chunks, j);
      if !ends {
        return;
      }
    }
    assert chunks[..|chunks|] == chunks;
    return true;
  }

  method TakeNext<S>(context: Context<S>, chunks: seq<seq<Byte>>, j: nat) returns (ends: bool)
    requires j < |chunks| && context.Holds(chunks[..j]) && |chunks[j]| < TWO32
    modifies context, context.buf
    ensures ends <==> CallEnds(chunks, j)
    ensures ends ==> context.Holds(chunks[..j + 1])
  {
    TailLength(Concat(chunks[..j]));
    ends := context.Loop(chunks[j], chunks[..j]);
    assert chunks[..j + 1] == chunks[..j] + [chunks[j]];
  }
}

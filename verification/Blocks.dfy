/**
 Bytes and words, and texts taken in by blocks of sixty-four bytes, as both digests of pgcrypto do
 (contrib/pgcrypto/sha1.c and contrib/pgcrypto/md5.c).
 */
module Blocks {
  type Byte = bv8
  type Word = bv32

  const BLOCK := 64
  const TWO64: nat := 0x1_0000_0000_0000_0000

  // The whole blocks of a text taken in one after the other.
  function Fold<S>(step: (S, seq<Byte>) -> S, h: S, text: seq<Byte>): (q: S)
    decreases |text|
  {
    if |text| < BLOCK then h else Fold(step, step(h, text[..BLOCK]), text[BLOCK..])
  }

  // What is left after the whole blocks.
  function Tail(text: seq<Byte>): (rest: seq<Byte>)
    ensures |rest| < BLOCK
  {
    if |text| < BLOCK then text else Tail(text[BLOCK..])
  }

  function Zeros(n: nat): (z: seq<Byte>)
    ensures |z| == n
  {
    seq(n, _ => 0)
  }

  // Byte i of a number, counted from the least significant.
  function ByteOf(n: nat, i: nat): (b: Byte)
    decreases i
  {
    if i == 0 then (n % 256) as Byte else ByteOf(n / 256, i - 1)
  }

  // Four bytes are a word, the first the most significant.
  function WordOf(b0: Byte, b1: Byte, b2: Byte, b3: Byte): (w: Word) {
    ((b0 as Word) << 24) | ((b1 as Word) << 16) | ((b2 as Word) << 8) | (b3 as Word)
  }

  function WordBytes(w: Word): (b: seq<Byte>)
    ensures |b| == 4
  {
    [(w >> 24) as Byte, ((w >> 16) & 0xff) as Byte, ((w >> 8) & 0xff) as Byte, (w & 0xff) as Byte]
  }

  function Concat(chunks: seq<seq<Byte>>): (text: seq<Byte>) {
    if chunks == [] then [] else Concat(chunks[..|chunks| - 1]) + chunks[|chunks| - 1]
  }

  lemma {:induction false} TailLength(text: seq<Byte>)
    ensures |Tail(text)| == |text| % BLOCK
  {
    if |text| >= BLOCK {
      TailLength(text[BLOCK..]);
    }
  }

  // More bytes that do not fill the block.
  lemma {:induction false} FoldPart<S>(step: (S, seq<Byte>) -> S, h: S, text: seq<Byte>, more: seq<Byte>)
    requires |Tail(text)| + |more| < BLOCK
    ensures Fold(step, h, text + more) == Fold(step, h, text) && Tail(text + more) == Tail(text) + more
    decreases |text|
  {
    if |text| >= BLOCK {
      assert (text + more)[..BLOCK] == text[..BLOCK] && (text + more)[BLOCK..] == text[BLOCK..] + more;
      FoldPart(step, step(h, text[..BLOCK]), text[BLOCK..], more);
    }
  }

  // More bytes that fill it.
  lemma {:induction false} FoldFull<S>(step: (S, seq<Byte>) -> S, h: S, text: seq<Byte>, more: seq<Byte>)
    requires |Tail(text)| + |more| == BLOCK
    ensures Fold(step, h, text + more) == step(Fold(step, h, text), Tail(text) + more) && Tail(text + more) == []
    decreases |text|
  {
    if |text| >= BLOCK {
      assert (text + more)[..BLOCK] == text[..BLOCK] && (text + more)[BLOCK..] == text[BLOCK..] + more;
      FoldFull(step, step(h, text[..BLOCK]), text[BLOCK..], more);
    } else {
      assert (text + more)[..BLOCK] == text + more && (text + more)[BLOCK..] == [];
    }
  }

  // One more chunk of the input.
  lemma {:induction false} Chunk(text: seq<Byte>, input: seq<Byte>, i: nat, j: nat)
    requires i <= j <= |input|
    ensures text + input[..j] == (text + input[..i]) + input[i..j]
  {
  }

  lemma {:induction false} Assoc(a: seq<Byte>, b: seq<Byte>, c: seq<Byte>)
    ensures (a + b) + c == a + (b + c)
  {
  }

  lemma {:induction false} Regroup(a: seq<Byte>, b: seq<Byte>, c: seq<Byte>, d: seq<Byte>)
    ensures a + (b + c + d) == a + b + c + d
  {
  }

  lemma {:induction false} ModDrop(x: nat, q: nat)
    ensures (TWO64 * q + x) % TWO64 == x % TWO64
  {
    if q > 0 {
      ModDrop(x, q - 1);
      assert TWO64 * q + x == TWO64 + (TWO64 * (q - 1) + x);
    }
  }

  // The zeros before the length, after the one bit: as many as it takes to make whole blocks with
  // the eight bytes of the length.
  function PadZeros(len: nat): (n: nat) { (119 - len % 64) % 64 }

  lemma {:induction false} PadZerosIs(len: nat, c: nat)
    requires c == (len + 1) % 64
    ensures PadZeros(len) == if 64 - c < 8 then 120 - c else 56 - c
  {
  }

  lemma {:induction false} WholeLength(n: nat)
    ensures (n + 1 + PadZeros(n) + 8) % 64 == 0
  {
    var q, r := n / 64, n % 64;
    assert n + 1 + (119 - r) % 64 + 8 == if r <= 55 then 64 * (q + 1) else 64 * (q + 2);
  }
}

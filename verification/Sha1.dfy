/**
 SHA-1 (contrib/pgcrypto/sha1.c) against FIPS 180-1: the schedule kept in a queue of sixteen words
 is the schedule of eighty, and a message taken in by any sequence of calls gives the digest of the
 padded message.
 */
module Sha1 {
  import opened Blocks

  datatype Regs = Regs(a: Word, b: Word, c: Word, d: Word, e: Word)

  // ---------------------------------------------------------------- one block, FIPS 180-1 section 7

  function Rotate1(x: Word): (r: Word) { (x << 1) | (x >> 31) }

  function Rotate5(x: Word): (r: Word) { (x << 5) | (x >> 27) }

  function Rotate30(x: Word): (r: Word) { (x << 30) | (x >> 2) }

  function K(t: nat): (k: Word) {
    if t < 20 then 0x5a827999 else if t < 40 then 0x6ed9eba1 else if t < 60 then 0x8f1bbcdc else 0xca62c1d6
  }

  function F(t: nat, b: Word, c: Word, d: Word): (r: Word) {
    if t < 20 then (b & c) | ((!b) & d)
    else if t < 40 then b ^ c ^ d
    else if t < 60 then (b & c) | (b & d) | (c & d)
    else b ^ c ^ d
  }

  function Mix(x: Word, y: Word, z: Word, w: Word): (r: Word) { Rotate1(((x ^ y) ^ z) ^ w) }

  // Word t of the schedule of a block of sixteen words.
  function Schedule(block: seq<Word>, t: nat): (w: Word)
    requires |block| == 16
  {
    if t < 16 then block[t]
    else Mix(Schedule(block, t - 3), Schedule(block, t - 8), Schedule(block, t - 14), Schedule(block, t - 16))
  }

  function Round(t: nat, r: Regs, w: Word): (q: Regs) {
    Regs(Rotate5(r.a) + F(t, r.b, r.c, r.d) + r.e + w + K(t), r.a, Rotate30(r.b), r.c, r.d)
  }

  // The registers after t rounds.
  function Rounds(r: Regs, block: seq<Word>, t: nat): (q: Regs)
    requires |block| == 16
  {
    if t == 0 then r else Round(t - 1, Rounds(r, block, t - 1), Schedule(block, t - 1))
  }

  function Add(r: Regs, q: Regs): (s: Regs) { Regs(r.a + q.a, r.b + q.b, r.c + q.c, r.d + q.d, r.e + q.e) }

  function Words(bytes: seq<Byte>): (block: seq<Word>)
    requires |bytes| == BLOCK
    ensures |block| == 16
  {
    seq(16, i requires 0 <= i < 16 => WordOf(bytes[4 * i], bytes[4 * i + 1], bytes[4 * i + 2], bytes[4 * i + 3]))
  }

  // Only whole blocks are ever taken in.
  function Compress(h: Regs, bytes: seq<Byte>): (q: Regs) {
    if |bytes| == BLOCK then Add(h, Rounds(h, Words(bytes), 80)) else h
  }

  // ---------------------------------------------------------------- messages, section 4

  const INIT := Regs(0x67452301, 0xefcdab89, 0x98badcfe, 0x10325476, 0xc3d2e1f0)

  // A 64-bit number in eight bytes, the most significant first.
  function Length64(n: nat): (b: seq<Byte>)
    ensures |b| == 8
  {
    seq(8, i requires 0 <= i < 8 => ByteOf(n, 7 - i))
  }

  // A one bit, as many zeros as it takes, and the length of the message in bits, modulo 2^64, in
  // eight bytes, so that whole blocks come out.
  function Padding(len: nat): (p: seq<Byte>) {
    [0x80] + Zeros(PadZeros(len)) + Length64(len * 8 % TWO64)
  }

  function Padded(text: seq<Byte>): (p: seq<Byte>) { text + Padding(|text|) }

  function Digest(h: Regs): (d: seq<Byte>)
    ensures |d| == 20
  {
    WordBytes(h.a) + WordBytes(h.b) + WordBytes(h.c) + WordBytes(h.d) + WordBytes(h.e)
  }

  function Sha1(text: seq<Byte>): (d: seq<Byte>)
    ensures |d| == 20
  {
    Digest(Fold(Compress, INIT, Padded(text)))
  }

  // ---------------------------------------------------------------- the queue of words, section 8

  // The queue holds the sixteen words of the schedule before word n.
  ghost predicate Queue(w: seq<Word>, block: seq<Word>, n: nat) {
    |w| == |block| == 16 <= n && forall j :: n - 16 <= j < n ==> w[j % 16] == Schedule(block, j)
  }

  lemma {:induction false} QueueStart(block: seq<Word>)
    requires |block| == 16
    ensures Queue(block, block, 16)
  {
  }

  function QueueNext(w: seq<Word>, s: nat): (x: Word)
    requires |w| == 16 && s < 16
  {
    Mix(w[Wrap(s + 13)], w[Wrap(s + 8)], w[Wrap(s + 2)], w[s])
  }

  // The low four bits of a number below thirty-two.
  function Wrap(x: nat): (y: nat)
    requires x < 32
    ensures y < 16 && y == x % 16
  {
    if x < 16 then x else x - 16
  }

  lemma {:induction false} QueueAt(w: seq<Word>, block: seq<Word>, n: nat, d: nat)
    requires Queue(w, block, n) && 1 <= d <= 16
    ensures w[(n - d) % 16] == Schedule(block, n - d)
  {
  }

  lemma {:induction false} ModIs(x: nat, q: nat, r: nat)
    requires x == 16 * q + r && r < 16
    ensures x % 16 == r
  {
  }

  // d back from n, in the queue.
  lemma {:induction false} Slot(n: nat, d: nat)
    requires n >= 16 && 1 <= d <= 16
    ensures (n - d) % 16 == (n % 16 + (16 - d)) % 16
  {
    var q, s := n / 16, n % 16;
    if s >= d {
      ModIs(n - d, q, s - d);
      ModIs(s + (16 - d), 1, s - d);
    } else {
      ModIs(n - d, q - 1, s + 16 - d);
      ModIs(s + (16 - d), 0, s + 16 - d);
    }
  }

  lemma {:induction false} ScheduleStep(block: seq<Word>, n: nat)
    requires |block| == 16 <= n
    ensures Schedule(block, n) ==
            Mix(Schedule(block, n - 3), Schedule(block, n - 8), Schedule(block, n - 14), Schedule(block, n - 16))
  {
  }

  lemma {:induction false} QueueBack(w: seq<Word>, block: seq<Word>, n: nat, s: nat, d: nat)
    requires Queue(w, block, n) && s == n % 16 && 1 <= d <= 16
    ensures w[Wrap(s + (16 - d))] == Schedule(block, n - d)
  {
    QueueAt(w, block, n, d);
    Slot(n, d);
  }

  lemma {:induction false} QueueNextIs(w: seq<Word>, block: seq<Word>, n: nat, s: nat)
    requires Queue(w, block, n) && s == n % 16
    ensures QueueNext(w, s) == Schedule(block, n)
  {
    QueueBack(w, block, n, s, 3);
    QueueBack(w, block, n, s, 8);
    QueueBack(w, block, n, s, 14);
    QueueBack(w, block, n, s, 16);
    ScheduleStep(block, n);
  }

  lemma {:induction false} OtherSlot(j: nat, n: nat)
    requires j < n <= j + 15
    ensures j % 16 != n % 16
  {
  }

  lemma {:induction false} QueueMove(w: seq<Word>, block: seq<Word>, n: nat, s: nat, x: Word)
    requires Queue(w, block, n) && s == n % 16 && x == Schedule(block, n)
    ensures Queue(w[s := x], block, n + 1)
  {
    forall j | n - 15 <= j < n + 1 ensures w[s := x][j % 16] == Schedule(block, j) {
      if j < n {
        OtherSlot(j, n);
      }
    }
  }

  // ---------------------------------------------------------------- the padding

  // The eight bytes of the length go in one by one.
  lemma {:induction false} LengthPart(n: nat, i: nat)
    requires i < 8
    ensures Length64(n)[..i + 1] == Length64(n)[..i] + [ByteOf(n, 7 - i)]
  {
  }

  // The zeros that the code puts in after c bytes of a block: to the end of the block if the
  // length does not fit there any more, and then up to the place of the length.
  function Filling(c: nat): (z: seq<Byte>)
    requires c < 64
  {
    if 64 - c < 8 then Zeros(64 - c) + Zeros(56) else Zeros(56 - c)
  }

  lemma {:induction false} PaddedIs(text: seq<Byte>)
    ensures Padded(text) == text + [0x80] + Filling(|Tail(text + [0x80])|) + Length64(|text| * 8 % TWO64)
  {
    TailLength(text + [0x80]);
    var c := |Tail(text + [0x80])|;
    PadZerosIs(|text|, c);
    assert Filling(c) == Zeros(PadZeros(|text|));
    Regroup(text, [0x80], Filling(c), Length64(|text| * 8 % TWO64));
  }

  // Padding gives whole blocks.
  lemma {:induction false} PaddedIsWhole(text: seq<Byte>)
    ensures |Padded(text)| % 64 == 0 && Tail(Padded(text)) == []
  {
    var n := |text|;
    assert |Padded(text)| == n + 1 + PadZeros(n) + 8;
    WholeLength(n);
    TailLength(Padded(text));
  }

  // ---------------------------------------------------------------- the code

  // The five hundred and twelve bits are loaded as big-endian words.
  method LoadWords(m: array<Byte>) returns (w: array<Word>)
    requires m.Length == 64
    ensures fresh(w) && w.Length == 16 && w[..] == Words(m[..])
  {
    w := new Word[16];
    for i := 0 to 16
      invariant forall j :: 0 <= j < i ==> w[j] == Words(m[..])[j]
    {
      w[i] := WordOf(m[4 * i], m[4 * i + 1], m[4 * i + 2], m[4 * i + 3]);
    }
  }

  // The eighty rounds over the queue of words.
  method RunRounds(w: array<Word>, h: Regs) returns (r: Regs)
    requires w.Length == 16
    modifies w
    ensures r == Rounds(h, old(w[..]), 80)
  {
    ghost var block := w[..];
    QueueStart(block);
    r := h;
    for t := 0 to 80
      invariant Queue(w[..], block, if t < 16 then 16 else t) && r == Rounds(h, block, t)
    {
      var s := t % 16;
      if t >= 16 {
        QueueNextIs(w[..], block, t, s);
        QueueMove(w[..], block, t, s, Schedule(block, t));
        w[s] := Mix(w[Wrap(s + 13)], w[Wrap(s + 8)], w[Wrap(s + 2)], w[s]);
      } else {
        QueueAt(w[..], block, 16, 16 - t);
      }
      r := Round(t, r, w[s]);
    }
  }

  class Context {
    var h: Regs
    var bits: nat
    var count: nat
    const m: array<Byte>

    // The context has taken in `text`; the bytes of the last block are in the buffer.
    ghost predicate Taken(text: seq<Byte>)
      reads this, m
    {
      m.Length == 64 && count < 64 && h == Fold(Compress, INIT, text) && m[..count] == Tail(text)
    }

    ghost predicate Holds(text: seq<Byte>)
      reads this, m
    {
      Taken(text) && bits == |text| * 8 % TWO64
    }

    // sha1_init
    constructor ()
      ensures Holds([]) && fresh(m)
    {
      h := INIT;
      bits := 0;
      count := 0;
      m := new Byte[64](_ => 0);
    }

    // sha1_init on a used context
    method Reset()
      requires m.Length == 64
      modifies this, m
      ensures Holds([])
    {
      h := INIT;
      bits := 0;
      count := 0;
      for i := 0 to 64
        invariant h == INIT && bits == 0 && count == 0
      {
        m[i] := 0;
      }
    }

    // sha1_step
    method Step()
      requires m.Length == 64
      modifies this`h, m
      ensures h == Compress(old(h), old(m[..]))
    {
      var w := LoadWords(m);
      var r := RunRounds(w, h);
      h := Add(h, r);
      for i := 0 to 64
        invariant h == Compress(old(h), old(m[..]))
      {
        m[i] := 0;
      }
    }

    // The buffer has got some more bytes; a full one is compressed.
    method Advance(n: nat, ghost text: seq<Byte>, ghost more: seq<Byte>)
      requires m.Length == 64 && n == |more| && count + n <= 64
      requires count == |Tail(text)| && h == Fold(Compress, INIT, text) && m[..count + n] == Tail(text) + more
      modifies this`h, this`count, m
      ensures Taken(text + more)
    {
      count := count + n;
      if count == 64 {
        FoldFull(Compress, INIT, text, more);
        assert m[..] == m[..64];
        count := 0;
        Step();
      } else {
        FoldPart(Compress, INIT, text, more);
      }
    }

    // PUTPAD
    method PutPad(x: Byte, ghost text: seq<Byte>)
      requires Taken(text)
      modifies this`h, this`count, m
      ensures Taken(text + [x])
    {
      m[count] := x;
      assert m[..count + 1] == m[..count] + [x];
      Advance(1, text, [x]);
    }

    // Some zeros, within the block.
    method PutZeros(n: nat, ghost text: seq<Byte>)
      requires Taken(text) && count + n <= 64
      modifies this`h, this`count, m
      ensures Taken(text + Zeros(n)) && count == (if old(count) + n == 64 then 0 else old(count) + n)
    {
      ClearBytes(n);
      assert m[..count + n] == m[..count] + m[count..count + n];
      FoldPartOrFull(text, Zeros(n));
      Advance(n, text, Zeros(n));
    }

    method ClearBytes(n: nat)
      requires m.Length == 64 && count + n <= 64
      modifies m
      ensures m[..count] == old(m[..count]) && m[count..count + n] == Zeros(n)
    {
      for i := 0 to n
        invariant m[..count] == old(m[..count]) && m[count..count + i] == Zeros(i)
      {
        m[count + i] := 0;
        assert m[count..count + i + 1] == m[count..count + i] + [0];
        assert Zeros(i + 1) == Zeros(i) + [0];
      }
    }

    // Some bytes of the input, within the block.
    method PutBytes(input: seq<Byte>, ghost text: seq<Byte>)
      requires Taken(text) && count + |input| <= 64
      modifies this`h, this`count, m
      ensures Taken(text + input)
    {
      for i := 0 to |input|
        invariant count == old(count) && h == old(h) && m[..count] == Tail(text) && m[count..count + i] == input[..i]
      {
        m[count + i] := input[i];
        assert m[count..count + i + 1] == m[count..count + i] + [input[i]];
        assert input[..i + 1] == input[..i] + [input[i]];
      }
      assert m[..count + |input|] == m[..count] + m[count..count + |input|];
      assert input[..|input|] == input;
      Advance(|input|, text, input);
    }

    // sha1_loop
    method Loop(input: seq<Byte>, ghost text: seq<Byte>)
      requires Holds(text)
      modifies this, m
      ensures Holds(text + input)
    {
      var off := 0;
      assert text + input[..0] == text;
      while off < |input|
        invariant off <= |input| && Holds(text + input[..off])
      {
        var gaplen := 64 - count;
        var copysiz := if gaplen < |input| - off then gaplen else |input| - off;
        Chunk(text, input, off, off + copysiz);
        TakePiece(input[off..off + copysiz], text + input[..off]);
        off := off + copysiz;
      }
      assert input[..|input|] == input;
    }

    // A piece that fits the block, counted.
    method TakePiece(piece: seq<Byte>, ghost text: seq<Byte>)
      requires Holds(text) && count + |piece| <= 64
      modifies this, m
      ensures Holds(text + piece)
    {
      CountBits(|text|, |piece|);
      PutBytes(piece, text);
      bits := (bits + |piece| * 8) % TWO64;
    }

    // sha1_pad
    method Pad(ghost text: seq<Byte>)
      requires Holds(text)
      modifies this`h, this`count, m
      ensures h == Fold(Compress, INIT, Padded(text))
    {
      PutPad(0x80, text);
      PutFilling(text + [0x80]);
      PaddedIs(text);
      PutLength(text + [0x80] + Filling(|Tail(text + [0x80])|));
    }

    method PutFilling(ghost text: seq<Byte>)
      requires Taken(text)
      modifies this`h, this`count, m
      ensures Taken(text + Filling(|Tail(text)|)) && count == 56
    {
      if 64 - count < 8 {
        ghost var z := Zeros(64 - count);
        PutZeros(64 - count, text);
        PutZeros(56, text + z);
        Assoc(text, z, Zeros(56));
      } else {
        PutZeros(56 - count, text);
      }
    }

    // The length, most significant byte first.
    method PutLength(ghost text: seq<Byte>)
      requires Taken(text) && count == 56
      modifies this`h, this`count, m
      ensures h == Fold(Compress, INIT, text + Length64(bits))
    {
      ghost var n := bits;
      assert text + Length64(n)[..0] == text;
      for i := 0 to 8
        invariant Taken(text + Length64(n)[..i]) && bits == n
      {
        LengthPart(n, i);
        assert text + Length64(n)[..i + 1] == (text + Length64(n)[..i]) + [ByteOf(n, 7 - i)];
        PutPad(ByteOf(bits, 7 - i), text + Length64(n)[..i]);
      }
      assert Length64(n)[..8] == Length64(n);
    }

    // sha1_result
    method Result(ghost text: seq<Byte>) returns (digest: seq<Byte>)
      requires Holds(text)
      modifies this, m
      ensures digest == Sha1(text)
    {
      Pad(text);
      digest := Digest(h);
    }
  }

  lemma {:induction false} CountBits(len: nat, n: nat)
    ensures (len * 8 % TWO64 + n * 8) % TWO64 == (len + n) * 8 % TWO64
  {
    var q := len * 8 / TWO64;
    assert (len + n) * 8 == TWO64 * q + (len * 8 % TWO64 + n * 8);
    ModDrop(len * 8 % TWO64 + n * 8, q);
  }

  lemma {:induction false} FoldPartOrFull(text: seq<Byte>, more: seq<Byte>)
    requires |Tail(text)| + |more| <= 64
    ensures |Tail(text + more)| == (if |Tail(text)| + |more| == 64 then 0 else |Tail(text)| + |more|)
  {
    if |Tail(text)| + |more| == 64 {
      FoldFull(Compress, INIT, text, more);
    } else {
      FoldPart(Compress, INIT, text, more);
    }
  }

  // However a message is cut into calls, the result is its digest.
  method HashChunks(chunks: seq<seq<Byte>>) returns (digest: seq<Byte>)
    ensures digest == Sha1(Concat(chunks))
  {
    var context := new Context();
    for i := 0 to |chunks|
      invariant context.Holds(Concat(chunks[..i])) && fresh(context) && fresh(context.m)
    {
      assert chunks[..i + 1][..i] == chunks[..i];
      context.Loop(chunks[i], Concat(chunks[..i]));
    }
    assert chunks[..|chunks|] == chunks;
    digest := context.Result(Concat(chunks));
  }
}
